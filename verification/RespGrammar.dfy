/** The language the RESP parser accepts, and the numbers `strtoll` reads. */
module RespGrammar {
  import opened Bytes
  import opened Resp
  import opened RespStream

  // ---- numbers ----

  /** What digits stand for, most significant first. */
  function Value(s: seq<byte>): int {
    if s == [] then 0 else (s[0] as int - 48) * Pow10(|s| - 1) + Value(s[1..])
  }

  /** White space, a sign or none, one digit or more, and nothing else; cut at `i` and `k`. */
  ghost predicate NumeralAt(s: seq<byte>, n: int, i: nat, k: nat) {
    && i <= k < |s|
    && (forall j | 0 <= j < i :: s[j] == 32 || 9 <= s[j] <= 13)
    && (s[i..k] == [] || s[i..k] == [43] || s[i..k] == [45])
    && (forall j | k <= j < |s| :: 48 <= s[j] <= 57)
    && n == if s[i..k] == [45] then 0 - Value(s[k..]) else Value(s[k..])
  }

  /** At most 31 bytes that write a number of 64 bits. */
  ghost predicate Numeral(s: seq<byte>, n: int) {
    |s| <= 31 && 0 - 0x8000_0000_0000_0000 <= n < 0x8000_0000_0000_0000 && exists i: nat, k: nat :: NumeralAt(s, n, i, k)
  }

  lemma {:induction false} ValueLast(s: seq<byte>)
    requires s != []
    ensures Value(s) == 10 * Value(s[..|s| - 1]) + (s[|s| - 1] as int - 48)
  {
    var l := |s| - 1;
    if l == 0 {
      assert s[1..] == [] && s[..0] == [];
    } else {
      ValueLast(s[1..]);
      assert s[1..][..l - 1] == s[..l][1..];
      assert s[..l][0] == s[0];
    }
  }

  lemma {:induction false} DecimalIsValue(s: seq<byte>)
    requires AllDigits(s)
    ensures Decimal(s) == Value(s)
  {
    if s != [] {
      ValueLast(s);
      DecimalIsValue(s[..|s| - 1]);
    }
  }

  lemma {:induction false} SkipSpaceIs(s: seq<byte>, i: nat, j: nat)
    requires i <= j <= |s| && (forall k | i <= k < j :: IsSpace(s[k])) && (j < |s| ==> !IsSpace(s[j]))
    ensures SkipSpace(s, i) == j
    decreases j - i
  {
    if i < j { SkipSpaceIs(s, i + 1, j); }
  }

  lemma {:induction false} SkipSpaceSkips(s: seq<byte>, i: nat)
    requires i <= |s|
    ensures forall k | i <= k < SkipSpace(s, i) :: IsSpace(s[k])
    decreases |s| - i
  {
    if i < |s| && IsSpace(s[i]) { SkipSpaceSkips(s, i + 1); }
  }

  lemma NumeralParses(s: seq<byte>, n: int, i: nat, k: nat)
    requires |s| <= 31 && NumeralAt(s, n, i, k)
    ensures ParseInt64(s) == InRange(n)
  {
    assert i < k ==> s[i] == s[i..k][0];
    SkipSpaceIs(s, 0, i);
    DecimalIsValue(s[k..]);
    hide Decimal;
    hide Value;
    hide SkipSpace;
    assert k == if i < |s| && (s[i] == 43 || s[i] == 45) then i + 1 else i;
  }

  lemma ParsedIsNumeral(s: seq<byte>)
    requires ParseInt64(s).Some?
    ensures Numeral(s, ParseInt64(s).value)
  {
    hide Decimal;
    hide Value;
    hide SkipSpace;
    var i := SkipSpace(s, 0);
    SkipSpaceSkips(s, 0);
    var k := if i < |s| && (s[i] == 43 || s[i] == 45) then i + 1 else i;
    DecimalIsValue(s[k..]);
    DigitsFrom(s, k);
    SignIs(s, i, k);
    assert NumeralAt(s, ParseInt64(s).value, i, k);
  }

  lemma DigitsFrom(s: seq<byte>, k: nat)
    requires k <= |s| && AllDigits(s[k..])
    ensures forall j | k <= j < |s| :: 48 <= s[j] <= 57
  {
    forall j | k <= j < |s| ensures 48 <= s[j] <= 57 {
      assert s[k..][j - k] == s[j];
    }
  }

  lemma SignIs(s: seq<byte>, i: nat, k: nat)
    requires i <= k <= |s| && k <= i + 1
    ensures s[i..k] == if k == i then [] else [s[i]]
  {
  }

  /** `parse_int64` accepts exactly the numerals, each at its value. */
  lemma NumbersExactly(s: seq<byte>, n: int)
    ensures ParseInt64(s) == Some(n) <==> Numeral(s, n)
  {
    hide ParseInt64;
    if ParseInt64(s) == Some(n) { ParsedIsNumeral(s); }
    if Numeral(s, n) {
      var i: nat, k: nat :| NumeralAt(s, n, i, k);
      NumeralParses(s, n, i, k);
    }
  }

  // ---- commands ----

  /** One bulk string as it is on the wire: its length as written, its bytes, and the two behind them, which may be any. */
  datatype Part = Part(len: seq<byte>, bytes: seq<byte>, pad: seq<byte>)

  predicate NoCrlf(s: seq<byte>) { forall j | 0 <= j < |s| - 1 :: !(s[j] == 13 && s[j + 1] == 10) }

  /** A number that the first CR LF ends. */
  ghost predicate Header(s: seq<byte>, n: nat) { Numeral(s, n) && NoCrlf(s) }

  ghost predicate PartOk(p: Part) {
    Header(p.len, |p.bytes|) && |p.bytes| <= 65536 && |p.pad| == 2
  }

  function Wire(p: Part): seq<byte> { [36] + p.len + [13, 10] + p.bytes + p.pad }

  function WireAll(ps: seq<Part>): seq<byte> {
    if ps == [] then [] else Wire(ps[0]) + WireAll(ps[1..])
  }

  function Strings(ps: seq<Part>): (ss: seq<seq<byte>>)
    ensures |ss| == |ps|
  {
    seq(|ps|, i requires 0 <= i < |ps| => ps[i].bytes)
  }

  ghost predicate AllOk(ps: seq<Part>) { forall i | 0 <= i < |ps| :: PartOk(ps[i]) }

  /** The first `n` bytes of `b` are a command of these parts. */
  ghost predicate Framed(b: seq<byte>, n: nat, count: seq<byte>, ps: seq<Part>) {
    && n <= |b| && b[..n] == [42] + count + [13, 10] + WireAll(ps)
    && Header(count, |ps|) && |ps| <= 128 && AllOk(ps)
  }

  lemma {:induction false} FindCrlfFirst(b: seq<byte>, p: nat, c: nat)
    requires p <= c && CrlfAt(b, c) && forall i | p <= i < c :: !CrlfAt(b, i)
    ensures FindCrlf(b, p) == Some(c)
    decreases c - p
  {
    if p < c { FindCrlfFirst(b, p + 1, c); }
  }

  lemma {:induction false} FindCrlfIsFirst(b: seq<byte>, p: nat)
    ensures var r := FindCrlf(b, p); r.Some? ==> forall i | p <= i < r.value :: !CrlfAt(b, i)
    decreases |b| - p
  {
    if p + 1 < |b| && !CrlfAt(b, p) { FindCrlfIsFirst(b, p + 1); }
  }

  lemma HeaderEnds(len: seq<byte>, n: nat)
    requires Header(len, n)
    ensures ParseInt64(len) == Some(n) && len != [] && len[|len| - 1] != 13 && NoCrlf(len)
  {
    NumbersExactly(len, n);
    hide ParseInt64;
    var i: nat, k: nat :| NumeralAt(len, n, i, k);
    assert 48 <= len[|len| - 1] <= 57;
  }

  lemma FirstLine(b: seq<byte>, p: nat, mark: byte, len: seq<byte>, rest: seq<byte>)
    requires p <= |b| && mark != 13 && len != [] && len[|len| - 1] != 13 && NoCrlf(len)
    requires b[p..] == [mark] + len + [13, 10] + rest
    ensures var c := p + 1 + |len|;
            && CrlfAt(b, c) && b[p + 1..c] == len && b[c + 2..] == rest && b[p] == mark
            && forall i | p <= i < c :: !CrlfAt(b, i)
  {
    var c := p + 1 + |len|;
    LineParts(mark, len, rest);
    Tail(b, p, 1, 1 + |len|);
    Tail(b, p, 0, 0);
    Tail(b, p, 0, 1 + |len|);
    Tail(b, p, 0, 2 + |len|);
    Tail(b, p, 0, 3 + |len|);
    assert forall i | p < i < c :: b[i] == b[p + 1..c][i - p - 1];
  }

  /** A line of one marker byte and a number, read and written. */
  lemma HeaderReads(b: seq<byte>, p: nat, mark: byte, len: seq<byte>, n: nat, rest: seq<byte>)
    requires p <= |b| && mark != 13 && Header(len, n) && b[p..] == [mark] + len + [13, 10] + rest
    ensures var c := p + 1 + |len|;
            && FindCrlf(b, p) == Some(c) && b[p + 1..c] == len && ParseInt64(len) == Some(n) && len != []
            && c + 2 <= |b| && b[c + 2..] == rest && b[p] == mark
  {
    hide ParseInt64;
    hide FindCrlf;
    hide Header;
    hide NoCrlf;
    HeaderEnds(len, n);
    FirstLine(b, p, mark, len, rest);
    FindCrlfFirst(b, p, p + 1 + |len|);
  }

  lemma LineWritten(b: seq<byte>, p: nat, c: nat)
    requires p < c && CrlfAt(b, c) && forall i | p <= i < c :: !CrlfAt(b, i)
    ensures NoCrlf(b[p + 1..c]) && b[p..c + 2] == [b[p]] + b[p + 1..c] + [13, 10]
  {
    var len := b[p + 1..c];
    forall j | 0 <= j < |len| - 1 ensures !(len[j] == 13 && len[j + 1] == 10) {
      assert !CrlfAt(b, p + 1 + j);
    }
  }

  lemma HeaderWritten(b: seq<byte>, p: nat, c: nat)
    requires p < |b| && b[p] != 13 && FindCrlf(b, p) == Some(c) && p < c
    requires ParseInt64(b[p + 1..c]).Some? && ParseInt64(b[p + 1..c]).value >= 0
    ensures Header(b[p + 1..c], ParseInt64(b[p + 1..c]).value)
    ensures b[p..c + 2] == [b[p]] + b[p + 1..c] + [13, 10]
  {
    hide ParseInt64;
    hide FindCrlf;
    hide Numeral;
    hide NoCrlf;
    FindCrlfIsFirst(b, p);
    LineWritten(b, p, c);
    NumbersExactly(b[p + 1..c], ParseInt64(b[p + 1..c]).value);
  }

  lemma PartReads(b: seq<byte>, p: nat, part: Part, rest: seq<byte>)
    requires p <= |b| && PartOk(part) && b[p..] == Wire(part) + rest
    ensures p + |Wire(part)| <= |b| && b[p + |Wire(part)|..] == rest
    ensures BulkAt(b, p) == Piece(part.bytes, p + |Wire(part)|)
  {
    hide ParseInt64;
    hide FindCrlf;
    hide Header;
    hide Wire;
    hide BulkAt;
    var tail := part.bytes + part.pad + rest;
    WireIs(part, rest);
    HeaderReads(b, p, 36, part.len, |part.bytes|, tail);
    var c := p + 1 + |part.len|;
    PartTail(b, c + 2, part.bytes, part.pad, rest);
    BulkIs(b, p, c, part.bytes);
  }

  lemma WireIs(part: Part, rest: seq<byte>)
    ensures Wire(part) + rest == [36] + part.len + [13, 10] + (part.bytes + part.pad + rest)
    ensures |Wire(part)| == 3 + |part.len| + |part.bytes| + |part.pad|
  {
  }

  lemma PartTail(b: seq<byte>, q: nat, s: seq<byte>, pad: seq<byte>, rest: seq<byte>)
    requires q <= |b| && |pad| == 2 && b[q..] == s + pad + rest
    ensures q + |s| + 2 <= |b| && b[q..q + |s|] == s && b[q + |s| + 2..] == rest
  {
    var tail := s + pad + rest;
    Tail(b, q, 0, |s|);
    Tail(b, q, 0, |s| + 2);
    assert tail[0..|s|] == s && tail[|s| + 2..] == rest;
  }

  lemma PartWritten(b: seq<byte>, p: nat) returns (part: Part)
    requires p <= |b| && BulkAt(b, p).Piece?
    ensures PartOk(part) && part.bytes == BulkAt(b, p).bytes && b[p..BulkAt(b, p).next] == Wire(part)
  {
    hide ParseInt64;
    var c := FindCrlf(b, p).value;
    HeaderWritten(b, p, c);
    hide FindCrlf;
    hide Header;
    var q, e := c + 2, BulkAt(b, p).next;
    part := Part(b[p + 1..c], b[q..e - 2], b[e - 2..e]);
    assert b[p..e] == b[p..q] + b[q..e - 2] + b[e - 2..e];
  }

  lemma StringsCons(ss: seq<seq<byte>>, ps: seq<Part>)
    ensures ps == [] ==> ss + Strings(ps) == ss
    ensures ps != [] ==> ss + [ps[0].bytes] + Strings(ps[1..]) == ss + Strings(ps)
  {
    if ps != [] { assert Strings(ps) == [ps[0].bytes] + Strings(ps[1..]); }
  }

  lemma ArgsSnoc(ss: seq<seq<byte>>, s: seq<byte>)
    ensures ArgsOf(ss + [s]) == ArgsOf(ss) + [ArgOf(s)]
    ensures TypeIn(ss + [s]) == if |ArgsOf(ss)| == 1 && HasHeader(s) then TypeOf(s) else TypeIn(ss)
  {
  }

  lemma {:induction false} ArgsRead(b: seq<byte>, p: nat, ss: seq<seq<byte>>, ps: seq<Part>, rest: seq<byte>)
    requires p <= |b| && AllOk(ps) && b[p..] == WireAll(ps) + rest
    ensures ParseArgs(b, p, |ss| + |ps|, ArgsOf(ss), TypeIn(ss)) == Ok(CommandOf(ss + Strings(ps)), p + |WireAll(ps)|)
    decreases |ps|
  {
    hide Wire;
    hide BulkAt;
    hide ParseArgs;
    hide PartOk;
    hide TypeIn;
    hide ArgsOf;
    hide Named;
    hide Strings;
    StringsCons(ss, ps);
    if ps == [] {
      ParseNoMore(b, p, ArgsOf(ss), TypeIn(ss));
    } else {
      var more := WireAll(ps[1..]) + rest;
      assert b[p..] == Wire(ps[0]) + more;
      PartReads(b, p, ps[0], more);
      ArgsSnoc(ss, ps[0].bytes);
      ParseNext(b, p, |ss| + |ps|, ArgsOf(ss), TypeIn(ss));
      ArgsRead(b, p + |Wire(ps[0])|, ss + [ps[0].bytes], ps[1..], rest);
    }
  }

  lemma {:induction false} ArgsWritten(b: seq<byte>, p: nat, ss: seq<seq<byte>>, argc: nat) returns (ps: seq<Part>)
    requires p <= |b| && |ss| <= argc && ParseArgs(b, p, argc, ArgsOf(ss), TypeIn(ss)).Ok?
    ensures AllOk(ps) && |ss| + |ps| == argc && b[p..ParseArgs(b, p, argc, ArgsOf(ss), TypeIn(ss)).consumed] == WireAll(ps)
    decreases argc - |ss|
  {
    hide Wire;
    hide BulkAt;
    hide PartOk;
    hide TypeIn;
    hide ArgsOf;
    hide Named;
    if |ss| == argc {
      ps := [];
    } else {
      var part := PartWritten(b, p);
      var q, s := BulkAt(b, p).next, BulkAt(b, p).bytes;
      ArgsSnoc(ss, s);
      var n := ParseArgs(b, p, argc, ArgsOf(ss), TypeIn(ss)).consumed;
      ParseNext(b, p, argc, ArgsOf(ss), TypeIn(ss));
      var more := ArgsWritten(b, q, ss + [s], argc);
      ps := [part] + more;
      assert ps[1..] == more;
      assert b[p..n] == b[p..q] + b[q..n];
    }
  }

  lemma FramedParses(b: seq<byte>, n: nat, count: seq<byte>, ps: seq<Part>)
    requires Framed(b, n, count, ps)
    ensures Parse(b) == Ok(CommandOf(Strings(ps)), n)
  {
    hide ParseInt64;
    hide FindCrlf;
    hide Header;
    hide PartOk;
    hide ParseArgs;
    hide WireAll;
    hide CommandOf;
    var rest := b[n..];
    assert b[0..] == b == b[..n] + rest;
    assert b[0..] == [42] + count + [13, 10] + (WireAll(ps) + rest);
    HeaderReads(b, 0, 42, count, |ps|, WireAll(ps) + rest);
    assert ArgsOf([]) == [] && TypeIn([]) == 0;
    assert [] + Strings(ps) == Strings(ps);
    ArgsRead(b, 1 + |count| + 2, [], ps, rest);
  }

  lemma ParsedFramed(b: seq<byte>) returns (count: seq<byte>, ps: seq<Part>)
    requires b != [] && b[0] == 42 && Parse(b).Ok?
    ensures Framed(b, Parse(b).consumed, count, ps)
  {
    hide ParseInt64;
    hide FindCrlf;
    hide Header;
    hide PartOk;
    hide ParseArgs;
    hide WireAll;
    var c, n := FindCrlf(b, 0).value, Parse(b).consumed;
    HeaderWritten(b, 0, c);
    count := b[1..c];
    assert ArgsOf([]) == [] && TypeIn([]) == 0;
    ps := ArgsWritten(b, c + 2, [], ParseInt64(count).value);
    assert b[..n] == b[0..c + 2] + b[c + 2..n];
  }

  /** A command is what its strings come to, and nothing else. */
  lemma DeliversOne(cmd: Command, ss: seq<seq<byte>>)
    requires Delivers(cmd, ss)
    ensures cmd == CommandOf(ss)
  {
    CommandDelivers(ss);
    var d := CommandOf(ss);
    hide CommandOf;
    if |ss| > 0 { assert cmd.args[0].data == d.args[0].data; }
    forall i | 0 <= i < |ss| ensures cmd.args[i] == d.args[i] {
    }
    assert cmd.args == d.args;
  }

  /**
   * On bytes that start with `*` the parser returns a command of `n` bytes exactly when
   * the first `n` bytes are one: a count, and so many bulk strings of the length each
   * says; and then the command is what those strings come to.
   */
  lemma AcceptsExactly(b: seq<byte>, cmd: Command, n: nat)
    requires b != [] && b[0] == 42
    ensures Parse(b) == Ok(cmd, n) <==> exists count, ps :: Framed(b, n, count, ps) && Delivers(cmd, Strings(ps))
  {
    if Parse(b) == Ok(cmd, n) {
      var count, ps := ParsedFramed(b);
      FramedParses(b, n, count, ps);
      CommandDelivers(Strings(ps));
    }
    hide Parse;
    hide Delivers;
    hide Framed;
    if count, ps :| Framed(b, n, count, ps) && Delivers(cmd, Strings(ps)) {
      FramedParses(b, n, count, ps);
      DeliversOne(cmd, Strings(ps));
    }
  }

  // ---- errors ----

  /** The line behind the marker byte at `p`, up to the first CR LF. */
  predicate Ends(b: seq<byte>, p: nat, line: seq<byte>) {
    && p + 3 + |line| <= |b| && b[p + 1..p + 1 + |line|] == line
    && b[p + 1 + |line|] == 13 && b[p + 2 + |line|] == 10 && NoCrlf(line)
  }

  /** A whole line that writes no number from 0 to `max`. */
  ghost predicate BadLine(b: seq<byte>, p: nat, max: nat) {
    exists line :: Ends(b, p, line) && forall n: nat | n <= max :: !Numeral(line, n)
  }

  lemma LineFound(b: seq<byte>, p: nat, line: seq<byte>)
    requires p < |b| && b[p] != 13 && Ends(b, p, line)
    ensures FindCrlf(b, p) == Some(p + 1 + |line|)
  {
    var c := p + 1 + |line|;
    forall i | p <= i < c ensures !CrlfAt(b, i) {
      if p < i { assert b[i] == line[i - p - 1]; }
      if p < i < c - 1 { assert b[i + 1] == line[i - p]; }
    }
    FindCrlfFirst(b, p, c);
  }

  lemma FoundEnds(b: seq<byte>, p: nat)
    requires p < |b| && b[p] != 13 && FindCrlf(b, p).Some?
    ensures p < FindCrlf(b, p).value && Ends(b, p, b[p + 1..FindCrlf(b, p).value])
  {
    var c := FindCrlf(b, p).value;
    FindCrlfIsFirst(b, p);
    hide FindCrlf;
    LineWritten(b, p, c);
  }

  /** A line is bad iff it is there and its number is not in range. */
  lemma BadLineIff(b: seq<byte>, p: nat, max: nat)
    requires p < |b| && b[p] != 13
    ensures var c := FindCrlf(b, p);
            BadLine(b, p, max) <==>
            c.Some? && p < c.value && var n := ParseInt64(b[p + 1..c.value]); n.None? || n.value < 0 || n.value > max
  {
    hide ParseInt64;
    hide FindCrlf;
    hide Numeral;
    if line :| Ends(b, p, line) && forall n: nat | n <= max :: !Numeral(line, n) {
      LineFound(b, p, line);
      if ParseInt64(line).Some? { NumbersExactly(line, ParseInt64(line).value); }
    }
    if FindCrlf(b, p).Some? {
      FoundEnds(b, p);
      var line := b[p + 1..FindCrlf(b, p).value];
      forall n: nat | Numeral(line, n) ensures ParseInt64(line) == Some(n) {
        NumbersExactly(line, n);
      }
    }
  }

  /** At `p` there is no bulk string, whatever follows. */
  ghost predicate BadPart(b: seq<byte>, p: nat) {
    p + 3 <= |b| && (b[p] != 36 || BadLine(b, p, 65536))
  }

  lemma MalformedIff(b: seq<byte>, p: nat)
    requires p <= |b|
    ensures BulkAt(b, p).Malformed? <==> BadPart(b, p)
  {
    hide ParseInt64;
    hide FindCrlf;
    hide BadLine;
    if p < |b| && b[p] == 36 {
      BadLineIff(b, p, 65536);
      if FindCrlf(b, p).Some? { FoundEnds(b, p); }
    }
  }

  /** Fewer than `m` bulk strings, and then something that is none. */
  ghost predicate Breaks(b: seq<byte>, p: nat, m: nat, ps: seq<Part>) {
    && |ps| < m && AllOk(ps) && p + |WireAll(ps)| <= |b| && b[p..p + |WireAll(ps)|] == WireAll(ps)
    && BadPart(b, p + |WireAll(ps)|)
  }

  lemma {:induction false} ErrBreaks(b: seq<byte>, p: nat, ss: seq<seq<byte>>, argc: nat) returns (ps: seq<Part>)
    requires p <= |b| && |ss| <= argc && ParseArgs(b, p, argc, ArgsOf(ss), TypeIn(ss)).Err?
    ensures Breaks(b, p, argc - |ss|, ps)
    decreases argc - |ss|
  {
    hide Wire;
    hide BulkAt;
    hide PartOk;
    hide TypeIn;
    hide ArgsOf;
    hide Named;
    hide BadPart;
    MalformedIff(b, p);
    if BulkAt(b, p).Malformed? {
      ps := [];
      assert b[p..p] == [];
    } else {
      var part := PartWritten(b, p);
      var q, s := BulkAt(b, p).next, BulkAt(b, p).bytes;
      ArgsSnoc(ss, s);
      ParseNext(b, p, argc, ArgsOf(ss), TypeIn(ss));
      var more := ErrBreaks(b, q, ss + [s], argc);
      ps := [part] + more;
      assert ps[1..] == more;
      SliceAdds(b, p, q, q + |WireAll(more)|);
    }
  }

  lemma SliceAdds(b: seq<byte>, p: nat, q: nat, n: nat)
    requires p <= q <= n <= |b|
    ensures b[p..n] == b[p..q] + b[q..n] && |b[p..q]| == q - p
  {
  }

  lemma {:induction false} BreaksErr(b: seq<byte>, p: nat, ss: seq<seq<byte>>, argc: nat, ps: seq<Part>)
    requires p <= |b| && |ss| <= argc && Breaks(b, p, argc - |ss|, ps)
    ensures ParseArgs(b, p, argc, ArgsOf(ss), TypeIn(ss)).Err?
    decreases |ps|
  {
    hide Wire;
    hide BulkAt;
    hide PartOk;
    hide TypeIn;
    hide ArgsOf;
    hide Named;
    hide BadPart;
    if ps == [] {
      MalformedIff(b, p);
      ParseNext(b, p, argc, ArgsOf(ss), TypeIn(ss));
    } else {
      var n := p + |WireAll(ps)|;
      var q := p + |Wire(ps[0])|;
      FirstPart(b, p, ps);
      PartReads(b, p, ps[0], WireAll(ps[1..]) + b[n..]);
      ArgsSnoc(ss, ps[0].bytes);
      ParseNext(b, p, argc, ArgsOf(ss), TypeIn(ss));
      BreaksErr(b, q, ss + [ps[0].bytes], argc, ps[1..]);
    }
  }

  lemma FirstPart(b: seq<byte>, p: nat, ps: seq<Part>)
    requires ps != [] && p + |WireAll(ps)| <= |b| && b[p..p + |WireAll(ps)|] == WireAll(ps)
    ensures var n := p + |WireAll(ps)|;
            var q := p + |Wire(ps[0])|;
            b[p..] == Wire(ps[0]) + (WireAll(ps[1..]) + b[n..]) && b[q..n] == WireAll(ps[1..]) && q + |WireAll(ps[1..])| == n
  {
    hide Wire;
    var n := p + |WireAll(ps)|;
    var q := p + |Wire(ps[0])|;
    assert b[p..] == b[p..n] + b[n..];
    assert b[q..n] == b[p..n][q - p..];
  }

  /** The bytes cannot start a command: a bad count, or a good one and a bad bulk string too early. */
  ghost predicate Wrong(b: seq<byte>) {
    || (|b| >= 4 && BadLine(b, 0, 128))
    || exists count, n: nat, ps :: WrongAt(b, count, n, ps)
  }

  ghost predicate WrongAt(b: seq<byte>, count: seq<byte>, n: nat, ps: seq<Part>) {
    Ends(b, 0, count) && Numeral(count, n) && n <= 128 && Breaks(b, 3 + |count|, n, ps)
  }

  lemma CountFound(b: seq<byte>, count: seq<byte>, n: nat)
    requires b != [] && b[0] == 42 && Ends(b, 0, count) && Numeral(count, n) && n <= 128
    ensures |b| >= 4 && Parse(b) == ParseArgs(b, 3 + |count|, n, [], 0)
  {
    hide ParseInt64;
    hide FindCrlf;
    hide ParseArgs;
    LineFound(b, 0, count);
    NumbersExactly(count, n);
    hide Numeral;
    HeaderEnds(count, n);
  }

  /** On bytes that start with `*` the parser reports an error iff they cannot start a command. */
  lemma ErrsExactly(b: seq<byte>)
    requires b != [] && b[0] == 42
    ensures Parse(b).Err? <==> Wrong(b)
  {
    hide ParseInt64;
    hide FindCrlf;
    hide ParseArgs;
    hide BadLine;
    hide Numeral;
    hide Breaks;
    assert ArgsOf([]) == [] && TypeIn([]) == 0;
    BadLineIff(b, 0, 128);
    if Parse(b).Err? && !BadLine(b, 0, 128) {
      FoundEnds(b, 0);
      var count := b[1..FindCrlf(b, 0).value];
      var n := ParseInt64(count).value;
      NumbersExactly(count, n);
      var ps := ErrBreaks(b, 3 + |count|, [], n);
      assert WrongAt(b, count, n, ps);
    }
    if count, n: nat, ps :| WrongAt(b, count, n, ps) {
      CountFound(b, count, n);
      BreaksErr(b, 3 + |count|, [], n, ps);
    }
  }

  /** On other bytes it asks for more iff there is no line end yet. */
  lemma {:induction false} InlineMore(b: seq<byte>)
    requires b != [] && b[0] != 42
    ensures Parse(b).More? <==> forall i | 0 <= i < |b| :: b[i] != 10
  {
    NoLineIff(b, 0);
  }

  lemma {:induction false} NoLineIff(b: seq<byte>, q: nat)
    ensures FindLine(b, q).None? <==> forall i | q <= i < |b| :: b[i] != 10
    decreases |b| - q
  {
    if q < |b| && b[q] != 10 {
      NoLineIff(b, q + 1);
      if CrlfAt(b, q) { assert b[q + 1] == 10; }
    }
  }
}
