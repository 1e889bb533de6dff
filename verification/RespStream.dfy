/** Commands on a connection: chunk independence, and the encoder the parser inverts. */
module RespStream {
  import opened Bytes
  import opened Resp

  // ---- the parse and dispatch loop ----

  datatype Status = Open | ProtocolError | Closing

  /** `pending` is the read buffer, `done` the commands dispatched so far; a closed connection has no buffer. */
  datatype Conn = Conn(pending: seq<byte>, done: seq<Command>, status: Status)

  /** Whether the command just dispatched closes the connection, given all before it. */
  type Quits = seq<Command> -> bool

  function Drain(b: seq<byte>, done: seq<Command>, quits: Quits): (c: Conn)
    decreases |b|
  {
    if |b| == 0 then Conn(b, done, Open)
    else match Parse(b)
      case More => Conn(b, done, Open)
      case Err => Conn([], done, ProtocolError)
      case Ok(cmd, n) =>
        if quits(done + [cmd]) then Conn([], done + [cmd], Closing)
        else Drain(b[n..], done + [cmd], quits)
  }

  /** One round of `process_conn`: the bytes read are appended, then every complete command is dispatched. */
  function Receive(c: Conn, chunk: seq<byte>, quits: Quits): Conn {
    if c.status.Open? then Drain(c.pending + chunk, c.done, quits) else c
  }

  function ReceiveAll(c: Conn, chunks: seq<seq<byte>>, quits: Quits): Conn
    decreases |chunks|
  {
    if chunks == [] then c else ReceiveAll(Receive(c, chunks[0], quits), chunks[1..], quits)
  }

  function Flatten(chunks: seq<seq<byte>>): seq<byte> {
    if chunks == [] then [] else chunks[0] + Flatten(chunks[1..])
  }

  lemma {:induction false} DrainAppend(a: seq<byte>, b: seq<byte>, done: seq<Command>, quits: Quits)
    ensures Receive(Drain(a, done, quits), b, quits) == Drain(a + b, done, quits)
    decreases |a|
  {
    hide Parse;
    if |a| > 0 && !Parse(a).More? {
      ParseStable(a, b);
      if Parse(a).Ok? {
        var n := Parse(a).consumed;
        assert (a + b)[n..] == a[n..] + b;
        DrainAppend(a[n..], b, done + [Parse(a).cmd], quits);
      }
    }
  }

  /** What a connection does depends only on the bytes received, not on how reads split them. */
  lemma {:induction false} ChunkIndependence(a: seq<byte>, done: seq<Command>, chunks: seq<seq<byte>>, quits: Quits)
    ensures ReceiveAll(Drain(a, done, quits), chunks, quits) == Drain(a + Flatten(chunks), done, quits)
    decreases |chunks|
  {
    hide Drain;
    if chunks == [] {
      assert a + Flatten(chunks) == a;
    } else {
      DrainAppend(a, chunks[0], done, quits);
      ChunkIndependence(a + chunks[0], done, chunks[1..], quits);
      assert a + chunks[0] + Flatten(chunks[1..]) == a + Flatten(chunks);
    }
  }

  /** Two ways of splitting the same bytes dispatch the same commands and leave the same connection. */
  lemma SplitsAgree(xs: seq<seq<byte>>, ys: seq<seq<byte>>, quits: Quits)
    requires Flatten(xs) == Flatten(ys)
    ensures ReceiveAll(Conn([], [], Open), xs, quits) == ReceiveAll(Conn([], [], Open), ys, quits)
  {
    ChunkIndependence([], [], xs, quits);
    ChunkIndependence([], [], ys, quits);
  }

  // ---- decimal numbers ----

  function Digits(n: nat): (s: seq<byte>)
    ensures |s| > 0
    decreases n
  {
    if n < 10 then [48 + n] else Digits(n / 10) + [48 + n % 10]
  }

  lemma {:induction false} DigitsParse(n: nat)
    ensures AllDigits(Digits(n)) && Decimal(Digits(n)) == n
    decreases n
  {
    if n >= 10 {
      DigitsParse(n / 10);
      var s := Digits(n);
      assert s[..|s| - 1] == Digits(n / 10);
    } else {
      assert Digits(n)[..0] == [];
    }
  }

  lemma {:induction false} DigitsShort(n: nat, k: nat, bound: nat)
    requires k > 0 && n < bound && bound == Pow10(k)
    ensures |Digits(n)| <= k
    decreases k
  {
    if n >= 10 { DigitsShort(n / 10, k - 1, Pow10(k - 1)); }
  }

  function Pow10(k: nat): nat { if k == 0 then 1 else 10 * Pow10(k - 1) }

  lemma Nineteen()
    ensures Pow10(19) == 10_000_000_000_000_000_000
  {
    assert Pow10(4) == 10_000;
    assert Pow10(8) == 10_000 * Pow10(4);
    assert Pow10(12) == 10_000 * Pow10(8);
    assert Pow10(16) == 10_000 * Pow10(12);
    assert Pow10(19) == 1_000 * Pow10(16);
  }

  /** Every number up to 2^63 has at most 19 digits. */
  lemma DigitsFit(n: nat)
    requires n <= TWO_63
    ensures |Digits(n)| <= 19
  {
    Nineteen();
    DigitsShort(n, 19, Pow10(19));
  }

  /** Printing then parsing a number gives it back, iff it is an `int64_t`. */
  lemma NumberRoundTrip(n: nat)
    ensures ParseInt64(Digits(n)) == if n < TWO_63 then Some(n) else None
  {
    var s := Digits(n);
    DigitsParse(n);
    assert IsDigit(s[0]);
    assert SkipSpace(s, 0) == 0;
    assert s[0..] == s;
    if n < TWO_63 { DigitsFit(n); }
  }

  // ---- the encoder ----

  function Bulk(s: seq<byte>): seq<byte> {
    [36] + Digits(|s|) + [13, 10] + s + [13, 10]
  }

  function Bulks(args: seq<seq<byte>>): seq<byte> {
    if args == [] then [] else Bulk(args[0]) + Bulks(args[1..])
  }

  /** `encode_command` */
  function Encode(args: seq<seq<byte>>): (b: seq<byte>)
    ensures |b| >= 4
  {
    [42] + Digits(|args|) + [13, 10] + Bulks(args)
  }

  lemma {:induction false} FindCrlfAt(b: seq<byte>, p: nat, c: nat)
    requires p <= c && CrlfAt(b, c) && forall i | p <= i < c :: b[i] != CR
    ensures FindCrlf(b, p) == Some(c)
    decreases c - p
  {
    if p < c { FindCrlfAt(b, p + 1, c); }
  }

  lemma Tail(b: seq<byte>, p: nat, i: nat, j: nat)
    requires p <= |b| && i <= j <= |b| - p
    ensures b[p..][i..j] == b[p + i..p + j] && b[p..][j..] == b[p + j..]
    ensures j < |b| - p ==> b[p..][j] == b[p + j]
  {
  }

  lemma LineParts(mark: byte, d: seq<byte>, rest: seq<byte>)
    ensures var t := [mark] + d + CRLF + rest;
            && t[0] == mark && t[1..1 + |d|] == d && t[1 + |d|] == CR && t[2 + |d|] == LF && t[3 + |d|..] == rest
            && forall i | 0 <= i < |d| :: t[1 + i] == d[i]
  {
  }

  /** A line made of one marker byte and a number. */
  lemma NumberLine(b: seq<byte>, p: nat, mark: byte, n: nat, rest: seq<byte>)
    requires p <= |b| && mark != CR && b[p..] == [mark] + Digits(n) + CRLF + rest
    ensures var c := p + 1 + |Digits(n)|;
            FindCrlf(b, p) == Some(c) && b[p + 1..c] == Digits(n) && c + 2 <= |b| && b[c + 2..] == rest && b[p] == mark
  {
    var d := Digits(n);
    DigitsParse(n);
    hide Digits;
    hide FindCrlf;
    LineParts(mark, d, rest);
    Tail(b, p, 1, 1 + |d|);
    Tail(b, p, 0, 0);
    Tail(b, p, 0, 2 + |d|);
    Tail(b, p, 0, 3 + |d|);
    var c := p + 1 + |d|;
    forall i | p <= i < c ensures b[i] != CR {
      Tail(b, p, 0, i - p);
      if i > p { assert d[i - p - 1] == b[i] && IsDigit(d[i - p - 1]); }
    }
    FindCrlfAt(b, p, c);
  }

  function ArgsOf(ss: seq<seq<byte>>): (r: seq<Arg>)
    ensures |r| == |ss|
  {
    seq(|ss|, i requires 0 <= i < |ss| => ArgOf(ss[i]))
  }

  /** The type byte of the second argument, if it carries a header. */
  function TypeIn(ss: seq<seq<byte>>): byte { if |ss| > 1 then TypeOf(ss[1]) else 0 }

  function CommandOf(ss: seq<seq<byte>>): Command { Command(Named(ArgsOf(ss)), TypeIn(ss)) }

  /** What a connection accepts: at most 128 strings of at most 65536 bytes. */
  predicate Sendable(ss: seq<seq<byte>>) {
    |ss| <= 128 && forall i | 0 <= i < |ss| :: |ss[i]| <= 65536
  }

  /** `*VC1`, a type byte, and anything. */
  predicate Typed(s: seq<byte>) { |s| >= 5 && s[0] == 42 && s[1] == 86 && s[2] == 67 && s[3] == 49 }

  function Payload(s: seq<byte>): seq<byte> { if Typed(s) then s[5..] else s }

  /**
   * What the client's strings come to: each without its header; in the first, the letters
   * `a` to `z` among the first 64 bytes made capitals; the type byte of the second.
   */
  predicate Delivers(cmd: Command, ss: seq<seq<byte>>) {
    && |cmd.args| == |ss|
    && (forall i | 1 <= i < |ss| :: cmd.args[i].data == Payload(ss[i]))
    && (forall i | 0 <= i < |ss| :: cmd.args[i].len == |cmd.args[i].data| == |Payload(ss[i])|)
    && (|ss| > 0 ==> forall j | 0 <= j < |Payload(ss[0])| ::
          var c := Payload(ss[0])[j];
          cmd.args[0].data[j] == if j < 64 && 97 <= c <= 122 then c - 32 else c)
    && cmd.vcType == if |ss| > 1 && Typed(ss[1]) then ss[1][4] else 0
  }

  lemma HeaderIs(s: seq<byte>)
    ensures HasHeader(s) <==> Typed(s)
    ensures Stripped(s) == Payload(s)
  {
    if |s| > 4 { assert s[..4] == [s[0], s[1], s[2], s[3]]; }
  }

  lemma CommandDelivers(ss: seq<seq<byte>>)
    ensures Delivers(CommandOf(ss), ss)
  {
    forall i | 0 <= i < |ss| ensures ArgsOf(ss)[i] == Arg(Payload(ss[i]), |Payload(ss[i])|) {
      HeaderIs(ss[i]);
    }
    if |ss| > 1 { HeaderIs(ss[1]); }
  }

  lemma BulksLast(ss: seq<seq<byte>>, k: nat)
    requires k < |ss|
    ensures Bulks(ss[k..]) == Bulk(ss[k]) + Bulks(ss[k + 1..])
  {
    assert ss[k..][1..] == ss[k + 1..];
  }

  lemma TailParts(t: seq<byte>, s: seq<byte>, rest: seq<byte>)
    requires t == s + CRLF + rest
    ensures |t| >= |s| + 2 && t[..|s|] == s && t[|s| + 2..] == rest
  {
  }

  lemma BulkParts(s: seq<byte>, rest: seq<byte>)
    ensures Bulk(s) + rest == [DOLLAR] + Digits(|s|) + CRLF + (s + CRLF + rest)
    ensures |Bulk(s)| == |Digits(|s|)| + |s| + 5
  {
    hide Digits;
  }

  lemma BulkIs(b: seq<byte>, p: nat, c: nat, s: seq<byte>)
    requires p < c && |b| >= p + 3 && b[p] == DOLLAR && FindCrlf(b, p) == Some(c)
    requires c + 2 + |s| + 2 <= |b| && b[c + 2..c + 2 + |s|] == s
    requires var n := ParseInt64(b[p + 1..c]); n == Some(|s|) || (n.None? && |s| > MAX_ARG)
    ensures BulkAt(b, p) == if |s| > MAX_ARG then Malformed else Piece(s, c + 2 + |s| + 2)
  {
    hide ParseInt64;
    hide FindCrlf;
  }

  lemma BulkShape(b: seq<byte>, p: nat, s: seq<byte>, rest: seq<byte>)
    requires p <= |b| && b[p..] == Bulk(s) + rest
    ensures var c := p + 1 + |Digits(|s|)|;
            && FindCrlf(b, p) == Some(c) && b[p + 1..c] == Digits(|s|) && b[p] == DOLLAR && p + |Bulk(s)| == c + 2 + |s| + 2
            && c + 2 + |s| + 2 <= |b| && b[c + 2..c + 2 + |s|] == s && b[c + 2 + |s| + 2..] == rest
  {
    hide Digits;
    hide Bulk;
    hide FindCrlf;
    BulkParts(s, rest);
    NumberLine(b, p, DOLLAR, |s|, s + CRLF + rest);
    var q := p + 1 + |Digits(|s|)| + 2;
    TailParts(b[q..], s, rest);
    Tail(b, q, 0, |s|);
    Tail(b, q, 0, |s| + 2);
  }

  /** The parser reads an encoded bulk string back, unless it is too long. */
  lemma BulkReads(b: seq<byte>, p: nat, s: seq<byte>, rest: seq<byte>)
    requires p <= |b| && b[p..] == Bulk(s) + rest
    ensures p + |Bulk(s)| <= |b| && b[p + |Bulk(s)|..] == rest
    ensures BulkAt(b, p) == if |s| > MAX_ARG then Malformed else Piece(s, p + |Bulk(s)|)
  {
    hide Digits;
    hide Bulk;
    hide FindCrlf;
    hide ParseInt64;
    hide BulkAt;
    BulkShape(b, p, s, rest);
    NumberRoundTrip(|s|);
    BulkIs(b, p, p + 1 + |Digits(|s|)|, s);
  }

  lemma ParseNext(b: seq<byte>, p: nat, argc: nat, args: seq<Arg>, vcType: byte)
    requires p <= |b| && |args| < argc
    ensures var r := BulkAt(b, p);
            && (r.Malformed? ==> ParseArgs(b, p, argc, args, vcType) == Err)
            && (r.Piece? ==>
                  ParseArgs(b, p, argc, args, vcType) ==
                  ParseArgs(b, r.next, argc, args + [ArgOf(r.bytes)], if |args| == 1 && HasHeader(r.bytes) then TypeOf(r.bytes) else vcType))
  {
    hide BulkAt;
  }

  lemma ParseNoMore(b: seq<byte>, p: nat, args: seq<Arg>, vcType: byte)
    requires p <= |b|
    ensures ParseArgs(b, p, |args|, args, vcType) == Ok(Command(Named(args), vcType), p)
  {
  }

  lemma TakeOne(ss: seq<seq<byte>>, k: nat)
    requires k < |ss|
    ensures ArgsOf(ss[..k + 1]) == ArgsOf(ss[..k]) + [ArgOf(ss[k])]
    ensures TypeIn(ss[..k + 1]) == if |ArgsOf(ss[..k])| == 1 && HasHeader(ss[k]) then TypeOf(ss[k]) else TypeIn(ss[..k])
  {
    assert ss[..k + 1] == ss[..k] + [ss[k]];
  }

  /** The parser reads back the bulk strings the encoder wrote, up to one that is too long. */
  lemma {:induction false} ParseBulks(b: seq<byte>, p: nat, ss: seq<seq<byte>>, k: nat, rest: seq<byte>)
    requires p <= |b| && k <= |ss| && b[p..] == Bulks(ss[k..]) + rest
    ensures ParseArgs(b, p, |ss|, ArgsOf(ss[..k]), TypeIn(ss[..k])) ==
            if exists i | k <= i < |ss| :: |ss[i]| > MAX_ARG then Err
            else Ok(Command(Named(ArgsOf(ss)), TypeIn(ss)), p + |Bulks(ss[k..])|)
    decreases |ss| - k
  {
    hide Bulk;
    hide BulkAt;
    hide ParseArgs;
    hide Named;
    hide TypeIn;
    hide ArgsOf;
    if k == |ss| {
      assert ss[..k] == ss && ss[k..] == [];
      ParseNoMore(b, p, ArgsOf(ss), TypeIn(ss));
    } else {
      var s := ss[k];
      BulksLast(ss, k);
      assert b[p..] == Bulk(s) + (Bulks(ss[k + 1..]) + rest);
      BulkReads(b, p, s, Bulks(ss[k + 1..]) + rest);
      TakeOne(ss, k);
      ParseNext(b, p, |ss|, ArgsOf(ss[..k]), TypeIn(ss[..k]));
      if |s| <= MAX_ARG { ParseBulks(b, p + |Bulk(s)|, ss, k + 1, rest); }
    }
  }

  /**
   * Every encoded command is decided: parsing it, with anything behind it, consumes
   * exactly the encoding and returns the arguments, headers stripped and the name
   * uppercased, iff there are at most 128 arguments of at most 65536 bytes.
   */
  lemma ParseEncoded(ss: seq<seq<byte>>, rest: seq<byte>)
    ensures Parse(Encode(ss) + rest) == if Sendable(ss) then Ok(CommandOf(ss), |Encode(ss)|) else Err
    ensures Delivers(CommandOf(ss), ss)
  {
    hide Digits;
    hide Bulks;
    hide ParseInt64;
    hide ParseArgs;
    hide Delivers;
    hide Named;
    hide FindCrlf;
    hide ParseInline;
    var b := Encode(ss) + rest;
    assert b[0..] == [STAR] + Digits(|ss|) + CRLF + (Bulks(ss) + rest);
    NumberLine(b, 0, STAR, |ss|, Bulks(ss) + rest);
    NumberRoundTrip(|ss|);
    assert ss[0..] == ss && ss[..0] == [];
    assert ArgsOf(ss[..0]) == [];
    ParseBulks(b, 3 + |Digits(|ss|)|, ss, 0, rest);
    CommandDelivers(ss);
  }

  /** The arguments come back unchanged iff none carries a typed-value header. */
  lemma ArgsUnchangedIff(ss: seq<seq<byte>>)
    ensures (forall i | 0 <= i < |ss| :: ArgsOf(ss)[i] == Arg(ss[i], |ss[i]|)) <==> (forall i | 0 <= i < |ss| :: !HasHeader(ss[i]))
  {
    forall i | 0 <= i < |ss| ensures ArgsOf(ss)[i] == Arg(ss[i], |ss[i]|) <==> !HasHeader(ss[i]) {
      assert ArgsOf(ss)[i] == ArgOf(ss[i]);
    }
  }

  /** Every strict prefix of an encoding asks for more bytes. */
  lemma PrefixAsksForMore(ss: seq<seq<byte>>, n: nat)
    requires Sendable(ss) && n < |Encode(ss)|
    ensures Parse(Encode(ss)[..n]) == More
  {
    hide Parse;
    hide Encode;
    var b := Encode(ss);
    ParseEncoded(ss, []);
    assert b + [] == b == b[..n] + b[n..];
    if !Parse(b[..n]).More? { ParseStable(b[..n], b[n..]); }
  }

  // ---- pipelining ----

  function EncodeAll(cmds: seq<seq<seq<byte>>>): seq<byte> {
    if cmds == [] then [] else Encode(cmds[0]) + EncodeAll(cmds[1..])
  }

  /** What serving these commands one by one leaves: all of them dispatched, or those up to the one that closes. */
  function Served(cmds: seq<seq<seq<byte>>>, done: seq<Command>, quits: Quits): Conn
    decreases |cmds|
  {
    if cmds == [] then Conn([], done, Open)
    else
      var d := done + [CommandOf(cmds[0])];
      if quits(d) then Conn([], d, Closing) else Served(cmds[1..], d, quits)
  }

  /** A pipeline of encoded commands is dispatched as sent and leaves nothing behind. */
  lemma {:induction false} PipelineRoundTrip(cmds: seq<seq<seq<byte>>>, done: seq<Command>, quits: Quits)
    requires forall i | 0 <= i < |cmds| :: Sendable(cmds[i])
    ensures Drain(EncodeAll(cmds), done, quits) == Served(cmds, done, quits)
    decreases |cmds|
  {
    hide Parse;
    hide Encode;
    if cmds != [] {
      var b := Encode(cmds[0]);
      ParseEncoded(cmds[0], EncodeAll(cmds[1..]));
      assert EncodeAll(cmds)[|b|..] == EncodeAll(cmds[1..]);
      PipelineRoundTrip(cmds[1..], done + [CommandOf(cmds[0])], quits);
    }
  }

  /** The same, however reads cut the bytes. */
  lemma PipelineInChunks(cmds: seq<seq<seq<byte>>>, chunks: seq<seq<byte>>, quits: Quits)
    requires forall i | 0 <= i < |cmds| :: Sendable(cmds[i])
    requires Flatten(chunks) == EncodeAll(cmds)
    ensures Dispatches(ReceiveAll(Conn([], [], Open), chunks, quits), cmds, quits)
  {
    hide *;
    EmptyReceive(Served(cmds, [], quits), quits, cmds);
    assert Flatten(chunks) == EncodeAll(cmds) + [];
    ServedInChunks(cmds, chunks, [], quits);
  }

  /** Every command dispatched as sent; all of them, unless one closed the connection, and then none behind it. */
  predicate Dispatches(c: Conn, cmds: seq<seq<seq<byte>>>, quits: Quits) {
    && c.pending == [] && |c.done| <= |cmds|
    && (forall i | 0 <= i < |c.done| :: Delivers(c.done[i], cmds[i]))
    && (forall i | 0 < i < |c.done| :: !quits(c.done[..i]))
    && (if c.status.Open? then |c.done| == |cmds| && (cmds != [] ==> !quits(c.done))
        else c.status.Closing? && c.done != [] && quits(c.done))
  }

  lemma EmptyReceive(c: Conn, quits: Quits, cmds: seq<seq<seq<byte>>>)
    requires c == Served(cmds, [], quits)
    ensures Receive(c, [], quits) == c && Dispatches(c, cmds, quits)
  {
    ServedDelivers(cmds, [], quits);
    assert cmds[0..] == cmds;
    hide Served;
    hide Delivers;
    assert c.done[..|c.done|] == c.done;
  }

  lemma ServedInChunks(cmds: seq<seq<seq<byte>>>, chunks: seq<seq<byte>>, rest: seq<byte>, quits: Quits)
    requires forall i | 0 <= i < |cmds| :: Sendable(cmds[i])
    requires Flatten(chunks) == EncodeAll(cmds) + rest
    ensures ReceiveAll(Conn([], [], Open), chunks, quits) == Receive(Served(cmds, [], quits), rest, quits)
  {
    hide Parse;
    hide Encode;
    ChunkIndependence([], [], chunks, quits);
    assert [] + Flatten(chunks) == EncodeAll(cmds) + rest;
    assert Drain([], [], quits) == Conn([], [], Open);
    PipelineRoundTrip(cmds, [], quits);
    DrainAppend(EncodeAll(cmds), rest, [], quits);
  }

  predicate SoFar(all: seq<seq<seq<byte>>>, done: seq<Command>) {
    |done| <= |all| && forall i | 0 <= i < |done| :: Delivers(done[i], all[i])
  }

  predicate NoneQuit(done: seq<Command>, n: nat, quits: Quits)
    requires n <= |done|
  {
    forall i | 0 < i <= n :: !quits(done[..i])
  }

  lemma OneMoreServed(all: seq<seq<seq<byte>>>, done: seq<Command>, quits: Quits)
    requires |done| < |all| && SoFar(all[..|done|], done) && NoneQuit(done, |done|, quits)
    ensures var d := done + [CommandOf(all[|done|])];
            SoFar(all[..|d|], d) && SoFar(all, d) && NoneQuit(d, |done|, quits) && (!quits(d) ==> NoneQuit(d, |d|, quits))
  {
    var d := done + [CommandOf(all[|done|])];
    CommandDelivers(all[|done|]);
    hide Delivers;
    hide CommandOf;
    forall i | 0 < i <= |done| ensures !quits(d[..i]) {
      assert d[..i] == done[..i];
    }
    assert d[..|d|] == d;
    forall i | 0 <= i < |d| ensures Delivers(d[i], all[i]) {
      if i < |done| { assert Delivers(done[i], all[..|done|][i]); }
    }
  }

  lemma {:induction false} ServedDelivers(all: seq<seq<seq<byte>>>, done: seq<Command>, quits: Quits)
    requires |done| <= |all| && SoFar(all[..|done|], done) && NoneQuit(done, |done|, quits)
    ensures var c := Served(all[|done|..], done, quits);
            && c.pending == [] && SoFar(all, c.done)
            && (if c.status.Open? then |c.done| == |all| && NoneQuit(c.done, |c.done|, quits)
                else c.status.Closing? && c.done != [] && quits(c.done) && NoneQuit(c.done, |c.done| - 1, quits))
    decreases |all| - |done|
  {
    hide SoFar;
    hide NoneQuit;
    hide CommandOf;
    if |done| == |all| {
      assert all[..|done|] == all;
    } else {
      OneMoreServed(all, done, quits);
      var d := done + [CommandOf(all[|done|])];
      assert all[|done|..][1..] == all[|d|..];
      if !quits(d) { ServedDelivers(all, d, quits); }
    }
  }

  /**
   * Bytes that are no command end the connection, however reads cut them: the commands
   * sent before them are dispatched, nothing behind them is.
   */
  lemma ErrorEnds(cmds: seq<seq<seq<byte>>>, bad: seq<byte>, chunks: seq<seq<byte>>)
    requires forall i | 0 <= i < |cmds| :: Sendable(cmds[i])
    requires Flatten(chunks) == EncodeAll(cmds) + bad && Parse(bad).Err?
    ensures var c := ReceiveAll(Conn([], [], Open), chunks, done => false);
            && c.status.ProtocolError? && c.pending == [] && |c.done| == |cmds|
            && forall i | 0 <= i < |cmds| :: Delivers(c.done[i], cmds[i])
  {
    var quits: Quits := done => false;
    ServedInChunks(cmds, chunks, bad, quits);
    ServedDelivers(cmds, [], quits);
    assert cmds[0..] == cmds;
    hide Served;
    hide ReceiveAll;
    hide Delivers;
    assert bad != [];
    hide Parse;
    var c := Served(cmds, [], quits);
    assert c.status.Open?;
    assert c.pending + bad == bad;
  }
}
