/** The parser and the encoder as loops, proved against the functions of `Resp` and `RespStream`. */
module RespParser {
  import opened Bytes
  import opened Resp
  import RespStream

  method FindLineEnd(b: seq<byte>, p: nat) returns (r: Option<nat>)
    ensures r == FindCrlf(b, p)
  {
    var i := p;
    while i + 1 < |b|
      invariant p <= i && FindCrlf(b, i) == FindCrlf(b, p)
      decreases |b| - i
    {
      if b[i] == CR && b[i + 1] == LF { return Some(i); }
      i := i + 1;
    }
    return None;
  }

  method SkipSpaces(s: seq<byte>) returns (i: nat)
    ensures i == SkipSpace(s, 0)
  {
    i := 0;
    while i < |s| && IsSpace(s[i])
      invariant 0 <= i <= |s| && SkipSpace(s, i) == SkipSpace(s, 0)
    {
      i := i + 1;
    }
  }

  /** The digits from `first` to the end, at least one. */
  method ReadDigits(s: seq<byte>, first: nat) returns (r: Option<nat>)
    requires first <= |s|
    ensures var d := s[first..];
            r == if d == [] || !AllDigits(d) then None else Some(Decimal(d))
  {
    if first == |s| { return None; }
    var d := s[first..];
    var i := 0;
    var n: nat := 0;
    while i < |d|
      invariant 0 <= i <= |d| && AllDigits(d[..i]) && n == Decimal(d[..i])
    {
      if !IsDigit(d[i]) { return None; }
      assert d[..i + 1][..i] == d[..i];
      n := 10 * n + (d[i] - 48);
      i := i + 1;
    }
    assert d[..i] == d;
    return Some(n);
  }

  /** `strtoll` with the checks of `parse_int64`. */
  method ReadInt64(s: seq<byte>) returns (r: Option<int>)
    ensures r == ParseInt64(s)
  {
    if |s| == 0 || |s| >= NUMBER_BUF { return None; }
    var i := SkipSpaces(s);
    var signed := i < |s| && (s[i] == 43 || s[i] == 45);
    var n := ReadDigits(s, if signed then i + 1 else i);
    if n.None? { return None; }
    var v: int := n.value;
    return InRange(if signed && s[i] == 45 then 0 - v else v);
  }

  method FindNewline(b: seq<byte>) returns (r: Option<(nat, nat)>)
    ensures r == FindLine(b, 0)
  {
    var q := 0;
    while q < |b|
      invariant 0 <= q <= |b| && FindLine(b, q) == FindLine(b, 0)
    {
      if b[q] == CR && q + 1 < |b| && b[q + 1] == LF { return Some((q, 2)); }
      if b[q] == LF { return Some((q, 1)); }
      q := q + 1;
    }
    return None;
  }

  method ReadWord(s: seq<byte>, i: nat) returns (a: nat, e: nat)
    requires i <= |s|
    ensures a == SkipBlanks(s, i) && e == WordEnd(s, a)
  {
    a := i;
    while a < |s| && IsBlank(s[a])
      invariant i <= a <= |s| && SkipBlanks(s, a) == SkipBlanks(s, i)
    {
      a := a + 1;
    }
    e := a;
    while e < |s| && !IsBlank(s[e])
      invariant a <= e <= |s| && WordEnd(s, e) == WordEnd(s, a)
    {
      e := e + 1;
    }
  }

  /** An inline command: one line, split on blanks. */
  method ReadInline(b: seq<byte>) returns (r: Parsed)
    ensures r == ParseInline(b)
  {
    var l := FindNewline(b);
    if l.None? { return More; }
    var line := b[..l.value.0];
    var args: seq<Arg> := [];
    var i := 0;
    while i < |line| && |args| < MAX_ARGS
      invariant 0 <= i <= |line| && SplitWords(line, i, args) == SplitWords(line, 0, [])
      decreases |line| - i
    {
      var a, e := ReadWord(line, i);
      if a >= |line| { break; }
      args := args + [Arg(UpToNul(line[a..e]), e - a)];
      i := e;
    }
    assert args == SplitWords(line, 0, []);
    return if args == [] then Err else Ok(Command(args, 0), l.value.0 + l.value.1);
  }

  method ReadBulk(b: seq<byte>, p: nat) returns (r: Piece)
    requires p <= |b|
    ensures r == BulkAt(b, p)
  {
    if |b| - p < 3 { return NeedMore; }
    if b[p] != DOLLAR { return Malformed; }
    var c := FindLineEnd(b, p);
    if c.None? { return NeedMore; }
    var n := ReadInt64(b[p + 1..c.value]);
    if n.None? || n.value < 0 || n.value > MAX_ARG { return Malformed; }
    var q := c.value + 2;
    if |b| - q < n.value + 2 { return NeedMore; }
    return Piece(b[q..q + n.value], q + n.value + 2);
  }

  method ReadArgs(b: seq<byte>, start: nat, argc: nat) returns (r: Parsed)
    requires start <= |b|
    ensures r == ParseArgs(b, start, argc, [], 0)
  {
    hide BulkAt;
    var p := start;
    var args: seq<Arg> := [];
    var vcType: byte := 0;
    while |args| < argc
      invariant |args| <= argc && 0 <= p <= |b|
      invariant ParseArgs(b, p, argc, args, vcType) == ParseArgs(b, start, argc, [], 0)
    {
      var piece := ReadBulk(b, p);
      if piece.NeedMore? { return More; }
      if piece.Malformed? { return Err; }
      var s := piece.bytes;
      if |s| > 4 && s[..4] == VC_MAGIC {
        if |args| == 1 { vcType := s[4]; }
        args := args + [Arg(s[5..], |s| - 5)];
      } else {
        args := args + [Arg(s, |s|)];
      }
      p := piece.next;
    }
    return Ok(Command(Named(args), vcType), p);
  }

  /** `resp_parse_command` */
  method ReadCommand(b: seq<byte>) returns (r: Parsed)
    ensures r == Parse(b)
  {
    hide ParseInt64;
    hide ParseArgs;
    hide ParseInline;
    hide FindCrlf;
    if |b| == 0 { return More; }
    if b[0] != STAR {
      r := ReadInline(b);
      return;
    }
    if |b| < 4 { return More; }
    var crlf := FindLineEnd(b, 0);
    if crlf.None? { return More; }
    var argc := ReadInt64(b[1..crlf.value]);
    if argc.None? || argc.value < 0 || argc.value > MAX_ARGS { return Err; }
    r := ReadArgs(b, crlf.value + 2, argc.value);
  }

  /** `snprintf("%d")` */
  method Print(n: nat) returns (s: seq<byte>)
    ensures s == RespStream.Digits(n)
  {
    var k := n;
    var tail: seq<byte> := [];
    while k >= 10
      invariant k >= 0 && RespStream.Digits(k) + tail == RespStream.Digits(n)
    {
      tail := [48 + k % 10] + tail;
      assert RespStream.Digits(k) + tail[1..] == RespStream.Digits(k / 10) + tail;
      k := k / 10;
    }
    return [48 + k] + tail;
  }

  lemma EncodeStep(buf: seq<byte>, args: seq<seq<byte>>, i: nat)
    requires i < |args|
    ensures buf + RespStream.Bulk(args[i]) + RespStream.Bulks(args[i + 1..]) == buf + RespStream.Bulks(args[i..])
    ensures |buf + RespStream.Bulk(args[i])| <= |buf + RespStream.Bulks(args[i..])|
  {
    RespStream.BulksLast(args, i);
  }

  lemma NoBulks(buf: seq<byte>, rest: seq<seq<byte>>)
    requires rest == []
    ensures buf + RespStream.Bulks(rest) == buf
  {
  }

  /**
   * `encode_command` into a buffer of `size` bytes that holds the count line: the
   * encoding, or failure exactly when it does not fit with its terminating NUL.  With
   * no arguments the length is returned untested, so a count line that just fits
   * comes back with the NUL in place of its last byte.
   */
  method WriteCommand(size: nat, args: seq<seq<byte>>) returns (r: Option<seq<byte>>)
    requires 3 + |RespStream.Digits(|args|)| <= size
    ensures |args| > 0 ==> r == if |RespStream.Encode(args)| < size then Some(RespStream.Encode(args)) else None
    ensures args == [] ==> r == Some(if size > 4 then RespStream.Encode([]) else [STAR, 48, CR, 0])
  {
    var head := Print(|args|);
    var buf := [STAR] + head + CRLF;
    if |args| == 0 {
      assert RespStream.Digits(0) == [48];
      assert args == [] && buf == [STAR, 48, CR, LF] && RespStream.Encode([]) == buf;
      assert buf[..3] + [0] == [STAR, 48, CR, 0];
      return Some(if size > 4 then buf else buf[..3] + [0]);
    }
    var i := 0;
    assert args[0..] == args;
    hide RespStream.Encode;
    hide RespStream.Digits;
    hide RespStream.Bulks;
    while i < |args|
      invariant 0 <= i <= |args| && buf + RespStream.Bulks(args[i..]) == RespStream.Encode(args)
      invariant i > 0 ==> |buf| < size
    {
      var len := Print(|args[i]|);
      EncodeStep(buf, args, i);
      buf := buf + ([DOLLAR] + len + CRLF + args[i] + CRLF);
      if |buf| >= size { return None; }
      i := i + 1;
    }
    NoBulks(buf, args[i..]);
    return Some(buf);
  }
}
