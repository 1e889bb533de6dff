/** The RESP command parser as a function of the bytes received so far. */
module Resp {
  import opened Bytes

  const CR: byte := 13
  const LF: byte := 10
  const STAR: byte := 42
  const DOLLAR: byte := 36
  const SPACE: byte := 32
  const TAB: byte := 9
  const CRLF: seq<byte> := [13, 10]
  const MAX_ARG: nat := 65536
  const MAX_ARGS: nat := 128
  const MAX_NAME: nat := 64
  const NUMBER_BUF: nat := 32

  /** `*VC1`, the header of a typed value. */
  const VC_MAGIC: seq<byte> := [42, 86, 67, 49]

  /** `argv[i]` and `argl[i]`; an inline argument is cut at a NUL, its length is not. */
  datatype Arg = Arg(data: seq<byte>, len: nat)

  datatype Command = Command(args: seq<Arg>, vcType: byte)

  datatype Parsed = More | Err | Ok(cmd: Command, consumed: nat)

  // ---- lines and numbers ----

  predicate CrlfAt(b: seq<byte>, i: nat) {
    i + 1 < |b| && b[i] == CR && b[i + 1] == LF
  }

  /** `find_crlf` from offset `p`. */
  function FindCrlf(b: seq<byte>, p: nat): (r: Option<nat>)
    ensures r.Some? ==> p <= r.value && CrlfAt(b, r.value)
    decreases |b| - p
  {
    if p + 1 >= |b| then None
    else if CrlfAt(b, p) then Some(p)
    else FindCrlf(b, p + 1)
  }

  predicate IsDigit(c: byte) { 48 <= c <= 57 }

  predicate IsSpace(c: byte) { c == SPACE || 9 <= c <= 13 }

  function SkipSpace(s: seq<byte>, i: nat): (j: nat)
    requires i <= |s|
    ensures i <= j <= |s|
    decreases |s| - i
  {
    if i < |s| && IsSpace(s[i]) then SkipSpace(s, i + 1) else i
  }

  predicate AllDigits(s: seq<byte>) { forall i | 0 <= i < |s| :: IsDigit(s[i]) }

  /** The number a string of digits stands for. */
  function Decimal(s: seq<byte>): nat
    requires AllDigits(s)
  {
    if s == [] then 0 else 10 * Decimal(s[..|s| - 1]) + (s[|s| - 1] - 48)
  }

  function InRange(n: int): Option<int> {
    if 0 - TWO_63 <= n < TWO_63 then Some(n) else None
  }

  /** `parse_int64`: `strtoll` over the whole of at most 31 bytes. */
  function ParseInt64(s: seq<byte>): Option<int> {
    if |s| == 0 || |s| >= NUMBER_BUF then None
    else
      var i := SkipSpace(s, 0);
      var signed := i < |s| && (s[i] == 43 || s[i] == 45);
      var digits := s[if signed then i + 1 else i..];
      if digits == [] || !AllDigits(digits) then None
      else InRange(if signed && s[i] == 45 then 0 - Decimal(digits) else Decimal(digits))
  }

  // ---- inline commands ----

  /** The end of the first line and the length of its terminator. */
  function FindLine(b: seq<byte>, q: nat): (r: Option<(nat, nat)>)
    ensures r.Some? ==> q <= r.value.0 && 1 <= r.value.1 <= 2 && r.value.0 + r.value.1 <= |b|
    decreases |b| - q
  {
    if q >= |b| then None
    else if CrlfAt(b, q) then Some((q, 2))
    else if b[q] == LF then Some((q, 1))
    else FindLine(b, q + 1)
  }

  predicate IsBlank(c: byte) { c == SPACE || c == TAB }

  function SkipBlanks(s: seq<byte>, i: nat): (j: nat)
    requires i <= |s|
    ensures i <= j <= |s| && (j < |s| ==> !IsBlank(s[j]))
    decreases |s| - i
  {
    if i < |s| && IsBlank(s[i]) then SkipBlanks(s, i + 1) else i
  }

  function WordEnd(s: seq<byte>, i: nat): (j: nat)
    requires i <= |s|
    ensures i <= j <= |s| && (i < |s| && !IsBlank(s[i]) ==> i < j)
    decreases |s| - i
  {
    if i < |s| && !IsBlank(s[i]) then WordEnd(s, i + 1) else i
  }

  /** `strndup` stops at a NUL. */
  function UpToNul(s: seq<byte>): seq<byte> {
    if s == [] || s[0] == 0 then [] else [s[0]] + UpToNul(s[1..])
  }

  function SplitWords(s: seq<byte>, i: nat, args: seq<Arg>): seq<Arg>
    requires i <= |s|
    decreases |s| - i
  {
    if i >= |s| || |args| >= MAX_ARGS then args
    else
      var a := SkipBlanks(s, i);
      if a >= |s| then args
      else
        var e := WordEnd(s, a);
        SplitWords(s, e, args + [Arg(UpToNul(s[a..e]), e - a)])
  }

  function ParseInline(b: seq<byte>): Parsed {
    var l := FindLine(b, 0);
    if l.None? then More
    else
      var args := SplitWords(b[..l.value.0], 0, []);
      if args == [] then Err else Ok(Command(args, 0), l.value.0 + l.value.1)
  }

  // ---- arrays of bulk strings ----

  predicate HasHeader(s: seq<byte>) { |s| > 4 && s[..4] == VC_MAGIC }

  function Stripped(s: seq<byte>): (r: seq<byte>) {
    if HasHeader(s) then s[5..] else s
  }

  function TypeOf(s: seq<byte>): byte {
    if HasHeader(s) then s[4] else 0
  }

  function UpperByte(c: byte): byte { if 97 <= c <= 122 then c - 32 else c }

  function Upper(s: seq<byte>): (r: seq<byte>)
    ensures |r| == |s|
  {
    seq(|s|, i requires 0 <= i < |s| => if i < MAX_NAME then UpperByte(s[i]) else s[i])
  }

  /** Uppercases the command name. */
  function Named(args: seq<Arg>): (r: seq<Arg>)
    ensures |r| == |args|
  {
    if args == [] then [] else [Arg(Upper(args[0].data), args[0].len)] + args[1..]
  }

  /** The bulk string at an offset: its bytes and where the next one starts. */
  datatype Piece = NeedMore | Malformed | Piece(bytes: seq<byte>, next: nat)

  /** A bulk string; the two bytes behind its data are skipped unread. */
  function BulkAt(b: seq<byte>, p: nat): (r: Piece)
    requires p <= |b|
    ensures r.Piece? ==> p < r.next <= |b|
  {
    if |b| - p < 3 then NeedMore
    else if b[p] != DOLLAR then Malformed
    else
      var c := FindCrlf(b, p);
      if c.None? then NeedMore
      else
        var n := ParseInt64(b[p + 1..c.value]);
        if n.None? || n.value < 0 || n.value > MAX_ARG then Malformed
        else
          var q := c.value + 2;
          if |b| - q < n.value + 2 then NeedMore else Piece(b[q..q + n.value], q + n.value + 2)
  }

  function ArgOf(s: seq<byte>): Arg { Arg(Stripped(s), |Stripped(s)|) }

  function ParseArgs(b: seq<byte>, p: nat, argc: nat, args: seq<Arg>, vcType: byte): (r: Parsed)
    requires p <= |b| && |args| <= argc
    ensures r.Ok? ==> p <= r.consumed <= |b|
    decreases argc - |args|
  {
    if |args| == argc then Ok(Command(Named(args), vcType), p)
    else match BulkAt(b, p)
      case NeedMore => More
      case Malformed => Err
      case Piece(s, q) =>
        ParseArgs(b, q, argc, args + [ArgOf(s)], if |args| == 1 && HasHeader(s) then TypeOf(s) else vcType)
  }

  /** `resp_parse_command` */
  function Parse(b: seq<byte>): (r: Parsed)
    ensures r.Ok? ==> 0 < r.consumed <= |b|
  {
    if |b| == 0 then More
    else if b[0] != STAR then ParseInline(b)
    else if |b| < 4 then More
    else
      var c := FindCrlf(b, 0);
      if c.None? then More
      else
        var n := ParseInt64(b[1..c.value]);
        if n.None? || n.value < 0 || n.value > MAX_ARGS then Err
        else ParseArgs(b, c.value + 2, n.value, [], 0)
  }

  // ---- prefix stability ----

  lemma PrefixSlice(b: seq<byte>, s: seq<byte>, i: nat, j: nat)
    requires i <= j <= |b|
    ensures (b + s)[i..j] == b[i..j]
  {
  }

  lemma {:induction false} FindCrlfStable(b: seq<byte>, s: seq<byte>, p: nat)
    requires FindCrlf(b, p).Some?
    ensures FindCrlf(b + s, p) == FindCrlf(b, p)
    decreases |b| - p
  {
    if !CrlfAt(b, p) { FindCrlfStable(b, s, p + 1); }
  }

  lemma {:induction false} FindLineStable(b: seq<byte>, s: seq<byte>, q: nat)
    requires FindLine(b, q).Some?
    ensures FindLine(b + s, q) == FindLine(b, q)
    decreases |b| - q
  {
    if !CrlfAt(b, q) && b[q] != LF { FindLineStable(b, s, q + 1); }
  }

  lemma BulkStable(b: seq<byte>, s: seq<byte>, p: nat)
    requires p <= |b| && !BulkAt(b, p).NeedMore?
    ensures BulkAt(b + s, p) == BulkAt(b, p)
  {
    hide ParseInt64;
    assert b[p] == (b + s)[p];
    if b[p] == DOLLAR {
      FindCrlfStable(b, s, p);
      var c := FindCrlf(b, p).value;
      PrefixSlice(b, s, p + 1, c);
      var n := ParseInt64(b[p + 1..c]);
      if n.Some? && 0 <= n.value <= MAX_ARG { PrefixSlice(b, s, c + 2, c + 2 + n.value); }
    }
  }

  lemma {:induction false} ParseArgsStable(b: seq<byte>, s: seq<byte>, p: nat, argc: nat, args: seq<Arg>, vcType: byte)
    requires p <= |b| && |args| <= argc && !ParseArgs(b, p, argc, args, vcType).More?
    ensures ParseArgs(b + s, p, argc, args, vcType) == ParseArgs(b, p, argc, args, vcType)
    decreases argc - |args|
  {
    hide BulkAt;
    if |args| < argc {
      BulkStable(b, s, p);
      var r := BulkAt(b, p);
      if r.Piece? {
        var t := if |args| == 1 && HasHeader(r.bytes) then TypeOf(r.bytes) else vcType;
        ParseArgsStable(b, s, r.next, argc, args + [ArgOf(r.bytes)], t);
      }
    }
  }

  /** A decided parse stays decided, with the same command and length, whatever arrives later. */
  lemma ParseStable(b: seq<byte>, s: seq<byte>)
    requires !Parse(b).More?
    ensures Parse(b + s) == Parse(b)
  {
    hide ParseInt64;
    hide ParseArgs;
    if b[0] != STAR {
      FindLineStable(b, s, 0);
      PrefixSlice(b, s, 0, FindLine(b, 0).value.0);
    } else {
      FindCrlfStable(b, s, 0);
      var c := FindCrlf(b, 0).value;
      PrefixSlice(b, s, 1, c);
      var n := ParseInt64(b[1..c]);
      if n.Some? && 0 <= n.value <= MAX_ARGS { ParseArgsStable(b, s, c + 2, n.value, [], 0); }
    }
  }
}
