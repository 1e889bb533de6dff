/** Typed values: written as a bulk string, cut out of it, stored, and decoded again. */
module Typed {
  import opened Bytes
  import opened SlabClasses
  import opened Entries
  import opened Table
  import opened Cache
  import opened CacheInvariant
  import opened CacheBags
  import opened PushOuts
  import opened StaleSets
  import opened Resp
  import opened RespStream

  const T_INT64: byte := 105
  const T_FLOAT64: byte := 100
  const T_BOOL: byte := 98
  const T_JSON: byte := 106
  const T_BINARY: byte := 66

  type int64 = n: int | -0x8000_0000_0000_0000 <= n < 0x8000_0000_0000_0000

  // ---- 64-bit integers, least significant byte first ----

  function Unsigned(v: int64): (n: nat)
    ensures n < TWO_64
  {
    v % TWO_64
  }

  function Signed(n: nat): (v: int64)
    requires n < TWO_64
  {
    if n >= TWO_63 then n - TWO_64 else n
  }

  function Int64Bytes(v: int64): (s: seq<byte>)
    ensures |s| == 8
  {
    LE(Unsigned(v), 8)
  }

  /** The loop of `cmd_vcget`: at most eight bytes are used. */
  function BytesInt64(s: seq<byte>): int64 {
    var t := if |s| < 8 then s else s[..8];
    FromLEBound(t);
    Pow256Widths();
    Pow256Grows(|t|, 8);
    Signed(FromLE(t))
  }

  lemma {:induction false} Pow256Grows(a: nat, b: nat)
    requires a <= b
    ensures Pow256(a) <= Pow256(b)
    decreases b - a
  {
    if a < b { Pow256Grows(a, b - 1); }
  }

  lemma Int64RoundTrip(v: int64)
    ensures BytesInt64(Int64Bytes(v)) == v
  {
    Pow256Widths();
    LERoundTrip(Unsigned(v), 8);
    assert Int64Bytes(v)[..8] == Int64Bytes(v);
  }

  lemma {:induction false} LEDigit(n: nat, w: nat, i: nat)
    requires i < w
    ensures LE(n, w)[i] == (n / Pow256(i)) % 256
    decreases w
  {
    if i > 0 {
      LEDigit(n / 256, w - 1, i - 1);
      assert LE(n, w)[i] == LE(n / 256, w - 1)[i - 1];
      DivDiv(n, Pow256(i - 1));
    }
  }

  lemma DivDiv(n: nat, d: nat)
    requires d > 0
    ensures (n / 256) / d == n / (256 * d)
  {
    var q, r := (n / 256) / d, (n / 256) % d;
    assert n / 256 == q * d + r;
    assert n == 256 * (q * d + r) + n % 256;
    assert n == q * (256 * d) + (256 * r + n % 256);
    assert 256 * r + n % 256 < 256 * d;
    DivModIs(n, q, 256 * r + n % 256, 256 * d);
  }

  /** The byte loop of `resp_write_vc_int64`: shift right by `8 * i` and keep eight bits. */
  method WriteInt64(v: int64) returns (s: seq<byte>)
    ensures s == Int64Bytes(v)
  {
    s := [];
    var i := 0;
    var scale: nat := 1;
    ghost var n := Unsigned(v);
    while i < 8
      invariant 0 <= i <= 8 && scale == Pow256(i) && |s| == i && s == LE(n, 8)[..i]
    {
      LEDigit(n, 8, i);
      s := s + [(Unsigned(v) / scale) % 256];
      assert LE(n, 8)[..i + 1] == LE(n, 8)[..i] + [LE(n, 8)[i]];
      scale := 256 * scale;
      i := i + 1;
    }
    assert LE(n, 8)[..8] == LE(n, 8);
  }

  // ---- writing a typed value and cutting it out again ----

  /** `resp_write_vc_typed` */
  function TypedBulk(t: byte, payload: seq<byte>): seq<byte> {
    [DOLLAR] + Digits(5 + |payload|) + CRLF + (VC_MAGIC + [t] + payload) + CRLF
  }

  function FirstCr(b: seq<byte>, i: nat): (r: Option<nat>)
    ensures r.Some? ==> i <= r.value < |b| && b[r.value] == CR
    decreases |b| - i
  {
    if i >= |b| then None else if b[i] == CR then Some(i) else FirstCr(b, i + 1)
  }

  /** What `cmd_vcset` stores: the bytes after the first CR LF, less the trailing CR LF. */
  function Cut(wire: seq<byte>): Option<seq<byte>> {
    var cr := FirstCr(wire, 0);
    if cr.Some? && cr.value + 2 < |wire| && cr.value + 2 <= |wire| - 2
    then Some(wire[cr.value + 2..|wire| - 2]) else None
  }

  lemma {:induction false} FirstCrAt(b: seq<byte>, i: nat, c: nat)
    requires i <= c < |b| && b[c] == CR && forall k | i <= k < c :: b[k] != CR
    ensures FirstCr(b, i) == Some(c)
    decreases c - i
  {
    if i < c { FirstCrAt(b, i + 1, c); }
  }

  /** The cut is exact for every payload, CR and LF included. */
  lemma CutExact(t: byte, payload: seq<byte>)
    ensures Cut(TypedBulk(t, payload)) == Some(VC_MAGIC + [t] + payload)
  {
    var d := Digits(5 + |payload|);
    var v := VC_MAGIC + [t] + payload;
    var wire := TypedBulk(t, payload);
    DigitsParse(5 + |payload|);
    hide Digits;
    assert wire == [DOLLAR] + d + CRLF + v + CRLF;
    var c := 1 + |d|;
    assert forall k | 0 <= k < |d| :: wire[1 + k] == d[k] && IsDigit(d[k]);
    assert wire[c] == CR;
    assert forall k | 0 < k < c :: wire[k] == d[k - 1];
    FirstCrAt(wire, 0, c);
    assert wire[c + 2..|wire| - 2] == v;
  }

  // ---- typed values ----

  datatype Value =
    | Int(n: int64)
    | Float(bits: seq<byte>)
    | Bool(b: bool)
    | Json(text: seq<byte>)
    | Binary(data: seq<byte>)
    | Plain(data: seq<byte>)

  predicate Typed(v: Value) { !v.Plain? && (v.Float? ==> |v.bits| == 8) }

  function TypeByte(v: Value): byte {
    match v
    case Int(_) => T_INT64
    case Float(_) => T_FLOAT64
    case Bool(_) => T_BOOL
    case Json(_) => T_JSON
    case _ => T_BINARY
  }

  function Payload(v: Value): seq<byte> {
    match v
    case Int(n) => Int64Bytes(n)
    case Float(bits) => bits
    case Bool(b) => [if b then 1 else 0]
    case Json(text) => text
    case Binary(data) => data
    case Plain(data) => data
  }

  /** The bytes `cmd_vcset` puts in the cache for a typed value. */
  function Stored(v: Value): (s: seq<byte>)
    requires Typed(v)
    ensures |s| == 5 + |Payload(v)|
  {
    CutExact(TypeByte(v), Payload(v));
    Cut(TypedBulk(TypeByte(v), Payload(v))).value
  }

  /** What `cmd_vcget` answers for stored bytes; `None` where it would read past the payload. */
  function Decode(s: seq<byte>): Option<Value> {
    if |s| > 4 && s[..4] == VC_MAGIC then
      var t := s[4];
      var p := s[5..];
      if t == T_INT64 then Some(Int(BytesInt64(p)))
      else if t == T_FLOAT64 then if |p| < 8 then None else Some(Float(p[..8]))
      else if t == T_BOOL then if |p| < 1 then None else Some(Bool(p[0] != 0))
      else if t == T_JSON then Some(Json(p))
      else Some(Binary(p))
    else Some(Plain(s))
  }

  lemma StoredParts(v: Value)
    requires Typed(v)
    ensures Stored(v) == VC_MAGIC + [TypeByte(v)] + Payload(v)
    ensures Stored(v)[..4] == VC_MAGIC && Stored(v)[4] == TypeByte(v) && Stored(v)[5..] == Payload(v)
  {
    CutExact(TypeByte(v), Payload(v));
  }

  lemma DecodeStored(v: Value)
    requires Typed(v)
    ensures Decode(Stored(v)) == Some(v)
  {
    StoredParts(v);
    if v.Int? { Int64RoundTrip(v.n); }
    if v.Float? { assert v.bits[..8] == v.bits; }
  }

  /** Clamping by the store is harmless exactly up to 65535 stored bytes. */
  lemma DecodeClampedIff(v: Value)
    requires Typed(v)
    ensures Decode(Clamp(Stored(v))) == Some(v) <==> |Stored(v)| <= 65535
  {
    DecodeStored(v);
    StoredParts(v);
    var s := Stored(v);
    if |s| <= MAX_VAL_LEN {
      assert Clamp(s) == s;
    } else {
      var c := Clamp(s);
      assert v.Json? || v.Binary?;
      assert c[..4] == VC_MAGIC && c[4] == s[4];
      assert |c[5..]| < |Payload(v)|;
    }
  }

  /**
   * VCSET then VCGET, from every reachable cache and for every accepted set: the value
   * is there iff the set could be read back, and it is then the value set iff its stored
   * form has at most 65535 bytes.
   */
  lemma ThroughTheStore(c: Cache, g: Config, b: Bag, key: seq<byte>, v: Value, env: Env)
    requires BagInv(c, g, b, []) && Typed(v) && (g.small ==> |Stored(v)| <= 65536) && Accepted(c, key, Stored(v), env)
    ensures var r := Get(Set(c, g.hash, key, Stored(v), 0, env).cache, g.hash, key, env.now).reply;
            if WouldRead(c, g.hash, key, env.now)
            then r.Value? && (Decode(r.bytes) == Some(v) <==> |Stored(v)| <= 65535)
            else r == NotFound
  {
    assert Shape(c);
    hide BagInv;
    hide Set;
    hide Get;
    hide Stored;
    hide Decode;
    hide WouldRead;
    hide Accepted;
    SetReads(c, g, b, key, Stored(v), 0, env, env.now);
    DecodeClampedIff(v);
    ClampIs(Stored(v));
  }

  // ---- the bytes ----

  /** The stored form byte by byte: `*VC1`, the letter of the type, the payload; integers low-order byte first. */
  lemma StoredBytes(v: Value)
    requires Typed(v)
    ensures var s := Stored(v);
            && s[0] == 42 && s[1] == 86 && s[2] == 67 && s[3] == 49
            && s[4] == (match v case Int(_) => 105 case Float(_) => 100 case Bool(_) => 98 case Json(_) => 106 case _ => 66)
            && match v
               case Int(n) =>
                 var u: nat := if n < 0 then n + 0x1_0000_0000_0000_0000 else n;
                 s[5..] == LE(u, 4) + LE(u / 0x1_0000_0000, 4)
               case Float(bits) => s[5..] == bits
               case Bool(b) => s[5..] == [if b then 1 else 0]
               case Json(text) => s[5..] == text
               case Binary(data) => s[5..] == data
               case Plain(data) => true
  {
    hide Stored;
    hide LE;
    StoredParts(v);
    var s := Stored(v);
    assert s[..4][0] == s[0] && s[..4][1] == s[1] && s[..4][2] == s[2] && s[..4][3] == s[3];
    if v.Int? { LEEight(Unsigned(v.n)); }
  }

  /**
   * SET then VCGET: a value that does not start with a typed header comes back as plain
   * bytes, and one that does comes back without its header, under its type.
   */
  lemma PlainThroughTheStore(c: Cache, g: Config, b: Bag, key: seq<byte>, val: seq<byte>, env: Env)
    requires BagInv(c, g, b, []) && |val| <= 65535 && Accepted(c, key, val, env) && WouldRead(c, g.hash, key, env.now)
    ensures var r := Get(Set(c, g.hash, key, val, 0, env).cache, g.hash, key, env.now).reply;
            && r == Reply.Value(val)
            && (if RespStream.Typed(val) then Decode(val) != Some(Plain(val)) && (val[4] == 66 ==> Decode(val) == Some(Binary(val[5..])))
                else Decode(val) == Some(Plain(val)))
  {
    assert Shape(c);
    hide BagInv;
    hide Set;
    hide Get;
    hide WouldRead;
    hide Accepted;
    hide Decode;
    hide RespStream.Typed;
    SetReads(c, g, b, key, val, 0, env, env.now);
    DecodeByHeader(val);
  }

  lemma DecodeByHeader(val: seq<byte>)
    ensures if RespStream.Typed(val) then Decode(val) != Some(Plain(val)) && (val[4] == 66 ==> Decode(val) == Some(Binary(val[5..])))
            else Decode(val) == Some(Plain(val))
  {
    hide BytesInt64;
    HeaderIs(val);
  }
}
