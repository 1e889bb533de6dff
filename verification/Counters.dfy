/** INCR, DECR, INCRBY and DECRBY: counters kept in the cache. */
module Counters {
  import opened Bytes
  import opened Entries
  import opened Table
  import opened Cache
  import opened CacheInvariant
  import opened CacheBags
  import opened PushOuts
  import opened StaleSets
  import opened Resp
  import opened RespStream
  import opened RespGrammar
  import opened Typed

  // ---- numbers in text ----

  function DigitsEnd(s: seq<byte>, i: nat): (j: nat)
    requires i <= |s|
    ensures i <= j <= |s| && (forall k | i <= k < j :: IsDigit(s[k])) && (j < |s| ==> !IsDigit(s[j]))
    decreases |s| - i
  {
    if i < |s| && IsDigit(s[i]) then DigitsEnd(s, i + 1) else i
  }

  function Saturate(n: int): int64 {
    if n >= TWO_63 then TWO_63 - 1 else if n < 0 - TWO_63 then 0 - TWO_63 else n
  }

  /** `strtoll`: the number a string starts with, 0 if it starts with none. */
  function Strtoll(s: seq<byte>): int64 {
    var i := SkipSpace(s, 0);
    var k := if i < |s| && (s[i] == 43 || s[i] == 45) then i + 1 else i;
    var n := Decimal(s[k..DigitsEnd(s, k)]);
    Saturate(if k > i && s[i] == 45 then 0 - n else n)
  }

  /** At most 31 bytes are looked at. */
  function Text(s: seq<byte>): int64 {
    Strtoll(if |s| < 31 then s else s[..31])
  }

  lemma {:induction false} DigitsEndIs(s: seq<byte>, i: nat, e: nat)
    requires i <= e <= |s| && (forall k | i <= k < e :: IsDigit(s[k])) && (e < |s| ==> !IsDigit(s[e]))
    ensures DigitsEnd(s, i) == e
    decreases e - i
  {
    if i < e { DigitsEndIs(s, i + 1, e); }
  }

  /** A numeral that no further digit follows. */
  ghost predicate Leads(s: seq<byte>, e: nat, n: int, i: nat, k: nat) {
    e <= |s| && (e < |s| ==> s[e] < 48 || s[e] > 57) && NumeralAt(s[..e], n, i, k)
  }

  lemma NumeralRead(s: seq<byte>, e: nat, n: int, i: nat, k: nat)
    requires Leads(s, e, n, i, k)
    ensures Strtoll(s) == Saturate(n)
  {
    var t := s[..e];
    assert forall j | 0 <= j < e :: t[j] == s[j];
    assert i < k ==> t[i] == t[i..k][0];
    SkipSpaceIs(s, 0, i);
    assert t[k..] == s[k..e];
    DigitsEndIs(s, k, e);
    DecimalIsValue(s[k..e]);
    hide Decimal;
    hide RespGrammar.Value;
    hide SkipSpace;
    hide DigitsEnd;
    assert k == if i < |s| && (s[i] == 43 || s[i] == 45) then i + 1 else i;
  }

  lemma NoNumeralRead(s: seq<byte>)
    ensures Strtoll(s) == 0 || exists e: nat, n: int, i: nat, k: nat :: Leads(s, e, n, i, k)
  {
    var i := SkipSpace(s, 0);
    SkipSpaceSkips(s, 0);
    var k := if i < |s| && (s[i] == 43 || s[i] == 45) then i + 1 else i;
    var e := DigitsEnd(s, k);
    if e > k {
      var t := s[..e];
      assert forall j | 0 <= j < e :: t[j] == s[j];
      assert k > i ==> t[i..k] == [s[i]];
      assert NumeralAt(t, if t[i..k] == [45] then 0 - RespGrammar.Value(t[k..]) else RespGrammar.Value(t[k..]), i, k);
      assert Leads(s, e, if t[i..k] == [45] then 0 - RespGrammar.Value(t[k..]) else RespGrammar.Value(t[k..]), i, k);
    }
  }

  /**
   * A text counts as the number its first 31 bytes start with, brought into 64 bits; as 0
   * if they start with none.
   */
  lemma TextExactly(s: seq<byte>)
    ensures var t := if |s| < 31 then s else s[..31];
            && (forall e: nat, n: int, i: nat, k: nat :: Leads(t, e, n, i, k) ==>
                  Text(s) == if n > 0x7FFF_FFFF_FFFF_FFFF then 0x7FFF_FFFF_FFFF_FFFF
                             else if n < -0x8000_0000_0000_0000 then -0x8000_0000_0000_0000 else n)
            && (Text(s) != 0 ==> exists e: nat, n: int, i: nat, k: nat :: Leads(t, e, n, i, k))
  {
    hide Strtoll;
    hide Leads;
    var t := if |s| < 31 then s else s[..31];
    forall e: nat, n: int, i: nat, k: nat | Leads(t, e, n, i, k) ensures Text(s) == Saturate(n) {
      NumeralRead(t, e, n, i, k);
    }
    NoNumeralRead(t);
  }

  /** The text of a number counts as that number. */
  lemma DigitsText(n: nat)
    requires n < TWO_63
    ensures Text(Digits(n)) == n
  {
    var s := Digits(n);
    DigitsFit(n);
    NumberRoundTrip(n);
    ParsedIsNumeral(s);
    var i: nat, k: nat :| NumeralAt(s, n, i, k);
    assert s[..|s|] == s;
    assert Leads(s, |s|, n, i, k);
    NumeralRead(s, |s|, n, i, k);
  }

  // ---- INCRBY ----

  predicate IsCounter(s: seq<byte>) { |s| == 13 && s[..4] == VC_MAGIC && s[4] == T_INT64 }

  /** The typed branch of `cmd_incrby`. */
  function CounterOf(s: seq<byte>): int64
    requires IsCounter(s)
  {
    BytesInt64(s[5..])
  }

  /** 64-bit two's-complement addition. */
  function Add64(a: int64, b: int64): int64 {
    Signed((a + b) % TWO_64)
  }

  /** A counter stored by INCRBY is recognised as one and read back exactly. */
  lemma CounterReadsBack(n: int64)
    ensures IsCounter(Stored(Int(n))) && CounterOf(Stored(Int(n))) == n
  {
    StoredParts(Int(n));
    Int64RoundTrip(n);
  }

  function AfterDeltas(n: int64, ds: seq<int64>): int64
    decreases |ds|
  {
    if ds == [] then n else AfterDeltas(Add64(n, ds[0]), ds[1..])
  }

  function SumOf(ds: seq<int64>): int {
    if ds == [] then 0 else ds[0] + SumOf(ds[1..])
  }

  lemma AddWraps(a: int64, b: int64) returns (k: int)
    ensures Add64(a, b) == a + b + k * TWO_64
  {
    k := 0 - (a + b) / TWO_64;
    if (a + b) % TWO_64 >= TWO_63 { k := k - 1; }
  }

  lemma {:induction false} DeltasAdd(n: int64, ds: seq<int64>) returns (k: int)
    ensures AfterDeltas(n, ds) == n + SumOf(ds) + k * TWO_64
    decreases |ds|
  {
    if ds == [] {
      k := 0;
    } else {
      var i := AddWraps(n, ds[0]);
      var j := DeltasAdd(Add64(n, ds[0]), ds[1..]);
      hide Add64;
      k := i + j;
    }
  }

  lemma SignedIs(v: int64, n: int, k: int)
    requires v == n + k * TWO_64
    ensures v == Signed(n % TWO_64)
  {
  }

  /** What `cmd_incrby` starts from: a stored counter, or the number the value starts with. */
  function Current(r: Reply): int64 {
    if !r.Value? then 0 else if IsCounter(r.bytes) then CounterOf(r.bytes) else Text(r.bytes)
  }

  /** `cmd_incrby`: get, add, set. */
  function IncrBy(c: Cache, hf: HashFn, key: seq<byte>, delta: int64, env: Env): (o: Outcome)
    requires Shape(c)
    ensures Shape(o.cache)
  {
    var got := Get(c, hf, key, env.now);
    Set(got.cache, hf, key, Stored(Int(Add64(Current(got.reply), delta))), 0, env)
  }

  function IncrAll(c: Cache, hf: HashFn, key: seq<byte>, ds: seq<(int64, Env)>): (d: Cache)
    requires Shape(c)
    ensures Shape(d)
    decreases |ds|
  {
    if ds == [] then c else IncrAll(IncrBy(c, hf, key, ds[0].0, ds[0].1).cache, hf, key, ds[1..])
  }

  /** The bytes an INCRBY call would store. */
  function NextStored(c: Cache, hf: HashFn, key: seq<byte>, delta: int64, env: Env): seq<byte>
    requires Shape(c)
  {
    Stored(Int(Add64(Current(Get(c, hf, key, env.now).reply), delta)))
  }

  /** Every set of the series gets past its arguments and its allocations. */
  predicate AllAccepted(c: Cache, hf: HashFn, key: seq<byte>, ds: seq<(int64, Env)>)
    requires Shape(c)
    decreases |ds|
  {
    ds == [] ||
    (&& Accepted(Get(c, hf, key, ds[0].1.now).cache, key, NextStored(c, hf, key, ds[0].0, ds[0].1), ds[0].1)
     && AllAccepted(IncrBy(c, hf, key, ds[0].0, ds[0].1).cache, hf, key, ds[1..]))
  }

  function Deltas(ds: seq<(int64, Env)>): (r: seq<int64>)
    ensures |r| == |ds|
    decreases |ds|
  {
    if ds == [] then [] else [ds[0].0] + Deltas(ds[1..])
  }

  /** The key reads as a counter that holds `n`, at any time. */
  ghost predicate Reads(c: Cache, hf: HashFn, key: seq<byte>, n: int64)
    requires Shape(c)
  {
    forall now: int :: Get(c, hf, key, now).reply == Reply.Value(Stored(Int(n)))
  }

  lemma ShortStored(n: int64)
    ensures |Stored(Int(n))| == 13 && Clamp(Stored(Int(n))) == Stored(Int(n))
  {
    StoredParts(Int(n));
    var v := Stored(Int(n));
    assert v[..13] == v;
  }

  /** One INCRBY whose set can be read back leaves the counter moved by its delta. */
  lemma IncrReads(c: Cache, g: Config, b: Bag, key: seq<byte>, delta: int64, env: Env)
    returns (b': Bag)
    requires BagInv(c, g, b, [])
    requires var got := Get(c, g.hash, key, env.now);
             && Accepted(got.cache, key, NextStored(c, g.hash, key, delta, env), env)
             && WouldRead(got.cache, g.hash, key, env.now)
    ensures var o := IncrBy(c, g.hash, key, delta, env);
            && BagInv(o.cache, g, b', [])
            && Reads(o.cache, g.hash, key, Add64(Current(Get(c, g.hash, key, env.now).reply), delta))
  {
    assert Shape(c);
    hide BagInv;
    hide Get;
    hide Set;
    hide Stored;
    hide Current;
    hide Add64;
    hide WouldRead;
    hide Accepted;
    hide BagStep;
    GetKeeps(c, g, b, key, env.now);
    var got := Get(c, g.hash, key, env.now);
    var n := Add64(Current(got.reply), delta);
    ShortStored(n);
    b' := SetKeeps(got.cache, g, b, key, Stored(Int(n)), 0, env);
    forall now: int ensures Get(Set(got.cache, g.hash, key, Stored(Int(n)), 0, env).cache, g.hash, key, now).reply == Reply.Value(Stored(Int(n))) {
      SetReads(got.cache, g, b, key, Stored(Int(n)), 0, env, now);
    }
  }

  /** A key that reads as a counter can be set, and goes on reading as the sum. */
  lemma {:induction false} IncrAllReads(c: Cache, g: Config, b: Bag, key: seq<byte>, n: int64, ds: seq<(int64, Env)>)
    requires BagInv(c, g, b, []) && Reads(c, g.hash, key, n) && AllAccepted(c, g.hash, key, ds)
    ensures Reads(IncrAll(c, g.hash, key, ds), g.hash, key, AfterDeltas(n, Deltas(ds)))
    decreases |ds|
  {
    hide AllGood;
    hide OwnedOnce;
    hide Arena;
    hide Stores;
    hide ShardOk;
    hide IncrBy;
    hide Add64;
    hide Reads;
    hide Current;
    hide WouldRead;
    hide Accepted;
    if ds != [] {
      var (delta, env) := ds[0];
      ReadsCurrent(c, g, b, key, n, delta, env);
      var b' := IncrReads(c, g, b, key, delta, env);
      IncrAllReads(IncrBy(c, g.hash, key, delta, env).cache, g, b', key, Add64(n, delta), ds[1..]);
      assert Deltas(ds)[1..] == Deltas(ds[1..]);
    }
  }

  lemma ReadsCurrent(c: Cache, g: Config, b: Bag, key: seq<byte>, n: int64, delta: int64, env: Env)
    requires BagInv(c, g, b, []) && Reads(c, g.hash, key, n)
    requires Accepted(Get(c, g.hash, key, env.now).cache, key, NextStored(c, g.hash, key, delta, env), env)
    ensures var got := Get(c, g.hash, key, env.now);
            Current(got.reply) == n && WouldRead(got.cache, g.hash, key, env.now)
  {
    assert Shape(c);
    hide BagInv;
    hide Stored;
    hide CounterOf;
    hide Add64;
    hide WouldRead;
    hide Accepted;
    var got := Get(c, g.hash, key, env.now);
    assert got.reply == Reply.Value(Stored(Int(n)));
    CounterReadsBack(n);
    GetKeeps(c, g, b, key, env.now);
    assert Get(got.cache, g.hash, key, env.now).reply != NotFound by { GetTwice(c, g.hash, key, env.now); }
    hide Get;
    hide BagStep;
    ShortStored(Add64(n, delta));
    ReadableStays(got.cache, g, b, key, Stored(Int(Add64(n, delta))), env);
  }

  /** A get does not change what the next get finds. */
  lemma GetTwice(c: Cache, hf: HashFn, key: seq<byte>, now: int)
    requires Shape(c)
    ensures Get(Get(c, hf, key, now).cache, hf, key, now).reply == NotFound ==> Get(c, hf, key, now).reply == NotFound
  {
    var h := HashOf(hf, key);
    var i := ShardIdx(h);
    var f := Find(c.shards[i].table, c.mem, key, h, now);
    if f.Some? { TouchFind(c.shards[i].table, c.mem, key, h, now, f.value, 0); }
  }

  lemma {:induction false} TouchFind(t: seq<Slot>, mem: Memory, key: seq<byte>, h: nat, now: int, s: nat, i: nat)
    requires |t| > 0 && s < |t|
    ensures FindFrom(t[s := t[s].(clock := true)], mem, key, h, now, i) == FindFrom(t, mem, key, h, now, i)
    decreases |t| - i
  {
    if i < |t| { TouchFind(t, mem, key, h, now, s, i + 1); }
  }

  lemma DeltasSum(n: int64, ds: seq<int64>)
    ensures AfterDeltas(n, ds) == Signed((n + SumOf(ds)) % TWO_64)
  {
    hide AfterDeltas;
    hide SumOf;
    hide Signed;
    var k := DeltasAdd(n, ds);
    SignedIs(AfterDeltas(n, ds), n + SumOf(ds), k);
  }

  /**
   * After any series of INCRBY calls through the cache, whose sets are accepted and whose
   * first can be read back, a get reads at any time what the first call started from plus
   * all deltas, wrapped to 64 bits.
   */
  lemma CounterSums(c: Cache, g: Config, b: Bag, key: seq<byte>, ds: seq<(int64, Env)>, now: int)
    requires BagInv(c, g, b, []) && ds != [] && AllAccepted(c, g.hash, key, ds)
    requires WouldRead(Get(c, g.hash, key, ds[0].1.now).cache, g.hash, key, ds[0].1.now)
    ensures var n := Current(Get(c, g.hash, key, ds[0].1.now).reply);
            Get(IncrAll(c, g.hash, key, ds), g.hash, key, now).reply
            == Reply.Value(Stored(Int(Signed((n + SumOf(Deltas(ds))) % TWO_64))))
  {
    hide AllGood;
    hide OwnedOnce;
    hide Arena;
    hide Stores;
    hide ShardOk;
    hide Get;
    hide IncrBy;
    hide Stored;
    hide AfterDeltas;
    hide SumOf;
    hide Signed;
    hide Add64;
    hide Current;
    hide WouldRead;
    hide Accepted;
    var (delta, env) := ds[0];
    var n := Current(Get(c, g.hash, key, env.now).reply);
    var b' := IncrReads(c, g, b, key, delta, env);
    var d := IncrBy(c, g.hash, key, delta, env).cache;
    IncrAllReads(d, g, b', key, Add64(n, delta), ds[1..]);
    assert Deltas(ds) == [delta] + Deltas(ds[1..]);
    FirstDelta(n, delta, Deltas(ds[1..]));
    DeltasSum(n, Deltas(ds));
  }

  lemma FirstDelta(n: int64, delta: int64, ds: seq<int64>)
    ensures AfterDeltas(n, [delta] + ds) == AfterDeltas(Add64(n, delta), ds)
  {
    hide Add64;
    assert ([delta] + ds)[1..] == ds;
  }

  /** Where a counter starts: 0 for a key that is not there, a stored counter at its number, other values as text. */
  lemma CounterStarts(n: int64, s: seq<byte>)
    ensures Current(NotFound) == 0
    ensures Current(Reply.Value(Stored(Int(n)))) == n
    ensures (|s| != 13 || !RespStream.Typed(s) || s[4] != 105) ==> Current(Reply.Value(s)) == Text(s)
  {
    CounterReadsBack(n);
    HeaderIs(s);
    hide Stored;
    hide CounterOf;
    hide Text;
  }

  lemma DigitsNoCounter(n: nat)
    ensures !IsCounter(Digits(n)) && |Digits(n)| > 0
  {
    DigitsParse(n);
    hide Digits;
    var s := Digits(n);
    assert IsDigit(s[0]);
    if |s| == 13 { assert s[..4][0] == s[0]; }
  }

  /** INCRBY of a key that reads as a decimal text: the counter then holds the sum, wrapped to 64 bits, at any time. */
  lemma TextIncr(c: Cache, g: Config, b: Bag, key: seq<byte>, n: nat, delta: int64, env: Env)
    requires BagInv(c, g, b, []) && n < 0x8000_0000_0000_0000 && Get(c, g.hash, key, env.now).reply == Reply.Value(Digits(n))
    requires Accepted(Get(c, g.hash, key, env.now).cache, key, NextStored(c, g.hash, key, delta, env), env)
    ensures Reads(IncrBy(c, g.hash, key, delta, env).cache, g.hash, key, Signed((n + delta) % 0x1_0000_0000_0000_0000))
  {
    hide AllGood;
    hide OwnedOnce;
    hide Arena;
    hide Stores;
    hide ShardOk;
    hide IncrBy;
    hide Reads;
    hide Current;
    hide WouldRead;
    hide Accepted;
    hide Signed;
    TextCurrent(c, g, b, key, n, delta, env);
    var _ := IncrReads(c, g, b, key, delta, env);
  }

  lemma TextCurrent(c: Cache, g: Config, b: Bag, key: seq<byte>, n: nat, delta: int64, env: Env)
    requires BagInv(c, g, b, []) && n < 0x8000_0000_0000_0000 && Get(c, g.hash, key, env.now).reply == Reply.Value(Digits(n))
    requires Accepted(Get(c, g.hash, key, env.now).cache, key, NextStored(c, g.hash, key, delta, env), env)
    ensures var got := Get(c, g.hash, key, env.now);
            Current(got.reply) == n && WouldRead(got.cache, g.hash, key, env.now)
  {
    assert Shape(c);
    hide BagInv;
    hide Stored;
    hide CounterOf;
    hide Add64;
    hide WouldRead;
    hide Accepted;
    hide Digits;
    hide Text;
    DigitsNoCounter(n);
    DigitsText(n);
    var got := Get(c, g.hash, key, env.now);
    GetKeeps(c, g, b, key, env.now);
    assert Get(got.cache, g.hash, key, env.now).reply != NotFound by { GetTwice(c, g.hash, key, env.now); }
    hide Get;
    hide BagStep;
    hide NextStored;
    NextIsShort(c, g.hash, key, delta, env);
    ReadableStays(got.cache, g, b, key, NextStored(c, g.hash, key, delta, env), env);
  }

  lemma NextIsShort(c: Cache, hf: HashFn, key: seq<byte>, delta: int64, env: Env)
    requires Shape(c)
    ensures |NextStored(c, hf, key, delta, env)| == 13
  {
    hide Get;
    hide Stored;
    hide Add64;
    hide Current;
    ShortStored(Add64(Current(Get(c, hf, key, env.now).reply), delta));
  }

  // ---- the four commands ----

  datatype Verb = INCR | DECR | INCRBY | DECRBY

  function Negated(d: int64): int64 { Signed((0 - d) % TWO_64) }

  /** What each command passes to `cmd_incrby`, and what that adds: an amount given is read once more, without its sign changed. */
  function Delta(verb: Verb, amount: Option<seq<byte>>): int64 {
    var passed :=
      match verb
      case INCR => 1
      case DECR => 0 - 1
      case INCRBY => if amount.Some? then Strtoll(amount.value) else 0
      case DECRBY => if amount.Some? then Negated(Strtoll(amount.value)) else 0;
    if amount.Some? then Strtoll(amount.value) else passed
  }

  /**
   * INCR adds 1 and DECR takes 1 away, but with an amount all four commands add it: DECRBY
   * takes its amount away iff that is 0 or the least number there is.
   */
  lemma DecrByIff(n: int64, amount: seq<byte>)
    ensures Delta(INCR, None) == 1 && Delta(DECR, None) == -1 && Delta(INCRBY, None) == 0 && Delta(DECRBY, None) == 0
    ensures forall verb :: Delta(verb, Some(amount)) == Strtoll(amount)
    ensures var a := Strtoll(amount);
            Add64(n, Delta(DECRBY, Some(amount))) == Signed((n - a) % 0x1_0000_0000_0000_0000)
            <==> a == 0 || a == -0x8000_0000_0000_0000
  {
    hide Strtoll;
  }

  lemma DecrByAdds()
    ensures Digits(1) == [49] && Add64(5, Delta(DECRBY, Some([49]))) == 6
  {
    DigitsText(1);
    hide Strtoll;
  }
}
