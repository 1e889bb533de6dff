/**
 * The representation invariant of the cache, relative to the bag of records stored and
 * a list `held` of entries that a call in progress owns outside the tables.  Every
 * reachable cache stores some bag; while no set hits an expired entry the bag is a map.
 */
module CacheInvariant {
  import opened Bytes
  import opened SlabClasses
  import opened Entries
  import opened Table
  import opened Cache

  datatype Record = Record(key: seq<byte>, val: seq<byte>, expireNs: int)

  datatype Cached = Cached(val: seq<byte>, expireNs: int)

  /** What the cache is for: a finite map from keys to values. */
  type Ref = map<seq<byte>, Cached>

  /** The hash in use, and whether every value stored has at most 65536 bytes. */
  datatype Config = Config(hash: HashFn, small: bool)

  function RecordOf(e: Item, mem: Memory): Option<Record> {
    var k := KeyBytes(e, mem);
    var v := ValBytes(e, mem);
    if k.Some? && v.Some? then Some(Record(k.value, v.value, e.expireNs)) else None
  }

  /** Counts the entries that hold record `r`. */
  function RecordIs(mem: Memory, r: Record): Weight {
    (e: Item) => if RecordOf(e, mem) == Some(r) then 1 else 0
  }

  /** Counts the references to `p`. */
  function PtrIs(p: Ptr): Weight {
    (e: Item) => (if KeyPtr(e) == Some(p) then 1 else 0) + (if ValPtr(e) == Some(p) then 1 else 0)
  }

  // ---- sums over all shards, over a list of entries, over the free lists ----

  function Total(shards: seq<Shard>, w: Weight): nat {
    if |shards| == 0 then 0 else Total(shards[..|shards| - 1], w) + Sum(shards[|shards| - 1].table, w)
  }

  function SumSeq(es: seq<Item>, w: Weight): nat {
    if |es| == 0 then 0 else SumSeq(es[..|es| - 1], w) + w(es[|es| - 1])
  }

  function CountIn(ps: seq<Ptr>, p: Ptr): nat {
    multiset(ps)[p]
  }

  function FreeCount(free: seq<seq<Ptr>>, p: Ptr): nat {
    if |free| == 0 then 0 else FreeCount(free[..|free| - 1], p) + CountIn(free[|free| - 1], p)
  }

  lemma {:induction false} TotalUpdate(shards: seq<Shard>, i: nat, sh: Shard, w: Weight)
    requires i < |shards|
    ensures Total(shards[i := sh], w) + Sum(shards[i].table, w) == Total(shards, w) + Sum(sh.table, w)
  {
    var n := |shards| - 1;
    if i == n {
      assert shards[i := sh][..n] == shards[..n];
    } else {
      assert shards[i := sh][..n] == shards[..n][i := sh];
      TotalUpdate(shards[..n], i, sh, w);
    }
  }

  lemma {:induction false} TotalHas(shards: seq<Shard>, i: nat, w: Weight)
    requires i < |shards|
    ensures Sum(shards[i].table, w) <= Total(shards, w)
  {
    var n := |shards| - 1;
    if i < n {
      assert shards[..n][i] == shards[i];
      TotalHas(shards[..n], i, w);
    }
  }

  lemma {:induction false} TotalFrom(shards: seq<Shard>, w: Weight) returns (i: nat, s: nat)
    requires Total(shards, w) > 0
    ensures i < |shards| && s < |shards[i].table| && Of(shards[i].table[s], w) > 0
  {
    var n := |shards| - 1;
    if Sum(shards[n].table, w) > 0 {
      i := n;
      s := SumFrom(shards[n].table, w);
    } else {
      i, s := TotalFrom(shards[..n], w);
    }
  }

  lemma {:induction false} TotalAgree(shards: seq<Shard>, v: Weight, w: Weight)
    requires forall i, s | 0 <= i < |shards| && 0 <= s < |shards[i].table| ::
               Of(shards[i].table[s], v) == Of(shards[i].table[s], w)
    ensures Total(shards, v) == Total(shards, w)
  {
    var n := |shards| - 1;
    if n >= 0 {
      SumAgree(shards[n].table, shards[n].table, v, w);
      assert forall i | 0 <= i < n :: shards[..n][i] == shards[i];
      TotalAgree(shards[..n], v, w);
    }
  }

  lemma {:induction false} SumSeqHas(es: seq<Item>, k: nat, w: Weight)
    requires k < |es|
    ensures w(es[k]) <= SumSeq(es, w)
  {
    var n := |es| - 1;
    if k < n {
      assert es[..n][k] == es[k];
      SumSeqHas(es[..n], k, w);
    }
  }

  lemma SumSeqAppend(es: seq<Item>, e: Item, w: Weight)
    ensures SumSeq(es + [e], w) == SumSeq(es, w) + w(e)
  {
    assert (es + [e])[..|es|] == es;
  }

  lemma {:induction false} FreeUpdate(free: seq<seq<Ptr>>, k: nat, ps: seq<Ptr>, p: Ptr)
    requires k < |free|
    ensures FreeCount(free[k := ps], p) + CountIn(free[k], p) == FreeCount(free, p) + CountIn(ps, p)
  {
    var n := |free| - 1;
    if k == n {
      assert free[k := ps][..n] == free[..n];
    } else {
      assert free[k := ps][..n] == free[..n][k := ps];
      FreeUpdate(free[..n], k, ps, p);
    }
  }

  // ---- the invariant ----

  /** The table of one shard is well formed and `count` counts it. */
  predicate ShardOk(sh: Shard) {
    && PowerOfTwo(|sh.table|) && sh.hand < |sh.table|
    && Chain(sh.table) && Distances(sh.table)
    && (forall s | 0 <= s < |sh.table| :: !sh.table[s].state.Busy?)
    && sh.count == U32(Sum(sh.table, One()) + sh.overcount)
  }

  predicate ShardsOk(c: Cache) {
    Shape(c) && forall i | 0 <= i < SHARDS :: ShardOk(c.shards[i])
  }

  /** An entry can be read back, its pointers have the kind its flags say, and its block is large enough. */
  predicate Good(e: Item, mem: Memory, g: Config) {
    && RecordOf(e, mem).Some?
    && e.keyHash == HashOf(g.hash, RecordOf(e, mem).value.key)
    && e.keyLen == |RecordOf(e, mem).value.key|
    && (e.keyLong ==> KeyPtr(e).Some? && KeyPtr(e).value.Heap?)
    && (e.valSlab ==> !e.valMmap && ValPtr(e).Some? && ValPtr(e).value.Block?
                      && ValPtr(e).value in mem && |mem[ValPtr(e).value]| <= ClassSize(ValPtr(e).value.cls))
    && (e.valSlab && g.small ==> ValPtr(e).value.cls == ClassFor(e.valLen))
    && (e.valMmap ==> ValPtr(e).Some? && ValPtr(e).value.Region?)
  }

  predicate SlotGood(c: Cache, g: Config, i: nat, s: nat)
    requires i < |c.shards| && s < |c.shards[i].table|
  {
    var x := c.shards[i].table[s];
    x.state.Live? ==> Good(x.item, c.mem, g) && ShardIdx(x.item.keyHash) == i
  }

  predicate AllGood(c: Cache, g: Config, held: seq<Item>) {
    && (forall i, s | 0 <= i < |c.shards| && 0 <= s < |c.shards[i].table| :: SlotGood(c, g, i, s))
    && (forall k | 0 <= k < |held| :: Good(held[k], c.mem, g))
  }

  function Refs(c: Cache, held: seq<Item>, p: Ptr): nat {
    Total(c.shards, PtrIs(p)) + SumSeq(c.leaked, PtrIs(p)) + SumSeq(held, PtrIs(p))
  }

  /** Every allocated block has exactly one owner; nothing refers to a block that is not allocated. */
  ghost predicate OwnedOnce(c: Cache, held: seq<Item>) {
    forall p: Ptr :: Refs(c, held, p) == if p in c.mem then 1 else 0
  }

  predicate InArena(p: Ptr) {
    p.Block? && p.cls < CLASSES && p.index < ArenaBlocks(p.cls)
  }

  /**
   * Every arena block is on exactly one free list, once, or allocated.  A list
   * holds no block too small for its class, and only its own if values are small.
   */
  ghost predicate Arena(c: Cache, small: bool) {
    && (forall p: Ptr :: FreeCount(c.free, p) + (if p in c.mem && p.Block? then 1 else 0) == if InArena(p) then 1 else 0)
    && (forall p | p in c.mem && !p.Block? :: p.id < c.nextId)
    && (forall k, b | 0 <= k < |c.free| && b in c.free[k] :: b.Block? && b.cls >= k && (small ==> b.cls == k))
  }

  /** What makes the cache well formed, whatever it stores. */
  ghost predicate Sound(c: Cache, g: Config, held: seq<Item>) {
    ShardsOk(c) && AllGood(c, g, held) && OwnedOnce(c, held) && Arena(c, g.small)
  }

  type Bag = multiset<Record>

  /** The LIVE entries hold the records of `b`, each as often as `b` says. */
  ghost predicate Stores(c: Cache, b: Bag) {
    forall r: Record :: Total(c.shards, RecordIs(c.mem, r)) == b[r]
  }

  ghost predicate BagInv(c: Cache, g: Config, b: Bag, held: seq<Item>) {
    Sound(c, g, held) && Stores(c, b)
  }

  // ---- bags that are maps ----

  function InRef(m: Ref, r: Record): nat {
    if r.key in m && m[r.key] == Cached(r.val, r.expireNs) then 1 else 0
  }

  function BagOf(m: Ref): (b: Bag)
    ensures forall r: Record :: b[r] == InRef(m, r)
  {
    multiset(set k | k in m :: Record(k, m[k].val, m[k].expireNs))
  }

  lemma TakeFromMap(m: Ref, q: Record)
    requires BagOf(m)[q] > 0
    ensures BagOf(m) - multiset{q} == BagOf(m - {q.key}) && q.key in m && m[q.key] == Cached(q.val, q.expireNs)
  {
    var a, b := BagOf(m) - multiset{q}, BagOf(m - {q.key});
    assert forall r: Record :: a[r] == b[r];
  }

  lemma AddToMap(m: Ref, q: Record)
    requires q.key !in m
    ensures BagOf(m) + multiset{q} == BagOf(m[q.key := Cached(q.val, q.expireNs)])
  {
    var a, b := BagOf(m) + multiset{q}, BagOf(m[q.key := Cached(q.val, q.expireNs)]);
    assert forall r: Record :: a[r] == b[r];
  }

  /** The LIVE entries hold the pairs of `m`, each once, and nothing else. */
  ghost predicate Agrees(c: Cache, m: Ref) {
    Stores(c, BagOf(m))
  }

  ghost predicate Inv(c: Cache, g: Config, m: Ref, held: seq<Item>) {
    BagInv(c, g, BagOf(m), held)
  }
}
