/** Allocation before the lock and insertion under it keep the invariant. */
module CacheStore {
  import opened Bytes
  import opened SlabClasses
  import opened Entries
  import opened Table
  import opened Cache
  import opened CacheInvariant
  import opened CacheSteps

  // ---- insertion ----

  lemma CountUp(live: nat, live': nat, over: nat, more: nat, count: nat)
    requires count == U32(live + over) && live' + more == live + 1
    ensures U32(count + 1) == U32(live' + (over + more))
  {
  }

  function Attached(sh: Shard, e: Item): Shard
    requires |sh.table| > 0
  {
    var (u, o) := Insert(sh.table, e);
    sh.(table := u, count := U32(sh.count + 1), overcount := sh.overcount + if o.Some? then 1 else 0)
  }

  lemma AttachShardOk(sh: Shard, e: Item)
    requires ShardOk(sh)
    ensures ShardOk(Attached(sh, e))
  {
    var (u, o) := Insert(sh.table, e);
    InsertKeepsChain(sh.table, e);
    InsertKeepsDistances(sh.table, e);
    PlaceStates(sh.table, e, 0, Home(e.keyHash, |sh.table|), 0);
    PlaceConserves(sh.table, e, 0, Home(e.keyHash, |sh.table|), 0, One());
    CountUp(Sum(sh.table, One()), Sum(u, One()), sh.overcount, if o.Some? then 1 else 0, sh.count);
  }

  lemma AttachTotal(c: Cache, i: nat, e: Item, w: Weight)
    requires i < |c.shards| && |c.shards[i].table| > 0
    ensures Total(c.shards[i := Attached(c.shards[i], e)], w) + Left(Insert(c.shards[i].table, e).1, w)
            == Total(c.shards, w) + w(e)
  {
    var t := c.shards[i].table;
    PlaceConserves(t, e, 0, Home(e.keyHash, |t|), 0, w);
    TotalUpdate(c.shards, i, Attached(c.shards[i], e), w);
  }

  lemma AttachOwned(c: Cache, i: nat, e: Item)
    requires Shape(c) && i < SHARDS && OwnedOnce(c, [e])
    ensures OwnedOnce(Attach(c, i, e).0, [])
  {
    var (d, o) := Attach(c, i, e);
    forall p: Ptr ensures Refs(d, [], p) == if p in d.mem then 1 else 0 {
      assert Refs(c, [e], p) == if p in c.mem then 1 else 0;
      AttachTotal(c, i, e, PtrIs(p));
      SumSeqAppend([], e, PtrIs(p));
      assert [] + [e] == [e];
      if o.Some? { SumSeqAppend(c.leaked, o.value, PtrIs(p)); } else { assert c.leaked + [] == c.leaked; }
    }
  }

  lemma AttachGood(c: Cache, g: Config, i: nat, e: Item)
    requires Shape(c) && i < SHARDS && AllGood(c, g, [e]) && ShardIdx(e.keyHash) == i
    ensures AllGood(Attach(c, i, e).0, g, [])
    ensures Attach(c, i, e).1.Some? ==> Good(Attach(c, i, e).1.value, c.mem, g)
  {
    hide Good;
    var (d, o) := Attach(c, i, e);
    var t := c.shards[i].table;
    assert Good([e][0], c.mem, g);
    forall a, b | 0 <= a < |d.shards| && 0 <= b < |d.shards[a].table| ensures SlotGood(d, g, a, b) {
      if a != i {
        assert SlotGood(c, g, a, b);
      } else if d.shards[a].table[b].state.Live? {
        AttachedFrom(c, g, i, e, d.shards[a].table[b].item);
      }
    }
    if o.Some? { AttachedFrom(c, g, i, e, o.value); }
  }

  lemma AttachedFrom(c: Cache, g: Config, i: nat, e: Item, x: Item)
    requires Shape(c) && i < SHARDS && AllGood(c, g, [e]) && ShardIdx(e.keyHash) == i
    requires var (u, o) := Insert(c.shards[i].table, e);
             o == Some(x) || exists k | 0 <= k < |u| :: u[k].state.Live? && u[k].item == x
    ensures Good(x, c.mem, g) && ShardIdx(x.keyHash) == i
  {
    hide Good;
    var t := c.shards[i].table;
    InsertFrom(t, e, x);
    if x == e {
      assert Good([e][0], c.mem, g);
    } else {
      var k :| 0 <= k < |t| && t[k].state.Live? && t[k].item == x;
      assert SlotGood(c, g, i, k);
    }
  }

  function Bagged(r: Option<Record>): Bag {
    if r.Some? then multiset{r.value} else multiset{}
  }

  function DroppedRecord(o: Option<Item>, mem: Memory): Option<Record> {
    if o.Some? then RecordOf(o.value, mem) else None
  }

  lemma AttachStores(c: Cache, b: Bag, i: nat, e: Item, q: Record)
    requires Shape(c) && i < SHARDS && Stores(c, b) && RecordOf(e, c.mem) == Some(q)
    requires Attach(c, i, e).1.Some? ==> RecordOf(Attach(c, i, e).1.value, c.mem).Some?
    ensures Stores(Attach(c, i, e).0, b + multiset{q} - Bagged(DroppedRecord(Attach(c, i, e).1, c.mem)))
    ensures Bagged(DroppedRecord(Attach(c, i, e).1, c.mem)) <= b + multiset{q}
  {
    hide Insert;
    hide RecordOf;
    var (d, o) := Attach(c, i, e);
    var z := DroppedRecord(o, c.mem);
    var b' := b + multiset{q} - Bagged(z);
    assert d.shards == c.shards[i := Attached(c.shards[i], e)];
    if o.Some? { AttachCount(c, b, i, e, q, z.value); }
    forall r: Record ensures Total(d.shards, RecordIs(d.mem, r)) == b'[r] {
      AttachCount(c, b, i, e, q, r);
    }
  }

  /** How often record `r` is stored after the insertion. */
  lemma AttachCount(c: Cache, b: Bag, i: nat, e: Item, q: Record, r: Record)
    requires Shape(c) && i < SHARDS && Stores(c, b) && RecordOf(e, c.mem) == Some(q)
    ensures var o := Insert(c.shards[i].table, e).1;
            Total(c.shards[i := Attached(c.shards[i], e)], RecordIs(c.mem, r))
            + (if DroppedRecord(o, c.mem) == Some(r) then 1 else 0) == b[r] + if r == q then 1 else 0
  {
    hide Insert;
    hide RecordOf;
    AttachTotal(c, i, e, RecordIs(c.mem, r));
    assert Total(c.shards, RecordIs(c.mem, r)) == b[r];
  }

  /** Insertion adds the new record and loses at most the record given up on. */
  lemma AttachKeeps(c: Cache, g: Config, b: Bag, i: nat, e: Item, q: Record)
    requires BagInv(c, g, b, [e]) && i < SHARDS && ShardIdx(e.keyHash) == i && RecordOf(e, c.mem) == Some(q)
    ensures var (d, o) := Attach(c, i, e);
            var z := DroppedRecord(o, c.mem);
            && BagInv(d, g, b + multiset{q} - Bagged(z), [])
            && Bagged(z) <= b + multiset{q} && (o.Some? <==> z.Some?)
  {
    hide ShardOk;
    hide Good;
    hide RecordOf;
    hide Insert;
    hide AllGood;
    hide OwnedOnce;
    hide Stores;
    hide Arena;
    AttachShards(c, i, e);
    AttachGood(c, g, i, e);
    AttachOwned(c, i, e);
    GoodIsReadable(Attach(c, i, e).1, c.mem, g);
    AttachStores(c, b, i, e, q);
    SameArena(c, Attach(c, i, e).0, g.small);
  }

  lemma AttachShards(c: Cache, i: nat, e: Item)
    requires ShardsOk(c) && i < SHARDS
    ensures ShardsOk(Attach(c, i, e).0)
  {
    AttachShardOk(c.shards[i], e);
    hide ShardOk;
    hide Insert;
  }

  lemma GoodIsReadable(o: Option<Item>, mem: Memory, g: Config)
    requires o.Some? ==> Good(o.value, mem, g)
    ensures o.Some? ==> RecordOf(o.value, mem).Some?
  {
  }

  lemma SameArena(c: Cache, d: Cache, small: bool)
    requires Arena(c, small) && d.free == c.free && d.mem == c.mem && d.nextId == c.nextId
    ensures Arena(d, small)
  {
  }

  // ---- allocation ----

  lemma {:induction false} FreeHas(free: seq<seq<Ptr>>, k: nat, p: Ptr)
    requires k < |free| && p in free[k]
    ensures FreeCount(free, p) > 0
  {
    var n := |free| - 1;
    if k < n {
      assert free[..n][k] == free[k];
      FreeHas(free[..n], k, p);
    }
  }

  /** Taking a block off a free list moves it from the list to the allocated blocks. */
  lemma TakeBlock(c: Cache, d: Cache, g: Config, cls: nat)
    requires Arena(c, g.small) && cls < |c.free| && c.free[cls] != []
    requires d.free == c.free[cls := c.free[cls][1..]] && d.nextId >= c.nextId
    requires forall p | p in d.mem :: p in c.mem || p == c.free[cls][0] || (!p.Block? && p.id < d.nextId)
    requires c.free[cls][0] in d.mem && forall p | p in c.mem :: p in d.mem
    ensures Arena(d, g.small) && c.free[cls][0] !in c.mem
  {
    var b := c.free[cls][0];
    FreeHas(c.free, cls, b);
    assert FreeCount(c.free, b) + (if b in c.mem && b.Block? then 1 else 0) == if InArena(b) then 1 else 0;
    forall p: Ptr
      ensures FreeCount(d.free, p) + (if p in d.mem && p.Block? then 1 else 0) == if InArena(p) then 1 else 0
    {
      FreeUpdate(c.free, cls, c.free[cls][1..], p);
      assert [b] + c.free[cls][1..] == c.free[cls];
      CountCons(b, c.free[cls][1..], p);
    }
  }

  /** A refused allocation leaves no trace. */
  lemma RefusedUnchanged(c: Cache, g: Config, key: seq<byte>, val: seq<byte>, env: Env)
    requires |c.free| == CLASSES && Arena(c, g.small) && Allocate(c, key, val, env).Refused?
    ensures Allocate(c, key, val, env).cache == c
  {
    var cls := ClassFor(|val|);
    if c.free[cls] != [] {
      var b := c.free[cls][0];
      FreeHas(c.free, cls, b);
      assert FreeCount(c.free, b) + (if b in c.mem && b.Block? then 1 else 0) == if InArena(b) then 1 else 0;
      assert c.mem - {b} == c.mem;
    }
  }

  lemma OwnedFresh(c: Cache, d: Cache, e: Item)
    requires OwnedOnce(c, []) && d.shards == c.shards && d.leaked == c.leaked
    requires KeyPtr(e).Some? ==> KeyPtr(e).value !in c.mem
    requires ValPtr(e).Some? ==> ValPtr(e).value !in c.mem && ValPtr(e) != KeyPtr(e)
    requires forall p: Ptr :: p in d.mem <==> p in c.mem || KeyPtr(e) == Some(p) || ValPtr(e) == Some(p)
    ensures OwnedOnce(d, [e])
  {
    forall p: Ptr ensures Refs(d, [e], p) == if p in d.mem then 1 else 0 {
      assert Refs(c, [], p) == if p in c.mem then 1 else 0;
      SumSeqAppend([], e, PtrIs(p));
      assert [] + [e] == [e];
    }
  }

  predicate LongKey(l: Layout) { l.LongKeySlab? || l.LongKeyMmap? }

  lemma SlabMemory(c: Cache, g: Config, key: seq<byte>, val: seq<byte>, env: Env)
    requires |c.free| == CLASSES && Arena(c, g.small) && Allocate(c, key, val, env).Buffers?
    requires LayoutOf(|key|, |val|).ShortKeySlab? || LayoutOf(|key|, |val|).LongKeySlab?
    ensures var b := Allocate(c, key, val, env);
            Arena(b.cache, g.small) && b.vp !in c.mem && b.vp.Block?
  {
    var b := Allocate(c, key, val, env);
    var cls := ClassFor(|val|);
    hide ClassFor;
    hide ClassSize;
    hide FreeCount;
    hide InArena;
    assert c.free[cls][0] in c.free[cls];
    TakeBlock(c, b.cache, g, cls);
  }

  lemma AllocateMemory(c: Cache, g: Config, key: seq<byte>, val: seq<byte>, env: Env)
    requires |c.free| == CLASSES && Arena(c, g.small)
    requires Allocate(c, key, val, env).Buffers?
    ensures var b := Allocate(c, key, val, env);
            var l := LayoutOf(|key|, |val|);
            && Arena(b.cache, g.small)
            && (LongKey(l) ==> b.kp !in c.mem && b.kp.Heap?)
            && (!l.Inline? ==> b.vp !in c.mem && !b.vp.Heap?)
            && (forall p: Ptr :: p in b.cache.mem <==> p in c.mem || (LongKey(l) && p == b.kp) || (!l.Inline? && p == b.vp))
            && (forall p | p in c.mem :: p in b.cache.mem && b.cache.mem[p] == c.mem[p])
  {
    hide ClassSize;
    hide ClassFrom;
    hide InArena;
    hide FreeCount;
    var b := Allocate(c, key, val, env);
    var l := LayoutOf(|key|, |val|);
    if l.ShortKeySlab? || l.LongKeySlab? {
      SlabMemory(c, g, key, val, env);
    }
  }

  lemma AllocateArena(c: Cache, g: Config, key: seq<byte>, val: seq<byte>, env: Env, h: nat, exp: int)
    requires |c.free| == CLASSES && Arena(c, g.small)
    requires Allocate(c, key, val, env).Buffers?
    ensures var b := Allocate(c, key, val, env);
            var e := MakeItem(key, val, h, exp, b.vp, b.kp);
            && Arena(b.cache, g.small)
            && (KeyPtr(e).Some? ==> KeyPtr(e).value !in c.mem && KeyPtr(e).value.Heap?)
            && (ValPtr(e).Some? ==> ValPtr(e).value !in c.mem && !ValPtr(e).value.Heap?)
            && (forall p: Ptr :: p in b.cache.mem <==> p in c.mem || KeyPtr(e) == Some(p) || ValPtr(e) == Some(p))
            && (forall p | p in c.mem :: p in b.cache.mem && b.cache.mem[p] == c.mem[p])
  {
    hide Allocate;
    hide MakeItem;
    hide LoadPtr;
    hide LayoutOf;
    hide Arena;
    var b := Allocate(c, key, val, env);
    AllocateMemory(c, g, key, val, env);
    MakeItemPtrs(key, val, h, exp, b.vp, b.kp);
  }

  lemma AllocatedContents(c: Cache, g: Config, key: seq<byte>, val: seq<byte>, env: Env)
    requires |c.free| == CLASSES && Arena(c, g.small)
    requires Allocate(c, key, val, env).Buffers?
    ensures var b := Allocate(c, key, val, env);
            var l := LayoutOf(|key|, |val|);
            && (!l.Inline? ==> b.vp in b.cache.mem && b.cache.mem[b.vp] == val)
            && (LongKey(l) ==> b.kp in b.cache.mem && b.cache.mem[b.kp] == key && b.kp.Heap?)
            && (l.ShortKeySlab? || l.LongKeySlab? ==>
                  b.vp.Block? && |val| <= ClassSize(CLASSES - 1) && ClassFor(|val|) <= b.vp.cls
                  && (g.small ==> ClassFor(|val|) == b.vp.cls))
            && (l.LongKeyMmap? ==> b.vp.Region?)
  {
    hide ClassSize;
    hide FreeCount;
    hide InArena;
    var b := Allocate(c, key, val, env);
    var cls := ClassFor(|val|);
    if LayoutOf(|key|, |val|).ShortKeySlab? || LayoutOf(|key|, |val|).LongKeySlab? {
      assert b.vp in c.free[cls];
    }
  }

  lemma AllocateGood(c: Cache, g: Config, key: seq<byte>, val: seq<byte>, env: Env, exp: int)
    requires |c.free| == CLASSES && Arena(c, g.small) && (g.small ==> |val| <= 65536)
    requires Allocate(c, key, val, env).Buffers?
    ensures var b := Allocate(c, key, val, env);
            var e := MakeItem(key, val, HashOf(g.hash, key), exp, b.vp, b.kp);
            && RecordOf(e, b.cache.mem) == Some(Record(key, Clamp(val), exp))
            && Good(e, b.cache.mem, g)
  {
    hide Allocate;
    hide LoadPtr;
    hide StorePtr;
    hide LoadBytes;
    hide StoreBytes;
    hide Arena;
    hide ClassSize;
    hide KeyBytes;
    hide ValBytes;
    var b := Allocate(c, key, val, env);
    var h := HashOf(g.hash, key);
    AllocatedContents(c, g, key, val, env);
    MakeItemPtrs(key, val, h, exp, b.vp, b.kp);
    LayoutRoundTrip(key, val, h, exp, b.vp, b.kp, b.cache.mem);
    ClampIs(val);
    var l := LayoutOf(|key|, |val|);
    if l.ShortKeySlab? || l.LongKeySlab? {
      ClassForIsSmallestFit(|val|);
      RecoveredClassIff(|val|);
      if ClassFor(|val|) < b.vp.cls { ClassSizeMonotone(ClassFor(|val|), b.vp.cls); }
    }
  }

  lemma FreshKeeps(c: Cache, d: Cache, g: Config, bag: Bag, e: Item)
    requires BagInv(c, g, bag, []) && Arena(d, g.small) && Good(e, d.mem, g)
    requires d.shards == c.shards && |d.free| == CLASSES && d.leaked == c.leaked
    requires KeyPtr(e).Some? ==> KeyPtr(e).value !in c.mem
    requires ValPtr(e).Some? ==> ValPtr(e).value !in c.mem && ValPtr(e) != KeyPtr(e)
    requires forall p: Ptr :: p in d.mem <==> p in c.mem || KeyPtr(e) == Some(p) || ValPtr(e) == Some(p)
    requires forall p | p in c.mem :: p in d.mem && d.mem[p] == c.mem[p]
    ensures BagInv(d, g, bag, [e])
  {
    hide ShardOk;
    hide Good;
    hide Arena;
    hide Stores;
    hide OwnedOnce;
    OwnedFresh(c, d, e);
    MemoryFrame(c, d, g, bag, []);
  }

  /** The buffers a set allocates are owned by the entry it is about to insert, and by nothing else. */
  lemma AllocateKeeps(c: Cache, g: Config, bag: Bag, key: seq<byte>, val: seq<byte>, env: Env, exp: int)
    requires BagInv(c, g, bag, []) && Allocate(c, key, val, env).Buffers? && (g.small ==> |val| <= 65536)
    ensures var b := Allocate(c, key, val, env);
            var e := MakeItem(key, val, HashOf(g.hash, key), exp, b.vp, b.kp);
            && RecordOf(e, b.cache.mem) == Some(Record(key, Clamp(val), exp))
            && BagInv(b.cache, g, bag, [e])
  {
    var b := Allocate(c, key, val, env);
    var e := MakeItem(key, val, HashOf(g.hash, key), exp, b.vp, b.kp);
    AllocateArena(c, g, key, val, env, HashOf(g.hash, key), exp);
    AllocateGood(c, g, key, val, env, exp);
    FreshKeeps(c, b.cache, g, bag, e) by {
      hide AllGood;
      hide Stores;
      hide OwnedOnce;
      hide Allocate;
      hide MakeItem;
      hide Good;
      hide LoadPtr;
    }
  }
}
