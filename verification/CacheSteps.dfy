/** Each step under the shard lock keeps the invariant and moves the bag of records stored. */
module CacheSteps {
  import opened Bytes
  import opened SlabClasses
  import opened Entries
  import opened Table
  import opened Cache
  import opened CacheInvariant

  // ---- memory changes that miss an entry's pointers ----

  predicate KeepsPtrs(e: Item, mem: Memory, mem': Memory) {
    && (KeyPtr(e).Some? && KeyPtr(e).value in mem ==>
          KeyPtr(e).value in mem' && mem'[KeyPtr(e).value] == mem[KeyPtr(e).value])
    && (ValPtr(e).Some? && ValPtr(e).value in mem ==>
          ValPtr(e).value in mem' && mem'[ValPtr(e).value] == mem[ValPtr(e).value])
  }

  lemma GoodFrame(e: Item, mem: Memory, mem': Memory, g: Config)
    requires Good(e, mem, g) && KeepsPtrs(e, mem, mem')
    ensures Good(e, mem', g) && RecordOf(e, mem') == RecordOf(e, mem)
  {
  }

  predicate SameRecords(held: seq<Item>, mem: Memory, mem': Memory) {
    forall k | 0 <= k < |held| :: RecordOf(held[k], mem') == RecordOf(held[k], mem)
  }

  /** If memory changes only away from the pointers of LIVE and held entries, their contents stay. */
  lemma MemoryFrame(c: Cache, d: Cache, g: Config, b: Bag, held: seq<Item>)
    requires AllGood(c, g, held) && Stores(c, b) && d.shards == c.shards
    requires forall i, s | 0 <= i < |c.shards| && 0 <= s < |c.shards[i].table| && c.shards[i].table[s].state.Live? ::
               KeepsPtrs(c.shards[i].table[s].item, c.mem, d.mem)
    requires forall k | 0 <= k < |held| :: KeepsPtrs(held[k], c.mem, d.mem)
    ensures AllGood(d, g, held) && Stores(d, b) && SameRecords(held, c.mem, d.mem)
  {
    forall i, s | 0 <= i < |d.shards| && 0 <= s < |d.shards[i].table|
      ensures SlotGood(d, g, i, s)
      ensures c.shards[i].table[s].state.Live? ==> RecordOf(c.shards[i].table[s].item, d.mem) == RecordOf(c.shards[i].table[s].item, c.mem)
    {
      assert SlotGood(c, g, i, s);
      if c.shards[i].table[s].state.Live? { GoodFrame(c.shards[i].table[s].item, c.mem, d.mem, g); }
    }
    forall k | 0 <= k < |held| ensures Good(held[k], d.mem, g) && RecordOf(held[k], d.mem) == RecordOf(held[k], c.mem) { GoodFrame(held[k], c.mem, d.mem, g); }
    forall r: Record ensures Total(d.shards, RecordIs(d.mem, r)) == b[r] {
      TotalAgree(c.shards, RecordIs(c.mem, r), RecordIs(d.mem, r));
    }
  }

  // ---- an entry leaves its table ----

  lemma CountDown(live: nat, over: nat, count: nat)
    requires live > 0 && count == U32(live + over)
    ensures U32(count - 1) == U32(live - 1 + over)
  {
  }

  lemma DetachShardOk(sh: Shard, s: nat)
    requires ShardOk(sh) && s < |sh.table| && sh.table[s].state.Live?
    ensures ShardOk(sh.(table := sh.table[s := sh.table[s].(state := Dead)], count := U32(sh.count - 1)))
  {
    var u := sh.table[s := sh.table[s].(state := Dead)];
    OnlyDiesKeeps(sh.table, u);
    SumUpdate(sh.table, One(), s, u[s]);
    CountDown(Sum(sh.table, One()), sh.overcount, sh.count);
  }

  /** An entry taken out of one slot, the other slots of the shard keeping state and item. */
  predicate TakesOut(sh: Shard, sh': Shard, s: nat) {
    && |sh'.table| == |sh.table| && s < |sh.table| && sh.table[s].state.Live? && sh'.table[s].state.Dead?
    && forall k | 0 <= k < |sh.table| && k != s ::
         sh'.table[k].state == sh.table[k].state && sh'.table[k].item == sh.table[k].item
  }

  lemma TakesOutSum(sh: Shard, sh': Shard, s: nat, w: Weight)
    requires TakesOut(sh, sh', s)
    ensures Sum(sh'.table, w) + w(sh.table[s].item) == Sum(sh.table, w)
  {
    var u := sh.table[s := sh.table[s].(state := Dead)];
    SumUpdate(sh.table, w, s, u[s]);
    SumAgree(u, sh'.table, w, w);
  }

  lemma TakeOutTotal(c: Cache, i: nat, sh': Shard, s: nat, w: Weight)
    requires i < |c.shards| && TakesOut(c.shards[i], sh', s)
    ensures Total(c.shards[i := sh'], w) + w(c.shards[i].table[s].item) == Total(c.shards, w)
  {
    TakesOutSum(c.shards[i], sh', s, w);
    TotalUpdate(c.shards, i, sh', w);
  }

  lemma TakeOutOwned(c: Cache, held: seq<Item>, i: nat, s: nat, sh': Shard)
    requires OwnedOnce(c, held) && i < |c.shards| && TakesOut(c.shards[i], sh', s)
    ensures OwnedOnce(c.(shards := c.shards[i := sh']), held + [c.shards[i].table[s].item])
  {
    var e := c.shards[i].table[s].item;
    var d := c.(shards := c.shards[i := sh']);
    forall p: Ptr ensures Refs(d, held + [e], p) == if p in d.mem then 1 else 0 {
      TakeOutTotal(c, i, sh', s, PtrIs(p));
      SumSeqAppend(held, e, PtrIs(p));
      assert Refs(c, held, p) == if p in c.mem then 1 else 0;
    }
  }

  lemma TakeOutStores(c: Cache, b: Bag, i: nat, s: nat, sh': Shard, q: Record)
    requires Stores(c, b) && i < |c.shards| && TakesOut(c.shards[i], sh', s)
    requires RecordOf(c.shards[i].table[s].item, c.mem) == Some(q)
    ensures Stores(c.(shards := c.shards[i := sh']), b - multiset{q}) && b[q] > 0
  {
    var d := c.(shards := c.shards[i := sh']);
    TakeOutTotal(c, i, sh', s, RecordIs(c.mem, q));
    assert b[q] == Total(c.shards, RecordIs(c.mem, q));
    forall r: Record ensures Total(d.shards, RecordIs(d.mem, r)) == (b - multiset{q})[r] {
      TakeOutTotal(c, i, sh', s, RecordIs(c.mem, r));
      assert Total(c.shards, RecordIs(c.mem, r)) == b[r];
    }
  }

  lemma TakeOutGood(c: Cache, g: Config, held: seq<Item>, i: nat, s: nat, sh': Shard)
    requires AllGood(c, g, held) && i < |c.shards| && TakesOut(c.shards[i], sh', s)
    ensures AllGood(c.(shards := c.shards[i := sh']), g, held + [c.shards[i].table[s].item])
    ensures RecordOf(c.shards[i].table[s].item, c.mem).Some?
  {
    var d := c.(shards := c.shards[i := sh']);
    assert SlotGood(c, g, i, s);
    forall a, b | 0 <= a < |d.shards| && 0 <= b < |d.shards[a].table| ensures SlotGood(d, g, a, b) {
      assert SlotGood(c, g, a, b);
    }
  }

  /** Taking a LIVE entry out of its table removes its record and leaves the caller holding it. */
  lemma TakeOutKeeps(c: Cache, g: Config, b: Bag, held: seq<Item>, i: nat, s: nat, sh': Shard) returns (q: Record)
    requires BagInv(c, g, b, held) && i < SHARDS
    requires TakesOut(c.shards[i], sh', s) && ShardOk(sh') && sh'.hand < |sh'.table|
    ensures RecordOf(c.shards[i].table[s].item, c.mem) == Some(q) && b[q] > 0
    ensures BagInv(c.(shards := c.shards[i := sh']), g, b - multiset{q}, held + [c.shards[i].table[s].item])
  {
    hide ShardOk;
    hide Good;
    hide RecordOf;
    TakeOutGood(c, g, held, i, s, sh');
    q := RecordOf(c.shards[i].table[s].item, c.mem).value;
    TakeOutOwned(c, held, i, s, sh');
    TakeOutStores(c, b, i, s, sh', q);
  }

  // ---- a held entry gives its resources back ----

  lemma TwoOwners(c: Cache, held: seq<Item>, e: Item, p: Ptr, i: nat, s: nat)
    requires OwnedOnce(c, held + [e]) && PtrIs(p)(e) > 0
    requires i < |c.shards| && s < |c.shards[i].table| && c.shards[i].table[s].state.Live?
    ensures PtrIs(p)(c.shards[i].table[s].item) == 0
  {
    assert Refs(c, held + [e], p) <= 1;
    SumSeqAppend(held, e, PtrIs(p));
    TotalHas(c.shards, i, PtrIs(p));
    SumHas(c.shards[i].table, PtrIs(p), s);
  }

  lemma TwoHolders(c: Cache, held: seq<Item>, e: Item, p: Ptr, k: nat)
    requires OwnedOnce(c, held + [e]) && PtrIs(p)(e) > 0 && k < |held|
    ensures PtrIs(p)(held[k]) == 0
  {
    assert Refs(c, held + [e], p) <= 1;
    SumSeqAppend(held, e, PtrIs(p));
    SumSeqHas(held, k, PtrIs(p));
  }

  predicate Disjoint(x: Item, e: Item) {
    && (KeyPtr(x).Some? ==> KeyPtr(x) != KeyPtr(e) && KeyPtr(x) != ValPtr(e))
    && (ValPtr(x).Some? ==> ValPtr(x) != KeyPtr(e) && ValPtr(x) != ValPtr(e))
  }

  lemma OthersDisjoint(c: Cache, held: seq<Item>, e: Item)
    requires OwnedOnce(c, held + [e])
    ensures forall i, s | 0 <= i < |c.shards| && 0 <= s < |c.shards[i].table| && c.shards[i].table[s].state.Live? ::
              Disjoint(c.shards[i].table[s].item, e)
    ensures forall k | 0 <= k < |held| :: Disjoint(held[k], e)
  {
    forall i, s | 0 <= i < |c.shards| && 0 <= s < |c.shards[i].table| && c.shards[i].table[s].state.Live?
      ensures Disjoint(c.shards[i].table[s].item, e)
    {
      if KeyPtr(e).Some? { TwoOwners(c, held, e, KeyPtr(e).value, i, s); }
      if ValPtr(e).Some? { TwoOwners(c, held, e, ValPtr(e).value, i, s); }
    }
    forall k | 0 <= k < |held| ensures Disjoint(held[k], e) {
      if KeyPtr(e).Some? { TwoHolders(c, held, e, KeyPtr(e).value, k); }
      if ValPtr(e).Some? { TwoHolders(c, held, e, ValPtr(e).value, k); }
    }
  }

  lemma ReleaseOwned(c: Cache, held: seq<Item>, e: Item)
    requires |c.free| == CLASSES && OwnedOnce(c, held + [e])
    ensures OwnedOnce(Release(c, e), held)
  {
    var d := Release(c, e);
    forall p: Ptr ensures Refs(d, held, p) == if p in d.mem then 1 else 0 {
      assert Refs(c, held + [e], p) == if p in c.mem then 1 else 0;
      SumSeqAppend(held, e, PtrIs(p));
    }
  }

  lemma CountCons(b: Ptr, ps: seq<Ptr>, p: Ptr)
    ensures CountIn([b] + ps, p) == CountIn(ps, p) + (if p == b then 1 else 0)
  {
    assert multiset([b] + ps) == multiset{b} + multiset(ps);
  }

  /** A block goes back on the list of its own class or of a smaller one. */
  lemma ReturnBlock(c: Cache, d: Cache, small: bool, cls: nat, b: Ptr)
    requires Arena(c, small) && cls < |c.free| && b in c.mem && b.Block? && cls <= b.cls && (small ==> cls == b.cls)
    requires d.free == c.free[cls := [b] + c.free[cls]] && d.nextId == c.nextId
    requires forall p :: p in d.mem ==> p in c.mem
    requires forall p: Ptr | p.Block? :: p in d.mem <==> p in c.mem && p != b
    ensures Arena(d, small)
  {
    forall p: Ptr
      ensures FreeCount(d.free, p) + (if p in d.mem && p.Block? then 1 else 0) == if InArena(p) then 1 else 0
    {
      FreeUpdate(c.free, cls, [b] + c.free[cls], p);
      CountCons(b, c.free[cls], p);
    }
  }

  lemma SlabClassBound(e: Item, mem: Memory, g: Config)
    requires Good(e, mem, g) && e.valSlab
    ensures ClassFor(e.valLen) <= ValPtr(e).value.cls
  {
    var cls := ValPtr(e).value.cls;
    assert e.valLen <= |mem[ValPtr(e).value]| <= ClassSize(cls);
    ClassFromLeast(e.valLen, 0);
  }

  lemma ReleaseArena(c: Cache, g: Config, e: Item)
    requires |c.free| == CLASSES && Arena(c, g.small) && Good(e, c.mem, g)
    ensures Arena(Release(c, e), g.small)
  {
    hide KeyBytes;
    hide ValBytes;
    hide LoadPtr;
    hide ClassSize;
    hide FreeCount;
    hide InArena;
    if e.valSlab {
      SlabClassBound(e, c.mem, g);
      ReturnBlock(c, Release(c, e), g.small, ClassFor(e.valLen), ValPtr(e).value);
    }
  }

  lemma ReleaseFrames(c: Cache, g: Config, b: Bag, held: seq<Item>, e: Item)
    requires |c.free| == CLASSES && AllGood(c, g, held + [e]) && OwnedOnce(c, held + [e]) && Stores(c, b)
    ensures AllGood(Release(c, e), g, held) && Stores(Release(c, e), b) && SameRecords(held, c.mem, Release(c, e).mem)
  {
    hide Good;
    var d := Release(c, e);
    OthersDisjoint(c, held, e);
    assert AllGood(c, g, held) by {
      assert forall k | 0 <= k < |held| :: (held + [e])[k] == held[k];
    }
    assert forall x: Item | Disjoint(x, e) :: KeepsPtrs(x, c.mem, d.mem);
    MemoryFrame(c, d, g, b, held);
  }

  /** Freeing a held entry leaves every other entry's bytes alone. */
  lemma ReleaseKeeps(c: Cache, g: Config, b: Bag, held: seq<Item>, e: Item)
    requires BagInv(c, g, b, held + [e])
    ensures BagInv(Release(c, e), g, b, held) && SameRecords(held, c.mem, Release(c, e).mem)
  {
    hide ShardOk;
    var d := Release(c, e);
    assert Good((held + [e])[|held|], c.mem, g);
    ReleaseOwned(c, held, e);
    ReleaseArena(c, g, e);
    ReleaseFrames(c, g, b, held, e);
  }

  lemma KillKeeps(c: Cache, g: Config, b: Bag, held: seq<Item>, i: nat, s: nat) returns (q: Record)
    requires BagInv(c, g, b, held) && i < SHARDS && s < |c.shards[i].table| && c.shards[i].table[s].state.Live?
    ensures RecordOf(c.shards[i].table[s].item, c.mem) == Some(q) && b[q] > 0
    ensures BagInv(Kill(c, i, s), g, b - multiset{q}, held) && SameRecords(held, c.mem, Kill(c, i, s).mem)
  {
    DetachShardOk(c.shards[i], s);
    hide ShardOk;
    hide Good;
    hide RecordOf;
    var d := Detach(c, i, s);
    q := TakeOutKeeps(c, g, b, held, i, s, d.shards[i]);
    ReleaseKeeps(d, g, b - multiset{q}, held, c.shards[i].table[s].item);
  }

  // ---- clock bits ----

  predicate SameButClock(sh: Shard, sh': Shard) {
    && |sh'.table| == |sh.table| && sh'.count == sh.count && sh'.overcount == sh.overcount && sh'.hand < |sh'.table|
    && forall k | 0 <= k < |sh.table| ::
         && sh'.table[k].state == sh.table[k].state && sh'.table[k].item == sh.table[k].item
         && sh'.table[k].dist == sh.table[k].dist
  }

  lemma ClockShardOk(sh: Shard, sh': Shard)
    requires ShardOk(sh) && SameButClock(sh, sh')
    ensures ShardOk(sh')
  {
    OnlyDiesKeeps(sh.table, sh'.table);
    SumAgree(sh.table, sh'.table, One(), One());
  }

  lemma ClockTotal(c: Cache, i: nat, sh': Shard, w: Weight)
    requires i < |c.shards| && SameButClock(c.shards[i], sh')
    ensures Total(c.shards[i := sh'], w) == Total(c.shards, w)
  {
    SumAgree(c.shards[i].table, sh'.table, w, w);
    TotalUpdate(c.shards, i, sh', w);
  }

  lemma ClockOwned(c: Cache, held: seq<Item>, i: nat, sh': Shard)
    requires OwnedOnce(c, held) && i < |c.shards| && SameButClock(c.shards[i], sh')
    ensures OwnedOnce(c.(shards := c.shards[i := sh']), held)
  {
    hide SameButClock;
    var d := c.(shards := c.shards[i := sh']);
    forall p: Ptr ensures Refs(d, held, p) == if p in d.mem then 1 else 0 {
      ClockTotal(c, i, sh', PtrIs(p));
      assert Refs(c, held, p) == if p in c.mem then 1 else 0;
    }
  }

  lemma ClockStores(c: Cache, b: Bag, i: nat, sh': Shard)
    requires Stores(c, b) && i < |c.shards| && SameButClock(c.shards[i], sh')
    ensures Stores(c.(shards := c.shards[i := sh']), b)
  {
    hide SameButClock;
    var d := c.(shards := c.shards[i := sh']);
    forall r: Record ensures Total(d.shards, RecordIs(d.mem, r)) == b[r] {
      ClockTotal(c, i, sh', RecordIs(c.mem, r));
      assert Total(c.shards, RecordIs(c.mem, r)) == b[r];
    }
  }

  lemma ClockGood(c: Cache, g: Config, held: seq<Item>, i: nat, sh': Shard)
    requires AllGood(c, g, held) && i < |c.shards| && SameButClock(c.shards[i], sh')
    ensures AllGood(c.(shards := c.shards[i := sh']), g, held)
  {
    hide Good;
    var d := c.(shards := c.shards[i := sh']);
    forall a, b | 0 <= a < |d.shards| && 0 <= b < |d.shards[a].table| ensures SlotGood(d, g, a, b) {
      assert SlotGood(c, g, a, b);
    }
  }

  /** Clock bits are not part of what the cache stores. */
  lemma ClockKeeps(c: Cache, g: Config, b: Bag, held: seq<Item>, i: nat, sh': Shard)
    requires BagInv(c, g, b, held) && i < SHARDS && SameButClock(c.shards[i], sh')
    ensures BagInv(c.(shards := c.shards[i := sh']), g, b, held)
  {
    ClockShardOk(c.shards[i], sh');
    ClockOwned(c, held, i, sh');
    ClockStores(c, b, i, sh');
    ClockGood(c, g, held, i, sh');
    hide ShardOk;
    hide AllGood;
    hide OwnedOnce;
    hide Stores;
  }

  // ---- eviction ----

  lemma SweepShardOk(sh: Shard, u: seq<Slot>, v: nat)
    requires ShardOk(sh) && Evict(sh.table, sh.hand) == (u, Some(v))
    ensures var sh' := sh.(table := u, count := U32(sh.count - 1), hand := v);
            ShardOk(sh') && TakesOut(sh, sh', v) && v < |u|
  {
    EvictExact(sh.table, sh.hand);
    var sh' := sh.(table := u, count := U32(sh.count - 1), hand := v);
    OnlyDiesKeeps(sh.table, u);
    TakesOutSum(sh, sh', v, One());
    CountDown(Sum(sh.table, One()), sh.overcount, sh.count);
  }

  /** Eviction removes one record, or clears bits and removes nothing. */
  lemma EvictKeeps(c: Cache, g: Config, b: Bag, held: seq<Item>, i: nat) returns (b': Bag)
    requires BagInv(c, g, b, held) && i < SHARDS
    ensures var (d, v) := EvictIfFull(c, i);
            && BagInv(d, g, b', held) && SameRecords(held, c.mem, d.mem)
            && (v.None? ==> b' == b)
            && (v.Some? ==> RecordOf(v.value, c.mem).Some? && b[RecordOf(v.value, c.mem).value] > 0
                            && b' == b - multiset{RecordOf(v.value, c.mem).value})
  {
    hide ShardOk;
    hide AllGood;
    hide OwnedOnce;
    hide Stores;
    hide Arena;
    hide RecordOf;
    hide Release;
    hide Evict;
    var sh := c.shards[i];
    b' := b;
    if OverThreshold(sh.count, |sh.table|) {
      var (u, v) := Evict(sh.table, sh.hand);
      if v.Some? {
        SweepShardOk(sh, u, v.value);
        var sh' := sh.(table := u, count := U32(sh.count - 1), hand := v.value);
        var q := TakeOutKeeps(c, g, b, held, i, v.value, sh');
        b' := b - multiset{q};
        ReleaseKeeps(c.(shards := c.shards[i := sh']), g, b', held, sh.table[v.value].item);
      } else {
        EvictExact(sh.table, sh.hand);
        ClockKeeps(c, g, b, held, i, sh.(table := u));
      }
    }
  }
}
