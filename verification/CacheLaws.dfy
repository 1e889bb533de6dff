/** Conservation of slab blocks and agreement of the counters over whole runs. */
module CacheLaws {
  import opened Bytes
  import opened SlabClasses
  import opened Entries
  import opened Table
  import opened Cache
  import opened CacheInvariant
  import opened CacheSteps
  import opened CacheStore
  import opened CacheBags
  import opened CacheRuns

  // ---- entries that insertion gives up on ----

  function One01(b: bool): nat { if b then 1 else 0 }

  /** How many sets of the run report a key they could not keep. */
  function DropCount(c: Cache, hf: HashFn, ops: seq<Op>): nat
    requires Shape(c)
    decreases |ops|
  {
    if ops == [] then 0
    else
      var o := Apply(c, hf, ops[0]);
      One01(o.dropped.Some?) + DropCount(o.cache, hf, ops[1..])
  }

  predicate NoOvercount(c: Cache) {
    forall i | 0 <= i < |c.shards| :: c.shards[i].overcount == 0
  }

  lemma EvictLeaks(c: Cache, i: nat)
    requires Shape(c) && i < SHARDS
    ensures var d := EvictIfFull(c, i).0;
            d.leaked == c.leaked && (NoOvercount(c) ==> NoOvercount(d))
  {
  }

  lemma AttachLeaks(c: Cache, i: nat, e: Item)
    requires Shape(c) && i < SHARDS
    ensures var (d, o) := Attach(c, i, e);
            && |d.leaked| == |c.leaked| + One01(o.Some?)
            && (o.None? && NoOvercount(c) ==> NoOvercount(d))
  {
  }

  lemma StoreLeaks(c: Cache, g: Config, b: Bag, q: Record, now: int, e: Item)
    requires BagInv(c, g, b, [e]) && RecordOf(e, c.mem) == Some(q) && e.keyHash == HashOf(g.hash, q.key)
    ensures var h := HashOf(g.hash, q.key);
            var o := StoreLocked(c, ShardIdx(h), q.key, h, now, e);
            && |o.cache.leaked| == |c.leaked| + One01(o.dropped.Some?)
            && (o.dropped.None? && NoOvercount(c) ==> NoOvercount(o.cache))
  {
    var h := HashOf(g.hash, q.key);
    var i := ShardIdx(h);
    var c1 := RemoveOld(c, i, q.key, h, now);
    assert c1.leaked == c.leaked && (NoOvercount(c) ==> NoOvercount(c1));
    hide BagInv;
    hide RemoveOld;
    hide EvictIfFull;
    hide Attach;
    hide NoOvercount;
    hide RecordOf;
    hide KeyBytes;
    hide Taken;
    var was := RemoveOldMoves(c, g, b, q.key, now, e);
    assert RecordOf([e][0], c1.mem) == Some(q);
    EvictLeaks(c1, i);
    var b2, ev := EvictMoves(c1, g, b - Bagged(was), e, i);
    var (c2, v) := EvictIfFull(c1, i);
    AttachKeeps(c2, g, b2, i, e, q);
    KeyOfDropped(Attach(c2, i, e).1, c2.mem);
    AttachLeaks(c2, i, e);
  }

  lemma SetLeaks(c: Cache, g: Config, b: Bag, key: seq<byte>, val: seq<byte>, ttl: nat, env: Env)
    requires BagInv(c, g, b, []) && (g.small ==> |val| <= 65536)
    ensures var o := Set(c, g.hash, key, val, ttl, env);
            && |o.cache.leaked| == |c.leaked| + One01(o.dropped.Some?)
            && (o.dropped.None? && NoOvercount(c) ==> NoOvercount(o.cache))
  {
    hide AllGood;
    hide OwnedOnce;
    hide Arena;
    hide Stores;
    hide ShardOk;
    hide StoreLocked;
    hide Allocate;
    hide MakeItem;
    var a := Allocate(c, key, val, env);
    if a.Refused? { RefusedUnchanged(c, g, key, val, env); }
    if ValidSet(key, val) && a.Buffers? {
      var exp := ExpiryOf(ttl, env.now);
      var h := HashOf(g.hash, key);
      AllocateKeeps(c, g, b, key, val, env, exp);
      MakeItemHash(key, val, h, exp, a.vp, a.kp);
      StoreLeaks(a.cache, g, b, Record(key, Clamp(val), exp), env.now, MakeItem(key, val, h, exp, a.vp, a.kp));
    }
  }

  lemma {:induction false} FlushShardLeaks(c: Cache, i: nat, j: nat)
    requires Shape(c) && i < SHARDS && j <= |c.shards[i].table|
    ensures var d := FlushShard(c, i, j);
            d.leaked == c.leaked && (NoOvercount(c) ==> NoOvercount(d))
    decreases |c.shards[i].table| - j
  {
    if j < |c.shards[i].table| {
      if c.shards[i].table[j].state.Live? {
        FlushShardLeaks(Kill(c, i, j), i, j + 1);
      } else {
        FlushShardLeaks(c, i, j + 1);
      }
    }
  }

  lemma {:induction false} FlushLeaks(c: Cache, i: nat)
    requires Shape(c) && i <= SHARDS
    ensures var d := FlushFrom(c, i);
            d.leaked == c.leaked && (NoOvercount(c) ==> NoOvercount(d))
    decreases SHARDS - i
  {
    if i < SHARDS {
      FlushShardLeaks(c, i, 0);
      FlushLeaks(FlushShard(c, i, 0), i + 1);
    }
  }

  lemma StepLeaks(c: Cache, g: Config, b: Bag, op: Op)
    requires BagInv(c, g, b, []) && (g.small ==> SmallEnough(op))
    ensures var o := Apply(c, g.hash, op);
            && |o.cache.leaked| == |c.leaked| + One01(o.dropped.Some?)
            && (o.dropped.None? && NoOvercount(c) ==> NoOvercount(o.cache))
  {
    hide AllGood;
    hide OwnedOnce;
    hide Arena;
    hide Stores;
    match op
    case OpSet(key, val, ttl, env) => SetLeaks(c, g, b, key, val, ttl, env);
    case OpFlush => FlushLeaks(c, 0);
    case _ =>
  }

  /** Every run leaks one entry for each set that reports a dropped key, and no other. */
  lemma {:induction false} RunLeaks(c: Cache, g: Config, b: Bag, ops: seq<Op>)
    requires BagInv(c, g, b, []) && (g.small ==> AllSmall(ops))
    ensures var d := Run(c, g.hash, ops);
            && |d.leaked| == |c.leaked| + DropCount(c, g.hash, ops)
            && (DropCount(c, g.hash, ops) == 0 && NoOvercount(c) ==> NoOvercount(d))
    decreases |ops|
  {
    hide AllGood;
    hide OwnedOnce;
    hide Arena;
    hide Stores;
    hide ShardOk;
    hide Apply;
    hide BagStep;
    if ops != [] {
      var b1 := StepMoves(c, g, b, ops[0]);
      StepLeaks(c, g, b, ops[0]);
      RunLeaks(Apply(c, g.hash, ops[0]).cache, g, b1, ops[1..]);
    }
  }

  // ---- slab blocks ----

  /**
   * Slab conservation for every run and every value size: each arena block is on
   * one free list, once, or referred to by exactly one entry, LIVE or given up on.
   */
  lemma BlocksConserved(cap: nat, hf: HashFn, ops: seq<Op>, p: Ptr)
    requires PowerOfTwo(cap) && InArena(p)
    ensures var c := Run(Create(cap), hf, ops);
            FreeCount(c.free, p) + Total(c.shards, PtrIs(p)) + SumSeq(c.leaked, PtrIs(p)) == 1
  {
    hide Apply;
    hide BagRun;
    hide AllGood;
    hide Stores;
    hide ShardOk;
    hide Create;
    var g := Config(hf, false);
    CreateBag(cap, g);
    var b := RunMoves(Create(cap), g, multiset{}, ops);
    var c := Run(Create(cap), hf, ops);
    assert Refs(c, [], p) == if p in c.mem then 1 else 0;
    assert FreeCount(c.free, p) + (if p in c.mem && p.Block? then 1 else 0) == if InArena(p) then 1 else 0;
  }

  /**
   * With values of at most 65536 bytes and no dropped key, the blocks of each
   * class are partitioned into its own free list and the LIVE entries.
   */
  lemma ClassesConserved(cap: nat, hf: HashFn, ops: seq<Op>, p: Ptr)
    requires PowerOfTwo(cap) && p.Block? && InArena(p)
    requires AllSmall(ops) && DropCount(Create(cap), hf, ops) == 0
    ensures var c := Run(Create(cap), hf, ops);
            && CountIn(c.free[p.cls], p) + Total(c.shards, PtrIs(p)) == 1
            && (forall k | 0 <= k < CLASSES && k != p.cls :: p !in c.free[k])
  {
    hide Apply;
    hide BagRun;
    hide AllGood;
    hide Stores;
    hide ShardOk;
    hide Create;
    hide Arena;
    hide OwnedOnce;
    hide ArenaBlocks;
    hide FreeCount;
    hide Total;
    hide SumSeq;
    var g := Config(hf, true);
    CreateBag(cap, g);
    CreateTables(cap);
    var b := RunMoves(Create(cap), g, multiset{}, ops);
    RunLeaks(Create(cap), g, multiset{}, ops);
    BlocksConserved(cap, hf, ops, p);
    var c := Run(Create(cap), hf, ops);
    OwnLists(c, p);
    OnlyIn(c.free, p, p.cls);
    NothingLeaked(c, p);
  }

  lemma NothingLeaked(c: Cache, p: Ptr)
    requires |c.leaked| == 0
    ensures SumSeq(c.leaked, PtrIs(p)) == 0
  {
  }

  lemma OwnLists(c: Cache, p: Ptr)
    requires Arena(c, true) && p.Block?
    ensures forall k | 0 <= k < |c.free| && p in c.free[k] :: k == p.cls
  {
  }

  lemma {:induction false} OnlyIn(free: seq<seq<Ptr>>, p: Ptr, k: nat)
    requires forall j | 0 <= j < |free| && p in free[j] :: j == k
    ensures FreeCount(free, p) == if k < |free| then CountIn(free[k], p) else 0
  {
    if |free| > 0 {
      var n := |free| - 1;
      assert forall j | 0 <= j < n :: free[..n][j] == free[j];
      OnlyIn(free[..n], p, k);
      assert p !in free[n] ==> CountIn(free[n], p) == 0;
    }
  }

  // ---- no slot returns to EMPTY ----

  /** Same tables, and a slot that is EMPTY in `d` was EMPTY in `c`. */
  predicate Settles(c: Cache, d: Cache) {
    && |c.shards| == |d.shards|
    && forall i | 0 <= i < |c.shards| :: Occupies(c.shards[i].table, d.shards[i].table)
  }

  lemma SettlesOne(c: Cache, d: Cache, i: nat)
    requires i < |c.shards| && |d.shards| == |c.shards| && d.shards == c.shards[i := d.shards[i]]
    requires Occupies(c.shards[i].table, d.shards[i].table)
    ensures Settles(c, d)
  {
  }

  lemma AttachSettles(c: Cache, i: nat, e: Item)
    requires Shape(c) && i < SHARDS
    ensures Settles(c, Attach(c, i, e).0)
  {
    var t := c.shards[i].table;
    PlaceStates(t, e, 0, Home(e.keyHash, |t|), 0);
    SettlesOne(c, Attach(c, i, e).0, i);
  }

  lemma EvictSettles(c: Cache, i: nat)
    requires Shape(c) && i < SHARDS
    ensures Settles(c, EvictIfFull(c, i).0)
  {
    EvictExact(c.shards[i].table, c.shards[i].hand);
    SettlesOne(c, EvictIfFull(c, i).0, i);
  }

  lemma KillSettles(c: Cache, i: nat, s: nat)
    requires Shape(c) && i < SHARDS && s < |c.shards[i].table|
    ensures Settles(c, Kill(c, i, s))
  {
    SettlesOne(c, Kill(c, i, s), i);
  }

  lemma StoreSettles(c: Cache, i: nat, key: seq<byte>, h: nat, now: int, e: Item)
    requires Shape(c) && i < SHARDS
    ensures Settles(c, StoreLocked(c, i, key, h, now, e).cache)
  {
    var f := Find(c.shards[i].table, c.mem, key, h, now);
    if f.Some? { KillSettles(c, i, f.value); }
    var c1 := RemoveOld(c, i, key, h, now);
    assert Settles(c, c1);
    hide RemoveOld;
    hide EvictIfFull;
    hide Attach;
    EvictSettles(c1, i);
    AttachSettles(EvictIfFull(c1, i).0, i, e);
  }

  lemma {:induction false} FlushShardSettles(c: Cache, i: nat, j: nat)
    requires Shape(c) && i < SHARDS && j <= |c.shards[i].table|
    ensures Settles(c, FlushShard(c, i, j))
    decreases |c.shards[i].table| - j
  {
    if j < |c.shards[i].table| {
      if c.shards[i].table[j].state.Live? {
        KillSettles(c, i, j);
        FlushShardSettles(Kill(c, i, j), i, j + 1);
      } else {
        FlushShardSettles(c, i, j + 1);
      }
    }
  }

  lemma {:induction false} FlushSettles(c: Cache, i: nat)
    requires Shape(c) && i <= SHARDS
    ensures Settles(c, FlushFrom(c, i))
    decreases SHARDS - i
  {
    if i < SHARDS {
      FlushShardSettles(c, i, 0);
      FlushSettles(FlushShard(c, i, 0), i + 1);
    }
  }

  lemma StepSettles(c: Cache, hf: HashFn, op: Op)
    requires Shape(c)
    ensures Settles(c, Apply(c, hf, op).cache)
  {
    match op
    case OpSet(key, val, ttl, env) =>
      hide StoreLocked;
      hide MakeItem;
      var h := HashOf(hf, key);
      var b := Allocate(c, key, val, env);
      if b.Buffers? {
        StoreSettles(b.cache, ShardIdx(h), key, h, env.now, MakeItem(key, val, h, ExpiryOf(ttl, env.now), b.vp, b.kp));
      }
    case OpGet(key, now) =>
      var o := Get(c, hf, key, now);
      SettlesOne(c, o.cache, ShardIdx(HashOf(hf, key)));
    case OpDel(key, now) =>
      var h := HashOf(hf, key);
      var f := Find(c.shards[ShardIdx(h)].table, c.mem, key, h, now);
      if f.Some? { KillSettles(c, ShardIdx(h), f.value); }
    case OpFlush => FlushSettles(c, 0);
  }

  /** Over any run, from any state, tables keep their size and no slot returns to EMPTY. */
  lemma {:induction false} RunSettles(c: Cache, hf: HashFn, ops: seq<Op>)
    requires Shape(c)
    ensures Settles(c, Run(c, hf, ops))
    decreases |ops|
  {
    hide Apply;
    if ops != [] {
      StepSettles(c, hf, ops[0]);
      RunSettles(Apply(c, hf, ops[0]).cache, hf, ops[1..]);
    }
  }

  // ---- counters ----

  lemma {:induction false} LiveAtMostCap(t: seq<Slot>)
    ensures Sum(t, One()) <= |t|
  {
    if |t| > 0 { LiveAtMostCap(t[..|t| - 1]); }
  }

  lemma {:induction false} CountsAreTotal(shards: seq<Shard>)
    requires forall i | 0 <= i < |shards| :: shards[i].count == Sum(shards[i].table, One())
    ensures TotalKeys(shards) == Total(shards, One())
  {
    if |shards| > 0 { CountsAreTotal(shards[..|shards| - 1]); }
  }

  /** Over every run: a shard counts its LIVE slots plus the entries it gave up on since the last flush. */
  lemma CountersAgree(cap: nat, hf: HashFn, ops: seq<Op>)
    requires PowerOfTwo(cap) && cap < TWO_32
    ensures var c := Run(Create(cap), hf, ops);
            && (forall i | 0 <= i < SHARDS :: c.shards[i].count == U32(Sum(c.shards[i].table, One()) + c.shards[i].overcount))
            && (DropCount(Create(cap), hf, ops) == 0 ==>
                  && (forall i | 0 <= i < SHARDS :: c.shards[i].count == Sum(c.shards[i].table, One()))
                  && TotalKeys(c.shards) == Total(c.shards, One()))
  {
    hide AllGood;
    hide Arena;
    hide OwnedOnce;
    hide Stores;
    hide ShardOk;
    hide Create;
    hide Settles;
    hide Apply;
    hide BagRun;
    hide NoOvercount;
    var g := Config(hf, false);
    var c0 := Create(cap);
    CreateBag(cap, g);
    var b := RunMoves(c0, g, multiset{}, ops);
    RunLeaks(c0, g, multiset{}, ops);
    CreateTables(cap);
    RunSettles(c0, hf, ops);
    var c := Run(c0, hf, ops);
    SettledCaps(c0, c, cap);
    CountersFrom(c, cap, DropCount(c0, hf, ops) == 0);
  }

  predicate AllCaps(c: Cache, cap: nat) {
    forall i | 0 <= i < |c.shards| :: |c.shards[i].table| == cap
  }

  lemma CreateTables(cap: nat)
    requires cap > 0
    ensures NoOvercount(Create(cap)) && AllCaps(Create(cap), cap) && Create(cap).leaked == []
  {
  }

  lemma SettledCaps(c: Cache, d: Cache, cap: nat)
    requires Settles(c, d) && AllCaps(c, cap)
    ensures AllCaps(d, cap)
  {
    assert forall i | 0 <= i < |c.shards| :: Occupies(c.shards[i].table, d.shards[i].table);
  }

  lemma CountersFrom(c: Cache, cap: nat, noDrops: bool)
    requires ShardsOk(c) && cap < TWO_32 && (noDrops ==> NoOvercount(c))
    requires AllCaps(c, cap)
    ensures forall i | 0 <= i < SHARDS :: c.shards[i].count == U32(Sum(c.shards[i].table, One()) + c.shards[i].overcount)
    ensures noDrops ==>
              && (forall i | 0 <= i < SHARDS :: c.shards[i].count == Sum(c.shards[i].table, One()))
              && TotalKeys(c.shards) == Total(c.shards, One())
  {
    forall i | 0 <= i < SHARDS
      ensures c.shards[i].count == U32(Sum(c.shards[i].table, One()) + c.shards[i].overcount)
      ensures noDrops ==> c.shards[i].count == Sum(c.shards[i].table, One())
    {
      assert ShardOk(c.shards[i]);
      LiveAtMostCap(c.shards[i].table);
    }
    if noDrops { CountsAreTotal(c.shards); }
  }

  /** The 32-bit threshold test is the exact comparison as long as the product fits. */
  lemma ThresholdExact(count: nat, cap: nat)
    requires 0 < cap <= 0x200_0000 && count <= cap
    ensures OverThreshold(count, cap) <==> 100 * count >= 85 * cap
  {
    DivGe(count * 100, cap, 85);
  }

  lemma DivGe(n: nat, d: nat, k: nat)
    requires d > 0
    ensures n / d >= k <==> n >= k * d
  {
    assert n == (n / d) * d + n % d;
    if n / d >= k {
      assert (n / d) * d >= k * d;
    } else {
      assert (n / d + 1) * d <= k * d;
      assert (n / d + 1) * d == (n / d) * d + d;
    }
  }

  lemma {:induction false} PowerIs(n: nat) returns (k: nat)
    requires PowerOfTwo(n)
    ensures n == Pow2(k)
  {
    k := 0;
    if n > 1 {
      k := PowerIs(n / 2);
      k := k + 1;
    }
  }

  lemma {:induction false} Pow2Grows(a: nat, b: nat)
    requires a <= b
    ensures Pow2(a) <= Pow2(b)
  {
    if a < b { Pow2Grows(a, b - 1); }
  }

  lemma Pow2Table()
    ensures Pow2(25) == 0x200_0000 && Pow2(26) == 0x400_0000 && Pow2(27) == 0x800_0000 && Pow2(28) == 0x1000_0000
    ensures Pow2(29) == 0x2000_0000 && Pow2(30) == 0x4000_0000 && Pow2(31) == 0x8000_0000 && Pow2(32) == TWO_32
  {
    assert Pow2(8) == 256;
    assert Pow2(16) == 0x1_0000;
    assert Pow2(24) == 0x100_0000;
  }

  /** Above 2^25 slots the product wraps, and a full table passes for less than 85% full. */
  lemma FullLooksEmpty(cap: nat)
    requires PowerOfTwo(cap) && 0x200_0000 < cap < TWO_32
    ensures !OverThreshold(cap, cap)
  {
    var k := PowerIs(cap);
    Pow2Table();
    if k <= 25 { Pow2Grows(k, 25); }
    if k >= 32 { Pow2Grows(32, k); }
    hide Pow2;
    assert k == 26 || k == 27 || k == 28 || k == 29 || k == 30 || k == 31;
  }

  /** For the capacities `vc_create` makes, the 32-bit test means 85% exactly up to 2^25 slots. */
  lemma ThresholdExactIff(cap: nat)
    requires PowerOfTwo(cap) && cap < TWO_32
    ensures (forall count: nat | count <= cap :: OverThreshold(count, cap) <==> 100 * count >= 85 * cap) <==> cap <= 0x200_0000
  {
    if cap <= 0x200_0000 {
      forall count: nat | count <= cap ensures OverThreshold(count, cap) <==> 100 * count >= 85 * cap {
        ThresholdExact(count, cap);
      }
    } else {
      FullLooksEmpty(cap);
    }
  }

  // ---- when an entry is given up on, and who survives eviction ----

  predicate Full(t: seq<Slot>) { forall s | 0 <= s < |t| :: !Vacant(t[s]) }

  predicate AllReferenced(t: seq<Slot>) { forall s | 0 <= s < |t| :: !Unreferenced(t[s]) }

  /**
   * Insertion gives up on an entry exactly when no slot is vacant and eviction does not
   * help: the shard is below the threshold, or every LIVE entry is referenced.
   */
  lemma AttachDropsIff(c: Cache, i: nat, e: Item)
    requires Shape(c) && i < SHARDS
    ensures var t := c.shards[i].table;
            Attach(EvictIfFull(c, i).0, i, e).1.Some? <==>
            Full(t) && (!OverThreshold(c.shards[i].count, |t|) || AllReferenced(t))
  {
    var t := c.shards[i].table;
    var (d, v) := EvictIfFull(c, i);
    var u := d.shards[i].table;
    InsertConserves(u, e);
    EvictExact(t, c.shards[i].hand);
    hide Insert;
    hide Sweep;
    if OverThreshold(c.shards[i].count, |t|) {
      if v.Some? {
        var s := Evict(t, c.shards[i].hand).1.value;
        assert Vacant(u[s]) && Unreferenced(t[s]);
      } else {
        assert forall s | 0 <= s < |t| :: Vacant(u[s]) <==> Vacant(t[s]);
      }
    }
  }

  /** The sweep finds a victim exactly when the shard is over the threshold and some LIVE entry is unreferenced. */
  lemma SweepEvictsIff(c: Cache, i: nat)
    requires Shape(c) && i < SHARDS
    ensures var t := c.shards[i].table;
            EvictIfFull(c, i).1.Some? <==> OverThreshold(c.shards[i].count, |t|) && !AllReferenced(t)
  {
    var t := c.shards[i].table;
    EvictExact(t, c.shards[i].hand);
    hide Sweep;
    if EvictIfFull(c, i).1.Some? {
      assert Unreferenced(t[Evict(t, c.shards[i].hand).1.value]);
    }
  }

  lemma VictimUnreferenced(c: Cache, i: nat)
    requires Shape(c) && i < SHARDS && EvictIfFull(c, i).1.Some?
    ensures exists s | 0 <= s < |c.shards[i].table| ::
              Unreferenced(c.shards[i].table[s]) && Some(c.shards[i].table[s].item) == EvictIfFull(c, i).1
  {
    EvictExact(c.shards[i].table, c.shards[i].hand);
    var s := Evict(c.shards[i].table, c.shards[i].hand).1.value;
    assert Unreferenced(c.shards[i].table[s]);
  }

  /** Slot `s` of shard `i` is LIVE, holds `key` and has its clock bit set. */
  predicate Referenced(c: Cache, i: nat, s: nat, key: seq<byte>, h: nat) {
    i < |c.shards| && s < |c.shards[i].table| && Hit(c.shards[i].table, c.mem, key, h, s) && c.shards[i].table[s].clock
  }

  /** The entry of a key that has only one is in one place. */
  lemma SlotWithKey(c: Cache, g: Config, bag: Bag, held: seq<Item>, r: Record, i: nat, s: nat, j: nat, k: nat)
    requires AllGood(c, g, held) && Stores(c, bag) && Only(bag, r) && |c.shards| == SHARDS
    requires i < SHARDS && s < |c.shards[i].table| && Hit(c.shards[i].table, c.mem, r.key, HashOf(g.hash, r.key), s)
    requires j < SHARDS && k < |c.shards[j].table| && c.shards[j].table[k].state.Live?
    requires KeyBytes(c.shards[j].table[k].item, c.mem) == Some(r.key)
    ensures j == i && k == s
  {
    hide Good;
    hide Stores;
    LiveRecord(c, g, bag, held, i, s);
    LiveRecord(c, g, bag, held, j, k);
    assert SlotGood(c, g, i, s) && SlotGood(c, g, j, k);
    SameShard(c, g, i, s, j, k);
    if s != k { SumHasTwo(c.shards[i].table, RecordIs(c.mem, r), s, k); }
  }

  lemma SameShard(c: Cache, g: Config, i: nat, s: nat, j: nat, k: nat)
    requires i < |c.shards| && s < |c.shards[i].table| && c.shards[i].table[s].state.Live? && SlotGood(c, g, i, s)
    requires j < |c.shards| && k < |c.shards[j].table| && c.shards[j].table[k].state.Live? && SlotGood(c, g, j, k)
    requires KeyBytes(c.shards[i].table[s].item, c.mem) == KeyBytes(c.shards[j].table[k].item, c.mem)
    ensures i == j
  {
  }

  lemma ReferencedNotVictim(c: Cache, g: Config, bag: Bag, held: seq<Item>, i: nat, s: nat, r: Record, j: nat)
    requires BagInv(c, g, bag, held) && Only(bag, r) && Referenced(c, i, s, r.key, HashOf(g.hash, r.key)) && j < SHARDS
    ensures KeyIn(EvictIfFull(c, j).1, c.mem) != Some(r.key)
  {
    hide Good;
    hide OwnedOnce;
    hide Arena;
    hide Stores;
    hide ShardOk;
    hide KeyBytes;
    hide EvictIfFull;
    hide Only;
    var v := EvictIfFull(c, j).1;
    if v.Some? {
      VictimUnreferenced(c, j);
      var k :| 0 <= k < |c.shards[j].table| && Unreferenced(c.shards[j].table[k]) && Some(c.shards[j].table[k].item) == v;
      if KeyBytes(c.shards[j].table[k].item, c.mem) == Some(r.key) {
        SlotWithKey(c, g, bag, held, r, i, s, j, k);
      }
    }
  }

  lemma KillSpares(c: Cache, g: Config, bag: Bag, held: seq<Item>, i: nat, s: nat, a: nat, b: nat)
    requires BagInv(c, g, bag, held) && i < SHARDS && s < |c.shards[i].table| && c.shards[i].table[s].state.Live?
    requires a < SHARDS && b < |c.shards[a].table| && c.shards[a].table[b].state.Live? && (a, b) != (i, s)
    ensures var d := Kill(c, i, s);
            && d.shards[a].table[b] == c.shards[a].table[b]
            && RecordOf(c.shards[a].table[b].item, d.mem) == RecordOf(c.shards[a].table[b].item, c.mem)
  {
    var e := c.shards[i].table[s].item;
    var d := Detach(c, i, s);
    DetachShardOk(c.shards[i], s);
    hide ShardOk;
    hide RecordOf;
    hide Good;
    hide AllGood;
    hide Stores;
    hide Arena;
    hide OwnedOnce;
    var q := TakeOutKeeps(c, g, bag, held, i, s, d.shards[i]);
    assert d.shards[a].table[b] == c.shards[a].table[b];
    ReleaseSpares(d, g, held, e, a, b);
  }

  lemma ReleaseSpares(c: Cache, g: Config, held: seq<Item>, e: Item, a: nat, b: nat)
    requires |c.free| == CLASSES && AllGood(c, g, held + [e]) && OwnedOnce(c, held + [e])
    requires a < |c.shards| && b < |c.shards[a].table| && c.shards[a].table[b].state.Live?
    ensures RecordOf(c.shards[a].table[b].item, Release(c, e).mem) == RecordOf(c.shards[a].table[b].item, c.mem)
  {
    hide RecordOf;
    hide Good;
    OthersDisjoint(c, held, e);
    var x := c.shards[a].table[b];
    assert SlotGood(c, g, a, b) && Disjoint(x.item, e);
    GoodFrame(x.item, c.mem, Release(c, e).mem, g);
  }

  lemma AllocateSpares(c: Cache, g: Config, key: seq<byte>, val: seq<byte>, env: Env, e: Item)
    requires |c.free| == CLASSES && Arena(c, g.small) && Allocate(c, key, val, env).Buffers? && Good(e, c.mem, g)
    ensures RecordOf(e, Allocate(c, key, val, env).cache.mem) == RecordOf(e, c.mem)
  {
    AllocateMemory(c, g, key, val, env);
    GoodFrame(e, c.mem, Allocate(c, key, val, env).cache.mem, g);
  }

  lemma HitIsRecord(c: Cache, g: Config, held: seq<Item>, i: nat, s: nat, key: seq<byte>, mem: Memory)
    requires i < |c.shards| && s < |c.shards[i].table| && AllGood(c, g, held)
    requires Hit(c.shards[i].table, c.mem, key, HashOf(g.hash, key), s)
    requires RecordOf(c.shards[i].table[s].item, mem) == RecordOf(c.shards[i].table[s].item, c.mem)
    ensures Good(c.shards[i].table[s].item, c.mem, g)
    ensures Matches(c.shards[i].table[s].item, mem, key, HashOf(g.hash, key))
  {
    assert SlotGood(c, g, i, s);
  }

  lemma RemoveOldSpares(c: Cache, g: Config, bag: Bag, e: Item, i: nat, s: nat, key: seq<byte>, other: seq<byte>, now: int)
    requires BagInv(c, g, bag, [e]) && i < SHARDS && Referenced(c, i, s, key, HashOf(g.hash, key)) && other != key
    ensures var h := HashOf(g.hash, other);
            Referenced(RemoveOld(c, ShardIdx(h), other, h, now), i, s, key, HashOf(g.hash, key))
  {
    hide ShardOk;
    hide OwnedOnce;
    hide Arena;
    hide Stores;
    hide RecordOf;
    hide Good;
    var h := HashOf(g.hash, other);
    var j := ShardIdx(h);
    var f := Find(c.shards[j].table, c.mem, other, h, now);
    if f.Some? {
      assert Hit(c.shards[j].table, c.mem, other, h, f.value);
      assert (i, s) != (j, f.value);
      KillSpares(c, g, bag, [e], j, f.value, i, s);
      HitIsRecord(c, g, [e], i, s, key, Kill(c, j, f.value).mem);
    }
  }

  /** Taking a record of another key leaves an only record the only one. */
  lemma StillOnly(bag: Bag, r: Record, other: seq<byte>, now: int, was: Option<Record>)
    requires Only(bag, r) && Taken(bag, other, now, was) && other != r.key
    ensures Only(bag - Bagged(was), r)
  {
  }

  lemma StoreSpares(c: Cache, g: Config, bag: Bag, q: Record, now: int, e: Item, i: nat, s: nat, r: Record)
    requires BagInv(c, g, bag, [e]) && Only(bag, r) && i < SHARDS
    requires Referenced(c, i, s, r.key, HashOf(g.hash, r.key)) && q.key != r.key
    ensures var h := HashOf(g.hash, q.key);
            StoreLocked(c, ShardIdx(h), q.key, h, now, e).evicted != Some(r.key)
  {
    assert Shape(c);
    hide BagInv;
    hide Only;
    hide Taken;
    hide Bagged;
    hide RecordOf;
    hide Referenced;
    hide RemoveOld;
    hide EvictIfFull;
    hide Attach;
    var h := HashOf(g.hash, q.key);
    var was := RemoveOldMoves(c, g, bag, q.key, now, e);
    RemoveOldSpares(c, g, bag, e, i, s, r.key, q.key, now);
    StillOnly(bag, r, q.key, now, was);
    var c1 := RemoveOld(c, ShardIdx(h), q.key, h, now);
    ReferencedNotVictim(c1, g, bag - Bagged(was), [e], i, s, r, ShardIdx(h));
  }

  /** Second chance: a key that was just read, and has one entry, is not the one the next set evicts. */
  lemma ReadKeyNotEvicted(c: Cache, g: Config, bag: Bag, r: Record, now: int,
                          other: seq<byte>, val: seq<byte>, ttl: nat, env: Env)
    requires BagInv(c, g, bag, []) && Only(bag, r) && (g.small ==> |val| <= 65536) && other != r.key
    requires Get(c, g.hash, r.key, now).reply.Value?
    ensures Set(Get(c, g.hash, r.key, now).cache, g.hash, other, val, ttl, env).evicted != Some(r.key)
  {
    var h := HashOf(g.hash, r.key);
    var i := ShardIdx(h);
    var s := Find(c.shards[i].table, c.mem, r.key, h, now).value;
    GetKeeps(c, g, bag, r.key, now);
    var c1 := Get(c, g.hash, r.key, now).cache;
    assert Referenced(c1, i, s, r.key, h);
    hide Get;
    hide StoreLocked;
    hide Allocate;
    hide MakeItem;
    hide ShardOk;
    hide AllGood;
    hide OwnedOnce;
    hide Arena;
    hide Stores;
    hide Hit;
    hide Only;
    var a := Allocate(c1, other, val, env);
    if a.Refused? { RefusedUnchanged(c1, g, other, val, env); }
    if ValidSet(other, val) && a.Buffers? {
      var exp := ExpiryOf(ttl, env.now);
      var ho := HashOf(g.hash, other);
      var e := MakeItem(other, val, ho, exp, a.vp, a.kp);
      AllocateKeeps(c1, g, bag, other, val, env, exp);
      AllocateKeepsHit(c1, g, other, val, env, i, s, r.key);
      StoreSpares(a.cache, g, bag, Record(other, Clamp(val), exp), env.now, e, i, s, r);
    }
  }

  lemma AllocateKeepsHit(c: Cache, g: Config, other: seq<byte>, val: seq<byte>, env: Env, i: nat, s: nat, key: seq<byte>)
    requires |c.free| == CLASSES && Arena(c, g.small) && AllGood(c, g, []) && Allocate(c, other, val, env).Buffers?
    requires Referenced(c, i, s, key, HashOf(g.hash, key))
    ensures Referenced(Allocate(c, other, val, env).cache, i, s, key, HashOf(g.hash, key))
  {
    hide Allocate;
    hide Arena;
    hide Good;
    hide RecordOf;
    assert SlotGood(c, g, i, s);
    AllocateSpares(c, g, other, val, env, c.shards[i].table[s].item);
    HitIsRecord(c, g, [], i, s, key, Allocate(c, other, val, env).cache.mem);
  }
}
