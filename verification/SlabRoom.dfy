/** When a set is refused memory: a class is exhausted exactly when all its blocks hold LIVE values. */
module SlabRoom {
  import opened Bytes
  import opened SlabClasses
  import opened Entries
  import opened Table
  import opened Cache
  import opened CacheInvariant
  import opened CacheStore
  import opened CacheBags
  import opened CacheLaws

  // ---- adding up over the blocks of a class ----

  function Plus(v: Weight, w: Weight): Weight { (e: Item) => v(e) + w(e) }

  lemma {:induction false} SumPlus(t: seq<Slot>, v: Weight, w: Weight)
    ensures Sum(t, Plus(v, w)) == Sum(t, v) + Sum(t, w)
  {
    if |t| > 0 { SumPlus(t[..|t| - 1], v, w); }
  }

  lemma {:induction false} TotalPlus(shards: seq<Shard>, v: Weight, w: Weight)
    ensures Total(shards, Plus(v, w)) == Total(shards, v) + Total(shards, w)
  {
    if |shards| > 0 {
      SumPlus(shards[|shards| - 1].table, v, w);
      TotalPlus(shards[..|shards| - 1], v, w);
    }
  }

  /** Counts the references to the first `n` blocks of a class. */
  function RefersBelow(cls: nat, n: nat): Weight {
    if n == 0 then (e: Item) => 0 else Plus(RefersBelow(cls, n - 1), PtrIs(Block(cls, n - 1)))
  }

  function CountBelow(ps: seq<Ptr>, cls: nat, n: nat): nat {
    if n == 0 then 0 else CountBelow(ps, cls, n - 1) + CountIn(ps, Block(cls, n - 1))
  }

  lemma {:induction false} CountBelowAppend(ps: seq<Ptr>, x: Ptr, cls: nat, n: nat)
    ensures CountBelow(ps + [x], cls, n) == CountBelow(ps, cls, n) + if x.Block? && x.cls == cls && x.index < n then 1 else 0
  {
    if n > 0 {
      CountBelowAppend(ps, x, cls, n - 1);
      assert multiset(ps + [x]) == multiset(ps) + multiset{x};
    }
  }

  lemma {:induction false} CountBelowNone(cls: nat, n: nat)
    ensures CountBelow([], cls, n) == 0
  {
    if n > 0 { CountBelowNone(cls, n - 1); }
  }

  /** A list of blocks of one class is as long as the blocks counted one by one. */
  lemma {:induction false} CountBelowAll(ps: seq<Ptr>, cls: nat, n: nat)
    requires forall x | x in ps :: x.Block? && x.cls == cls && x.index < n
    ensures CountBelow(ps, cls, n) == |ps|
  {
    if ps == [] {
      CountBelowNone(cls, n);
    } else {
      var k := |ps| - 1;
      CountBelowAll(ps[..k], cls, n);
      CountBelowAppend(ps[..k], ps[k], cls, n);
      assert ps == ps[..k] + [ps[k]];
    }
  }

  lemma {:induction false} TotalNothing(shards: seq<Shard>)
    ensures Total(shards, (e: Item) => 0) == 0
  {
    if |shards| > 0 {
      SumNothing(shards[|shards| - 1].table);
      TotalNothing(shards[..|shards| - 1]);
    }
  }

  lemma {:induction false} SumNothing(t: seq<Slot>)
    ensures Sum(t, (e: Item) => 0) == 0
  {
    if |t| > 0 { SumNothing(t[..|t| - 1]); }
  }

  /** Each block is free or referred to, so counts and references add up to the number of blocks. */
  lemma {:induction false} BlocksAddUp(c: Cache, cls: nat, n: nat)
    requires cls < |c.free| && forall k | 0 <= k < n :: CountIn(c.free[cls], Block(cls, k)) + Total(c.shards, PtrIs(Block(cls, k))) == 1
    ensures CountBelow(c.free[cls], cls, n) + Total(c.shards, RefersBelow(cls, n)) == n
  {
    if n == 0 {
      TotalNothing(c.shards);
    } else {
      BlocksAddUp(c, cls, n - 1);
      TotalPlus(c.shards, RefersBelow(cls, n - 1), PtrIs(Block(cls, n - 1)));
      assert CountIn(c.free[cls], Block(cls, n - 1)) + Total(c.shards, PtrIs(Block(cls, n - 1))) == 1;
    }
  }

  // ---- LIVE values of a class ----

  /** Counts the entries whose value lies in a block of the class. */
  function InClass(cls: nat): Weight {
    (e: Item) => if e.valSlab && ClassFor(e.valLen) == cls then 1 else 0
  }

  lemma {:induction false} RefersIs(e: Item, cls: nat, n: nat)
    requires KeyPtr(e).Some? ==> KeyPtr(e).value.Heap?
    ensures RefersBelow(cls, n)(e) ==
            if ValPtr(e).Some? && ValPtr(e).value.Block? && ValPtr(e).value.cls == cls && ValPtr(e).value.index < n then 1 else 0
  {
    hide KeyPtr;
    hide ValPtr;
    if n > 0 { RefersIs(e, cls, n - 1); }
  }

  /** A LIVE entry of a cache with small values refers to one block, of its value's class, or to none. */
  lemma EntryRefers(c: Cache, g: Config, b: Bag, i: nat, s: nat, cls: nat)
    requires BagInv(c, g, b, []) && g.small && cls < CLASSES
    requires i < SHARDS && s < |c.shards[i].table| && c.shards[i].table[s].state.Live?
    ensures var e := c.shards[i].table[s].item;
            RefersBelow(cls, ArenaBlocks(cls))(e) == InClass(cls)(e)
  {
    var e := c.shards[i].table[s].item;
    assert SlotGood(c, g, i, s);
    hide Stores;
    hide ShardOk;
    hide OwnedOnce;
    hide KeyBytes;
    hide ValBytes;
    hide LoadPtr;
    hide ArenaBlocks;
    hide ClassFor;
    hide FreeCount;
    hide RefersBelow;
    RefersIs(e, cls, ArenaBlocks(cls));
    if e.valSlab {
      var p := ValPtr(e).value;
      assert FreeCount(c.free, p) + (if p in c.mem && p.Block? then 1 else 0) == if InArena(p) then 1 else 0;
    }
  }

  /** The free blocks and the LIVE values of a class are together its blocks. */
  lemma ClassFills(c: Cache, g: Config, b: Bag, cls: nat)
    requires BagInv(c, g, b, []) && g.small && c.leaked == [] && cls < CLASSES
    ensures |c.free[cls]| + Total(c.shards, InClass(cls)) == ArenaBlocks(cls)
  {
    hide ShardOk;
    hide AllGood;
    hide Stores;
    hide ArenaBlocks;
    hide RefersBelow;
    hide CountBelow;
    var n := ArenaBlocks(cls);
    forall k | 0 <= k < n ensures CountIn(c.free[cls], Block(cls, k)) + Total(c.shards, PtrIs(Block(cls, k))) == 1 {
      BlockPlace(c, Block(cls, k));
    }
    BlocksAddUp(c, cls, n);
    ListInClass(c, cls);
    CountBelowAll(c.free[cls], cls, n);
    forall i, s | 0 <= i < |c.shards| && 0 <= s < |c.shards[i].table|
      ensures Of(c.shards[i].table[s], RefersBelow(cls, n)) == Of(c.shards[i].table[s], InClass(cls))
    {
      if c.shards[i].table[s].state.Live? { EntryRefers(c, g, b, i, s, cls); }
    }
    TotalAgree(c.shards, RefersBelow(cls, n), InClass(cls));
  }

  lemma BlockPlace(c: Cache, p: Ptr)
    requires OwnedOnce(c, []) && Arena(c, true) && |c.free| == CLASSES && c.leaked == [] && InArena(p)
    ensures CountIn(c.free[p.cls], p) + Total(c.shards, PtrIs(p)) == 1
  {
    assert Refs(c, [], p) == if p in c.mem then 1 else 0;
    assert FreeCount(c.free, p) + (if p in c.mem && p.Block? then 1 else 0) == if InArena(p) then 1 else 0;
    OwnLists(c, p);
    OnlyIn(c.free, p, p.cls);
  }

  /** A free list holds blocks of its own class only. */
  lemma ListInClass(c: Cache, cls: nat)
    requires Arena(c, true) && cls < |c.free| && cls < CLASSES
    ensures forall x | x in c.free[cls] :: x.Block? && x.cls == cls && x.index < ArenaBlocks(cls)
  {
    hide ArenaBlocks;
    forall x | x in c.free[cls] ensures x.Block? && x.cls == cls && x.index < ArenaBlocks(cls) {
      FreeHas(c.free, cls, x);
      assert FreeCount(c.free, x) + (if x in c.mem && x.Block? then 1 else 0) == if InArena(x) then 1 else 0;
    }
  }

  /** The value would need a block of a class whose blocks all hold LIVE values. */
  predicate ClassFull(c: Cache, key: seq<byte>, val: seq<byte>) {
    && !LayoutOf(|key|, |val|).Inline? && |val| <= 65536
    && Total(c.shards, InClass(ClassFor(|val|))) == ArenaBlocks(ClassFor(|val|))
  }

  /**
   * Over every run with values of at most 65536 bytes that loses no entry: a valid set of
   * such a value is refused memory iff its class is full of LIVE values, or its key is too
   * long for the entry and `malloc` fails.
   */
  lemma RefusedIff(cap: nat, hf: HashFn, ops: seq<Op>, key: seq<byte>, val: seq<byte>, ttl: nat, env: Env)
    requires PowerOfTwo(cap) && AllSmall(ops) && DropCount(Create(cap), hf, ops) == 0
    requires ValidSet(key, val) && |val| <= 65536
    ensures var c := Run(Create(cap), hf, ops);
            Set(c, hf, key, val, ttl, env).reply == OutOfMemory <==>
            ClassFull(c, key, val) || (|key| + |val| > 32 && |key| > 24 && !env.mallocOk)
  {
    hide Create;
    hide Run;
    hide BagRun;
    hide DropCount;
    hide StoreLocked;
    hide MakeItem;
    hide ArenaBlocks;
    hide AllGood;
    hide OwnedOnce;
    hide Arena;
    hide Stores;
    hide ShardOk;
    var g := Config(hf, true);
    CreateBag(cap, g);
    CreateTables(cap);
    RunLeaks(Create(cap), g, multiset{}, ops);
    var b := RunMoves(Create(cap), g, multiset{}, ops);
    var c := Run(Create(cap), hf, ops);
    ClassFills(c, g, b, ClassFor(|val|));
    RefusedFrom(c, hf, key, val, ttl, env);
  }

  lemma FitsSlab(size: nat)
    requires size <= 65536
    ensures size <= ClassSize(CLASSES - 1)
  {
    ClassSizes();
  }

  lemma RefusedFrom(c: Cache, hf: HashFn, key: seq<byte>, val: seq<byte>, ttl: nat, env: Env)
    requires Shape(c) && ValidSet(key, val) && |val| <= 65536
    ensures Set(c, hf, key, val, ttl, env).reply == OutOfMemory <==>
            (!LayoutOf(|key|, |val|).Inline? && c.free[ClassFor(|val|)] == []) || (LayoutOf(|key|, |val|).LongKeySlab? && !env.mallocOk)
  {
    hide ClassFor;
    hide ClassSize;
    hide MakeItem;
    FitsSlab(|val|);
    assert !LayoutOf(|key|, |val|).LongKeyMmap?;
  }

  /** The least of the 16 classes, of 64 bytes and then twice as many each, that holds `n` bytes. */
  predicate Smallest(cls: nat, n: nat) {
    cls < 16 && n <= ClassSize(cls) && (cls > 0 ==> ClassSize(cls - 1) < n)
  }

  lemma SmallestIs(n: nat, cls: nat)
    requires n <= 0x20_0000
    ensures Smallest(cls, n) <==> cls == ClassFor(n)
  {
    ClassSizes();
    ClassForIsSmallestFit(n);
    hide ClassSize;
    if Smallest(cls, n) { ClassFromIs(n, cls, 0); }
  }

  /**
   * From any cache: a set is refused memory iff its arguments are valid, the pair does not
   * fit the 32 bytes of the entry, and what it needs is not to be had: for a value of up to
   * 2 MiB a block of the least class that holds it, and `malloc` for a key of more than 24
   * bytes; for a larger value `mmap` and `malloc`.
   */
  lemma RefusedExactly(c: Cache, hf: HashFn, key: seq<byte>, val: seq<byte>, ttl: nat, env: Env)
    requires Shape(c)
    ensures Set(c, hf, key, val, ttl, env).reply == OutOfMemory <==>
            && 0 < |key| < 0x1_0000_0000 && 0 < |val| && |key| + |val| > 32
            && if |val| <= 0x20_0000
               then (exists cls: nat :: cls < 16 && Smallest(cls, |val|) && c.free[cls] == []) || (|key| > 24 && !env.mallocOk)
               else !env.mmapOk || !env.mallocOk
  {
    hide ClassFor;
    hide MakeItem;
    hide RemoveOld;
    hide EvictIfFull;
    hide Attach;
    hide Smallest;
    ClassSizes();
    hide ClassSize;
    if |val| <= 0x20_0000 {
      assert Smallest(ClassFor(|val|), |val|) by { SmallestIs(|val|, ClassFor(|val|)); }
      forall cls: nat ensures Smallest(cls, |val|) <==> cls == ClassFor(|val|) {
        SmallestIs(|val|, cls);
      }
    }
  }
}
