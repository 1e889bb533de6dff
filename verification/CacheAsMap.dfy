/** Below the eviction threshold the cache is a map, with no reference to its own behaviour. */
module CacheAsMap {
  import opened Bytes
  import opened Entries
  import opened Table
  import opened Cache
  import opened CacheInvariant
  import opened CacheSteps
  import opened CacheStore
  import opened CacheBags
  import opened CacheRuns
  import opened CacheLaws

  // ---- the number of LIVE slots is the number of records stored ----

  lemma NoneStored(c: Cache, b: Bag)
    requires Stores(c, b) && Total(c.shards, One()) == 0
    ensures b == multiset{}
  {
    forall r: Record ensures b[r] == 0 {
      if Total(c.shards, RecordIs(c.mem, r)) > 0 {
        var i, s := TotalFrom(c.shards, RecordIs(c.mem, r));
        SumHas(c.shards[i].table, One(), s);
        TotalHas(c.shards, i, One());
      }
      assert Total(c.shards, RecordIs(c.mem, r)) == b[r];
    }
  }

  /** One LIVE entry out of shard `i`, and its record out of the bag. */
  lemma TakeOne(c: Cache, g: Config, b: Bag, i: nat, s: nat) returns (d: Cache, q: Record)
    requires AllGood(c, g, []) && Stores(c, b)
    requires i < |c.shards| && s < |c.shards[i].table| && c.shards[i].table[s].state.Live?
    ensures |d.shards| == |c.shards| && AllGood(d, g, []) && Stores(d, b - multiset{q})
    ensures q in b && ShardIdx(HashOf(g.hash, q.key)) == i
    ensures Total(d.shards, One()) + 1 == Total(c.shards, One())
    ensures Sum(d.shards[i].table, One()) + 1 == Sum(c.shards[i].table, One())
  {
    hide Good;
    var sh := c.shards[i];
    var sh' := sh.(table := sh.table[s := sh.table[s].(state := Dead)]);
    d := c.(shards := c.shards[i := sh']);
    assert TakesOut(sh, sh', s);
    LiveRecord(c, g, b, [], i, s);
    assert SlotGood(c, g, i, s);
    TakeOutGood(c, g, [], i, s, sh');
    q := RecordOf(sh.table[s].item, c.mem).value;
    TakeOutStores(c, b, i, s, sh', q);
    TakeOutTotal(c, i, sh', s, One());
    TakesOutSum(sh, sh', s, One());
    hide Stores;
    hide AllGood;
    DropHeld(d, g, [] + [sh.table[s].item]);
  }

  /** The LIVE slots of all shards are as many as the records stored. */
  lemma {:induction false} SizeIs(c: Cache, g: Config, b: Bag)
    requires AllGood(c, g, []) && Stores(c, b)
    ensures Total(c.shards, One()) == |b|
    decreases Total(c.shards, One())
  {
    if Total(c.shards, One()) == 0 {
      NoneStored(c, b);
    } else {
      var i, s := TotalFrom(c.shards, One());
      hide Stores;
      hide AllGood;
      var d, q := TakeOne(c, g, b, i, s);
      SizeIs(d, g, b - multiset{q});
    }
  }

  lemma {:induction false} MapSize(m: Ref)
    ensures |BagOf(m)| == |m|
    decreases |m|
  {
    if m == map[] {
      EmptyMap();
    } else {
      var key :| key in m;
      KeyInBag(m, key);
      TakeFromMap(m, Record(key, m[key].val, m[key].expireNs));
      MapSize(m - {key});
      assert m.Keys == (m - {key}).Keys + {key};
    }
  }

  /** Over every run that loses no entry, the key count `vc_stats` reports is the number of records stored. */
  lemma KeysCounted(cap: nat, hf: HashFn, ops: seq<Op>) returns (b: Bag)
    requires PowerOfTwo(cap) && cap < TWO_32 && DropCount(Create(cap), hf, ops) == 0
    ensures BagRun(Create(cap), hf, multiset{}, ops, b)
    ensures TotalKeys(Run(Create(cap), hf, ops).shards) == |b|
  {
    hide Run;
    hide BagRun;
    hide DropCount;
    hide Create;
    b := EveryRunMovesABag(cap, hf, ops);
    CountersAgree(cap, hf, ops);
    SizeIs(Run(Create(cap), hf, ops), Config(hf, false), b);
  }

  /** If moreover no set hit an expired entry, it is the size of the map. */
  lemma KeysOfMapCounted(cap: nat, hf: HashFn, ops: seq<Op>)
    requires PowerOfTwo(cap) && cap < TWO_32 && NeverStale(Create(cap), hf, map[], ops)
    requires DropCount(Create(cap), hf, ops) == 0
    ensures TotalKeys(Run(Create(cap), hf, ops).shards) == |RefRun(Create(cap), hf, map[], ops)|
  {
    hide Run;
    hide RefRun;
    hide NeverStale;
    hide DropCount;
    hide Create;
    var g := Config(hf, false);
    var m := RefRun(Create(cap), hf, map[], ops);
    CreateInv(cap, g);
    RunKeeps(Create(cap), g, map[], ops);
    CountersAgree(cap, hf, ops);
    SizeIs(Run(Create(cap), hf, ops), g, BagOf(m));
    MapSize(m);
  }

  // ---- one shard ----

  /** The keys of the map that hash to shard `i`. */
  function ShardKeys(m: Ref, hf: HashFn, i: nat): set<seq<byte>> {
    set k | k in m && ShardIdx(HashOf(hf, k)) == i
  }

  lemma NoneInShard(c: Cache, g: Config, m: Ref, i: nat)
    requires AllGood(c, g, []) && Agrees(c, m) && |c.shards| == SHARDS && i < SHARDS && Sum(c.shards[i].table, One()) == 0
    ensures ShardKeys(m, g.hash, i) == {}
  {
    forall k | k in m ensures ShardIdx(HashOf(g.hash, k)) != i {
      var s := PresentHasSlot(c, g, m, k);
      if ShardIdx(HashOf(g.hash, k)) == i { SumHas(c.shards[i].table, One(), s); }
    }
  }

  /** The LIVE slots of a shard are as many as the keys of the map that hash to it. */
  lemma {:induction false} ShardSizeIs(c: Cache, g: Config, m: Ref, i: nat)
    requires AllGood(c, g, []) && Agrees(c, m) && |c.shards| == SHARDS && i < SHARDS
    ensures Sum(c.shards[i].table, One()) == |ShardKeys(m, g.hash, i)|
    decreases Sum(c.shards[i].table, One())
  {
    if Sum(c.shards[i].table, One()) == 0 {
      NoneInShard(c, g, m, i);
    } else {
      var s := SumFrom(c.shards[i].table, One());
      hide Stores;
      hide AllGood;
      hide BagOf;
      var d, q := TakeOne(c, g, BagOf(m), i, s);
      TakeFromMap(m, q);
      ShardSizeIs(d, g, m - {q.key}, i);
      assert ShardKeys(m, g.hash, i) == ShardKeys(m - {q.key}, g.hash, i) + {q.key};
    }
  }

  // ---- a set with room pushes nothing out ----

  lemma {:induction false} FullSum(t: seq<Slot>)
    requires forall s | 0 <= s < |t| :: t[s].state.Live?
    ensures Sum(t, One()) == |t|
  {
    if |t| > 0 { FullSum(t[..|t| - 1]); }
  }

  /** The other keys of the key's own shard are fewer than 85% of its table. */
  predicate Roomy(m: Ref, hf: HashFn, key: seq<byte>, cap: nat) {
    100 * |ShardKeys(m - {key}, hf, ShardIdx(HashOf(hf, key)))| < 85 * cap
  }

  lemma WrapsDown(n: nat)
    ensures U32(n) <= n
  {
  }

  /** Wrapping only lowers the counter and the product, so the test never fires early. */
  lemma ShardHasRoom(sh: Shard)
    requires ShardOk(sh) && sh.overcount == 0 && 100 * Sum(sh.table, One()) < 85 * |sh.table|
    ensures !OverThreshold(sh.count, |sh.table|) && !Full(sh.table)
  {
    WrapsDown(Sum(sh.table, One()));
    WrapsDown(sh.count * 100);
    DivGe(U32(sh.count * 100), |sh.table|, 85);
    if Full(sh.table) {
      assert forall s | 0 <= s < |sh.table| :: sh.table[s].state.Live?;
      FullSum(sh.table);
    }
  }

  lemma StoreHasRoom(c: Cache, g: Config, m: Ref, key: seq<byte>, now: int, e: Item, cap: nat)
    requires Inv(c, g, m, [e]) && (key in m ==> !Expired(m[key].expireNs, now))
    requires AllCaps(c, cap) && NoOvercount(c) && Roomy(m, g.hash, key, cap)
    ensures var h := HashOf(g.hash, key);
            var o := StoreLocked(c, ShardIdx(h), key, h, now, e);
            o.evicted.None? && o.dropped.None?
  {
    var h := HashOf(g.hash, key);
    var i := ShardIdx(h);
    var c1 := RemoveOld(c, i, key, h, now);
    assert |c1.shards[i].table| == cap && c1.shards[i].overcount == 0;
    hide ShardOk;
    hide AllGood;
    hide OwnedOnce;
    hide Arena;
    hide Stores;
    hide RemoveOld;
    hide BagOf;
    var m1 := RemoveOldMaps(c, g, m, key, now, e);
    DropHeld(c1, g, [e]);
    ShardSizeIs(c1, g, m - {key}, i);
    ShardHasRoom(c1.shards[i]);
    AttachDropsIff(c1, i, e);
  }

  lemma SetHasRoom(c: Cache, g: Config, m: Ref, key: seq<byte>, val: seq<byte>, ttl: nat, env: Env, cap: nat)
    requires Inv(c, g, m, []) && !g.small && (key in m ==> !Expired(m[key].expireNs, env.now))
    requires AllCaps(c, cap) && NoOvercount(c) && Roomy(m, g.hash, key, cap)
    ensures var o := Set(c, g.hash, key, val, ttl, env);
            o.evicted.None? && o.dropped.None?
  {
    hide AllGood;
    hide OwnedOnce;
    hide Arena;
    hide Stores;
    hide ShardOk;
    hide StoreLocked;
    hide Allocate;
    hide MakeItem;
    var b := Allocate(c, key, val, env);
    if ValidSet(key, val) && b.Buffers? {
      var exp := ExpiryOf(ttl, env.now);
      var h := HashOf(g.hash, key);
      AllocateKeeps(c, g, BagOf(m), key, val, env, exp);
      StoreHasRoom(b.cache, g, m, key, env.now, MakeItem(key, val, h, exp, b.vp, b.kp), cap);
    }
  }

  // ---- runs against a map that never looks at the cache ----

  function PlainApply(m: Ref, op: Op): Ref {
    match op
    case OpSet(key, val, ttl, env) => if 0 < |key| < 0x1_0000_0000 && 0 < |val| then m[key := SetTo(val, ttl, env.now)] else m
    case OpGet(_, _) => m
    case OpDel(key, now) => if Present(m, key, now) then m - {key} else m
    case OpFlush => map[]
  }

  function PlainRun(m: Ref, ops: seq<Op>): Ref
    decreases |ops|
  {
    if ops == [] then m else PlainRun(PlainApply(m, ops[0]), ops[1..])
  }

  /** Every set finds its key absent or fresh, and the other keys of its shard below the threshold. */
  predicate PlainRoomy(m: Ref, hf: HashFn, ops: seq<Op>, cap: nat)
    decreases |ops|
  {
    ops == [] ||
    (&& NotStale(m, ops[0])
     && (ops[0].OpSet? ==> Roomy(m, hf, ops[0].key, cap))
     && PlainRoomy(PlainApply(m, ops[0]), hf, ops[1..], cap))
  }

  predicate NeverRefused(c: Cache, hf: HashFn, ops: seq<Op>)
    requires Shape(c)
    decreases |ops|
  {
    ops == [] ||
    var o := Apply(c, hf, ops[0]);
    o.reply != OutOfMemory && NeverRefused(o.cache, hf, ops[1..])
  }

  lemma OnlySetsPushOut(c: Cache, hf: HashFn, op: Op)
    requires Shape(c) && !op.OpSet?
    ensures Apply(c, hf, op).evicted.None? && Apply(c, hf, op).dropped.None?
  {
  }

  /** With nothing refused and nothing pushed out, an outcome tells the map nothing it did not know. */
  lemma ReplyIsPlain(m: Ref, op: Op, o: Outcome)
    requires ReplyFits(m, op, o) && o.reply != OutOfMemory
    requires op.OpSet? ==> o.evicted.None? && o.dropped.None?
    ensures RefApply(m, op, o) == PlainApply(m, op)
  {
  }

  lemma StepIsPlain(c: Cache, g: Config, m: Ref, op: Op, cap: nat)
    requires Inv(c, g, m, []) && !g.small && NotStale(m, op) && AllCaps(c, cap) && NoOvercount(c)
    requires op.OpSet? ==> Roomy(m, g.hash, op.key, cap)
    requires Apply(c, g.hash, op).reply != OutOfMemory
    ensures var o := Apply(c, g.hash, op);
            && RefApply(m, op, o) == PlainApply(m, op) && o.evicted.None? && o.dropped.None?
            && Inv(o.cache, g, PlainApply(m, op), []) && AllCaps(o.cache, cap) && NoOvercount(o.cache)
  {
    StepRefines(c, g, m, op);
    if op.OpSet? {
      SetHasRoom(c, g, m, op.key, op.val, op.ttl, op.env, cap);
    } else {
      OnlySetsPushOut(c, g.hash, op);
    }
    hide BagInv;
    hide BagOf;
    hide Set;
    hide Get;
    hide Del;
    hide Flush;
    hide AllCaps;
    hide NoOvercount;
    hide ReplyFits;
    hide RefApply;
    hide PlainApply;
    ReplyIsPlain(m, op, Apply(c, g.hash, op));
    StepLeaks(c, g, BagOf(m), op);
    StepSettles(c, g.hash, op);
    SettledCaps(c, Apply(c, g.hash, op).cache, cap);
  }

  lemma {:induction false} RunIsPlain(c: Cache, g: Config, m: Ref, ops: seq<Op>, cap: nat)
    requires Inv(c, g, m, []) && !g.small && AllCaps(c, cap) && NoOvercount(c)
    requires PlainRoomy(m, g.hash, ops, cap) && NeverRefused(c, g.hash, ops)
    ensures NeverStale(c, g.hash, m, ops) && RefRun(c, g.hash, m, ops) == PlainRun(m, ops)
    decreases |ops|
  {
    hide AllGood;
    hide OwnedOnce;
    hide Arena;
    hide Stores;
    hide ShardOk;
    hide Apply;
    hide RefApply;
    hide PlainApply;
    hide AllCaps;
    hide NoOvercount;
    if ops != [] {
      StepIsPlain(c, g, m, ops[0], cap);
      RunIsPlain(Apply(c, g.hash, ops[0]).cache, g, PlainApply(m, ops[0]), ops[1..], cap);
    }
  }

  /**
   * The cache is a map: over every run whose sets find their shard below 85% of its
   * table, with no refused allocation and no set over an expired entry, a lookup gives
   * what a plain map gives, for every capacity.
   */
  lemma CacheIsMap(cap: nat, hf: HashFn, ops: seq<Op>, key: seq<byte>, now: int)
    requires PowerOfTwo(cap) && PlainRoomy(map[], hf, ops, cap) && NeverRefused(Create(cap), hf, ops)
    ensures var m := PlainRun(map[], ops);
            Get(Run(Create(cap), hf, ops), hf, key, now).reply == if Present(m, key, now) then Value(m[key].val) else NotFound
  {
    hide Run;
    hide RefRun;
    hide PlainRun;
    hide PlainRoomy;
    hide NeverRefused;
    hide NeverStale;
    hide Create;
    hide Get;
    hide Del;
    hide Inv;
    var g := Config(hf, false);
    CreateInv(cap, g);
    CreateTables(cap);
    RunIsPlain(Create(cap), g, map[], ops, cap);
    RunsRefineMap(cap, hf, ops, key, now);
  }

  predicate SetsInline(ops: seq<Op>) {
    forall k | 0 <= k < |ops| :: ops[k].OpSet? ==> |ops[k].key| + |ops[k].val| <= 32
  }

  /** Pairs that fit their slot need no memory, whatever the allocators say. */
  lemma {:induction false} InlineNeverRefused(c: Cache, hf: HashFn, ops: seq<Op>)
    requires Shape(c) && SetsInline(ops)
    ensures NeverRefused(c, hf, ops)
    decreases |ops|
  {
    if ops != [] {
      hide StoreLocked;
      hide MakeItem;
      assert Apply(c, hf, ops[0]).reply != OutOfMemory by { InlineStep(c, hf, ops[0]); }
      hide Apply;
      InlineNeverRefused(Apply(c, hf, ops[0]).cache, hf, ops[1..]);
    }
  }

  lemma InlineStep(c: Cache, hf: HashFn, op: Op)
    requires Shape(c) && (op.OpSet? ==> LayoutOf(|op.key|, |op.val|).Inline?)
    ensures Apply(c, hf, op).reply != OutOfMemory
  {
  }
}
