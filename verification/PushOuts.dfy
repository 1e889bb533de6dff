/** When a set pushes another key out, in terms of the cache before the call. */
module PushOuts {
  import opened Bytes
  import opened Entries
  import opened Table
  import opened Cache
  import opened CacheInvariant
  import opened CacheStore
  import opened CacheBags
  import opened CacheRuns
  import opened CacheLaws

  // ---- the buffers a set allocates are invisible to its lookup ----

  lemma {:induction false} FindFrame(t: seq<Slot>, mem: Memory, mem': Memory, key: seq<byte>, h: nat, now: int, i: nat)
    requires |t| > 0
    requires forall s | 0 <= s < |t| && t[s].state.Live? :: KeyBytes(t[s].item, mem') == KeyBytes(t[s].item, mem)
    ensures FindFrom(t, mem', key, h, now, i) == FindFrom(t, mem, key, h, now, i)
    decreases |t| - i
  {
    hide KeyBytes;
    if i < |t| {
      var s := At(Home(h, |t|), i, |t|);
      assert Hit(t, mem', key, h, s) == Hit(t, mem, key, h, s);
      FindFrame(t, mem, mem', key, h, now, i + 1);
    }
  }

  lemma AllocateFind(c: Cache, g: Config, b: Bag, key: seq<byte>, val: seq<byte>, env: Env)
    requires BagInv(c, g, b, []) && Allocate(c, key, val, env).Buffers?
    ensures var h := HashOf(g.hash, key);
            var t := c.shards[ShardIdx(h)].table;
            Find(t, Allocate(c, key, val, env).cache.mem, key, h, env.now) == Find(t, c.mem, key, h, env.now)
  {
    hide Allocate;
    hide Good;
    hide Arena;
    hide OwnedOnce;
    hide Stores;
    hide KeyBytes;
    hide ShardOk;
    var h := HashOf(g.hash, key);
    var i := ShardIdx(h);
    var t := c.shards[i].table;
    var mem' := Allocate(c, key, val, env).cache.mem;
    forall s | 0 <= s < |t| && t[s].state.Live? ensures KeyBytes(t[s].item, mem') == KeyBytes(t[s].item, c.mem) {
      assert SlotGood(c, g, i, s);
      AllocateSpares(c, g, key, val, env, t[s].item);
      SameKey(t[s].item, c.mem, mem', g);
    }
    FindFrame(t, c.mem, mem', key, h, env.now, 0);
  }

  lemma SameKey(e: Item, mem: Memory, mem': Memory, g: Config)
    requires Good(e, mem, g) && RecordOf(e, mem') == RecordOf(e, mem)
    ensures KeyBytes(e, mem') == KeyBytes(e, mem)
  {
  }

  // ---- the exact conditions ----

  /** The key's shard once its fresh entry, if any, is out. */
  function Cleared(c: Cache, hf: HashFn, key: seq<byte>, now: int): (sh: Shard)
    requires Shape(c)
    ensures |sh.table| > 0
  {
    var h := HashOf(hf, key);
    RemoveOld(c, ShardIdx(h), key, h, now).shards[ShardIdx(h)]
  }

  /** A set of `key` now would evict: over the threshold with an unreferenced entry to evict. */
  predicate WouldEvict(c: Cache, hf: HashFn, key: seq<byte>, now: int)
    requires Shape(c)
  {
    var sh := Cleared(c, hf, key, now);
    OverThreshold(sh.count, |sh.table|) && !AllReferenced(sh.table)
  }

  /** A set of `key` now would lose an entry: no slot is vacant and the sweep finds nothing. */
  predicate WouldDrop(c: Cache, hf: HashFn, key: seq<byte>, now: int)
    requires Shape(c)
  {
    var sh := c.shards[ShardIdx(HashOf(hf, key))];
    && Get(c, hf, key, now).reply == NotFound && Full(sh.table)
    && (!OverThreshold(sh.count, |sh.table|) || AllReferenced(sh.table))
  }

  lemma StoreOutcome(c: Cache, g: Config, b: Bag, q: Record, now: int, e: Item)
    requires BagInv(c, g, b, [e]) && RecordOf(e, c.mem) == Some(q) && e.keyHash == HashOf(g.hash, q.key)
    ensures var h := HashOf(g.hash, q.key);
            var i := ShardIdx(h);
            var sh := Cleared(c, g.hash, q.key, now);
            var o := StoreLocked(c, i, q.key, h, now, e);
            && (o.evicted.Some? <==> OverThreshold(sh.count, |sh.table|) && !AllReferenced(sh.table))
            && (o.dropped.Some? <==> Full(sh.table) && (!OverThreshold(sh.count, |sh.table|) || AllReferenced(sh.table)))
  {
    assert Shape(c);
    hide BagInv;
    hide RemoveOld;
    hide EvictIfFull;
    hide Attach;
    hide RecordOf;
    hide KeyBytes;
    hide Taken;
    hide OverThreshold;
    hide Full;
    hide AllReferenced;
    var h := HashOf(g.hash, q.key);
    var i := ShardIdx(h);
    var c1 := RemoveOld(c, i, q.key, h, now);
    var was := RemoveOldMoves(c, g, b, q.key, now, e);
    assert RecordOf([e][0], c1.mem) == Some(q);
    var b2, ev := EvictMoves(c1, g, b - Bagged(was), e, i);
    var (c2, v) := EvictIfFull(c1, i);
    AttachKeeps(c2, g, b2, i, e, q);
    KeyOfDropped(Attach(c2, i, e).1, c2.mem);
    SweepEvictsIff(c1, i);
    AttachDropsIff(c1, i, e);
  }

  /** What removal leaves in the shard does not depend on memory once lookup agrees. */
  lemma ClearedFrame(c: Cache, d: Cache, hf: HashFn, key: seq<byte>, now: int)
    requires Shape(c) && Shape(d) && d.shards == c.shards
    requires var h := HashOf(hf, key);
             var t := c.shards[ShardIdx(h)].table;
             Find(t, d.mem, key, h, now) == Find(t, c.mem, key, h, now)
    ensures Cleared(d, hf, key, now) == Cleared(c, hf, key, now)
  {
    hide Find;
  }

  /** A fresh entry taken out leaves a vacant slot. */
  lemma ClearedFull(c: Cache, g: Config, b: Bag, key: seq<byte>, now: int)
    requires BagInv(c, g, b, [])
    ensures var sh := c.shards[ShardIdx(HashOf(g.hash, key))];
            var sh' := Cleared(c, g.hash, key, now);
            if Get(c, g.hash, key, now).reply == NotFound then sh' == sh else !Full(sh'.table)
  {
    hide AllGood;
    hide OwnedOnce;
    hide Arena;
    hide Stores;
    hide ShardOk;
    var h := HashOf(g.hash, key);
    var i := ShardIdx(h);
    var f := Find(c.shards[i].table, c.mem, key, h, now);
    hide Find;
    if f.Some? { assert Vacant(Cleared(c, g.hash, key, now).table[f.value]); }
  }

  lemma SetOutcome(c: Cache, g: Config, b: Bag, key: seq<byte>, val: seq<byte>, ttl: nat, env: Env)
    requires BagInv(c, g, b, []) && (g.small ==> |val| <= 65536)
    requires ValidSet(key, val) && Allocate(c, key, val, env).Buffers?
    ensures var sh := Cleared(c, g.hash, key, env.now);
            var o := Set(c, g.hash, key, val, ttl, env);
            && (o.evicted.Some? <==> OverThreshold(sh.count, |sh.table|) && !AllReferenced(sh.table))
            && (o.dropped.Some? <==> Full(sh.table) && (!OverThreshold(sh.count, |sh.table|) || AllReferenced(sh.table)))
  {
    hide AllGood;
    hide OwnedOnce;
    hide Arena;
    hide Stores;
    hide ShardOk;
    hide StoreLocked;
    hide Allocate;
    hide MakeItem;
    hide Cleared;
    hide OverThreshold;
    hide Full;
    hide AllReferenced;
    var a := Allocate(c, key, val, env);
    var exp := ExpiryOf(ttl, env.now);
    var h := HashOf(g.hash, key);
    AllocateFind(c, g, b, key, val, env);
    ClearedFrame(c, a.cache, g.hash, key, env.now);
    AllocateKeeps(c, g, b, key, val, env, exp);
    MakeItemHash(key, val, h, exp, a.vp, a.kp);
    StoreOutcome(a.cache, g, b, Record(key, Clamp(val), exp), env.now, MakeItem(key, val, h, exp, a.vp, a.kp));
  }

  /** The set gets past its arguments and its allocations. */
  predicate Accepted(c: Cache, key: seq<byte>, val: seq<byte>, env: Env)
    requires Shape(c)
  {
    ValidSet(key, val) && Allocate(c, key, val, env).Buffers?
  }

  /** From every reachable cache: a set evicts exactly when it is accepted and `WouldEvict` holds before the call. */
  lemma EvictsIff(c: Cache, g: Config, b: Bag, key: seq<byte>, val: seq<byte>, ttl: nat, env: Env)
    requires BagInv(c, g, b, []) && (g.small ==> |val| <= 65536)
    ensures Set(c, g.hash, key, val, ttl, env).evicted.Some? <==> Accepted(c, key, val, env) && WouldEvict(c, g.hash, key, env.now)
  {
    assert Shape(c);
    hide BagInv;
    hide Cleared;
    hide StoreLocked;
    hide Allocate;
    if Accepted(c, key, val, env) { SetOutcome(c, g, b, key, val, ttl, env); }
  }

  /**
   * From every reachable cache: a set loses an entry exactly when it is accepted and
   * `WouldDrop` holds before the call.  A set of a key that can be read never does.
   */
  lemma DropsIff(c: Cache, g: Config, b: Bag, key: seq<byte>, val: seq<byte>, ttl: nat, env: Env)
    requires BagInv(c, g, b, []) && (g.small ==> |val| <= 65536)
    ensures Set(c, g.hash, key, val, ttl, env).dropped.Some? <==> Accepted(c, key, val, env) && WouldDrop(c, g.hash, key, env.now)
  {
    assert Shape(c);
    hide BagInv;
    hide Get;
    hide Cleared;
    hide StoreLocked;
    hide Allocate;
    if Accepted(c, key, val, env) {
      SetOutcome(c, g, b, key, val, ttl, env);
      ClearedFull(c, g, b, key, env.now);
    }
  }

  // ---- a reachable loss ----

  /** The only slot is taken by an entry with its clock bit set, and the counter says so. */
  predicate Occupied(sh: Shard) {
    |sh.table| == 1 && sh.count == 1 && sh.table[0].state.Live? && sh.table[0].clock
  }

  lemma OccupiedIsFull(sh: Shard)
    requires Occupied(sh)
    ensures Full(sh.table) && AllReferenced(sh.table) && OverThreshold(sh.count, |sh.table|)
  {
  }

  /** A first short pair fills the only slot of its shard. */
  lemma FirstFills(hf: HashFn, key: seq<byte>, val: seq<byte>, ttl: nat, env: Env)
    requires 0 < |key| && 0 < |val| && |key| + |val| <= PAYLOAD
    ensures var o := Set(Create(1), hf, key, val, ttl, env);
            && o.reply == Done && o.evicted.None? && o.dropped.None?
            && Occupied(o.cache.shards[ShardIdx(HashOf(hf, key))])
  {
    hide MakeItem;
    var c := Create(1);
    var h := HashOf(hf, key);
    var i := ShardIdx(h);
    var t := c.shards[i].table;
    assert t[0] == EmptySlot();
    assert RemoveOld(c, i, key, h, env.now) == c;
    assert EvictIfFull(c, i) == (c, None);
  }

  lemma ShortSetDone(c: Cache, hf: HashFn, key: seq<byte>, val: seq<byte>, ttl: nat, env: Env)
    requires Shape(c) && 0 < |key| && 0 < |val| && |key| + |val| <= PAYLOAD
    ensures Accepted(c, key, val, env) && Set(c, hf, key, val, ttl, env).reply == Done
  {
  }

  lemma AbsentNotFound(c: Cache, g: Config, m: Ref, key: seq<byte>, now: int)
    requires Inv(c, g, m, []) && key !in m
    ensures Get(c, g.hash, key, now).reply == NotFound
  {
    GetRefines(c, g, m, key, now);
  }

  lemma OccupiedDrops(c: Cache, g: Config, m: Ref, key: seq<byte>, val: seq<byte>, ttl: nat, env: Env)
    requires Inv(c, g, m, []) && !g.small && key !in m && Occupied(c.shards[ShardIdx(HashOf(g.hash, key))])
    requires 0 < |key| && 0 < |val| && |key| + |val| <= PAYLOAD
    ensures var o := Set(c, g.hash, key, val, ttl, env);
            o.reply == Done && o.evicted.None? && o.dropped.Some?
  {
    assert Shape(c);
    hide BagInv;
    hide BagOf;
    hide Set;
    hide Get;
    hide Cleared;
    hide Accepted;
    hide Full;
    hide AllReferenced;
    hide OverThreshold;
    OccupiedIsFull(c.shards[ShardIdx(HashOf(g.hash, key))]);
    hide Occupied;
    ShortSetDone(c, g.hash, key, val, ttl, env);
    AbsentNotFound(c, g, m, key, env.now);
    ClearedFull(c, g, BagOf(m), key, env.now);
    EvictsIff(c, g, BagOf(m), key, val, ttl, env);
    DropsIff(c, g, BagOf(m), key, val, ttl, env);
  }

  /** Two short pairs whose keys differ and share a shard. */
  predicate Collide(hf: HashFn, key1: seq<byte>, val1: seq<byte>, key2: seq<byte>, val2: seq<byte>) {
    && 0 < |key1| && 0 < |val1| && |key1| + |val1| <= PAYLOAD
    && 0 < |key2| && 0 < |val2| && |key2| + |val2| <= PAYLOAD
    && key1 != key2 && ShardIdx(HashOf(hf, key1)) == ShardIdx(HashOf(hf, key2))
  }

  /**
   * The loss is real: set two short pairs of one shard in a cache of one slot per
   * shard.  Both sets succeed, nothing is evicted, and one entry is gone.
   */
  lemma SetLosesEntry(hf: HashFn, key1: seq<byte>, val1: seq<byte>, key2: seq<byte>, val2: seq<byte>, ttl: nat, env: Env)
    requires Collide(hf, key1, val1, key2, val2)
    ensures var o1 := Set(Create(1), hf, key1, val1, ttl, env);
            var o2 := Set(o1.cache, hf, key2, val2, ttl, env);
            && o1.reply == Done && o1.evicted.None? && o1.dropped.None?
            && o2.reply == Done && o2.evicted.None? && o2.dropped.Some?
  {
    hide Create;
    hide Set;
    hide Get;
    hide BagInv;
    hide BagOf;
    var g := Config(hf, false);
    CreateInv(1, g);
    SetRefines(Create(1), g, map[], key1, val1, ttl, env);
    FirstFills(hf, key1, val1, ttl, env);
    var o1 := Set(Create(1), hf, key1, val1, ttl, env);
    OccupiedDrops(o1.cache, g, map[key1 := SetTo(val1, ttl, env.now)], key2, val2, ttl, env);
  }
}
