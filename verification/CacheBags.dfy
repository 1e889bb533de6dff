/**
 * Every operation on every reachable cache.  A set over an expired entry leaves two
 * entries of one key, so what a cache stores is in general a bag of records; each
 * operation moves the bag and keeps tables, slab blocks and counters well formed.
 */
module CacheBags {
  import opened Bytes
  import opened SlabClasses
  import opened Entries
  import opened Table
  import opened Cache
  import opened CacheInvariant
  import opened CacheSteps
  import opened CacheStore

  lemma DropHeld(c: Cache, g: Config, held: seq<Item>)
    requires AllGood(c, g, held)
    ensures AllGood(c, g, [])
  {
  }

  // ---- lookup ----

  lemma LiveRecord(c: Cache, g: Config, b: Bag, held: seq<Item>, i: nat, s: nat)
    requires AllGood(c, g, held) && Stores(c, b)
    requires i < |c.shards| && s < |c.shards[i].table| && c.shards[i].table[s].state.Live?
    ensures var e := c.shards[i].table[s].item;
            && RecordOf(e, c.mem).Some? && RecordOf(e, c.mem).value in b
            && HashOf(g.hash, RecordOf(e, c.mem).value.key) == e.keyHash
            && |RecordOf(e, c.mem).value.key| == e.keyLen
            && Sum(c.shards[i].table, RecordIs(c.mem, RecordOf(e, c.mem).value)) <= b[RecordOf(e, c.mem).value]
  {
    assert SlotGood(c, g, i, s);
    var q := RecordOf(c.shards[i].table[s].item, c.mem).value;
    SumHas(c.shards[i].table, RecordIs(c.mem, q), s);
    TotalHas(c.shards, i, RecordIs(c.mem, q));
    assert Total(c.shards, RecordIs(c.mem, q)) == b[q];
  }

  lemma StoredHasSlot(c: Cache, g: Config, b: Bag, held: seq<Item>, r: Record) returns (s: nat)
    requires AllGood(c, g, held) && Stores(c, b) && |c.shards| == SHARDS && r in b
    ensures var h := HashOf(g.hash, r.key);
            && s < |c.shards[ShardIdx(h)].table| && Hit(c.shards[ShardIdx(h)].table, c.mem, r.key, h, s)
            && RecordOf(c.shards[ShardIdx(h)].table[s].item, c.mem) == Some(r)
  {
    assert b[r] == Total(c.shards, RecordIs(c.mem, r));
    var i;
    i, s := TotalFrom(c.shards, RecordIs(c.mem, r));
    assert SlotGood(c, g, i, s);
  }

  /** The first slot of the probe sequence that matches, if any does. */
  lemma {:induction false} FirstHit(t: seq<Slot>, mem: Memory, key: seq<byte>, hash: nat, s: nat) returns (k: nat)
    requires s < |t| && Hit(t, mem, key, hash, s)
    ensures k < |t| && Hit(t, mem, key, hash, k)
    ensures forall j | 0 <= j < Dist(Home(hash, |t|), k, |t|) :: !Hit(t, mem, key, hash, At(Home(hash, |t|), j, |t|))
    decreases Dist(Home(hash, |t|), s, |t|)
  {
    hide Hit;
    var h := Home(hash, |t|);
    if j :| 0 <= j < Dist(h, s, |t|) && Hit(t, mem, key, hash, At(h, j, |t|)) {
      k := FirstHit(t, mem, key, hash, At(h, j, |t|));
    } else {
      k := s;
    }
  }

  /** `r` is the one record of its key. */
  ghost predicate Only(b: Bag, r: Record) {
    b[r] == 1 && forall x :: x in b && x.key == r.key ==> x == r
  }

  /** A lookup may miss: no record of the key is stored, or one that has expired is. */
  ghost predicate Misses(b: Bag, key: seq<byte>, now: int) {
    (exists r :: r in b && r.key == key) ==> exists r :: r in b && r.key == key && Expired(r.expireNs, now)
  }

  /** `_shard_find` finds only what is stored and fresh, and misses only where it may. */
  lemma LookupStored(c: Cache, g: Config, b: Bag, held: seq<Item>, key: seq<byte>, now: int)
    requires BagInv(c, g, b, held)
    ensures var h := HashOf(g.hash, key);
            var t := c.shards[ShardIdx(h)].table;
            var f := Find(t, c.mem, key, h, now);
            && (f.Some? ==> var r := RecordOf(t[f.value].item, c.mem);
                            r.Some? && r.value in b && r.value.key == key && !Expired(r.value.expireNs, now))
            && (f.None? ==> Misses(b, key, now))
  {
    hide Good;
    hide Arena;
    hide OwnedOnce;
    var h := HashOf(g.hash, key);
    var i := ShardIdx(h);
    var t := c.shards[i].table;
    assert ShardOk(c.shards[i]);
    var f := Find(t, c.mem, key, h, now);
    if f.Some? {
      LiveRecord(c, g, b, held, i, f.value);
    } else if r :| r in b && r.key == key {
      var s := StoredHasSlot(c, g, b, held, r);
      var k := FirstHit(t, c.mem, key, h, s);
      FindFirst(t, c.mem, key, h, now, k, 0);
      LiveRecord(c, g, b, held, i, k);
    }
  }

  // ---- flush ----

  lemma {:induction false} NoneLive(t: seq<Slot>, w: Weight)
    requires forall s | 0 <= s < |t| :: !t[s].state.Live?
    ensures Sum(t, w) == 0
  {
    if |t| > 0 { NoneLive(t[..|t| - 1], w); }
  }

  predicate Dry(c: Cache, i: nat)
    requires i < |c.shards|
  {
    forall s | 0 <= s < |c.shards[i].table| :: !c.shards[i].table[s].state.Live?
  }

  predicate DryTo(c: Cache, i: nat, j: nat)
    requires i < |c.shards| && j <= |c.shards[i].table|
  {
    forall s | 0 <= s < j :: !c.shards[i].table[s].state.Live?
  }

  lemma ResetCount(c: Cache, g: Config, b: Bag, i: nat)
    requires BagInv(c, g, b, []) && i < SHARDS && Dry(c, i)
    ensures BagInv(c.(shards := c.shards[i := c.shards[i].(count := 0, overcount := 0)]), g, b, [])
  {
    var sh := c.shards[i];
    NoneLive(sh.table, One());
    var sh' := sh.(count := 0, overcount := 0);
    assert ShardOk(sh) && ShardOk(sh');
    hide ShardOk;
    hide Good;
    hide Arena;
    var d := c.(shards := c.shards[i := sh']);
    forall w: Weight ensures Total(d.shards, w) == Total(c.shards, w) { TotalUpdate(c.shards, i, sh', w); }
    forall p: Ptr ensures Refs(d, [], p) == if p in d.mem then 1 else 0 {
      assert Refs(c, [], p) == if p in c.mem then 1 else 0;
    }
    forall x, y | 0 <= x < |d.shards| && 0 <= y < |d.shards[x].table| ensures SlotGood(d, g, x, y) {
      assert SlotGood(c, g, x, y);
    }
    forall r: Record ensures Total(d.shards, RecordIs(d.mem, r)) == b[r] {
      assert Total(c.shards, RecordIs(c.mem, r)) == b[r];
    }
  }

  lemma {:induction false} FlushShardKeeps(c: Cache, g: Config, b: Bag, i: nat, j: nat) returns (b': Bag)
    requires BagInv(c, g, b, []) && i < SHARDS && j <= |c.shards[i].table| && DryTo(c, i, j)
    ensures var d := FlushShard(c, i, j);
            && BagInv(d, g, b', []) && Dry(d, i)
            && forall a | 0 <= a < SHARDS && a != i :: d.shards[a] == c.shards[a]
    decreases |c.shards[i].table| - j
  {
    hide Good;
    hide Arena;
    hide OwnedOnce;
    hide Stores;
    hide ShardOk;
    if j == |c.shards[i].table| {
      b' := b;
      ResetCount(c, g, b, i);
    } else if c.shards[i].table[j].state.Live? {
      var q := KillKeeps(c, g, b, [], i, j);
      b' := FlushShardKeeps(Kill(c, i, j), g, b - multiset{q}, i, j + 1);
    } else {
      b' := FlushShardKeeps(c, g, b, i, j + 1);
    }
  }

  lemma {:induction false} FlushFromKeeps(c: Cache, g: Config, b: Bag, i: nat) returns (b': Bag)
    requires BagInv(c, g, b, []) && i <= SHARDS && forall a | 0 <= a < i :: Dry(c, a)
    ensures BagInv(FlushFrom(c, i), g, b', []) && forall a | 0 <= a < SHARDS :: Dry(FlushFrom(c, i), a)
    decreases SHARDS - i
  {
    hide AllGood;
    hide Arena;
    hide OwnedOnce;
    hide Stores;
    hide ShardOk;
    b' := b;
    if i < SHARDS {
      b' := FlushShardKeeps(c, g, b, i, 0);
      var d := FlushShard(c, i, 0);
      forall a | 0 <= a < i ensures Dry(d, a) {
        assert Dry(c, a) && d.shards[a] == c.shards[a];
      }
      b' := FlushFromKeeps(FlushShard(c, i, 0), g, b', i + 1);
    }
  }

  lemma {:induction false} DryTotal(shards: seq<Shard>, w: Weight)
    requires forall a, s | 0 <= a < |shards| && 0 <= s < |shards[a].table| :: !shards[a].table[s].state.Live?
    ensures Total(shards, w) == 0
  {
    var n := |shards| - 1;
    if n >= 0 {
      NoneLive(shards[n].table, w);
      DryTotal(shards[..n], w);
    }
  }

  lemma DryIsEmpty(c: Cache, b: Bag)
    requires Stores(c, b) && forall a | 0 <= a < |c.shards| :: Dry(c, a)
    ensures b == multiset{}
  {
    assert forall a, s | 0 <= a < |c.shards| && 0 <= s < |c.shards[a].table| :: Dry(c, a) && !c.shards[a].table[s].state.Live?;
    forall r: Record ensures b[r] == 0 {
      DryTotal(c.shards, RecordIs(c.mem, r));
      assert Total(c.shards, RecordIs(c.mem, r)) == b[r];
    }
  }

  lemma FlushEmpties(c: Cache, g: Config, b: Bag)
    requires BagInv(c, g, b, [])
    ensures BagInv(Flush(c), g, multiset{}, [])
  {
    var b' := FlushFromKeeps(c, g, b, 0);
    DryIsEmpty(Flush(c), b');
  }

  // ---- one operation ----

  datatype Op =
    | OpSet(key: seq<byte>, val: seq<byte>, ttl: nat, env: Env)
    | OpGet(key: seq<byte>, now: int)
    | OpDel(key: seq<byte>, now: int)
    | OpFlush

  function Apply(c: Cache, hf: HashFn, op: Op): (o: Outcome)
    requires Shape(c)
    ensures Shape(o.cache)
  {
    match op
    case OpSet(key, val, ttl, env) => Set(c, hf, key, val, ttl, env)
    case OpGet(key, now) => Get(c, hf, key, now)
    case OpDel(key, now) => Del(c, hf, key, now)
    case OpFlush => Outcome(Flush(c), Done, None, None)
  }

  predicate SmallEnough(op: Op) {
    op.OpSet? ==> |op.val| <= 65536
  }

  function KeyOf(r: Option<Record>): Option<seq<byte>> {
    if r.Some? then Some(r.value.key) else None
  }

  /** A fresh record of the key is taken out, or the lookup may miss. */
  ghost predicate Taken(b: Bag, key: seq<byte>, now: int, was: Option<Record>) {
    if was.Some? then was.value in b && was.value.key == key && !Expired(was.value.expireNs, now)
    else Misses(b, key, now)
  }

  /** A set replaces a record of its key, may evict one, adds its own, and may give up on one. */
  ghost predicate SetMoved(b: Bag, q: Record, now: int, b': Bag,
                           was: Option<Record>, ev: Option<Record>, dr: Option<Record>)
  {
    && Taken(b, q.key, now, was)
    && Bagged(ev) <= b - Bagged(was)
    && Bagged(dr) <= b - Bagged(was) - Bagged(ev) + multiset{q}
    && b' == b - Bagged(was) - Bagged(ev) + multiset{q} - Bagged(dr)
  }

  /** ... and it reports the keys it evicted and gave up on. */
  ghost predicate SetMoves(b: Bag, q: Record, now: int, o: Outcome, b': Bag,
                           was: Option<Record>, ev: Option<Record>, dr: Option<Record>)
  {
    SetMoved(b, q, now, b', was, ev, dr) && o.evicted == KeyOf(ev) && o.dropped == KeyOf(dr)
  }

  /** The key, at most 65535 bytes of the value, and the time it expires in nanoseconds, 0 for never. */
  function RecordSet(op: Op): Record
    requires op.OpSet?
  {
    Record(op.key, if |op.val| <= 65535 then op.val else op.val[..65535],
           if op.ttl == 0 then 0 else op.env.now + op.ttl * 1_000_000_000)
  }

  ghost predicate Answers(b: Bag, key: seq<byte>, now: int, val: seq<byte>) {
    exists r :: r in b && r.key == key && r.val == val && !Expired(r.expireNs, now)
  }

  /** What each operation does to the bag and what it may reply. */
  ghost predicate BagStep(b: Bag, op: Op, o: Outcome, b': Bag) {
    && (o.reply != Done || !op.OpSet? ==> o.evicted.None? && o.dropped.None?)
    && match op
       case OpSet(key, val, ttl, env) =>
         && (o.reply == Invalid <==> |key| == 0 || |key| >= 0x1_0000_0000 || |val| == 0) && o.reply in {Done, Invalid, OutOfMemory}
         && (if o.reply == Done then exists was, ev, dr :: SetMoves(b, RecordSet(op), env.now, o, b', was, ev, dr)
             else b' == b)
       case OpGet(key, now) =>
         b' == b && (if o.reply.Value? then Answers(b, key, now, o.reply.bytes) else o.reply == NotFound && Misses(b, key, now))
       case OpDel(key, now) =>
         if o.reply == Done then exists r :: Taken(b, key, now, Some(r)) && b' == b - multiset{r}
         else o.reply == NotFound && Misses(b, key, now) && b' == b
       case OpFlush => o.reply == Done && b' == multiset{}
  }

  lemma RemoveOldMoves(c: Cache, g: Config, b: Bag, key: seq<byte>, now: int, e: Item) returns (was: Option<Record>)
    requires BagInv(c, g, b, [e])
    ensures var h := HashOf(g.hash, key);
            var d := RemoveOld(c, ShardIdx(h), key, h, now);
            && Taken(b, key, now, was) && BagInv(d, g, b - Bagged(was), [e]) && SameRecords([e], c.mem, d.mem)
            && d.leaked == c.leaked
  {
    hide ShardOk;
    hide AllGood;
    hide OwnedOnce;
    hide Arena;
    hide Stores;
    var h := HashOf(g.hash, key);
    LookupStored(c, g, b, [e], key, now);
    var f := Find(c.shards[ShardIdx(h)].table, c.mem, key, h, now);
    was := None;
    if f.Some? {
      var q := KillKeeps(c, g, b, [e], ShardIdx(h), f.value);
      was := Some(q);
    } else {
      assert b - Bagged(None) == b;
    }
  }

  lemma KeyOfDropped(o: Option<Item>, mem: Memory)
    requires o.Some? ==> RecordOf(o.value, mem).Some?
    ensures KeyIn(o, mem) == KeyOf(DroppedRecord(o, mem))
  {
  }

  lemma EvictMoves(c: Cache, g: Config, b: Bag, e: Item, i: nat) returns (b': Bag, ev: Option<Record>)
    requires BagInv(c, g, b, [e]) && i < SHARDS
    ensures var (d, v) := EvictIfFull(c, i);
            && BagInv(d, g, b', [e]) && RecordOf(e, d.mem) == RecordOf(e, c.mem)
            && Bagged(ev) <= b && b' == b - Bagged(ev) && KeyIn(v, c.mem) == KeyOf(ev) && (ev.Some? <==> v.Some?)
  {
    assert Shape(c);
    hide BagInv;
    hide RecordOf;
    hide KeyBytes;
    hide EvictIfFull;
    b' := EvictKeeps(c, g, b, [e], i);
    var (d, v) := EvictIfFull(c, i);
    ev := DroppedRecord(v, c.mem);
    KeyOfDropped(v, c.mem);
    assert RecordOf([e][0], d.mem) == RecordOf([e][0], c.mem);
  }

  /** The three steps under the lock: remove the old entry, evict if full, insert. */
  lemma StoreMoves(c: Cache, g: Config, b: Bag, q: Record, now: int, e: Item)
    returns (b': Bag, was: Option<Record>, ev: Option<Record>, dr: Option<Record>)
    requires BagInv(c, g, b, [e]) && RecordOf(e, c.mem) == Some(q) && e.keyHash == HashOf(g.hash, q.key)
    ensures var h := HashOf(g.hash, q.key);
            var o := StoreLocked(c, ShardIdx(h), q.key, h, now, e);
            o.reply == Done && BagInv(o.cache, g, b', []) && SetMoves(b, q, now, o, b', was, ev, dr)
  {
    assert Shape(c);
    hide BagInv;
    hide RemoveOld;
    hide EvictIfFull;
    hide Attach;
    hide Taken;
    hide RecordOf;
    hide KeyBytes;
    var h := HashOf(g.hash, q.key);
    var i := ShardIdx(h);
    was := RemoveOldMoves(c, g, b, q.key, now, e);
    var c1 := RemoveOld(c, i, q.key, h, now);
    assert RecordOf([e][0], c1.mem) == Some(q);
    var b2;
    b2, ev := EvictMoves(c1, g, b - Bagged(was), e, i);
    var (c2, v) := EvictIfFull(c1, i);
    AttachKeeps(c2, g, b2, i, e, q);
    var (c3, w) := Attach(c2, i, e);
    dr := DroppedRecord(w, c2.mem);
    KeyOfDropped(w, c2.mem);
    b' := b2 + multiset{q} - Bagged(dr);
  }

  lemma MakeItemHash(key: seq<byte>, val: seq<byte>, hash: nat, expireNs: int, vp: Ptr, kp: Ptr)
    ensures MakeItem(key, val, hash, expireNs, vp, kp).keyHash == hash
  {
  }

  lemma SetKeeps(c: Cache, g: Config, b: Bag, key: seq<byte>, val: seq<byte>, ttl: nat, env: Env) returns (b': Bag)
    requires BagInv(c, g, b, []) && (g.small ==> |val| <= 65536)
    ensures var o := Set(c, g.hash, key, val, ttl, env);
            BagInv(o.cache, g, b', []) && BagStep(b, OpSet(key, val, ttl, env), o, b')
  {
    hide AllGood;
    hide OwnedOnce;
    hide Arena;
    hide Stores;
    hide ShardOk;
    hide StoreLocked;
    hide Allocate;
    hide MakeItem;
    hide SetMoves;
    b' := b;
    var a := Allocate(c, key, val, env);
    if a.Refused? { RefusedUnchanged(c, g, key, val, env); }
    if ValidSet(key, val) && a.Buffers? {
      var exp := ExpiryOf(ttl, env.now);
      var h := HashOf(g.hash, key);
      AllocateKeeps(c, g, b, key, val, env, exp);
      MakeItemHash(key, val, h, exp, a.vp, a.kp);
      var was, ev, dr;
      b', was, ev, dr :=
        StoreMoves(a.cache, g, b, Record(key, Clamp(val), exp), env.now, MakeItem(key, val, h, exp, a.vp, a.kp));
      var o := Set(c, g.hash, key, val, ttl, env);
      ClampIs(val);
      assert SetMoves(b, RecordSet(OpSet(key, val, ttl, env)), env.now, o, b', was, ev, dr);
    }
  }

  lemma GetKeeps(c: Cache, g: Config, b: Bag, key: seq<byte>, now: int)
    requires BagInv(c, g, b, [])
    ensures var o := Get(c, g.hash, key, now);
            BagInv(o.cache, g, b, []) && BagStep(b, OpGet(key, now), o, b)
  {
    LookupStored(c, g, b, [], key, now);
    var h := HashOf(g.hash, key);
    var i := ShardIdx(h);
    var f := Find(c.shards[i].table, c.mem, key, h, now);
    if f.Some? { ClockKeeps(c, g, b, [], i, Touch(c, i, f.value).shards[i]); }
  }

  lemma DelKeeps(c: Cache, g: Config, b: Bag, key: seq<byte>, now: int) returns (b': Bag)
    requires BagInv(c, g, b, [])
    ensures var o := Del(c, g.hash, key, now);
            BagInv(o.cache, g, b', []) && BagStep(b, OpDel(key, now), o, b')
  {
    LookupStored(c, g, b, [], key, now);
    var h := HashOf(g.hash, key);
    var i := ShardIdx(h);
    var f := Find(c.shards[i].table, c.mem, key, h, now);
    b' := b;
    if f.Some? {
      var q := KillKeeps(c, g, b, [], i, f.value);
      b' := b - multiset{q};
      assert Taken(b, key, now, Some(q));
    }
  }

  /** Every operation keeps the invariant and moves the bag, with no premise on the operation. */
  lemma StepMoves(c: Cache, g: Config, b: Bag, op: Op) returns (b': Bag)
    requires BagInv(c, g, b, []) && (g.small ==> SmallEnough(op))
    ensures var o := Apply(c, g.hash, op);
            BagInv(o.cache, g, b', []) && BagStep(b, op, o, b')
  {
    hide AllGood;
    hide OwnedOnce;
    hide Arena;
    hide Stores;
    hide ShardOk;
    hide BagStep;
    hide Set;
    hide Get;
    hide Del;
    hide Flush;
    match op
    case OpSet(key, val, ttl, env) =>
      b' := SetKeeps(c, g, b, key, val, ttl, env);
    case OpGet(key, now) =>
      b' := b;
      GetKeeps(c, g, b, key, now);
    case OpDel(key, now) =>
      b' := DelKeeps(c, g, b, key, now);
    case OpFlush =>
      b' := multiset{};
      FlushEmpties(c, g, b);
      FlushStep(b, op, Apply(c, g.hash, op));
  }

  lemma FlushStep(b: Bag, op: Op, o: Outcome)
    requires op.OpFlush? && o.reply == Done && o.evicted.None? && o.dropped.None?
    ensures BagStep(b, op, o, multiset{})
  {
  }

  // ---- the empty cache ----

  lemma {:induction false} ArenaListCount(cls: nat, n: nat, p: Ptr)
    ensures CountIn(ArenaList(cls, n), p) == if p.Block? && p.cls == cls && p.index < n then 1 else 0
  {
    if n > 0 {
      ArenaListCount(cls, n - 1, p);
      assert ArenaList(cls, n) == ArenaList(cls, n - 1) + [Block(cls, n - 1)];
    }
  }

  lemma {:induction false} CreateFreeCount(free: seq<seq<Ptr>>, p: Ptr)
    requires |free| <= CLASSES && forall k | 0 <= k < |free| :: free[k] == ArenaList(k, ArenaBlocks(k))
    ensures FreeCount(free, p) == if InArena(p) && p.cls < |free| then 1 else 0
  {
    if |free| > 0 {
      var n := |free| - 1;
      CreateFreeCount(free[..n], p);
      ArenaListCount(n, ArenaBlocks(n), p);
    }
  }

  lemma CreateArena(cap: nat, small: bool)
    requires cap > 0
    ensures Arena(Create(cap), small)
  {
    hide ArenaBlocks;
    var c := Create(cap);
    forall p: Ptr
      ensures FreeCount(c.free, p) + (if p in c.mem && p.Block? then 1 else 0) == if InArena(p) then 1 else 0
    {
      CreateFreeCount(c.free, p);
    }
  }

  lemma CreateBag(cap: nat, g: Config)
    requires PowerOfTwo(cap)
    ensures BagInv(Create(cap), g, multiset{}, [])
  {
    var c := Create(cap);
    CreateArena(cap, g.small);
    var t := c.shards[0].table;
    assert forall s | 0 <= s < cap :: t[s] == EmptySlot();
    NoneLive(t, One());
    forall i | 0 <= i < SHARDS ensures ShardOk(c.shards[i]) {
      assert c.shards[i] == c.shards[0];
      assert forall s | 0 <= s < cap :: ChainAt(t, s) && DistAt(t, s);
    }
    forall w: Weight ensures Total(c.shards, w) == 0 { DryTotal(c.shards, w); }
    forall p: Ptr ensures Refs(c, [], p) == if p in c.mem then 1 else 0 { }
    forall r: Record ensures Total(c.shards, RecordIs(c.mem, r)) == 0 { }
  }

  // ---- runs ----

  function Run(c: Cache, hf: HashFn, ops: seq<Op>): (d: Cache)
    requires Shape(c)
    ensures Shape(d)
    decreases |ops|
  {
    if ops == [] then c else Run(Apply(c, hf, ops[0]).cache, hf, ops[1..])
  }

  /** The bag moves from `b` to `b'` over the run, a step of `BagStep` for each operation. */
  ghost predicate BagRun(c: Cache, hf: HashFn, b: Bag, ops: seq<Op>, b': Bag)
    requires Shape(c)
    decreases |ops|
  {
    if ops == [] then b' == b
    else
      var o := Apply(c, hf, ops[0]);
      exists b1 :: BagStep(b, ops[0], o, b1) && BagRun(o.cache, hf, b1, ops[1..], b')
  }

  predicate AllSmall(ops: seq<Op>) { forall k | 0 <= k < |ops| :: SmallEnough(ops[k]) }

  lemma {:induction false} RunMoves(c: Cache, g: Config, b: Bag, ops: seq<Op>) returns (b': Bag)
    requires BagInv(c, g, b, []) && (g.small ==> AllSmall(ops))
    ensures BagInv(Run(c, g.hash, ops), g, b', []) && BagRun(c, g.hash, b, ops, b')
    decreases |ops|
  {
    hide AllGood;
    hide OwnedOnce;
    hide Arena;
    hide Stores;
    hide ShardOk;
    hide Apply;
    hide BagStep;
    b' := b;
    if ops != [] {
      var b1 := StepMoves(c, g, b, ops[0]);
      b' := RunMoves(Apply(c, g.hash, ops[0]).cache, g, b1, ops[1..]);
    }
  }

  /** Every run from an empty cache is a run of the bag, whatever the operations and clocks. */
  lemma EveryRunMovesABag(cap: nat, hf: HashFn, ops: seq<Op>) returns (b: Bag)
    requires PowerOfTwo(cap)
    ensures BagInv(Run(Create(cap), hf, ops), Config(hf, false), b, []) && BagRun(Create(cap), hf, multiset{}, ops, b)
  {
    hide BagInv;
    hide BagRun;
    hide Create;
    hide Run;
    CreateBag(cap, Config(hf, false));
    b := RunMoves(Create(cap), Config(hf, false), multiset{}, ops);
  }

  /**
   * Every table of every reachable cache: no EMPTY slot breaks a probe chain, every
   * stored 8-bit distance is the true one, no slot is left BUSY.
   */
  lemma EveryReachableTable(cap: nat, hf: HashFn, ops: seq<Op>, i: nat)
    requires PowerOfTwo(cap) && i < SHARDS
    ensures var t := Run(Create(cap), hf, ops).shards[i].table;
            Chain(t) && Distances(t) && forall s | 0 <= s < |t| :: !t[s].state.Busy?
  {
    hide Create;
    hide Run;
    hide BagRun;
    hide Stores;
    hide AllGood;
    hide OwnedOnce;
    hide Arena;
    var b := EveryRunMovesABag(cap, hf, ops);
    assert ShardOk(Run(Create(cap), hf, ops).shards[i]);
  }

  // ---- where values come from ----

  predicate NoFlush(ops: seq<Op>) { forall k | 0 <= k < |ops| :: !ops[k].OpFlush? }

  /** Operation `k` set record `r`, and no flush followed. */
  predicate SetAt(ops: seq<Op>, k: nat, r: Record) {
    k < |ops| && ops[k].OpSet? && RecordSet(ops[k]) == r && NoFlush(ops[k + 1..])
  }

  lemma StepFrom(b: Bag, op: Op, o: Outcome, b': Bag, r: Record)
    requires BagStep(b, op, o, b') && r in b'
    ensures (r in b && !op.OpFlush?) || (op.OpSet? && r == RecordSet(op))
  {
    if op.OpSet? && o.reply == Done {
      var was, ev, dr :| SetMoves(b, RecordSet(op), op.env.now, o, b', was, ev, dr);
    }
  }

  lemma FirstBag(c: Cache, hf: HashFn, b: Bag, ops: seq<Op>, b': Bag) returns (b1: Bag)
    requires Shape(c) && BagRun(c, hf, b, ops, b') && ops != []
    ensures var o := Apply(c, hf, ops[0]);
            BagStep(b, ops[0], o, b1) && BagRun(o.cache, hf, b1, ops[1..], b')
  {
    hide Apply;
    hide BagStep;
    var o := Apply(c, hf, ops[0]);
    b1 :| BagStep(b, ops[0], o, b1) && BagRun(o.cache, hf, b1, ops[1..], b');
  }

  /** Every record in the bag was there from the start or was set by some operation, unflushed since. */
  lemma {:induction false} RecordsFrom(c: Cache, hf: HashFn, b: Bag, ops: seq<Op>, b': Bag, r: Record) returns (k: nat)
    requires Shape(c) && BagRun(c, hf, b, ops, b') && r in b'
    ensures (r in b && NoFlush(ops)) || SetAt(ops, k, r)
    decreases |ops|
  {
    hide Apply;
    hide BagStep;
    k := 0;
    if ops == [] {
      assert b' == b;
    } else {
      var b1 := FirstBag(c, hf, b, ops, b');
      hide BagRun;
      var j := RecordsFrom(Apply(c, hf, ops[0]).cache, hf, b1, ops[1..], b', r);
      if SetAt(ops[1..], j, r) {
        k := j + 1;
        assert ops[k + 1..] == ops[1..][j + 1..];
      } else {
        StepFrom(b, ops[0], Apply(c, hf, ops[0]), b1, r);
      }
    }
  }

  /**
   * No lookup makes a value up: after every run, a get that answers gives the value of
   * some set of that key in the run, not flushed since and not expired.
   */
  lemma EveryGetWasSet(cap: nat, hf: HashFn, ops: seq<Op>, key: seq<byte>, now: int)
    requires PowerOfTwo(cap)
    ensures var reply := Get(Run(Create(cap), hf, ops), hf, key, now).reply;
            reply == NotFound ||
            exists k: nat, e: int :: reply.Value? && SetAt(ops, k, Record(key, reply.bytes, e)) && !Expired(e, now)
  {
    hide Create;
    hide Run;
    hide BagRun;
    hide BagInv;
    hide Get;
    var b := EveryRunMovesABag(cap, hf, ops);
    var c := Run(Create(cap), hf, ops);
    GetKeeps(c, Config(hf, false), b, key, now);
    var reply := Get(c, hf, key, now).reply;
    if reply != NotFound {
      var r :| r in b && r.key == key && r.val == reply.bytes && !Expired(r.expireNs, now);
      var k := RecordsFrom(Create(cap), hf, multiset{}, ops, b, r);
      assert SetAt(ops, k, Record(key, reply.bytes, r.expireNs));
    }
  }
}
