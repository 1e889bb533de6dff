/**
 * Every run of sets, gets, deletes and flushes behaves like a map with evictions, as
 * long as no set hits a key that is still stored but expired.
 */
module CacheRuns {
  import opened Bytes
  import opened Entries
  import opened Table
  import opened Cache
  import opened CacheInvariant
  import opened CacheStore
  import opened CacheBags

  // ---- lookup against the reference map ----

  predicate Present(m: Ref, key: seq<byte>, now: int) {
    key in m && (m[key].expireNs == 0 || now <= m[key].expireNs)
  }

  lemma HitRecord(c: Cache, g: Config, m: Ref, i: nat, s: nat)
    requires AllGood(c, g, []) && Agrees(c, m)
    requires i < |c.shards| && s < |c.shards[i].table| && c.shards[i].table[s].state.Live?
    ensures var e := c.shards[i].table[s].item;
            && RecordOf(e, c.mem).Some?
            && InRef(m, RecordOf(e, c.mem).value) == 1
            && Sum(c.shards[i].table, RecordIs(c.mem, RecordOf(e, c.mem).value)) <= 1
            && HashOf(g.hash, RecordOf(e, c.mem).value.key) == e.keyHash
            && |RecordOf(e, c.mem).value.key| == e.keyLen
  {
    LiveRecord(c, g, BagOf(m), [], i, s);
  }

  /** Each key has at most one LIVE slot. */
  lemma OneSlotPerKey(c: Cache, g: Config, m: Ref, i: nat, key: seq<byte>, h: nat)
    requires AllGood(c, g, []) && Agrees(c, m) && i < |c.shards|
    ensures AtMostOne(c.shards[i].table, c.mem, key, h)
  {
    hide Good;
    var t := c.shards[i].table;
    forall a, b | 0 <= a < |t| && 0 <= b < |t| && Hit(t, c.mem, key, h, a) && Hit(t, c.mem, key, h, b)
      ensures a == b
    {
      HitRecord(c, g, m, i, a);
      HitRecord(c, g, m, i, b);
      var q := RecordOf(t[a].item, c.mem).value;
      if a != b { SumHasTwo(t, RecordIs(c.mem, q), a, b); }
    }
  }

  lemma PresentHasSlot(c: Cache, g: Config, m: Ref, key: seq<byte>) returns (s: nat)
    requires AllGood(c, g, []) && Agrees(c, m) && |c.shards| == SHARDS && key in m
    ensures var h := HashOf(g.hash, key);
            s < |c.shards[ShardIdx(h)].table| && Hit(c.shards[ShardIdx(h)].table, c.mem, key, h, s)
  {
    var q := Record(key, m[key].val, m[key].expireNs);
    assert BagOf(m)[q] == InRef(m, q);
    s := StoredHasSlot(c, g, BagOf(m), [], q);
  }

  /** `_shard_find` answers exactly as the reference map does. */
  lemma LookupExact(c: Cache, g: Config, m: Ref, held: seq<Item>, key: seq<byte>, now: int)
    requires Inv(c, g, m, held)
    ensures var h := HashOf(g.hash, key);
            var f := Find(c.shards[ShardIdx(h)].table, c.mem, key, h, now);
            && (f.Some? <==> Present(m, key, now))
            && (f.Some? ==> RecordOf(c.shards[ShardIdx(h)].table[f.value].item, c.mem) == Some(Record(key, m[key].val, m[key].expireNs)))
  {
    hide Good;
    hide Arena;
    hide OwnedOnce;
    var h := HashOf(g.hash, key);
    var i := ShardIdx(h);
    var t := c.shards[i].table;
    assert ShardOk(c.shards[i]);
    OneSlotPerKey(c, g, m, i, key, h);
    FindExact(t, c.mem, key, h, now);
    var f := Find(t, c.mem, key, h, now);
    if f.Some? { HitRecord(c, g, m, i, f.value); }
    if Present(m, key, now) {
      var s := PresentHasSlot(c, g, m, key);
      HitRecord(c, g, m, i, s);
    }
  }

  // ---- one operation ----

  function Without(m: Ref, key: Option<seq<byte>>): Ref {
    if key.Some? then m - {key.value} else m
  }

  /** At most 65535 bytes of the value, and its life in seconds; a TTL of 0 is no limit. */
  function SetTo(val: seq<byte>, ttl: nat, now: int): Cached {
    Cached(if |val| <= 65535 then val else val[..65535], if ttl == 0 then 0 else now + ttl * 1_000_000_000)
  }

  /** What the operation means for a map: a set may cost the keys it reports as pushed out. */
  function RefApply(m: Ref, op: Op, o: Outcome): Ref {
    match op
    case OpSet(key, val, ttl, env) =>
      if o.reply != Done then m
      else Without(Without(m, o.evicted)[key := SetTo(val, ttl, env.now)], o.dropped)
    case OpGet(_, _) => m
    case OpDel(key, _) => if o.reply == Done then m - {key} else m
    case OpFlush => map[]
  }

  /** The key being set is not in the cache already expired. */
  predicate NotStale(m: Ref, op: Op) {
    op.OpSet? && op.key in m ==> m[op.key].expireNs == 0 || op.env.now <= m[op.key].expireNs
  }

  predicate ReplyFits(m: Ref, op: Op, o: Outcome) {
    match op
    case OpSet(key, val, _, _) =>
      && (o.reply == Invalid <==> |key| == 0 || |key| >= 0x1_0000_0000 || |val| == 0)
      && o.reply in {Done, Invalid, OutOfMemory}
      && (o.evicted.Some? ==> o.evicted.value in m && o.evicted.value != key)
      && (o.dropped.Some? ==> o.dropped.value == key || o.dropped.value in m)
      && (o.reply != Done ==> o.evicted.None? && o.dropped.None?)
    case OpGet(key, now) => o.reply == if Present(m, key, now) then Value(m[key].val) else NotFound
    case OpDel(key, now) => o.reply == if Present(m, key, now) then Done else NotFound
    case OpFlush => o.reply == Done
  }

  lemma InBag(m: Ref, r: Record)
    requires r in BagOf(m)
    ensures r.key in m && m[r.key] == Cached(r.val, r.expireNs)
  {
    assert BagOf(m)[r] == InRef(m, r);
  }

  lemma KeyInBag(m: Ref, key: seq<byte>)
    requires key in m
    ensures Record(key, m[key].val, m[key].expireNs) in BagOf(m)
  {
    assert BagOf(m)[Record(key, m[key].val, m[key].expireNs)] == 1;
  }

  /** In a map a lookup misses exactly when the key is absent or expired. */
  lemma MissesIff(m: Ref, key: seq<byte>, now: int)
    ensures Misses(BagOf(m), key, now) <==> !Present(m, key, now)
  {
    if key in m { KeyInBag(m, key); }
    forall r | r in BagOf(m) ensures r.key in m && m[r.key] == Cached(r.val, r.expireNs) { InBag(m, r); }
  }

  /** A bag that is a map, less what a lookup takes, is the map less the key. */
  lemma TakenIsMap(m: Ref, key: seq<byte>, now: int, was: Option<Record>)
    requires Taken(BagOf(m), key, now, was) && (key in m ==> !Expired(m[key].expireNs, now))
    ensures BagOf(m) - Bagged(was) == BagOf(m - {key})
  {
    if was.Some? {
      TakeFromMap(m, was.value);
    } else {
      MissesIff(m, key, now);
      assert m - {key} == m;
    }
  }

  lemma LostIsMap(m: Ref, r: Option<Record>)
    requires Bagged(r) <= BagOf(m)
    ensures BagOf(m) - Bagged(r) == BagOf(Without(m, KeyOf(r))) && (r.Some? ==> r.value.key in m)
  {
    if r.Some? {
      assert r.value in BagOf(m);
      TakeFromMap(m, r.value);
    }
  }

  /** A set moves the bag of a map to the bag of the updated map. */
  lemma SetIsMap(m: Ref, q: Record, now: int, o: Outcome, b': Bag,
                 was: Option<Record>, ev: Option<Record>, dr: Option<Record>)
    requires SetMoves(BagOf(m), q, now, o, b', was, ev, dr) && (q.key in m ==> !Expired(m[q.key].expireNs, now))
    ensures b' == BagOf(Without(Without(m, o.evicted)[q.key := Cached(q.val, q.expireNs)], o.dropped))
    ensures o.evicted.Some? ==> o.evicted.value in m && o.evicted.value != q.key
    ensures o.dropped.Some? ==> o.dropped.value == q.key || o.dropped.value in m
  {
    hide BagOf;
    hide Bagged;
    hide Taken;
    hide Without;
    TakenIsMap(m, q.key, now, was);
    var m1 := m - {q.key};
    LostIsMap(m1, ev);
    var m2 := Without(m1, KeyOf(ev));
    MapWithout(m, q.key, KeyOf(ev), Cached(q.val, q.expireNs));
    AddToMap(m2, q);
    LostIsMap(m2[q.key := Cached(q.val, q.expireNs)], dr);
  }

  lemma MapWithout(m: Ref, key: seq<byte>, k: Option<seq<byte>>, v: Cached)
    ensures var m2 := Without(m - {key}, k);
            && key !in m2 && m2[key := v] == Without(m, k)[key := v]
            && forall x | x in m2 :: x in m
  {
  }

  lemma MapSet(m: Ref, op: Op, o: Outcome, b': Bag)
    requires op.OpSet? && BagStep(BagOf(m), op, o, b') && NotStale(m, op)
    ensures b' == BagOf(RefApply(m, op, o)) && ReplyFits(m, op, o)
  {
    hide BagOf;
    hide SetMoves;
    if o.reply == Done {
      var was, ev, dr :| SetMoves(BagOf(m), RecordSet(op), op.env.now, o, b', was, ev, dr);
      SetIsMap(m, RecordSet(op), op.env.now, o, b', was, ev, dr);
    }
  }

  lemma MapGet(m: Ref, op: Op, o: Outcome, b': Bag)
    requires op.OpGet? && BagStep(BagOf(m), op, o, b')
    ensures b' == BagOf(m) && ReplyFits(m, op, o)
  {
    hide BagOf;
    MissesIff(m, op.key, op.now);
    hide Misses;
    if o.reply.Value? {
      var r :| r in BagOf(m) && r.key == op.key && r.val == o.reply.bytes && !Expired(r.expireNs, op.now);
      InBag(m, r);
    }
  }

  lemma MapDel(m: Ref, op: Op, o: Outcome, b': Bag)
    requires op.OpDel? && BagStep(BagOf(m), op, o, b')
    ensures b' == BagOf(RefApply(m, op, o)) && ReplyFits(m, op, o)
  {
    hide BagOf;
    MissesIff(m, op.key, op.now);
    hide Misses;
    if o.reply == Done {
      var r :| Taken(BagOf(m), op.key, op.now, Some(r)) && b' == BagOf(m) - multiset{r};
      InBag(m, r);
      TakenIsMap(m, op.key, op.now, Some(r));
    }
  }

  /** On a bag that is a map, every step of the bag is the map operation. */
  lemma MapStep(m: Ref, op: Op, o: Outcome, b': Bag)
    requires BagStep(BagOf(m), op, o, b') && NotStale(m, op)
    ensures b' == BagOf(RefApply(m, op, o)) && ReplyFits(m, op, o)
  {
    if op.OpFlush? {
      EmptyMap();
    } else {
      hide BagStep;
      hide BagOf;
      hide ReplyFits;
      if op.OpSet? { MapSet(m, op, o, b'); } else if op.OpGet? { MapGet(m, op, o, b'); } else { MapDel(m, op, o, b'); }
    }
  }

  lemma EmptyMap()
    ensures BagOf(map[]) == multiset{}
  {
    var b := BagOf(map[]);
    assert forall r: Record :: b[r] == 0;
  }

  lemma RemoveOldMaps(c: Cache, g: Config, m: Ref, key: seq<byte>, now: int, e: Item) returns (m': Ref)
    requires Inv(c, g, m, [e])
    ensures var h := HashOf(g.hash, key);
            Inv(RemoveOld(c, ShardIdx(h), key, h, now), g, m', [e])
    ensures m' == m - {key} || (m' == m && key in m && Expired(m[key].expireNs, now))
  {
    assert Shape(c);
    hide BagInv;
    hide BagOf;
    hide Taken;
    var was := RemoveOldMoves(c, g, BagOf(m), key, now, e);
    if key in m && Expired(m[key].expireNs, now) {
      StaleNotTaken(m, key, now, was);
      m' := m;
    } else {
      TakenIsMap(m, key, now, was);
      m' := m - {key};
    }
  }

  lemma StaleNotTaken(m: Ref, key: seq<byte>, now: int, was: Option<Record>)
    requires Taken(BagOf(m), key, now, was) && key in m && Expired(m[key].expireNs, now)
    ensures BagOf(m) - Bagged(was) == BagOf(m)
  {
    if was.Some? { InBag(m, was.value); }
  }

  /** A set adds its pair to the map and removes exactly the keys it reports. */
  lemma SetRefines(c: Cache, g: Config, m: Ref, key: seq<byte>, val: seq<byte>, ttl: nat, env: Env)
    requires Inv(c, g, m, []) && (g.small ==> |val| <= 65536)
    requires key in m ==> !Expired(m[key].expireNs, env.now)
    ensures var op := OpSet(key, val, ttl, env);
            var o := Set(c, g.hash, key, val, ttl, env);
            Inv(o.cache, g, RefApply(m, op, o), []) && ReplyFits(m, op, o)
  {
    assert Shape(c);
    hide BagInv;
    hide BagStep;
    var b' := SetKeeps(c, g, BagOf(m), key, val, ttl, env);
    MapStep(m, OpSet(key, val, ttl, env), Set(c, g.hash, key, val, ttl, env), b');
  }

  lemma GetRefines(c: Cache, g: Config, m: Ref, key: seq<byte>, now: int)
    requires Inv(c, g, m, [])
    ensures var o := Get(c, g.hash, key, now);
            Inv(o.cache, g, m, []) && ReplyFits(m, OpGet(key, now), o)
  {
    assert Shape(c);
    hide BagInv;
    hide BagStep;
    GetKeeps(c, g, BagOf(m), key, now);
    MapStep(m, OpGet(key, now), Get(c, g.hash, key, now), BagOf(m));
  }

  lemma DelRefines(c: Cache, g: Config, m: Ref, key: seq<byte>, now: int)
    requires Inv(c, g, m, [])
    ensures var op := OpDel(key, now);
            var o := Del(c, g.hash, key, now);
            Inv(o.cache, g, RefApply(m, op, o), []) && ReplyFits(m, op, o)
  {
    assert Shape(c);
    hide BagInv;
    hide BagStep;
    var b' := DelKeeps(c, g, BagOf(m), key, now);
    MapStep(m, OpDel(key, now), Del(c, g.hash, key, now), b');
  }

  /** Every operation refines the map operation it stands for and keeps the invariant. */
  lemma StepRefines(c: Cache, g: Config, m: Ref, op: Op)
    requires Inv(c, g, m, []) && NotStale(m, op) && (g.small ==> SmallEnough(op))
    ensures var o := Apply(c, g.hash, op);
            Inv(o.cache, g, RefApply(m, op, o), []) && ReplyFits(m, op, o)
  {
    assert Shape(c);
    hide BagInv;
    hide BagStep;
    var b' := StepMoves(c, g, BagOf(m), op);
    MapStep(m, op, Apply(c, g.hash, op), b');
  }

  lemma CreateInv(cap: nat, g: Config)
    requires PowerOfTwo(cap)
    ensures Inv(Create(cap), g, map[], [])
  {
    hide BagInv;
    hide Create;
    CreateBag(cap, g);
    EmptyMap();
  }

  // ---- runs ----

  /** The reference map alongside the run; it looks at the cache only for the keys sets push out. */
  function RefRun(c: Cache, hf: HashFn, m: Ref, ops: seq<Op>): Ref
    requires Shape(c)
    decreases |ops|
  {
    if ops == [] then m
    else
      var o := Apply(c, hf, ops[0]);
      RefRun(o.cache, hf, RefApply(m, ops[0], o), ops[1..])
  }

  /** No set in the run hits a key that is still stored but expired. */
  predicate NeverStale(c: Cache, hf: HashFn, m: Ref, ops: seq<Op>)
    requires Shape(c)
    decreases |ops|
  {
    ops == [] ||
    var o := Apply(c, hf, ops[0]);
    NotStale(m, ops[0]) && NeverStale(o.cache, hf, RefApply(m, ops[0], o), ops[1..])
  }

  lemma {:induction false} RunKeeps(c: Cache, g: Config, m: Ref, ops: seq<Op>)
    requires Inv(c, g, m, []) && NeverStale(c, g.hash, m, ops)
    requires g.small ==> AllSmall(ops)
    ensures Inv(Run(c, g.hash, ops), g, RefRun(c, g.hash, m, ops), [])
    decreases |ops|
  {
    hide AllGood;
    hide OwnedOnce;
    hide Arena;
    hide Stores;
    hide ShardOk;
    hide Apply;
    hide RefApply;
    if ops != [] {
      StepRefines(c, g, m, ops[0]);
      var o := Apply(c, g.hash, ops[0]);
      RunKeeps(o.cache, g, RefApply(m, ops[0], o), ops[1..]);
    }
  }

  /**
   * Map refinement: after any run from an empty cache, a lookup returns the value
   * last set and not since deleted, evicted, pushed out or flushed.
   */
  lemma RunsRefineMap(cap: nat, hf: HashFn, ops: seq<Op>, key: seq<byte>, now: int)
    requires PowerOfTwo(cap) && NeverStale(Create(cap), hf, map[], ops)
    ensures var c := Run(Create(cap), hf, ops);
            var m := RefRun(Create(cap), hf, map[], ops);
            && Get(c, hf, key, now).reply == (if Present(m, key, now) then Value(m[key].val) else NotFound)
            && Del(c, hf, key, now).reply == (if Present(m, key, now) then Done else NotFound)
  {
    var g := Config(hf, false);
    CreateInv(cap, g);
    RunKeeps(Create(cap), g, map[], ops);
    var c := Run(Create(cap), hf, ops);
    var m := RefRun(Create(cap), hf, map[], ops);
    GetRefines(c, g, m, key, now);
    DelRefines(c, g, m, key, now);
  }
}
