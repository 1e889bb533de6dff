/**
 * Whether a set can be read back.  Two things can hide it.  `_shard_find` stops at an
 * expired entry of the key and reports a miss, so that entry stays, and the new one is
 * visible only if it lands earlier in the probe sequence.  And in a full table the new
 * entry itself may be the one insertion gives up on.
 */
module StaleSets {
  import opened Bytes
  import opened Entries
  import opened Table
  import opened Cache
  import opened CacheInvariant
  import opened CacheSteps
  import opened CacheStore
  import opened CacheBags
  import opened CacheRuns
  import opened CacheLaws
  import opened PushOuts

  /** Slot `x`, `j` steps from home, gives way to an entry still carried from home. */
  predicate Yields(x: Slot, j: nat) {
    Vacant(x) || (x.state.Live? && x.dist < j % 256)
  }

  /** Insertion never revisits a slot. */
  lemma {:induction false} PlaceVisited(t: seq<Slot>, e: Item, dist: nat, h: nat, i: nat)
    requires h < |t| && i <= |t|
    ensures forall j | 0 <= j < i :: Place(t, e, dist, At(h, i, |t|), i).0[At(h, j, |t|)] == t[At(h, j, |t|)]
    decreases |t| - i
  {
    if i < |t| {
      var s := At(h, i, |t|);
      assert Next(s, |t|) == At(h, i + 1, |t|);
      assert forall j | 0 <= j < i :: At(h, j, |t|) != s;
      if !Vacant(t[s]) {
        if t[s].state.Live? && t[s].dist < dist {
          PlaceVisited(t[s := Filled(e, dist)], t[s].item, (t[s].dist + 1) % 256, h, i + 1);
        } else {
          PlaceVisited(t, e, (dist + 1) % 256, h, i + 1);
        }
      }
    }
  }

  lemma {:induction false} PlaceWaits(t: seq<Slot>, e: Item, h: nat, i: nat, k: nat)
    requires h < |t| && i <= k <= |t|
    requires forall j | i <= j < k :: !Yields(t[At(h, j, |t|)], j)
    ensures Place(t, e, i % 256, At(h, i, |t|), i) == Place(t, e, k % 256, At(h, k, |t|), k)
    decreases k - i
  {
    if i < k {
      assert !Yields(t[At(h, i, |t|)], i);
      assert Next(At(h, i, |t|), |t|) == At(h, i + 1, |t|);
      assert (i % 256 + 1) % 256 == (i + 1) % 256;
      PlaceWaits(t, e, h, i + 1, k);
    }
  }

  /** The entry lands on the first slot that yields to it, and nothing before that slot changes. */
  lemma LandsOnFirst(t: seq<Slot>, e: Item, k: nat)
    requires |t| > 0 && k < |t|
    requires var h := Home(e.keyHash, |t|);
             Yields(t[At(h, k, |t|)], k) && forall j | 0 <= j < k :: !Yields(t[At(h, j, |t|)], j)
    ensures var h := Home(e.keyHash, |t|);
            var u := Insert(t, e).0;
            && u[At(h, k, |t|)] == Filled(e, k % 256)
            && forall j | 0 <= j < k :: u[At(h, j, |t|)] == t[At(h, j, |t|)]
  {
    var h := Home(e.keyHash, |t|);
    var s := At(h, k, |t|);
    PlaceWaits(t, e, h, 0, k);
    PlaceVisited(t, e, k % 256, h, k);
    if !Vacant(t[s]) {
      assert Next(s, |t|) == At(h, k + 1, |t|);
      PlaceVisited(t[s := Filled(e, k % 256)], t[s].item, (t[s].dist + 1) % 256, h, k + 1);
    }
  }

  lemma {:induction false} FirstYield(t: seq<Slot>, h: nat, j: nat) returns (k: nat)
    requires h < |t| && j < |t| && Yields(t[At(h, j, |t|)], j)
    ensures k <= j && Yields(t[At(h, k, |t|)], k) && forall i | 0 <= i < k :: !Yields(t[At(h, i, |t|)], i)
  {
    if i :| 0 <= i < j && Yields(t[At(h, i, |t|)], i) {
      k := FirstYield(t, h, i);
    } else {
      k := j;
    }
  }

  /** No entry of the key lies within `k` steps of its home. */
  predicate ClearTo(t: seq<Slot>, mem: Memory, key: seq<byte>, hash: nat, k: nat)
    requires k <= |t|
  {
    forall j | 0 <= j < k :: !Hit(t, mem, key, hash, At(Home(hash, |t|), j, |t|))
  }

  predicate LandsAt(t: seq<Slot>, mem: Memory, key: seq<byte>, hash: nat, k: nat) {
    k < |t| && Yields(t[At(Home(hash, |t|), k, |t|)], k) && ClearTo(t, mem, key, hash, k)
  }

  /** Some slot gives way to the new entry before the probe sequence meets an old one of its key. */
  predicate Lands(t: seq<Slot>, mem: Memory, key: seq<byte>, hash: nat) {
    exists k: nat | k < |t| :: LandsAt(t, mem, key, hash, k)
  }

  lemma InsertLands(t: seq<Slot>, mem: Memory, key: seq<byte>, hash: nat, now: int, e: Item)
    requires |t| > 0 && Chain(t) && Matches(e, mem, key, hash) && Lands(t, mem, key, hash)
    ensures var u := Insert(t, e).0;
            exists s | 0 <= s < |u| :: u[s].item == e
              && Find(u, mem, key, hash, now) == if Expired(e.expireNs, now) then None else Some(s)
  {
    var h := Home(hash, |t|);
    var u := Insert(t, e).0;
    InsertKeepsChain(t, e);
    var j: nat :| j < |t| && LandsAt(t, mem, key, hash, j);
    var k := FirstYield(t, h, j);
    LandsOnFirst(t, e, k);
    var s := At(h, k, |t|);
    assert forall i | 0 <= i < k :: u[At(h, i, |t|)] == t[At(h, i, |t|)];
    assert Hit(u, mem, key, hash, s);
    assert forall i | 0 <= i < k :: Hit(u, mem, key, hash, At(h, i, |t|)) == Hit(t, mem, key, hash, At(h, i, |t|));
    hide Matches;
    hide Insert;
    hide Chain;
    FindFirst(u, mem, key, hash, now, s, 0);
    assert u[s].item == e;
  }

  lemma NothingYields(t: seq<Slot>, mem: Memory, key: seq<byte>, hash: nat, k: nat)
    requires k <= |t| && !Lands(t, mem, key, hash) && (k > 0 ==> ClearTo(t, mem, key, hash, k - 1))
    ensures forall j | 0 <= j < k :: !Yields(t[At(Home(hash, |t|), j, |t|)], j)
  {
    forall j | 0 <= j < k ensures !Yields(t[At(Home(hash, |t|), j, |t|)], j) {
      assert !LandsAt(t, mem, key, hash, j);
    }
  }

  lemma InsertHidden(t: seq<Slot>, mem: Memory, key: seq<byte>, hash: nat, now: int, e: Item)
    requires |t| > 0 && Chain(t) && e.keyHash == hash && !Lands(t, mem, key, hash)
    ensures Find(Insert(t, e).0, mem, key, hash, now) == Find(t, mem, key, hash, now)
  {
    var h := Home(hash, |t|);
    if x :| 0 <= x < |t| && Hit(t, mem, key, hash, x) {
      var s := FirstHit(t, mem, key, hash, x);
      InsertBehind(t, mem, key, hash, now, s, e);
    } else {
      NothingYields(t, mem, key, hash, |t|);
      PlaceWaits(t, e, h, 0, |t|);
    }
  }

  /** Behind the first entry of its key the new one changes no lookup. */
  lemma InsertBehind(t: seq<Slot>, mem: Memory, key: seq<byte>, hash: nat, now: int, s: nat, e: Item)
    requires s < |t| && Chain(t) && Hit(t, mem, key, hash, s) && e.keyHash == hash && !Lands(t, mem, key, hash)
    requires ClearTo(t, mem, key, hash, Dist(Home(hash, |t|), s, |t|))
    ensures Find(Insert(t, e).0, mem, key, hash, now) == Find(t, mem, key, hash, now)
  {
    var h := Home(hash, |t|);
    var d := Dist(h, s, |t|);
    var u := Insert(t, e).0;
    InsertKeepsChain(t, e);
    NothingYields(t, mem, key, hash, d + 1);
    PlaceWaits(t, e, h, 0, d + 1);
    PlaceVisited(t, e, (d + 1) % 256, h, d + 1);
    assert forall j | 0 <= j <= d :: u[At(h, j, |t|)] == t[At(h, j, |t|)];
    assert u[s] == t[s];
    assert forall j | 0 <= j < d :: Hit(u, mem, key, hash, At(h, j, |t|)) == Hit(t, mem, key, hash, At(h, j, |t|));
    hide Matches;
    hide Insert;
    hide Chain;
    hide Place;
    FindFirst(t, mem, key, hash, now, s, 0);
    FindFirst(u, mem, key, hash, now, s, 0);
  }

  /**
   * What lookup gives after an insertion, whatever the table holds: the new entry if it
   * lands before every old one of its key, and otherwise what lookup gave before.
   */
  lemma InsertReads(t: seq<Slot>, mem: Memory, key: seq<byte>, hash: nat, now: int, e: Item)
    requires |t| > 0 && Chain(t) && Matches(e, mem, key, hash)
    ensures var u := Insert(t, e).0;
            var f := Find(u, mem, key, hash, now);
            if Lands(t, mem, key, hash) then if Expired(e.expireNs, now) then f.None? else f.Some? && u[f.value].item == e
            else f == Find(t, mem, key, hash, now)
  {
    hide Insert;
    hide Find;
    if Lands(t, mem, key, hash) {
      InsertLands(t, mem, key, hash, now, e);
    } else {
      InsertHidden(t, mem, key, hash, now, e);
    }
  }

  // ---- entries that removal and eviction take out ----

  /** `u` is `t` with some LIVE entries dead; the others keep their items and their keys. */
  predicate Thinned(t: seq<Slot>, mem: Memory, u: seq<Slot>, mem': Memory) {
    && |u| == |t|
    && forall s | 0 <= s < |t| ::
         if u[s].state.Live? then t[s].state.Live? && u[s].item == t[s].item && KeyBytes(t[s].item, mem') == KeyBytes(t[s].item, mem)
         else u[s].state == t[s].state || (t[s].state.Live? && u[s].state.Dead?)
  }

  lemma ThinnedTwice(t: seq<Slot>, mem: Memory, u: seq<Slot>, mem': Memory, v: seq<Slot>, mem'': Memory)
    requires Thinned(t, mem, u, mem') && Thinned(u, mem', v, mem'')
    ensures Thinned(t, mem, v, mem'')
  {
    hide KeyBytes;
  }

  lemma ThinnedHits(t: seq<Slot>, mem: Memory, u: seq<Slot>, mem': Memory, key: seq<byte>, hash: nat, s: nat)
    requires Thinned(t, mem, u, mem') && s < |t|
    ensures Hit(u, mem', key, hash, s) ==> Hit(t, mem, key, hash, s)
    ensures Hit(t, mem, key, hash, s) && !Hit(u, mem', key, hash, s) ==> Vacant(u[s])
  {
    hide KeyBytes;
  }

  /** If lookup missed before entries died, and the new entry will not land, lookup misses still. */
  lemma ThinnedMisses(t: seq<Slot>, mem: Memory, u: seq<Slot>, mem': Memory, key: seq<byte>, hash: nat, now: int)
    requires |t| > 0 && Chain(t) && Chain(u) && Thinned(t, mem, u, mem')
    requires Find(t, mem, key, hash, now).None? && !Lands(u, mem', key, hash)
    ensures Find(u, mem', key, hash, now).None?
  {
    var h := Home(hash, |t|);
    if x :| 0 <= x < |u| && Hit(u, mem', key, hash, x) {
      var s := FirstHit(u, mem', key, hash, x);
      var d := Dist(h, s, |t|);
      forall j | 0 <= j < d ensures !Hit(t, mem, key, hash, At(h, j, |t|)) {
        ThinnedHits(t, mem, u, mem', key, hash, At(h, j, |t|));
        assert !LandsAt(u, mem', key, hash, j);
      }
      ThinnedHits(t, mem, u, mem', key, hash, s);
      assert t[s].item == u[s].item;
      hide Hit;
      hide Chain;
      hide Lands;
      FindFirst(t, mem, key, hash, now, s, 0);
      FindFirst(u, mem', key, hash, now, s, 0);
    } else {
      FindNone(u, mem', key, hash, now, 0);
    }
  }

  /** The slot lookup returns is the first of the key. */
  lemma FoundIsFirst(t: seq<Slot>, mem: Memory, key: seq<byte>, hash: nat, now: int, f: nat)
    requires |t| > 0 && Chain(t) && Find(t, mem, key, hash, now) == Some(f)
    ensures f < |t| && ClearTo(t, mem, key, hash, Dist(Home(hash, |t|), f, |t|))
  {
    var k := FirstHit(t, mem, key, hash, f);
    FindFirst(t, mem, key, hash, now, k, 0);
  }

  /** Where the entry lookup returned has died, a new entry lands. */
  lemma FoundLands(t: seq<Slot>, mem: Memory, u: seq<Slot>, mem': Memory, key: seq<byte>, hash: nat, now: int, f: nat)
    requires |t| > 0 && Chain(t) && Find(t, mem, key, hash, now) == Some(f)
    requires Thinned(t, mem, u, mem') && Vacant(u[f])
    ensures Lands(u, mem', key, hash)
  {
    var h := Home(hash, |t|);
    FoundIsFirst(t, mem, key, hash, now, f);
    var d := Dist(h, f, |t|);
    forall j | 0 <= j < d ensures !Hit(u, mem', key, hash, At(h, j, |t|)) {
      ThinnedHits(t, mem, u, mem', key, hash, At(h, j, |t|));
    }
    assert LandsAt(u, mem', key, hash, d);
  }

  lemma KillThins(c: Cache, g: Config, b: Bag, e: Item, i: nat, s: nat)
    requires BagInv(c, g, b, [e]) && i < SHARDS && s < |c.shards[i].table| && c.shards[i].table[s].state.Live?
    ensures var d := Kill(c, i, s);
            Thinned(c.shards[i].table, c.mem, d.shards[i].table, d.mem) && Vacant(d.shards[i].table[s])
  {
    var t := c.shards[i].table;
    var d := Kill(c, i, s);
    hide AllGood;
    hide OwnedOnce;
    hide Arena;
    hide Stores;
    hide ShardOk;
    hide Release;
    hide RecordOf;
    hide KeyBytes;
    forall k | 0 <= k < |t| && k != s && t[k].state.Live? ensures KeyBytes(t[k].item, d.mem) == KeyBytes(t[k].item, c.mem) {
      KillSpares(c, g, b, [e], i, s, i, k);
      KeyFromRecord(c, g, [e], i, k, d.mem);
    }
  }

  lemma KeyFromRecord(c: Cache, g: Config, held: seq<Item>, i: nat, s: nat, mem: Memory)
    requires AllGood(c, g, held) && i < |c.shards| && s < |c.shards[i].table| && c.shards[i].table[s].state.Live?
    requires RecordOf(c.shards[i].table[s].item, mem) == RecordOf(c.shards[i].table[s].item, c.mem)
    ensures KeyBytes(c.shards[i].table[s].item, mem) == KeyBytes(c.shards[i].table[s].item, c.mem)
  {
    assert SlotGood(c, g, i, s);
  }

  /** The other entries keep their keys when a swept victim is freed. */
  lemma VictimThins(c: Cache, g: Config, b: Bag, e: Item, i: nat, u: seq<Slot>, v: nat)
    requires BagInv(c, g, b, [e]) && i < SHARDS
    requires Evict(c.shards[i].table, c.shards[i].hand) == (u, Some(v))
    ensures var t := c.shards[i].table;
            var d := EvictIfFull(c, i).0;
            OverThreshold(c.shards[i].count, |t|) ==> Thinned(t, c.mem, d.shards[i].table, d.mem)
  {
    var sh := c.shards[i];
    var t := sh.table;
    SweepShardOk(sh, u, v);
    EvictExact(t, sh.hand);
    hide AllGood;
    hide OwnedOnce;
    hide Arena;
    hide Stores;
    hide ShardOk;
    hide Release;
    hide RecordOf;
    hide KeyBytes;
    hide Evict;
    var sh' := sh.(table := u, count := U32(sh.count - 1), hand := v);
    var c' := c.(shards := c.shards[i := sh']);
    var q := TakeOutKeeps(c, g, b, [e], i, v, sh');
    var d := Release(c', t[v].item);
    forall k | 0 <= k < |t| && u[k].state.Live? ensures KeyBytes(t[k].item, d.mem) == KeyBytes(t[k].item, c.mem) {
      ReleaseSpares(c', g, [e], t[v].item, i, k);
      KeyFromRecord(c', g, [e] + [t[v].item], i, k, d.mem);
    }
  }

  lemma EvictThins(c: Cache, g: Config, b: Bag, e: Item, i: nat)
    requires BagInv(c, g, b, [e]) && i < SHARDS
    ensures var d := EvictIfFull(c, i).0;
            Thinned(c.shards[i].table, c.mem, d.shards[i].table, d.mem)
  {
    var sh := c.shards[i];
    var (u, v) := Evict(sh.table, sh.hand);
    if v.Some? {
      VictimThins(c, g, b, e, i, u, v.value);
    } else {
      EvictExact(sh.table, sh.hand);
      hide KeyBytes;
      hide BagInv;
    }
  }

  // ---- the cache before the call ----

  /** The key's shard as insertion finds it: its fresh entry out, the sweep done. */
  function Ready(c: Cache, hf: HashFn, key: seq<byte>, now: int): (t: seq<Slot>)
    requires Shape(c)
    ensures |t| > 0
  {
    var h := HashOf(hf, key);
    var i := ShardIdx(h);
    EvictIfFull(RemoveOld(c, i, key, h, now), i).0.shards[i].table
  }

  /** A set of `key` now would be readable: its entry would land before every old one of the key. */
  predicate WouldRead(c: Cache, hf: HashFn, key: seq<byte>, now: int)
    requires Shape(c)
  {
    Lands(Ready(c, hf, key, now), c.mem, key, HashOf(hf, key))
  }

  /** Between the lookup and the insertion entries only die, and a fresh entry of the key leaves a vacant slot. */
  lemma ReadyThins(c: Cache, g: Config, b: Bag, key: seq<byte>, now: int, e: Item)
    requires BagInv(c, g, b, [e])
    ensures var h := HashOf(g.hash, key);
            var i := ShardIdx(h);
            var t := c.shards[i].table;
            var d := EvictIfFull(RemoveOld(c, i, key, h, now), i).0;
            var f := Find(t, c.mem, key, h, now);
            && Chain(t) && Thinned(t, c.mem, d.shards[i].table, d.mem)
            && (f.Some? ==> Vacant(d.shards[i].table[f.value]))
  {
    var h := HashOf(g.hash, key);
    var i := ShardIdx(h);
    var t := c.shards[i].table;
    assert ShardOk(c.shards[i]);
    hide AllGood;
    hide OwnedOnce;
    hide Arena;
    hide Stores;
    hide ShardOk;
    hide Chain;
    hide KeyBytes;
    hide Kill;
    hide EvictIfFull;
    hide Taken;
    var f := Find(t, c.mem, key, h, now);
    var was := RemoveOldMoves(c, g, b, key, now, e);
    var c1 := RemoveOld(c, i, key, h, now);
    if f.Some? { KillThins(c, g, b, e, i, f.value); }
    EvictThins(c1, g, b - Bagged(was), e, i);
    var d := EvictIfFull(c1, i).0;
    ThinnedTwice(t, c.mem, c1.shards[i].table, c1.mem, d.shards[i].table, d.mem);
  }

  lemma LandsFrame(t: seq<Slot>, mem: Memory, mem': Memory, key: seq<byte>, hash: nat)
    requires forall s | 0 <= s < |t| && t[s].state.Live? :: KeyBytes(t[s].item, mem') == KeyBytes(t[s].item, mem)
    ensures Lands(t, mem, key, hash) == Lands(t, mem', key, hash)
  {
    hide KeyBytes;
    forall k: nat | k < |t| ensures LandsAt(t, mem, key, hash, k) == LandsAt(t, mem', key, hash, k) {
      assert forall s | 0 <= s < |t| :: Hit(t, mem, key, hash, s) == Hit(t, mem', key, hash, s);
    }
  }

  /** The condition on the cache before the call is the condition on what insertion finds. */
  lemma ReadySame(c: Cache, d: Cache, g: Config, b: Bag, key: seq<byte>, now: int, e: Item)
    requires Shape(c) && BagInv(d, g, b, [e]) && d.shards == c.shards
    requires var i := ShardIdx(HashOf(g.hash, key));
             forall s | 0 <= s < |c.shards[i].table| && c.shards[i].table[s].state.Live? ::
               KeyBytes(c.shards[i].table[s].item, d.mem) == KeyBytes(c.shards[i].table[s].item, c.mem)
    ensures var h := HashOf(g.hash, key);
            var i := ShardIdx(h);
            var x := EvictIfFull(RemoveOld(d, i, key, h, now), i).0;
            && Ready(c, g.hash, key, now) == x.shards[i].table
            && (WouldRead(c, g.hash, key, now) <==> Lands(x.shards[i].table, x.mem, key, h))
  {
    var h := HashOf(g.hash, key);
    var i := ShardIdx(h);
    var t := c.shards[i].table;
    var x := EvictIfFull(RemoveOld(d, i, key, h, now), i).0;
    FindFrame(t, c.mem, d.mem, key, h, now, 0);
    ReadyTable(c, d, i, key, h, now);
    ReadyThins(d, g, b, key, now, e);
    hide KeyBytes;
    hide BagInv;
    hide EvictIfFull;
    hide RemoveOld;
    LandsFrame(x.shards[i].table, c.mem, x.mem, key, h);
  }

  lemma ReadyTable(c: Cache, d: Cache, i: nat, key: seq<byte>, h: nat, now: int)
    requires Shape(c) && Shape(d) && d.shards == c.shards && i < SHARDS
    requires Find(c.shards[i].table, d.mem, key, h, now) == Find(c.shards[i].table, c.mem, key, h, now)
    ensures EvictIfFull(RemoveOld(c, i, key, h, now), i).0.shards[i].table
            == EvictIfFull(RemoveOld(d, i, key, h, now), i).0.shards[i].table
  {
    hide Find;
    hide Evict;
    assert RemoveOld(c, i, key, h, now).shards[i] == RemoveOld(d, i, key, h, now).shards[i];
    hide RemoveOld;
  }

  // ---- reading back ----

  /** Insertion into a shard, then a lookup of the new entry's key. */
  lemma AttachReads(c: Cache, g: Config, b: Bag, q: Record, e: Item, now: int)
    requires BagInv(c, g, b, [e]) && RecordOf(e, c.mem) == Some(q)
    ensures var h := HashOf(g.hash, q.key);
            var i := ShardIdx(h);
            var t := c.shards[i].table;
            var reply := Get(Attach(c, i, e).0, g.hash, q.key, now).reply;
            if Lands(t, c.mem, q.key, h) then reply == (if Expired(q.expireNs, now) then NotFound else Value(q.val))
            else Find(t, c.mem, q.key, h, now).None? ==> reply == NotFound
  {
    var h := HashOf(g.hash, q.key);
    var i := ShardIdx(h);
    var t := c.shards[i].table;
    assert ShardOk(c.shards[i]);
    assert Good([e][0], c.mem, g);
    assert Matches(e, c.mem, q.key, h);
    hide BagInv;
    hide Good;
    hide ShardOk;
    hide Insert;
    hide Lands;
    hide Matches;
    InsertReads(t, c.mem, q.key, h, now, e);
  }

  lemma StoreReads(c: Cache, g: Config, b: Bag, q: Record, now: int, e: Item, later: int)
    requires BagInv(c, g, b, [e]) && RecordOf(e, c.mem) == Some(q) && e.keyHash == HashOf(g.hash, q.key)
    ensures var h := HashOf(g.hash, q.key);
            var i := ShardIdx(h);
            var o := StoreLocked(c, i, q.key, h, now, e);
            var d := EvictIfFull(RemoveOld(c, i, q.key, h, now), i).0;
            var reply := Get(o.cache, g.hash, q.key, later).reply;
            if Lands(d.shards[i].table, d.mem, q.key, h)
            then reply == (if Expired(q.expireNs, later) then NotFound else Value(q.val))
            else later == now ==> reply == NotFound
  {
    assert Shape(c);
    var h := HashOf(g.hash, q.key);
    var i := ShardIdx(h);
    hide BagInv;
    hide RemoveOld;
    hide EvictIfFull;
    hide Attach;
    hide Get;
    hide Taken;
    hide RecordOf;
    hide KeyBytes;
    hide Lands;
    hide Find;
    ReadyThins(c, g, b, q.key, now, e);
    var was := RemoveOldMoves(c, g, b, q.key, now, e);
    var c1 := RemoveOld(c, i, q.key, h, now);
    assert RecordOf([e][0], c1.mem) == Some(q);
    var b2, ev := EvictMoves(c1, g, b - Bagged(was), e, i);
    var d := EvictIfFull(c1, i).0;
    AttachReads(d, g, b2, q, e, later);
    if !Lands(d.shards[i].table, d.mem, q.key, h) {
      NotLandingMisses(c, d, g, b2, q.key, now, e);
    }
  }

  lemma NotLandingMisses(c: Cache, d: Cache, g: Config, b: Bag, key: seq<byte>, now: int, e: Item)
    requires Shape(c) && BagInv(d, g, b, [e])
    requires var h := HashOf(g.hash, key);
             var i := ShardIdx(h);
             var t := c.shards[i].table;
             var f := Find(t, c.mem, key, h, now);
             && Chain(t) && Thinned(t, c.mem, d.shards[i].table, d.mem)
             && (f.Some? ==> Vacant(d.shards[i].table[f.value])) && !Lands(d.shards[i].table, d.mem, key, h)
    ensures var h := HashOf(g.hash, key);
            Find(d.shards[ShardIdx(h)].table, d.mem, key, h, now).None?
  {
    var h := HashOf(g.hash, key);
    var i := ShardIdx(h);
    var t := c.shards[i].table;
    var f := Find(t, c.mem, key, h, now);
    assert ShardOk(d.shards[i]);
    hide BagInv;
    hide ShardOk;
    hide Lands;
    hide KeyBytes;
    hide Thinned;
    assert |t| == |d.shards[i].table| by { ThinnedLength(t, c.mem, d.shards[i].table, d.mem); }
    if f.Some? {
      FoundLands(t, c.mem, d.shards[i].table, d.mem, key, h, now, f.value);
    } else {
      ThinnedMisses(t, c.mem, d.shards[i].table, d.mem, key, h, now);
    }
  }

  lemma ThinnedLength(t: seq<Slot>, mem: Memory, u: seq<Slot>, mem': Memory)
    requires Thinned(t, mem, u, mem')
    ensures |u| == |t|
  {
  }

  lemma AllocateKeys(c: Cache, g: Config, b: Bag, key: seq<byte>, val: seq<byte>, env: Env, i: nat)
    requires BagInv(c, g, b, []) && i < SHARDS && Allocate(c, key, val, env).Buffers?
    ensures forall s | 0 <= s < |c.shards[i].table| && c.shards[i].table[s].state.Live? ::
              KeyBytes(c.shards[i].table[s].item, Allocate(c, key, val, env).cache.mem) == KeyBytes(c.shards[i].table[s].item, c.mem)
  {
    hide Allocate;
    hide Good;
    hide Arena;
    hide OwnedOnce;
    hide Stores;
    hide KeyBytes;
    hide ShardOk;
    var mem' := Allocate(c, key, val, env).cache.mem;
    forall s | 0 <= s < |c.shards[i].table| && c.shards[i].table[s].state.Live?
      ensures KeyBytes(c.shards[i].table[s].item, mem') == KeyBytes(c.shards[i].table[s].item, c.mem)
    {
      assert SlotGood(c, g, i, s);
      AllocateSpares(c, g, key, val, env, c.shards[i].table[s].item);
      SameKey(c.shards[i].table[s].item, c.mem, mem', g);
    }
  }

  lemma NotYetExpired(ttl: nat, now: int)
    ensures !Expired(ExpiryOf(ttl, now), now)
  {
  }

  /**
   * "A set is readable at once", from every reachable cache and for every accepted set:
   * it is iff `WouldRead` holds before the call.  If it is, it stays so until it expires
   * or another call comes.
   */
  lemma SetReads(c: Cache, g: Config, b: Bag, key: seq<byte>, val: seq<byte>, ttl: nat, env: Env, later: int)
    requires BagInv(c, g, b, []) && (g.small ==> |val| <= 65536) && Accepted(c, key, val, env)
    ensures var d := Set(c, g.hash, key, val, ttl, env).cache;
            var kept := if |val| <= 65535 then val else val[..65535];
            var end := env.now + ttl * 1_000_000_000;
            && (Get(d, g.hash, key, env.now).reply == if WouldRead(c, g.hash, key, env.now) then Value(kept) else NotFound)
            && (WouldRead(c, g.hash, key, env.now) ==>
                  Get(d, g.hash, key, later).reply == if ttl > 0 && end != 0 && later > end then NotFound else Value(kept))
  {
    hide AllGood;
    hide OwnedOnce;
    hide Arena;
    hide Stores;
    hide ShardOk;
    hide StoreLocked;
    hide EvictIfFull;
    hide RemoveOld;
    hide Allocate;
    hide MakeItem;
    hide Get;
    hide WouldRead;
    hide Lands;
    hide KeyBytes;
    hide RecordOf;
    var a := Allocate(c, key, val, env);
    var exp := ExpiryOf(ttl, env.now);
    var h := HashOf(g.hash, key);
    var e := MakeItem(key, val, h, exp, a.vp, a.kp);
    var q := Record(key, Clamp(val), exp);
    AllocateKeeps(c, g, b, key, val, env, exp);
    MakeItemHash(key, val, h, exp, a.vp, a.kp);
    AllocateKeys(c, g, b, key, val, env, ShardIdx(h));
    ReadySame(c, a.cache, g, b, key, env.now, e);
    StoreReads(a.cache, g, b, q, env.now, e, env.now);
    StoreReads(a.cache, g, b, q, env.now, e, later);
    NotYetExpired(ttl, env.now);
    ClampIs(val);
  }

  /** A set of a key that can be read can be read. */
  lemma ReadableStays(c: Cache, g: Config, b: Bag, key: seq<byte>, val: seq<byte>, env: Env)
    requires BagInv(c, g, b, []) && (g.small ==> |val| <= 65536) && Accepted(c, key, val, env)
    requires Get(c, g.hash, key, env.now).reply != NotFound
    ensures WouldRead(c, g.hash, key, env.now)
  {
    hide AllGood;
    hide OwnedOnce;
    hide Arena;
    hide Stores;
    hide ShardOk;
    hide EvictIfFull;
    hide RemoveOld;
    hide Allocate;
    hide MakeItem;
    hide WouldRead;
    hide Lands;
    hide KeyBytes;
    hide RecordOf;
    hide Chain;
    hide Thinned;
    var a := Allocate(c, key, val, env);
    var h := HashOf(g.hash, key);
    var i := ShardIdx(h);
    var e := MakeItem(key, val, h, 0, a.vp, a.kp);
    AllocateKeeps(c, g, b, key, val, env, 0);
    AllocateKeys(c, g, b, key, val, env, i);
    AllocateFind(c, g, b, key, val, env);
    ReadySame(c, a.cache, g, b, key, env.now, e);
    ReadyThins(a.cache, g, b, key, env.now, e);
    var d := EvictIfFull(RemoveOld(a.cache, i, key, h, env.now), i).0;
    var f := Find(c.shards[i].table, c.mem, key, h, env.now);
    hide Find;
    FoundLands(c.shards[i].table, a.cache.mem, d.shards[i].table, d.mem, key, h, env.now, f.value);
  }

  // ---- a set over an expired entry ----

  predicate RoomBefore(t: seq<Slot>, h: nat, s: nat)
    requires h < |t| && s < |t|
  {
    exists j | 0 <= j < Dist(h, s, |t|) :: Yields(t[At(h, j, |t|)], j)
  }

  /** Every entry of the key in the table has a slot before it that gives way. */
  predicate Shows(t: seq<Slot>, mem: Memory, key: seq<byte>, hash: nat)
    requires |t| > 0
  {
    forall s | 0 <= s < |t| && Hit(t, mem, key, hash, s) :: RoomBefore(t, Home(hash, |t|), s)
  }

  /** Where an entry of the key is left, landing is having room before all of them. */
  lemma LandsIffShows(t: seq<Slot>, mem: Memory, key: seq<byte>, hash: nat, x: nat)
    requires x < |t| && Hit(t, mem, key, hash, x) && Distances(t)
    ensures Lands(t, mem, key, hash) <==> Shows(t, mem, key, hash)
  {
    var h := Home(hash, |t|);
    var s := FirstHit(t, mem, key, hash, x);
    var d := Dist(h, s, |t|);
    if k: nat :| k < |t| && LandsAt(t, mem, key, hash, k) {
      forall y | 0 <= y < |t| && Hit(t, mem, key, hash, y) ensures RoomBefore(t, h, y) {
        assert DistAt(t, y);
        var dy := Dist(h, y, |t|);
        assert At(h, dy, |t|) == y;
        assert k < dy;
      }
    }
    if Shows(t, mem, key, hash) {
      assert RoomBefore(t, h, s);
      var j :| 0 <= j < d && Yields(t[At(h, j, |t|)], j);
      assert LandsAt(t, mem, key, hash, j);
    }
  }

  /**
   * A set of a key that is stored but reads as absent: it is readable iff every entry of
   * the key that eviction leaves has a slot before it that gives way.
   */
  lemma SetOverStale(c: Cache, g: Config, b: Bag, key: seq<byte>, val: seq<byte>, ttl: nat, env: Env, r: Record)
    requires BagInv(c, g, b, []) && (g.small ==> |val| <= 65536) && Accepted(c, key, val, env)
    requires r in b && r.key == key && Get(c, g.hash, key, env.now).reply == NotFound
    ensures var h := HashOf(g.hash, key);
            Get(Set(c, g.hash, key, val, ttl, env).cache, g.hash, key, env.now).reply ==
            if Shows(Ready(c, g.hash, key, env.now), c.mem, key, h)
            then Value(if |val| <= 65535 then val else val[..65535]) else NotFound
  {
    hide AllGood;
    hide OwnedOnce;
    hide Arena;
    hide Stores;
    hide ShardOk;
    hide EvictIfFull;
    hide RemoveOld;
    hide Allocate;
    hide MakeItem;
    hide Set;
    hide Get;
    hide Lands;
    hide Shows;
    hide KeyBytes;
    hide RecordOf;
    SetReads(c, g, b, key, val, ttl, env, env.now);
    var h := HashOf(g.hash, key);
    var s := StoredHasSlot(c, g, b, [], r);
    ReadyOfStale(c, g, b, key, val, env, s);
    var t := Ready(c, g.hash, key, env.now);
    if Hit(t, c.mem, key, h, s) {
      LandsIffShows(t, c.mem, key, h, s);
    } else {
      GoneShows(t, c.mem, key, h, s);
    }
  }

  /** What insertion finds: distances are true, and an entry of the key is there or its slot is vacant. */
  lemma ReadyOfStale(c: Cache, g: Config, b: Bag, key: seq<byte>, val: seq<byte>, env: Env, s: nat)
    requires BagInv(c, g, b, []) && (g.small ==> |val| <= 65536) && Accepted(c, key, val, env)
    requires var h := HashOf(g.hash, key);
             s < |c.shards[ShardIdx(h)].table| && Hit(c.shards[ShardIdx(h)].table, c.mem, key, h, s)
    ensures var h := HashOf(g.hash, key);
            var t := Ready(c, g.hash, key, env.now);
            && |t| == |c.shards[ShardIdx(h)].table| && Distances(t)
            && (Hit(t, c.mem, key, h, s) || Vacant(t[s]))
  {
    hide AllGood;
    hide OwnedOnce;
    hide Arena;
    hide Stores;
    hide EvictIfFull;
    hide RemoveOld;
    hide Allocate;
    hide MakeItem;
    hide Lands;
    hide KeyBytes;
    hide RecordOf;
    hide Chain;
    hide Distances;
    var a := Allocate(c, key, val, env);
    var h := HashOf(g.hash, key);
    var i := ShardIdx(h);
    var e := MakeItem(key, val, h, 0, a.vp, a.kp);
    AllocateKeeps(c, g, b, key, val, env, 0);
    AllocateKeys(c, g, b, key, val, env, i);
    ReadySame(c, a.cache, g, b, key, env.now, e);
    ReadyThins(a.cache, g, b, key, env.now, e);
    ReadyDistances(a.cache, g, b, key, env.now, e);
  }

  lemma ReadyDistances(c: Cache, g: Config, b: Bag, key: seq<byte>, now: int, e: Item)
    requires BagInv(c, g, b, [e])
    ensures var h := HashOf(g.hash, key);
            Distances(EvictIfFull(RemoveOld(c, ShardIdx(h), key, h, now), ShardIdx(h)).0.shards[ShardIdx(h)].table)
  {
    assert Shape(c);
    var h := HashOf(g.hash, key);
    var i := ShardIdx(h);
    hide AllGood;
    hide OwnedOnce;
    hide Arena;
    hide Stores;
    hide RemoveOld;
    hide EvictIfFull;
    hide Taken;
    hide Chain;
    hide Distances;
    var was := RemoveOldMoves(c, g, b, key, now, e);
    var c1 := RemoveOld(c, i, key, h, now);
    var b2, ev := EvictMoves(c1, g, b - Bagged(was), e, i);
    assert ShardOk(EvictIfFull(c1, i).0.shards[i]);
  }

  /** Where an entry of the key is gone and its slot vacant, landing is still having room before the others. */
  lemma GoneShows(t: seq<Slot>, mem: Memory, key: seq<byte>, hash: nat, s: nat)
    requires s < |t| && Vacant(t[s]) && Distances(t)
    ensures Lands(t, mem, key, hash) <==> Shows(t, mem, key, hash)
  {
    var h := Home(hash, |t|);
    if x :| 0 <= x < |t| && Hit(t, mem, key, hash, x) {
      LandsIffShows(t, mem, key, hash, x);
    } else {
      assert LandsAt(t, mem, key, hash, Dist(h, s, |t|));
    }
  }

  /** The first set into an empty cache puts the entry on its home slot. */
  lemma FirstSet(hf: HashFn, key: seq<byte>, val: seq<byte>, ttl: nat, env: Env)
    requires 0 < |key| && 0 < |val| && |key| + |val| <= PAYLOAD
    ensures var o := Set(Create(4), hf, key, val, ttl, env);
            var h := HashOf(hf, key);
            var e := MakeItem(key, val, h, ExpiryOf(ttl, env.now), Heap(0), Heap(0));
            && o.reply == Done && o.evicted.None? && o.dropped.None?
            && o.cache.shards[ShardIdx(h)].count == 1
            && |o.cache.shards[ShardIdx(h)].table| == 4
            && o.cache.shards[ShardIdx(h)].table[Home(h, 4)] == Filled(e, 0)
  {
    hide MakeItem;
    var c := Create(4);
    var h := HashOf(hf, key);
    var i := ShardIdx(h);
    var t := c.shards[i].table;
    assert forall s | 0 <= s < 4 :: t[s] == EmptySlot();
    FindNone(t, c.mem, key, h, env.now, 0);
    assert RemoveOld(c, i, key, h, env.now) == c;
    assert EvictIfFull(c, i) == (c, None);
    assert MakeItem(key, val, h, ExpiryOf(ttl, env.now), Heap(0), Heap(0)).keyHash == h by {
      MakeItemHash(key, val, h, ExpiryOf(ttl, env.now), Heap(0), Heap(0));
    }
  }

  /**
   * The set is really lost in a reachable state: store any short pair with a TTL of
   * one second, and set the key again at two seconds.  The set succeeds and the key
   * still reads as absent.
   */
  lemma StaleSetIsLost(hf: HashFn, key: seq<byte>, val: seq<byte>, val2: seq<byte>)
    requires 0 < |key| && 0 < |val| && |key| + |val| <= PAYLOAD && 0 < |val2| && |key| + |val2| <= PAYLOAD
    ensures var o1 := Set(Create(4), hf, key, val, 1, Env(0, true, true));
            var o2 := Set(o1.cache, hf, key, val2, 0, Env(2 * SECOND, true, true));
            o2.reply == Done && Get(o2.cache, hf, key, 2 * SECOND).reply == NotFound
  {
    hide Create;
    hide Set;
    hide Get;
    hide BagInv;
    hide MakeItem;
    var g := Config(hf, false);
    var env1 := Env(0, true, true);
    var env2 := Env(2 * SECOND, true, true);
    CreateInv(4, g);
    SetRefines(Create(4), g, map[], key, val, 1, env1);
    FirstSet(hf, key, val, 1, env1);
    var c := Set(Create(4), hf, key, val, 1, env1).cache;
    SecondSetLost(c, g, key, SetTo(val, 1, 0), val2, env2);
  }

  lemma SecondSetLost(c: Cache, g: Config, key: seq<byte>, was: Cached, val: seq<byte>, env: Env)
    requires Inv(c, g, map[key := was], []) && Expired(was.expireNs, env.now) && !g.small
    requires 0 < |key| && 0 < |val| && |key| + |val| <= PAYLOAD
    requires var sh := c.shards[ShardIdx(HashOf(g.hash, key))];
             sh.count == 1 && |sh.table| == 4 && sh.table[Home(HashOf(g.hash, key), 4)].state.Live?
    ensures var o := Set(c, g.hash, key, val, 0, env);
            o.reply == Done && Get(o.cache, g.hash, key, env.now).reply == NotFound
  {
    var m: Ref := map[key := was];
    var h := HashOf(g.hash, key);
    var i := ShardIdx(h);
    var t := c.shards[i].table;
    HomeHit(c, g, m, key, h);
    LookupExact(c, g, m, [], key, env.now);
    assert RemoveOld(c, i, key, h, env.now) == c;
    assert Ready(c, g.hash, key, env.now) == t;
    hide AllGood;
    hide Stores;
    hide OwnedOnce;
    hide Arena;
    hide ShardOk;
    hide Get;
    hide Set;
    hide Ready;
    hide BagOf;
    ShortSetDone(c, g.hash, key, val, 0, env);
    SetReads(c, g, BagOf(m), key, val, 0, env, env.now);
    NoRoomAtHome(t, c.mem, key, h);
  }

  /** Behind an entry of the key that sits at home nothing lands. */
  lemma NoRoomAtHome(t: seq<Slot>, mem: Memory, key: seq<byte>, h: nat)
    requires |t| > 0 && Hit(t, mem, key, h, Home(h, |t|))
    ensures !Lands(t, mem, key, h)
  {
    var home := Home(h, |t|);
    forall k: nat | k < |t| ensures !LandsAt(t, mem, key, h, k) {
      assert At(home, 0, |t|) == home;
    }
  }

  lemma HomeHit(c: Cache, g: Config, m: Ref, key: seq<byte>, h: nat)
    requires Inv(c, g, m, []) && h == HashOf(g.hash, key) && m.Keys == {key}
    requires var t := c.shards[ShardIdx(h)].table;
             t[Home(h, |t|)].state.Live?
    ensures var t := c.shards[ShardIdx(h)].table;
            Hit(t, c.mem, key, h, Home(h, |t|))
  {
    var t := c.shards[ShardIdx(h)].table;
    HitRecord(c, g, m, ShardIdx(h), Home(h, |t|));
  }

  // ---- a set that loses itself ----

  /** The only slot stays LIVE: the sweep finds its clock bit set. */
  lemma OccupiedReady(c: Cache, g: Config, m: Ref, key: seq<byte>, now: int)
    requires Inv(c, g, m, []) && key !in m && Occupied(c.shards[ShardIdx(HashOf(g.hash, key))])
    ensures var t := Ready(c, g.hash, key, now);
            |t| == 1 && t[0].state.Live?
  {
    var h := HashOf(g.hash, key);
    var i := ShardIdx(h);
    LookupExact(c, g, m, [], key, now);
    assert RemoveOld(c, i, key, h, now) == c;
    hide BagInv;
    hide RemoveOld;
    hide Find;
    EvictExact(c.shards[i].table, c.shards[i].hand);
    hide Evict;
  }

  lemma OccupiedHides(c: Cache, g: Config, m: Ref, key: seq<byte>, val: seq<byte>, ttl: nat, env: Env)
    requires Inv(c, g, m, []) && !g.small && key !in m && Occupied(c.shards[ShardIdx(HashOf(g.hash, key))])
    requires 0 < |key| && 0 < |val| && |key| + |val| <= PAYLOAD
    ensures var o := Set(c, g.hash, key, val, ttl, env);
            o.reply == Done && Get(o.cache, g.hash, key, env.now).reply == NotFound
  {
    hide AllGood;
    hide Stores;
    hide OwnedOnce;
    hide Arena;
    hide ShardOk;
    hide Get;
    hide Set;
    hide Ready;
    hide BagOf;
    hide Occupied;
    OccupiedReady(c, g, m, key, env.now);
    ShortSetDone(c, g.hash, key, val, ttl, env);
    SetReads(c, g, BagOf(m), key, val, ttl, env, env.now);
  }

  /**
   * With no expired entry anywhere: the second of two short pairs of one shard, set in a
   * cache of one slot per shard, is itself the entry given up on.  The set succeeds and
   * its key reads as absent.
   */
  lemma SetLosesItself(hf: HashFn, key1: seq<byte>, val1: seq<byte>, key2: seq<byte>, val2: seq<byte>, ttl: nat, env: Env)
    requires Collide(hf, key1, val1, key2, val2)
    ensures var o1 := Set(Create(1), hf, key1, val1, ttl, env);
            var o2 := Set(o1.cache, hf, key2, val2, ttl, env);
            o2.reply == Done && Get(o2.cache, hf, key2, env.now).reply == NotFound
  {
    hide Create;
    hide Set;
    hide Get;
    hide BagInv;
    hide BagOf;
    var g := Config(hf, false);
    CreateInv(1, g);
    SetRefines(Create(1), g, map[], key1, val1, ttl, env);
    FirstFills(hf, key1, val1, ttl, env);
    var o1 := Set(Create(1), hf, key1, val1, ttl, env);
    OccupiedHides(o1.cache, g, map[key1 := SetTo(val1, ttl, env.now)], key2, val2, ttl, env);
  }
}
