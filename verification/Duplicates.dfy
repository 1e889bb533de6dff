/**
 * What a set of one key does to reads of another.  With one entry a key stays readable
 * unless it is pushed out; with an expired duplicate it can be hidden by displacement.
 */
module Duplicates {
  import opened Bytes
  import opened Entries
  import opened Table
  import opened Cache
  import opened CacheInvariant
  import opened CacheStore
  import opened CacheBags
  import opened CacheRuns
  import opened CacheLaws
  import opened PushOuts

  // ---- a key with one entry ----

  predicate PushedOut(o: Outcome, key: seq<byte>) {
    o.evicted == Some(key) || o.dropped == Some(key)
  }

  /** A set of another key takes the only record of a key out exactly when it reports that. */
  lemma OnlyMoves(b: Bag, r: Record, op: Op, o: Outcome, b': Bag)
    requires Only(b, r) && op.OpSet? && op.key != r.key && BagStep(b, op, o, b')
    ensures if PushedOut(o, r.key) then forall x :: x in b' ==> x.key != r.key else Only(b', r)
  {
    if o.reply == Done {
      var q := RecordSet(op);
      var was, ev, dr :| SetMoves(b, q, op.env.now, o, b', was, ev, dr);
      OnlySetMoves(b, r, q, op.env.now, o, b', was, ev, dr);
    }
  }

  function Once(r: Option<Record>, x: Record): nat { if r == Some(x) then 1 else 0 }

  /** How often a record of another key is stored after a set. */
  lemma MovesCount(b: Bag, q: Record, now: int, o: Outcome, b': Bag,
                   was: Option<Record>, ev: Option<Record>, dr: Option<Record>, x: Record)
    requires SetMoves(b, q, now, o, b', was, ev, dr) && x.key != q.key
    ensures b'[x] + Once(ev, x) + Once(dr, x) == b[x]
  {
    hide Misses;
  }

  /** Records of the key leave by eviction and by being given up on, and not otherwise. */
  ghost predicate Leaves(b: Bag, b': Bag, key: seq<byte>, ev: Option<Record>, dr: Option<Record>) {
    forall x: Record :: x.key == key ==> b'[x] + Once(ev, x) + Once(dr, x) == b[x]
  }

  lemma MovesLeave(b: Bag, q: Record, now: int, o: Outcome, b': Bag,
                   was: Option<Record>, ev: Option<Record>, dr: Option<Record>, key: seq<byte>)
    requires SetMoves(b, q, now, o, b', was, ev, dr) && key != q.key
    ensures Leaves(b, b', key, ev, dr) && o.evicted == KeyOf(ev) && o.dropped == KeyOf(dr)
  {
    assert o.evicted == KeyOf(ev) && o.dropped == KeyOf(dr);
    hide SetMoves;
    hide Once;
    forall x: Record | x.key == key ensures b'[x] + Once(ev, x) + Once(dr, x) == b[x] {
      MovesCount(b, q, now, o, b', was, ev, dr, x);
    }
  }

  lemma OnlyLeaves(b: Bag, b': Bag, r: Record, ev: Option<Record>, dr: Option<Record>)
    requires Only(b, r) && Leaves(b, b', r.key, ev, dr)
    ensures if KeyOf(ev) == Some(r.key) || KeyOf(dr) == Some(r.key) then forall x :: x in b' ==> x.key != r.key else Only(b', r)
  {
    assert b'[r] + Once(ev, r) + Once(dr, r) == 1;
    if ev.Some? && ev.value.key == r.key { assert b'[ev.value] + Once(ev, ev.value) + Once(dr, ev.value) == b[ev.value]; }
    if dr.Some? && dr.value.key == r.key { assert b'[dr.value] + Once(ev, dr.value) + Once(dr, dr.value) == b[dr.value]; }
  }

  lemma OnlySetMoves(b: Bag, r: Record, q: Record, now: int, o: Outcome, b': Bag,
                     was: Option<Record>, ev: Option<Record>, dr: Option<Record>)
    requires Only(b, r) && q.key != r.key && SetMoves(b, q, now, o, b', was, ev, dr)
    ensures if PushedOut(o, r.key) then forall x :: x in b' ==> x.key != r.key else Only(b', r)
  {
    hide SetMoves;
    hide Only;
    hide Leaves;
    MovesLeave(b, q, now, o, b', was, ev, dr, r.key);
    OnlyLeaves(b, b', r, ev, dr);
  }

  lemma OnlyReads(c: Cache, g: Config, b: Bag, r: Record, now: int)
    requires BagInv(c, g, b, []) && Only(b, r) && !Expired(r.expireNs, now)
    ensures Get(c, g.hash, r.key, now).reply == Value(r.val)
  {
    assert Shape(c);
    hide BagInv;
    hide Get;
    assert r in b;
    GetKeeps(c, g, b, r.key, now);
  }

  lemma NoneReads(c: Cache, g: Config, b: Bag, key: seq<byte>, now: int)
    requires BagInv(c, g, b, []) && forall x :: x in b ==> x.key != key
    ensures Get(c, g.hash, key, now).reply == NotFound
  {
    assert Shape(c);
    hide BagInv;
    hide Get;
    GetKeeps(c, g, b, key, now);
  }

  /** A fresh key with one entry reads the same after a set of another key iff it was not pushed out. */
  lemma OtherSetReads(c: Cache, g: Config, b: Bag, r: Record, now: int, other: seq<byte>, val: seq<byte>, ttl: nat, env: Env)
    requires BagInv(c, g, b, []) && Only(b, r) && !Expired(r.expireNs, now)
    requires other != r.key && (g.small ==> |val| <= 65536)
    ensures var o := Set(c, g.hash, other, val, ttl, env);
            Get(o.cache, g.hash, r.key, now).reply == if PushedOut(o, r.key) then NotFound else Value(r.val)
  {
    assert Shape(c);
    hide BagInv;
    hide Only;
    hide BagStep;
    hide Set;
    hide Get;
    var o := Set(c, g.hash, other, val, ttl, env);
    var b' := SetKeeps(c, g, b, other, val, ttl, env);
    OnlyMoves(b, r, OpSet(other, val, ttl, env), o, b');
    if PushedOut(o, r.key) {
      NoneReads(o.cache, g, b', r.key, now);
    } else {
      OnlyReads(o.cache, g, b', r, now);
    }
  }

  /** Some entry of the key is stored, and none that has expired. */
  ghost predicate AllFresh(b: Bag, key: seq<byte>, now: int) {
    (exists x :: x in b && x.key == key) && forall x :: x in b && x.key == key ==> !Expired(x.expireNs, now)
  }

  lemma FreshLeaves(b: Bag, b': Bag, key: seq<byte>, now: int, ev: Option<Record>, dr: Option<Record>)
    requires AllFresh(b, key, now) && Leaves(b, b', key, ev, dr)
    ensures forall x :: x in b' && x.key == key ==> x in b
    ensures KeyOf(ev) != Some(key) && KeyOf(dr) != Some(key) ==> AllFresh(b', key, now)
  {
    var x :| x in b && x.key == key;
    assert b'[x] + Once(ev, x) + Once(dr, x) == b[x];
  }

  lemma FreshMoves(b: Bag, key: seq<byte>, now: int, q: Record, at: int, o: Outcome, b': Bag,
                   was: Option<Record>, ev: Option<Record>, dr: Option<Record>)
    requires AllFresh(b, key, now) && q.key != key && SetMoves(b, q, at, o, b', was, ev, dr)
    ensures forall x :: x in b' && x.key == key ==> x in b
    ensures !PushedOut(o, key) ==> AllFresh(b', key, now)
  {
    hide SetMoves;
    hide AllFresh;
    hide Leaves;
    MovesLeave(b, q, at, o, b', was, ev, dr, key);
    FreshLeaves(b, b', key, now, ev, dr);
  }

  lemma FreshStep(b: Bag, key: seq<byte>, now: int, op: Op, o: Outcome, b': Bag)
    requires AllFresh(b, key, now) && op.OpSet? && op.key != key && BagStep(b, op, o, b')
    ensures forall x :: x in b' && x.key == key ==> x in b
    ensures !PushedOut(o, key) ==> AllFresh(b', key, now)
  {
    hide SetMoves;
    hide AllFresh;
    if o.reply == Done {
      var was, ev, dr :| SetMoves(b, RecordSet(op), op.env.now, o, b', was, ev, dr);
      FreshMoves(b, key, now, RecordSet(op), op.env.now, o, b', was, ev, dr);
    }
  }

  lemma FreshAnswers(b: Bag, b': Bag, key: seq<byte>, now: int, o: Outcome)
    requires BagStep(b', OpGet(key, now), o, b') && forall x :: x in b' && x.key == key ==> x in b
    ensures AllFresh(b', key, now) ==> o.reply.Value?
    ensures o.reply.Value? ==> Answers(b, key, now, o.reply.bytes)
  {
  }

  /**
   * Only an expired entry of its own can hide a key: if none is stored, the key reads on
   * after a set of another key, as some value stored for it before, unless the set pushes
   * an entry of it out.
   */
  lemma FreshKeyReads(c: Cache, g: Config, b: Bag, key: seq<byte>, now: int, other: seq<byte>, val: seq<byte>, ttl: nat, env: Env)
    requires BagInv(c, g, b, []) && AllFresh(b, key, now) && other != key && (g.small ==> |val| <= 65536)
    ensures var o := Set(c, g.hash, other, val, ttl, env);
            var reply := Get(o.cache, g.hash, key, now).reply;
            && (!PushedOut(o, key) ==> reply.Value?)
            && (reply.Value? ==> Answers(b, key, now, reply.bytes))
  {
    assert Shape(c);
    hide BagInv;
    hide Set;
    hide Get;
    hide BagStep;
    hide AllFresh;
    hide Answers;
    var o := Set(c, g.hash, other, val, ttl, env);
    var b' := SetKeeps(c, g, b, other, val, ttl, env);
    FreshStep(b, key, now, OpSet(other, val, ttl, env), o, b');
    GetKeeps(o.cache, g, b', key, now);
    FreshAnswers(b, b', key, now, Get(o.cache, g.hash, key, now));
  }

  /**
   * Second chance: a key with one entry that was just read is not evicted by the next
   * set, and reads the same after it unless that set loses an entry for want of room,
   * which can be told before the call.
   */
  lemma ReadKeySurvives(c: Cache, g: Config, b: Bag, r: Record, now: int, other: seq<byte>, val: seq<byte>, ttl: nat, env: Env)
    requires BagInv(c, g, b, []) && Only(b, r) && other != r.key && (g.small ==> |val| <= 65536)
    requires Get(c, g.hash, r.key, now).reply.Value?
    ensures var c1 := Get(c, g.hash, r.key, now).cache;
            var o := Set(c1, g.hash, other, val, ttl, env);
            && Get(o.cache, g.hash, r.key, now).reply == (if o.dropped == Some(r.key) then NotFound else Value(r.val))
            && (!WouldDrop(c1, g.hash, other, env.now) ==> Get(o.cache, g.hash, r.key, now).reply == Value(r.val))
  {
    assert Shape(c);
    hide BagInv;
    hide Only;
    hide Set;
    hide Get;
    hide WouldDrop;
    hide Accepted;
    GetKeeps(c, g, b, r.key, now);
    assert !Expired(r.expireNs, now) by { AnswerIsOnly(b, r, now, Get(c, g.hash, r.key, now).reply.bytes); }
    hide BagStep;
    var c1 := Get(c, g.hash, r.key, now).cache;
    ReadKeyNotEvicted(c, g, b, r, now, other, val, ttl, env);
    OtherSetReads(c1, g, b, r, now, other, val, ttl, env);
    DropsIff(c1, g, b, other, val, ttl, env);
  }

  lemma AnswerIsOnly(b: Bag, r: Record, now: int, val: seq<byte>)
    requires Only(b, r) && Answers(b, r.key, now, val)
    ensures !Expired(r.expireNs, now) && val == r.val
  {
  }

  // ---- a fresh entry displaced behind its expired duplicate ----

  /** Shard `i` holds exactly this table, and no entry has buffers. */
  predicate Holds(c: Cache, i: nat, t: seq<Slot>, n: nat) {
    && Shape(c) && i < SHARDS && c.mem == map[]
    && c.shards[i].table == t && c.shards[i].count == n
  }

  predicate Short(key: seq<byte>) { 0 < |key| < PAYLOAD }

  /** The entry a set of the one-byte value `[1]` builds. */
  function Tiny(hf: HashFn, key: seq<byte>, exp: int): Item {
    MakeItem(key, [1], HashOf(hf, key), exp, Heap(0), Heap(0))
  }

  lemma TinyIs(hf: HashFn, key: seq<byte>, exp: int, p: Ptr, mem: Memory)
    requires Short(key)
    ensures MakeItem(key, [1], HashOf(hf, key), exp, p, p) == Tiny(hf, key, exp)
    ensures var e := Tiny(hf, key, exp);
            && e.keyHash == HashOf(hf, key) && e.keyLen == |key| && e.expireNs == exp
            && KeyBytes(e, mem) == Some(key) && ValBytes(e, mem) == Some([1])
            && KeyPtr(e).None? && ValPtr(e).None? && !e.valSlab
  {
    assert Clamp([1]) == [1];
    LayoutRoundTrip(key, [1], HashOf(hf, key), exp, Heap(0), Heap(0), mem);
    MakeItemPtrs(key, [1], HashOf(hf, key), exp, Heap(0), Heap(0));
  }

  /** A set of a tiny pair whose lookup misses, into a shard of four with room. */
  lemma TinySet(c: Cache, hf: HashFn, key: seq<byte>, ttl: nat, now: int, i: nat, t: seq<Slot>, n: nat)
    requires Holds(c, i, t, n) && |t| == 4 && n <= 3 && Short(key) && ShardIdx(HashOf(hf, key)) == i
    requires Find(t, map[], key, HashOf(hf, key), now).None? && Insert(t, Tiny(hf, key, ExpiryOf(ttl, now))).1.None?
    ensures var o := Set(c, hf, key, [1], ttl, Env(now, true, true));
            && o.reply == Done && o.evicted.None? && o.dropped.None?
            && Holds(o.cache, i, Insert(t, Tiny(hf, key, ExpiryOf(ttl, now))).0, n + 1)
  {
    hide MakeItem;
    hide Find;
    hide Insert;
    hide Tiny;
    var h := HashOf(hf, key);
    var env := Env(now, true, true);
    var a := Allocate(c, key, [1], env);
    assert a == Buffers(c, Heap(c.nextId), Heap(c.nextId));
    TinyIs(hf, key, ExpiryOf(ttl, now), Heap(c.nextId), map[]);
    assert RemoveOld(c, i, key, h, now) == c;
    assert EvictIfFull(c, i) == (c, None);
  }

  /** A delete of a tiny pair that lookup finds in slot `f`. */
  lemma TinyDel(c: Cache, hf: HashFn, key: seq<byte>, now: int, i: nat, t: seq<Slot>, n: nat, f: nat, e: Item)
    requires Holds(c, i, t, n) && 0 < n < TWO_32 && ShardIdx(HashOf(hf, key)) == i
    requires Find(t, map[], key, HashOf(hf, key), now) == Some(f) && t[f].item == e
    requires KeyPtr(e).None? && ValPtr(e).None? && !e.valSlab
    ensures var o := Del(c, hf, key, now);
            o.reply == Done && Holds(o.cache, i, t[f := t[f].(state := Dead)], n - 1)
  {
    hide Find;
  }

  /** Four keys of one shard: two at home in slot 0 and two in slot 3. */
  predicate FourKeys(hf: HashFn, x: seq<byte>, a: seq<byte>, d: seq<byte>, k: seq<byte>) {
    && Short(x) && Short(a) && Short(d) && Short(k)
    && x != a && x != d && x != k && a != d && a != k && d != k
    && Home(HashOf(hf, x), 4) == 0 && Home(HashOf(hf, a), 4) == 0
    && Home(HashOf(hf, d), 4) == 3 && Home(HashOf(hf, k), 4) == 3
    && ShardIdx(HashOf(hf, x)) == ShardIdx(HashOf(hf, a)) == ShardIdx(HashOf(hf, d)) == ShardIdx(HashOf(hf, k))
  }

  /** A slot that holds a tiny entry of one key is a hit for that key only. */
  lemma TinyHit(t: seq<Slot>, hf: HashFn, key: seq<byte>, exp: int, dist: nat, s: nat, other: seq<byte>)
    requires s < |t| && t[s] == Filled(Tiny(hf, key, exp), dist) && Short(key)
    ensures Hit(t, map[], other, HashOf(hf, other), s) <==> other == key
  {
    TinyIs(hf, key, exp, Heap(0), map[]);
    hide Tiny;
    hide KeyBytes;
  }

  lemma TinyHash(hf: HashFn, key: seq<byte>, exp: int)
    ensures Tiny(hf, key, exp).keyHash == HashOf(hf, key) && Tiny(hf, key, exp).expireNs == exp
  {
  }

  const NOW: int := 2 * SECOND

  // The table after each call, from the empty one on.

  function T0(): seq<Slot> { [EmptySlot(), EmptySlot(), EmptySlot(), EmptySlot()] }

  function T1(hf: HashFn, x: seq<byte>): seq<Slot> { T0()[0 := Filled(Tiny(hf, x, 0), 0)] }

  function T2(hf: HashFn, x: seq<byte>, a: seq<byte>): seq<Slot> { T1(hf, x)[1 := Filled(Tiny(hf, a, SECOND), 1)] }

  function T3(hf: HashFn, x: seq<byte>, a: seq<byte>, d: seq<byte>): seq<Slot> { T2(hf, x, a)[3 := Filled(Tiny(hf, d, 0), 0)] }

  function T4(hf: HashFn, x: seq<byte>, a: seq<byte>, d: seq<byte>): seq<Slot> {
    T3(hf, x, a, d)[0 := Filled(Tiny(hf, x, 0), 0).(state := Dead)]
  }

  function T5(hf: HashFn, x: seq<byte>, a: seq<byte>, d: seq<byte>): seq<Slot> { T4(hf, x, a, d)[0 := Filled(Tiny(hf, a, 0), 0)] }

  function T6(hf: HashFn, x: seq<byte>, a: seq<byte>, d: seq<byte>, k: seq<byte>): seq<Slot> {
    T5(hf, x, a, d)[0 := Filled(Tiny(hf, k, 0), 1)][2 := Filled(Tiny(hf, a, 0), 2)]
  }

  lemma Call1(hf: HashFn, x: seq<byte>, a: seq<byte>, d: seq<byte>, k: seq<byte>)
    requires FourKeys(hf, x, a, d, k)
    ensures Find(T0(), map[], x, HashOf(hf, x), 0).None? && Insert(T0(), Tiny(hf, x, 0)) == (T1(hf, x), None)
  {
    TinyHash(hf, x, 0);
    hide Tiny;
  }

  lemma Call2(hf: HashFn, x: seq<byte>, a: seq<byte>, d: seq<byte>, k: seq<byte>)
    requires FourKeys(hf, x, a, d, k)
    ensures Find(T1(hf, x), map[], a, HashOf(hf, a), 0).None?
    ensures Insert(T1(hf, x), Tiny(hf, a, SECOND)) == (T2(hf, x, a), None)
  {
    var t := T1(hf, x);
    TinyHash(hf, a, SECOND);
    TinyHit(t, hf, x, 0, 0, 0, a);
    hide Tiny;
    hide Hit;
    assert FindFrom(t, map[], a, HashOf(hf, a), 0, 1).None?;
    assert Insert(t, Tiny(hf, a, SECOND)) == Place(t, Tiny(hf, a, SECOND), 1, 1, 1);
  }

  lemma Call3(hf: HashFn, x: seq<byte>, a: seq<byte>, d: seq<byte>, k: seq<byte>)
    requires FourKeys(hf, x, a, d, k)
    ensures Find(T2(hf, x, a), map[], d, HashOf(hf, d), 0).None?
    ensures Insert(T2(hf, x, a), Tiny(hf, d, 0)) == (T3(hf, x, a, d), None)
  {
    TinyHash(hf, d, 0);
    hide Tiny;
  }

  lemma Call4(hf: HashFn, x: seq<byte>, a: seq<byte>, d: seq<byte>, k: seq<byte>)
    requires FourKeys(hf, x, a, d, k)
    ensures Find(T3(hf, x, a, d), map[], x, HashOf(hf, x), 0) == Some(0)
  {
    TinyHash(hf, x, 0);
    TinyHit(T3(hf, x, a, d), hf, x, 0, 0, 0, x);
    hide Tiny;
    hide Hit;
  }

  lemma Call5(hf: HashFn, x: seq<byte>, a: seq<byte>, d: seq<byte>, k: seq<byte>)
    requires FourKeys(hf, x, a, d, k)
    ensures Find(T4(hf, x, a, d), map[], a, HashOf(hf, a), NOW).None?
    ensures Insert(T4(hf, x, a, d), Tiny(hf, a, 0)) == (T5(hf, x, a, d), None)
    ensures Find(T5(hf, x, a, d), map[], a, HashOf(hf, a), NOW) == Some(0)
  {
    var t := T4(hf, x, a, d);
    TinyHash(hf, a, 0);
    TinyHash(hf, a, SECOND);
    TinyHit(t, hf, a, SECOND, 1, 1, a);
    TinyHit(T5(hf, x, a, d), hf, a, 0, 0, 0, a);
    hide Tiny;
    assert !Hit(t, map[], a, HashOf(hf, a), 0);
    hide Hit;
    assert FindFrom(t, map[], a, HashOf(hf, a), NOW, 1).None?;
  }

  lemma Call6(hf: HashFn, x: seq<byte>, a: seq<byte>, d: seq<byte>, k: seq<byte>)
    requires FourKeys(hf, x, a, d, k)
    ensures Find(T5(hf, x, a, d), map[], k, HashOf(hf, k), NOW).None?
    ensures Insert(T5(hf, x, a, d), Tiny(hf, k, 0)) == (T6(hf, x, a, d, k), None)
  {
    var t := T5(hf, x, a, d);
    var h := HashOf(hf, k);
    TinyHash(hf, k, 0);
    TinyHit(t, hf, d, 0, 0, 3, k);
    TinyHit(t, hf, a, 0, 0, 0, k);
    TinyHit(t, hf, a, SECOND, 1, 1, k);
    hide Tiny;
    hide Hit;
    assert FindFrom(t, map[], k, h, NOW, 3).None?;
    assert FindFrom(t, map[], k, h, NOW, 2).None?;
    assert FindFrom(t, map[], k, h, NOW, 1).None?;
    var u := t[0 := Filled(Tiny(hf, k, 0), 1)];
    assert Place(u, Tiny(hf, a, 0), 2, 2, 3) == (T6(hf, x, a, d, k), None);
    assert Place(u, Tiny(hf, a, 0), 1, 1, 2) == Place(u, Tiny(hf, a, 0), 2, 2, 3);
    assert Place(t, Tiny(hf, k, 0), 1, 0, 1) == Place(u, Tiny(hf, a, 0), 1, 1, 2);
    assert Insert(t, Tiny(hf, k, 0)) == Place(t, Tiny(hf, k, 0), 1, 0, 1);
  }

  lemma Hidden(hf: HashFn, x: seq<byte>, a: seq<byte>, d: seq<byte>, k: seq<byte>)
    requires FourKeys(hf, x, a, d, k)
    ensures Find(T6(hf, x, a, d, k), map[], a, HashOf(hf, a), NOW).None?
  {
    var t := T6(hf, x, a, d, k);
    TinyHash(hf, a, SECOND);
    TinyHit(t, hf, k, 0, 1, 0, a);
    TinyHit(t, hf, a, SECOND, 1, 1, a);
    hide Tiny;
    hide Hit;
    assert FindFrom(t, map[], a, HashOf(hf, a), NOW, 1).None?;
  }

  lemma ReadsTiny(c: Cache, hf: HashFn, key: seq<byte>, i: nat, t: seq<Slot>, n: nat, s: nat)
    requires Holds(c, i, t, n) && |t| > 0 && ShardIdx(HashOf(hf, key)) == i && Short(key)
    requires Find(t, map[], key, HashOf(hf, key), NOW) == Some(s) && t[s].item == Tiny(hf, key, 0)
    ensures Get(c, hf, key, NOW).reply == Value([1])
  {
    hide Find;
    hide Tiny;
    TinyIs(hf, key, 0, Heap(0), map[]);
  }

  lemma MissesTiny(c: Cache, hf: HashFn, key: seq<byte>, i: nat, t: seq<Slot>, n: nat)
    requires Holds(c, i, t, n) && |t| > 0 && ShardIdx(HashOf(hf, key)) == i
    requires Find(t, map[], key, HashOf(hf, key), NOW).None?
    ensures Get(c, hf, key, NOW).reply == NotFound
  {
    hide Find;
  }

  /** The first four calls: `x` and `a` beside each other, `d` at the end, `x` deleted. */
  lemma FirstFour(hf: HashFn, x: seq<byte>, a: seq<byte>, d: seq<byte>, k: seq<byte>)
    requires FourKeys(hf, x, a, d, k)
    ensures var ops := [OpSet(x, [1], 0, Env(0, true, true)), OpSet(a, [1], 1, Env(0, true, true)),
                        OpSet(d, [1], 0, Env(0, true, true)), OpDel(x, 0)];
            Holds(Run(Create(4), hf, ops), ShardIdx(HashOf(hf, a)), T4(hf, x, a, d), 2)
  {
    var i := ShardIdx(HashOf(hf, a));
    var c0 := Create(4);
    assert c0.shards[i].table == T0();
    assert Holds(c0, i, T0(), 0);
    hide Create;
    hide Set;
    hide Del;
    hide Find;
    hide Insert;
    hide Tiny;
    hide Holds;
    Call1(hf, x, a, d, k);
    TinySet(c0, hf, x, 0, 0, i, T0(), 0);
    var c1 := Set(c0, hf, x, [1], 0, Env(0, true, true)).cache;
    Call2(hf, x, a, d, k);
    TinySet(c1, hf, a, 1, 0, i, T1(hf, x), 1);
    var c2 := Set(c1, hf, a, [1], 1, Env(0, true, true)).cache;
    Call3(hf, x, a, d, k);
    TinySet(c2, hf, d, 0, 0, i, T2(hf, x, a), 2);
    var c3 := Set(c2, hf, d, [1], 0, Env(0, true, true)).cache;
    Call4(hf, x, a, d, k);
    TinyIs(hf, x, 0, Heap(0), map[]);
    TinyDel(c3, hf, x, 0, i, T3(hf, x, a, d), 3, 0, Tiny(hf, x, 0));
    RunFour(c0, hf, OpSet(x, [1], 0, Env(0, true, true)), OpSet(a, [1], 1, Env(0, true, true)),
            OpSet(d, [1], 0, Env(0, true, true)), OpDel(x, 0));
  }

  lemma RunFour(c: Cache, hf: HashFn, p: Op, q: Op, r: Op, s: Op)
    requires Shape(c)
    ensures Run(c, hf, [p, q, r, s])
            == Apply(Apply(Apply(Apply(c, hf, p).cache, hf, q).cache, hf, r).cache, hf, s).cache
  {
    hide Apply;
    var c1 := Apply(c, hf, p).cache;
    var c2 := Apply(c1, hf, q).cache;
    var c3 := Apply(c2, hf, r).cache;
    assert [p, q, r, s][1..] == [q, r, s] && [q, r, s][1..] == [r, s] && [r, s][1..] == [s] && [s][1..] == [];
    assert Run(c3, hf, [s]) == Apply(c3, hf, s).cache;
    assert Run(c2, hf, [r, s]) == Run(c3, hf, [s]);
    assert Run(c1, hf, [q, r, s]) == Run(c2, hf, [r, s]);
  }

  /**
   * A readable key can stop reading though nothing is evicted or lost: its fresh entry
   * sits before an expired one of the same key, and a set of another key displaces it
   * behind.  The two calls follow the run of `FirstFour`.
   */
  lemma DisplacedBehindStale(hf: HashFn, x: seq<byte>, a: seq<byte>, d: seq<byte>, k: seq<byte>)
    requires FourKeys(hf, x, a, d, k)
    ensures var ops := [OpSet(x, [1], 0, Env(0, true, true)), OpSet(a, [1], 1, Env(0, true, true)),
                        OpSet(d, [1], 0, Env(0, true, true)), OpDel(x, 0)];
            var o1 := Set(Run(Create(4), hf, ops), hf, a, [1], 0, Env(NOW, true, true));
            var o2 := Set(o1.cache, hf, k, [1], 0, Env(NOW, true, true));
            && Get(o1.cache, hf, a, NOW).reply == Value([1])
            && o2.reply == Done && o2.evicted.None? && o2.dropped.None?
            && Get(o2.cache, hf, a, NOW).reply == NotFound
  {
    hide Run;
    hide Create;
    hide Set;
    hide Get;
    hide Find;
    hide Insert;
    hide Tiny;
    var ops := [OpSet(x, [1], 0, Env(0, true, true)), OpSet(a, [1], 1, Env(0, true, true)),
                OpSet(d, [1], 0, Env(0, true, true)), OpDel(x, 0)];
    var i := ShardIdx(HashOf(hf, a));
    FirstFour(hf, x, a, d, k);
    var c := Run(Create(4), hf, ops);
    Call5(hf, x, a, d, k);
    TinySet(c, hf, a, 0, NOW, i, T4(hf, x, a, d), 2);
    var o1 := Set(c, hf, a, [1], 0, Env(NOW, true, true));
    ReadsTiny(o1.cache, hf, a, i, T5(hf, x, a, d), 3, 0);
    Call6(hf, x, a, d, k);
    TinySet(o1.cache, hf, k, 0, NOW, i, T5(hf, x, a, d), 3);
    var o2 := Set(o1.cache, hf, k, [1], 0, Env(NOW, true, true));
    Hidden(hf, x, a, d, k);
    MissesTiny(o2.cache, hf, a, i, T6(hf, x, a, d, k), 4);
  }
}
