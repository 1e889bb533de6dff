/** Replaying the log against the cache it was written for. */
module WalReplay {
  import opened Bytes
  import opened Entries
  import opened Table
  import opened Cache
  import opened CacheInvariant
  import opened CacheBags
  import opened CacheRuns
  import opened CacheLaws
  import opened PushOuts
  import opened CacheAsMap
  import W = Wal

  type Replayed = map<seq<byte>, seq<byte>>

  function ReplayOne(r: Replayed, e: W.Record): Replayed {
    if e.op == 0x53 then r[e.key := e.val] else if e.op == 0x44 then r - {e.key} else r
  }

  /** Folding SET and DEL records, oldest first. */
  function Replay(es: seq<W.Record>): Replayed {
    if |es| == 0 then map[] else ReplayOne(Replay(es[..|es| - 1]), es[|es| - 1])
  }

  /** What a call logs before it touches the table; a set with bad arguments logs nothing. */
  function LogOf(op: Op): (es: seq<W.Record>)
    ensures |es| <= 1
  {
    match op
    case OpSet(key, val, ttl, _) => if ValidSet(key, val) then [W.Record(W.OP_SET, key, val, ttl)] else []
    case OpDel(key, _) => [W.Record(W.OP_DEL, key, [], 0)]
    case _ => []
  }

  function LogRun(ops: seq<Op>): seq<W.Record> {
    if |ops| == 0 then [] else LogRun(ops[..|ops| - 1]) + LogOf(ops[|ops| - 1])
  }

  /** TTL 0, no flush, no failed allocation. */
  predicate Quiet(op: Op, o: Outcome) {
    (op.OpSet? ==> op.ttl == 0) && !op.OpFlush? && o.reply != OutOfMemory
  }

  function Keys(k: Option<seq<byte>>): set<seq<byte>> {
    if k.Some? then {k.value} else {}
  }

  /** The keys a set pushed out and no later call set or deleted. */
  function LostAfter(lost: set<seq<byte>>, op: Op, o: Outcome): set<seq<byte>> {
    match op
    case OpSet(key, _, _, _) => if o.reply == Done then lost - {key} + Keys(o.evicted) + Keys(o.dropped) else lost
    case OpDel(key, _) => lost - {key}
    case _ => lost
  }

  function Short(val: seq<byte>): seq<byte> { if |val| <= 65535 then val else val[..65535] }

  /** Memory is the replayed log less the keys pushed out, values clamped to 65535 bytes. */
  predicate Mirrors(m: Ref, r: Replayed, lost: set<seq<byte>>) {
    && m.Keys == r.Keys - lost && lost <= r.Keys
    && forall k | k in m :: m[k] == Cached(Short(r[k]), 0)
  }

  lemma StepMirrors(m: Ref, r: Replayed, lost: set<seq<byte>>, op: Op, o: Outcome)
    requires Mirrors(m, r, lost) && Quiet(op, o) && ReplyFits(m, op, o)
    ensures Mirrors(RefApply(m, op, o), if LogOf(op) == [] then r else ReplayOne(r, LogOf(op)[0]), LostAfter(lost, op, o))
  {
    match op
    case OpSet(key, val, ttl, env) =>
    case OpDel(key, now) =>
    case _ =>
  }

  lemma MirrorsNotStale(m: Ref, r: Replayed, lost: set<seq<byte>>, op: Op)
    requires Mirrors(m, r, lost)
    ensures NotStale(m, op)
  {
  }

  lemma ReplayAppend(es: seq<W.Record>, fs: seq<W.Record>)
    requires |fs| <= 1
    ensures Replay(es + fs) == if fs == [] then Replay(es) else ReplayOne(Replay(es), fs[0])
  {
    if fs == [] {
      assert es + fs == es;
    } else {
      assert (es + fs)[..|es|] == es;
    }
  }

  // ---- runs ----

  predicate QuietRun(c: Cache, hf: HashFn, ops: seq<Op>)
    requires Shape(c)
    decreases |ops|
  {
    ops == [] ||
    var o := Apply(c, hf, ops[0]);
    Quiet(ops[0], o) && QuietRun(o.cache, hf, ops[1..])
  }

  function LostRun(c: Cache, hf: HashFn, lost: set<seq<byte>>, ops: seq<Op>): set<seq<byte>>
    requires Shape(c)
    decreases |ops|
  {
    if ops == [] then lost
    else
      var o := Apply(c, hf, ops[0]);
      LostRun(o.cache, hf, LostAfter(lost, ops[0], o), ops[1..])
  }

  lemma {:induction false} LogRunFirst(ops: seq<Op>)
    requires ops != []
    ensures LogRun(ops) == LogOf(ops[0]) + LogRun(ops[1..])
  {
    var n := |ops| - 1;
    if n == 0 {
      assert ops[..0] == [];
    } else {
      LogRunFirst(ops[..n]);
      assert ops[..n][1..] == ops[1..][..n - 1];
    }
  }

  /** One call keeps memory and the replayed log alike. */
  lemma CallMirrors(c: Cache, g: Config, m: Ref, log: seq<W.Record>, lost: set<seq<byte>>, op: Op)
    requires Inv(c, g, m, []) && !g.small && Mirrors(m, Replay(log), lost) && Quiet(op, Apply(c, g.hash, op))
    ensures var o := Apply(c, g.hash, op);
            && NotStale(m, op) && Inv(o.cache, g, RefApply(m, op, o), [])
            && Mirrors(RefApply(m, op, o), Replay(log + LogOf(op)), LostAfter(lost, op, o))
  {
    assert Shape(c);
    hide BagInv;
    hide BagOf;
    hide Apply;
    hide RefApply;
    hide ReplyFits;
    hide LostAfter;
    hide Mirrors;
    hide NotStale;
    hide Replay;
    MirrorsNotStale(m, Replay(log), lost, op);
    StepRefines(c, g, m, op);
    StepMirrors(m, Replay(log), lost, op, Apply(c, g.hash, op));
    ReplayAppend(log, LogOf(op));
  }

  lemma {:induction false} RunMirrors(c: Cache, g: Config, m: Ref, log: seq<W.Record>, lost: set<seq<byte>>, ops: seq<Op>)
    requires Inv(c, g, m, []) && !g.small && Mirrors(m, Replay(log), lost) && QuietRun(c, g.hash, ops)
    ensures NeverStale(c, g.hash, m, ops)
    ensures Mirrors(RefRun(c, g.hash, m, ops), Replay(log + LogRun(ops)), LostRun(c, g.hash, lost, ops))
    decreases |ops|
  {
    hide AllGood;
    hide OwnedOnce;
    hide Arena;
    hide Stores;
    hide ShardOk;
    hide BagOf;
    hide Apply;
    hide RefApply;
    hide LostAfter;
    hide Mirrors;
    hide NotStale;
    hide Replay;
    hide Quiet;
    if ops == [] {
      assert log + LogRun(ops) == log;
    } else {
      var o := Apply(c, g.hash, ops[0]);
      CallMirrors(c, g, m, log, lost, ops[0]);
      RunMirrors(o.cache, g, RefApply(m, ops[0], o), log + LogOf(ops[0]), LostAfter(lost, ops[0], o), ops[1..]);
      LogRunFirst(ops);
      hide LogRun;
      assert log + LogOf(ops[0]) + LogRun(ops[1..]) == log + LogRun(ops);
    }
  }

  /**
   * Replay agrees with memory: after every run of TTL-0 sets, gets and deletes with
   * no flush and no failed allocation, a lookup gives what the log says, except for
   * the keys pushed out and not written since.
   */
  lemma ReplayAgrees(cap: nat, hf: HashFn, ops: seq<Op>, key: seq<byte>, now: int)
    requires PowerOfTwo(cap) && QuietRun(Create(cap), hf, ops)
    ensures var c := Run(Create(cap), hf, ops);
            var r := Replay(LogRun(ops));
            var lost := LostRun(Create(cap), hf, {}, ops);
            && lost <= r.Keys
            && Get(c, hf, key, now).reply == (if key in r && key !in lost then Value(Short(r[key])) else NotFound)
  {
    hide BagInv;
    hide Apply;
    hide RefApply;
    hide Create;
    hide Get;
    hide Del;
    var g := Config(hf, false);
    CreateInv(cap, g);
    RunMirrors(Create(cap), g, map[], [], {}, ops);
    assert [] + LogRun(ops) == LogRun(ops);
    RunsRefineMap(cap, hf, ops, key, now);
  }

  function Looked(r: Replayed, key: seq<byte>): Reply {
    if key in r then Value(Short(r[key])) else NotFound
  }

  /** The log reproduces the cache exactly iff no pushed-out key is still outstanding. */
  lemma ReplayExactIff(cap: nat, hf: HashFn, ops: seq<Op>, now: int)
    requires PowerOfTwo(cap) && QuietRun(Create(cap), hf, ops)
    ensures var c := Run(Create(cap), hf, ops);
            var r := Replay(LogRun(ops));
            (forall key :: Get(c, hf, key, now).reply == Looked(r, key)) <==> LostRun(Create(cap), hf, {}, ops) == {}
  {
    hide Run;
    hide Get;
    hide LostRun;
    hide QuietRun;
    hide Create;
    var c := Run(Create(cap), hf, ops);
    var r := Replay(LogRun(ops));
    var lost := LostRun(Create(cap), hf, {}, ops);
    if lost != {} {
      var k :| k in lost;
      ReplayAgrees(cap, hf, ops, k, now);
      assert Get(c, hf, k, now).reply != Looked(r, k);
    } else {
      forall key: seq<byte> ensures Get(c, hf, key, now).reply == Looked(r, key) {
        ReplayAgrees(cap, hf, ops, key, now);
      }
    }
  }

  // ---- one call ----

  lemma {:induction false} RunLast(c: Cache, hf: HashFn, lost: set<seq<byte>>, ops: seq<Op>, op: Op)
    requires Shape(c) && QuietRun(c, hf, ops + [op])
    ensures QuietRun(c, hf, ops)
    ensures var o := Apply(Run(c, hf, ops), hf, op);
            && Quiet(op, o) && Run(c, hf, ops + [op]) == o.cache
            && LostRun(c, hf, lost, ops + [op]) == LostAfter(LostRun(c, hf, lost, ops), op, o)
    decreases |ops|
  {
    hide Apply;
    hide Quiet;
    hide LostAfter;
    if ops != [] {
      assert (ops + [op])[0] == ops[0] && (ops + [op])[1..] == ops[1..] + [op];
      var o := Apply(c, hf, ops[0]);
      RunLast(o.cache, hf, LostAfter(lost, ops[0], o), ops[1..], op);
    }
  }

  lemma LogLast(ops: seq<Op>, op: Op)
    ensures LogRun(ops + [op]) == LogRun(ops) + LogOf(op)
  {
    assert (ops + [op])[..|ops|] == ops;
  }

  /** What a lookup gives if memory is `r` less the keys in `lost`. */
  function Seen(r: Replayed, lost: set<seq<byte>>, key: seq<byte>): Reply {
    if key in r && key !in lost then Value(Short(r[key])) else NotFound
  }

  /**
   * The log is written before the table.  While the record of a call is appended and
   * the table is untouched, memory is the log without that record; when the call
   * returns memory is the whole log; and the record changes no key but the call's own.
   */
  lemma OneRecordBehind(cap: nat, hf: HashFn, ops: seq<Op>, op: Op, key: seq<byte>, now: int)
    requires PowerOfTwo(cap) && QuietRun(Create(cap), hf, ops + [op])
    ensures var before := Run(Create(cap), hf, ops);
            var log := LogRun(ops) + LogOf(op);
            var lost := LostRun(Create(cap), hf, {}, ops);
            var o := Apply(before, hf, op);
            && Get(before, hf, key, now).reply == Seen(Replay(log[..|log| - |LogOf(op)|]), lost, key)
            && Get(o.cache, hf, key, now).reply == Seen(Replay(log), LostAfter(lost, op, o), key)
            && (LogOf(op) == [] || LogOf(op)[0].key != key ==>
                  Looked(Replay(log), key) == Looked(Replay(log[..|log| - |LogOf(op)|]), key))
  {
    hide Create;
    hide Apply;
    hide Get;
    hide Run;
    hide LostRun;
    hide LostAfter;
    hide QuietRun;
    hide Replay;
    var log := LogRun(ops) + LogOf(op);
    assert log[..|log| - |LogOf(op)|] == LogRun(ops);
    RunLast(Create(cap), hf, {}, ops, op);
    LogLast(ops, op);
    ReplayAgrees(cap, hf, ops, key, now);
    ReplayAgrees(cap, hf, ops + [op], key, now);
    if LogOf(op) == [] || LogOf(op)[0].key != key { OwnKeyOnly(LogRun(ops), LogOf(op), key); }
  }

  lemma OwnKeyOnly(es: seq<W.Record>, fs: seq<W.Record>, key: seq<byte>)
    requires |fs| <= 1 && (fs == [] || fs[0].key != key)
    ensures Looked(Replay(es + fs), key) == Looked(Replay(es), key)
  {
    ReplayAppend(es, fs);
  }

  // ---- when the log reproduces the cache ----

  ghost predicate Exact(c: Cache, hf: HashFn, log: seq<W.Record>, now: int)
    requires Shape(c)
  {
    forall key :: Get(c, hf, key, now).reply == Looked(Replay(log), key)
  }

  /** The call is a set that would evict or lose an entry, judged before it starts. */
  predicate PushesOut(c: Cache, hf: HashFn, op: Op)
    requires Shape(c)
  {
    op.OpSet? && Accepted(c, op.key, op.val, op.env) &&
    (WouldEvict(c, hf, op.key, op.env.now) || WouldDrop(c, hf, op.key, op.env.now))
  }

  lemma PushedOut(c: Cache, g: Config, b: Bag, op: Op)
    requires BagInv(c, g, b, []) && !g.small && !op.OpFlush?
    ensures var o := Apply(c, g.hash, op);
            LostAfter({}, op, o) == {} <==> !PushesOut(c, g.hash, op)
  {
    assert Shape(c);
    hide BagInv;
    hide Get;
    hide Set;
    hide Del;
    hide Accepted;
    hide WouldEvict;
    hide WouldDrop;
    if op.OpSet? {
      EvictsIff(c, g, b, op.key, op.val, op.ttl, op.env);
      DropsIff(c, g, b, op.key, op.val, op.ttl, op.env);
      OnlyDonePushes(c, g.hash, op);
    }
  }

  lemma OnlyDonePushes(c: Cache, hf: HashFn, op: Op)
    requires Shape(c) && op.OpSet?
    ensures var o := Apply(c, hf, op); o.reply != Done ==> o.evicted.None? && o.dropped.None?
  {
  }

  /**
   * One call keeps the log exact iff it is not a set that evicts or loses an entry,
   * and that can be told from the cache before the call.
   */
  lemma StaysExactIff(cap: nat, hf: HashFn, ops: seq<Op>, op: Op, now: int)
    requires PowerOfTwo(cap) && QuietRun(Create(cap), hf, ops + [op])
    requires Exact(Run(Create(cap), hf, ops), hf, LogRun(ops), now)
    ensures var c := Run(Create(cap), hf, ops);
            Exact(Apply(c, hf, op).cache, hf, LogRun(ops + [op]), now) <==> !PushesOut(c, hf, op)
  {
    hide Create;
    hide Apply;
    hide Get;
    hide Run;
    hide LostRun;
    hide LostAfter;
    hide QuietRun;
    hide BagRun;
    hide PushesOut;
    RunLast(Create(cap), hf, {}, ops, op);
    assert !op.OpFlush?;
    ReplayExactIff(cap, hf, ops, now);
    ReplayExactIff(cap, hf, ops + [op], now);
    var b := EveryRunMovesABag(cap, hf, ops);
    hide BagInv;
    PushedOut(Run(Create(cap), hf, ops), Config(hf, false), b, op);
  }

  lemma {:induction false} RoomyLosesNothing(c: Cache, g: Config, m: Ref, ops: seq<Op>, cap: nat)
    requires Inv(c, g, m, []) && !g.small && AllCaps(c, cap) && NoOvercount(c)
    requires PlainRoomy(m, g.hash, ops, cap) && QuietRun(c, g.hash, ops)
    ensures LostRun(c, g.hash, {}, ops) == {}
    decreases |ops|
  {
    hide AllGood;
    hide OwnedOnce;
    hide Arena;
    hide Stores;
    hide ShardOk;
    hide Apply;
    hide RefApply;
    hide PlainApply;
    hide AllCaps;
    hide NoOvercount;
    if ops != [] {
      StepIsPlain(c, g, m, ops[0], cap);
      var o := Apply(c, g.hash, ops[0]);
      assert LostAfter({}, ops[0], o) == {};
      RoomyLosesNothing(o.cache, g, PlainApply(m, ops[0]), ops[1..], cap);
    }
  }

  /**
   * If every set finds its shard below 85% of the table, the log reproduces the cache
   * exactly; the premise is about the calls, the hash and the capacity only.
   */
  lemma RoomyReplaysExactly(cap: nat, hf: HashFn, ops: seq<Op>, now: int)
    requires PowerOfTwo(cap) && QuietRun(Create(cap), hf, ops) && PlainRoomy(map[], hf, ops, cap)
    ensures Exact(Run(Create(cap), hf, ops), hf, LogRun(ops), now)
  {
    hide Create;
    hide Run;
    hide LostRun;
    hide QuietRun;
    hide PlainRoomy;
    hide Get;
    hide BagInv;
    hide BagOf;
    hide AllCaps;
    hide NoOvercount;
    CreateInv(cap, Config(hf, false));
    CreateTables(cap);
    RoomyLosesNothing(Create(cap), Config(hf, false), map[], ops, cap);
    ReplayExactIff(cap, hf, ops, now);
  }

  /**
   * Otherwise it need not: two short pairs of one shard set in a cache of one slot per
   * shard are both in the log, and only one is in the cache.
   */
  lemma ReplayDiffers(hf: HashFn, key1: seq<byte>, val1: seq<byte>, key2: seq<byte>, val2: seq<byte>, env: Env, now: int)
    requires Collide(hf, key1, val1, key2, val2)
    ensures var ops := [OpSet(key1, val1, 0, env), OpSet(key2, val2, 0, env)];
            QuietRun(Create(1), hf, ops) && !Exact(Run(Create(1), hf, ops), hf, LogRun(ops), now)
  {
    hide Create;
    hide Set;
    hide Get;
    var ops := [OpSet(key1, val1, 0, env), OpSet(key2, val2, 0, env)];
    SetLosesEntry(hf, key1, val1, key2, val2, 0, env);
    var o1 := Apply(Create(1), hf, ops[0]);
    var o2 := Apply(o1.cache, hf, ops[1]);
    TwoCalls(Create(1), hf, ops, o1, o2);
    hide QuietRun;
    hide LostRun;
    ReplayExactIff(1, hf, ops, now);
  }

  lemma TwoCalls(c: Cache, hf: HashFn, ops: seq<Op>, o1: Outcome, o2: Outcome)
    requires Shape(c) && |ops| == 2 && o1 == Apply(c, hf, ops[0]) && o2 == Apply(o1.cache, hf, ops[1])
    requires Quiet(ops[0], o1) && Quiet(ops[1], o2) && ops[1].OpSet? && o2.reply == Done && o2.dropped.Some?
    ensures QuietRun(c, hf, ops) && LostRun(c, hf, {}, ops) != {}
  {
    hide Apply;
    assert ops[1..] == [ops[1]] && ops[1..][1..] == [];
    assert QuietRun(o1.cache, hf, ops[1..]);
    var lost := LostAfter({}, ops[0], o1);
    assert LostRun(o1.cache, hf, lost, ops[1..]) == LostAfter(lost, ops[1], o2);
    assert o2.dropped.value in LostAfter(lost, ops[1], o2);
  }

  // ---- through the ring ----

  function Stamped(es: seq<W.Record>, ts: nat -> nat): (items: seq<(W.Record, nat)>)
    ensures |items| == |es|
  {
    seq(|es|, k requires 0 <= k < |es| => (es[k], ts(k)))
  }

  lemma StampedFirsts(es: seq<W.Record>, ts: nat -> nat)
    ensures W.Firsts(Stamped(es, ts)) == es
  {
  }

  /** What a restart reads from a new ring that the records fit into replays to the same map. */
  lemma RingReplays(size: nat, es: seq<W.Record>, ts: nat -> nat, sum: W.Checksum)
    requires size % 8 == 0 && size < TWO_32
    requires forall k | 0 <= k < |Stamped(es, ts)| :: W.Loggable(Stamped(es, ts)[k], size)
    requires W.Occupied(es) <= size
    ensures var w := W.AppendAll(W.Empty(size), Stamped(es, ts), sum);
            Replay(W.Records(W.Scan(w.ring, sum))) == Replay(es)
  {
    hide W.Scan;
    hide W.AppendAll;
    hide W.Occupied;
    hide Replay;
    StampedFirsts(es, ts);
    W.ScanAfterRun(size, Stamped(es, ts), sum);
  }

  /**
   * After a wrap it need not: a deleted key comes back, whether the two records read are
   * replayed as they lie or by sequence number.
   */
  lemma WrappedRingRevives(sum: W.Checksum)
    ensures var items := W.SevenItems();
            var read := W.Scan(W.AppendAll(W.Empty(288), items, sum).ring, sum);
            && W.KEY !in Replay(W.Firsts(items))
            && |read| == 2 && read[1].seqNo < read[0].seqNo
            && W.KEY in Replay([read[0].rec, read[1].rec]) && W.KEY in Replay([read[1].rec, read[0].rec])
  {
    W.ScanReadsOld(sum);
    hide W.Scan;
    hide W.AppendAll;
    hide W.Large;
    hide Replay;
    ReplayTwo(W.Large(), W.SETS);
    ReplayTwo(W.SETS, W.Large());
    var es := W.Firsts(W.SevenItems());
    assert es == es[..4] + [W.DELETES, W.FILLER, W.Large()];
    ReplayAppend(es[..4], [W.DELETES]);
    ReplayAppend(es[..4] + [W.DELETES], [W.FILLER]);
    ReplayAppend(es[..4] + [W.DELETES] + [W.FILLER], [W.Large()]);
    assert es == es[..4] + [W.DELETES] + [W.FILLER] + [W.Large()];
  }

  lemma ReplayTwo(a: W.Record, b: W.Record)
    ensures Replay([a, b]) == ReplayOne(ReplayOne(map[], a), b)
  {
    assert [a, b][..1] == [a] && [a][..0] == [];
    assert Replay([a]) == ReplayOne(map[], a);
  }
}
