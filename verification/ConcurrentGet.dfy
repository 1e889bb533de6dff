/**
 * Readers and writers of one shard together: the seqlock protocol, with writers that
 * make the stores of set, delete and flush one at a time.  Every read is linearizable.
 */
module ConcurrentGet {
  import opened Bytes
  import opened Entries
  import opened Table
  import opened Cache
  import opened CacheInvariant
  import opened CacheBags
  import opened CacheRuns
  import opened Shelf
  import opened ShardWriters
  import opened WriterTrace
  import S = Seqlock

  /** `bags` and `jobs` are history variables: what each version stores, and which job led from each to the next. */
  datatype World = World(s: S.Shared, sec: Option<Section>, bags: seq<Bag>, jobs: seq<Job>)

  datatype Act =
    | Other(a: S.Action)                       // readers, lock and unlock, memory of other shards
    | Begin(t: nat, job: Job)
    | Step(t: nat, hand: Option<nat>)
    | Scribble(t: nat, x: Slot)                // fields copied into a BUSY slot
    | End(t: nat)

  predicate Passive(a: S.Action) {
    !a.WriteBegin? && !a.WriteSlot? && !a.WriteMem? && !a.WriteEnd?
  }

  /** Memory that another thread writes belongs neither to this shard's entries nor to its writer. */
  predicate Foreign(w: World, mem: Memory) {
    if w.sec.None? then Spares(w.s.table, [], w.s.mem, mem)
    else Spares(Effective(w.s.table, w.sec.value.pc), Held(w.sec.value), w.s.mem, mem)
  }

  /** Thread `t` is in its write section. */
  predicate Writing(w: World, t: nat) {
    && t < |w.s.threads| && w.s.threads[t].WOpen?
    && w.sec.Some? && |w.s.table| > 0 && PcIn(w.sec.value, |w.s.table|)
  }

  ghost predicate Can(w: World, g: Config, act: Act) {
    match act
    case Other(a) => S.Enabled(w.s, a) && Passive(a) && (a.OtherMem? ==> Foreign(w, a.mem))
    case Begin(t, job) => S.Enabled(w.s, S.WriteBegin(t)) && |w.bags| > 0 && MayStart(w.s.table, w.s.mem, g, job)
    case Step(t, _) => Writing(w, t) && !w.sec.value.pc.Closing? && (w.sec.value.pc.Filling? ==> w.sec.value.pc.left == 0)
    case Scribble(t, x) => Writing(w, t) && w.sec.value.pc.Filling? && w.sec.value.pc.left > 0 && x.state.Busy?
    case End(t) => Writing(w, t) && w.sec.value.pc.Closing?
  }

  function Stored(s: S.Shared, f: Effect): S.Shared
    requires f.Write? ==> f.k < |s.table|
  {
    s.(table := TableAfter(s.table, f), mem := MemAfter(s.mem, f))
  }

  ghost function Do(w: World, g: Config, act: Act): World
    requires Can(w, g, act)
  {
    match act
    case Other(a) => w.(s := S.Do(w.s, a))
    case Begin(t, job) => w.(s := S.Do(w.s, S.WriteBegin(t)), sec := Some(Opened(job, w.bags[|w.bags| - 1])))
    case Step(t, hand) =>
      var (f, c) := Micro(w.s.table, w.s.mem, g.hash, w.sec.value, hand);
      w.(s := Stored(w.s, f), sec := Some(c))
    case Scribble(t, x) => w.(s := Stored(w.s, Write(w.sec.value.pc.s, x)), sec := Some(Copied(w.sec.value)))
    case End(t) =>
      w.(s := w.s.(seq_ := w.s.seq_ + 1, versions := w.s.versions + [S.Version(w.s.table, w.s.mem)],
                   threads := w.s.threads[t := S.WClosed]),
         sec := None, bags := w.bags + [w.sec.value.bag], jobs := w.jobs + [w.sec.value.job])
  }

  // ---- the invariant ----

  /** Job `k` made version `k + 1` out of version `k`. */
  ghost predicate Led(versions: seq<S.Version>, bags: seq<Bag>, jobs: seq<Job>, g: Config, k: nat)
    requires k + 1 < |bags| == |versions| && k < |jobs|
  {
    JobDid(versions[k].table, versions[k].mem, g.hash, jobs[k], versions[k + 1].table, bags[k], bags[k + 1])
  }

  ghost predicate History(versions: seq<S.Version>, bags: seq<Bag>, jobs: seq<Job>, g: Config) {
    && |bags| == |versions| && |jobs| + 1 == |bags|
    && (forall k | 0 <= k < |bags| :: Shelved(versions[k].table, versions[k].mem, g, [], bags[k]))
    && (forall k | 0 <= k < |jobs| :: Led(versions, bags, jobs, g, k))
  }

  ghost predicate Current(w: World, g: Config)
    requires |w.bags| > 0 && |w.bags| == |w.s.versions|
  {
    var b := w.bags[|w.bags| - 1];
    var v := w.s.versions[|w.bags| - 1];
    if w.s.seq_ % 2 == 0 then
      w.sec.None? && Shelved(w.s.table, w.s.mem, g, [], b) && SameSlots(v.table, w.s.table)
    else
      && w.sec.Some? && w.sec.value.start == b && SectionOk(w.s.table, w.s.mem, g, w.sec.value)
      && |v.table| > 0 && Traced(v.table, v.mem, w.s.table, w.s.mem, g.hash, w.sec.value)
  }

  ghost predicate Inv(w: World, g: Config) {
    S.Inv(w.s) && |w.bags| == |w.s.versions| > 0 && History(w.s.versions, w.bags, w.jobs, g) && Current(w, g)
  }

  lemma WriterIsOdd(w: World, t: nat)
    requires S.Inv(w.s) && t < |w.s.threads| && w.s.threads[t].WOpen?
    ensures w.s.seq_ % 2 == 1
  {
    hide S.VersionsOk;
    hide S.ThreadOk;
  }

  lemma LockedIsEven(w: World, t: nat)
    requires S.Inv(w.s) && t < |w.s.threads| && w.s.threads[t].WLocked?
    ensures w.s.seq_ % 2 == 0
  {
    hide S.VersionsOk;
    hide S.ThreadOk;
    S.OneHolder(w.s, t);
  }

  lemma PassiveFrame(s: S.Shared, a: S.Action)
    requires S.Enabled(s, a) && Passive(a)
    ensures var d := S.Do(s, a);
            && d.seq_ == s.seq_ && d.versions == s.versions && SameSlots(s.table, d.table)
            && d.mem == (if a.OtherMem? then a.mem else s.mem)
  {
    S.StepFrame(s, a);
    hide S.ReadStep;
    hide S.KeepsBytes;
    hide KeyBytes;
  }

  lemma OtherKeeps(w: World, g: Config, a: S.Action)
    requires Inv(w, g) && Can(w, g, Other(a))
    ensures Inv(Do(w, g, Other(a)), g)
  {
    hide History;
    hide S.Inv;
    hide Shelved;
    hide SectionOk;
    hide Spares;
    S.StepKeeps(w.s, a);
    PassiveFrame(w.s, a);
    hide S.Do;
    hide S.Enabled;
    hide Traced;
    hide SameSlots;
    hide JobDid;
    var d := S.Do(w.s, a);
    var b := w.bags[|w.bags| - 1];
    var v := w.s.versions[|w.bags| - 1];
    if w.sec.None? {
      if a.OtherMem? { MemStore(w.s.table, w.s.mem, a.mem, g, [], b); }
      ClockStore(w.s.table, d.table, d.mem, g, [], b);
      SameTwice(v.table, w.s.table, d.table);
    } else {
      var c := w.sec.value;
      if a.OtherMem? {
        MemMeanwhile(w.s.table, w.s.mem, a.mem, g, c);
        MemFollows(v.table, v.mem, w.s.table, w.s.mem, a.mem, g, c);
      }
      ClockMeanwhile(w.s.table, d.table, d.mem, g, c);
      ClockFollows(v.table, v.mem, w.s.table, d.table, d.mem, g.hash, c);
    }
  }

  lemma BeginKeeps(w: World, g: Config, t: nat, job: Job)
    requires Inv(w, g) && Can(w, g, Begin(t, job))
    ensures Inv(Do(w, g, Begin(t, job)), g)
  {
    hide History;
    hide Shelved;
    hide SectionOk;
    hide MayStart;
    hide Traced;
    hide JobDid;
    hide SameSlots;
    LockedIsEven(w, t);
    LastReadsSame(w);
    hide S.Inv;
    S.StepKeeps(w.s, S.WriteBegin(t));
    S.StepFrame(w.s, S.WriteBegin(t));
    var b := w.bags[|w.bags| - 1];
    var v := w.s.versions[|w.bags| - 1];
    OpenKeeps(w.s.table, w.s.mem, g, job, b);
    assert |v.table| > 0 by { assert |w.s.table| > 0; hide *; SameLength(v.table, w.s.table); }
    OpenFollows(v.table, v.mem, w.s.table, w.s.mem, g.hash, job, b);
  }

  /** Between sections every entry reads as in the last version. */
  lemma LastReadsSame(w: World)
    requires S.Inv(w.s) && w.s.seq_ % 2 == 0 && |w.bags| == |w.s.versions| > 0
    ensures var v := w.s.versions[|w.bags| - 1]; ReadsSame(v.table, v.mem, w.s.mem)
  {
    var v := w.s.versions[|w.bags| - 1];
    hide S.ThreadOk;
    assert S.SameView(w.s.table, w.s.mem, v);
    forall k | 0 <= k < |v.table| && v.table[k].state.Live?
      ensures KeyBytes(v.table[k].item, w.s.mem) == KeyBytes(v.table[k].item, v.mem)
              && RecordOf(v.table[k].item, w.s.mem) == RecordOf(v.table[k].item, v.mem)
    {
      assert w.s.table[k].state == v.table[k].state;
      assert S.SameBytes(w.s.table[k].item, v.mem, w.s.mem);
    }
  }

  /** A writer's store is one of the stores the seqlock allows. */
  lemma StoreKeeps(s: S.Shared, t: nat, f: Effect)
    requires S.Inv(s) && t < |s.threads| && s.threads[t].WOpen? && |s.table| > 0 && (f.Write? ==> f.k < |s.table|)
    ensures S.Inv(Stored(s, f))
  {
    hide S.Inv;
    hide S.ReadStep;
    match f
    case Nothing => assert Stored(s, f) == s;
    case Write(k, x) =>
      S.StepKeeps(s, S.WriteSlot(t, k, x));
      assert Stored(s, f) == S.Do(s, S.WriteSlot(t, k, x));
    case Free(mem) =>
      S.StepKeeps(s, S.WriteMem(t, mem));
      assert Stored(s, f) == S.Do(s, S.WriteMem(t, mem));
  }

  lemma StepKeeps(w: World, g: Config, t: nat, hand: Option<nat>)
    requires Inv(w, g) && Can(w, g, Step(t, hand))
    ensures Inv(Do(w, g, Step(t, hand)), g)
  {
    hide History;
    hide Shelved;
    hide SectionOk;
    hide Micro;
    WriterIsOdd(w, t);
    hide S.Inv;
    hide Traced;
    hide JobDid;
    var c := w.sec.value;
    var v := w.s.versions[|w.bags| - 1];
    MicroKeeps(w.s.table, w.s.mem, g, c, hand);
    MicroFollows(v.table, v.mem, w.s.table, w.s.mem, g, c, hand);
    StoreKeeps(w.s, t, Micro(w.s.table, w.s.mem, g.hash, c, hand).0);
  }

  lemma ScribbleStepKeeps(w: World, g: Config, t: nat, x: Slot)
    requires Inv(w, g) && Can(w, g, Scribble(t, x))
    ensures Inv(Do(w, g, Scribble(t, x)), g)
  {
    hide History;
    hide Shelved;
    hide SectionOk;
    WriterIsOdd(w, t);
    hide S.Inv;
    hide Traced;
    hide JobDid;
    var v := w.s.versions[|w.bags| - 1];
    ScribbleKeeps(w.s.table, w.s.mem, g, w.sec.value, x);
    ScribbleFollows(v.table, v.mem, w.s.table, w.s.mem, g.hash, w.sec.value, x);
    StoreKeeps(w.s, t, Write(w.sec.value.pc.s, x));
  }

  lemma ShelvedReadable(t: seq<Slot>, mem: Memory, g: Config, b: Bag)
    requires Shelved(t, mem, g, [], b)
    ensures S.Readable(t, mem)
  {
    hide Chain;
  }

  /** Closing a section is allowed by the seqlock: what it commits can be read. */
  lemma EndIsWriteEnd(w: World, g: Config, t: nat)
    requires Inv(w, g) && Can(w, g, End(t))
    ensures S.Enabled(w.s, S.WriteEnd(t)) && Do(w, g, End(t)).s == S.Do(w.s, S.WriteEnd(t))
    ensures Shelved(w.s.table, w.s.mem, g, [], w.sec.value.bag)
    ensures var v := w.s.versions[|w.bags| - 1];
            JobDid(v.table, v.mem, g.hash, w.sec.value.job, w.s.table, w.bags[|w.bags| - 1], w.sec.value.bag)
  {
    hide Shelved;
    hide SectionOk;
    hide JobDid;
    hide S.Readable;
    WriterIsOdd(w, t);
    hide S.Inv;
    hide Traced;
    hide JobDid;
    var v := w.s.versions[|w.bags| - 1];
    ClosedMoves(w.s.table, w.s.mem, g, w.sec.value);
    SectionDid(v.table, v.mem, w.s.table, w.s.mem, g, w.sec.value);
    ShelvedReadable(w.s.table, w.s.mem, g, w.sec.value.bag);
  }

  lemma EndKeeps(w: World, g: Config, t: nat)
    requires Inv(w, g) && Can(w, g, End(t))
    ensures Inv(Do(w, g, End(t)), g)
  {
    hide Shelved;
    hide SectionOk;
    hide JobDid;
    hide S.Readable;
    WriterIsOdd(w, t);
    hide S.Inv;
    EndIsWriteEnd(w, g, t);
    S.StepKeeps(w.s, S.WriteEnd(t));
    hide S.Do;
    hide S.Enabled;
    var d := Do(w, g, End(t));
    assert forall k | 0 <= k < |w.bags| :: d.bags[k] == w.bags[k] && d.s.versions[k] == w.s.versions[k];
    assert forall k | 0 <= k < |w.jobs| :: d.jobs[k] == w.jobs[k];
    hide JobDid;
    forall k | 0 <= k < |d.jobs| ensures Led(d.s.versions, d.bags, d.jobs, g, k) {
      if k < |w.jobs| { assert Led(w.s.versions, w.bags, w.jobs, g, k); }
    }
    SameAsItself(w.s.table);
  }

  lemma SameLength(t: seq<Slot>, u: seq<Slot>)
    requires SameSlots(t, u)
    ensures |t| == |u|
  {
  }

  lemma SameAsItself(t: seq<Slot>)
    ensures SameSlots(t, t)
  {
  }

  /** Every store of every writer and every access of every reader keeps the invariant. */
  lemma ActKeeps(w: World, g: Config, act: Act)
    requires Inv(w, g) && Can(w, g, act)
    ensures Inv(Do(w, g, act), g)
  {
    match act
    case Other(a) => OtherKeeps(w, g, a);
    case Begin(t, job) => BeginKeeps(w, g, t, job);
    case Step(t, hand) => StepKeeps(w, g, t, hand);
    case Scribble(t, x) => ScribbleStepKeeps(w, g, t, x);
    case End(t) => EndKeeps(w, g, t);
  }

  // ---- runs ----

  ghost predicate Legal(w: World, g: Config, run: seq<Act>)
    decreases |run|
  {
    run == [] || (Can(w, g, run[0]) && Legal(Do(w, g, run[0]), g, run[1..]))
  }

  ghost function Exec(w: World, g: Config, run: seq<Act>): World
    requires Legal(w, g, run)
    decreases |run|
  {
    if run == [] then w else Exec(Do(w, g, run[0]), g, run[1..])
  }

  function Initial(table: seq<Slot>, mem: Memory, threads: nat, b: Bag): World {
    World(S.Start(table, mem, threads), None, [b], [])
  }

  lemma {:induction false} RunKeeps(w: World, g: Config, run: seq<Act>)
    requires Inv(w, g) && Legal(w, g, run)
    ensures Inv(Exec(w, g, run), g)
    decreases |run|
  {
    hide Inv;
    hide Do;
    hide Can;
    if run != [] {
      ActKeeps(w, g, run[0]);
      RunKeeps(Do(w, g, run[0]), g, run[1..]);
    }
  }

  lemma InitialInv(table: seq<Slot>, mem: Memory, threads: nat, b: Bag, g: Config)
    requires Shelved(table, mem, g, [], b)
    ensures Inv(Initial(table, mem, threads, b), g)
  {
    ShelvedReadable(table, mem, g, b);
    assert |table| > 0;
    hide Shelved;
    S.StartInv(table, mem, threads);
  }

  // ---- how long a section lasts ----

  /** The steps a writer makes in a run. */
  function Writes(run: seq<Act>): nat {
    if run == [] then 0 else (if run[0].Step? || run[0].Scribble? then 1 else 0) + Writes(run[1..])
  }

  predicate SameSection(run: seq<Act>) {
    forall k | 0 <= k < |run| :: !run[k].Begin? && !run[k].End?
  }

  lemma ActRank(w: World, g: Config, act: Act)
    requires Inv(w, g) && Can(w, g, act) && !act.Begin? && !act.End? && w.sec.Some?
    ensures var d := Do(w, g, act);
            && d.sec.Some? && |d.s.table| == |w.s.table|
            && Rank(d.sec.value, |d.s.table|) + Writes([act]) <= Rank(w.sec.value, |w.s.table|)
  {
    hide Shelved;
    hide SectionOk;
    hide S.Inv;
    hide Rank;
    assert [act][1..] == [];
    match act
    case Other(a) =>
      PassiveFrame(w.s, a);
      hide S.Do;
      hide S.Enabled;
    case Step(t, hand) =>
      hide Micro;
      StepEnds(w.s.table, w.s.mem, g.hash, w.sec.value, hand);
    case Scribble(t, x) =>
      WriterIsOdd(w, t) by { SectionInv(w, g); }
      ScribbleKeeps(w.s.table, w.s.mem, g, w.sec.value, x);
  }

  lemma SectionInv(w: World, g: Config)
    requires Inv(w, g)
    ensures S.Inv(w.s)
  {
  }

  lemma {:induction false} RunRank(w: World, g: Config, run: seq<Act>)
    requires Inv(w, g) && Legal(w, g, run) && SameSection(run) && w.sec.Some?
    ensures var d := Exec(w, g, run);
            && d.sec.Some? && |d.s.table| == |w.s.table|
            && Rank(d.sec.value, |d.s.table|) + Writes(run) <= Rank(w.sec.value, |w.s.table|)
    decreases |run|
  {
    hide Inv;
    hide Do;
    hide Can;
    hide Rank;
    if run != [] {
      ActKeeps(w, g, run[0]);
      ActRank(w, g, run[0]);
      assert Writes(run) == Writes([run[0]]) + Writes(run[1..]) by { assert [run[0]][1..] == []; }
      RunRank(Do(w, g, run[0]), g, run[1..]);
    }
  }

  /**
   * However other threads interleave, a writer makes at most 11 cap + 9 steps inside one
   * section, field copies included, so readers that wait for an even counter do not wait
   * for ever.
   */
  lemma SectionsEnd(w: World, g: Config, run: seq<Act>)
    requires Inv(w, g) && Legal(w, g, run) && SameSection(run) && w.sec.Some?
    ensures Writes(run) <= 11 * |w.s.table| + 9
  {
    hide Legal;
    hide S.Inv;
    hide Shelved;
    hide Progress;
    RunRank(w, g, run);
    RankBound(w.sec.value, |w.s.table|);
  }

  /** No writer gets stuck: inside its section it can always copy a field, make its next store or close. */
  lemma WriterGoesOn(w: World, g: Config, t: nat, x: Slot)
    requires Inv(w, g) && t < |w.s.threads| && w.s.threads[t].WOpen? && x.state.Busy?
    ensures w.sec.Some? && if w.sec.value.pc.Closing? then Can(w, g, End(t)) else Can(w, g, Step(t, None)) || Can(w, g, Scribble(t, x))
  {
    hide Shelved;
    hide Progress;
    hide Traced;
    hide History;
    WriterIsOdd(w, t);
    assert |w.s.table| > 0;
    hide S.Inv;
  }

  // ---- what reads return ----

  /** The value bytes behind the fields a reader copied. */
  function ValueOf(v: S.View, mem: Memory): Option<seq<byte>> {
    ValBytes(Item(v.keyLong, v.valSlab, v.valMmap, v.valLen, v.keyLen, 0, 0, v.payload), mem)
  }

  /** The read answers from bag `b`: a fresh record of the key, or a miss where lookup may miss. */
  ghost predicate ReadsBag(b: Bag, mem: Memory, r: S.Reader, result: Option<S.View>) {
    if result.None? then Misses(b, r.q.key, r.now)
    else exists x :: x in b && x.key == r.q.key && !Expired(x.expireNs, r.now) && ValueOf(result.value, mem) == Some(x.val)
  }

  lemma VersionAnswers(v: S.Version, g: Config, b: Bag, r: S.Reader)
    requires Shelved(v.table, v.mem, g, [], b) && r.q.hash == HashOf(g.hash, r.q.key)
    ensures |v.table| > 0 && ReadsBag(b, v.mem, r, S.Answer(v, r))
  {
    assert |v.table| > 0;
    hide Shelved;
    ShelvedLookup(v.table, v.mem, g, [], b, r.q.key, r.now);
    var f := S.FindIn(v, r);
    if f.Some? {
      var x := RecordOf(v.table[f.value].item, v.mem).value;
      assert ValueOf(S.ViewOf(v.table[f.value].item), v.mem) == Some(x.val);
    }
  }

  /** A finished read answers from the bag of one version, no older than the call. */
  ghost predicate Linear(w: World, g: Config, th: S.Thread) {
    th.Finished? && th.r.q.hash == HashOf(g.hash, th.r.q.key) ==>
      && th.r.begin % 2 == 0 && th.r.q.since <= th.r.begin
      && th.r.begin / 2 < |w.bags| && th.r.begin / 2 < |w.s.versions|
      && ReadsBag(w.bags[th.r.begin / 2], w.s.versions[th.r.begin / 2].mem, th.r, th.result)
  }

  /**
   * Linearizability of one shard over every interleaving of any number of readers and
   * of writers running set, delete and flush store by store: the committed versions
   * form one sequence, each got from the one before by its job, and every finished
   * read answers from the version of its begin sequence.
   */
  lemma ReadsAreLinear(table: seq<Slot>, mem: Memory, threads: nat, b: Bag, g: Config, run: seq<Act>)
    requires Shelved(table, mem, g, [], b) && Legal(Initial(table, mem, threads, b), g, run)
    ensures var w := Exec(Initial(table, mem, threads, b), g, run);
            && S.Exclusive(w.s) && |w.s.versions| == |w.bags| == |w.jobs| + 1
            && (forall k | 0 <= k < |w.jobs| :: Led(w.s.versions, w.bags, w.jobs, g, k))
            && (forall t | 0 <= t < |w.s.threads| :: Linear(w, g, w.s.threads[t]))
  {
    hide Shelved;
    hide Legal;
    hide Exec;
    hide SectionOk;
    hide JobDid;
    hide S.Answer;
    hide S.PhaseOk;
    hide S.SameView;
    hide ReadsBag;
    var w0 := Initial(table, mem, threads, b);
    InitialInv(table, mem, threads, b, g);
    RunKeeps(w0, g, run);
    var w := Exec(w0, g, run);
    forall t | 0 <= t < |w.s.threads| ensures Linear(w, g, w.s.threads[t]) {
      var th := w.s.threads[t];
      assert S.ThreadOk(w.s, th);
      if th.Finished? && th.r.q.hash == HashOf(g.hash, th.r.q.key) {
        VersionAnswers(w.s.versions[th.r.begin / 2], g, w.bags[th.r.begin / 2], th.r);
      }
    }
  }

  /**
   * The value is there when the read is decided: when a lock-free read validates, and
   * while a locked read holds the lock, the fields copied lead, in memory as it is
   * then, to a fresh record of the latest version.
   */
  lemma ValueWhenDecided(w: World, g: Config, t: nat)
    requires Inv(w, g) && t < |w.s.threads|
    requires var th := w.s.threads[t];
             th.Reading? && th.ph.Copied? && th.r.begin == w.s.seq_ && th.r.q.hash == HashOf(g.hash, th.r.q.key)
    ensures var th := w.s.threads[t];
            ReadsBag(w.bags[|w.bags| - 1], w.s.mem, th.r, Some(th.ph.view))
  {
    hide Shelved;
    hide SectionOk;
    hide JobDid;
    var th := w.s.threads[t];
    assert S.ThreadOk(w.s, th);
    var v := w.s.versions[|w.bags| - 1];
    assert th.r.begin / 2 == |w.bags| - 1;
    VersionAnswers(v, g, w.bags[|w.bags| - 1], th.r);
    var k := th.ph.s;
    assert S.Answer(v, th.r) == Some(th.ph.view);
    assert S.SameBytes(w.s.table[k].item, v.mem, w.s.mem);
    assert ValueOf(th.ph.view, w.s.mem) == ValueOf(th.ph.view, v.mem);
  }

  /** Where the version stores a map, the read answers as the map does. */
  lemma ReadIsMap(m: Ref, mem: Memory, r: S.Reader, result: Option<S.View>)
    requires ReadsBag(BagOf(m), mem, r, result)
    ensures result.Some? <==> Present(m, r.q.key, r.now)
    ensures result.Some? ==> ValueOf(result.value, mem) == Some(m[r.q.key].val)
  {
    MissesIff(m, r.q.key, r.now);
    if result.Some? {
      var x :| x in BagOf(m) && x.key == r.q.key && !Expired(x.expireNs, r.now) && ValueOf(result.value, mem) == Some(x.val);
      InBag(m, x);
    }
  }
}
