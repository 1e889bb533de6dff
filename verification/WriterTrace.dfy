/**
 * What a write section does to the table, however other threads interleave: the entry
 * of the key goes, a victim may go, and the rest is the insertion of the sequential code.
 */
module WriterTrace {
  import opened Bytes
  import opened Entries
  import opened Table
  import opened Cache
  import opened CacheInvariant
  import opened CacheSteps
  import opened CacheStore
  import opened CacheBags
  import opened Shelf
  import opened ShardWriters

  /** A table without the entry in slot `o`. */
  function Out(t: seq<Slot>, o: Option<nat>): (u: seq<Slot>)
    ensures |u| == |t|
  {
    if o.Some? && o.value < |t| then t[o.value := t[o.value].(state := Dead)] else t
  }

  /** The table and the entry given up on, clock bits aside. */
  predicate Like(a: (seq<Slot>, Option<Item>), b: (seq<Slot>, Option<Item>)) {
    SameSlots(a.0, b.0) && a.1 == b.1
  }

  /** Every LIVE entry of `t` reads in `mem` as it did in `m0`. */
  predicate ReadsSame(t: seq<Slot>, m0: Memory, mem: Memory) {
    forall s | 0 <= s < |t| && t[s].state.Live? ::
      KeyBytes(t[s].item, mem) == KeyBytes(t[s].item, m0) && RecordOf(t[s].item, mem) == RecordOf(t[s].item, m0)
  }

  // ---- clock bits do not matter ----

  lemma SameTwice(t: seq<Slot>, u: seq<Slot>, v: seq<Slot>)
    requires SameSlots(t, u) && SameSlots(u, v)
    ensures SameSlots(t, v) && SameSlots(u, t) && SameSlots(t, t)
  {
  }

  lemma SameOut(t: seq<Slot>, u: seq<Slot>, o: Option<nat>)
    requires SameSlots(t, u)
    ensures SameSlots(Out(t, o), Out(u, o))
  {
  }

  lemma SameStore(t: seq<Slot>, u: seq<Slot>, s: nat, x: Slot)
    requires SameSlots(t, u) && s < |t|
    ensures SameSlots(t[s := x], u[s := x])
  {
  }

  lemma {:induction false} SamePlace(t: seq<Slot>, u: seq<Slot>, e: Item, d: nat, s: nat, i: nat)
    requires SameSlots(t, u) && s < |t|
    ensures Like(Place(t, e, d, s, i), Place(u, e, d, s, i))
    decreases |t| - i
  {
    if i < |t| {
      if Vacant(t[s]) {
        SameStore(t, u, s, Filled(e, d));
      } else if t[s].state.Live? && t[s].dist < d {
        SameStore(t, u, s, Filled(e, d));
        SamePlace(t[s := Filled(e, d)], u[s := Filled(e, d)], t[s].item, (t[s].dist + 1) % 256, Next(s, |t|), i + 1);
      } else {
        SamePlace(t, u, e, (d + 1) % 256, Next(s, |t|), i + 1);
      }
    }
  }

  lemma {:induction false} SameFind(t: seq<Slot>, u: seq<Slot>, m0: Memory, mem: Memory, key: seq<byte>, h: nat, now: int, i: nat)
    requires |t| > 0 && SameSlots(t, u) && ReadsSame(t, m0, mem)
    ensures FindFrom(u, mem, key, h, now, i) == FindFrom(t, m0, key, h, now, i)
    decreases |t| - i
  {
    hide KeyBytes;
    hide RecordOf;
    if i < |t| {
      assert t[At(Home(h, |t|), i, |t|)].state == u[At(Home(h, |t|), i, |t|)].state;
      SameFind(t, u, m0, mem, key, h, now, i + 1);
    }
  }

  // ---- the trace ----

  /** The slots and the entry that a section removes are those of its records. */
  predicate Tallied(c: Section) {
    (c.was.Some? <==> c.old_.Some?) && (c.ev.Some? <==> c.victim.Some?) && (c.dr.Some? <==> c.lost.Some?)
  }

  /** The entry removed first is the one lookup finds in the table the section started from. */
  predicate OldIs(t0: seq<Slot>, m0: Memory, hf: HashFn, job: Job, o: Option<nat>)
    requires |t0| > 0 && !job.FlushJob?
  {
    o == Find(t0, m0, JobKey(job), HashOf(hf, JobKey(job)), job.now)
  }

  predicate VictimIs(t0: seq<Slot>, o: Option<nat>, v: Option<nat>) {
    v.Some? ==> v.value < |t0| && Out(t0, o)[v.value].state.Live?
  }

  /** What insertion makes of the table without those two entries. */
  function Goal(t0: seq<Slot>, c: Section): (seq<Slot>, Option<Item>)
    requires |t0| > 0 && c.job.SetJob?
  {
    Insert(Out(Out(t0, c.old_), c.victim), c.job.e)
  }

  /** The first `j` slots flushed. */
  predicate FlushedTo(t0: seq<Slot>, t: seq<Slot>, j: nat) {
    && |t| == |t0|
    && forall s | 0 <= s < |t| ::
         && t[s].item == t0[s].item && t[s].dist == t0[s].dist
         && t[s].state == if s < j && t0[s].state.Live? then Dead else t0[s].state
  }

  predicate FlushTraced(t0: seq<Slot>, t: seq<Slot>, c: Section) {
    match c.pc
    case Found(f) => FlushedTo(t0, t, f) && f < |t| && t[f].state.Live?
    case Killing(f) => FlushedTo(t0, t, f) && f < |t| && t[f].state.Live?
    case Flushing(j) => FlushedTo(t0, t, j)
    case Closing => FlushedTo(t0, t, |t|)
    case _ => false
  }

  /** Where insertion stands: what is left to do gives what the sequential insertion gives. */
  predicate InsertTraced(t0: seq<Slot>, t: seq<Slot>, c: Section)
    requires |t0| > 0 && c.job.SetJob? && PcIn(c, |t|)
  {
    match c.pc
    case Placing(x, d, s, n) => Like(Place(t, x, d, s, n), Goal(t0, c))
    case Filling(x, d, s, n, _, out) =>
      var u := t[s := Filled(x, d)];
      Like(if out.None? then (u, None) else Place(u, out.value.0, (out.value.1 + 1) % 256, Next(s, |u|), n + 1), Goal(t0, c))
    case _ => true
  }

  predicate Traced(t0: seq<Slot>, m0: Memory, t: seq<Slot>, mem: Memory, hf: HashFn, c: Section)
    requires |t0| > 0
  {
    && |t| == |t0| && PcIn(c, |t|)
    && if c.job.FlushJob? then FlushTraced(t0, t, c)
       else
         && Tallied(c) && VictimIs(t0, c.old_, c.victim)
         && (!c.pc.Start? ==> OldIs(t0, m0, hf, c.job, c.old_))
         && (!c.pc.Closing? ==> c.lost.None?)
         && (c.pc.Start? || c.pc.Found? || c.pc.Killing? || c.pc.Choose? || c.pc.Sweeping? ==> c.victim.None?)
         && match c.pc
            case Start => SameSlots(t0, t) && ReadsSame(t0, m0, mem) && c.old_.None?
            case Found(f) => SameSlots(t0, t) && c.old_ == Some(f)
            case Killing(f) => SameSlots(t0, t) && c.old_ == Some(f)
            case Choose => SameSlots(Out(t0, c.old_), t)
            case Sweeping(_, _) => SameSlots(Out(t0, c.old_), t)
            case Victim(v, _) => c.victim == Some(v) && SameSlots(Out(Out(t0, c.old_), c.victim), Out(t, c.victim))
            case Freed(v) => c.victim == Some(v) && SameSlots(Out(Out(t0, c.old_), c.victim), Out(t, c.victim))
            case Placing(_, _, _, _) => InsertTraced(t0, t, c)
            case Filling(_, _, _, _, _, _) => InsertTraced(t0, t, c)
            case Flushing(_) => false
            case Closing => if c.job.SetJob? then Like((t, c.lost), Goal(t0, c)) else SameSlots(Out(t0, c.old_), t)
  }

  /** A step keeps the trace. */
  ghost predicate Follows(t0: seq<Slot>, m0: Memory, t: seq<Slot>, mem: Memory, hf: HashFn, c: Section, hand: Option<nat>)
    requires |t0| > 0 && |t| > 0 && PcIn(c, |t|)
  {
    var (f, d) := Micro(t, mem, hf, c, hand);
    Traced(t0, m0, TableAfter(t, f), MemAfter(mem, f), hf, d)
  }

  // ---- removal ----

  lemma StartFollows(t0: seq<Slot>, m0: Memory, t: seq<Slot>, mem: Memory, g: Config, c: Section, hand: Option<nat>)
    requires |t0| > 0 && Traced(t0, m0, t, mem, g.hash, c) && SectionOk(t, mem, g, c) && c.pc.Start?
    ensures Follows(t0, m0, t, mem, g.hash, c, hand)
  {
    hide Shelved;
    hide Bagged;
    hide RecordOf;
    hide KeyBytes;
    hide ReadsSame;
    hide Progress;
    hide FindFrom;
    var key := JobKey(c.job);
    SameFind(t0, t, m0, mem, key, HashOf(g.hash, key), c.job.now, 0);
    ShelvedLookup(t, mem, g, Held(c), c.bag, key, c.job.now);
    SameTwice(t0, t, t0);
  }

  lemma RemovalFollows(t0: seq<Slot>, m0: Memory, t: seq<Slot>, mem: Memory, hf: HashFn, c: Section, hand: Option<nat>)
    requires |t0| > 0 && Traced(t0, m0, t, mem, hf, c) && (c.pc.Found? || c.pc.Killing?) && !c.job.FlushJob?
    ensures Follows(t0, m0, t, mem, hf, c, hand)
  {
    hide Bagged;
    hide RecordOf;
    hide KeyBytes;
    hide ReadsSame;
    hide Find;
    hide Ptrs;
    hide Place;
    SameOut(t0, t, c.old_);
  }

  // ---- eviction ----

  lemma StartsPlacing(t0: seq<Slot>, t: seq<Slot>, c: Section)
    requires |t0| > 0 && c.job.SetJob? && SameSlots(Out(Out(t0, c.old_), c.victim), t)
    ensures InsertTraced(t0, t, c.(pc := StartPlacing(c.job.e, |t|)))
  {
    var ready := Out(Out(t0, c.old_), c.victim);
    SamePlace(ready, t, c.job.e, 0, Home(c.job.e.keyHash, |t|), 0);
    hide Place;
    SameTwice(Place(ready, c.job.e, 0, Home(c.job.e.keyHash, |t|), 0).0, Place(t, c.job.e, 0, Home(c.job.e.keyHash, |t|), 0).0,
              Place(ready, c.job.e, 0, Home(c.job.e.keyHash, |t|), 0).0) by {
      SameBack(Place(ready, c.job.e, 0, Home(c.job.e.keyHash, |t|), 0).0, Place(t, c.job.e, 0, Home(c.job.e.keyHash, |t|), 0).0);
    }
  }

  lemma SameBack(t: seq<Slot>, u: seq<Slot>)
    requires SameSlots(t, u)
    ensures SameSlots(u, t)
  {
  }

  lemma ChooseFollows(t0: seq<Slot>, m0: Memory, t: seq<Slot>, mem: Memory, hf: HashFn, c: Section, hand: Option<nat>)
    requires |t0| > 0 && Traced(t0, m0, t, mem, hf, c) && (c.pc.Choose? || (c.pc.Sweeping? && c.pc.n >= |t|))
    ensures Follows(t0, m0, t, mem, hf, c, hand)
  {
    hide Bagged;
    hide RecordOf;
    hide KeyBytes;
    hide ReadsSame;
    hide Find;
    hide Ptrs;
    hide InsertTraced;
    StartsPlacing(t0, t, c);
  }

  lemma SweepFollows(t0: seq<Slot>, m0: Memory, t: seq<Slot>, mem: Memory, g: Config, c: Section, hand: Option<nat>)
    requires |t0| > 0 && Traced(t0, m0, t, mem, g.hash, c) && SectionOk(t, mem, g, c) && c.pc.Sweeping? && c.pc.n < |t|
    ensures Follows(t0, m0, t, mem, g.hash, c, hand)
  {
    hide Shelved;
    hide Progress;
    hide Bagged;
    hide RecordOf;
    hide KeyBytes;
    hide ReadsSame;
    hide Find;
    hide Ptrs;
    hide InsertTraced;
    var v := Next(c.pc.h, |t|);
    if t[v].state.Live? && !t[v].clock {
      ShelvedRecord(t, mem, g, Held(c), c.bag, v);
      SameOut(Out(t0, c.old_), t, Some(v));
      assert Out(t[v := t[v].(state := Busy)], Some(v)) == Out(t, Some(v));
    }
  }

  lemma FreeFollows(t0: seq<Slot>, m0: Memory, t: seq<Slot>, mem: Memory, hf: HashFn, c: Section, hand: Option<nat>)
    requires |t0| > 0 && Traced(t0, m0, t, mem, hf, c) && (c.pc.Victim? || c.pc.Freed?)
    ensures Follows(t0, m0, t, mem, hf, c, hand)
  {
    hide Bagged;
    hide RecordOf;
    hide KeyBytes;
    hide ReadsSame;
    hide Find;
    hide Ptrs;
    hide InsertTraced;
    if c.pc.Freed? { StartsPlacing(t0, Out(t, c.victim), c); }
  }

  // ---- insertion ----

  lemma PlaceStepFollows(t0: seq<Slot>, t: seq<Slot>, mem: Memory, hf: HashFn, c: Section, hand: Option<nat>)
    requires |t0| > 0 && c.job.SetJob? && c.pc.Placing? && PcIn(c, |t|) && InsertTraced(t0, t, c) && c.pc.n < |t|
    ensures var (f, d) := Micro(t, mem, hf, c, hand);
            && (d.pc.Placing? || d.pc.Filling?) && InsertTraced(t0, TableAfter(t, f), d)
            && d.was == c.was && d.ev == c.ev && d.dr == c.dr && d.old_ == c.old_ && d.victim == c.victim && d.lost == c.lost
  {
    hide Place;
    hide SameSlots;
    hide Bagged;
    hide RecordOf;
    hide Find;
    hide Ptrs;
    hide Home;
    var s := c.pc.s;
    PlaceNext(t, c.pc.x, c.pc.d, s, c.pc.n);
    assert t[s := t[s].(state := Busy)][s := Filled(c.pc.x, c.pc.d)] == t[s := Filled(c.pc.x, c.pc.d)];
  }

  lemma PlaceEndFollows(t0: seq<Slot>, t: seq<Slot>, mem: Memory, g: Config, c: Section, hand: Option<nat>)
    requires |t0| > 0 && c.pc.Placing? && SectionOk(t, mem, g, c) && InsertTraced(t0, t, c) && c.pc.n >= |t|
    ensures var (f, d) := Micro(t, mem, g.hash, c, hand);
            && f.Nothing? && d == c.(pc := Closing, dr := RecordOf(c.pc.x, mem), lost := Some(c.pc.x)) && d.dr.Some?
            && Like((t, d.lost), Goal(t0, c))
  {
    assert Good(Held(c)[0], mem, g);
    hide Shelved;
    hide SameSlots;
    PlaceNext(t, c.pc.x, c.pc.d, c.pc.s, c.pc.n);
  }

  lemma PlaceFollows(t0: seq<Slot>, m0: Memory, t: seq<Slot>, mem: Memory, g: Config, c: Section, hand: Option<nat>)
    requires |t0| > 0 && Traced(t0, m0, t, mem, g.hash, c) && SectionOk(t, mem, g, c) && c.pc.Placing?
    ensures Follows(t0, m0, t, mem, g.hash, c, hand)
  {
    hide SectionOk;
    hide SameSlots;
    hide Find;
    hide Micro;
    hide InsertTraced;
    hide RecordOf;
    hide ReadsSame;
    hide Out;
    hide Place;
    MicroIn(t, mem, g.hash, c, hand);
    if c.pc.n < |t| {
      PlaceStepFollows(t0, t, mem, g.hash, c, hand);
    } else {
      PlaceEndFollows(t0, t, mem, g, c, hand);
    }
  }

  lemma FillFollows(t0: seq<Slot>, m0: Memory, t: seq<Slot>, mem: Memory, hf: HashFn, c: Section, hand: Option<nat>)
    requires |t0| > 0 && Traced(t0, m0, t, mem, hf, c) && c.pc.Filling?
    ensures Follows(t0, m0, t, mem, hf, c, hand)
  {
    hide Bagged;
    hide RecordOf;
    hide KeyBytes;
    hide ReadsSame;
    hide Find;
    hide Ptrs;
    hide SameSlots;
    hide Place;
  }

  lemma FlushFollows(t0: seq<Slot>, m0: Memory, t: seq<Slot>, mem: Memory, hf: HashFn, c: Section, hand: Option<nat>)
    requires |t0| > 0 && Traced(t0, m0, t, mem, hf, c) && c.job.FlushJob?
    ensures Follows(t0, m0, t, mem, hf, c, hand)
  {
    hide Bagged;
    hide RecordOf;
    hide KeyBytes;
    hide ReadsSame;
    hide Find;
    hide Ptrs;
  }

  /** Every store of a writer keeps the trace. */
  lemma MicroFollows(t0: seq<Slot>, m0: Memory, t: seq<Slot>, mem: Memory, g: Config, c: Section, hand: Option<nat>)
    requires |t0| > 0 && Traced(t0, m0, t, mem, g.hash, c) && SectionOk(t, mem, g, c) && !c.pc.Closing?
    ensures Follows(t0, m0, t, mem, g.hash, c, hand)
  {
    hide Follows;
    hide SectionOk;
    hide SameSlots;
    if c.job.FlushJob? {
      FlushFollows(t0, m0, t, mem, g.hash, c, hand);
    } else {
      match c.pc
      case Start => StartFollows(t0, m0, t, mem, g, c, hand);
      case Found(_) => RemovalFollows(t0, m0, t, mem, g.hash, c, hand);
      case Killing(_) => RemovalFollows(t0, m0, t, mem, g.hash, c, hand);
      case Choose => ChooseFollows(t0, m0, t, mem, g.hash, c, hand);
      case Sweeping(_, n) =>
        if n >= |t| { ChooseFollows(t0, m0, t, mem, g.hash, c, hand); } else { SweepFollows(t0, m0, t, mem, g, c, hand); }
      case Victim(_, _) => FreeFollows(t0, m0, t, mem, g.hash, c, hand);
      case Freed(_) => FreeFollows(t0, m0, t, mem, g.hash, c, hand);
      case Placing(_, _, _, _) => PlaceFollows(t0, m0, t, mem, g, c, hand);
      case Filling(_, _, _, _, _, _) => FillFollows(t0, m0, t, mem, g.hash, c, hand);
    }
  }

  // ---- what other threads do meanwhile ----

  lemma InsertClock(t0: seq<Slot>, t: seq<Slot>, u: seq<Slot>, c: Section)
    requires |t0| > 0 && c.job.SetJob? && SameSlots(t, u) && PcIn(c, |t|) && InsertTraced(t0, t, c)
    ensures InsertTraced(t0, u, c)
  {
    hide Out;
    hide Insert;
    SameBack(t, u);
    match c.pc
    case Placing(x, d, s, n) => SamePlace(u, t, x, d, s, n);
    case Filling(x, d, s, n, _, out) =>
      var z := Filled(x, d);
      SameStore(u, t, s, z);
      if out.Some? { SamePlace(u[s := z], t[s := z], out.value.0, (out.value.1 + 1) % 256, Next(s, |t|), n + 1); }
    case _ =>
  }

  /** A reader sets a clock bit. */
  lemma ClockFollows(t0: seq<Slot>, m0: Memory, t: seq<Slot>, u: seq<Slot>, mem: Memory, hf: HashFn, c: Section)
    requires |t0| > 0 && Traced(t0, m0, t, mem, hf, c) && SameSlots(t, u)
    ensures Traced(t0, m0, u, mem, hf, c)
  {
    hide ReadsSame;
    hide Find;
    hide InsertTraced;
    hide Insert;
    if c.job.SetJob? && (c.pc.Placing? || c.pc.Filling?) { InsertClock(t0, t, u, c); }
    SameOut(t, u, c.victim);
  }

  lemma SparedReads(t0: seq<Slot>, t: seq<Slot>, g: Config, held: seq<Item>, b: Bag, m0: Memory, mem: Memory, mem': Memory)
    requires SameSlots(t0, t) && ReadsSame(t0, m0, mem) && Spares(t, held, mem, mem') && Shelved(t, mem, g, held, b)
    ensures ReadsSame(t0, m0, mem')
  {
    forall s | 0 <= s < |t0| && t0[s].state.Live?
      ensures KeyBytes(t0[s].item, mem') == KeyBytes(t0[s].item, m0) && RecordOf(t0[s].item, mem') == RecordOf(t0[s].item, m0)
    {
      assert KeepsPtrs(t[s].item, mem, mem') && Good(t[s].item, mem, g);
    }
  }

  /** Other shards change memory that is not this shard's. */
  lemma MemFollows(t0: seq<Slot>, m0: Memory, t: seq<Slot>, mem: Memory, mem': Memory, g: Config, c: Section)
    requires |t0| > 0 && Traced(t0, m0, t, mem, g.hash, c) && SectionOk(t, mem, g, c)
    requires Spares(Effective(t, c.pc), Held(c), mem, mem')
    ensures Traced(t0, m0, t, mem', g.hash, c)
  {
    hide Shelved;
    hide Progress;
    hide Spares;
    hide Find;
    hide InsertTraced;
    hide Insert;
    hide ReadsSame;
    hide SameSlots;
    if c.pc.Start? && !c.job.FlushJob? { SparedReads(t0, t, g, Held(c), c.bag, m0, mem, mem'); }
  }

  /** The writer copies a field into the BUSY slot it is filling. */
  lemma ScribbleFollows(t0: seq<Slot>, m0: Memory, t: seq<Slot>, mem: Memory, hf: HashFn, c: Section, x: Slot)
    requires |t0| > 0 && Traced(t0, m0, t, mem, hf, c) && c.pc.Filling? && c.pc.left > 0
    ensures Traced(t0, m0, t[c.pc.s := x], mem, hf, Copied(c))
  {
    hide Find;
    hide Place;
    hide ReadsSame;
    hide SameSlots;
    assert t[c.pc.s := x][c.pc.s := Filled(c.pc.x, c.pc.d)] == t[c.pc.s := Filled(c.pc.x, c.pc.d)];
  }

  // ---- a whole section ----

  lemma OpenFollows(t0: seq<Slot>, m0: Memory, t: seq<Slot>, mem: Memory, hf: HashFn, job: Job, b: Bag)
    requires |t0| > 0 && SameSlots(t0, t) && ReadsSame(t0, m0, mem)
    ensures Traced(t0, m0, t, mem, hf, Opened(job, b))
  {
    hide ReadsSame;
  }

  /** What became of a set: the slots it emptied, the entry it gave up on, and the records. */
  datatype Trace = Trace(
    old_: Option<nat>, victim: Option<nat>, lost: Option<Item>, was: Option<Record>, ev: Option<Record>, dr: Option<Record>)

  /**
   * A set took the entry that lookup finds out of the table `t0`, perhaps a LIVE victim, and
   * inserted its own as the sequential code does: `t1` is the table that gives, clock bits
   * aside.  It gave an entry up iff no slot was vacant by then.
   */
  ghost predicate SetDid(t0: seq<Slot>, m0: Memory, hf: HashFn, job: Job, t1: seq<Slot>, b: Bag, b': Bag, x: Trace)
    requires |t0| > 0 && job.SetJob?
  {
    && x.old_ == Find(t0, m0, job.q.key, HashOf(hf, job.q.key), job.now)
    && VictimIs(t0, x.old_, x.victim)
    && (var ready := Out(Out(t0, x.old_), x.victim);
        && SameSlots(Insert(ready, job.e).0, t1) && x.lost == Insert(ready, job.e).1
        && (x.dr.Some? <==> forall k | 0 <= k < |ready| :: !Vacant(ready[k])))
    && SetMoved(b, job.q, job.now, b', x.was, x.ev, x.dr)
    && (x.was.Some? <==> x.old_.Some?) && (x.ev.Some? <==> x.victim.Some?) && (x.dr.Some? <==> x.lost.Some?)
  }

  /** A delete took out just the entry that lookup finds. */
  ghost predicate DelDid(t0: seq<Slot>, m0: Memory, hf: HashFn, job: Job, t1: seq<Slot>, b: Bag, b': Bag, was: Option<Record>)
    requires |t0| > 0 && job.DelJob?
  {
    var o := Find(t0, m0, job.key, HashOf(hf, job.key), job.now);
    && SameSlots(Out(t0, o), t1) && (was.Some? <==> o.Some?)
    && Taken(b, job.key, job.now, was) && b' == b - Bagged(was)
  }

  /** What a finished section did to the table and to the bag. */
  ghost predicate JobDid(t0: seq<Slot>, m0: Memory, hf: HashFn, job: Job, t1: seq<Slot>, b: Bag, b': Bag) {
    && |t0| > 0
    && match job
       case SetJob(_, _, _) => exists x :: SetDid(t0, m0, hf, job, t1, b, b', x)
       case DelJob(_, _) => exists was :: DelDid(t0, m0, hf, job, t1, b, b', was)
       case FlushJob => FlushedTo(t0, t1, |t0|) && b' == multiset{}
  }

  lemma SetClosed(t0: seq<Slot>, m0: Memory, t: seq<Slot>, mem: Memory, g: Config, c: Section)
    requires |t0| > 0 && Traced(t0, m0, t, mem, g.hash, c) && SectionOk(t, mem, g, c) && c.pc.Closing? && c.job.SetJob?
    ensures SetDid(t0, m0, g.hash, c.job, t, c.start, c.bag, Trace(c.old_, c.victim, c.lost, c.was, c.ev, c.dr))
  {
    hide Shelved;
    hide Taken;
    hide Bagged;
    hide RecordOf;
    hide Find;
    hide Items;
    var ready := Out(Out(t0, c.old_), c.victim);
    InsertConserves(ready, c.job.e);
    SameBack(t, Insert(ready, c.job.e).0);
    hide Insert;
    hide Out;
  }

  /** A section that closes has done its job, to the table and to the bag. */
  lemma SectionDid(t0: seq<Slot>, m0: Memory, t: seq<Slot>, mem: Memory, g: Config, c: Section)
    requires |t0| > 0 && Traced(t0, m0, t, mem, g.hash, c) && SectionOk(t, mem, g, c) && c.pc.Closing?
    ensures JobDid(t0, m0, g.hash, c.job, t, c.start, c.bag)
  {
    hide Shelved;
    hide Find;
    hide RecordOf;
    hide Bagged;
    hide Taken;
    hide Insert;
    match c.job
    case SetJob(_, _, _) => SetClosed(t0, m0, t, mem, g, c);
    case DelJob(_, _) => assert DelDid(t0, m0, g.hash, c.job, t, c.start, c.bag, c.was);
    case FlushJob => ClosedMoves(t, mem, g, c);
  }
}
