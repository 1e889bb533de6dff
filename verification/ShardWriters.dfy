/**
 * What writers do inside a write section: the loops of set, delete and flush as
 * programs that make one store at a time, on a shard that other threads read and
 * whose clock bits and foreign memory they change.
 */
module ShardWriters {
  import opened Bytes
  import opened Entries
  import opened Table
  import opened Cache
  import opened CacheInvariant
  import opened CacheStore
  import opened CacheBags
  import opened Shelf

  /** `e` is the entry a set has built, with its buffers, before it takes the lock; `q` is what it holds. */
  datatype Job =
    | SetJob(q: Record, e: Item, now: int)
    | DelJob(key: seq<byte>, now: int)
    | FlushJob

  /** The fields insertion copies into a BUSY slot: flags, lengths, hash, expiry, clock bit, distance, payload. */
  const FIELDS: nat := 8

  /** Where a writer is. */
  datatype Pc =
    | Start                                   // about to look the key up
    | Found(f: nat)                           // about to free the entry in slot `f`
    | Killing(f: nat)                         // its buffers are free, the slot is still LIVE
    | Choose                                  // about to test the threshold
    | Sweeping(h: nat, n: nat)                // the hand is on `h` after `n` steps
    | Victim(v: nat, y: Item)                 // slot `v` is BUSY, its entry about to be freed
    | Freed(v: nat)
    | Placing(x: Item, d: nat, s: nat, n: nat)
    | Filling(x: Item, d: nat, s: nat, n: nat, left: nat, out: Option<(Item, nat)>)   // slot `s` is BUSY, `left` fields to copy
    | Flushing(j: nat)
    | Closing

  /**
   * The other fields are history variables: the bag at the start and now, the records
   * taken, evicted and given up on, the slots of the first two, and the entry of the last.
   */
  datatype Section = Section(
    job: Job, pc: Pc, start: Bag, bag: Bag, was: Option<Record>, ev: Option<Record>, dr: Option<Record>,
    old_: Option<nat>, victim: Option<nat>, lost: Option<Item>)

  /** One store to shared memory, if any. */
  datatype Effect = Nothing | Write(k: nat, x: Slot) | Free(mem: Memory)

  predicate PcIn(c: Section, cap: nat) {
    match c.pc
    case Start => !c.job.FlushJob?
    case Found(f) => f < cap
    case Killing(f) => f < cap
    case Choose => c.job.SetJob?
    case Sweeping(h, _) => c.job.SetJob? && h < cap
    case Victim(v, _) => c.job.SetJob? && v < cap
    case Freed(v) => c.job.SetJob? && v < cap
    case Placing(_, _, s, _) => c.job.SetJob? && s < cap
    case Filling(_, _, s, n, left, _) => c.job.SetJob? && s < cap && n < cap && left <= FIELDS
    case Flushing(_) => c.job.FlushJob?
    case Closing => true
  }

  function JobKey(job: Job): seq<byte>
    requires !job.FlushJob?
  {
    if job.SetJob? then job.q.key else job.key
  }

  function StartPlacing(e: Item, cap: nat): Pc
    requires cap > 0
  {
    Placing(e, 0, Home(e.keyHash, cap), 0)
  }

  /** Where a writer goes on after removing the entry in slot `f`. */
  function AfterKill(job: Job, f: nat): Pc {
    match job
    case SetJob(_, _, _) => Choose
    case DelJob(_, _) => Closing
    case FlushJob => Flushing(f + 1)
  }

  /** The next store of a writer and where it is then; `hand` is where a sweep would start. */
  function Micro(t: seq<Slot>, mem: Memory, hf: HashFn, c: Section, hand: Option<nat>): (r: (Effect, Section))
    requires |t| > 0 && PcIn(c, |t|)
    ensures r.0.Write? ==> r.0.k < |t|
  {
    match c.pc
    case Start =>
      var key := JobKey(c.job);
      var f := Find(t, mem, key, HashOf(hf, key), c.job.now);
      if f.Some? then (Nothing, c.(pc := Found(f.value), was := RecordOf(t[f.value].item, mem), old_ := f))
      else (Nothing, c.(pc := AfterKill(c.job, 0)))
    case Found(f) =>
      var e := t[f].item;
      (Free(mem - Ptrs(e)), c.(pc := Killing(f), bag := c.bag - Bagged(RecordOf(e, mem))))
    case Killing(f) => (Write(f, t[f].(state := Dead)), c.(pc := AfterKill(c.job, f)))
    case Choose =>
      (Nothing, c.(pc := if hand.Some? && hand.value < |t| then Sweeping(hand.value, 0) else StartPlacing(c.job.e, |t|)))
    case Sweeping(h, n) =>
      if n >= |t| then (Nothing, c.(pc := StartPlacing(c.job.e, |t|)))
      else
        var v := Next(h, |t|);
        if !t[v].state.Live? then (Nothing, c.(pc := Sweeping(v, n + 1)))
        else if t[v].clock then (Write(v, t[v].(clock := false)), c.(pc := Sweeping(v, n + 1)))
        else
          var r := RecordOf(t[v].item, mem);
          (Write(v, t[v].(state := Busy)), c.(pc := Victim(v, t[v].item), ev := r, victim := Some(v), bag := c.bag - Bagged(r)))
    case Victim(v, y) => (Free(mem - Ptrs(y)), c.(pc := Freed(v)))
    case Freed(v) => (Write(v, t[v].(state := Dead)), c.(pc := StartPlacing(c.job.e, |t|)))
    case Placing(x, d, s, n) =>
      if n >= |t| then (Nothing, c.(pc := Closing, dr := RecordOf(x, mem), lost := Some(x)))
      else if Vacant(t[s]) then (Write(s, t[s].(state := Busy)), c.(pc := Filling(x, d, s, n, FIELDS, None)))
      else if t[s].state.Live? && t[s].dist < d then
        (Write(s, t[s].(state := Busy)),
         c.(pc := Filling(x, d, s, n, FIELDS, Some((t[s].item, t[s].dist))), bag := c.bag - Bagged(RecordOf(t[s].item, mem))))
      else (Nothing, c.(pc := Placing(x, (d + 1) % 256, Next(s, |t|), n + 1)))
    case Filling(x, d, s, n, _, out) =>
      (Write(s, Filled(x, d)),
       c.(pc := if out.None? then Closing else Placing(out.value.0, (out.value.1 + 1) % 256, Next(s, |t|), n + 1),
          bag := c.bag + Bagged(RecordOf(x, mem))))
    case Flushing(j) =>
      if j >= |t| then (Nothing, c.(pc := Closing))
      else (Nothing, c.(pc := if t[j].state.Live? then Found(j) else Flushing(j + 1)))
    case Closing => (Nothing, c)
  }

  lemma RemovalIn(t: seq<Slot>, mem: Memory, hf: HashFn, c: Section, hand: Option<nat>)
    requires |t| > 0 && PcIn(c, |t|) && (c.pc.Start? || c.pc.Found? || c.pc.Killing? || c.pc.Choose? || c.pc.Flushing? || c.pc.Closing?)
    ensures PcIn(Micro(t, mem, hf, c, hand).1, |t|) && Micro(t, mem, hf, c, hand).1.job == c.job
  {
    hide Bagged;
    hide RecordOf;
    hide Ptrs;
    hide Find;
    hide HashOf;
    hide Home;
  }

  lemma EvictionIn(t: seq<Slot>, mem: Memory, hf: HashFn, c: Section, hand: Option<nat>)
    requires |t| > 0 && PcIn(c, |t|) && (c.pc.Sweeping? || c.pc.Victim? || c.pc.Freed?)
    ensures PcIn(Micro(t, mem, hf, c, hand).1, |t|) && Micro(t, mem, hf, c, hand).1.job == c.job
  {
    hide Bagged;
    hide RecordOf;
    hide Ptrs;
    hide Find;
    hide HashOf;
    hide Home;
  }

  lemma InsertionIn(t: seq<Slot>, mem: Memory, hf: HashFn, c: Section, hand: Option<nat>)
    requires |t| > 0 && PcIn(c, |t|) && (c.pc.Placing? || c.pc.Filling?)
    ensures PcIn(Micro(t, mem, hf, c, hand).1, |t|) && Micro(t, mem, hf, c, hand).1.job == c.job
  {
    hide Bagged;
    hide RecordOf;
    hide Ptrs;
    hide Find;
    hide HashOf;
    hide Home;
  }

  lemma MicroIn(t: seq<Slot>, mem: Memory, hf: HashFn, c: Section, hand: Option<nat>)
    requires |t| > 0 && PcIn(c, |t|)
    ensures PcIn(Micro(t, mem, hf, c, hand).1, |t|) && Micro(t, mem, hf, c, hand).1.job == c.job
  {
    hide Micro;
    if c.pc.Sweeping? || c.pc.Victim? || c.pc.Freed? {
      EvictionIn(t, mem, hf, c, hand);
    } else if c.pc.Placing? || c.pc.Filling? {
      InsertionIn(t, mem, hf, c, hand);
    } else {
      RemovalIn(t, mem, hf, c, hand);
    }
  }

  function TableAfter(t: seq<Slot>, f: Effect): seq<Slot>
    requires f.Write? ==> f.k < |t|
  {
    if f.Write? then t[f.k := f.x] else t
  }

  function MemAfter(mem: Memory, f: Effect): Memory { if f.Free? then f.mem else mem }

  // ---- the invariant of a section ----

  /** The entries a writer owns outside the table. */
  function Held(c: Section): seq<Item> {
    match c.pc
    case Victim(_, y) => if c.job.SetJob? then [c.job.e, y] else []
    case Placing(x, _, _, _) => [x]
    case Filling(x, _, _, _, _, out) => if out.Some? then [out.value.0, x] else [x]
    case Closing => []
    case _ => if c.job.SetJob? then [c.job.e] else []
  }

  /** A slot whose buffers are free counts as DEAD, though its state still says LIVE. */
  function Effective(t: seq<Slot>, pc: Pc): (u: seq<Slot>)
    ensures |u| == |t|
  {
    if pc.Killing? && pc.f < |t| then t[pc.f := t[pc.f].(state := Dead)] else t
  }

  /** What the shard stores once the new entry is in and nothing is carried any more. */
  function Target(c: Section): Bag
    requires c.job.SetJob?
  {
    c.start - Bagged(c.was) - Bagged(c.ev) + multiset{c.job.q}
  }

  predicate Reaches(t: seq<Slot>, x: Item, s: nat) {
    s < |t| && Reach(t, Home(x.keyHash, |t|), s)
  }

  ghost predicate SetProgress(t: seq<Slot>, mem: Memory, c: Section)
    requires c.job.SetJob?
  {
    var removed := Taken(c.start, c.job.q.key, c.job.now, c.was);
    var evicted := removed && Bagged(c.ev) <= c.start - Bagged(c.was);
    && (!c.pc.Placing? && !c.pc.Filling? && !c.pc.Closing? ==> RecordOf(c.job.e, mem) == Some(c.job.q))
    && (!c.pc.Closing? ==> c.dr.None?)
    && match c.pc
       case Start => c.bag == c.start && c.was.None? && c.ev.None?
       case Found(f) =>
         && c.bag == c.start && c.ev.None? && removed
         && f < |t| && t[f].state.Live? && c.was.Some? && c.was == RecordOf(t[f].item, mem)
       case Killing(_) => c.ev.None? && removed && c.bag == c.start - Bagged(c.was)
       case Choose => c.ev.None? && removed && c.bag == c.start - Bagged(c.was)
       case Sweeping(_, _) => c.ev.None? && removed && c.bag == c.start - Bagged(c.was)
       case Victim(v, _) => evicted && c.bag == c.start - Bagged(c.was) - Bagged(c.ev) && v < |t| && t[v].state.Busy?
       case Freed(v) => evicted && c.bag == c.start - Bagged(c.was) - Bagged(c.ev) && v < |t| && t[v].state.Busy?
       case Placing(x, _, s, _) =>
         evicted && c.bag + Bagged(RecordOf(x, mem)) == Target(c) && Reaches(t, x, s)
       case Filling(x, _, s, _, _, out) =>
         && evicted && Reaches(t, x, s) && t[s].state.Busy?
         && (out.Some? ==> Reaches(t, out.value.0, s))
         && c.bag + Bagged(RecordOf(x, mem)) + (if out.Some? then Bagged(RecordOf(out.value.0, mem)) else multiset{}) == Target(c)
       case Flushing(_) => false
       case Closing => evicted && Bagged(c.dr) <= Target(c) && c.bag == Target(c) - Bagged(c.dr)
  }

  ghost predicate DelProgress(t: seq<Slot>, mem: Memory, c: Section)
    requires c.job.DelJob?
  {
    var removed := Taken(c.start, c.job.key, c.job.now, c.was);
    match c.pc
    case Start => c.bag == c.start && c.was.None?
    case Found(f) =>
      c.bag == c.start && removed && f < |t| && t[f].state.Live? && c.was.Some? && c.was == RecordOf(t[f].item, mem)
    case Killing(_) => removed && c.bag == c.start - Bagged(c.was)
    case Closing => removed && c.bag == c.start - Bagged(c.was)
    case _ => false
  }

  predicate NoneLiveTo(t: seq<Slot>, j: nat) { forall s | 0 <= s < j && s < |t| :: !t[s].state.Live? }

  predicate FlushProgress(t: seq<Slot>, c: Section) {
    match c.pc
    case Found(f) => f < |t| && t[f].state.Live? && NoneLiveTo(t, f)
    case Killing(f) => NoneLiveTo(t, f)
    case Flushing(j) => NoneLiveTo(t, j)
    case Closing => NoneLiveTo(t, |t|)
    case _ => false
  }

  ghost predicate Progress(t: seq<Slot>, mem: Memory, c: Section) {
    match c.job
    case SetJob(_, _, _) => SetProgress(t, mem, c)
    case DelJob(_, _) => DelProgress(t, mem, c)
    case FlushJob => FlushProgress(t, c)
  }

  ghost predicate SectionOk(t: seq<Slot>, mem: Memory, g: Config, c: Section) {
    PcIn(c, |t|) && Shelved(Effective(t, c.pc), mem, g, Held(c), c.bag) && Progress(t, mem, c)
  }

  /** What a writer's next store leaves is well formed again. */
  ghost predicate Keeps(t: seq<Slot>, mem: Memory, g: Config, c: Section, hand: Option<nat>)
    requires |t| > 0 && PcIn(c, |t|)
  {
    var (f, d) := Micro(t, mem, g.hash, c, hand);
    SectionOk(TableAfter(t, f), MemAfter(mem, f), g, d) && d.start == c.start && d.job == c.job
  }

  // ---- bags ----

  lemma OneOf(b: Bag, r: Option<Record>)
    requires r.Some? ==> r.value in b
    ensures Bagged(r) <= b && b - Bagged(r) + Bagged(r) == b
  {
  }

  lemma NoneOf(b: Bag)
    ensures b - Bagged(None) == b && Bagged(None) <= b && b + multiset{} == b
  {
  }

  lemma OneBagged(r: Record)
    ensures Bagged(Some(r)) == multiset{r}
  {
  }

  lemma GiveUp(b: Bag, r: Option<Record>, target: Bag)
    requires b + Bagged(r) == target
    ensures Bagged(r) <= target && b == target - Bagged(r)
  {
  }

  lemma Exchange(b: Bag, x: Option<Record>, y: Option<Record>, target: Bag)
    requires b + Bagged(x) == target && Bagged(y) <= b
    ensures b - Bagged(y) + Bagged(x) + Bagged(y) == target
  {
  }

  // ---- each kind of store ----

  lemma StartKeeps(t: seq<Slot>, mem: Memory, g: Config, c: Section, hand: Option<nat>)
    requires |t| > 0 && SectionOk(t, mem, g, c) && c.pc.Start?
    ensures Keeps(t, mem, g, c, hand)
  {
    hide Shelved;
    hide Bagged;
    hide RecordOf;
    hide Find;
    NoneOf(c.bag);
    ShelvedLookup(t, mem, g, Held(c), c.bag, JobKey(c.job), c.job.now);
  }

  lemma FoundKeeps(t: seq<Slot>, mem: Memory, g: Config, c: Section, hand: Option<nat>)
    requires |t| > 0 && SectionOk(t, mem, g, c) && c.pc.Found?
    ensures Keeps(t, mem, g, c, hand)
  {
    hide Shelved;
    hide Bagged;
    hide RecordOf;
    hide Ptrs;
    var f := c.pc.f;
    var e := t[f].item;
    TakeStore(t, mem, g, Held(c), c.bag, f, t[f].(state := Dead));
    var u := t[f := t[f].(state := Dead)];
    FreeStore(u, mem, g, Held(c), e, c.bag - Bagged(RecordOf(e, mem)));
    if c.job.SetJob? { assert Held(c)[0] == c.job.e; }
  }

  lemma KillingKeeps(t: seq<Slot>, mem: Memory, g: Config, c: Section, hand: Option<nat>)
    requires |t| > 0 && SectionOk(t, mem, g, c) && c.pc.Killing?
    ensures Keeps(t, mem, g, c, hand)
  {
    hide Shelved;
    hide Bagged;
    hide RecordOf;
  }

  lemma PlacingStarts(t: seq<Slot>, mem: Memory, g: Config, c: Section)
    requires |t| > 0 && c.job.SetJob? && RecordOf(c.job.e, mem) == Some(c.job.q) && c.dr.None?
    requires Shelved(t, mem, g, [c.job.e], c.bag) && c.bag == c.start - Bagged(c.was) - Bagged(c.ev)
    requires Taken(c.start, c.job.q.key, c.job.now, c.was) && Bagged(c.ev) <= c.start - Bagged(c.was)
    ensures SectionOk(t, mem, g, c.(pc := StartPlacing(c.job.e, |t|)))
  {
    hide Shelved;
    hide Bagged;
    hide RecordOf;
    hide Taken;
    OneBagged(c.job.q);
  }

  lemma ChooseKeeps(t: seq<Slot>, mem: Memory, g: Config, c: Section, hand: Option<nat>)
    requires |t| > 0 && SectionOk(t, mem, g, c) && c.pc.Choose?
    ensures Keeps(t, mem, g, c, hand)
  {
    hide Shelved;
    hide Bagged;
    hide RecordOf;
    hide Taken;
    SweepEnds(t, mem, g, c);
  }

  lemma SweepVictim(t: seq<Slot>, mem: Memory, g: Config, c: Section, v: nat)
    requires SectionOk(t, mem, g, c) && c.pc.Sweeping? && v < |t| && t[v].state.Live?
    ensures var r := RecordOf(t[v].item, mem);
            SectionOk(t[v := t[v].(state := Busy)], mem, g,
                      c.(pc := Victim(v, t[v].item), ev := r, victim := Some(v), bag := c.bag - Bagged(r)))
  {
    hide Shelved;
    hide Bagged;
    hide RecordOf;
    hide Taken;
    TakeStore(t, mem, g, Held(c), c.bag, v, t[v].(state := Busy));
    OneOf(c.bag, RecordOf(t[v].item, mem));
    assert [c.job.e] + [t[v].item] == [c.job.e, t[v].item];
  }

  lemma SweepClock(t: seq<Slot>, mem: Memory, g: Config, c: Section, v: nat, n: nat)
    requires SectionOk(t, mem, g, c) && c.pc.Sweeping? && v < |t|
    ensures SectionOk(t[v := t[v].(clock := false)], mem, g, c.(pc := Sweeping(v, n)))
    ensures SectionOk(t, mem, g, c.(pc := Sweeping(v, n)))
  {
    hide Shelved;
    hide Bagged;
    hide RecordOf;
    hide Taken;
    ClockStore(t, t[v := t[v].(clock := false)], mem, g, Held(c), c.bag);
  }

  lemma SweepEnds(t: seq<Slot>, mem: Memory, g: Config, c: Section)
    requires |t| > 0 && SectionOk(t, mem, g, c) && (c.pc.Sweeping? || c.pc.Choose?)
    ensures SectionOk(t, mem, g, c.(pc := StartPlacing(c.job.e, |t|)))
  {
    hide Shelved;
    hide Bagged;
    hide RecordOf;
    hide Taken;
    NoneOf(c.bag);
    PlacingStarts(t, mem, g, c);
  }

  lemma SweepingKeeps(t: seq<Slot>, mem: Memory, g: Config, c: Section, hand: Option<nat>)
    requires |t| > 0 && SectionOk(t, mem, g, c) && c.pc.Sweeping?
    ensures Keeps(t, mem, g, c, hand)
  {
    hide Shelved;
    hide Progress;
    hide Bagged;
    hide RecordOf;
    hide Ptrs;
    hide Find;
    assert PcIn(c, |t|);
    hide SectionOk;
    if c.pc.n >= |t| {
      SweepEnds(t, mem, g, c);
    } else {
      var v := Next(c.pc.h, |t|);
      SweepClock(t, mem, g, c, v, c.pc.n + 1);
      if t[v].state.Live? && !t[v].clock { SweepVictim(t, mem, g, c, v); }
    }
  }

  lemma VictimKeeps(t: seq<Slot>, mem: Memory, g: Config, c: Section, hand: Option<nat>)
    requires |t| > 0 && SectionOk(t, mem, g, c) && c.pc.Victim?
    ensures Keeps(t, mem, g, c, hand)
  {
    hide Shelved;
    hide Bagged;
    hide RecordOf;
    hide Taken;
    hide Ptrs;
    assert [c.job.e] + [c.pc.y] == [c.job.e, c.pc.y];
    FreeStore(t, mem, g, [c.job.e], c.pc.y, c.bag);
    assert [c.job.e][0] == c.job.e;
  }

  lemma FreedKeeps(t: seq<Slot>, mem: Memory, g: Config, c: Section, hand: Option<nat>)
    requires |t| > 0 && SectionOk(t, mem, g, c) && c.pc.Freed?
    ensures Keeps(t, mem, g, c, hand)
  {
    hide Shelved;
    hide Bagged;
    hide RecordOf;
    hide Taken;
    var v := c.pc.v;
    IdleStore(t, mem, g, [c.job.e], c.bag, v, t[v].(state := Dead));
    PlacingStarts(t[v := t[v].(state := Dead)], mem, g, c);
  }

  /** Reachability survives a store that makes no slot EMPTY. */
  lemma ReachesAfter(t: seq<Slot>, s: nat, x: Slot, e: Item, k: nat)
    requires s < |t| && !x.state.Empty? && Reaches(t, e, k)
    ensures Reaches(t[s := x], e, k)
  {
    ReachOccupies(t, t[s := x], Home(e.keyHash, |t|), k);
  }

  lemma PlaceEnds(t: seq<Slot>, mem: Memory, g: Config, c: Section)
    requires SectionOk(t, mem, g, c) && c.pc.Placing?
    ensures SectionOk(t, mem, g, c.(pc := Closing, dr := RecordOf(c.pc.x, mem), lost := Some(c.pc.x)))
  {
    hide Shelved;
    hide Bagged;
    hide RecordOf;
    hide Taken;
    var x := c.pc.x;
    assert [] + [x] == [x];
    GiveUp(c.bag, RecordOf(x, mem), Target(c));
    Forget(t, mem, g, [], x, c.bag);
  }

  lemma PlaceVacant(t: seq<Slot>, mem: Memory, g: Config, c: Section)
    requires SectionOk(t, mem, g, c) && c.pc.Placing? && c.pc.n < |t| && Vacant(t[c.pc.s])
    ensures var Placing(x, d, s, n) := c.pc;
            SectionOk(t[s := t[s].(state := Busy)], mem, g, c.(pc := Filling(x, d, s, n, FIELDS, None)))
  {
    hide Shelved;
    hide Bagged;
    hide RecordOf;
    hide Taken;
    hide Reach;
    var Placing(x, d, s, n) := c.pc;
    var busy := t[s].(state := Busy);
    NoneOf(Target(c));
    IdleStore(t, mem, g, [x], c.bag, s, busy);
    ReachesAfter(t, s, busy, x, s);
  }

  lemma LiveReaches(t: seq<Slot>, mem: Memory, g: Config, held: seq<Item>, b: Bag, s: nat)
    requires Shelved(t, mem, g, held, b) && s < |t| && t[s].state.Live?
    ensures Reaches(t, t[s].item, s)
  {
    hide Good;
    assert ChainAt(t, s);
  }

  lemma DisplacedShelf(t: seq<Slot>, mem: Memory, g: Config, x: Item, b: Bag, s: nat)
    requires Shelved(t, mem, g, [x], b) && s < |t| && t[s].state.Live?
    ensures var r := RecordOf(t[s].item, mem);
            Bagged(r) <= b && Shelved(t[s := t[s].(state := Busy)], mem, g, [t[s].item, x], b - Bagged(r))
  {
    hide Shelved;
    hide Bagged;
    hide RecordOf;
    var y := t[s].item;
    var busy := t[s].(state := Busy);
    TakeStore(t, mem, g, [x], b, s, busy);
    OneOf(b, RecordOf(y, mem));
    assert [x] + [y] == [x, y];
    SwapHeld(t[s := busy], mem, g, x, y, b - Bagged(RecordOf(y, mem)));
  }

  lemma PlaceDisplaces(t: seq<Slot>, mem: Memory, g: Config, c: Section)
    requires SectionOk(t, mem, g, c) && c.pc.Placing? && c.pc.n < |t| && t[c.pc.s].state.Live?
    ensures var Placing(x, d, s, n) := c.pc;
            SectionOk(t[s := t[s].(state := Busy)], mem, g,
                      c.(pc := Filling(x, d, s, n, FIELDS, Some((t[s].item, t[s].dist))), bag := c.bag - Bagged(RecordOf(t[s].item, mem))))
  {
    hide Shelved;
    hide Bagged;
    hide RecordOf;
    hide Taken;
    hide Reach;
    var x := c.pc.x;
    var s := c.pc.s;
    var y := t[s].item;
    var busy := t[s].(state := Busy);
    DisplacedShelf(t, mem, g, x, c.bag, s);
    LiveReaches(t, mem, g, [x], c.bag, s);
    ReachesAfter(t, s, busy, x, s);
    ReachesAfter(t, s, busy, y, s);
    Exchange(c.bag, RecordOf(x, mem), RecordOf(y, mem), Target(c));
  }

  lemma PlaceMoves(t: seq<Slot>, mem: Memory, g: Config, c: Section)
    requires SectionOk(t, mem, g, c) && c.pc.Placing? && !t[c.pc.s].state.Empty?
    ensures var Placing(x, d, s, n) := c.pc;
            SectionOk(t, mem, g, c.(pc := Placing(x, (d + 1) % 256, Next(s, |t|), n + 1)))
  {
    hide Shelved;
    hide Bagged;
    hide RecordOf;
    hide Taken;
    ReachNext(t, Home(c.pc.x.keyHash, |t|), c.pc.s);
    hide Reach;
  }

  lemma PlacingKeeps(t: seq<Slot>, mem: Memory, g: Config, c: Section, hand: Option<nat>)
    requires |t| > 0 && SectionOk(t, mem, g, c) && c.pc.Placing?
    ensures Keeps(t, mem, g, c, hand)
  {
    hide Shelved;
    hide Progress;
    hide Bagged;
    hide RecordOf;
    hide Ptrs;
    hide Find;
    assert PcIn(c, |t|);
    hide SectionOk;
    var s := c.pc.s;
    if c.pc.n >= |t| {
      PlaceEnds(t, mem, g, c);
    } else if Vacant(t[s]) {
      PlaceVacant(t, mem, g, c);
    } else if t[s].state.Live? && t[s].dist < c.pc.d {
      PlaceDisplaces(t, mem, g, c);
    } else {
      PlaceMoves(t, mem, g, c);
    }
  }

  lemma SwapHeld(t: seq<Slot>, mem: Memory, g: Config, x: Item, y: Item, b: Bag)
    requires Shelved(t, mem, g, [x, y], b)
    ensures Shelved(t, mem, g, [y, x], b)
  {
    hide Chain;
    hide Good;
    assert [x, y][0] == x && [x, y][1] == y;
    forall p: Ptr ensures Owners(t, [y, x], p) <= 1 {
      assert Owners(t, [x, y], p) <= 1;
      assert [x, y] == [] + [x] + [y] && [y, x] == [] + [y] + [x];
      SumSeqAppend([] + [x], y, PtrIs(p));
      SumSeqAppend([], x, PtrIs(p));
      SumSeqAppend([] + [y], x, PtrIs(p));
      SumSeqAppend([], y, PtrIs(p));
    }
  }

  lemma ClosesWhole(t: seq<Slot>, u: seq<Slot>, mem: Memory, c: Section, b: Bag)
    requires c.job.SetJob? && c.pc.Filling? && c.pc.out.None? && SetProgress(t, mem, c)
    requires b == c.bag + Bagged(RecordOf(c.pc.x, mem))
    ensures SetProgress(u, mem, c.(pc := Closing, bag := b))
  {
    hide Bagged;
    hide RecordOf;
    hide Taken;
    hide Reaches;
    hide Target;
    WholeBag(b, Target(c));
    SameTarget(c, c.(pc := Closing, bag := b));
  }

  lemma SameTarget(c: Section, d: Section)
    requires c.job.SetJob? && d.job == c.job && d.start == c.start && d.was == c.was && d.ev == c.ev
    ensures Target(d) == Target(c)
  {
  }

  lemma WholeBag(b: Bag, target: Bag)
    requires b + multiset{} == target
    ensures Bagged(None) <= target && b == target - Bagged(None)
  {
  }

  lemma FillLast(t: seq<Slot>, mem: Memory, g: Config, c: Section)
    requires SectionOk(t, mem, g, c) && c.pc.Filling? && c.pc.out.None?
    ensures SectionOk(t[c.pc.s := Filled(c.pc.x, c.pc.d)], mem, g, c.(pc := Closing, bag := c.bag + Bagged(RecordOf(c.pc.x, mem))))
  {
    hide Shelved;
    hide Bagged;
    hide RecordOf;
    hide Taken;
    hide Reach;
    var x := c.pc.x;
    var u := t[c.pc.s := Filled(x, c.pc.d)];
    assert [] + [x] == [x];
    PutStore(t, mem, g, [], x, c.bag, c.pc.s, Filled(x, c.pc.d));
    ClosesWhole(t, u, mem, c, c.bag + Bagged(RecordOf(x, mem)));
    hide SetProgress;
  }

  lemma FillOut(t: seq<Slot>, mem: Memory, g: Config, c: Section)
    requires SectionOk(t, mem, g, c) && c.pc.Filling? && c.pc.out.Some?
    ensures var Filling(x, d, s, n, _, out) := c.pc;
            SectionOk(t[s := Filled(x, d)], mem, g,
                      c.(pc := Placing(out.value.0, (out.value.1 + 1) % 256, Next(s, |t|), n + 1),
                         bag := c.bag + Bagged(RecordOf(x, mem))))
  {
    hide Shelved;
    hide Bagged;
    hide RecordOf;
    hide Taken;
    var Filling(x, d, s, n, _, out) := c.pc;
    var y := out.value.0;
    assert [y] + [x] == [y, x];
    PutStore(t, mem, g, [y], x, c.bag, s, Filled(x, d));
    ReachesAfter(t, s, Filled(x, d), y, s);
    ReachNext(t[s := Filled(x, d)], Home(y.keyHash, |t|), s);
    hide Reach;
  }

  lemma FillingKeeps(t: seq<Slot>, mem: Memory, g: Config, c: Section, hand: Option<nat>)
    requires |t| > 0 && SectionOk(t, mem, g, c) && c.pc.Filling?
    ensures Keeps(t, mem, g, c, hand)
  {
    hide Shelved;
    hide Progress;
    hide Bagged;
    hide RecordOf;
    hide Ptrs;
    hide Find;
    assert PcIn(c, |t|);
    hide SectionOk;
    if c.pc.out.None? { FillLast(t, mem, g, c); } else { FillOut(t, mem, g, c); }
  }

  lemma FlushingKeeps(t: seq<Slot>, mem: Memory, g: Config, c: Section, hand: Option<nat>)
    requires |t| > 0 && SectionOk(t, mem, g, c) && c.pc.Flushing?
    ensures Keeps(t, mem, g, c, hand)
  {
    hide Shelved;
  }

  /** Every store of every writer keeps the section well formed. */
  lemma MicroKeeps(t: seq<Slot>, mem: Memory, g: Config, c: Section, hand: Option<nat>)
    requires |t| > 0 && SectionOk(t, mem, g, c) && !c.pc.Closing?
    ensures Keeps(t, mem, g, c, hand)
  {
    hide Keeps;
    hide SectionOk;
    match c.pc
    case Start => StartKeeps(t, mem, g, c, hand);
    case Found(_) => FoundKeeps(t, mem, g, c, hand);
    case Killing(_) => KillingKeeps(t, mem, g, c, hand);
    case Choose => ChooseKeeps(t, mem, g, c, hand);
    case Sweeping(_, _) => SweepingKeeps(t, mem, g, c, hand);
    case Victim(_, _) => VictimKeeps(t, mem, g, c, hand);
    case Freed(_) => FreedKeeps(t, mem, g, c, hand);
    case Placing(_, _, _, _) => PlacingKeeps(t, mem, g, c, hand);
    case Filling(_, _, _, _, _, _) => FillingKeeps(t, mem, g, c, hand);
    case Flushing(_) => FlushingKeeps(t, mem, g, c, hand);
  }

  function Less(a: nat, b: nat): nat { if a <= b then 0 else a - b }

  /** An upper bound on the steps a writer still makes before it closes its section. */
  function Rank(c: Section, cap: nat): nat {
    if c.job.FlushJob? then
      match c.pc
      case Flushing(j) => 3 * Less(cap, j) + 1
      case Found(f) => 3 * Less(cap, f)
      case Killing(f) => Less(3 * Less(cap, f), 1)
      case _ => 0
    else
      match c.pc
      case Start => 11 * cap + 9
      case Found(_) => 11 * cap + 8
      case Killing(_) => 11 * cap + 7
      case Choose => 11 * cap + 6
      case Sweeping(_, n) => 10 * cap + 4 + Less(cap, n)
      case Victim(_, _) => 10 * cap + 3
      case Freed(_) => 10 * cap + 2
      case Placing(_, _, _, n) => 10 * Less(cap, n) + 1
      case Filling(_, _, _, n, left, _) => Less(10 * Less(cap, n), FIELDS) + left
      case _ => 0
  }

  lemma RankBound(c: Section, cap: nat)
    requires PcIn(c, cap)
    ensures Rank(c, cap) <= 11 * cap + 9
  {
  }

  lemma RemovalEnds(t: seq<Slot>, mem: Memory, hf: HashFn, c: Section, hand: Option<nat>)
    requires |t| > 0 && PcIn(c, |t|) && !c.job.FlushJob? && (c.pc.Start? || c.pc.Found? || c.pc.Killing?)
    ensures Rank(Micro(t, mem, hf, c, hand).1, |t|) < Rank(c, |t|)
  {
    hide RecordOf;
    hide Ptrs;
    hide Bagged;
    hide Home;
    hide Find;
    hide HashOf;
  }

  lemma EvictionEnds(t: seq<Slot>, mem: Memory, hf: HashFn, c: Section, hand: Option<nat>)
    requires |t| > 0 && PcIn(c, |t|) && !c.job.FlushJob? && (c.pc.Choose? || c.pc.Sweeping? || c.pc.Victim? || c.pc.Freed?)
    ensures Rank(Micro(t, mem, hf, c, hand).1, |t|) < Rank(c, |t|)
  {
    hide RecordOf;
    hide Ptrs;
    hide Bagged;
    hide Home;
    hide Find;
    hide HashOf;
  }

  lemma InsertionEnds(t: seq<Slot>, mem: Memory, hf: HashFn, c: Section, hand: Option<nat>)
    requires |t| > 0 && PcIn(c, |t|) && !c.job.FlushJob? && (c.pc.Placing? || c.pc.Filling?)
    ensures Rank(Micro(t, mem, hf, c, hand).1, |t|) < Rank(c, |t|)
  {
    hide RecordOf;
    hide Ptrs;
    hide Bagged;
    hide Home;
    hide Find;
    hide HashOf;
  }

  lemma FlushEnds(t: seq<Slot>, mem: Memory, hf: HashFn, c: Section, hand: Option<nat>)
    requires |t| > 0 && PcIn(c, |t|) && c.job.FlushJob? && !c.pc.Closing?
    ensures Rank(Micro(t, mem, hf, c, hand).1, |t|) < Rank(c, |t|)
  {
    hide RecordOf;
    hide Ptrs;
    hide Bagged;
    hide Home;
    hide Find;
    hide HashOf;
  }

  /** Every step brings a writer closer to the end of its section. */
  lemma StepEnds(t: seq<Slot>, mem: Memory, hf: HashFn, c: Section, hand: Option<nat>)
    requires |t| > 0 && PcIn(c, |t|) && !c.pc.Closing?
    ensures Rank(Micro(t, mem, hf, c, hand).1, |t|) < Rank(c, |t|)
  {
    hide Micro;
    if c.job.FlushJob? {
      FlushEnds(t, mem, hf, c, hand);
    } else if c.pc.Start? || c.pc.Found? || c.pc.Killing? {
      RemovalEnds(t, mem, hf, c, hand);
    } else if c.pc.Placing? || c.pc.Filling? {
      InsertionEnds(t, mem, hf, c, hand);
    } else {
      EvictionEnds(t, mem, hf, c, hand);
    }
  }

  // ---- what other threads do meanwhile ----

  /** A reader sets a clock bit. */
  lemma ClockMeanwhile(t: seq<Slot>, u: seq<Slot>, mem: Memory, g: Config, c: Section)
    requires SectionOk(t, mem, g, c) && SameSlots(t, u)
    ensures SectionOk(u, mem, g, c)
  {
    hide Shelved;
    hide Bagged;
    hide RecordOf;
    hide Taken;
    ClockStore(Effective(t, c.pc), Effective(u, c.pc), mem, g, Held(c), c.bag);
    forall e: Item, s: nat | Reaches(t, e, s) ensures Reaches(u, e, s) {
      ReachOccupies(t, u, Home(e.keyHash, |t|), s);
    }
  }

  /** Other shards and allocators change memory that is not this shard's. */
  lemma MemMeanwhile(t: seq<Slot>, mem: Memory, mem': Memory, g: Config, c: Section)
    requires SectionOk(t, mem, g, c) && Spares(Effective(t, c.pc), Held(c), mem, mem')
    ensures SectionOk(t, mem', g, c)
  {
    hide Shelved;
    hide RecordOf;
    hide Taken;
    hide Bagged;
    hide Reach;
    var held := Held(c);
    if c.pc.Found? { FoundFrame(t, mem, mem', g, c); }
    hide Spares;
    MemStore(Effective(t, c.pc), mem, mem', g, held, c.bag);
    if |held| > 0 { assert RecordOf(held[0], mem') == RecordOf(held[0], mem); }
    if |held| > 1 { assert RecordOf(held[1], mem') == RecordOf(held[1], mem); }
  }

  lemma FoundFrame(t: seq<Slot>, mem: Memory, mem': Memory, g: Config, c: Section)
    requires SectionOk(t, mem, g, c) && Spares(Effective(t, c.pc), Held(c), mem, mem') && c.pc.Found?
    ensures RecordOf(t[c.pc.f].item, mem') == RecordOf(t[c.pc.f].item, mem)
  {
  }

  /** One more field is copied. */
  function Copied(c: Section): Section
    requires c.pc.Filling? && c.pc.left > 0
  {
    c.(pc := c.pc.(left := c.pc.left - 1))
  }

  /** While a slot is BUSY the writer copies fields into it one by one. */
  lemma ScribbleKeeps(t: seq<Slot>, mem: Memory, g: Config, c: Section, x: Slot)
    requires SectionOk(t, mem, g, c) && c.pc.Filling? && c.pc.left > 0 && x.state.Busy?
    ensures SectionOk(t[c.pc.s := x], mem, g, Copied(c)) && Rank(Copied(c), |t|) < Rank(c, |t|)
  {
    hide Shelved;
    hide RecordOf;
    hide Taken;
    hide Bagged;
    hide Reach;
    var s := c.pc.s;
    IdleStore(t, mem, g, Held(c), c.bag, s, x);
    ReachesAfter(t, s, x, c.pc.x, s);
    if c.pc.out.Some? { ReachesAfter(t, s, x, c.pc.out.value.0, s); }
  }

  // ---- a whole section ----

  /** What a finished section did to the bag. */
  ghost predicate JobMoves(b: Bag, job: Job, b': Bag) {
    match job
    case SetJob(q, _, now) => exists was, ev, dr :: SetMoved(b, q, now, b', was, ev, dr)
    case DelJob(key, now) => exists was :: Taken(b, key, now, was) && b' == b - Bagged(was)
    case FlushJob => b' == multiset{}
  }

  lemma ClosedMoves(t: seq<Slot>, mem: Memory, g: Config, c: Section)
    requires SectionOk(t, mem, g, c) && c.pc.Closing?
    ensures Shelved(t, mem, g, [], c.bag) && JobMoves(c.start, c.job, c.bag)
  {
    hide RecordOf;
    hide Bagged;
    match c.job
    case SetJob(q, _, now) =>
      hide Shelved;
      hide Taken;
      assert SetMoved(c.start, q, now, c.bag, c.was, c.ev, c.dr);
    case DelJob(_, _) =>
      hide Shelved;
      hide Taken;
    case FlushJob => NothingShelved(t, mem, g, c.bag);
  }

  lemma NothingShelved(t: seq<Slot>, mem: Memory, g: Config, b: Bag)
    requires Shelved(t, mem, g, [], b) && NoneLiveTo(t, |t|)
    ensures b == multiset{}
  {
    hide Chain;
    hide Good;
    forall r: Record ensures b[r] == 0 {
      assert Sum(t, RecordIs(mem, r)) == b[r];
      NoneLive(t, RecordIs(mem, r));
    }
  }

  /** A set may start with an entry whose buffers are its own. */
  ghost predicate MayStart(t: seq<Slot>, mem: Memory, g: Config, job: Job) {
    job.SetJob? ==>
      && Good(job.e, mem, g) && RecordOf(job.e, mem) == Some(job.q)
      && (forall p: Ptr | p in Ptrs(job.e) :: Sum(t, PtrIs(p)) == 0)
      && (KeyPtr(job.e).Some? && ValPtr(job.e).Some? ==> KeyPtr(job.e) != ValPtr(job.e))
  }

  lemma OwnPtr(e: Item, p: Ptr)
    requires p in Ptrs(e)
    ensures PtrIs(p)(e) >= 1
  {
  }

  lemma HeldIsOwn(c: Cache, g: Config, b: Bag, i: nat, e: Item, p: Ptr)
    requires BagInv(c, g, b, [e]) && i < SHARDS && p in Ptrs(e)
    ensures Sum(c.shards[i].table, PtrIs(p)) == 0 && PtrIs(p)(e) == 1
  {
    hide AllGood;
    hide Arena;
    hide Stores;
    hide ShardOk;
    hide Ptrs;
    assert Refs(c, [e], p) <= 1;
    hide BagInv;
    hide OwnedOnce;
    OwnPtr(e, p);
    SumSeqAppend([], e, PtrIs(p));
    assert [] + [e] == [e];
    TotalHas(c.shards, i, PtrIs(p));
  }

  /** What `vc_set` allocates before it takes the lock is what a section may start with. */
  lemma AllocatedMayStart(c: Cache, g: Config, b: Bag, key: seq<byte>, val: seq<byte>, env: Env, exp: int, i: nat)
    requires BagInv(c, g, b, []) && Allocate(c, key, val, env).Buffers? && !g.small && i < SHARDS
    ensures var a := Allocate(c, key, val, env);
            var e := MakeItem(key, val, HashOf(g.hash, key), exp, a.vp, a.kp);
            MayStart(c.shards[i].table, a.cache.mem, g, SetJob(Record(key, Clamp(val), exp), e, env.now))
  {
    hide Allocate;
    hide MakeItem;
    hide Stores;
    hide OwnedOnce;
    hide Arena;
    hide ShardOk;
    hide Good;
    hide RecordOf;
    hide Chain;
    var a := Allocate(c, key, val, env);
    var e := MakeItem(key, val, HashOf(g.hash, key), exp, a.vp, a.kp);
    AllocateKeeps(c, g, b, key, val, env, exp);
    assert Good([e][0], a.cache.mem, g);
    forall p: Ptr | p in Ptrs(e) ensures Sum(c.shards[i].table, PtrIs(p)) == 0 && PtrIs(p)(e) == 1 {
      HeldIsOwn(a.cache, g, b, i, e, p);
    }
    if KeyPtr(e).Some? { assert PtrIs(KeyPtr(e).value)(e) == 1; }
  }

  function Opened(job: Job, b: Bag): Section {
    Section(job, if job.FlushJob? then Flushing(0) else Start, b, b, None, None, None, None, None, None)
  }

  lemma OpenKeeps(t: seq<Slot>, mem: Memory, g: Config, job: Job, b: Bag)
    requires Shelved(t, mem, g, [], b) && MayStart(t, mem, g, job)
    ensures SectionOk(t, mem, g, Opened(job, b))
  {
    hide Shelved;
    if job.SetJob? { Hold(t, mem, g, job.e, b); }
  }
}
