/**
 * A write section that no other thread disturbs: made store by store, it leaves the
 * table and the memory that the sequential operation leaves.
 */
module WriterAlone {
  import opened Bytes
  import opened Entries
  import opened Table
  import opened Cache
  import opened CacheInvariant
  import opened CacheStore
  import opened CacheBags
  import opened Shelf
  import opened ShardWriters

  /** The shard after a section: its table, and the memory. */
  type Contents = (seq<Slot>, Memory)

  /** All the steps of a section, one after the other. */
  function Finish(t: seq<Slot>, mem: Memory, hf: HashFn, c: Section, hand: Option<nat>): Contents
    requires |t| > 0 && PcIn(c, |t|)
    decreases Rank(c, |t|)
  {
    if c.pc.Closing? then (t, mem)
    else
      StepEnds(t, mem, hf, c, hand);
      MicroIn(t, mem, hf, c, hand);
      var (f, d) := Micro(t, mem, hf, c, hand);
      Finish(TableAfter(t, f), MemAfter(mem, f), hf, d, hand)
  }

  // ---- what is left to do, in terms of the sequential functions ----

  function Dies(t: seq<Slot>, f: nat): (u: seq<Slot>)
    requires f < |t|
    ensures |u| == |t|
  {
    t[f := t[f].(state := Dead)]
  }

  /** Eviction from where the hand is, then insertion. */
  function SweepThenInsert(t: seq<Slot>, mem: Memory, e: Item, h: nat, n: nat): Contents
    requires h < |t|
  {
    var (u, v) := Sweep(t, h, n);
    (Insert(u, e).0, if v.Some? then mem - Ptrs(t[v.value].item) else mem)
  }

  function EvictThenInsert(t: seq<Slot>, mem: Memory, e: Item, hand: Option<nat>): Contents
    requires |t| > 0
  {
    if hand.Some? && hand.value < |t| then SweepThenInsert(t, mem, e, hand.value, 0) else (Insert(t, e).0, mem)
  }

  function FlushRest(t: seq<Slot>, mem: Memory, j: nat): (r: Contents)
    ensures |r.0| == |t|
    decreases |t| - j
  {
    if j >= |t| then (t, mem)
    else if t[j].state.Live? then FlushRest(Dies(t, j), mem - Ptrs(t[j].item), j + 1)
    else FlushRest(t, mem, j + 1)
  }

  /** Once the entry in slot `f` is gone. */
  function AfterRemoval(t: seq<Slot>, mem: Memory, job: Job, f: nat, hand: Option<nat>): Contents
    requires |t| > 0
  {
    match job
    case SetJob(_, e, _) => EvictThenInsert(t, mem, e, hand)
    case DelJob(_, _) => (t, mem)
    case FlushJob => FlushRest(t, mem, f + 1)
  }

  function FindThenRest(t: seq<Slot>, mem: Memory, hf: HashFn, job: Job, hand: Option<nat>): Contents
    requires |t| > 0 && !job.FlushJob?
  {
    var f := Find(t, mem, JobKey(job), HashOf(hf, JobKey(job)), job.now);
    if f.Some? then AfterRemoval(Dies(t, f.value), mem - Ptrs(t[f.value].item), job, f.value, hand)
    else AfterRemoval(t, mem, job, 0, hand)
  }

  function Remaining(t: seq<Slot>, mem: Memory, hf: HashFn, c: Section, hand: Option<nat>): Contents
    requires |t| > 0 && PcIn(c, |t|)
  {
    match c.pc
    case Start => FindThenRest(t, mem, hf, c.job, hand)
    case Found(f) => AfterRemoval(Dies(t, f), mem - Ptrs(t[f].item), c.job, f, hand)
    case Killing(f) => AfterRemoval(Dies(t, f), mem, c.job, f, hand)
    case Choose => EvictThenInsert(t, mem, c.job.e, hand)
    case Sweeping(h, n) => SweepThenInsert(t, mem, c.job.e, h, n)
    case Victim(v, y) => (Insert(Dies(t, v), c.job.e).0, mem - Ptrs(y))
    case Freed(v) => (Insert(Dies(t, v), c.job.e).0, mem)
    case Placing(x, d, s, n) => (Place(t, x, d, s, n).0, mem)
    case Filling(x, d, s, n, _, out) =>
      var u := t[s := Filled(x, d)];
      (if out.None? then u else Place(u, out.value.0, (out.value.1 + 1) % 256, Next(s, |u|), n + 1).0, mem)
    case Flushing(j) => FlushRest(t, mem, j)
    case Closing => (t, mem)
  }

  /** A step leaves the same to be reached. */
  predicate Nearer(t: seq<Slot>, mem: Memory, hf: HashFn, c: Section, hand: Option<nat>)
    requires |t| > 0 && PcIn(c, |t|)
  {
    MicroIn(t, mem, hf, c, hand);
    var (f, d) := Micro(t, mem, hf, c, hand);
    Remaining(TableAfter(t, f), MemAfter(mem, f), hf, d, hand) == Remaining(t, mem, hf, c, hand)
  }

  lemma RemovalNearer(t: seq<Slot>, mem: Memory, hf: HashFn, c: Section, hand: Option<nat>)
    requires |t| > 0 && PcIn(c, |t|) && (c.pc.Start? || c.pc.Found? || c.pc.Killing?)
    ensures Nearer(t, mem, hf, c, hand)
  {
    hide Bagged;
    hide RecordOf;
    hide Find;
    hide Ptrs;
    hide EvictThenInsert;
    hide FlushRest;
  }

  lemma EvictionNearer(t: seq<Slot>, mem: Memory, hf: HashFn, c: Section, hand: Option<nat>)
    requires |t| > 0 && PcIn(c, |t|) && (c.pc.Choose? || c.pc.Victim? || c.pc.Freed?)
    ensures Nearer(t, mem, hf, c, hand)
  {
    hide Bagged;
    hide RecordOf;
    hide Find;
    hide Ptrs;
    hide Place;
    hide Sweep;
  }

  /** One turn of the sweep. */
  lemma SweepNext(t: seq<Slot>, h: nat, n: nat)
    requires h < |t|
    ensures var v := Next(h, |t|);
            Sweep(t, h, n) ==
            if n >= |t| then (t, None)
            else if !t[v].state.Live? then Sweep(t, v, n + 1)
            else if t[v].clock then Sweep(t[v := t[v].(clock := false)], v, n + 1)
            else (Dies(t, v), Some(v))
  {
  }

  lemma SweepEndNearer(t: seq<Slot>, mem: Memory, hf: HashFn, c: Section, hand: Option<nat>)
    requires |t| > 0 && PcIn(c, |t|) && c.pc.Sweeping? && c.pc.n >= |t|
    ensures Nearer(t, mem, hf, c, hand)
  {
    hide Bagged;
    hide RecordOf;
    hide Find;
    hide Ptrs;
    hide Place;
    hide Sweep;
    SweepNext(t, c.pc.h, c.pc.n);
  }

  lemma SweepNearer(t: seq<Slot>, mem: Memory, hf: HashFn, c: Section, hand: Option<nat>)
    requires |t| > 0 && PcIn(c, |t|) && c.pc.Sweeping? && c.pc.n < |t|
    ensures Nearer(t, mem, hf, c, hand)
  {
    hide Bagged;
    hide RecordOf;
    hide Find;
    hide Ptrs;
    hide Insert;
    hide Sweep;
    hide Home;
    MicroIn(t, mem, hf, c, hand);
    SweepNext(t, c.pc.h, c.pc.n);
    var v := Next(c.pc.h, |t|);
    assert Dies(t[v := t[v].(state := Busy)], v) == Dies(t, v);
  }

  lemma InsertNearer(t: seq<Slot>, mem: Memory, hf: HashFn, c: Section, hand: Option<nat>)
    requires |t| > 0 && PcIn(c, |t|) && (c.pc.Placing? || c.pc.Filling?)
    ensures Nearer(t, mem, hf, c, hand)
  {
    hide Bagged;
    hide RecordOf;
    hide Find;
    hide Ptrs;
    hide Place;
    hide Home;
    MicroIn(t, mem, hf, c, hand);
    if c.pc.Placing? {
      var s := c.pc.s;
      PlaceNext(t, c.pc.x, c.pc.d, s, c.pc.n);
      assert t[s := t[s].(state := Busy)][s := Filled(c.pc.x, c.pc.d)] == t[s := Filled(c.pc.x, c.pc.d)];
    }
  }

  lemma FlushNearer(t: seq<Slot>, mem: Memory, hf: HashFn, c: Section, hand: Option<nat>)
    requires |t| > 0 && PcIn(c, |t|) && c.pc.Flushing?
    ensures Nearer(t, mem, hf, c, hand)
  {
    hide Ptrs;
  }

  lemma StepNearer(t: seq<Slot>, mem: Memory, hf: HashFn, c: Section, hand: Option<nat>)
    requires |t| > 0 && PcIn(c, |t|) && !c.pc.Closing?
    ensures Nearer(t, mem, hf, c, hand)
  {
    hide Nearer;
    if c.pc.Start? || c.pc.Found? || c.pc.Killing? {
      RemovalNearer(t, mem, hf, c, hand);
    } else if c.pc.Sweeping? && c.pc.n >= |t| {
      SweepEndNearer(t, mem, hf, c, hand);
    } else if c.pc.Sweeping? {
      SweepNearer(t, mem, hf, c, hand);
    } else if c.pc.Placing? || c.pc.Filling? {
      InsertNearer(t, mem, hf, c, hand);
    } else if c.pc.Flushing? {
      FlushNearer(t, mem, hf, c, hand);
    } else {
      EvictionNearer(t, mem, hf, c, hand);
    }
  }

  lemma {:induction false} FinishIsRemaining(t: seq<Slot>, mem: Memory, hf: HashFn, c: Section, hand: Option<nat>)
    requires |t| > 0 && PcIn(c, |t|)
    ensures Finish(t, mem, hf, c, hand) == Remaining(t, mem, hf, c, hand)
    decreases Rank(c, |t|)
  {
    if !c.pc.Closing? {
      StepEnds(t, mem, hf, c, hand);
      MicroIn(t, mem, hf, c, hand);
      StepNearer(t, mem, hf, c, hand);
      hide Micro;
      hide Remaining;
      hide Rank;
      var (f, d) := Micro(t, mem, hf, c, hand);
      FinishIsRemaining(TableAfter(t, f), MemAfter(mem, f), hf, d, hand);
    }
  }

  // ---- the sequential operations ----

  /** Shard `i` of a cache and its memory. */
  function ContentsOf(c: Cache, i: nat): Contents
    requires i < |c.shards|
  {
    (c.shards[i].table, c.mem)
  }

  lemma TwoFrees(mem: Memory, e: Item)
    ensures mem - (if KeyPtr(e).Some? then {KeyPtr(e).value} else {}) - (if ValPtr(e).Some? then {ValPtr(e).value} else {})
            == mem - Ptrs(e)
  {
  }

  lemma KillShelf(c: Cache, i: nat, s: nat)
    requires Shape(c) && i < SHARDS && s < |c.shards[i].table|
    ensures var t := c.shards[i].table; ContentsOf(Kill(c, i, s), i) == (Dies(t, s), c.mem - Ptrs(t[s].item))
  {
    TwoFrees(c.mem, c.shards[i].table[s].item);
    hide Ptrs;
    hide KeyPtr;
    hide ValPtr;
  }

  /** Where the sweep of a set starts, if the threshold is reached. */
  function HandOf(c: Cache, i: nat): Option<nat>
    requires Shape(c) && i < SHARDS
  {
    if OverThreshold(c.shards[i].count, |c.shards[i].table|) then Some(c.shards[i].hand) else None
  }

  lemma EvictShelf(c: Cache, i: nat, e: Item)
    requires Shape(c) && i < SHARDS
    ensures ContentsOf(Attach(EvictIfFull(c, i).0, i, e).0, i) == EvictThenInsert(c.shards[i].table, c.mem, e, HandOf(c, i))
  {
    hide Insert;
    hide Ptrs;
    hide KeyPtr;
    hide ValPtr;
    var (d, v) := SweepShard(c, i);
    if v.Some? { TwoFrees(d.mem, v.value); }
  }

  /**
   * A set section made store by store with nobody in between leaves the table and the
   * memory of the sequential set, if it evicts when the counter says so and from the hand.
   */
  lemma SetAlone(c: Cache, hf: HashFn, i: nat, q: Record, e: Item, now: int, b: Bag)
    requires Shape(c) && i < SHARDS
    ensures var h := HashOf(hf, q.key);
            var hand := HandOf(RemoveOld(c, i, q.key, h, now), i);
            Finish(c.shards[i].table, c.mem, hf, Opened(SetJob(q, e, now), b), hand)
            == ContentsOf(StoreLocked(c, i, q.key, h, now, e).cache, i)
  {
    hide EvictIfFull;
    hide Attach;
    hide Kill;
    hide Ptrs;
    hide EvictThenInsert;
    var h := HashOf(hf, q.key);
    var t := c.shards[i].table;
    var c1 := RemoveOld(c, i, q.key, h, now);
    var hand := HandOf(c1, i);
    FinishIsRemaining(t, c.mem, hf, Opened(SetJob(q, e, now), b), hand);
    var f := Find(t, c.mem, q.key, h, now);
    hide Find;
    hide Finish;
    if f.Some? { KillShelf(c, i, f.value); }
    EvictShelf(c1, i, e);
  }

  /** The same for a delete. */
  lemma DelAlone(c: Cache, hf: HashFn, key: seq<byte>, now: int, b: Bag, hand: Option<nat>)
    requires Shape(c)
    ensures var i := ShardIdx(HashOf(hf, key));
            Finish(c.shards[i].table, c.mem, hf, Opened(DelJob(key, now), b), hand) == ContentsOf(Del(c, hf, key, now).cache, i)
  {
    hide Kill;
    hide Ptrs;
    var h := HashOf(hf, key);
    var i := ShardIdx(h);
    var t := c.shards[i].table;
    FinishIsRemaining(t, c.mem, hf, Opened(DelJob(key, now), b), hand);
    var f := Find(t, c.mem, key, h, now);
    hide Find;
    hide Finish;
    if f.Some? { KillShelf(c, i, f.value); }
  }

  lemma {:induction false} FlushShelf(c: Cache, i: nat, j: nat)
    requires Shape(c) && i < SHARDS && j <= |c.shards[i].table|
    ensures ContentsOf(FlushShard(c, i, j), i) == FlushRest(c.shards[i].table, c.mem, j)
    decreases |c.shards[i].table| - j
  {
    hide Kill;
    hide Ptrs;
    if j < |c.shards[i].table| {
      if c.shards[i].table[j].state.Live? {
        KillShelf(c, i, j);
        FlushShelf(Kill(c, i, j), i, j + 1);
      } else {
        FlushShelf(c, i, j + 1);
      }
    }
  }

  /** The same for the flush of one shard. */
  lemma FlushAlone(c: Cache, hf: HashFn, i: nat, b: Bag, hand: Option<nat>)
    requires Shape(c) && i < SHARDS
    ensures Finish(c.shards[i].table, c.mem, hf, Opened(FlushJob, b), hand) == ContentsOf(FlushShard(c, i, 0), i)
  {
    hide FlushShard;
    hide FlushRest;
    FinishIsRemaining(c.shards[i].table, c.mem, hf, Opened(FlushJob, b), hand);
    hide Finish;
    FlushShelf(c, i, 0);
  }
}
