/**
 * One shard under concurrency: writers with a spinlock and a sequence counter,
 * lock-free readers that scan field by field and validate.  Any number of threads,
 * one memory access per step, sequentially consistent.
 */
module Seqlock {
  import opened Bytes
  import opened Entries
  import opened Table

  /** A committed state of the shard: what it was when `seq` last became even. */
  datatype Version = Version(table: seq<Slot>, mem: Memory)

  /** The fields of an entry that a reader copies. */
  datatype View = View(keyLong: bool, valSlab: bool, valMmap: bool, valLen: nat, keyLen: nat, payload: seq<Cell>)

  function ViewOf(e: Item): View {
    View(e.keyLong, e.valSlab, e.valMmap, e.valLen, e.keyLen, e.payload)
  }

  /** One call of `vc_get`; `since` is a history variable, the sequence number when the call started. */
  datatype Query = Query(key: seq<byte>, hash: nat, since: nat)

  /** `begin` is the sequence number read first; `now` is what the expiry check's clock will show. */
  datatype Reader = Reader(q: Query, now: int, begin: nat, locked: bool, tries: nat)

  /** Inside `_shard_find` at probe `i`, then copying the entry found in slot `s`. */
  datatype Phase =
    | Scan(i: nat)
    | SawLive(i: nat)
    | SawHash(i: nat)
    | SawLen(i: nat)
    | SawKey(i: nat)
    | Missed
    | Found(s: nat)
    | GotFlags(s: nat, keyLong: bool, valSlab: bool, valMmap: bool)
    | GotLens(s: nat, keyLong: bool, valSlab: bool, valMmap: bool, valLen: nat, keyLen: nat)
    | Copied(s: nat, view: View)
    | Checked(s: nat, view: View)

  datatype Thread =
    | Idle
    | WLocked
    | WOpen
    | WClosed
    | Waiting(q: Query, tries: nat)
    | Fallback(q: Query)
    | Reading(r: Reader, ph: Phase)
    | Unlocking(r: Reader, result: Option<View>)
    | Finished(r: Reader, result: Option<View>)

  /** `versions` is a history variable; `versions[k]` was committed when `seq` became `2 * k`. */
  datatype Shared = Shared(
    wlock: bool, seq_: nat, table: seq<Slot>, mem: Memory, versions: seq<Version>, threads: seq<Thread>)

  const RETRIES: nat := 8

  datatype Action =
    | Lock(t: nat)
    | WriteBegin(t: nat)
    | WriteSlot(t: nat, k: nat, x: Slot)
    | WriteMem(t: nat, mem: Memory)
    | WriteEnd(t: nat)
    | Unlock(t: nat)
    | OtherMem(t: nat, mem: Memory)          // outside a section, blocks that no LIVE entry of this shard refers to
    | StartGet(t: nat, q: Query)
    | ReadBegin(t: nat, now: int)
    | LockedBegin(t: nat, now: int)
    | LoadState(t: nat)
    | LoadHash(t: nat)
    | LoadLen(t: nat)
    | CompareKey(t: nat, equal: bool)
    | LoadExpiry(t: nat)
    | LoadFlags(t: nat)
    | LoadLens(t: nat)
    | LoadPayload(t: nat)
    | Validate(t: nat)
    | SetClock(t: nat)
    | ReadUnlock(t: nat)

  function Probe(r: Reader, i: nat, cap: nat): (s: nat)
    requires cap > 0 && i <= cap
    ensures s < cap
  {
    At(Home(r.q.hash, cap), i, cap)
  }

  predicate InPhase(th: Thread, cap: nat) {
    th.Reading? &&
    match th.ph
    case SawLive(i) => i < cap
    case SawHash(i) => i < cap
    case SawLen(i) => i < cap
    case SawKey(i) => i < cap
    case Found(s) => s < cap
    case GotFlags(s, _, _, _) => s < cap
    case GotLens(s, _, _, _, _, _) => s < cap
    case Copied(s, _) => s < cap
    case Checked(s, _) => s < cap
    case _ => true
  }

  /** The key and value bytes are the same in both memories. */
  predicate SameBytes(e: Item, mem: Memory, mem': Memory) {
    KeyBytes(e, mem') == KeyBytes(e, mem) && ValBytes(e, mem') == ValBytes(e, mem)
  }

  /** The bytes behind every LIVE entry stay as they are. */
  predicate KeepsBytes(table: seq<Slot>, mem: Memory, mem': Memory) {
    forall k | 0 <= k < |table| && table[k].state.Live? :: SameBytes(table[k].item, mem, mem')
  }

  /** A writer closes its section with every LIVE key readable, as `CacheInvariant.Good` says of whole operations. */
  predicate Readable(table: seq<Slot>, mem: Memory) {
    forall k | 0 <= k < |table| && table[k].state.Live? :: KeyBytes(table[k].item, mem).Some?
  }

  predicate Enabled(s: Shared, a: Action) {
    && a.t < |s.threads| && |s.table| > 0
    && var th := s.threads[a.t];
       match a
       case Lock(_) => th.Idle? && !s.wlock
       case WriteBegin(_) => th.WLocked?
       case WriteSlot(_, k, _) => th.WOpen? && k < |s.table|
       case WriteMem(_, _) => th.WOpen?
       case WriteEnd(_) => th.WOpen? && Readable(s.table, s.mem)
       case Unlock(_) => th.WClosed?
       case OtherMem(_, mem) => s.seq_ % 2 == 0 ==> KeepsBytes(s.table, s.mem, mem)
       case StartGet(_, q) => th.Idle? && q.since == s.seq_
       case ReadBegin(_, _) => th.Waiting? && s.seq_ % 2 == 0
       case LockedBegin(_, _) => th.Fallback? && !s.wlock
       case LoadState(_) => th.Reading? && th.ph.Scan?
       case LoadHash(_) => InPhase(th, |s.table|) && th.ph.SawLive?
       case LoadLen(_) => InPhase(th, |s.table|) && th.ph.SawHash?
       case CompareKey(_, equal) =>
         // through a stale pointer the comparison may come out either way
         && InPhase(th, |s.table|) && th.ph.SawLen?
         && var k := KeyBytes(s.table[Probe(th.r, th.ph.i, |s.table|)].item, s.mem);
            k.Some? ==> equal == (k.value == th.r.q.key)
       case LoadExpiry(_) => InPhase(th, |s.table|) && th.ph.SawKey?
       case LoadFlags(_) => InPhase(th, |s.table|) && th.ph.Found?
       case LoadLens(_) => InPhase(th, |s.table|) && th.ph.GotFlags?
       case LoadPayload(_) => InPhase(th, |s.table|) && th.ph.GotLens?
       case Validate(_) => th.Reading? && !th.r.locked && (th.ph.Missed? || th.ph.Copied?)
       case SetClock(_) => InPhase(th, |s.table|) && (if th.r.locked then th.ph.Copied? else th.ph.Checked?)
       case ReadUnlock(_) => th.Unlocking? || (th.Reading? && th.r.locked && th.ph.Missed?)
  }

  /** The next state of a reader, which only reads shared memory. */
  function ReadStep(s: Shared, a: Action): Thread
    requires Enabled(s, a)
    requires a.LoadState? || a.LoadHash? || a.LoadLen? || a.CompareKey? || a.LoadExpiry? || a.LoadFlags? || a.LoadLens? || a.LoadPayload?
  {
    var th := s.threads[a.t];
    var r := th.r;
    var ph := th.ph;
    var cap := |s.table|;
    match a
    case LoadState(_) =>
      if ph.i >= cap then Reading(r, Missed)
      else
        var st := s.table[Probe(r, ph.i, cap)].state;
        Reading(r, if st.Empty? then Missed else if st.Live? then SawLive(ph.i) else Scan(ph.i + 1))
    case LoadHash(_) =>
      Reading(r, if s.table[Probe(r, ph.i, cap)].item.keyHash == r.q.hash then SawHash(ph.i) else Scan(ph.i + 1))
    case LoadLen(_) =>
      Reading(r, if s.table[Probe(r, ph.i, cap)].item.keyLen == |r.q.key| then SawLen(ph.i) else Scan(ph.i + 1))
    case CompareKey(_, equal) =>
      Reading(r, if equal then SawKey(ph.i) else Scan(ph.i + 1))
    case LoadExpiry(_) =>
      Reading(r, if Expired(s.table[Probe(r, ph.i, cap)].item.expireNs, r.now) then Missed else Found(Probe(r, ph.i, cap)))
    case LoadFlags(_) =>
      var e := s.table[ph.s].item;
      if !r.locked && !e.valSlab && !e.valMmap then Fallback(r.q)
      else Reading(r, GotFlags(ph.s, e.keyLong, e.valSlab, e.valMmap))
    case LoadLens(_) =>
      var e := s.table[ph.s].item;
      Reading(r, GotLens(ph.s, ph.keyLong, ph.valSlab, ph.valMmap, e.valLen, e.keyLen))
    case LoadPayload(_) =>
      var e := s.table[ph.s].item;
      Reading(r, Copied(ph.s, View(ph.keyLong, ph.valSlab, ph.valMmap, ph.valLen, ph.keyLen, e.payload)))
  }

  function Do(s: Shared, a: Action): Shared
    requires Enabled(s, a)
  {
    var th := s.threads[a.t];
    match a
    case Lock(t) => s.(wlock := true, threads := s.threads[t := WLocked])
    case WriteBegin(t) => s.(seq_ := s.seq_ + 1, threads := s.threads[t := WOpen])
    case WriteSlot(t, k, x) => s.(table := s.table[k := x])
    case WriteMem(t, mem) => s.(mem := mem)
    case WriteEnd(t) =>
      s.(seq_ := s.seq_ + 1, versions := s.versions + [Version(s.table, s.mem)], threads := s.threads[t := WClosed])
    case Unlock(t) => s.(wlock := false, threads := s.threads[t := Idle])
    case OtherMem(t, mem) => s.(mem := mem)
    case StartGet(t, q) => s.(threads := s.threads[t := Waiting(q, 0)])
    case ReadBegin(t, now) =>
      s.(threads := s.threads[t := Reading(Reader(th.q, now, s.seq_, false, th.tries), Scan(0))])
    case LockedBegin(t, now) =>
      s.(wlock := true, threads := s.threads[t := Reading(Reader(th.q, now, s.seq_, true, 0), Scan(0))])
    case Validate(t) =>
      var next :=
        if s.seq_ != th.r.begin then
          if th.r.tries + 1 < RETRIES then Waiting(th.r.q, th.r.tries + 1) else Fallback(th.r.q)
        else if th.ph.Missed? then Finished(th.r, None)
        else Reading(th.r, Checked(th.ph.s, th.ph.view));
      s.(threads := s.threads[t := next])
    case SetClock(t) =>
      var k := th.ph.s;
      s.(table := s.table[k := s.table[k].(clock := true)],
         threads := s.threads[t := if th.r.locked then Unlocking(th.r, Some(th.ph.view)) else Finished(th.r, Some(th.ph.view))])
    case ReadUnlock(t) =>
      s.(wlock := false, threads := s.threads[t := Finished(th.r, if th.Unlocking? then th.result else None)])
    case _ => s.(threads := s.threads[a.t := ReadStep(s, a)])
  }

  // ---- the invariant ----

  /** The shard looks like version `v` to anyone who ignores clock bits. */
  predicate SameView(table: seq<Slot>, mem: Memory, v: Version) {
    && |table| == |v.table|
    && forall k | 0 <= k < |table| ::
         && table[k].state == v.table[k].state
         && (table[k].state.Live? ==>
               table[k].item == v.table[k].item && SameBytes(table[k].item, v.mem, mem))
  }

  function FindIn(v: Version, r: Reader): (f: Option<nat>)
    requires |v.table| > 0
    ensures f.Some? ==> f.value < |v.table|
  {
    Find(v.table, v.mem, r.q.key, r.q.hash, r.now)
  }

  /** What `_shard_find` and the copy yield on one version, without interference. */
  function Answer(v: Version, r: Reader): Option<View>
    requires |v.table| > 0
  {
    var f := FindIn(v, r);
    if f.Some? then Some(ViewOf(v.table[f.value].item)) else None
  }

  predicate AtProbe(v: Version, r: Reader, i: nat)
    requires |v.table| > 0
  {
    FindFrom(v.table, v.mem, r.q.key, r.q.hash, r.now, i) == FindIn(v, r)
  }

  predicate LiveProbe(v: Version, r: Reader, i: nat)
    requires |v.table| > 0
  {
    i < |v.table| && AtProbe(v, r, i) && v.table[Probe(r, i, |v.table|)].state.Live?
  }

  function ProbeItem(v: Version, r: Reader, i: nat): Item
    requires i < |v.table|
  {
    v.table[Probe(r, i, |v.table|)].item
  }

  /** Everything a reader has seen so far is what version `v` shows. */
  predicate PhaseOk(v: Version, r: Reader, ph: Phase)
    requires |v.table| > 0
  {
    match ph
    case Scan(i) => AtProbe(v, r, i)
    case SawLive(i) => LiveProbe(v, r, i)
    case SawHash(i) => LiveProbe(v, r, i) && ProbeItem(v, r, i).keyHash == r.q.hash
    case SawLen(i) => LiveProbe(v, r, i) && ProbeItem(v, r, i).keyHash == r.q.hash && ProbeItem(v, r, i).keyLen == |r.q.key|
    case SawKey(i) => LiveProbe(v, r, i) && Matches(ProbeItem(v, r, i), v.mem, r.q.key, r.q.hash)
    case Missed => FindIn(v, r) == None
    case Found(s) => FindIn(v, r) == Some(s)
    case GotFlags(s, kl, vs, vm) =>
      FindIn(v, r) == Some(s) && var e := v.table[s].item; kl == e.keyLong && vs == e.valSlab && vm == e.valMmap
    case GotLens(s, kl, vs, vm, vlen, klen) =>
      FindIn(v, r) == Some(s) && var e := v.table[s].item;
      kl == e.keyLong && vs == e.valSlab && vm == e.valMmap && vlen == e.valLen && klen == e.keyLen
    case Copied(s, view) => FindIn(v, r) == Some(s) && view == ViewOf(v.table[s].item)
    case Checked(s, view) => FindIn(v, r) == Some(s) && view == ViewOf(v.table[s].item)
  }

  /** The thread owns the spinlock. */
  predicate Holds(th: Thread) {
    th.WLocked? || th.WOpen? || th.WClosed? || th.Unlocking? || (th.Reading? && th.r.locked)
  }

  predicate VersionsOk(s: Shared) {
    && |s.table| > 0 && |s.versions| == s.seq_ / 2 + 1
    && (forall k | 0 <= k < |s.versions| :: |s.versions[k].table| == |s.table|)
    && (forall k | 0 <= k < |s.versions| :: Readable(s.versions[k].table, s.versions[k].mem))
    && (s.seq_ % 2 == 0 ==> SameView(s.table, s.mem, s.versions[|s.versions| - 1]))
  }

  predicate LockOk(s: Shared) {
    && (forall t | 0 <= t < |s.threads| && Holds(s.threads[t]) :: s.wlock)
    && (forall t, u | 0 <= t < |s.threads| && 0 <= u < |s.threads| && Holds(s.threads[t]) && Holds(s.threads[u]) :: t == u)
    && (s.seq_ % 2 == 1 <==> exists t | 0 <= t < |s.threads| :: s.threads[t].WOpen?)
  }

  predicate Begun(s: Shared, r: Reader) {
    r.begin % 2 == 0 && r.q.since <= r.begin <= s.seq_ && r.begin / 2 < |s.versions| && |s.versions[r.begin / 2].table| > 0
  }

  predicate ThreadOk(s: Shared, th: Thread) {
    match th
    case Reading(r, ph) =>
      && Begun(s, r)
      && (r.locked ==> s.seq_ == r.begin && !ph.Checked?)
      && (ph.Checked? || s.seq_ == r.begin ==> PhaseOk(s.versions[r.begin / 2], r, ph))
    case Waiting(q, _) => q.since <= s.seq_
    case Fallback(q) => q.since <= s.seq_
    case Unlocking(r, result) => Begun(s, r) && result == Answer(s.versions[r.begin / 2], r)
    case Finished(r, result) => Begun(s, r) && result == Answer(s.versions[r.begin / 2], r)
    case _ => true
  }

  predicate Inv(s: Shared) {
    VersionsOk(s) && LockOk(s) && forall t | 0 <= t < |s.threads| :: ThreadOk(s, s.threads[t])
  }

  // ---- readers ----

  predicate IsRead(a: Action) {
    a.LoadState? || a.LoadHash? || a.LoadLen? || a.CompareKey? || a.LoadExpiry? || a.LoadFlags? || a.LoadLens? || a.LoadPayload?
  }

  predicate StepsOn(s: Shared, a: Action, v: Version)
    requires Enabled(s, a) && IsRead(a) && |v.table| > 0
  {
    var th := ReadStep(s, a);
    th.Reading? ==> th.r == s.threads[a.t].r && PhaseOk(v, th.r, th.ph)
  }

  lemma LoadStateOk(s: Shared, a: Action, v: Version)
    requires Enabled(s, a) && a.LoadState? && SameView(s.table, s.mem, v)
    requires var th := s.threads[a.t]; PhaseOk(v, th.r, th.ph)
    ensures StepsOn(s, a, v)
  {
    var th := s.threads[a.t];
    if th.ph.i < |s.table| {
      var k := Probe(th.r, th.ph.i, |s.table|);
      assert s.table[k].state == v.table[k].state;
    }
  }

  /** While the view is the version's, a LIVE slot of the probe sequence shows the version's entry. */
  lemma ProbedItem(s: Shared, v: Version, r: Reader, i: nat)
    requires SameView(s.table, s.mem, v) && |v.table| > 0 && LiveProbe(v, r, i)
    ensures s.table[Probe(r, i, |s.table|)].item == ProbeItem(v, r, i)
  {
    hide SameBytes;
    hide AtProbe;
    assert s.table[Probe(r, i, |s.table|)].state.Live?;
  }

  lemma LoadFieldOk(s: Shared, a: Action, v: Version)
    requires Enabled(s, a) && (a.LoadHash? || a.LoadLen?) && SameView(s.table, s.mem, v)
    requires var th := s.threads[a.t]; PhaseOk(v, th.r, th.ph)
    ensures StepsOn(s, a, v)
  {
    hide KeyBytes;
    var th := s.threads[a.t];
    ProbedItem(s, v, th.r, th.ph.i);
    hide SameView;
  }

  lemma LoadExpiryOk(s: Shared, a: Action, v: Version)
    requires Enabled(s, a) && a.LoadExpiry? && SameView(s.table, s.mem, v)
    requires var th := s.threads[a.t]; PhaseOk(v, th.r, th.ph)
    ensures StepsOn(s, a, v)
  {
    hide KeyBytes;
    var th := s.threads[a.t];
    ProbedItem(s, v, th.r, th.ph.i);
    hide SameView;
  }

  lemma CompareOk(s: Shared, a: Action, v: Version)
    requires Enabled(s, a) && a.CompareKey? && SameView(s.table, s.mem, v) && Readable(v.table, v.mem)
    requires var th := s.threads[a.t]; PhaseOk(v, th.r, th.ph)
    ensures StepsOn(s, a, v)
  {
    hide KeyBytes;
    var th := s.threads[a.t];
    var k := Probe(th.r, th.ph.i, |s.table|);
    assert s.table[k].item == v.table[k].item && SameBytes(s.table[k].item, v.mem, s.mem);
  }

  lemma CopyOk(s: Shared, a: Action, v: Version)
    requires Enabled(s, a) && (a.LoadFlags? || a.LoadLens? || a.LoadPayload?) && SameView(s.table, s.mem, v)
    requires var th := s.threads[a.t]; PhaseOk(v, th.r, th.ph)
    ensures StepsOn(s, a, v)
  {
    hide KeyBytes;
    var k := s.threads[a.t].ph.s;
    assert v.table[k].state.Live?;
    assert s.table[k].item == v.table[k].item;
  }

  /** While `seq` is what the reader began with, each access shows the reader's version. */
  lemma ReadStepOk(s: Shared, a: Action, v: Version)
    requires Enabled(s, a) && IsRead(a) && SameView(s.table, s.mem, v) && Readable(v.table, v.mem)
    requires var th := s.threads[a.t]; PhaseOk(v, th.r, th.ph)
    ensures StepsOn(s, a, v)
  {
    hide PhaseOk;
    hide SameView;
    hide StepsOn;
    if a.LoadState? { LoadStateOk(s, a, v); }
    else if a.CompareKey? { CompareOk(s, a, v); }
    else if a.LoadHash? || a.LoadLen? { LoadFieldOk(s, a, v); }
    else if a.LoadExpiry? { LoadExpiryOk(s, a, v); }
    else { CopyOk(s, a, v); }
  }

  // ---- every step keeps the invariant ----

  /** Which part of the shared state a step can change. */
  lemma StepFrame(s: Shared, a: Action)
    requires Enabled(s, a)
    ensures var d := Do(s, a);
            && d.threads == s.threads[a.t := d.threads[a.t]]
            && d.seq_ == (if a.WriteBegin? || a.WriteEnd? then s.seq_ + 1 else s.seq_)
            && d.versions == (if a.WriteEnd? then s.versions + [Version(s.table, s.mem)] else s.versions)
            && (!a.WriteSlot? && !a.SetClock? ==> d.table == s.table)
            && (!a.WriteMem? && !a.OtherMem? ==> d.mem == s.mem)
            && |d.table| == |s.table|
  {
    hide KeyBytes;
    hide Readable;
    hide KeepsBytes;
    hide ReadStep;
  }

  lemma StepVersions(s: Shared, a: Action)
    requires VersionsOk(s) && LockOk(s) && Enabled(s, a)
    ensures VersionsOk(Do(s, a))
  {
    var d := Do(s, a);
    StepFrame(s, a);
    if a.WriteEnd? {
      EndVersion(s, d);
    } else {
      if a.WriteBegin? { OneHolder(s, a.t); }
      if a.SetClock? || a.OtherMem? { SameViewSteps(s, a); }
      hide Do;
      hide SameView;
      hide Readable;
    }
  }

  lemma EndVersion(s: Shared, d: Shared)
    requires VersionsOk(s) && Readable(s.table, s.mem) && s.seq_ % 2 == 1
    requires d.table == s.table && d.mem == s.mem && d.seq_ == s.seq_ + 1 && d.versions == s.versions + [Version(s.table, s.mem)]
    ensures VersionsOk(d)
  {
    hide Readable;
    hide KeyBytes;
    assert forall k | 0 <= k < |s.versions| :: d.versions[k] == s.versions[k];
  }

  /** Outside a section, setting a clock bit or changing memory no LIVE entry uses shows nothing new. */
  lemma SameViewSteps(s: Shared, a: Action)
    requires Enabled(s, a) && (a.SetClock? || a.OtherMem?)
    ensures var d := Do(s, a);
            s.seq_ % 2 == 0 ==> forall v: Version | SameView(s.table, s.mem, v) :: SameView(d.table, d.mem, v)
  {
    hide KeyBytes;
  }

  lemma OneHolder(s: Shared, t: nat)
    requires LockOk(s) && t < |s.threads| && Holds(s.threads[t]) && !s.threads[t].WOpen?
    ensures s.seq_ % 2 == 0
  {
  }

  /** The lock changes hands only when it is free or given up. */
  lemma LockChange(s: Shared, d: Shared, t: nat, x: Thread)
    requires LockOk(s) && t < |s.threads| && d.threads == s.threads[t := x]
    requires d.seq_ % 2 == s.seq_ % 2 && (x.WOpen? <==> s.threads[t].WOpen?)
    requires Holds(x) ==> if s.wlock then Holds(s.threads[t]) && d.wlock else d.wlock || Holds(s.threads[t])
    requires !d.wlock ==> !s.wlock || Holds(s.threads[t])
    ensures LockOk(d)
  {
    assert forall u | 0 <= u < |s.threads| && u != t :: d.threads[u] == s.threads[u];
    if u :| 0 <= u < |s.threads| && s.threads[u].WOpen? { assert d.threads[u].WOpen?; }
  }

  lemma OpenOk(s: Shared, d: Shared, t: nat)
    requires LockOk(s) && t < |s.threads| && s.threads[t].WLocked? && d.wlock == s.wlock
    requires d.threads == s.threads[t := WOpen] && d.seq_ == s.seq_ + 1
    ensures LockOk(d)
  {
    OneHolder(s, t);
    assert d.threads[t].WOpen?;
  }

  lemma CloseOk(s: Shared, d: Shared, t: nat)
    requires LockOk(s) && t < |s.threads| && s.threads[t].WOpen? && d.wlock == s.wlock
    requires d.threads == s.threads[t := WClosed] && d.seq_ == s.seq_ + 1
    ensures LockOk(d)
  {
    assert forall u | 0 <= u < |s.threads| && u != t :: !s.threads[u].WOpen?;
  }

  lemma StepLock(s: Shared, a: Action)
    requires LockOk(s) && Enabled(s, a)
    ensures LockOk(Do(s, a))
  {
    hide LockOk;
    hide KeyBytes;
    hide KeepsBytes;
    hide Readable;
    var d := Do(s, a);
    if a.WriteBegin? {
      OpenOk(s, d, a.t);
    } else if a.WriteEnd? {
      CloseOk(s, d, a.t);
    } else {
      assert d.threads == s.threads[a.t := d.threads[a.t]];
      LockChange(s, d, a.t, d.threads[a.t]);
    }
  }

  lemma ReadThread(s: Shared, a: Action)
    requires Inv(s) && Enabled(s, a) && IsRead(a)
    ensures ThreadOk(s, ReadStep(s, a))
  {
    var th := s.threads[a.t];
    assert ThreadOk(s, th);
    if s.seq_ == th.r.begin {
      assert th.r.begin / 2 == |s.versions| - 1;
      hide PhaseOk;
      hide SameView;
      ReadStepOk(s, a, s.versions[th.r.begin / 2]);
    }
  }

  /** A thread is not disturbed by more versions, nor by a new sequence number it does not hold the lock against. */
  lemma ThreadFrame(s: Shared, d: Shared, th: Thread)
    requires ThreadOk(s, th) && s.versions <= d.versions && s.seq_ <= d.seq_
    requires Holds(th) && th.Reading? ==> d.seq_ == s.seq_
    ensures ThreadOk(d, th)
  {
    hide PhaseOk;
    hide Answer;
    assert forall k | 0 <= k < |s.versions| :: d.versions[k] == s.versions[k];
  }

  /** A thread that does not act is not disturbed. */
  lemma OtherThread(s: Shared, a: Action, u: nat)
    requires Inv(s) && Enabled(s, a) && u < |s.threads| && u != a.t
    ensures ThreadOk(Do(s, a), s.threads[u])
  {
    hide ThreadOk;
    hide VersionsOk;
    assert ThreadOk(s, s.threads[u]);
    var d := Do(s, a);
    StepFrame(s, a);
    assert a.WriteBegin? || a.WriteEnd? ==> Holds(s.threads[a.t]);
    hide Do;
    hide Enabled;
    ThreadFrame(s, d, s.threads[u]);
  }

  lemma BeginThread(s: Shared, a: Action)
    requires Inv(s) && Enabled(s, a) && (a.ReadBegin? || a.LockedBegin?)
    ensures ThreadOk(Do(s, a), Do(s, a).threads[a.t])
  {
    if a.LockedBegin? { LockFree(s); }
  }

  /** A validated read, hit or miss, is the answer of its version. */
  lemma FinishThread(s: Shared, a: Action)
    requires Inv(s) && Enabled(s, a) && (a.Validate? || a.SetClock? || a.ReadUnlock?)
    ensures ThreadOk(Do(s, a), Do(s, a).threads[a.t])
  {
    hide FindIn;
    hide SameView;
    hide KeyBytes;
    assert ThreadOk(s, s.threads[a.t]);
    var d := Do(s, a);
    assert d.versions == s.versions && d.seq_ == s.seq_;
  }

  lemma ActingThread(s: Shared, a: Action)
    requires Inv(s) && Enabled(s, a)
    ensures ThreadOk(Do(s, a), Do(s, a).threads[a.t])
  {
    assert ThreadOk(s, s.threads[a.t]);
    StepFrame(s, a);
    var d := Do(s, a);
    if IsRead(a) {
      ReadThread(s, a);
      assert d.threads[a.t] == ReadStep(s, a);
      hide Do;
      hide ReadStep;
      hide ThreadOk;
      ThreadFrame(s, d, d.threads[a.t]);
    } else if a.ReadBegin? || a.LockedBegin? {
      BeginThread(s, a);
    } else if a.Validate? || a.SetClock? || a.ReadUnlock? {
      FinishThread(s, a);
    } else if a.OtherMem? {
      hide ThreadOk;
      ThreadFrame(s, d, d.threads[a.t]);
    } else {
      hide PhaseOk;
      hide Answer;
      hide KeyBytes;
      hide Readable;
    }
  }

  lemma LockFree(s: Shared)
    requires LockOk(s) && !s.wlock
    ensures s.seq_ % 2 == 0
  {
  }

  lemma StepKeeps(s: Shared, a: Action)
    requires Inv(s) && Enabled(s, a)
    ensures Inv(Do(s, a))
  {
    hide ThreadOk;
    hide VersionsOk;
    hide LockOk;
    hide ReadStep;
    StepVersions(s, a);
    StepLock(s, a);
    var d := Do(s, a);
    ActingThread(s, a);
    forall u | 0 <= u < |d.threads| ensures ThreadOk(d, d.threads[u]) {
      if u != a.t { OtherThread(s, a, u); assert d.threads[u] == s.threads[u]; }
    }
  }

  // ---- runs ----

  predicate Legal(s: Shared, run: seq<Action>)
    decreases |run|
  {
    run == [] || (Enabled(s, run[0]) && Legal(Do(s, run[0]), run[1..]))
  }

  function Exec(s: Shared, run: seq<Action>): Shared
    requires Legal(s, run)
    decreases |run|
  {
    if run == [] then s else Exec(Do(s, run[0]), run[1..])
  }

  function Start(table: seq<Slot>, mem: Memory, threads: nat): Shared {
    Shared(false, 0, table, mem, [Version(table, mem)], seq(threads, t => Idle))
  }

  lemma StartInv(table: seq<Slot>, mem: Memory, threads: nat)
    requires |table| > 0 && Readable(table, mem)
    ensures Inv(Start(table, mem, threads))
  {
  }

  lemma {:induction false} RunKeeps(s: Shared, run: seq<Action>)
    requires Inv(s) && Legal(s, run)
    ensures Inv(Exec(s, run))
    decreases |run|
  {
    if run != [] {
      StepKeeps(s, run[0]);
      hide Inv;
      hide Do;
      hide Enabled;
      RunKeeps(Do(s, run[0]), run[1..]);
    }
  }

  /** Write sections exclude each other, and `seq` is odd exactly while one is open. */
  predicate Exclusive(s: Shared) {
    && (forall t, u | 0 <= t < |s.threads| && 0 <= u < |s.threads| && s.threads[t].WOpen? && s.threads[u].WOpen? :: t == u)
    && (s.seq_ % 2 == 1 <==> exists t | 0 <= t < |s.threads| :: s.threads[t].WOpen?)
  }

  /**
   * A finished read answers as `_shard_find` on one committed version, that of its
   * begin sequence, committed no earlier than the last version before the call.
   */
  predicate Atomic(s: Shared, th: Thread) {
    th.Finished? ==>
      && th.r.begin % 2 == 0 && th.r.q.since <= th.r.begin
      && th.r.begin / 2 < |s.versions| && |s.versions[th.r.begin / 2].table| > 0
      && th.result == Answer(s.versions[th.r.begin / 2], th.r)
  }

  /** Seqlock safety over every interleaving of any number of readers and writers. */
  lemma AllRunsSafe(table: seq<Slot>, mem: Memory, threads: nat, run: seq<Action>)
    requires |table| > 0 && Readable(table, mem) && Legal(Start(table, mem, threads), run)
    ensures var s := Exec(Start(table, mem, threads), run);
            Exclusive(s) && forall t | 0 <= t < |s.threads| :: Atomic(s, s.threads[t])
  {
    var s0 := Start(table, mem, threads);
    StartInv(table, mem, threads);
    RunKeeps(s0, run);
    hide Answer;
    hide SameView;
    var s := Exec(s0, run);
    assert Exclusive(s);
    forall t | 0 <= t < |s.threads| ensures Atomic(s, s.threads[t]) { assert ThreadOk(s, s.threads[t]); }
  }

  /** Validation succeeds only while the version read is still the latest one. */
  lemma ValidatedIsLatest(s: Shared, t: nat)
    requires Inv(s) && Enabled(s, Validate(t))
    requires var th := Do(s, Validate(t)).threads[t]; th.Finished? || th.Reading?
    ensures s.threads[t].r.begin / 2 == |s.versions| - 1
    ensures SameView(s.table, s.mem, s.versions[|s.versions| - 1])
  {
    assert ThreadOk(s, s.threads[t]);
  }
}
