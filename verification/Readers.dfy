/** What a get does for its caller: it answers, it gives the lock back, and it tries eight times without it. */
module Readers {
  import opened Bytes
  import opened Entries
  import opened Table
  import opened Seqlock

  // ---- a get that nobody disturbs ----

  predicate Getting(th: Thread) { th.Waiting? || th.Fallback? || th.Reading? || th.Unlocking? }

  /** The next step of a get. */
  function NextAct(s: Shared, t: nat, now: int): Action
    requires t < |s.threads| && |s.table| > 0 && Getting(s.threads[t])
  {
    match s.threads[t]
    case Waiting(_, _) => ReadBegin(t, now)
    case Fallback(_) => LockedBegin(t, now)
    case Unlocking(_, _) => ReadUnlock(t)
    case Reading(r, ph) =>
      match ph
      case Scan(_) => LoadState(t)
      case SawLive(_) => LoadHash(t)
      case SawHash(_) => LoadLen(t)
      case SawLen(i) => CompareKey(t, i < |s.table| && KeyBytes(s.table[Probe(r, i, |s.table|)].item, s.mem) == Some(r.q.key))
      case SawKey(_) => LoadExpiry(t)
      case Missed => if r.locked then ReadUnlock(t) else Validate(t)
      case Found(_) => LoadFlags(t)
      case GotFlags(_, _, _, _) => LoadLens(t)
      case GotLens(_, _, _, _, _, _) => LoadPayload(t)
      case Copied(_, _) => if r.locked then SetClock(t) else Validate(t)
      case Checked(_, _) => SetClock(t)
  }

  /** What a get has to wait for: an even counter, or the lock. */
  predicate MayGo(s: Shared, th: Thread) {
    Getting(th) && (th.Waiting? ==> s.seq_ % 2 == 0) && (th.Fallback? ==> !s.wlock)
    && (th.Reading? ==> InPhase(th, |s.table|) && (th.ph.Checked? ==> !th.r.locked))
  }

  /** A get waits for nothing else: its next step can always be made. */
  lemma NextEnabled(s: Shared, t: nat, now: int)
    requires t < |s.threads| && |s.table| > 0 && MayGo(s, s.threads[t])
    ensures Enabled(s, NextAct(s, t, now)) && NextAct(s, t, now).t == t
  {
    hide KeyBytes;
  }

  /** What the fields read so far say of the slot being looked at. */
  predicate Seen(s: Shared, th: Thread, now: int)
    requires |s.table| > 0
  {
    && MayGo(s, th) && s.seq_ % 2 == 0
    && (th.Waiting? ==> !s.wlock)
    && (th.Unlocking? ==> th.r.locked && th.r.now == now)
    && (th.Reading? ==>
          && th.r.now == now && th.r.begin == s.seq_ && th.r.locked == s.wlock
          && match th.ph
             case Scan(i) => true
             case SawLive(i) => s.table[Probe(th.r, i, |s.table|)].state.Live?
             case SawHash(i) => var x := s.table[Probe(th.r, i, |s.table|)]; x.state.Live? && x.item.keyHash == th.r.q.hash
             case SawLen(i) =>
               var x := s.table[Probe(th.r, i, |s.table|)];
               x.state.Live? && x.item.keyHash == th.r.q.hash && x.item.keyLen == |th.r.q.key|
             case SawKey(i) => Hit(s.table, s.mem, th.r.q.key, th.r.q.hash, Probe(th.r, i, |s.table|))
             case GotFlags(k, a, b, c) => Flags(s.table[k].item, a, b, c) && (th.r.locked || b || c)
             case GotLens(k, a, b, c, vl, kl) =>
               Flags(s.table[k].item, a, b, c) && (th.r.locked || b || c) && vl == s.table[k].item.valLen && kl == s.table[k].item.keyLen
             case Copied(k, v) => v == ViewOf(s.table[k].item) && (th.r.locked || v.valSlab || v.valMmap)
             case Checked(k, v) => v == ViewOf(s.table[k].item) && (v.valSlab || v.valMmap)
             case _ => true)
  }

  predicate Flags(e: Item, a: bool, b: bool, c: bool) { e.keyLong == a && e.valSlab == b && e.valMmap == c }

  /** The get is over: the entry in slot `f` was found, its clock bit set and its fields returned, or none was. */
  function Over(s: Shared, t: nat, r: Reader, f: Option<nat>): Shared
    requires t < |s.threads| && (f.Some? ==> f.value < |s.table|)
  {
    s.(table := if f.Some? then s.table[f.value := s.table[f.value].(clock := true)] else s.table,
       wlock := false,
       threads := s.threads[t := Finished(r, if f.Some? then Some(ViewOf(s.table[f.value].item)) else None)])
  }

  predicate Inline(e: Item) { !e.valSlab && !e.valMmap }

  /** A reader without the lock has found slot `f`: an inline value sends it to the locked path. */
  function OverFrom(s: Shared, t: nat, r: Reader, f: Option<nat>): Shared
    requires t < |s.threads| && |s.table| > 0 && (f.Some? ==> f.value < |s.table|)
  {
    if !r.locked && f.Some? && Inline(s.table[f.value].item) then OverLocked(s, t, r.q, r.now) else Over(s, t, r, f)
  }

  function OverLocked(s: Shared, t: nat, q: Query, now: int): Shared
    requires t < |s.threads| && |s.table| > 0
  {
    Over(s, t, Reader(q, now, s.seq_, true, 0), Find(s.table, s.mem, q.key, q.hash, now))
  }

  /** Where the get will end from here. */
  function End(s: Shared, t: nat, now: int): Shared
    requires t < |s.threads| && |s.table| > 0 && Seen(s, s.threads[t], now)
  {
    match s.threads[t]
    case Waiting(q, k) =>
      OverFrom(s, t, Reader(q, now, s.seq_, false, k), Find(s.table, s.mem, q.key, q.hash, now))
    case Fallback(q) => OverLocked(s, t, q, now)
    case Unlocking(r, v) => s.(wlock := false, threads := s.threads[t := Finished(r, v)])
    case Reading(r, ph) =>
      match ph
      case Scan(i) => OverFrom(s, t, r, FindFrom(s.table, s.mem, r.q.key, r.q.hash, now, i))
      case SawLive(i) => OverFrom(s, t, r, FindFrom(s.table, s.mem, r.q.key, r.q.hash, now, i))
      case SawHash(i) => OverFrom(s, t, r, FindFrom(s.table, s.mem, r.q.key, r.q.hash, now, i))
      case SawLen(i) => OverFrom(s, t, r, FindFrom(s.table, s.mem, r.q.key, r.q.hash, now, i))
      case SawKey(i) => OverFrom(s, t, r, FindFrom(s.table, s.mem, r.q.key, r.q.hash, now, i))
      case Missed => Over(s, t, r, None)
      case Found(k) => OverFrom(s, t, r, Some(k))
      case GotFlags(k, _, _, _) => Over(s, t, r, Some(k))
      case GotLens(k, _, _, _, _, _) => Over(s, t, r, Some(k))
      case Copied(k, _) => Over(s, t, r, Some(k))
      case Checked(k, _) => Over(s, t, r, Some(k))
  }

  /** Reading steps left, at most. */
  function Steps(th: Thread, cap: nat): nat {
    match th
    case Waiting(_, _) => 12 * cap + 60
    case Fallback(_) => 6 * cap + 30
    case Unlocking(_, _) => 1
    case Reading(r, ph) =>
      (if r.locked then 0 else 6 * cap + 31) +
      (match ph
       case Scan(i) => if i < cap then 6 * (cap - i) + 15 else 15
       case SawLive(i) => if i < cap then 6 * (cap - i) + 14 else 14
       case SawHash(i) => if i < cap then 6 * (cap - i) + 13 else 13
       case SawLen(i) => if i < cap then 6 * (cap - i) + 12 else 12
       case SawKey(i) => if i < cap then 6 * (cap - i) + 11 else 11
       case Found(_) => 8
       case GotFlags(_, _, _, _) => 7
       case GotLens(_, _, _, _, _, _) => 6
       case Copied(_, _) => 5
       case Checked(_, _) => 4
       case Missed => 3)
    case _ => 0
  }

  /** One step keeps what was seen and where the get will end, and brings it closer. */
  predicate Advances(s: Shared, t: nat, now: int)
    requires t < |s.threads| && |s.table| > 0 && Seen(s, s.threads[t], now)
  {
    NextEnabled(s, t, now);
    var d := Do(s, NextAct(s, t, now));
    && |d.threads| == |s.threads| && |d.table| == |s.table| && Steps(d.threads[t], |d.table|) < Steps(s.threads[t], |s.table|)
    && (if d.threads[t].Finished? then d == End(s, t, now)
        else Seen(d, d.threads[t], now) && End(d, t, now) == End(s, t, now))
  }

  lemma FindNext(s: Shared, r: Reader, i: nat)
    requires |s.table| > 0
    ensures FindFrom(s.table, s.mem, r.q.key, r.q.hash, r.now, i) ==
            if i >= |s.table| then None
            else
              var k := Probe(r, i, |s.table|);
              if s.table[k].state.Empty? then None
              else if Hit(s.table, s.mem, r.q.key, r.q.hash, k) then if Expired(s.table[k].item.expireNs, r.now) then None else Some(k)
              else FindFrom(s.table, s.mem, r.q.key, r.q.hash, r.now, i + 1)
  {
  }

  lemma BeginAdvances(s: Shared, t: nat, now: int)
    requires t < |s.threads| && |s.table| > 0 && Seen(s, s.threads[t], now) && !s.threads[t].Reading?
    ensures Advances(s, t, now)
  {
    hide FindFrom;
    hide KeyBytes;
    NextEnabled(s, t, now);
    var d := Do(s, NextAct(s, t, now));
  }

  /** Where a get ends does not depend on how far it is. */
  lemma SameOver(s: Shared, t: nat, th: Thread, r: Reader, f: Option<nat>)
    requires t < |s.threads| && |s.table| > 0 && (f.Some? ==> f.value < |s.table|)
    ensures var d := s.(threads := s.threads[t := th]);
            OverFrom(d, t, r, f) == OverFrom(s, t, r, f) && (f.None? ==> Over(d, t, r, f) == OverFrom(s, t, r, f))
  {
    hide FindFrom;
  }

  lemma ScanAdvances(s: Shared, t: nat, now: int)
    requires t < |s.threads| && |s.table| > 0 && Seen(s, s.threads[t], now) && s.threads[t].Reading?
    requires var ph := s.threads[t].ph; ph.Scan? || ph.SawLive?
    ensures Advances(s, t, now)
  {
    hide FindFrom;
    hide KeyBytes;
    hide Home;
    hide At;
    hide Over;
    hide OverFrom;
    NextEnabled(s, t, now);
    var th := s.threads[t];
    FindNext(s, th.r, th.ph.i);
    var d := Do(s, NextAct(s, t, now));
    SameOver(s, t, d.threads[t], th.r, FindFrom(s.table, s.mem, th.r.q.key, th.r.q.hash, now, th.ph.i));
  }

  lemma CompareAdvances(s: Shared, t: nat, now: int)
    requires t < |s.threads| && |s.table| > 0 && Seen(s, s.threads[t], now) && s.threads[t].Reading?
    requires var ph := s.threads[t].ph; ph.SawHash? || ph.SawLen? || ph.SawKey?
    ensures Advances(s, t, now)
  {
    hide FindFrom;
    hide KeyBytes;
    hide Home;
    hide At;
    hide Over;
    hide OverFrom;
    NextEnabled(s, t, now);
    var th := s.threads[t];
    FindNext(s, th.r, th.ph.i);
    var d := Do(s, NextAct(s, t, now));
    SameOver(s, t, d.threads[t], th.r, FindFrom(s.table, s.mem, th.r.q.key, th.r.q.hash, now, th.ph.i));
  }

  lemma CopyAdvances(s: Shared, t: nat, now: int)
    requires t < |s.threads| && |s.table| > 0 && Seen(s, s.threads[t], now) && s.threads[t].Reading?
    requires var ph := s.threads[t].ph; ph.Found? || ph.GotFlags? || ph.GotLens?
    ensures Advances(s, t, now)
  {
    hide FindFrom;
    hide KeyBytes;
    hide Home;
    hide At;
    NextEnabled(s, t, now);
  }

  lemma FinishAdvances(s: Shared, t: nat, now: int)
    requires t < |s.threads| && |s.table| > 0 && Seen(s, s.threads[t], now) && s.threads[t].Reading?
    requires var ph := s.threads[t].ph; ph.Missed? || ph.Copied? || ph.Checked?
    ensures Advances(s, t, now)
  {
    hide FindFrom;
    hide KeyBytes;
    hide Home;
    hide At;
    NextEnabled(s, t, now);
  }

  lemma StepAdvances(s: Shared, t: nat, now: int)
    requires t < |s.threads| && |s.table| > 0 && Seen(s, s.threads[t], now)
    ensures Advances(s, t, now)
  {
    hide Advances;
    if !s.threads[t].Reading? {
      BeginAdvances(s, t, now);
    } else {
      var ph := s.threads[t].ph;
      if ph.Scan? || ph.SawLive? {
        ScanAdvances(s, t, now);
      } else if ph.SawHash? || ph.SawLen? || ph.SawKey? {
        CompareAdvances(s, t, now);
      } else if ph.Found? || ph.GotFlags? || ph.GotLens? {
        CopyAdvances(s, t, now);
      } else {
        FinishAdvances(s, t, now);
      }
    }
  }

  /** The steps of one get, one after the other, while no other thread moves. */
  function Alone(s: Shared, t: nat, now: int): Shared
    requires t < |s.threads| && |s.table| > 0 && Seen(s, s.threads[t], now)
    decreases Steps(s.threads[t], |s.table|)
  {
    NextEnabled(s, t, now);
    StepAdvances(s, t, now);
    var d := Do(s, NextAct(s, t, now));
    if d.threads[t].Finished? then d else Alone(d, t, now)
  }

  lemma {:induction false} AloneEnds(s: Shared, t: nat, now: int)
    requires t < |s.threads| && |s.table| > 0 && Seen(s, s.threads[t], now)
    ensures Alone(s, t, now) == End(s, t, now)
    decreases Steps(s.threads[t], |s.table|)
  {
    NextEnabled(s, t, now);
    StepAdvances(s, t, now);
    hide Do;
    hide End;
    hide Seen;
    hide Steps;
    var d := Do(s, NextAct(s, t, now));
    if !d.threads[t].Finished? { AloneEnds(d, t, now); }
  }

  /**
   * A get that nobody disturbs ends: it returns the fields of the entry that lookup finds
   * and sets its clock bit, or reports a miss; it takes the lock iff the value is inline,
   * and leaves it free; nothing else changes.
   */
  lemma GetAlone(s: Shared, t: nat, q: Query, now: int)
    requires t < |s.threads| && |s.table| > 0 && s.threads[t] == Waiting(q, 0) && s.seq_ % 2 == 0 && !s.wlock
    ensures var f := Find(s.table, s.mem, q.key, q.hash, now);
            var locked := f.Some? && !s.table[f.value].item.valSlab && !s.table[f.value].item.valMmap;
            Alone(s, t, now) ==
            s.(table := if f.Some? then s.table[f.value := s.table[f.value].(clock := true)] else s.table,
               threads := s.threads[t := Finished(Reader(q, now, s.seq_, locked, 0),
                                                  if f.Some? then Some(ViewOf(s.table[f.value].item)) else None)])
  {
    hide FindFrom;
    AloneEnds(s, t, now);
    hide Alone;
  }

  // ---- how often a get tries ----

  /** The validation of thread `t` fails: a section was opened since it began to read. */
  predicate Fails(s: Shared, a: Action, t: nat)
    requires Enabled(s, a)
  {
    a.Validate? && a.t == t && s.seq_ != s.threads[t].r.begin
  }

  /** Thread `t`, without the lock, meets an inline value. */
  predicate MeetsInline(s: Shared, a: Action, t: nat)
    requires Enabled(s, a)
  {
    a.LoadFlags? && a.t == t && !s.threads[t].r.locked && Inline(s.table[s.threads[t].ph.s].item)
  }

  function Failures(s: Shared, run: seq<Action>, t: nat): nat
    requires Legal(s, run)
    decreases |run|
  {
    if run == [] then 0 else (if Fails(s, run[0], t) then 1 else 0) + Failures(Do(s, run[0]), run[1..], t)
  }

  predicate Inlined(s: Shared, run: seq<Action>, t: nat)
    requires Legal(s, run)
    decreases |run|
  {
    run != [] && (MeetsInline(s, run[0], t) || Inlined(Do(s, run[0]), run[1..], t))
  }

  /** A thread that has failed `n` times in its get, and met an inline value or not. */
  predicate Tried(th: Thread, n: nat, inline: bool) {
    match th
    case Waiting(_, k) => n == k < 8 && !inline
    case Fallback(_) => inline || n == 8
    case Reading(r, _) => if r.locked then inline || n == 8 else n == r.tries < 8 && !inline
    case Unlocking(r, _) => r.locked && (inline || n == 8)
    case Finished(r, _) => if r.locked then inline || n == 8 else n == r.tries < 8 && !inline
    case _ => false
  }

  lemma OwnStepTried(s: Shared, a: Action, t: nat, n: nat, inline: bool)
    requires Enabled(s, a) && a.t == t < |s.threads| && Tried(s.threads[t], n, inline)
    ensures var d := Do(s, a);
            t < |d.threads| && Tried(d.threads[t], n + (if Fails(s, a, t) then 1 else 0), inline || MeetsInline(s, a, t))
  {
    hide KeyBytes;
    hide Readable;
    hide KeepsBytes;
    hide Probe;
  }

  lemma StepTried(s: Shared, a: Action, t: nat, n: nat, inline: bool)
    requires Enabled(s, a) && t < |s.threads| && Tried(s.threads[t], n, inline)
    ensures var d := Do(s, a);
            t < |d.threads| && Tried(d.threads[t], n + (if Fails(s, a, t) then 1 else 0), inline || MeetsInline(s, a, t))
  {
    assert a.t < |s.threads|;
    hide Enabled;
    hide Do;
    hide Tried;
    StepFrame(s, a);
    if a.t == t { OwnStepTried(s, a, t, n, inline); }
  }

  lemma {:induction false} RunTried(s: Shared, run: seq<Action>, t: nat, n: nat, inline: bool)
    requires Legal(s, run) && t < |s.threads| && Tried(s.threads[t], n, inline)
    ensures var d := Exec(s, run);
            t < |d.threads| && Tried(d.threads[t], n + Failures(s, run, t), inline || Inlined(s, run, t))
    decreases |run|
  {
    hide Do;
    hide Enabled;
    hide Tried;
    if run != [] {
      StepTried(s, run[0], t, n, inline);
      RunTried(Do(s, run[0]), run[1..], t, n + (if Fails(s, run[0], t) then 1 else 0), inline || MeetsInline(s, run[0], t));
    }
  }

  /**
   * From its call on and whatever other threads do, a get reads without the lock until its
   * validation has failed eight times or it meets an inline value, and takes the lock only then.
   */
  lemma EightTries(s: Shared, t: nat, q: Query, run: seq<Action>)
    requires Enabled(s, StartGet(t, q)) && Legal(Do(s, StartGet(t, q)), run)
    ensures var s0 := Do(s, StartGet(t, q));
            var th := Exec(s0, run).threads;
            t < |th| && Tried(th[t], Failures(s0, run, t), Inlined(s0, run, t))
  {
    hide Legal;
    hide Exec;
    RunTried(Do(s, StartGet(t, q)), run, t, 0, false);
  }

  // ---- the lock ----

  /** The lock is taken iff some thread holds it. */
  ghost predicate Owned(s: Shared) { s.wlock <==> exists t | 0 <= t < |s.threads| :: Holds(s.threads[t]) }

  lemma StepOwned(s: Shared, a: Action)
    requires Enabled(s, a) && Owned(s) && LockOk(s)
    ensures Owned(Do(s, a))
  {
    var d := Do(s, a);
    StepFrame(s, a);
    HolderStep(s, a);
    if Holds(d.threads[a.t]) {
      assert d.wlock;
    } else if d.wlock {
      var u :| 0 <= u < |s.threads| && Holds(s.threads[u]);
      assert u != a.t;
      assert Holds(d.threads[u]);
    } else {
      assert forall u | 0 <= u < |d.threads| && u != a.t :: d.threads[u] == s.threads[u];
    }
  }

  /** A step takes the lock, gives it back, or leaves it and its holder alone. */
  lemma HolderStep(s: Shared, a: Action)
    requires Enabled(s, a)
    ensures var d := Do(s, a);
            var had, has := Holds(s.threads[a.t]), Holds(d.threads[a.t]);
            if !had && has then !s.wlock && d.wlock
            else if had && !has then !d.wlock
            else d.wlock == s.wlock
  {
    hide KeyBytes;
    hide Readable;
    hide KeepsBytes;
    hide Probe;
  }

  lemma {:induction false} RunOwned(s: Shared, run: seq<Action>)
    requires Inv(s) && Owned(s) && Legal(s, run)
    ensures Owned(Exec(s, run))
    decreases |run|
  {
    hide Do;
    hide Enabled;
    hide Owned;
    hide VersionsOk;
    hide ThreadOk;
    if run != [] {
      StepOwned(s, run[0]);
      StepKeeps(s, run[0]);
      RunOwned(Do(s, run[0]), run[1..]);
    }
  }

  /** Over every interleaving the lock is taken exactly while some thread holds it: it is always given back. */
  lemma LockGivenBack(table: seq<Slot>, mem: Memory, threads: nat, run: seq<Action>)
    requires |table| > 0 && Readable(table, mem) && Legal(Start(table, mem, threads), run)
    ensures Owned(Exec(Start(table, mem, threads), run))
  {
    StartInv(table, mem, threads);
    hide Inv;
    hide Legal;
    hide Exec;
    RunOwned(Start(table, mem, threads), run);
  }
}
