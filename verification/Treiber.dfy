/**
 * The free list of one slab class as a Treiber stack: any number of threads, one
 * atomic step at a time.  The link of a block lives inside the block, so whoever
 * holds the block may overwrite it.
 */
module Treiber {
  import opened Bytes

  /** Where a thread stands inside `slab_alloc` or `slab_free`. */
  datatype Thread =
    | Idle
    | PopLoaded(head: nat)                        // `head` loaded, not null
    | PopRead(head: nat, next: Option<nat>)       // `head->next` read
    | PushHolds(node: nat)
    | PushLoaded(node: nat, seen: Option<nat>)    // `head` loaded
    | PushLinked(node: nat, seen: Option<nat>)    // `node->next` stored

  /** `held` has a pair for every block handed to a thread and not yet pushed back. */
  datatype Stack = Stack(head: Option<nat>, next: map<nat, Option<nat>>, held: set<(nat, nat)>, threads: seq<Thread>)

  datatype Action =
    | LoadHead(t: nat)
    | ReadNext(t: nat)
    | PopCas(t: nat)
    | PopRetry(t: nat)                            // the CAS fails, perhaps spuriously
    | StartPush(t: nat, b: nat)
    | LoadForPush(t: nat)
    | Link(t: nat)
    | PushCas(t: nat)
    | PushRetry(t: nat)
    | Scribble(t: nat, b: nat, junk: Option<nat>) // the holder writes its data over the link
    | HandOver(t: nat, b: nat, u: nat)            // the block changes hands

  predicate Pushing(th: Thread, b: nat) {
    (th.PushHolds? || th.PushLoaded? || th.PushLinked?) && th.node == b
  }

  predicate Enabled(s: Stack, a: Action) {
    && a.t < |s.threads|
    && var th := s.threads[a.t];
       match a
       case LoadHead(_) => th.Idle? && s.head.Some?
       case ReadNext(_) => th.PopLoaded? && th.head in s.next
       case PopCas(_) => th.PopRead? && s.head == Some(th.head)
       case PopRetry(_) => th.PopRead?
       case StartPush(t, b) => th.Idle? && (b, t) in s.held
       case LoadForPush(_) => th.PushHolds?
       case Link(_) => th.PushLoaded?
       case PushCas(_) => th.PushLinked? && s.head == th.seen
       case PushRetry(_) => th.PushLinked?
       case Scribble(t, b, _) => (b, t) in s.held && !Pushing(th, b)
       case HandOver(t, b, u) => (b, t) in s.held && !Pushing(th, b) && u < |s.threads|
  }

  function Do(s: Stack, a: Action): Stack
    requires Enabled(s, a)
  {
    var th := s.threads[a.t];
    match a
    case LoadHead(t) => s.(threads := s.threads[t := PopLoaded(s.head.value)])
    case ReadNext(t) => s.(threads := s.threads[t := PopRead(th.head, s.next[th.head])])
    case PopCas(t) => s.(head := th.next, held := s.held + {(th.head, t)}, threads := s.threads[t := Idle])
    case PopRetry(t) => s.(threads := s.threads[t := Idle])
    case StartPush(t, b) => s.(threads := s.threads[t := PushHolds(b)])
    case LoadForPush(t) => s.(threads := s.threads[t := PushLoaded(th.node, s.head)])
    case Link(t) => s.(next := s.next[th.node := th.seen], threads := s.threads[t := PushLinked(th.node, th.seen)])
    case PushCas(t) => s.(head := Some(th.node), held := s.held - {(th.node, t)}, threads := s.threads[t := Idle])
    case PushRetry(t) => s.(threads := s.threads[t := PushHolds(th.node)])
    case Scribble(_, b, junk) => s.(next := s.next[b := junk])
    case HandOver(t, b, u) => s.(held := s.held - {(b, t)} + {(b, u)})
  }

  // ---- the free list ----

  /** Following `next` from `head` visits exactly `fs` and ends. */
  predicate IsChain(head: Option<nat>, next: map<nat, Option<nat>>, fs: seq<nat>)
    decreases |fs|
  {
    if fs == [] then head == None
    else head == Some(fs[0]) && fs[0] in next && IsChain(next[fs[0]], next, fs[1..])
  }

  predicate Distinct(fs: seq<nat>) {
    forall i, j | 0 <= i < j < |fs| :: fs[i] != fs[j]
  }

  predicate IsHeld(s: Stack, b: nat) {
    exists t | 0 <= t < |s.threads| :: (b, t) in s.held
  }

  /** The list is acyclic, and every block is on it or held, not both, and by one thread only. */
  ghost predicate Sound(s: Stack, fs: seq<nat>) {
    && IsChain(s.head, s.next, fs) && Distinct(fs)
    && (forall b :: b in fs ==> b in s.next)
    && (forall b | b in s.next :: b in fs <==> !IsHeld(s, b))
    && (forall p | p in s.held :: p.0 in s.next && p.1 < |s.threads|)
    && (forall b, t, u | (b, t) in s.held && (b, u) in s.held :: t == u)
  }

  predicate ThreadOk(s: Stack, fs: seq<nat>, t: nat)
    requires t < |s.threads|
  {
    match s.threads[t]
    case Idle => true
    case PopLoaded(h) => h in s.next
    case PopRead(h, n) => h in s.next && (h in fs ==> n == s.next[h])
    case PushHolds(b) => (b, t) in s.held
    case PushLoaded(b, _) => (b, t) in s.held
    case PushLinked(b, h) => (b, t) in s.held && b in s.next && s.next[b] == h
  }

  ghost predicate Inv(s: Stack, fs: seq<nat>) {
    Sound(s, fs) && forall t | 0 <= t < |s.threads| :: ThreadOk(s, fs, t)
  }

  /** A push puts no block back that some popper has already read the link of. */
  predicate NoReuse(s: Stack, a: Action) {
    a.PushCas? && a.t < |s.threads| && s.threads[a.t].PushLinked? ==>
      forall u | 0 <= u < |s.threads| && s.threads[u].PopRead? :: s.threads[u].head != s.threads[a.t].node
  }

  lemma {:induction false} ChainFrame(head: Option<nat>, next: map<nat, Option<nat>>, next': map<nat, Option<nat>>, fs: seq<nat>)
    requires IsChain(head, next, fs)
    requires forall b :: b in fs && b in next ==> b in next' && next'[b] == next[b]
    ensures IsChain(head, next', fs)
    decreases |fs|
  {
    if fs != [] {
      assert forall b :: b in fs[1..] ==> b in fs;
      ChainFrame(next[fs[0]], next, next', fs[1..]);
    }
  }

  lemma Holder(s: Stack, fs: seq<nat>, b: nat, t: nat)
    requires Sound(s, fs) && (b, t) in s.held
    ensures b in s.next && b !in fs && t < |s.threads|
  {
    assert (b, t).0 in s.next && (b, t).1 < |s.threads|;
    assert IsHeld(s, b);
  }

  /** A link inside a held block is not part of the list. */
  lemma RelinkSound(s: Stack, fs: seq<nat>, b: nat, t: nat, link: Option<nat>)
    requires Sound(s, fs) && (b, t) in s.held
    ensures Sound(s.(next := s.next[b := link]), fs)
  {
    Holder(s, fs, b, t);
    var d := s.(next := s.next[b := link]);
    ChainFrame(s.head, s.next, d.next, fs);
    assert forall c: nat :: IsHeld(d, c) <==> IsHeld(s, c);
  }

  lemma PopSound(s: Stack, fs: seq<nat>, h: nat, t: nat)
    requires Sound(s, fs) && s.head == Some(h) && t < |s.threads|
    ensures fs != [] && fs[0] == h && !IsHeld(s, h) && h in s.next
    ensures Sound(s.(head := s.next[h], held := s.held + {(h, t)}), fs[1..])
  {
    var d := s.(head := s.next[h], held := s.held + {(h, t)});
    assert h in fs;
    assert forall b :: b in fs[1..] <==> b in fs && b != h;
    assert IsHeld(d, h);
    assert forall b | b != h :: IsHeld(d, b) <==> IsHeld(s, b);
  }

  lemma PushSound(s: Stack, fs: seq<nat>, b: nat, t: nat)
    requires Sound(s, fs) && (b, t) in s.held && b in s.next && s.next[b] == s.head
    ensures Sound(s.(head := Some(b), held := s.held - {(b, t)}), [b] + fs)
  {
    Holder(s, fs, b, t);
    var d := s.(head := Some(b), held := s.held - {(b, t)});
    assert ([b] + fs)[1..] == fs;
    assert !IsHeld(d, b);
    assert forall c | c != b :: IsHeld(d, c) <==> IsHeld(s, c);
  }

  lemma HandOverSound(s: Stack, fs: seq<nat>, b: nat, t: nat, u: nat)
    requires Sound(s, fs) && (b, t) in s.held && u < |s.threads|
    ensures Sound(s.(held := s.held - {(b, t)} + {(b, u)}), fs)
  {
    Holder(s, fs, b, t);
    var d := s.(held := s.held - {(b, t)} + {(b, u)});
    assert IsHeld(d, b) && IsHeld(s, b);
    assert forall c | c != b :: IsHeld(d, c) <==> IsHeld(s, c);
  }

  lemma LocalSound(s: Stack, fs: seq<nat>, threads: seq<Thread>)
    requires Sound(s, fs) && |threads| == |s.threads|
    ensures Sound(s.(threads := threads), fs)
  {
    assert forall b: nat :: IsHeld(s.(threads := threads), b) <==> IsHeld(s, b);
  }

  /** The free list the stack holds after an action. */
  function After(s: Stack, fs: seq<nat>, a: Action): seq<nat>
    requires Enabled(s, a)
  {
    if a.PopCas? && fs != [] then fs[1..]
    else if a.PushCas? then [s.threads[a.t].node] + fs
    else fs
  }

  /** What every thread keeps, however stale the links it has read. */
  predicate Rooted(s: Stack, t: nat)
    requires t < |s.threads|
  {
    match s.threads[t]
    case Idle => true
    case PopLoaded(h) => h in s.next
    case PopRead(h, _) => h in s.next
    case PushHolds(b) => (b, t) in s.held
    case PushLoaded(b, _) => (b, t) in s.held
    case PushLinked(b, h) => (b, t) in s.held && b in s.next && s.next[b] == h
  }

  /** If the action is a successful pop, the link it read is still the link of the block it takes. */
  predicate LinkCurrent(s: Stack, a: Action) {
    a.PopCas? && a.t < |s.threads| && s.threads[a.t].PopRead? && s.threads[a.t].head in s.next ==>
      s.threads[a.t].next == s.next[s.threads[a.t].head]
  }

  lemma StepSound(s: Stack, fs: seq<nat>, a: Action)
    requires Sound(s, fs) && Enabled(s, a) && Rooted(s, a.t) && LinkCurrent(s, a)
    ensures Sound(Do(s, a), After(s, fs, a))
    ensures a.PopCas? ==> fs != [] && s.threads[a.t].head == fs[0] && !IsHeld(s, fs[0])
  {
    var d := Do(s, a);
    var th := s.threads[a.t];
    hide Sound;
    hide IsChain;
    match a
    case PopCas(t) =>
      PopSound(s, fs, th.head, t);
      LocalSound(s.(head := s.next[th.head], held := s.held + {(th.head, t)}), fs[1..], d.threads);
    case Link(t) =>
      RelinkSound(s, fs, th.node, t, th.seen);
      LocalSound(s.(next := s.next[th.node := th.seen]), fs, d.threads);
    case Scribble(t, b, junk) => RelinkSound(s, fs, b, t, junk);
    case PushCas(t) =>
      PushSound(s, fs, th.node, t);
      LocalSound(s.(head := Some(th.node), held := s.held - {(th.node, t)}), [th.node] + fs, d.threads);
    case HandOver(t, b, u) => HandOverSound(s, fs, b, t, u);
    case _ => LocalSound(s, fs, d.threads);
  }

  lemma StepRooted(s: Stack, fs: seq<nat>, a: Action, u: nat)
    requires Sound(s, fs) && Enabled(s, a) && u < |s.threads| && Rooted(s, u) && Rooted(s, a.t)
    ensures Rooted(Do(s, a), u)
  {
    var th := s.threads[a.t];
    match a
    case LoadHead(t) => assert s.head.value in fs;
    case Link(t) => Holder(s, fs, th.node, t);
    case Scribble(t, b, junk) => Holder(s, fs, b, t);
    case _ =>
  }

  lemma InvLink(s: Stack, fs: seq<nat>, a: Action)
    requires Inv(s, fs) && Enabled(s, a)
    ensures Rooted(s, a.t) && LinkCurrent(s, a)
  {
    assert ThreadOk(s, fs, a.t);
  }

  lemma StepThreads(s: Stack, fs: seq<nat>, a: Action, u: nat)
    requires Inv(s, fs) && Enabled(s, a) && NoReuse(s, a) && u < |s.threads|
    ensures ThreadOk(Do(s, a), After(s, fs, a), u)
  {
    var d := Do(s, a);
    var th := s.threads[a.t];
    assert ThreadOk(s, fs, u) && ThreadOk(s, fs, a.t);
    match a
    case LoadHead(t) => assert s.head.value in fs;
    case Link(t) => Holder(s, fs, th.node, t);
    case Scribble(t, b, junk) =>
      Holder(s, fs, b, t);
    case PopCas(t) =>
      assert forall b :: b in fs[1..] ==> b in fs;
    case PushCas(t) =>
      if u != t && s.threads[u].PopRead? {
        assert s.threads[u].head != th.node;
        assert s.threads[u].head in [th.node] + fs ==> s.threads[u].head in fs;
      }
    case _ =>
  }

  /** Every step keeps the stack sound, even when a popper reads a link that is already overwritten. */
  lemma StepKeeps(s: Stack, fs: seq<nat>, a: Action)
    requires Inv(s, fs) && Enabled(s, a) && NoReuse(s, a)
    ensures Inv(Do(s, a), After(s, fs, a))
    ensures a.PopCas? ==> fs != [] && s.threads[a.t].head == fs[0] && !IsHeld(s, fs[0])
  {
    InvLink(s, fs, a);
    StepSound(s, fs, a);
    forall u | 0 <= u < |s.threads| ensures ThreadOk(Do(s, a), After(s, fs, a), u) {
      StepThreads(s, fs, a, u);
    }
  }

  // ---- runs ----

  predicate Legal(s: Stack, run: seq<Action>)
    decreases |run|
  {
    run == [] || (Enabled(s, run[0]) && Legal(Do(s, run[0]), run[1..]))
  }

  function Exec(s: Stack, run: seq<Action>): Stack
    requires Legal(s, run)
    decreases |run|
  {
    if run == [] then s else Exec(Do(s, run[0]), run[1..])
  }

  /** No popper's link goes stale by its block being pushed back before its CAS. */
  predicate NeverReuses(s: Stack, run: seq<Action>)
    requires Legal(s, run)
    decreases |run|
  {
    run == [] || (NoReuse(s, run[0]) && NeverReuses(Do(s, run[0]), run[1..]))
  }

  function AfterRun(s: Stack, fs: seq<nat>, run: seq<Action>): seq<nat>
    requires Legal(s, run)
    decreases |run|
  {
    if run == [] then fs else AfterRun(Do(s, run[0]), After(s, fs, run[0]), run[1..])
  }

  /** The blocks popped and pushed by a run, against a sequential stack. */
  predicate RefinesStack(s: Stack, run: seq<Action>, fs: seq<nat>)
    requires Legal(s, run)
    decreases |run|
  {
    run == [] ||
    (&& (run[0].PopCas? ==> fs != [] && s.threads[run[0].t].head == fs[0] && !IsHeld(s, fs[0]))
     && RefinesStack(Do(s, run[0]), run[1..], After(s, fs, run[0])))
  }

  /**
   * Safety over every interleaving without such reuse: the list stays acyclic, each
   * block has one owner or is free, and every pop takes the top of a sequential
   * stack, a block nobody holds.
   */
  lemma {:induction false} RunSafe(s: Stack, fs: seq<nat>, run: seq<Action>)
    requires Inv(s, fs) && Legal(s, run) && NeverReuses(s, run)
    ensures Inv(Exec(s, run), AfterRun(s, fs, run))
    ensures RefinesStack(s, run, fs)
    decreases |run|
  {
    if run != [] {
      StepKeeps(s, fs, run[0]);
      hide Inv;
      hide Do;
      hide Enabled;
      RunSafe(Do(s, run[0]), After(s, fs, run[0]), run[1..]);
    }
  }

  function Following(b: nat, blocks: nat): Option<nat> {
    if b + 1 < blocks then Some(b + 1) else None
  }

  /** `slab_init`: the blocks of the arena linked front to back, no thread inside. */
  function Fresh(blocks: nat, threads: nat): Stack {
    Stack(if blocks == 0 then None else Some(0),
          map b: nat | b < blocks :: Following(b, blocks),
          {},
          seq(threads, t => Idle))
  }

  function Range(lo: nat, hi: nat): (fs: seq<nat>)
    requires lo <= hi
    ensures |fs| == hi - lo && forall i | 0 <= i < |fs| :: fs[i] == lo + i
    decreases hi - lo
  {
    if lo == hi then [] else [lo] + Range(lo + 1, hi)
  }

  lemma {:induction false} FreshChain(blocks: nat, lo: nat)
    requires lo <= blocks
    ensures IsChain(if lo == blocks then None else Some(lo), Fresh(blocks, 0).next, Range(lo, blocks))
    decreases blocks - lo
  {
    if lo < blocks {
      FreshChain(blocks, lo + 1);
      assert Range(lo, blocks)[1..] == Range(lo + 1, blocks);
    }
  }

  lemma FreshInv(blocks: nat, threads: nat)
    ensures Inv(Fresh(blocks, threads), Range(0, blocks))
  {
    FreshChain(blocks, 0);
    var s := Fresh(blocks, threads);
    var fs := Range(0, blocks);
    assert forall b: nat :: !IsHeld(s, b);
    assert forall b | b in s.next :: fs[b] == b;
  }

  /** From `slab_init` on, every run without reuse is safe. */
  lemma AllRunsSafe(blocks: nat, threads: nat, run: seq<Action>)
    requires Legal(Fresh(blocks, threads), run) && NeverReuses(Fresh(blocks, threads), run)
    ensures var s := Fresh(blocks, threads);
            var fs := AfterRun(s, Range(0, blocks), run);
            Inv(Exec(s, run), fs) && RefinesStack(s, run, Range(0, blocks))
  {
    FreshInv(blocks, threads);
    RunSafe(Fresh(blocks, threads), Range(0, blocks), run);
  }

  // ---- what goes wrong with reuse ----

  lemma {:induction false} ChainUnique(head: Option<nat>, next: map<nat, Option<nat>>, fs: seq<nat>, gs: seq<nat>)
    requires IsChain(head, next, fs) && IsChain(head, next, gs)
    ensures fs == gs
    decreases |fs|
  {
    if fs != [] { ChainUnique(next[fs[0]], next, fs[1..], gs[1..]); }
  }

  lemma {:induction false} ChainSuffix(head: Option<nat>, next: map<nat, Option<nat>>, fs: seq<nat>, k: nat)
    requires IsChain(head, next, fs) && k < |fs|
    ensures IsChain(Some(fs[k]), next, fs[k..])
    decreases |fs|
  {
    if k > 0 {
      ChainSuffix(next[fs[0]], next, fs[1..], k - 1);
      assert fs[1..][k - 1..] == fs[k..];
    }
  }

  /**
   * A successful pop keeps the stack sound exactly when the link it read is still
   * the link of the block it takes.
   */
  lemma PopSoundIff(s: Stack, fs: seq<nat>, t: nat)
    requires Sound(s, fs) && Enabled(s, PopCas(t))
    ensures (exists gs :: Sound(Do(s, PopCas(t)), gs)) <==> s.threads[t].next == s.next[s.threads[t].head]
  {
    var a := PopCas(t);
    var h := s.threads[t].head;
    PopSound(s, fs, h, t);
    if s.threads[t].next == s.next[h] {
      LocalSound(s.(head := s.next[h], held := s.held + {(h, t)}), fs[1..], Do(s, a).threads);
      assert Sound(Do(s, a), fs[1..]);
    }
    if gs :| Sound(Do(s, a), gs) {
      SoundPopReadsLink(s, fs, t, gs);
    }
  }

  lemma SoundPopReadsLink(s: Stack, fs: seq<nat>, t: nat, gs: seq<nat>)
    requires Sound(s, fs) && Enabled(s, PopCas(t)) && Sound(Do(s, PopCas(t)), gs)
    ensures s.threads[t].next == s.next[s.threads[t].head]
  {
    var h := s.threads[t].head;
    var d := Do(s, PopCas(t));
    PopSound(s, fs, h, t);
    SameFree(s, fs, t, gs);
    if gs == [] {
      assert fs[|fs| - 1] in fs;
    } else {
      assert gs[0] in gs;
      var k :| 0 <= k < |fs| && fs[k] == gs[0];
      ChainSuffix(s.head, s.next, fs, k);
      ChainUnique(Some(gs[0]), s.next, fs[k..], gs);
      assert fs[1] in gs;
      assert forall j | 0 <= j < |gs| :: gs[j] == fs[k + j];
    }
  }

  lemma SameFree(s: Stack, fs: seq<nat>, t: nat, gs: seq<nat>)
    requires Sound(s, fs) && Enabled(s, PopCas(t)) && Sound(Do(s, PopCas(t)), gs)
    ensures forall b :: b in gs <==> b in fs && b != s.threads[t].head
  {
    var h := s.threads[t].head;
    var d := Do(s, PopCas(t));
    assert (h, t) in d.held;
    assert IsHeld(d, h);
    assert forall b | b != h :: IsHeld(d, b) <==> IsHeld(s, b);
  }

  predicate AllRooted(s: Stack) { forall t | 0 <= t < |s.threads| :: Rooted(s, t) }

  /** Every successful pop of the run reads a link that is current at its CAS. */
  predicate LinksCurrent(s: Stack, run: seq<Action>)
    requires Legal(s, run)
    decreases |run|
  {
    run == [] || (LinkCurrent(s, run[0]) && LinksCurrent(Do(s, run[0]), run[1..]))
  }

  ghost predicate SoundNow(s: Stack) { exists gs :: Sound(s, gs) }

  ghost predicate SoundThroughout(s: Stack, run: seq<Action>)
    requires Legal(s, run)
    decreases |run|
  {
    SoundNow(s) && (run == [] || SoundThroughout(Do(s, run[0]), run[1..]))
  }

  lemma RootedStep(s: Stack, fs: seq<nat>, a: Action)
    requires Sound(s, fs) && AllRooted(s) && Enabled(s, a)
    ensures AllRooted(Do(s, a))
    ensures LinkCurrent(s, a) ==> Sound(Do(s, a), After(s, fs, a))
    ensures LinkCurrent(s, a) && a.PopCas? ==> fs != [] && s.threads[a.t].head == fs[0] && !IsHeld(s, fs[0])
    ensures SoundNow(Do(s, a)) ==> LinkCurrent(s, a)
  {
    forall u | 0 <= u < |s.threads| ensures Rooted(Do(s, a), u) { StepRooted(s, fs, a, u); }
    if LinkCurrent(s, a) { StepSound(s, fs, a); }
    if a.PopCas? { PopSoundIff(s, fs, a.t); }
  }

  lemma {:induction false} RunSoundIff(s: Stack, fs: seq<nat>, run: seq<Action>)
    requires Sound(s, fs) && AllRooted(s) && Legal(s, run)
    ensures SoundThroughout(s, run) <==> LinksCurrent(s, run)
    ensures LinksCurrent(s, run) ==> Sound(Exec(s, run), AfterRun(s, fs, run)) && RefinesStack(s, run, fs)
    decreases |run|
  {
    assert SoundNow(s);
    hide Sound;
    hide Do;
    hide Enabled;
    hide LinkCurrent;
    hide AllRooted;
    hide SoundNow;
    if run != [] {
      RootedStep(s, fs, run[0]);
      var d := Do(s, run[0]);
      if LinkCurrent(s, run[0]) {
        RunSoundIff(d, After(s, fs, run[0]), run[1..]);
      } else {
        assert !SoundNow(d);
      }
    }
  }

  /**
   * From `slab_init` on, over every interleaving: the free list is sound after every
   * step iff every successful pop's link is current at its CAS; and then pops and pushes
   * are those of a sequential stack.
   */
  lemma AllRunsSoundIff(blocks: nat, threads: nat, run: seq<Action>)
    requires Legal(Fresh(blocks, threads), run)
    ensures var s := Fresh(blocks, threads);
            && (SoundThroughout(s, run) <==> LinksCurrent(s, run))
            && (LinksCurrent(s, run) ==> RefinesStack(s, run, Range(0, blocks)))
  {
    FreshInv(blocks, threads);
    var s := Fresh(blocks, threads);
    assert AllRooted(s);
    hide Fresh;
    RunSoundIff(s, Range(0, blocks), run);
  }

  lemma Prepend(s: Stack, a: Action, run: seq<Action>)
    requires Enabled(s, a) && Legal(Do(s, a), run)
    ensures Legal(s, [a] + run) && Exec(s, [a] + run) == Exec(Do(s, a), run)
  {
    assert ([a] + run)[1..] == run;
  }

  predicate CanPop(s: Stack, t: nat) {
    t < |s.threads| && s.threads[t].Idle? && s.head.Some? && s.head.value in s.next
  }

  /** The effect of a pop that runs without interruption. */
  function Popped(s: Stack, t: nat): Stack
    requires CanPop(s, t)
  {
    s.(head := s.next[s.head.value], held := s.held + {(s.head.value, t)})
  }

  lemma PrependPop(s: Stack, t: nat, run: seq<Action>) returns (r: seq<Action>)
    requires CanPop(s, t) && Legal(Popped(s, t), run)
    ensures Legal(s, r) && Exec(s, r) == Exec(Popped(s, t), run)
  {
    var s1 := Do(s, LoadHead(t));
    var s2 := Do(s1, ReadNext(t));
    assert Do(s2, PopCas(t)) == Popped(s, t) by { assert s2.threads[t := Idle] == s.threads; }
    Prepend(s2, PopCas(t), run);
    Prepend(s1, ReadNext(t), [PopCas(t)] + run);
    Prepend(s, LoadHead(t), [ReadNext(t)] + ([PopCas(t)] + run));
    r := [LoadHead(t)] + ([ReadNext(t)] + ([PopCas(t)] + run));
  }

  predicate CanPush(s: Stack, t: nat, b: nat) {
    t < |s.threads| && s.threads[t].Idle? && (b, t) in s.held
  }

  function Pushed(s: Stack, t: nat, b: nat): Stack
    requires CanPush(s, t, b)
  {
    s.(head := Some(b), next := s.next[b := s.head], held := s.held - {(b, t)})
  }

  lemma PrependPush(s: Stack, t: nat, b: nat, run: seq<Action>) returns (r: seq<Action>)
    requires CanPush(s, t, b) && Legal(Pushed(s, t, b), run)
    ensures Legal(s, r) && Exec(s, r) == Exec(Pushed(s, t, b), run)
  {
    var s1 := Do(s, StartPush(t, b));
    var s2 := Do(s1, LoadForPush(t));
    var s3 := Do(s2, Link(t));
    assert Do(s3, PushCas(t)) == Pushed(s, t, b) by { assert s3.threads[t := Idle] == s.threads; }
    Prepend(s3, PushCas(t), run);
    Prepend(s2, Link(t), [PushCas(t)] + run);
    Prepend(s1, LoadForPush(t), [Link(t)] + ([PushCas(t)] + run));
    Prepend(s, StartPush(t, b), [LoadForPush(t)] + ([Link(t)] + ([PushCas(t)] + run)));
    r := [StartPush(t, b)] + ([LoadForPush(t)] + ([Link(t)] + ([PushCas(t)] + run)));
  }

  /**
   * Without the premise: thread 0 reads the link of block 0 and stalls; thread 1
   * takes blocks 0 and 1 and pushes block 0 back; thread 0's CAS then succeeds and
   * puts block 1, still in use, at the head, and the next pop hands it out again.
   */
  lemma ReuseGivesTwoOwners() returns (run: seq<Action>)
    ensures Legal(Fresh(2, 2), run)
    ensures (1, 0) in Exec(Fresh(2, 2), run).held && (1, 1) in Exec(Fresh(2, 2), run).held
  {
    var s0 := Stack(Some(0), map[0 := Some(1), 1 := None], {}, [Idle, Idle]);
    assert Fresh(2, 2) == s0;
    var s1 := s0.(threads := [PopRead(0, Some(1)), Idle]);
    var s2 := s1.(head := Some(1), held := {(0, 1)});
    var s3 := s1.(head := None, held := {(0, 1), (1, 1)});
    var s4 := s1.(head := Some(0), next := map[0 := None, 1 := None], held := {(1, 1)});
    var s5 := s4.(head := Some(1), held := {(0, 0), (1, 1)}, threads := [Idle, Idle]);
    assert Do(s4, PopCas(0)) == s5;
    run := PrependPop(s5, 0, []);
    Prepend(s4, PopCas(0), run);
    run := [PopCas(0)] + run;
    run := PrependRest(s1, s2, s3, s4, run);
    assert Do(Do(s0, LoadHead(0)), ReadNext(0)) == s1;
    Prepend(Do(s0, LoadHead(0)), ReadNext(0), run);
    Prepend(s0, LoadHead(0), [ReadNext(0)] + run);
    run := [LoadHead(0)] + ([ReadNext(0)] + run);
  }

  lemma PrependRest(s1: Stack, s2: Stack, s3: Stack, s4: Stack, run: seq<Action>) returns (r: seq<Action>)
    requires CanPop(s1, 1) && Popped(s1, 1) == s2
    requires CanPop(s2, 1) && Popped(s2, 1) == s3
    requires CanPush(s3, 1, 0) && Pushed(s3, 1, 0) == s4 && Legal(s4, run)
    ensures Legal(s1, r) && Exec(s1, r) == Exec(s4, run)
  {
    r := PrependPush(s3, 1, 0, run);
    r := PrependPop(s2, 1, r);
    r := PrependPop(s1, 1, r);
  }
}
