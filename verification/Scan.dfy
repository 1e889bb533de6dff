/** The SCAN cursor walk over an unchanging cache. */
module Scan {
  import opened Bytes
  import opened Table
  import opened Cache

  const TWO_20: nat := 0x10_0000

  /** A table position: shard and slot. */
  type Pos = (nat, nat)

  predicate Tables(ts: seq<seq<Slot>>, cap: nat) {
    |ts| == SHARDS && 0 < cap <= TWO_20 && forall i | 0 <= i < SHARDS :: |ts[i]| == cap
  }

  function ShardOf(cursor: int): (s: nat)
    ensures s < SHARDS
  {
    (cursor / TWO_20) % 64
  }

  function SlotOf(cursor: int): (s: nat)
    ensures s < TWO_20
  {
    cursor % TWO_20
  }

  function Cursor(a: nat, b: nat): nat { a * TWO_20 + b }

  /** The LIVE positions from slot `b` of shard `a` on, in order. */
  function LiveFrom(ts: seq<seq<Slot>>, cap: nat, a: nat, b: nat): seq<Pos>
    requires Tables(ts, cap)
    decreases SHARDS - a, cap - b
  {
    if a >= SHARDS then []
    else if b >= cap then LiveFrom(ts, cap, a + 1, 0)
    else if ts[a][b].state.Live? then [(a, b)] + LiveFrom(ts, cap, a, b + 1)
    else LiveFrom(ts, cap, a, b + 1)
  }

  datatype Page = Page(keys: seq<Pos>, next: nat)

  /** The page after the first `count` LIVE positions of `live`. */
  function PageOf(live: seq<Pos>, count: nat, cap: nat): Page {
    if count == 0 then Page([], 0)
    else if |live| < count then Page(live, 0)
    else
      var (a, b) := live[count - 1];
      Page(live[..count], if b + 1 < cap then Cursor(a, b + 1) else 0)
  }

  lemma Shift(keys: seq<Pos>, p: Pos, rest: seq<Pos>)
    ensures keys + ([p] + rest) == keys + [p] + rest
  {
  }

  /** The inner loop: LIVE slots of one shard, until the shard or the page is full. */
  method ScanShard(ts: seq<seq<Slot>>, cap: nat, shard: nat, from: nat, count: nat, keys0: seq<Pos>)
    returns (slot: nat, keys: seq<Pos>)
    requires Tables(ts, cap) && shard < SHARDS && |keys0| < count
    ensures |keys| <= count && keys + LiveFrom(ts, cap, shard, slot) == keys0 + LiveFrom(ts, cap, shard, from)
    ensures |keys| == count ==> 0 < slot <= cap && keys[count - 1] == (shard, slot - 1)
    ensures |keys| < count ==> slot >= cap
  {
    slot, keys := from, keys0;
    while slot < cap && |keys| < count
      invariant |keys| <= count && keys + LiveFrom(ts, cap, shard, slot) == keys0 + LiveFrom(ts, cap, shard, from)
      invariant |keys| == count ==> 0 < slot <= cap && keys[count - 1] == (shard, slot - 1)
    {
      ghost var rest := LiveFrom(ts, cap, shard, slot + 1);
      if ts[shard][slot].state.Live? {
        Shift(keys, (shard, slot), rest);
        keys := keys + [(shard, slot)];
      }
      slot := slot + 1;
    }
  }

  /** `keys` followed by what is left is the whole list, and a full page ends its shard. */
  ghost predicate Scanned(ts: seq<seq<Slot>>, cap: nat, live: seq<Pos>, keys: seq<Pos>, shard: nat, slot: nat, count: nat)
    requires Tables(ts, cap)
  {
    && |keys| <= count && keys + LiveFrom(ts, cap, shard, slot) == live
    && (|keys| == count > 0 ==> keys[count - 1].1 + 1 == cap)
  }

  lemma ScannedAll(ts: seq<seq<Slot>>, cap: nat, live: seq<Pos>, keys: seq<Pos>, shard: nat, slot: nat, count: nat)
    requires Tables(ts, cap) && Scanned(ts, cap, live, keys, shard, slot, count)
    requires count == 0 || shard >= SHARDS || |keys| == count
    ensures PageOf(live, count, cap) == Page(keys, 0)
  {
    if count > 0 {
      if |keys| == count {
        FullPage(live, keys, LiveFrom(ts, cap, shard, slot), count, cap);
      } else {
        ShardDone(ts, cap, shard, slot);
        ShortPage(keys, count, cap);
      }
    }
  }

  /** `cmd_scan`: one page. */
  method ScanPage(ts: seq<seq<Slot>>, cap: nat, cursor: int, count: nat) returns (p: Page)
    requires Tables(ts, cap)
    ensures p == PageOf(LiveFrom(ts, cap, ShardOf(cursor), SlotOf(cursor)), count, cap)
  {
    hide LiveFrom;
    hide ShardOf;
    hide SlotOf;
    hide Cursor;
    hide PageOf;
    var shard: nat, slot: nat := ShardOf(cursor), SlotOf(cursor);
    ghost var live := LiveFrom(ts, cap, shard, slot);
    var keys: seq<Pos> := [];
    assert keys + live == live;
    while shard < SHARDS && |keys| < count
      invariant 0 <= shard <= SHARDS && Scanned(ts, cap, live, keys, shard, slot, count)
    {
      slot, keys := ScanShard(ts, cap, shard, slot, count, keys);
      if slot < cap {
        FullPage(live, keys, LiveFrom(ts, cap, shard, slot), count, cap);
        return Page(keys, Cursor(shard, slot));
      }
      ShardDone(ts, cap, shard, slot);
      slot := 0;
      shard := shard + 1;
    }
    ScannedAll(ts, cap, live, keys, shard, slot, count);
    return Page(keys, 0);
  }

  /**
   * A page: the first `count` LIVE positions from the shard in bits 20 to 25 of the cursor
   * and the slot in its low 20 bits, and the cursor behind the last of them, 0 if the page
   * is not full or ends on the last slot of a shard.
   */
  lemma PageIs(ts: seq<seq<Slot>>, cap: nat, cursor: int, count: nat)
    requires Tables(ts, cap)
    ensures var p := PageOf(LiveFrom(ts, cap, ShardOf(cursor), SlotOf(cursor)), count, cap);
            var live := LiveFrom(ts, cap, (cursor / 0x10_0000) % 64, cursor % 0x10_0000);
            && p.keys == (if |live| < count then live else live[..count])
            && p.next == if 0 < count <= |live| && live[count - 1].1 + 1 < cap
                         then live[count - 1].0 * 0x10_0000 + live[count - 1].1 + 1 else 0
  {
    hide LiveFrom;
  }

  lemma ShardDone(ts: seq<seq<Slot>>, cap: nat, shard: nat, slot: nat)
    requires Tables(ts, cap)
    ensures shard < SHARDS && slot >= cap ==> LiveFrom(ts, cap, shard, slot) == LiveFrom(ts, cap, shard + 1, 0)
    ensures shard >= SHARDS ==> LiveFrom(ts, cap, shard, slot) == []
  {
  }

  lemma FullPage(live: seq<Pos>, keys: seq<Pos>, rest: seq<Pos>, count: nat, cap: nat)
    requires keys + rest == live && |keys| == count > 0
    ensures var (a, b) := keys[count - 1];
            PageOf(live, count, cap) == Page(keys, if b + 1 < cap then Cursor(a, b + 1) else 0)
  {
    assert live[count - 1] == keys[count - 1] && live[..count] == keys;
  }

  lemma ShortPage(keys: seq<Pos>, count: nat, cap: nat)
    requires |keys| < count
    ensures keys + [] == keys && PageOf(keys, count, cap) == Page(keys, 0)
  {
  }

  // ---- what the positions are ----

  predicate Before(p: Pos, q: Pos) { p.0 < q.0 || (p.0 == q.0 && p.1 < q.1) }

  predicate InTable(cap: nat, p: Pos) { p.0 < SHARDS && p.1 < cap }

  predicate LiveAt(ts: seq<seq<Slot>>, cap: nat, p: Pos)
    requires Tables(ts, cap)
  {
    InTable(cap, p) && ts[p.0][p.1].state.Live?
  }

  predicate Ascending(ps: seq<Pos>) {
    forall i, j | 0 <= i < j < |ps| :: Before(ps[i], ps[j])
  }

  /** `ps` is exactly the LIVE positions from `at` on, each once, in increasing order. */
  ghost predicate Exactly(ts: seq<seq<Slot>>, cap: nat, at: Pos, ps: seq<Pos>)
    requires Tables(ts, cap)
  {
    Ascending(ps) && forall p: Pos :: p in ps <==> LiveAt(ts, cap, p) && !Before(p, at)
  }

  lemma ExactlyCons(ts: seq<seq<Slot>>, cap: nat, a: nat, b: nat, rest: seq<Pos>)
    requires Tables(ts, cap) && a < SHARDS && b < cap && Exactly(ts, cap, (a, b + 1), rest)
    ensures Exactly(ts, cap, (a, b), if ts[a][b].state.Live? then [(a, b)] + rest else rest)
  {
    assert forall p: Pos :: Before(p, (a, b + 1)) <==> Before(p, (a, b)) || p == (a, b);
    assert forall i | 0 <= i < |rest| :: rest[i] in rest;
  }

  lemma {:induction false} LiveFromExact(ts: seq<seq<Slot>>, cap: nat, a: nat, b: nat)
    requires Tables(ts, cap)
    ensures Exactly(ts, cap, (a, b), LiveFrom(ts, cap, a, b))
    decreases SHARDS - a, cap - b
  {
    if a < SHARDS {
      if b >= cap {
        LiveFromExact(ts, cap, a + 1, 0);
        assert forall p: Pos | InTable(cap, p) :: Before(p, (a, b)) <==> Before(p, (a + 1, 0));
      } else {
        LiveFromExact(ts, cap, a, b + 1);
        hide Exactly;
        ExactlyCons(ts, cap, a, b, LiveFrom(ts, cap, a, b + 1));
      }
    }
  }

  /** Past the position of the k-th LIVE slot, the rest of the list is what is left. */
  lemma {:induction false} LiveFromSuffix(ts: seq<seq<Slot>>, cap: nat, a: nat, b: nat, k: nat)
    requires Tables(ts, cap) && k < |LiveFrom(ts, cap, a, b)|
    ensures var p := LiveFrom(ts, cap, a, b)[k];
            InTable(cap, p) && LiveFrom(ts, cap, p.0, p.1 + 1) == LiveFrom(ts, cap, a, b)[k + 1..]
    decreases SHARDS - a, cap - b
  {
    if a < SHARDS {
      if b >= cap {
        LiveFromSuffix(ts, cap, a + 1, 0, k);
      } else if !ts[a][b].state.Live? {
        LiveFromSuffix(ts, cap, a, b + 1, k);
      } else {
        var rest := LiveFrom(ts, cap, a, b + 1);
        ConsSuffix((a, b), rest, k);
        if k > 0 { LiveFromSuffix(ts, cap, a, b + 1, k - 1); }
      }
    }
  }

  lemma ConsSuffix(p: Pos, rest: seq<Pos>, k: nat)
    requires k <= |rest|
    ensures ([p] + rest)[k + 1..] == rest[k..]
    ensures ([p] + rest)[k] == if k == 0 then p else rest[k - 1]
    ensures k == 0 ==> rest[k..] == rest
  {
  }

  // ---- following the cursor ----

  lemma CursorRoundTrip(a: nat, b: nat)
    requires a < SHARDS && b < TWO_20
    ensures ShardOf(Cursor(a, b)) == a && SlotOf(Cursor(a, b)) == b
  {
  }

  function PageAt(ts: seq<seq<Slot>>, cap: nat, cursor: int, count: nat): Page
    requires Tables(ts, cap)
  {
    PageOf(LiveFrom(ts, cap, ShardOf(cursor), SlotOf(cursor)), count, cap)
  }

  /** Nonzero cursors strictly increase and stay below 2^26, so iteration ends. */
  lemma CursorsIncrease(ts: seq<seq<Slot>>, cap: nat, cursor: nat, count: nat)
    requires Tables(ts, cap) && cursor < SHARDS * TWO_20 && PageAt(ts, cap, cursor, count).next != 0
    ensures cursor < PageAt(ts, cap, cursor, count).next < SHARDS * TWO_20
  {
    hide LiveFrom;
    var a, b := ShardOf(cursor), SlotOf(cursor);
    var live := LiveFrom(ts, cap, a, b);
    LiveFromExact(ts, cap, a, b);
    assert live[count - 1] in live;
    assert cursor == Cursor(a, b);
  }

  /** Every position a client sees that keeps asking until the cursor is 0. */
  function Iterate(ts: seq<seq<Slot>>, cap: nat, cursor: nat, count: nat): seq<Pos>
    requires Tables(ts, cap) && cursor < SHARDS * TWO_20
    decreases SHARDS * TWO_20 - cursor
  {
    var p := PageAt(ts, cap, cursor, count);
    if p.next == 0 then p.keys
    else
      CursorsIncrease(ts, cap, cursor, count);
      p.keys + Iterate(ts, cap, p.next, count)
  }

  /** The same walk over the list of LIVE positions alone. */
  function Taken(live: seq<Pos>, count: nat, cap: nat): seq<Pos>
    decreases |live|
  {
    if count == 0 then []
    else if |live| < count then live
    else if live[count - 1].1 + 1 < cap then live[..count] + Taken(live[count..], count, cap)
    else live[..count]
  }

  lemma {:induction false} IterateIsTaken(ts: seq<seq<Slot>>, cap: nat, cursor: nat, count: nat)
    requires Tables(ts, cap) && cursor < SHARDS * TWO_20
    ensures Iterate(ts, cap, cursor, count) == Taken(LiveFrom(ts, cap, ShardOf(cursor), SlotOf(cursor)), count, cap)
    decreases SHARDS * TWO_20 - cursor
  {
    hide LiveFrom;
    hide ShardOf;
    hide SlotOf;
    var live := LiveFrom(ts, cap, ShardOf(cursor), SlotOf(cursor));
    var p := PageAt(ts, cap, cursor, count);
    if p.next != 0 {
      CursorsIncrease(ts, cap, cursor, count);
      LiveFromSuffix(ts, cap, ShardOf(cursor), SlotOf(cursor), count - 1);
      var q := live[count - 1];
      CursorRoundTrip(q.0, q.1 + 1);
      IterateIsTaken(ts, cap, p.next, count);
    }
  }

  /** The `j`-th position returned, counting from 0, is the last of a full page. */
  predicate EndsPage(j: nat, count: nat)
    requires count > 0
  {
    (j + 1) % count == 0
  }

  /** A full page ends exactly on the last slot of a shard while LIVE positions remain. */
  predicate CutShort(live: seq<Pos>, count: nat, cap: nat)
    requires count > 0
  {
    exists j | 0 <= j < |live| - 1 :: EndsPage(j, count) && live[j].1 + 1 >= cap
  }

  lemma NotYet(j: nat, count: nat)
    requires j + 1 < count
    ensures !EndsPage(j, count)
  {
  }

  lemma PageShift(j: nat, count: nat)
    requires count > 0
    ensures EndsPage(j + count, count) <==> EndsPage(j, count)
    ensures EndsPage(count - 1, count)
  {
    var n := j + 1;
    assert n + count == (n / count + 1) * count + n % count;
    DivModIs(n + count, n / count + 1, n % count, count);
    DivModIs(count, 1, 0, count);
  }

  lemma CutShift(live: seq<Pos>, count: nat, cap: nat)
    requires 0 < count <= |live| && live[count - 1].1 + 1 < cap
    ensures CutShort(live, count, cap) <==> CutShort(live[count..], count, cap)
  {
    var rest := live[count..];
    if CutShort(live, count, cap) {
      var j :| 0 <= j < |live| - 1 && EndsPage(j, count) && live[j].1 + 1 >= cap;
      if j + 1 < count {
        NotYet(j, count);
      } else {
        PageShift(j - count, count);
        assert rest[j - count] == live[j];
      }
    }
    if CutShort(rest, count, cap) {
      var j :| 0 <= j < |rest| - 1 && EndsPage(j, count) && rest[j].1 + 1 >= cap;
      PageShift(j, count);
      assert live[j + count] == rest[j];
    }
  }

  /** The walk yields a prefix, and all of it iff no page is cut short. */
  lemma {:induction false} TakenIff(live: seq<Pos>, count: nat, cap: nat)
    requires count > 0
    ensures Taken(live, count, cap) <= live
    ensures Taken(live, count, cap) == live <==> !CutShort(live, count, cap)
    decreases |live|
  {
    if |live| < count {
      forall j | 0 <= j < |live| - 1 ensures !EndsPage(j, count) { NotYet(j, count); }
    } else if live[count - 1].1 + 1 < cap {
      TakenIff(live[count..], count, cap);
      CutShift(live, count, cap);
      assert live == live[..count] + live[count..];
      assert Taken(live, count, cap)[count..] == Taken(live[count..], count, cap);
    } else if |live| > count {
      PageShift(0, count);
      assert EndsPage(count - 1, count) && live[count - 1].1 + 1 >= cap;
    } else {
      forall j | 0 <= j < |live| - 1 ensures !EndsPage(j, count) { NotYet(j, count); }
    }
  }

  lemma PrefixOf(ts: seq<seq<Slot>>, cap: nat, live: seq<Pos>, seen: seq<Pos>)
    requires Tables(ts, cap) && seen <= live && Ascending(live) && forall p: Pos :: p in live <==> LiveAt(ts, cap, p)
    ensures Ascending(seen) && forall p | p in seen :: LiveAt(ts, cap, p)
    ensures (forall p: Pos | LiveAt(ts, cap, p) :: p in seen) <==> seen == live
  {
    assert forall i | 0 <= i < |seen| :: seen[i] == live[i];
    forall p | p in seen ensures p in live {
      var i :| 0 <= i < |seen| && seen[i] == p;
      assert live[i] == p;
    }
    if |seen| < |live| {
      var p := live[|seen|];
      assert p in live && p !in seen;
    }
  }

  /**
   * SCAN over an unchanging cache with COUNT at least 1: the positions returned are
   * LIVE, in increasing order and hence never repeated; every LIVE slot is among them
   * iff no page fills exactly at the last slot of a shard with LIVE slots behind it.
   */
  lemma ScanVisits(ts: seq<seq<Slot>>, cap: nat, count: nat)
    requires Tables(ts, cap) && count > 0
    ensures var seen := Iterate(ts, cap, 0, count);
            && Ascending(seen) && (forall p | p in seen :: LiveAt(ts, cap, p))
            && ((forall p: Pos | LiveAt(ts, cap, p) :: p in seen) <==> !CutShort(LiveFrom(ts, cap, 0, 0), count, cap))
  {
    hide LiveFrom;
    hide Iterate;
    hide Taken;
    hide CutShort;
    var live := LiveFrom(ts, cap, 0, 0);
    var seen := Iterate(ts, cap, 0, count);
    IterateIsTaken(ts, cap, 0, count);
    TakenIff(live, count, cap);
    LiveFromExact(ts, cap, 0, 0);
    PrefixOf(ts, cap, live, seen);
  }

  /** With a LIVE entry in each one-slot shard, COUNT 1 stops after the first of 64 keys. */
  lemma ScanStopsEarly(ts: seq<seq<Slot>>)
    requires Tables(ts, 1) && forall i | 0 <= i < SHARDS :: ts[i][0].state.Live?
    ensures Iterate(ts, 1, 0, 1) == [(0, 0)] && LiveAt(ts, 1, (1, 0))
  {
    hide LiveFrom;
    FirstSlotLive(ts);
    var live := LiveFrom(ts, 1, 0, 0);
    assert ts[1][0].state.Live?;
    assert live[..1] == [(0, 0)];
    assert PageAt(ts, 1, 0, 1) == Page([(0, 0)], 0);
  }

  lemma FirstSlotLive(ts: seq<seq<Slot>>)
    requires Tables(ts, 1) && ts[0][0].state.Live?
    ensures var live := LiveFrom(ts, 1, ShardOf(0), SlotOf(0)); |live| > 0 && live[0] == (0, 0)
  {
  }
}
