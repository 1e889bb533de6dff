/**
 * The open-addressing table of one shard as a sequence of slots: lookup, Robin
 * Hood insertion and the CLOCK sweep, and what each does to the whole table.
 */
module Table {
  import opened Bytes
  import opened Entries

  datatype State = Empty | Busy | Live | Dead

  /** `dist` is the 8-bit `probe_dist`; `clock` is `clock_bit`. */
  datatype Slot = Slot(state: State, clock: bool, dist: nat, item: Item)

  // ---- cyclic slot arithmetic ----

  predicate PowerOfTwo(n: nat) {
    n == 1 || (n > 1 && n % 2 == 0 && PowerOfTwo(n / 2))
  }

  /** `table_slot` */
  function Home(hash: nat, cap: nat): (h: nat)
    requires cap > 0
    ensures h < cap
  {
    hash % cap
  }

  /** `(slot + 1) & (cap - 1)` */
  function Next(s: nat, cap: nat): (r: nat)
    requires s < cap
    ensures r < cap
  {
    if s + 1 == cap then 0 else s + 1
  }

  /** Bitwise and. */
  function BitAnd(a: nat, b: nat): nat {
    if a == 0 || b == 0 then 0
    else 2 * BitAnd(a / 2, b / 2) + (if a % 2 == 1 && b % 2 == 1 then 1 else 0)
  }

  lemma BitAndOdd(a: nat, b: nat)
    requires b % 2 == 1
    ensures BitAnd(a, b) == 2 * BitAnd(a / 2, b / 2) + a % 2
  {
  }

  lemma ModHalf(n: nat, half: nat)
    requires half > 0
    ensures n % (2 * half) == 2 * ((n / 2) % half) + n % 2
  {
    var q, r := (n / 2) / half, (n / 2) % half;
    assert n / 2 == q * half + r;
    assert q * (2 * half) == 2 * (q * half);
    DivModIs(n, q, 2 * r + n % 2, 2 * half);
  }

  /** Masking with a power of two less one is taking the remainder. */
  lemma {:induction false} MaskIsMod(n: nat, cap: nat)
    requires PowerOfTwo(cap)
    ensures BitAnd(n, cap - 1) == n % cap
    decreases cap
  {
    if cap > 1 {
      var half := cap / 2;
      MaskIsMod(n / 2, half);
      hide BitAnd;
      hide PowerOfTwo;
      assert (cap - 1) / 2 == half - 1 && cap == 2 * half;
      BitAndOdd(n, cap - 1);
      ModHalf(n, half);
    }
  }

  /** The slot arithmetic, written here by cases, is masking with `cap - 1`. */
  lemma SlotArithmetic(hash: nat, h: nat, s: nat, j: nat, cap: nat)
    requires PowerOfTwo(cap) && h < cap && s < cap && j <= cap
    ensures Home(hash, cap) == BitAnd(hash, cap - 1)
    ensures Next(s, cap) == BitAnd(s + 1, cap - 1)
    ensures At(h, j, cap) == BitAnd(h + j, cap - 1)
    ensures Dist(h, s, cap) == BitAnd(s + cap - h, cap - 1)
  {
    MaskIsMod(hash, cap);
    MaskIsMod(s + 1, cap);
    MaskIsMod(h + j, cap);
    MaskIsMod(s + cap - h, cap);
    ModOnce(s + 1, cap);
    ModOnce(h + j, cap);
    ModOnce(s + cap - h, cap);
  }

  lemma ModOnce(n: nat, cap: nat)
    requires 0 < cap && n < 2 * cap
    ensures n % cap == if n < cap then n else n - cap
  {
    if n < cap { DivModIs(n, 0, n, cap); } else { DivModIs(n, 1, n - cap, cap); }
  }

  /** The slot `j` steps after `h`. */
  function At(h: nat, j: nat, cap: nat): (r: nat)
    requires h < cap && j <= cap
    ensures r < cap
  {
    if h + j < cap then h + j else h + j - cap
  }

  /** The true cyclic distance from `h` to `s`, before truncation to 8 bits. */
  function Dist(h: nat, s: nat, cap: nat): (d: nat)
    requires h < cap && s < cap
    ensures d < cap && At(h, d, cap) == s
    ensures forall j | 0 <= j < cap && At(h, j, cap) == s :: j == d
  {
    if h <= s then s - h else s + cap - h
  }

  // ---- lookup ----

  predicate Hit(t: seq<Slot>, mem: Memory, key: seq<byte>, hash: nat, s: nat)
    requires s < |t|
  {
    t[s].state.Live? && Matches(t[s].item, mem, key, hash)
  }

  function FindFrom(t: seq<Slot>, mem: Memory, key: seq<byte>, hash: nat, now: int, i: nat): (r: Option<nat>)
    requires |t| > 0
    ensures r.Some? ==> r.value < |t| && Hit(t, mem, key, hash, r.value) && !Expired(t[r.value].item.expireNs, now)
    decreases |t| - i
  {
    if i >= |t| then None
    else
      var s := At(Home(hash, |t|), i, |t|);
      if t[s].state.Empty? then None
      else if Hit(t, mem, key, hash, s) then
        if Expired(t[s].item.expireNs, now) then None else Some(s)
      else FindFrom(t, mem, key, hash, now, i + 1)
  }

  /** `_shard_find` */
  function Find(t: seq<Slot>, mem: Memory, key: seq<byte>, hash: nat, now: int): (r: Option<nat>)
    requires |t| > 0
    ensures r.Some? ==> r.value < |t| && Hit(t, mem, key, hash, r.value) && !Expired(t[r.value].item.expireNs, now)
  {
    FindFrom(t, mem, key, hash, now, 0)
  }

  /** No EMPTY slot lies cyclically from `h` up to, not including, `s`. */
  predicate Reach(t: seq<Slot>, h: nat, s: nat)
    requires h < |t| && s < |t|
  {
    forall j | 0 <= j < Dist(h, s, |t|) :: !t[At(h, j, |t|)].state.Empty?
  }

  predicate ChainAt(t: seq<Slot>, s: nat)
    requires s < |t|
  {
    t[s].state.Live? ==> Reach(t, Home(t[s].item.keyHash, |t|), s)
  }

  /** The probe chain of every LIVE entry is unbroken. */
  predicate Chain(t: seq<Slot>) {
    forall s | 0 <= s < |t| :: ChainAt(t, s)
  }

  /** The first slot of the probe sequence that matches is the one lookup decides on. */
  lemma FindFirst(t: seq<Slot>, mem: Memory, key: seq<byte>, hash: nat, now: int, s: nat, i: nat)
    requires s < |t| && Chain(t) && Hit(t, mem, key, hash, s)
    requires forall j | 0 <= j < Dist(Home(hash, |t|), s, |t|) :: !Hit(t, mem, key, hash, At(Home(hash, |t|), j, |t|))
    requires i <= Dist(Home(hash, |t|), s, |t|)
    ensures FindFrom(t, mem, key, hash, now, i) == if Expired(t[s].item.expireNs, now) then None else Some(s)
    decreases |t| - i
  {
    assert ChainAt(t, s);
    if i < Dist(Home(hash, |t|), s, |t|) {
      FindFirst(t, mem, key, hash, now, s, i + 1);
    }
  }

  lemma FindNone(t: seq<Slot>, mem: Memory, key: seq<byte>, hash: nat, now: int, i: nat)
    requires |t| > 0
    requires forall s | 0 <= s < |t| :: !Hit(t, mem, key, hash, s)
    ensures FindFrom(t, mem, key, hash, now, i) == None
    decreases |t| - i
  {
    if i < |t| { FindNone(t, mem, key, hash, now, i + 1); }
  }

  /** At most one LIVE slot holds `key`. */
  predicate AtMostOne(t: seq<Slot>, mem: Memory, key: seq<byte>, hash: nat) {
    forall a, b | 0 <= a < |t| && 0 <= b < |t| && Hit(t, mem, key, hash, a) && Hit(t, mem, key, hash, b) :: a == b
  }

  /** Lookup never misses: it returns the LIVE unexpired slot of `key` if there is one, else nothing. */
  lemma FindExact(t: seq<Slot>, mem: Memory, key: seq<byte>, hash: nat, now: int)
    requires |t| > 0 && Chain(t) && AtMostOne(t, mem, key, hash)
    ensures forall s | 0 <= s < |t| ::
              Find(t, mem, key, hash, now) == Some(s) <==>
              Hit(t, mem, key, hash, s) && !Expired(t[s].item.expireNs, now)
  {
    forall s | 0 <= s < |t| && Hit(t, mem, key, hash, s)
      ensures Find(t, mem, key, hash, now) == if Expired(t[s].item.expireNs, now) then None else Some(s)
    {
      FindFirst(t, mem, key, hash, now, s, 0);
    }
  }

  // ---- adding up a weight over the LIVE slots ----

  type Weight = Item -> nat

  function Of(s: Slot, w: Weight): nat {
    if s.state.Live? then w(s.item) else 0
  }

  /** The total weight of the LIVE entries. */
  function Sum(t: seq<Slot>, w: Weight): nat {
    if |t| == 0 then 0 else Sum(t[..|t| - 1], w) + Of(t[|t| - 1], w)
  }

  function IsItem(x: Item): Weight { (e: Item) => if e == x then 1 else 0 }

  function One(): Weight { (e: Item) => 1 }

  /** The LIVE entries of a table. */
  function Items(t: seq<Slot>): multiset<Item> {
    if |t| == 0 then multiset{}
    else Items(t[..|t| - 1]) + (if t[|t| - 1].state.Live? then multiset{t[|t| - 1].item} else multiset{})
  }

  lemma {:induction false} ItemsSum(t: seq<Slot>, x: Item)
    ensures Items(t)[x] == Sum(t, IsItem(x))
  {
    if |t| > 0 { ItemsSum(t[..|t| - 1], x); }
  }

  lemma {:induction false} SumUpdate(t: seq<Slot>, w: Weight, i: nat, s: Slot)
    requires i < |t|
    ensures Sum(t[i := s], w) + Of(t[i], w) == Sum(t, w) + Of(s, w)
  {
    var n := |t| - 1;
    if i == n {
      assert t[i := s][..n] == t[..n];
    } else {
      assert t[i := s][..n] == t[..n][i := s];
      SumUpdate(t[..n], w, i, s);
    }
  }

  lemma {:induction false} SumAgree(t: seq<Slot>, u: seq<Slot>, v: Weight, w: Weight)
    requires |t| == |u|
    requires forall i | 0 <= i < |t| :: Of(t[i], v) == Of(u[i], w)
    ensures Sum(t, v) == Sum(u, w)
  {
    if |t| > 0 {
      var n := |t| - 1;
      assert forall i | 0 <= i < n :: t[..n][i] == t[i] && u[..n][i] == u[i];
      SumAgree(t[..n], u[..n], v, w);
    }
  }

  lemma {:induction false} SumHas(t: seq<Slot>, w: Weight, i: nat)
    requires i < |t|
    ensures Of(t[i], w) <= Sum(t, w)
  {
    var n := |t| - 1;
    if i < n {
      assert t[..n][i] == t[i];
      SumHas(t[..n], w, i);
    }
  }

  /** Two different slots contribute separately. */
  lemma SumHasTwo(t: seq<Slot>, w: Weight, i: nat, j: nat)
    requires i < |t| && j < |t| && i != j
    ensures Of(t[i], w) + Of(t[j], w) <= Sum(t, w)
  {
    var dead := t[i].(state := Dead);
    var u := t[i := dead];
    SumUpdate(t, w, i, dead);
    SumHas(u, w, j);
    assert u[j] == t[j];
  }

  lemma {:induction false} SumFrom(t: seq<Slot>, w: Weight) returns (i: nat)
    requires Sum(t, w) > 0
    ensures i < |t| && Of(t[i], w) > 0
  {
    var n := |t| - 1;
    if Of(t[n], w) > 0 {
      i := n;
    } else {
      i := SumFrom(t[..n], w);
    }
  }

  // ---- Robin Hood insertion ----

  predicate Vacant(s: Slot) { s.state.Empty? || s.state.Dead? }

  function Filled(e: Item, dist: nat): Slot { Slot(Live, true, dist, e) }

  /**
   * `_shard_insert` from loop index `i`: `e` is the entry being carried, `dist`
   * its `probe_dist`.  The second result is the entry still carried when the loop
   * gives up.
   */
  function Place(t: seq<Slot>, e: Item, dist: nat, s: nat, i: nat): (r: (seq<Slot>, Option<Item>))
    requires s < |t|
    ensures |r.0| == |t|
    decreases |t| - i
  {
    if i >= |t| then (t, Some(e))
    else if Vacant(t[s]) then (t[s := Filled(e, dist)], None)
    else if t[s].state.Live? && t[s].dist < dist then
      Place(t[s := Filled(e, dist)], t[s].item, (t[s].dist + 1) % 256, Next(s, |t|), i + 1)
    else
      Place(t, e, (dist + 1) % 256, Next(s, |t|), i + 1)
  }

  /** One turn of the loop. */
  lemma PlaceNext(t: seq<Slot>, x: Item, d: nat, s: nat, n: nat)
    requires s < |t|
    ensures var u := t[s := Filled(x, d)];
            Place(t, x, d, s, n) ==
            if n >= |t| then (t, Some(x))
            else if Vacant(t[s]) then (u, None)
            else if t[s].state.Live? && t[s].dist < d then Place(u, t[s].item, (t[s].dist + 1) % 256, Next(s, |t|), n + 1)
            else Place(t, x, (d + 1) % 256, Next(s, |t|), n + 1)
  {
  }

  function Insert(t: seq<Slot>, e: Item): (r: (seq<Slot>, Option<Item>))
    requires |t| > 0
    ensures |r.0| == |t|
  {
    Place(t, e, 0, Home(e.keyHash, |t|), 0)
  }

  function Left(o: Option<Item>, w: Weight): nat {
    if o.Some? then w(o.value) else 0
  }

  /** Every weight is conserved, up to the entry given up on. */
  lemma {:induction false} PlaceConserves(t: seq<Slot>, e: Item, dist: nat, s: nat, i: nat, w: Weight)
    requires s < |t|
    ensures var (u, o) := Place(t, e, dist, s, i);
            Sum(u, w) + Left(o, w) == Sum(t, w) + w(e)
    decreases |t| - i
  {
    if i < |t| {
      SumUpdate(t, w, s, Filled(e, dist));
      if !Vacant(t[s]) {
        if t[s].state.Live? && t[s].dist < dist {
          PlaceConserves(t[s := Filled(e, dist)], t[s].item, (t[s].dist + 1) % 256, Next(s, |t|), i + 1, w);
        } else {
          PlaceConserves(t, e, (dist + 1) % 256, Next(s, |t|), i + 1, w);
        }
      }
    }
  }

  /** The `cap`-step bound is enough: an entry is given up on only when no slot is vacant. */
  lemma {:induction false} PlaceGivesUp(t: seq<Slot>, e: Item, dist: nat, h: nat, i: nat)
    requires h < |t| && i <= |t|
    requires forall j | 0 <= j < i :: !Vacant(t[At(h, j, |t|)])
    ensures var (u, o) := Place(t, e, dist, At(h, i, |t|), i);
            o.Some? <==> forall k | 0 <= k < |t| :: !Vacant(t[k])
    decreases |t| - i
  {
    var s := At(h, i, |t|);
    if i == |t| {
      forall k | 0 <= k < |t| ensures !Vacant(t[k]) {
        assert At(h, Dist(h, k, |t|), |t|) == k;
      }
    } else if !Vacant(t[s]) {
      var u := t[s := Filled(e, dist)];
      if t[s].state.Live? && t[s].dist < dist {
        PlaceGivesUp(u, t[s].item, (t[s].dist + 1) % 256, h, i + 1);
        assert forall k | 0 <= k < |t| :: Vacant(u[k]) <==> Vacant(t[k]);
      } else {
        PlaceGivesUp(t, e, (dist + 1) % 256, h, i + 1);
      }
    }
  }

  lemma InsertConservesEach(t: seq<Slot>, e: Item, x: Item)
    requires |t| > 0
    ensures var (u, o) := Insert(t, e);
            Items(u)[x] + (if o == Some(x) then 1 else 0) == Items(t)[x] + (if x == e then 1 else 0)
  {
    var (u, o) := Insert(t, e);
    PlaceConserves(t, e, 0, Home(e.keyHash, |t|), 0, IsItem(x));
    ItemsSum(u, x);
    ItemsSum(t, x);
  }

  /**
   * Exact conservation: the LIVE entries afterwards are those before plus the new
   * one, less one entry exactly when every slot was occupied.
   */
  lemma InsertConserves(t: seq<Slot>, e: Item)
    requires |t| > 0
    ensures var (u, o) := Insert(t, e);
            && Items(u) + (if o.Some? then multiset{o.value} else multiset{}) == Items(t) + multiset{e}
            && (o.Some? <==> forall k | 0 <= k < |t| :: !Vacant(t[k]))
  {
    var (u, o) := Insert(t, e);
    var given := if o.Some? then multiset{o.value} else multiset{};
    forall x: Item ensures (Items(u) + given)[x] == (Items(t) + multiset{e})[x] {
      InsertConservesEach(t, e, x);
    }
    PlaceGivesUp(t, e, 0, Home(e.keyHash, |t|), 0);
  }

  /** No slot returns to EMPTY. */
  predicate Occupies(t: seq<Slot>, u: seq<Slot>) {
    |t| == |u| && forall s | 0 <= s < |t| && u[s].state.Empty? :: t[s].state.Empty?
  }

  lemma ReachOccupies(t: seq<Slot>, u: seq<Slot>, h: nat, s: nat)
    requires Occupies(t, u) && h < |t| && s < |t| && Reach(t, h, s)
    ensures Reach(u, h, s)
  {
  }

  /** Overwriting a slot with a LIVE entry that can be reached keeps every chain. */
  lemma ChainUpdate(t: seq<Slot>, s: nat, x: Slot)
    requires s < |t| && Chain(t) && !x.state.Empty?
    requires x.state.Live? ==> Reach(t, Home(x.item.keyHash, |t|), s)
    ensures Chain(t[s := x]) && Occupies(t, t[s := x])
  {
    var u := t[s := x];
    forall k | 0 <= k < |u| ensures ChainAt(u, k) {
      assert ChainAt(t, k);
      if u[k].state.Live? { ReachOccupies(t, u, Home(u[k].item.keyHash, |t|), k); }
    }
  }

  lemma ReachNext(t: seq<Slot>, h: nat, s: nat)
    requires h < |t| && s < |t| && Reach(t, h, s) && !t[s].state.Empty?
    ensures Reach(t, h, Next(s, |t|))
  {
    var n := Next(s, |t|);
    forall j | 0 <= j < Dist(h, n, |t|) ensures !t[At(h, j, |t|)].state.Empty? {
      if j == Dist(h, s, |t|) { assert At(h, j, |t|) == s; }
    }
  }

  /** Displacement and tombstone reuse keep every probe chain unbroken. */
  lemma {:induction false} PlaceKeepsChain(t: seq<Slot>, e: Item, dist: nat, s: nat, i: nat)
    requires s < |t| && Chain(t) && Reach(t, Home(e.keyHash, |t|), s)
    ensures Chain(Place(t, e, dist, s, i).0)
    ensures Occupies(t, Place(t, e, dist, s, i).0)
    decreases |t| - i
  {
    if i < |t| {
      ChainUpdate(t, s, Filled(e, dist));
      if !Vacant(t[s]) {
        var u := t[s := Filled(e, dist)];
        if t[s].state.Live? && t[s].dist < dist {
          assert ChainAt(t, s);
          ReachOccupies(t, u, Home(t[s].item.keyHash, |t|), s);
          ReachNext(u, Home(t[s].item.keyHash, |t|), s);
          PlaceKeepsChain(u, t[s].item, (t[s].dist + 1) % 256, Next(s, |t|), i + 1);
        } else {
          ReachNext(t, Home(e.keyHash, |t|), s);
          PlaceKeepsChain(t, e, (dist + 1) % 256, Next(s, |t|), i + 1);
        }
      }
    }
  }

  /** Insertion only ever turns slots LIVE. */
  lemma {:induction false} PlaceStates(t: seq<Slot>, e: Item, dist: nat, s: nat, i: nat)
    requires s < |t|
    ensures forall k | 0 <= k < |t| ::
              Place(t, e, dist, s, i).0[k].state == t[k].state || Place(t, e, dist, s, i).0[k].state.Live?
    decreases |t| - i
  {
    if i < |t| && !Vacant(t[s]) {
      if t[s].state.Live? && t[s].dist < dist {
        PlaceStates(t[s := Filled(e, dist)], t[s].item, (t[s].dist + 1) % 256, Next(s, |t|), i + 1);
      } else {
        PlaceStates(t, e, (dist + 1) % 256, Next(s, |t|), i + 1);
      }
    }
  }

  /** Every entry in the table afterwards, or given up on, was there before or is the new one. */
  lemma InsertFrom(t: seq<Slot>, e: Item, x: Item)
    requires |t| > 0
    requires var (u, o) := Insert(t, e);
             o == Some(x) || exists k | 0 <= k < |u| :: u[k].state.Live? && u[k].item == x
    ensures x == e || exists k | 0 <= k < |t| :: t[k].state.Live? && t[k].item == x
  {
    var (u, o) := Insert(t, e);
    PlaceConserves(t, e, 0, Home(e.keyHash, |t|), 0, IsItem(x));
    if k :| 0 <= k < |u| && u[k].state.Live? && u[k].item == x {
      SumHas(u, IsItem(x), k);
    }
    if x != e {
      var k := SumFrom(t, IsItem(x));
    }
  }

  lemma InsertKeepsChain(t: seq<Slot>, e: Item)
    requires |t| > 0 && Chain(t)
    ensures Chain(Insert(t, e).0) && Occupies(t, Insert(t, e).0)
  {
    PlaceKeepsChain(t, e, 0, Home(e.keyHash, |t|), 0);
  }

  // ---- the stored probe distance ----

  predicate DistAt(t: seq<Slot>, s: nat)
    requires s < |t|
  {
    t[s].state.Live? ==> t[s].dist == Dist(Home(t[s].item.keyHash, |t|), s, |t|) % 256
  }

  /** Every stored `probe_dist` is the true distance modulo 256. */
  predicate Distances(t: seq<Slot>) {
    forall s | 0 <= s < |t| :: DistAt(t, s)
  }

  /** Going once around the table changes no 8-bit distance, or cannot happen. */
  predicate LapsEvenly(cap: nat) { cap < 256 || cap % 256 == 0 }

  lemma {:induction false} PowerOfTwoIs(n: nat)
    requires PowerOfTwo(n)
    ensures n in {1, 2, 4, 8, 16, 32, 64, 128} || n % 256 == 0
    ensures LapsEvenly(n)
  {
    if n > 1 { PowerOfTwoIs(n / 2); }
  }

  lemma NextDist(h: nat, s: nat, cap: nat, i: nat)
    requires LapsEvenly(cap) && h < cap && s < cap && i + 1 < cap
    requires cap < 256 ==> Dist(h, s, cap) <= i
    ensures Dist(h, Next(s, cap), cap) % 256 == (Dist(h, s, cap) % 256 + 1) % 256
    ensures cap < 256 ==> Dist(h, Next(s, cap), cap) == Dist(h, s, cap) + 1
  {
    if Next(s, cap) == h {
      assert Dist(h, s, cap) == cap - 1;
    }
  }

  lemma DistancesUpdate(t: seq<Slot>, s: nat, e: Item, dist: nat)
    requires s < |t| && Distances(t) && dist == Dist(Home(e.keyHash, |t|), s, |t|) % 256
    ensures Distances(t[s := Filled(e, dist)])
  {
    var u := t[s := Filled(e, dist)];
    forall k | 0 <= k < |u| ensures DistAt(u, k) {
      if k != s { assert DistAt(t, k); }
    }
  }

  predicate Carried(hash: nat, dist: nat, s: nat, i: nat, cap: nat)
    requires s < cap
  {
    && (i < cap ==> dist == Dist(Home(hash, cap), s, cap) % 256)
    && (i < cap < 256 ==> dist <= i)
  }

  lemma CarryOn(hash: nat, dist: nat, s: nat, i: nat, cap: nat)
    requires s < cap && i < cap && LapsEvenly(cap) && Carried(hash, dist, s, i, cap)
    ensures Carried(hash, (dist + 1) % 256, Next(s, cap), i + 1, cap)
  {
    if i + 1 < cap { NextDist(Home(hash, cap), s, cap, i); }
  }

  /**
   * The carried distance stays the true one modulo 256: below 256 slots it never
   * exceeds the loop index, so it does not lap; from 256 slots on, lapping changes
   * nothing modulo 256.
   */
  lemma {:induction false} PlaceKeepsDistances(t: seq<Slot>, e: Item, dist: nat, s: nat, i: nat)
    requires s < |t| && Distances(t) && LapsEvenly(|t|) && Carried(e.keyHash, dist, s, i, |t|)
    ensures Distances(Place(t, e, dist, s, i).0)
    decreases |t| - i
  {
    if i < |t| {
      DistancesUpdate(t, s, e, dist);
      if !Vacant(t[s]) {
        if t[s].state.Live? && t[s].dist < dist {
          assert DistAt(t, s);
          CarryOn(t[s].item.keyHash, t[s].dist, s, i, |t|);
          PlaceKeepsDistances(t[s := Filled(e, dist)], t[s].item, (t[s].dist + 1) % 256, Next(s, |t|), i + 1);
        } else {
          CarryOn(e.keyHash, dist, s, i, |t|);
          PlaceKeepsDistances(t, e, (dist + 1) % 256, Next(s, |t|), i + 1);
        }
      }
    }
  }

  lemma InsertKeepsDistances(t: seq<Slot>, e: Item)
    requires |t| > 0 && Distances(t) && PowerOfTwo(|t|)
    ensures Distances(Insert(t, e).0)
  {
    PowerOfTwoIs(|t|);
    PlaceKeepsDistances(t, e, 0, Home(e.keyHash, |t|), 0);
  }

  // ---- CLOCK eviction ----

  /** `_shard_evict_one` from loop index `i`, the hand having reached `h`. */
  function Sweep(t: seq<Slot>, h: nat, i: nat): (r: (seq<Slot>, Option<nat>))
    requires h < |t|
    ensures |r.0| == |t|
    ensures r.1.Some? ==> r.1.value < |t|
    decreases |t| - i
  {
    if i >= |t| then (t, None)
    else
      var n := Next(h, |t|);
      if !t[n].state.Live? then Sweep(t, n, i + 1)
      else if t[n].clock then Sweep(t[n := t[n].(clock := false)], n, i + 1)
      else (t[n := t[n].(state := Dead)], Some(n))
  }

  function Evict(t: seq<Slot>, hand: nat): (r: (seq<Slot>, Option<nat>))
    requires hand < |t|
    ensures |r.0| == |t|
    ensures r.1.Some? ==> r.1.value < |t|
  {
    Sweep(t, hand, 0)
  }

  predicate Unreferenced(s: Slot) { s.state.Live? && !s.clock }

  function Forgotten(s: Slot): Slot { if s.state.Live? then s.(clock := false) else s }

  /** How many slots the hand has to advance, at least one, to stand on `s`. */
  function HandSteps(hand: nat, s: nat, cap: nat): (d: nat)
    requires hand < cap && s < cap
    ensures 1 <= d <= cap
  {
    Dist(Next(hand, cap), s, cap) + 1
  }

  /** What one sweep is for: `u` is `t` after the first unreferenced entry past the hand is taken. */
  predicate SweptTo(t: seq<Slot>, hand: nat, u: seq<Slot>, v: nat)
    requires hand < |t| && v < |t| && |u| == |t|
  {
    && Unreferenced(t[v])
    && u[v] == t[v].(state := Dead)
    && forall s | 0 <= s < |t| && s != v ::
         if HandSteps(hand, s, |t|) < HandSteps(hand, v, |t|)
         then !Unreferenced(t[s]) && u[s] == Forgotten(t[s])
         else u[s] == t[s]
  }

  /** The hand stands on slot `n` after exactly `i + 1` steps. */
  lemma HandStands(hand: nat, i: nat, cap: nat)
    requires hand < cap && i < cap
    ensures var n := Next(At(hand, i, cap), cap);
            n == At(hand, i + 1, cap) && forall s | 0 <= s < cap :: HandSteps(hand, s, cap) == i + 1 <==> s == n
  {
  }

  /** Slot `s` after the hand has made `i` steps without finding a victim. */
  predicate SweptAt(t: seq<Slot>, u: seq<Slot>, hand: nat, i: nat, s: nat)
    requires hand < |t| && |u| == |t| && s < |t|
  {
    if HandSteps(hand, s, |t|) <= i
    then !Unreferenced(t[s]) && u[s] == Forgotten(t[s])
    else u[s] == t[s]
  }

  predicate Swept(t: seq<Slot>, u: seq<Slot>, hand: nat, i: nat)
    requires hand < |t| && |u| == |t|
  {
    forall s | 0 <= s < |t| :: SweptAt(t, u, hand, i, s)
  }

  lemma SweptNext(t: seq<Slot>, u: seq<Slot>, u': seq<Slot>, hand: nat, i: nat)
    requires hand < |t| && |u| == |t| && |u'| == |t| && i < |t|
    requires Swept(t, u, hand, i)
    requires var n := Next(At(hand, i, |t|), |t|);
             !Unreferenced(t[n]) && u' == u[n := Forgotten(u[n])]
    ensures Swept(t, u', hand, i + 1)
  {
    HandStands(hand, i, |t|);
    var n := Next(At(hand, i, |t|), |t|);
    assert SweptAt(t, u, hand, i, n);
    var j := i + 1;
    forall s | 0 <= s < |t| ensures SweptAt(t, u', hand, j, s) {
      assert SweptAt(t, u, hand, i, s);
    }
  }

  lemma {:induction false} SweepFrom(t: seq<Slot>, u: seq<Slot>, hand: nat, i: nat)
    requires hand < |t| && |u| == |t| && i <= |t|
    requires Swept(t, u, hand, i)
    ensures var (r, v) := Sweep(u, At(hand, i, |t|), i);
            match v
            case Some(v) => SweptTo(t, hand, r, v)
            case None => forall s | 0 <= s < |t| :: !Unreferenced(t[s]) && r[s] == Forgotten(t[s])
    decreases |t| - i
  {
    if i == |t| {
      forall s | 0 <= s < |t| ensures !Unreferenced(t[s]) && u[s] == Forgotten(t[s]) {
        assert SweptAt(t, u, hand, i, s);
      }
    } else {
      var n := Next(At(hand, i, |t|), |t|);
      HandStands(hand, i, |t|);
      assert SweptAt(t, u, hand, i, n);
      if Unreferenced(u[n]) {
        SweptVictim(t, u, hand, i);
      } else {
        var u' := u[n := Forgotten(u[n])];
        SweptNext(t, u, u', hand, i);
        SweepFrom(t, u', hand, i + 1);
        assert !u[n].state.Live? ==> u' == u;
      }
    }
  }

  lemma SweptVictim(t: seq<Slot>, u: seq<Slot>, hand: nat, i: nat)
    requires hand < |t| && |u| == |t| && i < |t|
    requires Swept(t, u, hand, i)
    requires Unreferenced(u[Next(At(hand, i, |t|), |t|)])
    ensures var n := Next(At(hand, i, |t|), |t|);
            SweptTo(t, hand, u[n := u[n].(state := Dead)], n)
  {
    HandStands(hand, i, |t|);
    var n := Next(At(hand, i, |t|), |t|);
    assert SweptAt(t, u, hand, i, n);
    forall s | 0 <= s < |t| && s != n
      ensures if HandSteps(hand, s, |t|) < HandSteps(hand, n, |t|)
              then !Unreferenced(t[s]) && u[s] == Forgotten(t[s])
              else u[s] == t[s]
    {
      assert SweptAt(t, u, hand, i, s);
    }
  }

  /**
   * The victim is the first unreferenced LIVE entry after the hand; exactly the
   * LIVE entries passed on the way lose their bit and nothing else changes.  A
   * sweep fails only when every LIVE entry was referenced, and clears every bit.
   */
  lemma EvictExact(t: seq<Slot>, hand: nat)
    requires hand < |t|
    ensures var (u, v) := Evict(t, hand);
            match v
            case Some(v) => SweptTo(t, hand, u, v)
            case None => forall s | 0 <= s < |t| :: !Unreferenced(t[s]) && u[s] == Forgotten(t[s])
  {
    SweepFrom(t, t, hand, 0);
  }

  /** Two sweeps in a row always free a slot if any entry is LIVE. */
  lemma SecondSweepEvicts(t: seq<Slot>, hand: nat, s: nat)
    requires hand < |t| && s < |t| && t[s].state.Live?
    ensures var (u, v) := Evict(t, hand);
            v.None? ==> Evict(u, hand).1.Some?
  {
    EvictExact(t, hand);
    var (u, v) := Evict(t, hand);
    EvictExact(u, hand);
    assert v.None? ==> Unreferenced(u[s]);
  }

  /** Bits may change and LIVE entries may die; that keeps chains and distances. */
  predicate OnlyDies(t: seq<Slot>, u: seq<Slot>) {
    && |t| == |u|
    && forall s | 0 <= s < |t| ::
         && u[s].item == t[s].item && u[s].dist == t[s].dist
         && (u[s].state == t[s].state || (t[s].state.Live? && u[s].state.Dead?))
  }

  lemma OnlyDiesKeeps(t: seq<Slot>, u: seq<Slot>)
    requires OnlyDies(t, u)
    ensures Occupies(t, u)
    ensures Chain(t) ==> Chain(u)
    ensures Distances(t) ==> Distances(u)
  {
    forall s | 0 <= s < |u| && u[s].state.Live?
      ensures Chain(t) ==> ChainAt(u, s)
      ensures Distances(t) ==> DistAt(u, s)
    {
      if Chain(t) {
        assert ChainAt(t, s);
        ReachOccupies(t, u, Home(u[s].item.keyHash, |t|), s);
      }
      if Distances(t) { assert DistAt(t, s); }
    }
  }
}
