/**
 * One shard while a writer is at work on it: the LIVE slots, the entries the writer
 * holds outside the table, and what each single store does to them.
 */
module Shelf {
  import opened Bytes
  import opened Entries
  import opened Table
  import opened Cache
  import opened CacheInvariant
  import opened CacheSteps
  import opened CacheStore
  import opened CacheBags

  /** LIVE and held entries can be read, no buffer has two owners, chains are unbroken, and the LIVE records are `b`. */
  ghost predicate Shelved(t: seq<Slot>, mem: Memory, g: Config, held: seq<Item>, b: Bag) {
    && |t| > 0 && Chain(t)
    && (forall s | 0 <= s < |t| && t[s].state.Live? :: Good(t[s].item, mem, g))
    && (forall k | 0 <= k < |held| :: Good(held[k], mem, g))
    && (forall p: Ptr :: Owners(t, held, p) <= 1)
    && (forall r: Record :: Sum(t, RecordIs(mem, r)) == b[r])
  }

  function Owners(t: seq<Slot>, held: seq<Item>, p: Ptr): nat {
    Sum(t, PtrIs(p)) + SumSeq(held, PtrIs(p))
  }

  // ---- lookup ----

  lemma ShelvedRecord(t: seq<Slot>, mem: Memory, g: Config, held: seq<Item>, b: Bag, s: nat)
    requires Shelved(t, mem, g, held, b) && s < |t| && t[s].state.Live?
    ensures RecordOf(t[s].item, mem).Some? && RecordOf(t[s].item, mem).value in b
  {
    hide Chain;
    var r := RecordOf(t[s].item, mem).value;
    SumHas(t, RecordIs(mem, r), s);
    assert Sum(t, RecordIs(mem, r)) == b[r];
  }

  /** Lookup on one shard finds only what is stored and fresh, and misses only where it may. */
  lemma ShelvedLookup(t: seq<Slot>, mem: Memory, g: Config, held: seq<Item>, b: Bag, key: seq<byte>, now: int)
    requires Shelved(t, mem, g, held, b)
    ensures var f := Find(t, mem, key, HashOf(g.hash, key), now);
            && (f.Some? ==> var r := RecordOf(t[f.value].item, mem);
                            r.Some? && r.value in b && r.value.key == key && !Expired(r.value.expireNs, now))
            && (f.None? ==> Misses(b, key, now))
  {
    var h := HashOf(g.hash, key);
    var f := Find(t, mem, key, h, now);
    if f.Some? {
      ShelvedRecord(t, mem, g, held, b, f.value);
    } else if r :| r in b && r.key == key {
      assert Sum(t, RecordIs(mem, r)) == b[r];
      var s := SumFrom(t, RecordIs(mem, r));
      assert Good(t[s].item, mem, g);
      hide Shelved;
      var k := FirstHit(t, mem, key, h, s);
      assert Chain(t) by { ShelvedChain(t, mem, g, held, b); }
      FindFirst(t, mem, key, h, now, k, 0);
      ShelvedRecord(t, mem, g, held, b, k);
    }
  }

  lemma ShelvedChain(t: seq<Slot>, mem: Memory, g: Config, held: seq<Item>, b: Bag)
    requires Shelved(t, mem, g, held, b)
    ensures |t| > 0 && Chain(t)
  {
  }

  // ---- single stores ----

  /** The two tables differ in clock bits only. */
  predicate SameSlots(t: seq<Slot>, u: seq<Slot>) {
    |t| == |u| && forall k | 0 <= k < |t| :: u[k].state == t[k].state && u[k].item == t[k].item && u[k].dist == t[k].dist
  }

  lemma SameSlotsChain(t: seq<Slot>, u: seq<Slot>)
    requires SameSlots(t, u) && Chain(t)
    ensures Chain(u)
  {
    forall s | 0 <= s < |u| ensures ChainAt(u, s) {
      assert ChainAt(t, s);
      if u[s].state.Live? { ReachOccupies(t, u, Home(u[s].item.keyHash, |u|), s); }
    }
  }

  lemma ClockStore(t: seq<Slot>, u: seq<Slot>, mem: Memory, g: Config, held: seq<Item>, b: Bag)
    requires Shelved(t, mem, g, held, b) && SameSlots(t, u)
    ensures Shelved(u, mem, g, held, b)
  {
    SameSlotsChain(t, u);
    hide Chain;
    hide Good;
    forall p: Ptr ensures Owners(u, held, p) <= 1 {
      assert Owners(t, held, p) <= 1;
      SumAgree(t, u, PtrIs(p), PtrIs(p));
    }
    forall r: Record ensures Sum(u, RecordIs(mem, r)) == b[r] {
      assert Sum(t, RecordIs(mem, r)) == b[r];
      SumAgree(t, u, RecordIs(mem, r), RecordIs(mem, r));
    }
  }

  /** A LIVE slot stops being LIVE: its record leaves, and the writer holds the entry. */
  lemma TakeStore(t: seq<Slot>, mem: Memory, g: Config, held: seq<Item>, b: Bag, s: nat, x: Slot)
    requires Shelved(t, mem, g, held, b) && s < |t| && t[s].state.Live? && !x.state.Live? && !x.state.Empty?
    ensures var r := RecordOf(t[s].item, mem);
            r.Some? && r.value in b && Shelved(t[s := x], mem, g, held + [t[s].item], b - Bagged(r))
  {
    var u := t[s := x];
    var e := t[s].item;
    ShelvedRecord(t, mem, g, held, b, s);
    ChainUpdate(t, s, x);
    hide Chain;
    hide Good;
    forall p: Ptr ensures Owners(u, held + [e], p) <= 1 {
      assert Owners(t, held, p) <= 1;
      SumUpdate(t, PtrIs(p), s, x);
      SumSeqAppend(held, e, PtrIs(p));
    }
    var q := RecordOf(e, mem).value;
    var b' := b - Bagged(Some(q));
    forall r: Record ensures Sum(u, RecordIs(mem, r)) == b'[r] {
      assert Sum(t, RecordIs(mem, r)) == b[r];
      SumUpdate(t, RecordIs(mem, r), s, x);
    }
  }

  /** A slot that is not LIVE is overwritten, and stays not LIVE. */
  lemma IdleStore(t: seq<Slot>, mem: Memory, g: Config, held: seq<Item>, b: Bag, s: nat, x: Slot)
    requires Shelved(t, mem, g, held, b) && s < |t| && !t[s].state.Live? && !x.state.Live? && !x.state.Empty?
    ensures Shelved(t[s := x], mem, g, held, b)
  {
    var u := t[s := x];
    ChainUpdate(t, s, x);
    hide Chain;
    hide Good;
    forall p: Ptr ensures Owners(u, held, p) <= 1 {
      assert Owners(t, held, p) <= 1;
      SumUpdate(t, PtrIs(p), s, x);
    }
    forall r: Record ensures Sum(u, RecordIs(mem, r)) == b[r] {
      assert Sum(t, RecordIs(mem, r)) == b[r];
      SumUpdate(t, RecordIs(mem, r), s, x);
    }
  }

  /** A held entry becomes LIVE in a slot its probe chain reaches. */
  lemma PutStore(t: seq<Slot>, mem: Memory, g: Config, held: seq<Item>, e: Item, b: Bag, s: nat, x: Slot)
    requires Shelved(t, mem, g, held + [e], b) && s < |t| && !t[s].state.Live?
    requires x.state.Live? && x.item == e && Reach(t, Home(e.keyHash, |t|), s)
    ensures RecordOf(e, mem).Some? && Shelved(t[s := x], mem, g, held, b + Bagged(RecordOf(e, mem)))
  {
    var u := t[s := x];
    ChainUpdate(t, s, x);
    assert Good((held + [e])[|held|], mem, g);
    assert forall k | 0 <= k < |held| :: (held + [e])[k] == held[k];
    assert RecordOf(e, mem).Some?;
    hide Chain;
    hide Good;
    hide RecordOf;
    forall p: Ptr ensures Owners(u, held, p) <= 1 {
      assert Owners(t, held + [e], p) <= 1;
      SumUpdate(t, PtrIs(p), s, x);
      SumSeqAppend(held, e, PtrIs(p));
    }
    var b' := b + Bagged(RecordOf(e, mem));
    forall r: Record ensures Sum(u, RecordIs(mem, r)) == b'[r] {
      assert Sum(t, RecordIs(mem, r)) == b[r];
      SumUpdate(t, RecordIs(mem, r), s, x);
    }
  }

  // ---- memory ----

  /** Memory changes only away from what LIVE and held entries point to. */
  predicate Spares(t: seq<Slot>, held: seq<Item>, mem: Memory, mem': Memory) {
    && (forall s | 0 <= s < |t| && t[s].state.Live? :: KeepsPtrs(t[s].item, mem, mem'))
    && (forall k | 0 <= k < |held| :: KeepsPtrs(held[k], mem, mem'))
  }

  lemma MemStore(t: seq<Slot>, mem: Memory, mem': Memory, g: Config, held: seq<Item>, b: Bag)
    requires Shelved(t, mem, g, held, b) && Spares(t, held, mem, mem')
    ensures Shelved(t, mem', g, held, b)
    ensures forall k | 0 <= k < |held| :: RecordOf(held[k], mem') == RecordOf(held[k], mem)
  {
    hide Chain;
    forall s | 0 <= s < |t| && t[s].state.Live?
      ensures Good(t[s].item, mem', g) && RecordOf(t[s].item, mem') == RecordOf(t[s].item, mem)
    {
      GoodFrame(t[s].item, mem, mem', g);
    }
    forall k | 0 <= k < |held| ensures Good(held[k], mem', g) && RecordOf(held[k], mem') == RecordOf(held[k], mem) {
      GoodFrame(held[k], mem, mem', g);
    }
    hide Good;
    hide RecordOf;
    hide KeepsPtrs;
    forall r: Record ensures Sum(t, RecordIs(mem', r)) == b[r] {
      assert Sum(t, RecordIs(mem, r)) == b[r];
      SumAgree(t, t, RecordIs(mem, r), RecordIs(mem', r));
    }
  }

  function Ptrs(e: Item): set<Ptr> {
    (if KeyPtr(e).Some? then {KeyPtr(e).value} else {}) + (if ValPtr(e).Some? then {ValPtr(e).value} else {})
  }

  lemma OneOwner(t: seq<Slot>, held: seq<Item>, e: Item, p: Ptr, x: Item)
    requires Owners(t, held + [e], p) <= 1 && p in Ptrs(e)
    requires (exists s | 0 <= s < |t| :: t[s].state.Live? && t[s].item == x) || x in held
    ensures PtrIs(p)(x) == 0
  {
    SumSeqAppend(held, e, PtrIs(p));
    if x in held {
      var k :| 0 <= k < |held| && held[k] == x;
      SumSeqHas(held, k, PtrIs(p));
    } else {
      var s :| 0 <= s < |t| && t[s].state.Live? && t[s].item == x;
      SumHas(t, PtrIs(p), s);
    }
  }

  lemma OthersKeep(t: seq<Slot>, held: seq<Item>, e: Item, x: Item, mem: Memory)
    requires forall p: Ptr :: Owners(t, held + [e], p) <= 1
    requires (exists s | 0 <= s < |t| :: t[s].state.Live? && t[s].item == x) || x in held
    ensures KeepsPtrs(x, mem, mem - Ptrs(e))
  {
    forall p: Ptr | p in Ptrs(e) ensures PtrIs(p)(x) == 0 {
      assert Owners(t, held + [e], p) <= 1;
      OneOwner(t, held, e, p, x);
    }
    assert KeyPtr(x).Some? ==> PtrIs(KeyPtr(x).value)(x) > 0;
    assert ValPtr(x).Some? ==> PtrIs(ValPtr(x).value)(x) > 0;
  }

  /** The writer frees the buffers of an entry it holds: nobody else's bytes change. */
  lemma FreeStore(t: seq<Slot>, mem: Memory, g: Config, held: seq<Item>, e: Item, b: Bag)
    requires Shelved(t, mem, g, held + [e], b)
    ensures Shelved(t, mem - Ptrs(e), g, held, b)
    ensures forall k | 0 <= k < |held| :: RecordOf(held[k], mem - Ptrs(e)) == RecordOf(held[k], mem)
  {
    Forget(t, mem, g, held, e, b);
    hide Chain;
    hide Good;
    hide Ptrs;
    hide KeepsPtrs;
    hide RecordOf;
    forall s | 0 <= s < |t| && t[s].state.Live? ensures KeepsPtrs(t[s].item, mem, mem - Ptrs(e)) {
      OthersKeep(t, held, e, t[s].item, mem);
    }
    forall k | 0 <= k < |held| ensures KeepsPtrs(held[k], mem, mem - Ptrs(e)) {
      OthersKeep(t, held, e, held[k], mem);
    }
    MemStore(t, mem, mem - Ptrs(e), g, held, b);
  }

  /** An entry the writer lets go of; its buffers leak. */
  lemma Forget(t: seq<Slot>, mem: Memory, g: Config, held: seq<Item>, e: Item, b: Bag)
    requires Shelved(t, mem, g, held + [e], b)
    ensures Shelved(t, mem, g, held, b)
  {
    assert forall k | 0 <= k < |held| :: (held + [e])[k] == held[k];
    hide Chain;
    hide Good;
    forall p: Ptr ensures Owners(t, held, p) <= 1 {
      assert Owners(t, held + [e], p) <= 1;
      SumSeqAppend(held, e, PtrIs(p));
    }
  }

  /** A writer may start holding an entry whose buffers nobody else refers to. */
  lemma Hold(t: seq<Slot>, mem: Memory, g: Config, e: Item, b: Bag)
    requires Shelved(t, mem, g, [], b) && Good(e, mem, g)
    requires forall p: Ptr | p in Ptrs(e) :: Sum(t, PtrIs(p)) == 0
    requires KeyPtr(e).Some? && ValPtr(e).Some? ==> KeyPtr(e) != ValPtr(e)
    ensures Shelved(t, mem, g, [e], b)
  {
    hide Chain;
    hide Good;
    hide KeyPtr;
    hide ValPtr;
    forall p: Ptr ensures Owners(t, [e], p) <= 1 {
      assert Owners(t, [], p) <= 1;
      SumSeqAppend([], e, PtrIs(p));
      assert [] + [e] == [e];
    }
  }

  // ---- shards of the sequential cache ----

  function TableBag(t: seq<Slot>, mem: Memory): Bag {
    if |t| == 0 then multiset{}
    else TableBag(t[..|t| - 1], mem) + (if t[|t| - 1].state.Live? then Bagged(RecordOf(t[|t| - 1].item, mem)) else multiset{})
  }

  lemma {:induction false} TableBagSum(t: seq<Slot>, mem: Memory, r: Record)
    ensures Sum(t, RecordIs(mem, r)) == TableBag(t, mem)[r]
  {
    hide RecordOf;
    if |t| > 0 { TableBagSum(t[..|t| - 1], mem, r); }
  }

  /** Every shard of every reachable sequential cache is shelved. */
  lemma StatesAreShelved(c: Cache, g: Config, b: Bag, i: nat)
    requires BagInv(c, g, b, []) && i < SHARDS
    ensures Shelved(c.shards[i].table, c.mem, g, [], TableBag(c.shards[i].table, c.mem))
  {
    hide Good;
    hide Arena;
    hide Stores;
    var t := c.shards[i].table;
    assert ShardOk(c.shards[i]);
    hide Chain;
    forall s | 0 <= s < |t| && t[s].state.Live? ensures Good(t[s].item, c.mem, g) { assert SlotGood(c, g, i, s); }
    forall p: Ptr ensures Owners(t, [], p) <= 1 {
      assert Refs(c, [], p) == if p in c.mem then 1 else 0;
      TotalHas(c.shards, i, PtrIs(p));
    }
    forall r: Record ensures Sum(t, RecordIs(c.mem, r)) == TableBag(t, c.mem)[r] { TableBagSum(t, c.mem, r); }
  }
}
