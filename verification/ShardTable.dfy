/** The shard and the slab allocator as objects updated in place. */
module ShardTable {
  import opened Bytes
  import opened SlabClasses
  import opened Entries
  import opened Table
  import opened Cache

  /** The slab allocator, with the memory its callers copy into. */
  class Slab {
    var free: seq<seq<Ptr>>
    var mem: Memory
    var nextId: nat

    ghost predicate Valid()
      reads this
    {
      |free| == CLASSES
    }

    constructor ()
      ensures Valid() && mem == map[] && nextId == 0
      ensures free == seq(CLASSES, k requires 0 <= k < CLASSES => ArenaList(k, ArenaBlocks(k)))
    {
      free := seq(CLASSES, k requires 0 <= k < CLASSES => ArenaList(k, ArenaBlocks(k)));
      mem, nextId := map[], 0;
    }

    /** `slab_alloc` followed by the caller's copy. */
    method Alloc(val: seq<byte>) returns (p: Option<Ptr>, cls: nat)
      requires Valid()
      modifies this
      ensures Valid() && cls == ClassFor(|val|) && nextId == old(nextId)
      ensures if old(free)[cls] == [] then p == None && free == old(free) && mem == old(mem)
              else p == Some(old(free)[cls][0]) && free == old(free)[cls := old(free)[cls][1..]]
                   && mem == old(mem)[p.value := val]
    {
      cls := SlabClassFor(|val|);
      if free[cls] == [] { return None, cls; }
      p := Some(free[cls][0]);
      free := free[cls := free[cls][1..]];
      mem := mem[p.value := val];
    }

    /** `slab_free` */
    method Free(p: Ptr, cls: nat)
      requires Valid() && cls < CLASSES
      modifies this
      ensures Valid() && nextId == old(nextId)
      ensures free == old(free)[cls := [p] + old(free)[cls]] && mem == old(mem) - {p}
    {
      free := free[cls := [p] + free[cls]];
      mem := mem - {p};
    }

    /** `entry_free_resources` */
    method FreeEntry(e: Item)
      requires Valid()
      modifies this
      ensures Valid()
      ensures forall c: Cache | c.free == old(free) && c.mem == old(mem) && c.nextId == old(nextId) ::
                Release(c, e) == c.(free := free, mem := mem, nextId := nextId)
    {
      var kp := KeyPtr(e);
      if kp.Some? { mem := mem - {kp.value}; }
      var vp := ValPtr(e);
      if vp.Some? {
        if e.valSlab {
          var cls := SlabClassFor(e.valLen);
          Free(vp.value, cls);
        } else {
          mem := mem - {vp.value};
        }
      }
    }
  }

  class ShardObject {
    const table: array<Slot>
    var count: nat
    var hand: nat
    ghost var overcount: nat

    ghost predicate Valid()
      reads this
    {
      hand < table.Length
    }

    ghost function State(): Shard
      reads this, table
    {
      Shard(table[..], count, hand, overcount)
    }

    constructor (cap: nat)
      requires cap > 0
      ensures Valid() && fresh(table)
      ensures State() == Shard(seq(cap, k requires 0 <= k < cap => EmptySlot()), 0, 0, 0)
    {
      table := new Slot[cap](k => EmptySlot());
      count, hand, overcount := 0, 0, 0;
      new;
      assert table[..] == seq(cap, k requires 0 <= k < cap => EmptySlot());
    }

    /** `_shard_find` */
    method FindSlot(mem: Memory, key: seq<byte>, hash: nat, now: int) returns (r: Option<nat>)
      requires Valid()
      ensures r == Find(table[..], mem, key, hash, now)
    {
      var cap := table.Length;
      var slot := Home(hash, cap);
      var i := 0;
      while i < cap
        invariant 0 <= i <= cap && slot == At(Home(hash, cap), i, cap)
        invariant FindFrom(table[..], mem, key, hash, now, i) == Find(table[..], mem, key, hash, now)
      {
        var e := table[slot];
        assert table[..][slot] == e;
        if e.state.Empty? { return None; }
        if e.state.Live? && e.item.keyHash == hash && e.item.keyLen == |key| {
          if KeyBytes(e.item, mem) == Some(key) {
            if Expired(e.item.expireNs, now) { return None; }
            return Some(slot);
          }
        }
        slot := Next(slot, cap);
        i := i + 1;
      }
      return None;
    }

    /** `_shard_evict_one` */
    method EvictOne(sl: Slab) returns (victim: Option<nat>)
      requires Valid() && sl.Valid()
      modifies this, table, sl
      ensures Valid() && sl.Valid() && overcount == old(overcount)
      ensures Evict(old(table[..]), old(hand)) == (table[..], victim)
      ensures victim.None? ==> count == old(count) && hand == old(hand)
                               && sl.free == old(sl.free) && sl.mem == old(sl.mem) && sl.nextId == old(sl.nextId)
      ensures victim.Some? ==> count == U32(old(count) - 1) && hand == victim.value
                               && forall c: Cache | c.free == old(sl.free) && c.mem == old(sl.mem) && c.nextId == old(sl.nextId) ::
                                    Release(c, old(table[..])[victim.value].item) == c.(free := sl.free, mem := sl.mem, nextId := sl.nextId)
    {
      var cap := table.Length;
      var h: nat := hand;
      var i := 0;
      while i < cap
        invariant 0 <= i <= cap && h < cap
        invariant count == old(count) && hand == old(hand) && overcount == old(overcount)
        invariant sl.free == old(sl.free) && sl.mem == old(sl.mem) && sl.nextId == old(sl.nextId)
        invariant Sweep(table[..], h, i) == Evict(old(table[..]), old(hand))
        invariant forall k | 0 <= k < cap :: table[k].item == old(table[k].item)
      {
        h := Next(h, cap);
        i := i + 1;
        var e := table[h];
        ghost var before := table[..];
        assert before[h] == e;
        if e.state.Live? {
          if e.clock {
            table[h] := e.(clock := false);
            assert table[..] == before[h := e.(clock := false)];
          } else {
            table[h] := e.(state := Busy);
            sl.FreeEntry(e.item);
            table[h] := e.(state := Dead);
            assert table[..] == before[h := e.(state := Dead)];
            count := U32(count - 1);
            hand := h;
            return Some(h);
          }
        }
      }
      return None;
    }

    /** `_shard_insert`; `lost` is the entry still carried when the loop ends. */
    method Insert(incoming: Item) returns (ghost lost: Option<Item>)
      requires Valid()
      modifies table
      ensures Table.Insert(old(table[..]), incoming) == (table[..], lost)
    {
      var cap := table.Length;
      var slot: nat := Home(incoming.keyHash, cap);
      var e, dist: nat := incoming, 0;
      var i := 0;
      while i < cap
        invariant 0 <= i <= cap && slot < cap
        invariant Place(table[..], e, dist, slot, i) == Table.Insert(old(table[..]), incoming)
      {
        var x := table[slot];
        ghost var before := table[..];
        assert before[slot] == x;
        if x.state.Empty? || x.state.Dead? {
          table[slot] := x.(state := Busy);
          table[slot] := Slot(Live, true, dist, e);
          assert table[..] == before[slot := Filled(e, dist)];
          return None;
        }
        if x.state.Live? && x.dist < dist {
          table[slot] := x.(state := Busy);
          table[slot] := Slot(Live, true, dist, e);
          assert table[..] == before[slot := Filled(e, dist)];
          e, dist := x.item, x.dist;
        }
        dist := (dist + 1) % 256;
        slot := Next(slot, cap);
        i := i + 1;
      }
      return Some(e);
    }
  }
}
