/** The cache as an object: every operation does to the state what its function says. */
module CacheObject {
  import opened Bytes
  import opened SlabClasses
  import opened Entries
  import opened Table
  import opened Cache
  import opened ShardTable
  import W = Wal

  lemma InvalidSet(c: Cache, hf: HashFn, key: seq<byte>, val: seq<byte>, ttl: nat, env: Env)
    requires Shape(c) && !ValidSet(key, val)
    ensures Set(c, hf, key, val, ttl, env) == Outcome(c, Invalid, None, None)
  {
  }

  class CacheHandle {
    const shards: seq<ShardObject>
    const slab: Slab
    const hash: HashFn
    /** The log, if the cache has one, and its checksum. */
    const wal: W.WalRing?
    const sum: W.Checksum
    ghost var leaked: seq<Item>

    ghost function Tables(): set<object> {
      set i | 0 <= i < |shards| :: shards[i].table
    }

    ghost predicate Valid()
      reads this, slab, shards
    {
      && |shards| == SHARDS && slab.Valid()
      && (forall i | 0 <= i < SHARDS :: shards[i].Valid())
      && (forall i, j | 0 <= i < j < SHARDS :: shards[i] != shards[j] && shards[i].table != shards[j].table)
    }

    ghost function Model(): (c: Cache)
      requires Valid()
      reads this, slab, shards, Tables()
      ensures Shape(c)
    {
      Cache(
        seq(SHARDS, i requires 0 <= i < SHARDS && |shards| == SHARDS reads shards, Tables() => shards[i].State()),
        slab.free, slab.mem, slab.nextId, leaked)
    }

    /** The record can be logged: it fits the ring, or there is none. */
    ghost predicate CanLog(r: W.Record)
      reads wal
    {
      wal != null ==> wal.InBounds() && W.Total(r) <= wal.ring.Length
    }

    /** The log holds `r` behind what it held before. */
    twostate predicate Logged(r: W.Record, ts: nat)
      reads wal, if wal != null then {wal.ring} else {}
      requires old(CanLog(r))
    {
      wal != null ==> wal.InBounds() && wal.State() == W.Append(old(wal.State()), r, ts, sum)
    }

    method Log(r: W.Record, ts: nat)
      requires CanLog(r)
      modifies wal, if wal != null then {wal.ring} else {}
      ensures Logged(r, ts)
    {
      if wal != null { wal.AppendRecord(r, ts, sum); }
    }

    /** `vc_create` */
    constructor (cap: nat, hash: HashFn, wal: W.WalRing?, sum: W.Checksum)
      requires cap > 0
      ensures Valid() && this.hash == hash && this.wal == wal && this.sum == sum && Model() == Create(cap)
    {
      var s := new Slab();
      var made: seq<ShardObject> := [];
      for i := 0 to SHARDS
        invariant |made| == i && fresh(made) && fresh(s) && s.Valid()
        invariant s.mem == map[] && s.nextId == 0
        invariant s.free == seq(CLASSES, k requires 0 <= k < CLASSES => ArenaList(k, ArenaBlocks(k)))
        invariant forall k | 0 <= k < i :: made[k].Valid() && fresh(made[k].table) && allocated(made[k].table)
        invariant forall k | 0 <= k < i ::
                    made[k].State() == Shard(seq(cap, k requires 0 <= k < cap => EmptySlot()), 0, 0, 0)
        invariant forall j, k | 0 <= j < k < i :: made[j] != made[k] && made[j].table != made[k].table
      {
        var sh := new ShardObject(cap);
        made := made + [sh];
      }
      shards, slab, this.hash, this.wal, this.sum, leaked := made, s, hash, wal, sum, [];
      new;
      assert Model().shards == Create(cap).shards;
    }

    /** The buffers for a new entry, or `None` when an allocation fails. */
    method AllocateBuffers(key: seq<byte>, val: seq<byte>, env: Env) returns (b: Option<(Ptr, Ptr)>)
      requires Valid()
      modifies slab
      ensures Valid()
      ensures match Allocate(old(Model()), key, val, env)
              case Refused(c) => b == None && Model() == c
              case Buffers(c, vp, kp) => b == Some((vp, kp)) && Model() == c
    {
      var l := LayoutOf(|key|, |val|);
      var kp := Heap(slab.nextId);
      if l.Inline? { return Some((kp, kp)); }
      if l.LongKeyMmap? {
        if !env.mmapOk || !env.mallocOk { return None; }
        var vp := Region(slab.nextId);
        slab.mem, slab.nextId := slab.mem[vp := val][kp := key], slab.nextId + 1;
        return Some((vp, kp));
      }
      var p, cls := slab.Alloc(val);
      if p.None? { return None; }
      if l.LongKeySlab? {
        if !env.mallocOk {
          slab.Free(p.value, cls);
          assert [p.value] + old(slab.free)[cls][1..] == old(slab.free)[cls];
          assert slab.free == old(slab.free) && slab.mem == old(slab.mem) - {p.value};
          return None;
        }
        slab.mem, slab.nextId := slab.mem[kp := key], slab.nextId + 1;
      }
      return Some((p.value, kp));
    }

    /** A LIVE entry is freed and becomes a tombstone. */
    method KillSlot(i: nat, s: nat)
      requires Valid() && i < SHARDS && s < shards[i].table.Length
      modifies shards[i], shards[i].table, slab
      ensures Valid() && Model() == Kill(old(Model()), i, s)
    {
      var sh := shards[i];
      var e := sh.table[s];
      slab.FreeEntry(e.item);
      sh.table[s] := e.(state := Dead);
      sh.count := U32(sh.count - 1);
      assert sh.table[..] == old(sh.table[..])[s := e.(state := Dead)];
      assert Model().shards == Detach(old(Model()), i, s).shards;
    }

    method RemoveOldEntry(i: nat, key: seq<byte>, h: nat, now: int)
      requires Valid() && i < SHARDS
      modifies shards[i], shards[i].table, slab
      ensures Valid() && Model() == RemoveOld(old(Model()), i, key, h, now)
    {
      var f := shards[i].FindSlot(slab.mem, key, h, now);
      assert Model().shards[i].table == shards[i].table[..];
      if f.Some? { KillSlot(i, f.value); }
    }

    method MakeRoom(i: nat) returns (ghost evicted: Option<Item>)
      requires Valid() && i < SHARDS
      modifies shards[i], shards[i].table, slab
      ensures Valid() && EvictIfFull(old(Model()), i) == (Model(), evicted)
    {
      var sh := shards[i];
      evicted := None;
      if U32(sh.count * 100) / sh.table.Length >= 85 {
        var v := sh.EvictOne(slab);
        if v.Some? { evicted := Some(old(sh.table[..])[v.value].item); }
        assert Model().shards == old(Model()).shards[i := sh.State()];
      }
    }

    method InsertEntry(i: nat, e: Item) returns (ghost lost: Option<Item>)
      requires Valid() && i < SHARDS
      modifies this`leaked, shards[i], shards[i].table
      ensures Valid() && Attach(old(Model()), i, e) == (Model(), lost)
    {
      var sh := shards[i];
      lost := sh.Insert(e);
      sh.count := U32(sh.count + 1);
      sh.overcount := sh.overcount + if lost.Some? then 1 else 0;
      leaked := leaked + if lost.Some? then [lost.value] else [];
      assert Model().shards == Attach(old(Model()), i, e).0.shards;
    }

    /** `vc_set` once the call is logged. */
    method StoreValue(key: seq<byte>, val: seq<byte>, ttl: nat, env: Env) returns (reply: Reply)
      requires Valid() && ValidSet(key, val)
      modifies this, slab, shards, Tables()
      ensures Valid()
      ensures var o := Set(old(Model()), hash, key, val, ttl, env);
              Model() == o.cache && reply == o.reply
    {
      var h := HashOf(hash, key);
      var i := ShardIdx(h);
      var b := AllocateBuffers(key, val, env);
      if b.None? { return OutOfMemory; }
      var e := MakeItem(key, val, h, ExpiryOf(ttl, env.now), b.value.0, b.value.1);
      RemoveOldEntry(i, key, h, env.now);
      ghost var evicted := MakeRoom(i);
      ghost var lost := InsertEntry(i, e);
      return Done;
    }

    /** `vc_set`; `ts` is the wall clock of the log record. */
    method SetValue(key: seq<byte>, val: seq<byte>, ttl: nat, env: Env, ts: nat) returns (reply: Reply)
      requires Valid() && CanLog(W.Record(W.OP_SET, key, val, ttl))
      modifies this, slab, shards, Tables(), wal, if wal != null then {wal.ring} else {}
      ensures Valid()
      ensures if ValidSet(key, val) then Logged(W.Record(W.OP_SET, key, val, ttl), ts)
              else wal != null ==> wal.State() == old(wal.State())
      ensures var o := Set(old(Model()), hash, key, val, ttl, env);
              Model() == o.cache && reply == o.reply
    {
      hide Set;
      hide W.Append;
      if |key| == 0 || |val| == 0 || |key| >= TWO_32 {
        InvalidSet(Model(), hash, key, val, ttl, env);
        return Invalid;
      }
      Log(W.Record(W.OP_SET, key, val, ttl), ts);
      reply := StoreValue(key, val, ttl, env);
    }

    /** `vc_get`, the locked path: both paths read the same entry when no call overlaps. */
    method GetValue(key: seq<byte>, now: int) returns (reply: Reply)
      requires Valid()
      modifies shards, Tables()
      ensures Valid()
      ensures var o := Get(old(Model()), hash, key, now);
              Model() == o.cache && reply == o.reply
    {
      var h := HashOf(hash, key);
      var i := ShardIdx(h);
      var sh := shards[i];
      var f := sh.FindSlot(slab.mem, key, h, now);
      assert Model().shards[i].table == sh.table[..];
      if f.None? { return NotFound; }
      var e := sh.table[f.value];
      var v := ValBytes(e.item, slab.mem);
      sh.table[f.value] := e.(clock := true);
      assert sh.table[..] == old(sh.table[..])[f.value := e.(clock := true)];
      assert Model().shards == Touch(old(Model()), i, f.value).shards;
      return if v.Some? then Value(v.value) else Invalid;
    }

    /** `vc_del` once the call is logged. */
    method RemoveKey(key: seq<byte>, now: int) returns (reply: Reply)
      requires Valid()
      modifies shards, Tables(), slab
      ensures Valid()
      ensures var o := Del(old(Model()), hash, key, now);
              Model() == o.cache && reply == o.reply
    {
      var h := HashOf(hash, key);
      var i := ShardIdx(h);
      var f := shards[i].FindSlot(slab.mem, key, h, now);
      assert Model().shards[i].table == shards[i].table[..];
      if f.None? { return NotFound; }
      KillSlot(i, f.value);
      return Done;
    }

    /** `vc_del` */
    method DeleteKey(key: seq<byte>, now: int, ts: nat) returns (reply: Reply)
      requires Valid() && CanLog(W.Record(W.OP_DEL, key, [], 0))
      modifies shards, Tables(), slab, wal, if wal != null then {wal.ring} else {}
      ensures Valid() && Logged(W.Record(W.OP_DEL, key, [], 0), ts)
      ensures var o := Del(old(Model()), hash, key, now);
              Model() == o.cache && reply == o.reply
    {
      hide Del;
      hide W.Append;
      Log(W.Record(W.OP_DEL, key, [], 0), ts);
      reply := RemoveKey(key, now);
    }

    method FlushOne(i: nat)
      requires Valid() && i < SHARDS
      modifies shards[i], shards[i].table, slab
      ensures Valid() && Model() == FlushShard(old(Model()), i, 0)
    {
      var sh := shards[i];
      var j := 0;
      while j < sh.table.Length
        invariant 0 <= j <= sh.table.Length && Valid()
        invariant FlushShard(Model(), i, j) == FlushShard(old(Model()), i, 0)
      {
        assert Model().shards[i].table[j] == sh.table[j];
        if sh.table[j].state.Live? { KillSlot(i, j); }
        j := j + 1;
      }
      ResetCount(i);
    }

    method ResetCount(i: nat)
      requires Valid() && i < SHARDS
      modifies shards[i]
      ensures Valid()
      ensures Model() == old(Model()).(shards := old(Model()).shards[i := old(Model()).shards[i].(count := 0, overcount := 0)])
    {
      shards[i].count, shards[i].overcount := 0, 0;
      assert Model().shards == old(Model()).shards[i := shards[i].State()];
    }

    /** `vc_flush` */
    method FlushAll()
      requires Valid()
      modifies this, slab, shards, Tables()
      ensures Valid() && Model() == Flush(old(Model()))
    {
      var i := 0;
      while i < SHARDS
        invariant 0 <= i <= SHARDS && Valid()
        invariant FlushFrom(Model(), i) == Flush(old(Model()))
      {
        FlushOne(i);
        i := i + 1;
      }
    }

    /** `vc_stats`: the number of keys. */
    method CountKeys() returns (total: nat)
      requires Valid()
      ensures total == TotalKeys(Model().shards)
    {
      total := 0;
      var i := 0;
      ghost var all := Model().shards;
      while i < SHARDS
        invariant 0 <= i <= SHARDS && total == TotalKeys(all[..i])
      {
        assert all[..i + 1][..i] == all[..i];
        total := total + shards[i].count;
        i := i + 1;
      }
      assert all[..SHARDS] == all;
    }
  }
}
