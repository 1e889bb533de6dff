/**
 * The sequential cache: 64 shards over one slab allocator.  Each operation is a
 * function from the state before the call to the state after it.
 */
module Cache {
  import opened Bytes
  import opened SlabClasses
  import opened Entries
  import opened Table

  const SHARDS: nat := 64
  const TWO_58: nat := 0x400_0000_0000_0000
  const SECOND: nat := 1_000_000_000

  /** The 64-bit hash is any function of the key. */
  type HashFn = seq<byte> -> nat

  /**
   * `overcount` is a history variable: how many entries insertion has given up on
   * since the last flush, each of which `count` still counts.
   */
  datatype Shard = Shard(table: seq<Slot>, count: nat, hand: nat, overcount: nat)

  /**
   * `free` holds the free list of each slab class, top first.  `nextId` names the
   * next `malloc` or `mmap` result.  `leaked` is a history variable: the entries
   * insertion has given up on.
   */
  datatype Cache = Cache(
    shards: seq<Shard>, free: seq<seq<Ptr>>, mem: Memory, nextId: nat, leaked: seq<Item>)

  predicate Shape(c: Cache) {
    && |c.shards| == SHARDS && |c.free| == CLASSES
    && forall i | 0 <= i < SHARDS :: c.shards[i].hand < |c.shards[i].table|
  }

  function HashOf(hf: HashFn, key: seq<byte>): (h: nat)
    ensures h < TWO_64
  {
    hf(key) % TWO_64
  }

  /** `shard_idx`: the top six bits. */
  function ShardIdx(h: nat): (i: nat)
    ensures h < TWO_64 ==> i < SHARDS
  {
    h / TWO_58
  }

  /** The shard of a hash is its top six bits. */
  lemma ShardIsTop(h: nat)
    requires h < 0x1_0000_0000_0000_0000
    ensures var i := ShardIdx(h); i < 64 && i * 0x400_0000_0000_0000 <= h < (i + 1) * 0x400_0000_0000_0000
  {
  }

  // ---- vc_create ----

  function EmptySlot(): Slot {
    Slot(Empty, false, 0, Item(false, false, false, 0, 0, 0, 0, Pad([])))
  }

  /** How many blocks the 16 MiB arena of a class holds. */
  function ArenaBlocks(cls: nat): nat
    requires cls < CLASSES
  {
    8 * Pow2(CLASSES - 1 - cls)
  }

  lemma Twice(x: nat, y: nat)
    ensures (2 * x) * y == 2 * (x * y)
  {
  }

  lemma {:induction false} Pow2Adds(a: nat, b: nat)
    ensures Pow2(a) * Pow2(b) == Pow2(a + b)
  {
    if a > 0 {
      Pow2Adds(a - 1, b);
      Twice(Pow2(a - 1), Pow2(b));
    }
  }

  /** The blocks of each class fill its arena exactly. */
  lemma ArenaBlocksFillArena(cls: nat)
    requires cls < CLASSES
    ensures ArenaBlocks(cls) * ClassSize(cls) == ARENA
  {
    Pow2Adds(CLASSES - 1 - cls, cls);
    ClassSizes();
    assert ArenaBlocks(cls) * ClassSize(cls) == 8 * BASE * (Pow2(CLASSES - 1 - cls) * Pow2(cls));
  }

  function ArenaList(cls: nat, n: nat): (s: seq<Ptr>)
    ensures |s| == n
  {
    seq(n, k requires 0 <= k < n => Block(cls, k))
  }

  function Create(cap: nat): (c: Cache)
    requires cap > 0
    ensures Shape(c)
  {
    var table := seq(cap, k requires 0 <= k < cap => EmptySlot());
    Cache(
      seq(SHARDS, i requires 0 <= i < SHARDS => Shard(table, 0, 0, 0)),
      seq(CLASSES, k requires 0 <= k < CLASSES => ArenaList(k, ArenaBlocks(k))),
      map[], 0, [])
  }

  // ---- resources of one entry ----

  /** `entry_free_resources` */
  function Release(c: Cache, e: Item): (r: Cache)
    requires |c.free| == CLASSES
    ensures r.shards == c.shards && |r.free| == CLASSES && r.leaked == c.leaked && r.nextId == c.nextId
  {
    var kp := if KeyPtr(e).Some? then {KeyPtr(e).value} else {};
    var vp := if ValPtr(e).Some? then {ValPtr(e).value} else {};
    var cls := ClassFor(e.valLen);
    c.(mem := c.mem - kp - vp,
       free := if e.valSlab && ValPtr(e).Some?
               then c.free[cls := [ValPtr(e).value] + c.free[cls]] else c.free)
  }

  /** The outcome of the allocations `vc_set` makes before it takes the lock. */
  datatype Buffers = Refused(cache: Cache) | Buffers(cache: Cache, vp: Ptr, kp: Ptr)

  datatype Env = Env(now: int, mallocOk: bool, mmapOk: bool)

  function Allocate(c: Cache, key: seq<byte>, val: seq<byte>, env: Env): (b: Buffers)
    requires |c.free| == CLASSES
    ensures b.cache.shards == c.shards && |b.cache.free| == CLASSES && b.cache.leaked == c.leaked
  {
    var l := LayoutOf(|key|, |val|);
    var cls := ClassFor(|val|);
    var kp := Heap(c.nextId);
    if l.Inline? then Buffers(c, kp, kp)
    else if l.LongKeyMmap? then
      if !env.mmapOk || !env.mallocOk then Refused(c)
      else
        var vp := Region(c.nextId);
        Buffers(c.(mem := c.mem[vp := val][kp := key], nextId := c.nextId + 1), vp, kp)
    else if c.free[cls] == [] then Refused(c)
    else
      var vp := c.free[cls][0];
      var popped := c.(free := c.free[cls := c.free[cls][1..]], mem := c.mem[vp := val]);
      if l.ShortKeySlab? then Buffers(popped, vp, kp)
      else if !env.mallocOk then Refused(c.(mem := c.mem - {vp}))   // the block goes back on top of its list
      else Buffers(popped.(mem := popped.mem[kp := key], nextId := c.nextId + 1), vp, kp)
  }

  // ---- steps under the shard lock ----

  function Detach(c: Cache, i: nat, s: nat): (r: Cache)
    requires Shape(c) && i < SHARDS && s < |c.shards[i].table|
    ensures Shape(r)
  {
    var sh := c.shards[i];
    c.(shards := c.shards[i := sh.(table := sh.table[s := sh.table[s].(state := Dead)], count := U32(sh.count - 1))])
  }

  function Kill(c: Cache, i: nat, s: nat): (r: Cache)
    requires Shape(c) && i < SHARDS && s < |c.shards[i].table|
    ensures Shape(r)
  {
    Release(Detach(c, i, s), c.shards[i].table[s].item)
  }

  function RemoveOld(c: Cache, i: nat, key: seq<byte>, h: nat, now: int): (r: Cache)
    requires Shape(c) && i < SHARDS
    ensures Shape(r)
  {
    var f := Find(c.shards[i].table, c.mem, key, h, now);
    if f.Some? then Kill(c, i, f.value) else c
  }

  /** The 32-bit test `cnt * 100 / cap >= 85`. */
  predicate OverThreshold(count: nat, cap: nat)
    requires cap > 0
  {
    U32(count * 100) / cap >= 85
  }

  /** The table after a sweep, before the victim's resources are freed. */
  function SweepShard(c: Cache, i: nat): (r: (Cache, Option<Item>))
    requires Shape(c) && i < SHARDS
    ensures Shape(r.0)
  {
    var sh := c.shards[i];
    var (u, v) := Evict(sh.table, sh.hand);
    if v.Some? then
      (c.(shards := c.shards[i := sh.(table := u, count := U32(sh.count - 1), hand := v.value)]), Some(sh.table[v.value].item))
    else
      (c.(shards := c.shards[i := sh.(table := u)]), None)
  }

  function EvictIfFull(c: Cache, i: nat): (r: (Cache, Option<Item>))
    requires Shape(c) && i < SHARDS
    ensures Shape(r.0)
  {
    if !OverThreshold(c.shards[i].count, |c.shards[i].table|) then (c, None)
    else
      var (d, v) := SweepShard(c, i);
      (if v.Some? then Release(d, v.value) else d, v)
  }

  function Attach(c: Cache, i: nat, e: Item): (r: (Cache, Option<Item>))
    requires Shape(c) && i < SHARDS
    ensures Shape(r.0)
  {
    var sh := c.shards[i];
    var (u, o) := Insert(sh.table, e);
    var sh' := sh.(table := u, count := U32(sh.count + 1), overcount := sh.overcount + if o.Some? then 1 else 0);
    (c.(shards := c.shards[i := sh'], leaked := c.leaked + if o.Some? then [o.value] else []), o)
  }

  // ---- the public operations ----

  datatype Reply = Done | Value(bytes: seq<byte>) | NotFound | Invalid | OutOfMemory

  /** `evicted` and `dropped` are the keys a set pushed out. */
  datatype Outcome = Outcome(cache: Cache, reply: Reply, evicted: Option<seq<byte>>, dropped: Option<seq<byte>>)

  function KeyIn(o: Option<Item>, mem: Memory): Option<seq<byte>> {
    if o.Some? then KeyBytes(o.value, mem) else None
  }

  function ExpiryOf(ttl: nat, now: int): int {
    if ttl == 0 then 0 else now + ttl * SECOND
  }

  predicate ValidSet(key: seq<byte>, val: seq<byte>) {
    0 < |key| < TWO_32 && 0 < |val|
  }

  /** What `vc_set` does between taking and releasing the shard lock. */
  function StoreLocked(c: Cache, i: nat, key: seq<byte>, h: nat, now: int, e: Item): (o: Outcome)
    requires Shape(c) && i < SHARDS
    ensures Shape(o.cache)
  {
    var c1 := RemoveOld(c, i, key, h, now);
    var (c2, evicted) := EvictIfFull(c1, i);
    var (c3, dropped) := Attach(c2, i, e);
    Outcome(c3, Done, KeyIn(evicted, c1.mem), KeyIn(dropped, c2.mem))
  }

  function Set(c: Cache, hf: HashFn, key: seq<byte>, val: seq<byte>, ttl: nat, env: Env): (o: Outcome)
    requires Shape(c)
    ensures Shape(o.cache)
  {
    if !ValidSet(key, val) then Outcome(c, Invalid, None, None)
    else
      var h := HashOf(hf, key);
      var b := Allocate(c, key, val, env);
      if b.Refused? then Outcome(b.cache, OutOfMemory, None, None)
      else StoreLocked(b.cache, ShardIdx(h), key, h, env.now,
                       MakeItem(key, val, h, ExpiryOf(ttl, env.now), b.vp, b.kp))
  }

  function Touch(c: Cache, i: nat, s: nat): (r: Cache)
    requires Shape(c) && i < SHARDS && s < |c.shards[i].table|
    ensures Shape(r)
  {
    var sh := c.shards[i];
    c.(shards := c.shards[i := sh.(table := sh.table[s := sh.table[s].(clock := true)])])
  }

  function Get(c: Cache, hf: HashFn, key: seq<byte>, now: int): (o: Outcome)
    requires Shape(c)
    ensures Shape(o.cache)
  {
    var h := HashOf(hf, key);
    var i := ShardIdx(h);
    var f := Find(c.shards[i].table, c.mem, key, h, now);
    if f.None? then Outcome(c, NotFound, None, None)
    else
      var v := ValBytes(c.shards[i].table[f.value].item, c.mem);
      Outcome(Touch(c, i, f.value), if v.Some? then Value(v.value) else Invalid, None, None)
  }

  function Del(c: Cache, hf: HashFn, key: seq<byte>, now: int): (o: Outcome)
    requires Shape(c)
    ensures Shape(o.cache)
  {
    var h := HashOf(hf, key);
    var i := ShardIdx(h);
    var f := Find(c.shards[i].table, c.mem, key, h, now);
    if f.None? then Outcome(c, NotFound, None, None)
    else Outcome(Kill(c, i, f.value), Done, None, None)
  }

  /** `vc_flush` on shard `i` from slot `j`; `count` is reset once the slots are done. */
  function FlushShard(c: Cache, i: nat, j: nat): (r: Cache)
    requires Shape(c) && i < SHARDS && j <= |c.shards[i].table|
    ensures Shape(r)
    decreases |c.shards[i].table| - j
  {
    if j == |c.shards[i].table| then
      c.(shards := c.shards[i := c.shards[i].(count := 0, overcount := 0)])
    else if c.shards[i].table[j].state.Live? then FlushShard(Kill(c, i, j), i, j + 1)
    else FlushShard(c, i, j + 1)
  }

  function FlushFrom(c: Cache, i: nat): (r: Cache)
    requires Shape(c) && i <= SHARDS
    ensures Shape(r)
    decreases SHARDS - i
  {
    if i == SHARDS then c else FlushFrom(FlushShard(c, i, 0), i + 1)
  }

  function Flush(c: Cache): (r: Cache)
    requires Shape(c)
    ensures Shape(r)
  {
    FlushFrom(c, 0)
  }

  /** `vc_stats`: the total of the shard counters. */
  function TotalKeys(shards: seq<Shard>): nat {
    if |shards| == 0 then 0 else TotalKeys(shards[..|shards| - 1]) + shards[|shards| - 1].count
  }
}
