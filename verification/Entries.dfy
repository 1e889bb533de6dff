/**
 * The table entry of a shard: a 32-byte payload that holds the key and the value
 * inline, or pointers to them.  A payload cell is a byte or the k-th byte of a
 * pointer, so a pointer can only be read back whole.
 */
module Entries {
  import opened Bytes
  import opened SlabClasses

  /** A slab block of an arena, a `malloc`ed key or an `mmap`ed value. */
  datatype Ptr = Block(cls: nat, index: nat) | Heap(id: nat) | Region(id: nat)

  /** The allocated blocks and what was last copied into each. */
  type Memory = map<Ptr, seq<byte>>

  datatype Cell = Raw(b: byte) | Frag(p: Ptr, k: nat)

  datatype Item = Item(
    keyLong: bool, valSlab: bool, valMmap: bool,
    valLen: nat, keyLen: nat, keyHash: nat, expireNs: int,
    payload: seq<Cell>)

  const PAYLOAD: nat := 32
  const PTR_SIZE: nat := 8

  function StorePtr(p: Ptr): (s: seq<Cell>)
    ensures |s| == PTR_SIZE
  {
    seq(PTR_SIZE, k requires 0 <= k < PTR_SIZE => Frag(p, k))
  }

  function LoadPtr(s: seq<Cell>, off: nat): Option<Ptr> {
    if off + PTR_SIZE <= |s| && s[off].Frag? && s[off..off + PTR_SIZE] == StorePtr(s[off].p)
    then Some(s[off].p) else None
  }

  function StoreBytes(bs: seq<byte>): (s: seq<Cell>)
    ensures |s| == |bs|
  {
    seq(|bs|, i requires 0 <= i < |bs| => Raw(bs[i]))
  }

  function CellByte(c: Cell): byte {
    if c.Raw? then c.b else 0
  }

  function LoadBytes(s: seq<Cell>, off: nat, n: nat): Option<seq<byte>> {
    if off + n <= |s| && forall i | off <= i < off + n :: s[i].Raw?
    then Some(seq<byte>(n, i requires 0 <= i < n && off + n <= |s| => CellByte(s[off + i]))) else None
  }

  function ReadMem(mem: Memory, p: Option<Ptr>, n: nat): Option<seq<byte>> {
    if p.Some? && p.value in mem && n <= |mem[p.value]| then Some(mem[p.value][..n]) else None
  }

  function KeyPtr(e: Item): Option<Ptr> {
    if e.keyLong then LoadPtr(e.payload, 0) else None
  }

  function ValPtr(e: Item): Option<Ptr> {
    if e.valSlab || e.valMmap then
      LoadPtr(e.payload, if e.keyLong then PTR_SIZE else e.keyLen)
    else None
  }

  /** The bytes `entry_key` leads to. */
  function KeyBytes(e: Item, mem: Memory): Option<seq<byte>> {
    if e.keyLong then ReadMem(mem, KeyPtr(e), e.keyLen) else LoadBytes(e.payload, 0, e.keyLen)
  }

  /** The bytes `entry_val` leads to, `val_len` of them. */
  function ValBytes(e: Item, mem: Memory): Option<seq<byte>> {
    if e.valSlab || e.valMmap then ReadMem(mem, ValPtr(e), e.valLen)
    else LoadBytes(e.payload, e.keyLen, e.valLen)
  }

  /** `key_hash`, `key_len` and `memcmp` all agree. */
  predicate Matches(e: Item, mem: Memory, key: seq<byte>, hash: nat) {
    e.keyHash == hash && e.keyLen == |key| && KeyBytes(e, mem) == Some(key)
  }

  predicate Expired(expireNs: int, now: int) {
    expireNs != 0 && now > expireNs
  }

  function Clamp(val: seq<byte>): seq<byte> {
    val[..ClampLen(|val|)]
  }

  lemma ClampIs(val: seq<byte>)
    ensures Clamp(val) == if |val| <= 65535 then val else val[..65535]
  {
  }

  /** The branch `vc_set` takes to lay out an entry. */
  datatype Layout = Inline | ShortKeySlab | LongKeySlab | LongKeyMmap

  function LayoutOf(keyLen: nat, valLen: nat): Layout {
    if keyLen + valLen <= PAYLOAD then Inline
    else if valLen <= ClassSize(CLASSES - 1) then
      if keyLen <= PAYLOAD - PTR_SIZE then ShortKeySlab else LongKeySlab
    else LongKeyMmap
  }

  function Pad(s: seq<Cell>): seq<Cell>
    requires |s| <= PAYLOAD
  {
    s + seq(PAYLOAD - |s|, i => Raw(0))
  }

  /** The entry `vc_set` builds; `vp` and `kp` are the buffers it allocated. */
  function MakeItem(key: seq<byte>, val: seq<byte>, hash: nat, expireNs: int, vp: Ptr, kp: Ptr): Item {
    var l := LayoutOf(|key|, |val|);
    Item(l.LongKeySlab? || l.LongKeyMmap?, l.ShortKeySlab? || l.LongKeySlab?, l.LongKeyMmap?,
         ClampLen(|val|), |key|, hash, expireNs,
         match l
         case Inline => Pad(StoreBytes(key) + StoreBytes(val))
         case ShortKeySlab => Pad(StoreBytes(key) + StorePtr(vp))
         case LongKeySlab => Pad(StorePtr(kp) + StorePtr(vp))
         case LongKeyMmap => Pad(StorePtr(kp) + StorePtr(vp)))
  }

  lemma LoadStoredPtr(a: seq<Cell>, p: Ptr, b: seq<Cell>)
    ensures LoadPtr(a + StorePtr(p) + b, |a|) == Some(p)
  {
    var s := a + StorePtr(p) + b;
    assert s[|a|] == StorePtr(p)[0];
    assert s[|a|..|a| + PTR_SIZE] == StorePtr(p);
  }

  lemma LoadStoredBytes(a: seq<Cell>, bs: seq<byte>, b: seq<Cell>, n: nat)
    requires n <= |bs|
    ensures LoadBytes(a + StoreBytes(bs) + b, |a|, n) == Some(bs[..n])
  {
    var s := a + StoreBytes(bs) + b;
    assert forall i | 0 <= i < n :: s[|a| + i] == Raw(bs[i]);
    assert forall i | |a| <= i < |a| + n :: s[i] == s[|a| + (i - |a|)];
    var r := LoadBytes(s, |a|, n).value;
    assert |r| == n && forall i | 0 <= i < n :: r[i] == CellByte(s[|a| + i]);
    assert r == bs[..n];
  }

  /** Each layout holds exactly the pointers that were allocated for it. */
  lemma MakeItemPtrs(key: seq<byte>, val: seq<byte>, hash: nat, expireNs: int, vp: Ptr, kp: Ptr)
    ensures var e := MakeItem(key, val, hash, expireNs, vp, kp);
            var l := LayoutOf(|key|, |val|);
            && KeyPtr(e) == (if l.LongKeySlab? || l.LongKeyMmap? then Some(kp) else None)
            && ValPtr(e) == (if l.Inline? then None else Some(vp))
  {
    var e := MakeItem(key, val, hash, expireNs, vp, kp);
    match LayoutOf(|key|, |val|)
    case Inline =>
    case ShortKeySlab =>
      var head := StoreBytes(key) + StorePtr(vp);
      assert e.payload == StoreBytes(key) + StorePtr(vp) + e.payload[|head|..];
      LoadStoredPtr(StoreBytes(key), vp, e.payload[|head|..]);
    case _ =>
      var tail := e.payload[2 * PTR_SIZE..];
      assert e.payload == [] + StorePtr(kp) + (StorePtr(vp) + tail);
      LoadStoredPtr([], kp, StorePtr(vp) + tail);
      assert e.payload == StorePtr(kp) + StorePtr(vp) + tail;
      LoadStoredPtr(StorePtr(kp), vp, tail);
  }

  /**
   * Reading an entry back gives its key and the first 65535 bytes of its value,
   * in every layout.
   */
  lemma LayoutRoundTrip(key: seq<byte>, val: seq<byte>, hash: nat, expireNs: int, vp: Ptr, kp: Ptr, mem: Memory)
    requires !LayoutOf(|key|, |val|).Inline? ==> vp in mem && mem[vp] == val
    requires LayoutOf(|key|, |val|).LongKeySlab? || LayoutOf(|key|, |val|).LongKeyMmap? ==> kp in mem && mem[kp] == key
    ensures var e := MakeItem(key, val, hash, expireNs, vp, kp);
            && KeyBytes(e, mem) == Some(key)
            && ValBytes(e, mem) == Some(if |val| <= 65535 then val else val[..65535])
  {
    var e := MakeItem(key, val, hash, expireNs, vp, kp);
    MakeItemPtrs(key, val, hash, expireNs, vp, kp);
    ClampIs(val);
    var l := LayoutOf(|key|, |val|);
    if l.Inline? || l.ShortKeySlab? {
      var tail := e.payload[|key|..];
      assert e.payload == [] + StoreBytes(key) + tail;
      LoadStoredBytes([], key, tail, |key|);
      assert key[..|key|] == key;
    }
    if l.Inline? {
      var tail := e.payload[|key| + |val|..];
      assert e.payload == StoreBytes(key) + StoreBytes(val) + tail;
      LoadStoredBytes(StoreBytes(key), val, tail, ClampLen(|val|));
    }
    if l.LongKeySlab? || l.LongKeyMmap? { assert mem[kp][..|key|] == key; }
  }
}
