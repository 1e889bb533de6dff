/** The write-ahead log: records laid out in a ring buffer, and the walk that recovers them. */
module Wal {
  import opened Bytes

  const HEADER: nat := 64
  const MAGIC: nat := 0xC0CA1E01
  const OP_SET: byte := 0x53
  const OP_DEL: byte := 0x44

  datatype Record = Record(op: byte, key: seq<byte>, val: seq<byte>, ttl: nat)

  /** A record with the sequence number and wall-clock time it was logged with. */
  datatype Entry = Entry(rec: Record, seqNo: nat, ts: nat)

  /** The checksum is any function of the operation, the key and the value. */
  type Checksum = Record -> nat

  function Padded(n: nat): (r: nat)
    ensures n <= r < n + 8 && r % 8 == 0
  {
    (n + 7) / 8 * 8
  }

  function Size(r: Record): nat { HEADER + |r.key| + |r.val| }

  /** The bytes a record occupies, padding included. */
  function Total(r: Record): (n: nat)
    ensures n >= Size(r) && n % 8 == 0
  {
    Padded(Size(r))
  }

  function Zeros(n: nat): (s: seq<byte>)
    ensures |s| == n
  {
    seq(n, i => 0)
  }

  /** The 64-byte header: magic, op, key and value length, TTL, checksum, sequence number, time. */
  function Header(e: Entry, sum: Checksum): (h: seq<byte>)
    ensures |h| == HEADER
  {
    LE(MAGIC, 4) + ([e.rec.op] + Zeros(3)) + LE(|e.rec.key|, 4) + LE(|e.rec.val|, 4) + LE(e.rec.ttl, 4)
    + LE(sum(e.rec) % TWO_32, 4) + LE(e.seqNo % TWO_64, 8) + LE(e.ts % TWO_64, 8) + Zeros(24)
  }

  function Encode(e: Entry, sum: Checksum): (b: seq<byte>)
    ensures |b| == Size(e.rec)
  {
    Header(e, sum) + e.rec.key + e.rec.val
  }

  function Splice(ring: seq<byte>, at: nat, b: seq<byte>): (r: seq<byte>)
    requires at + |b| <= |ring|
    ensures |r| == |ring|
    ensures r[at..at + |b|] == b && r[..at] == ring[..at] && r[at + |b|..] == ring[at + |b|..]
  {
    ring[..at] + b + ring[at + |b|..]
  }

  /** `since` is a history variable: the records appended since the last wrap. */
  datatype Log = Log(ring: seq<byte>, writePos: nat, nextSeq: nat, since: seq<Entry>)

  /** A record does not fit behind the last one: the log starts over at offset 0. */
  predicate Wraps(w: Log, r: Record) { w.writePos + Total(r) > |w.ring| }

  /** `wal_append` */
  function Append(w: Log, r: Record, ts: nat, sum: Checksum): (x: Log)
    requires w.writePos <= |w.ring| && Total(r) <= |w.ring|
    ensures |x.ring| == |w.ring| && x.writePos <= |w.ring|
  {
    var at := if Wraps(w, r) then 0 else w.writePos;
    var e := Entry(r, w.nextSeq, ts);
    Log(Splice(w.ring, at, Encode(e, sum)), at + Total(r), (w.nextSeq + 1) % TWO_64, if Wraps(w, r) then [e] else w.since + [e])
  }

  // ---- walking the ring ----

  function Word(ring: seq<byte>, p: nat, w: nat): nat
    requires p + w <= |ring|
  {
    FromLE(ring[p..p + w])
  }

  function RecordAt(ring: seq<byte>, p: nat): Record
    requires p + HEADER <= |ring| && p + HEADER + Word(ring, p + 8, 4) + Word(ring, p + 12, 4) <= |ring|
  {
    var kl := Word(ring, p + 8, 4);
    var vl := Word(ring, p + 12, 4);
    Record(ring[p + 4], ring[p + HEADER..p + HEADER + kl], ring[p + HEADER + kl..p + HEADER + kl + vl], Word(ring, p + 16, 4))
  }

  /** The record at `p`, if its magic and checksum are right and it ends by `limit`. */
  function EntryAt(ring: seq<byte>, p: nat, limit: nat, sum: Checksum): Option<Entry>
    requires limit <= |ring|
  {
    if p + HEADER > limit then None
    else if p + HEADER + Word(ring, p + 8, 4) + Word(ring, p + 12, 4) > limit then None
    else
      var r := RecordAt(ring, p);
      if Word(ring, p, 4) != MAGIC || Word(ring, p + 20, 4) != sum(r) % TWO_32 then None
      else Some(Entry(r, Word(ring, p + 24, 8), Word(ring, p + 32, 8)))
  }

  /** Reads headers from `p` to `limit`, stopping at the first that does not check. */
  function Walk(ring: seq<byte>, p: nat, limit: nat, sum: Checksum): seq<Entry>
    requires limit <= |ring|
    decreases if p <= limit then limit - p + 1 else 0
  {
    var e := EntryAt(ring, p, limit, sum);
    if e.None? then [] else [e.value] + Walk(ring, p + Total(e.value.rec), limit, sum)
  }

  /** The numbers of an entry fit their header fields. */
  predicate Fits(e: Entry) {
    |e.rec.key| < TWO_32 && |e.rec.val| < TWO_32 && e.rec.ttl < TWO_32 && e.seqNo < TWO_64 && e.ts < TWO_64
  }

  /** Where each field of the header lies. */
  lemma HeaderFields(e: Entry, sum: Checksum)
    ensures var h := Header(e, sum);
            && h[0..4] == LE(MAGIC, 4) && h[4] == e.rec.op
            && h[8..12] == LE(|e.rec.key|, 4) && h[12..16] == LE(|e.rec.val|, 4) && h[16..20] == LE(e.rec.ttl, 4)
            && h[20..24] == LE(sum(e.rec) % TWO_32, 4) && h[24..32] == LE(e.seqNo % TWO_64, 8)
            && h[32..40] == LE(e.ts % TWO_64, 8)
  {
    hide LE;
    hide Zeros;
  }

  /** Four or eight bytes of a record read as a number, the low-order byte first. */
  predicate Reads(h: seq<byte>, at: nat, n: nat, width: nat)
    decreases width
  {
    at + width <= |h| && (width == 4 || width == 8) &&
    h[at] == n % 256 && h[at + 1] == n / 0x100 % 256 && h[at + 2] == n / 0x1_0000 % 256 && h[at + 3] == n / 0x100_0000 % 256
    && (width == 8 ==> Reads(h, at + 4, n / 0x1_0000_0000, 4))
  }

  lemma ReadsLE(h: seq<byte>, at: nat, n: nat, width: nat)
    requires at + width <= |h| && (width == 4 || width == 8) && h[at..at + width] == LE(n, width)
    ensures Reads(h, at, n, width)
  {
    var s := h[at..at + width];
    LEFour(n);
    assert s[0] == h[at] && s[1] == h[at + 1] && s[2] == h[at + 2] && s[3] == h[at + 3];
    if width == 8 {
      LEEight(n);
      assert h[at + 4..at + 8] == s[4..];
      LEFour(n / 0x1_0000_0000);
    }
  }

  /** The header byte by byte: the magic number, the operation, and the numbers, each low-order byte first. */
  lemma HeaderBytes(e: Entry, sum: Checksum)
    ensures var h := Header(e, sum);
            && |h| == 64 && h[0] == 0x01 && h[1] == 0x1E && h[2] == 0xCA && h[3] == 0xC0 && h[4] == e.rec.op
            && Reads(h, 8, |e.rec.key|, 4) && Reads(h, 12, |e.rec.val|, 4) && Reads(h, 16, e.rec.ttl, 4)
            && Reads(h, 20, sum(e.rec) % 0x1_0000_0000, 4)
            && Reads(h, 24, e.seqNo % 0x1_0000_0000_0000_0000, 8) && Reads(h, 32, e.ts % 0x1_0000_0000_0000_0000, 8)
            && (forall i | 5 <= i < 8 || 40 <= i < 64 :: h[i] == 0)
  {
    var h := Header(e, sum);
    HeaderFields(e, sum);
    hide LE;
    PaddingZero(e, sum);
    hide Header;
    ReadsLE(h, 0, MAGIC, 4);
    ReadsLE(h, 8, |e.rec.key|, 4);
    ReadsLE(h, 12, |e.rec.val|, 4);
    ReadsLE(h, 16, e.rec.ttl, 4);
    ReadsLE(h, 20, sum(e.rec) % TWO_32, 4);
    ReadsLE(h, 24, e.seqNo % TWO_64, 8);
    ReadsLE(h, 32, e.ts % TWO_64, 8);
  }

  lemma PaddingZero(e: Entry, sum: Checksum)
    ensures forall i | 5 <= i < 8 || 40 <= i < 64 :: Header(e, sum)[i] == 0
  {
    hide LE;
  }

  lemma SliceSlice(ring: seq<byte>, p: nat, n: nat, a: nat, b: nat)
    requires a <= b <= n && p + n <= |ring|
    ensures ring[p..p + n][a..b] == ring[p + a..p + b]
  {
    var x, y := ring[p..p + n][a..b], ring[p + a..p + b];
    assert |x| == |y| && forall i | 0 <= i < |x| :: x[i] == y[i];
  }

  /** Reading at the place where an entry was written gives the entry back. */
  lemma ReadsBack(ring: seq<byte>, p: nat, e: Entry, sum: Checksum)
    requires p + Size(e.rec) <= |ring| && ring[p..p + Size(e.rec)] == Encode(e, sum) && Fits(e)
    ensures Word(ring, p, 4) == MAGIC
    ensures Word(ring, p + 8, 4) == |e.rec.key| && Word(ring, p + 12, 4) == |e.rec.val|
    ensures RecordAt(ring, p) == e.rec
    ensures Word(ring, p + 20, 4) == sum(e.rec) % TWO_32
    ensures Word(ring, p + 24, 8) == e.seqNo && Word(ring, p + 32, 8) == e.ts
  {
    hide Encode;
    hide Header;
    hide LE;
    hide FromLE;
    EncodedParts(ring, p, e, sum);
    HeaderFields(e, sum);
    HeaderWords(ring, p, e, sum, Header(e, sum));
    assert ring[p + 4] == ring[p..p + HEADER][4];
  }

  lemma EncodedParts(ring: seq<byte>, p: nat, e: Entry, sum: Checksum)
    requires p + Size(e.rec) <= |ring| && ring[p..p + Size(e.rec)] == Encode(e, sum)
    ensures var k := p + HEADER + |e.rec.key|;
            && ring[p..p + HEADER] == Header(e, sum) && ring[p + HEADER..k] == e.rec.key
            && ring[k..k + |e.rec.val|] == e.rec.val
  {
    hide Header;
    var n := Size(e.rec);
    SliceSlice(ring, p, n, 0, HEADER);
    SliceSlice(ring, p, n, HEADER, HEADER + |e.rec.key|);
    SliceSlice(ring, p, n, HEADER + |e.rec.key|, n);
    ThreeParts(Header(e, sum), e.rec.key, e.rec.val);
  }

  lemma ThreeParts(a: seq<byte>, b: seq<byte>, c: seq<byte>)
    ensures var s := a + b + c;
            s[0..|a|] == a && s[|a|..|a| + |b|] == b && s[|a| + |b|..|a| + |b| + |c|] == c
  {
  }

  lemma HeaderWords(ring: seq<byte>, p: nat, e: Entry, sum: Checksum, h: seq<byte>)
    requires p + HEADER <= |ring| && ring[p..p + HEADER] == h && Fits(e) && |h| == HEADER
    requires h[0..4] == LE(MAGIC, 4)
    requires h[8..12] == LE(|e.rec.key|, 4) && h[12..16] == LE(|e.rec.val|, 4) && h[16..20] == LE(e.rec.ttl, 4)
    requires h[20..24] == LE(sum(e.rec) % TWO_32, 4) && h[24..32] == LE(e.seqNo % TWO_64, 8)
    requires h[32..40] == LE(e.ts % TWO_64, 8)
    ensures Word(ring, p, 4) == MAGIC
    ensures Word(ring, p + 8, 4) == |e.rec.key| && Word(ring, p + 12, 4) == |e.rec.val| && Word(ring, p + 16, 4) == e.rec.ttl
    ensures Word(ring, p + 20, 4) == sum(e.rec) % TWO_32
    ensures Word(ring, p + 24, 8) == e.seqNo && Word(ring, p + 32, 8) == e.ts
  {
    hide LE;
    hide FromLE;
    Pow256Widths();
    WordAt(ring, p, 0, MAGIC, 4);
    WordAt(ring, p, 8, |e.rec.key|, 4);
    WordAt(ring, p, 12, |e.rec.val|, 4);
    WordAt(ring, p, 16, e.rec.ttl, 4);
    WordAt(ring, p, 20, sum(e.rec) % TWO_32, 4);
    WordAt(ring, p, 24, e.seqNo, 8);
    WordAt(ring, p, 32, e.ts, 8);
  }

  lemma WordAt(ring: seq<byte>, p: nat, off: nat, n: nat, w: nat)
    requires p + HEADER <= |ring| && off + w <= HEADER && n < Pow256(w)
    requires ring[p..p + HEADER][off..off + w] == LE(n, w)
    ensures Word(ring, p + off, w) == n
  {
    SliceSlice(ring, p, HEADER, off, off + w);
    LERoundTrip(n, w);
  }

  // ---- the layout invariant ----

  /** The entries lie one behind the other from `p` to exactly `limit`, each inside the ring and 8-aligned. */
  predicate Laid(ring: seq<byte>, p: nat, limit: nat, es: seq<Entry>, sum: Checksum)
    decreases |es|
  {
    if es == [] then p == limit
    else
      && p % 8 == 0 && p + Total(es[0].rec) <= limit <= |ring| && Fits(es[0])
      && ring[p..p + Size(es[0].rec)] == Encode(es[0], sum)
      && Laid(ring, p + Total(es[0].rec), limit, es[1..], sum)
  }

  /** The sequence numbers count up by one, modulo 2^64, to the one before `next`. */
  predicate Consecutive(es: seq<Entry>, next: nat) {
    forall k | 0 <= k < |es| :: es[k].seqNo == (next + k - |es|) % TWO_64
  }

  predicate Valid(w: Log, sum: Checksum) {
    && |w.ring| % 8 == 0 && |w.ring| < TWO_32 && w.nextSeq < TWO_64 && w.writePos % 8 == 0 && w.writePos <= |w.ring|
    && Laid(w.ring, 0, w.writePos, w.since, sum)
    && Consecutive(w.since, w.nextSeq)
  }

  lemma PrefixSlice(ring: seq<byte>, ring': seq<byte>, limit: nat, a: nat, b: nat)
    requires a <= b <= limit <= |ring| && limit <= |ring'| && ring'[..limit] == ring[..limit]
    ensures ring'[a..b] == ring[a..b]
  {
    assert forall i | 0 <= i < limit :: ring'[i] == ring'[..limit][i] == ring[i];
  }

  /** What lies behind `limit` does not matter. */
  lemma {:induction false} LaidFrame(ring: seq<byte>, ring': seq<byte>, p: nat, limit: nat, es: seq<Entry>, sum: Checksum)
    requires Laid(ring, p, limit, es, sum) && limit <= |ring| && |ring'| == |ring| && ring'[..limit] == ring[..limit]
    ensures Laid(ring', p, limit, es, sum)
    decreases |es|
  {
    if es != [] {
      var n := Size(es[0].rec);
      PrefixSlice(ring, ring', limit, p, p + n);
      LaidFrame(ring, ring', p + Total(es[0].rec), limit, es[1..], sum);
    }
  }

  lemma {:induction false} LaidAppend(ring: seq<byte>, p: nat, limit: nat, es: seq<Entry>, e: Entry, sum: Checksum)
    requires Laid(ring, p, limit, es, sum) && limit % 8 == 0 && Fits(e)
    requires limit + Total(e.rec) <= |ring| && ring[limit..limit + Size(e.rec)] == Encode(e, sum)
    ensures Laid(ring, p, limit + Total(e.rec), es + [e], sum)
    decreases |es|
  {
    hide Encode;
    if es != [] {
      LaidAppend(ring, p + Total(es[0].rec), limit, es[1..], e, sum);
      assert (es + [e])[1..] == es[1..] + [e];
    }
  }

  lemma EntryReadsBack(ring: seq<byte>, p: nat, limit: nat, e: Entry, sum: Checksum)
    requires p + Total(e.rec) <= limit <= |ring| && ring[p..p + Size(e.rec)] == Encode(e, sum) && Fits(e)
    ensures EntryAt(ring, p, limit, sum) == Some(e)
  {
    hide Encode;
    hide RecordAt;
    hide Word;
    hide Total;
    ReadsBack(ring, p, e, sum);
  }

  /** Walking recovers exactly the entries laid out, in order. */
  lemma {:induction false} WalkRecovers(ring: seq<byte>, p: nat, limit: nat, es: seq<Entry>, sum: Checksum)
    requires Laid(ring, p, limit, es, sum) && limit <= |ring|
    ensures Walk(ring, p, limit, sum) == es
    decreases |es|
  {
    hide Encode;
    hide Total;
    hide Fits;
    hide EntryAt;
    if es == [] {
      EntryAtLimit(ring, limit, sum);
    } else {
      EntryReadsBack(ring, p, limit, es[0], sum);
      WalkRecovers(ring, p + Total(es[0].rec), limit, es[1..], sum);
      assert es == [es[0]] + es[1..];
    }
  }

  /** What a restart reads: the ring from offset 0 to the first record that does not check. */
  function Scan(ring: seq<byte>, sum: Checksum): seq<Entry> { Walk(ring, 0, |ring|, sum) }

  /** The scan does not know where the log ends: it runs on into whatever lies behind. */
  lemma {:induction false} WalkOn(ring: seq<byte>, p: nat, limit: nat, es: seq<Entry>, sum: Checksum)
    requires Laid(ring, p, limit, es, sum) && limit <= |ring|
    ensures Walk(ring, p, |ring|, sum) == es + Walk(ring, limit, |ring|, sum)
    decreases |es|
  {
    hide Encode;
    hide Total;
    hide Fits;
    hide EntryAt;
    if es != [] {
      EntryReadsBack(ring, p, |ring|, es[0], sum);
      WalkOn(ring, p + Total(es[0].rec), limit, es[1..], sum);
      assert es == [es[0]] + es[1..];
    }
  }

  /**
   * The scan gives the records since the last wrap and what follows them; it gives just
   * those iff no record that checks lies at `write_pos`.
   */
  lemma ScanExactIff(w: Log, sum: Checksum)
    requires Valid(w, sum)
    ensures Scan(w.ring, sum) == w.since + Walk(w.ring, w.writePos, |w.ring|, sum)
    ensures Scan(w.ring, sum) == w.since <==> EntryAt(w.ring, w.writePos, |w.ring|, sum).None?
  {
    hide Laid;
    hide Consecutive;
    hide EntryAt;
    WalkOn(w.ring, 0, w.writePos, w.since, sum);
    var rest := Walk(w.ring, w.writePos, |w.ring|, sum);
    assert |w.since + rest| == |w.since| + |rest|;
    assert rest == [] ==> w.since + rest == w.since;
  }

  // ---- a ring that was never used behind the log ----

  predicate Blank(w: Log) {
    w.writePos <= |w.ring| && forall i | w.writePos <= i < |w.ring| :: w.ring[i] == 0
  }

  lemma ZeroWord(s: seq<byte>)
    requires forall i | 0 <= i < |s| :: s[i] == 0
    ensures FromLE(s) == 0
  {
  }

  lemma BlankEnds(w: Log, sum: Checksum)
    requires Blank(w)
    ensures EntryAt(w.ring, w.writePos, |w.ring|, sum).None?
  {
    var p := w.writePos;
    if p + HEADER <= |w.ring| { ZeroWord(w.ring[p..p + 4]); }
  }

  lemma AppendBlank(w: Log, r: Record, ts: nat, sum: Checksum)
    requires Blank(w) && Total(r) <= |w.ring| && !Wraps(w, r)
    ensures Blank(Append(w, r, ts, sum))
  {
    hide Encode;
    hide Total;
    var e := Entry(r, w.nextSeq, ts);
    var x := Append(w, r, ts, sum);
    var k := w.writePos + |Encode(e, sum)|;
    assert x.ring[k..] == w.ring[k..];
    forall i | x.writePos <= i < |x.ring| ensures x.ring[i] == 0 {
      assert x.ring[i] == x.ring[k..][i - k] == w.ring[k..][i - k];
    }
  }

  lemma {:induction false} AppendAllBlank(w: Log, items: seq<(Record, nat)>, sum: Checksum)
    requires Blank(w) && forall k | 0 <= k < |items| :: Loggable(items[k], |w.ring|)
    requires NeverWraps(w, items, sum)
    ensures Blank(AppendAll(w, items, sum))
    decreases |items|
  {
    if items != [] {
      AppendBlank(w, items[0].0, items[0].1, sum);
      hide Append;
      hide Blank;
      AppendAllBlank(Append(w, items[0].0, items[0].1, sum), items[1..], sum);
    }
  }

  /** In a new ring that the records fit into, the scan gives exactly the records appended. */
  lemma ScanAfterRun(size: nat, items: seq<(Record, nat)>, sum: Checksum)
    requires size % 8 == 0 && size < TWO_32 && forall k | 0 <= k < |items| :: Loggable(items[k], size)
    requires Occupied(Firsts(items)) <= size
    ensures Records(Scan(AppendAll(Empty(size), items, sum).ring, sum)) == Firsts(items)
  {
    hide NeverWraps;
    hide Occupied;
    hide AppendAll;
    hide Scan;
    hide EntryAt;
    hide Laid;
    var w0 := Empty(size);
    EmptyValid(size, sum);
    WrapsNeverIff(w0, items, sum);
    AppendAllKeeps(w0, items, sum);
    AppendAllBlank(w0, items, sum);
    var w := AppendAll(w0, items, sum);
    ScanExactIff(w, sum);
    BlankEnds(w, sum);
    SinceIsSuffix(w0, items, sum);
    assert Records([]) + Firsts(items) == Firsts(items);
  }

  lemma EntryAtLimit(ring: seq<byte>, limit: nat, sum: Checksum)
    requires limit <= |ring|
    ensures EntryAt(ring, limit, limit, sum) == None
  {
  }

  lemma LaidNothing(ring: seq<byte>, sum: Checksum)
    ensures Laid(ring, 0, 0, [], sum)
  {
  }

  lemma ConsecutiveAppend(es: seq<Entry>, next: nat, e: Entry)
    requires Consecutive(es, next) && e.seqNo == next < TWO_64
    ensures Consecutive(es + [e], (next + 1) % TWO_64)
  {
    forall k | 0 <= k < |es + [e]| ensures (es + [e])[k].seqNo == ((next + 1) % TWO_64 + k - |es + [e]|) % TWO_64 {
      assert k < |es| ==> es[k].seqNo == (next + k - |es|) % TWO_64;
    }
  }

  lemma AppendKeeps(w: Log, r: Record, ts: nat, sum: Checksum)
    requires Valid(w, sum) && Total(r) <= |w.ring| && r.ttl < TWO_32 && ts < TWO_64
    ensures Valid(Append(w, r, ts, sum), sum)
  {
    hide Encode;
    hide Splice;
    hide Total;
    hide Laid;
    var e := Entry(r, w.nextSeq, ts);
    var x := Append(w, r, ts, sum);
    ConsecutiveAppend(if Wraps(w, r) then [] else w.since, w.nextSeq, e);
    hide Consecutive;
    if Wraps(w, r) {
      assert Laid(x.ring, 0, 0, [], sum) by { LaidNothing(x.ring, sum); }
      LaidAppend(x.ring, 0, 0, [], e, sum);
      assert [] + [e] == [e];
    } else {
      LaidFrame(w.ring, x.ring, 0, w.writePos, w.since, sum);
      LaidAppend(x.ring, 0, w.writePos, w.since, e, sum);
    }
  }

  // ---- runs of appends ----

  predicate Loggable(a: (Record, nat), size: nat) {
    Total(a.0) <= size && a.0.ttl < TWO_32 && a.1 < TWO_64
  }

  function AppendAll(w: Log, items: seq<(Record, nat)>, sum: Checksum): (x: Log)
    requires w.writePos <= |w.ring| && forall k | 0 <= k < |items| :: Loggable(items[k], |w.ring|)
    ensures |x.ring| == |w.ring| && x.writePos <= |x.ring|
    decreases |items|
  {
    if items == [] then w
    else
      assert Loggable(items[0], |w.ring|);
      AppendAll(Append(w, items[0].0, items[0].1, sum), items[1..], sum)
  }

  function Empty(size: nat): Log { Log(Zeros(size), 0, 0, []) }

  lemma {:induction false} AppendAllKeeps(w: Log, items: seq<(Record, nat)>, sum: Checksum)
    requires Valid(w, sum) && forall k | 0 <= k < |items| :: Loggable(items[k], |w.ring|)
    ensures Valid(AppendAll(w, items, sum), sum)
    decreases |items|
  {
    if items != [] {
      AppendKeeps(w, items[0].0, items[0].1, sum);
      hide Append;
      AppendAllKeeps(Append(w, items[0].0, items[0].1, sum), items[1..], sum);
    }
  }

  /**
   * After any run of appends, walking the headers from offset 0 to `write_pos`
   * recovers exactly the records since the last wrap, in order and with consecutive
   * sequence numbers; every one of them lies inside the ring on an 8-byte boundary.
   */
  lemma WalkAfterRun(size: nat, items: seq<(Record, nat)>, sum: Checksum)
    requires size % 8 == 0 && size < TWO_32 && forall k | 0 <= k < |items| :: Loggable(items[k], size)
    ensures var w := AppendAll(Empty(size), items, sum);
            && w.writePos % 8 == 0 && w.writePos <= size
            && Laid(w.ring, 0, w.writePos, w.since, sum)
            && Walk(w.ring, 0, w.writePos, sum) == w.since
            && Records(w.since) == Survivors([], Firsts(items), size) && w.writePos == Occupied(Records(w.since))
            && Consecutive(w.since, w.nextSeq)
  {
    hide Laid;
    hide Consecutive;
    hide AppendAll;
    var w := AppendAll(Empty(size), items, sum);
    EmptyValid(size, sum);
    AppendAllKeeps(Empty(size), items, sum);
    WalkRecovers(w.ring, 0, w.writePos, w.since, sum);
    LaidOccupies(w.ring, 0, w.writePos, w.since, sum);
    SinceSurvives(Empty(size), items, sum);
    assert Records([]) == [];
  }

  // ---- where records go ----

  /** The bytes records take up: 64 for the header, the key and the value, each record rounded up to 8. */
  function Occupied(rs: seq<Record>): nat {
    if rs == [] then 0 else (64 + |rs[0].key| + |rs[0].val| + 7) / 8 * 8 + Occupied(rs[1..])
  }

  /** What is left of records written to a ring: a record that does not fit behind the others replaces them all. */
  function Survivors(kept: seq<Record>, rs: seq<Record>, size: nat): seq<Record>
    decreases |rs|
  {
    if rs == [] then kept
    else Survivors(if Occupied(kept) + Occupied([rs[0]]) > size then [rs[0]] else kept + [rs[0]], rs[1..], size)
  }

  lemma OccupiedOne(r: Record)
    ensures Occupied([r]) == Total(r)
  {
    assert [r][1..] == [];
  }

  lemma {:induction false} LaidOccupies(ring: seq<byte>, p: nat, limit: nat, es: seq<Entry>, sum: Checksum)
    requires Laid(ring, p, limit, es, sum)
    ensures limit == p + Occupied(Records(es))
    decreases |es|
  {
    hide Encode;
    if es != [] {
      assert Records(es)[1..] == Records(es[1..]);
      LaidOccupies(ring, p + Total(es[0].rec), limit, es[1..], sum);
    }
  }

  /**
   * An append starts over at offset 0 iff the bytes used since the last wrap and its own,
   * rounded up, exceed the ring; otherwise it goes right behind them.
   */
  lemma AppendPlaces(w: Log, r: Record, ts: nat, sum: Checksum)
    requires Valid(w, sum) && Total(r) <= |w.ring|
    ensures var used, more := Occupied(Records(w.since)), Occupied([r]);
            var at := if used + more > |w.ring| then 0 else used;
            var x := Append(w, r, ts, sum);
            var e := Entry(r, w.nextSeq, ts);
            && x.writePos == at + more && x.since == (if used + more > |w.ring| then [e] else w.since + [e])
            && x.ring[at..at + Size(r)] == Encode(e, sum)
            && x.ring[..at] == w.ring[..at] && x.ring[at + Size(r)..] == w.ring[at + Size(r)..]
  {
    LaidOccupies(w.ring, 0, w.writePos, w.since, sum);
    OccupiedOne(r);
    hide Encode;
    hide Occupied;
    hide Laid;
    hide Total;
  }

  lemma {:induction false} SinceSurvives(w: Log, items: seq<(Record, nat)>, sum: Checksum)
    requires Valid(w, sum) && forall k | 0 <= k < |items| :: Loggable(items[k], |w.ring|)
    ensures Records(AppendAll(w, items, sum).since) == Survivors(Records(w.since), Firsts(items), |w.ring|)
    decreases |items|
  {
    assert w.writePos <= |w.ring|;
    hide Valid;
    hide Append;
    hide Occupied;
    if items == [] {
      assert Firsts(items) == [];
    } else {
      var r, ts := items[0].0, items[0].1;
      assert Loggable(items[0], |w.ring|);
      var x := Append(w, r, ts, sum);
      var e := Entry(r, w.nextSeq, ts);
      AppendKeeps(w, r, ts, sum);
      AppendPlaces(w, r, ts, sum);
      assert Firsts(items)[0] == r && Firsts(items)[1..] == Firsts(items[1..]);
      assert Records(w.since + [e]) == Records(w.since) + [r] && Records([e]) == [r];
      SinceSurvives(x, items[1..], sum);
    }
  }

  /** A run wraps nowhere iff its records, padded, fit behind what is there. */
  lemma {:induction false} WrapsNeverIff(w: Log, items: seq<(Record, nat)>, sum: Checksum)
    requires w.writePos <= |w.ring| && forall k | 0 <= k < |items| :: Loggable(items[k], |w.ring|)
    ensures NeverWraps(w, items, sum) <==> w.writePos + Occupied(Firsts(items)) <= |w.ring|
    decreases |items|
  {
    hide Encode;
    hide Splice;
    if items != [] {
      assert Loggable(items[0], |w.ring|);
      assert Firsts(items)[0] == items[0].0 && Firsts(items)[1..] == Firsts(items[1..]);
      WrapsNeverIff(Append(w, items[0].0, items[0].1, sum), items[1..], sum);
    }
  }

  predicate NeverWraps(w: Log, items: seq<(Record, nat)>, sum: Checksum)
    requires w.writePos <= |w.ring| && forall k | 0 <= k < |items| :: Loggable(items[k], |w.ring|)
    decreases |items|
  {
    items == [] || (Loggable(items[0], |w.ring|) && !Wraps(w, items[0].0) && NeverWraps(Append(w, items[0].0, items[0].1, sum), items[1..], sum))
  }

  function Records(es: seq<Entry>): (rs: seq<Record>)
    ensures |rs| == |es|
  {
    seq(|es|, k requires 0 <= k < |es| => es[k].rec)
  }

  function Firsts(items: seq<(Record, nat)>): (rs: seq<Record>)
    ensures |rs| == |items|
  {
    seq(|items|, k requires 0 <= k < |items| => items[k].0)
  }

  lemma SinceStep(since: seq<Entry>, items: seq<(Record, nat)>, e: Entry)
    requires items != [] && e.rec == items[0].0
    ensures Records([e]) + Firsts(items[1..]) == (Records(since) + Firsts(items))[|since|..]
    ensures Records(since + [e]) + Firsts(items[1..]) == Records(since) + Firsts(items)
  {
    assert Firsts(items) == [items[0].0] + Firsts(items[1..]);
    assert Records(since + [e]) == Records(since) + [e.rec];
  }

  /** A suffix of a suffix is a suffix. */
  lemma SuffixOf(all: seq<Record>, rest: seq<Record>, last: seq<Record>, k: nat)
    requires k <= |all| && rest == all[k..] && |last| <= |rest| && last == rest[|rest| - |last|..]
    ensures last == all[|all| - |last|..]
  {
    var i := |rest| - |last|;
    assert rest[i..] == all[k + i..];
  }

  /** One append takes the records since the last wrap and those still to come one record on. */
  lemma SinceAfter(w: Log, items: seq<(Record, nat)>, sum: Checksum)
    requires w.writePos <= |w.ring| && items != [] && Loggable(items[0], |w.ring|)
    ensures var y := Append(w, items[0].0, items[0].1, sum);
            var all := Records(w.since) + Firsts(items);
            Records(y.since) + Firsts(items[1..]) == all[if Wraps(w, items[0].0) then |w.since| else 0..]
  {
    hide Splice;
    hide Encode;
    hide Total;
    SinceStep(w.since, items, Entry(items[0].0, w.nextSeq, items[0].1));
    hide Records;
    hide Firsts;
  }

  lemma NoneToCome(since: seq<Entry>, items: seq<(Record, nat)>)
    requires items == []
    ensures Records(since) + Firsts(items) == Records(since)
  {
  }

  /** The records since the last wrap are the last ones appended; all of them if the log never wrapped. */
  lemma {:induction false} SinceIsSuffix(w: Log, items: seq<(Record, nat)>, sum: Checksum)
    requires w.writePos <= |w.ring| && forall k | 0 <= k < |items| :: Loggable(items[k], |w.ring|)
    ensures var x := AppendAll(w, items, sum);
            var all := Records(w.since) + Firsts(items);
            && |x.since| <= |all| && Records(x.since) == all[|all| - |x.since|..]
            && (NeverWraps(w, items, sum) ==> Records(x.since) == all)
    decreases |items|
  {
    hide Append;
    hide Wraps;
    hide Records;
    hide Firsts;
    hide Total;
    if items == [] {
      NoneToCome(w.since, items);
    } else {
      assert Loggable(items[0], |w.ring|);
      var y := Append(w, items[0].0, items[0].1, sum);
      var all := Records(w.since) + Firsts(items);
      var rest := Records(y.since) + Firsts(items[1..]);
      SinceAfter(w, items, sum);
      assert all[0..] == all;
      SinceIsSuffix(y, items[1..], sum);
      SuffixOf(all, rest, Records(AppendAll(y, items[1..], sum).since), if Wraps(w, items[0].0) then |w.since| else 0);
    }
  }

  // ---- a scan that runs on into an old record ----

  const KEY: seq<byte> := [107]

  /** A record with a one-byte key, 72 bytes padded. */
  predicate Unit(r: Record) { |r.key| == 1 && |r.val| <= 1 && r.ttl == 0 }

  lemma AppendOutside(w: Log, r: Record, ts: nat, sum: Checksum, lo: nat)
    requires w.writePos <= |w.ring| && Total(r) <= |w.ring|
    requires (if Wraps(w, r) then 0 else w.writePos) + Size(r) <= lo <= |w.ring|
    ensures Append(w, r, ts, sum).ring[lo..] == w.ring[lo..]
  {
    hide Encode;
    hide Total;
    var at := if Wraps(w, r) then 0 else w.writePos;
    var x := Append(w, r, ts, sum).ring;
    var k := at + Size(r);
    assert x[k..] == w.ring[k..];
    assert x[lo..] == x[k..][lo - k..] && w.ring[lo..] == w.ring[k..][lo - k..];
  }

  /** Append to a ring of 288 bytes, at `at`; nothing from `at + Total(r)` on changes. */
  lemma AppendAt(w: Log, r: Record, sum: Checksum, at: nat, total: nat)
    requires Valid(w, sum) && |w.ring| == 288 && w.nextSeq < 7 && r.ttl == 0 && Total(r) == total <= 288
    requires at == if w.writePos + total > 288 then 0 else w.writePos
    ensures var x := Append(w, r, 0, sum);
            && Valid(x, sum) && |x.ring| == 288 && x.writePos == at + total && x.nextSeq == w.nextSeq + 1
            && x.ring[at..at + Size(r)] == Encode(Entry(r, w.nextSeq, 0), sum)
            && x.ring[at + total..] == w.ring[at + total..]
            && (at == 0 < w.writePos ==> x.since == [Entry(r, w.nextSeq, 0)])
  {
    hide Encode;
    hide Total;
    hide Laid;
    hide Consecutive;
    hide Splice;
    AppendKeeps(w, r, 0, sum);
    AppendOutside(w, r, 0, sum, at + total);
    hide Valid;
  }

  lemma WalkOne(ring: seq<byte>, p: nat, e: Entry, sum: Checksum)
    requires EntryAt(ring, p, |ring|, sum) == Some(e) && p + Total(e.rec) == |ring|
    ensures Walk(ring, p, |ring|, sum) == [e]
  {
    EntryAtLimit(ring, |ring|, sum);
    hide EntryAt;
    hide Total;
    assert Walk(ring, |ring|, |ring|, sum) == [];
  }

  /** A record that fills the rest of the ring behind the log is read as well. */
  lemma OldRecordAt(w: Log, e: Entry, sum: Checksum)
    requires Valid(w, sum) && |w.ring| == 288 && w.writePos == 216 && Unit(e.rec) && Fits(e)
    requires w.ring[216..216 + Size(e.rec)] == Encode(e, sum)
    ensures Scan(w.ring, sum) == w.since + [e]
  {
    assert Total(e.rec) == 72;
    hide Encode;
    hide Laid;
    hide Consecutive;
    hide Total;
    hide EntryAt;
    ScanExactIff(w, sum);
    EntryReadsBack(w.ring, 216, 288, e, sum);
    WalkOne(w.ring, 216, e, sum);
  }

  const FILLER: Record := Record(OP_SET, [1], [1], 0)
  const SETS: Record := Record(OP_SET, KEY, [1], 0)
  const DELETES: Record := Record(OP_DEL, KEY, [], 0)

  /** A record of 216 bytes. */
  function Large(): (r: Record)
    ensures Total(r) == 216 && r.op == OP_SET && r.key == [1] && r.ttl == 0
  {
    Record(OP_SET, [1], Zeros(151), 0)
  }

  /** Seven appends to a ring of 288 bytes: a set of the key in the fourth place, its delete in the fifth. */
  function SevenItems(): (items: seq<(Record, nat)>)
    ensures forall k | 0 <= k < |items| :: Loggable(items[k], 288)
  {
    [(FILLER, 0), (FILLER, 0), (FILLER, 0), (SETS, 0), (DELETES, 0), (FILLER, 0), (Large(), 0)]
  }

  lemma UnitTotals()
    ensures Total(FILLER) == 72 && Total(SETS) == 72 && Total(DELETES) == 72
  {
  }

  lemma EmptyValid(size: nat, sum: Checksum)
    requires size % 8 == 0 && size < TWO_32
    ensures Valid(Empty(size), sum)
  {
    LaidNothing(Empty(size).ring, sum);
  }

  lemma FirstFourAppends(sum: Checksum) returns (w: Log)
    ensures Valid(w, sum) && |w.ring| == 288 && w.writePos == 288 && w.nextSeq == 4
    ensures w.ring[216..216 + Size(SETS)] == Encode(Entry(SETS, 3, 0), sum)
    ensures AppendAll(Empty(288), SevenItems(), sum) == AppendAll(w, SevenItems()[4..], sum)
  {
    hide Append;
    hide Valid;
    hide Encode;
    hide Total;
    hide Zeros;
    hide AppendAll;
    hide Large;
    var items := SevenItems();
    var w0 := Empty(288);
    EmptyValid(288, sum);
    UnitTotals();
    AppendAt(w0, FILLER, sum, 0, 72);
    var w1 := Append(w0, FILLER, 0, sum);
    AppendAt(w1, FILLER, sum, 72, 72);
    var w2 := Append(w1, FILLER, 0, sum);
    AppendAt(w2, FILLER, sum, 144, 72);
    var w3 := Append(w2, FILLER, 0, sum);
    AppendAt(w3, SETS, sum, 216, 72);
    w := Append(w3, SETS, 0, sum);
    AppendAllNext(w0, items, sum, 0);
    AppendAllNext(w1, items, sum, 1);
    AppendAllNext(w2, items, sum, 2);
    AppendAllNext(w3, items, sum, 3);
    assert items[0..] == items;
  }

  lemma AppendAllNext(w: Log, items: seq<(Record, nat)>, sum: Checksum, k: nat)
    requires w.writePos <= |w.ring| && k < |items| && forall j | 0 <= j < |items| :: Loggable(items[j], |w.ring|)
    ensures Loggable(items[k], |w.ring|)
    ensures AppendAll(w, items[k..], sum) == AppendAll(Append(w, items[k].0, items[k].1, sum), items[k + 1..], sum)
  {
    hide Append;
    assert Loggable(items[k], |w.ring|);
    assert items[k..][0] == items[k] && items[k..][1..] == items[k + 1..];
  }

  /**
   * After a wrap the scan can read a record older than some that are gone: here it gives
   * the last record and then the set of a key, whose delete was overwritten.
   */
  lemma ScanReadsOld(sum: Checksum)
    ensures Scan(AppendAll(Empty(288), SevenItems(), sum).ring, sum) == [Entry(Large(), 6, 0), Entry(SETS, 3, 0)]
  {
    hide Append;
    hide Valid;
    hide Encode;
    hide Total;
    hide Large;
    hide AppendAll;
    hide Scan;
    var items := SevenItems();
    UnitTotals();
    var w4 := FirstFourAppends(sum);
    AppendAt(w4, DELETES, sum, 0, 72);
    var w5 := Append(w4, DELETES, 0, sum);
    AppendAt(w5, FILLER, sum, 72, 72);
    var w6 := Append(w5, FILLER, 0, sum);
    AppendAt(w6, Large(), sum, 0, 216);
    var w7 := Append(w6, Large(), 0, sum);
    AppendAllNext(w4, items, sum, 4);
    AppendAllNext(w5, items, sum, 5);
    AppendAllNext(w6, items, sum, 6);
    assert items[7..] == [];
    AppendNothing(w7, sum);
    TailKept(w4.ring, w5.ring, 72);
    TailKept(w5.ring, w6.ring, 144);
    OldRecordAt(w7, Entry(SETS, 3, 0), sum);
  }

  lemma AppendNothing(w: Log, sum: Checksum)
    requires w.writePos <= |w.ring|
    ensures AppendAll(w, [], sum) == w
  {
  }

  lemma TailKept(ring: seq<byte>, ring': seq<byte>, lo: nat)
    requires |ring| == |ring'| == 288 && lo <= 216 && ring'[lo..] == ring[lo..]
    ensures ring'[216..] == ring[216..]
  {
    assert ring'[216..] == ring'[lo..][216 - lo..] && ring[216..] == ring[lo..][216 - lo..];
  }

  // ---- the ring as a buffer updated in place ----

  lemma RingPos(pos: nat, size: nat)
    requires pos <= size && size > 0
    ensures pos % size == if pos == size then 0 else pos
  {
  }

  lemma SpliceTwo(ring: seq<byte>, at: nat, a: seq<byte>, b: seq<byte>)
    requires at + |a| + |b| <= |ring|
    ensures Splice(Splice(ring, at, a), at + |a|, b) == Splice(ring, at, a + b)
  {
    var x := Splice(Splice(ring, at, a), at + |a|, b);
    var y := Splice(ring, at, a + b);
    assert |x| == |y|;
    forall i | 0 <= i < |x| ensures x[i] == y[i] {
      if i < at + |a| {
        assert x[i] == Splice(ring, at, a)[i];
      }
    }
  }

  lemma SpliceThree(ring: seq<byte>, at: nat, a: seq<byte>, b: seq<byte>, c: seq<byte>)
    requires at + |a| + |b| + |c| <= |ring|
    ensures Splice(Splice(Splice(ring, at, a), at + |a|, b), at + |a| + |b|, c) == Splice(ring, at, a + b + c)
  {
    hide Splice;
    SpliceTwo(ring, at, a, b);
    SpliceTwo(ring, at, a + b, c);
  }

  class WalRing {
    const ring: array<byte>
    var writePos: nat
    var nextSeq: nat
    ghost var since: seq<Entry>

    ghost predicate InBounds()
      reads this
    {
      writePos <= ring.Length
    }

    ghost function State(): Log
      reads this, ring
    {
      Log(ring[..], writePos, nextSeq, since)
    }

    constructor (size: nat)
      ensures InBounds() && fresh(ring) && State() == Empty(size)
    {
      ring := new byte[size](i => 0);
      writePos, nextSeq, since := 0, 0, [];
      new;
      assert ring[..] == Zeros(size);
    }

    method Copy(at: nat, b: seq<byte>)
      requires at + |b| <= ring.Length
      modifies ring
      ensures ring[..] == Splice(old(ring[..]), at, b)
    {
      var i := 0;
      while i < |b|
        invariant 0 <= i <= |b|
        invariant ring[..] == old(ring[..at]) + b[..i] + old(ring[at + i..])
      {
        ring[at + i] := b[i];
        i := i + 1;
      }
    }

    method CopyEntry(at: nat, e: Entry, sum: Checksum)
      requires at + Size(e.rec) <= ring.Length
      modifies ring
      ensures ring[..] == Splice(old(ring[..]), at, Encode(e, sum))
    {
      hide Splice;
      hide Header;
      var header := Header(e, sum);
      Copy(at, header);
      Copy(at + HEADER, e.rec.key);
      Copy(at + HEADER + |e.rec.key|, e.rec.val);
      SpliceThree(old(ring[..]), at, header, e.rec.key, e.rec.val);
    }

    /** Where the record goes: behind the last one, or at offset 0 if it does not fit there. */
    method Place(r: Record) returns (at: nat, total: nat)
      requires InBounds() && Total(r) <= ring.Length
      ensures at == (if Wraps(State(), r) then 0 else writePos) && total == Total(r)
    {
      total := (HEADER + |r.key| + |r.val| + 7) / 8 * 8;
      RingPos(writePos, ring.Length);
      at := writePos % ring.Length;
      if at + total > ring.Length { at := 0; }
    }

    /** `wal_append` */
    method AppendRecord(r: Record, ts: nat, sum: Checksum)
      requires InBounds() && Total(r) <= ring.Length
      modifies this, ring
      ensures InBounds() && State() == Append(old(State()), r, ts, sum)
    {
      hide Splice;
      hide Encode;
      hide Total;
      var at, total := Place(r);
      var e := Entry(r, nextSeq, ts);
      CopyEntry(at, e, sum);
      since := if Wraps(old(State()), r) then [e] else since + [e];
      writePos := at + total;
      nextSeq := (nextSeq + 1) % TWO_64;
    }
  }
}
