/** The I/O buffers of a connection, its read loop and its output stream. */
module Connection {
  import opened Bytes
  import opened Resp
  import opened RespStream
  import RespParser

  /** `memmove` of `count` bytes from offset `n` to the front. */
  method ShiftDown(a: array<byte>, n: nat, count: nat)
    requires n + count <= a.Length
    modifies a
    ensures a[..count] == old(a[n..n + count])
  {
    var i := 0;
    while i < count
      invariant 0 <= i <= count && a[..i] == old(a[n..n + i])
      invariant forall k | i <= k < a.Length :: a[k] == old(a[k])
    {
      a[i] := a[i + n];
      i := i + 1;
    }
  }

  class Buffer {
    var data: array<byte>
    var len: nat
    var rpos: nat

    ghost predicate Valid()
      reads this
    {
      rpos <= len <= data.Length && 0 < data.Length
    }

    /** The bytes in use. */
    ghost function Contents(): seq<byte>
      requires Valid()
      reads this, data
    {
      data[..len]
    }

    /** The bytes not yet written to the socket. */
    ghost function Unsent(): seq<byte>
      requires Valid()
      reads this, data
    {
      data[rpos..len]
    }

    constructor (cap: nat)
      requires cap > 0
      ensures Valid() && fresh(data) && Contents() == [] && rpos == 0
    {
      data := new byte[cap](i => 0);
      len, rpos := 0, 0;
    }

    /** `vc_buf_grow`; `memory` says whether `realloc` would succeed. */
    method Grow(need: nat, memory: bool) returns (ok: bool)
      requires Valid()
      modifies this
      ensures Valid() && (data == old(data) || fresh(data))
      ensures ok == (old(data.Length - len) >= need || memory)
      ensures if ok then data.Length - len >= need else data == old(data)
      ensures len == old(len) && rpos == old(rpos) && Contents() == old(Contents())
    {
      if data.Length - len >= need { return true; }
      var nc := data.Length * 2;
      while nc - len < need
        invariant nc >= data.Length * 2
        decreases need + len - nc
        modifies {}
      {
        nc := nc * 2;
      }
      if !memory { return false; }
      var nd := new byte[nc](i => 0);
      var i := 0;
      while i < len
        invariant 0 <= i <= len && nd[..i] == data[..i]
        modifies nd
      {
        nd[i] := data[i];
        i := i + 1;
      }
      data := nd;
      return true;
    }

    /** The `APPEND` macro of the reply writers: all of the bytes, or none if the buffer cannot grow. */
    method Append(s: seq<byte>, memory: bool) returns (ok: bool)
      requires Valid()
      modifies this, data
      ensures Valid() && (data == old(data) || fresh(data))
      ensures ok == (old(data.Length - len) >= |s| || memory)
      ensures rpos == old(rpos) && Contents() == old(Contents()) + if ok then s else []
    {
      ok := Grow(|s|, memory);
      if !ok { return; }
      var at := len;
      var i := 0;
      while i < |s|
        invariant 0 <= i <= |s| && data[..at + i] == old(Contents()) + s[..i]
        invariant len == at && rpos == old(rpos) && at + |s| <= data.Length && (data == old(data) || fresh(data))
        modifies data
      {
        data[at + i] := s[i];
        i := i + 1;
      }
      len := at + |s|;
    }

    /** `vc_buf_reset` */
    method Reset()
      requires Valid()
      modifies this
      ensures Valid() && data == old(data) && Contents() == [] && rpos == 0
    {
      len, rpos := 0, 0;
    }

    /** `vc_buf_consume`: a `memmove` to the front. */
    method Consume(n: nat)
      requires Valid()
      modifies this, data
      ensures Valid() && data == old(data)
      ensures Contents() == if n >= old(len) then [] else old(Contents())[n..]
      ensures rpos == if n >= old(len) || old(rpos) < n then 0 else old(rpos) - n
    {
      if n >= len {
        Reset();
        return;
      }
      ShiftDown(data, n, len - n);
      len := len - n;
      rpos := if rpos >= n then rpos - n else 0;
    }
  }

  // ---- reading ----

  class Reader {
    const rbuf: Buffer
    var done: seq<Command>
    var status: Status

    ghost predicate Valid()
      reads this, rbuf
    {
      rbuf.Valid()
    }

    ghost function State(): Conn
      requires Valid()
      reads this, rbuf, rbuf.data
    {
      Conn(rbuf.Contents(), done, status)
    }

    constructor (cap: nat)
      requires cap > 0
      ensures Valid() && fresh(rbuf) && fresh(rbuf.data) && State() == Conn([], [], Open)
    {
      rbuf := new Buffer(cap);
      done, status := [], Open;
    }

    /**
     * One round of `process_conn`, given the bytes the socket delivered before it would
     * block.  If the read buffer cannot grow, the connection is closed.
     */
    method Process(chunk: seq<byte>, quits: Quits, memory: bool)
      requires Valid() && status.Open?
      modifies this, rbuf, rbuf.data
      ensures Valid() && (rbuf.data == old(rbuf.data) || fresh(rbuf.data))
      ensures State() == if old(rbuf.data.Length - rbuf.len) >= |chunk| || memory then Receive(old(State()), chunk, quits)
                         else Conn([], old(done), Closing)
    {
      var ok := rbuf.Append(chunk, memory);
      if !ok {
        status := Closing;
        rbuf.Reset();
        return;
      }
      while rbuf.len > 0
        invariant Valid() && status.Open? && (rbuf.data == old(rbuf.data) || fresh(rbuf.data))
        invariant Drain(rbuf.Contents(), done, quits) == Receive(old(State()), chunk, quits)
        decreases rbuf.len
      {
        var b := rbuf.data[..rbuf.len];
        var r := RespParser.ReadCommand(b);
        hide Parse;
        if r.More? { return; }
        if r.Err? {
          status := ProtocolError;
          rbuf.Reset();
          return;
        }
        done := done + [r.cmd];
        rbuf.Consume(r.consumed);
        assert rbuf.Contents() == b[r.consumed..];
        if quits(done) {
          status := Closing;
          rbuf.Reset();
          return;
        }
      }
    }
  }

  // ---- writing ----

  /** What one `write` on the socket can do. */
  datatype Written = Wrote(n: nat) | Nothing | WouldBlock | Failed

  datatype OutOp = Reply(bytes: seq<byte>, memory: bool) | Flush(results: seq<Written>)

  /** How many of `pending` bytes the socket takes before it stops taking. */
  function Taken(pending: nat, results: seq<Written>): (n: nat)
    ensures n <= pending
  {
    if pending == 0 || results == [] || !results[0].Wrote? || results[0].n == 0 then 0
    else
      var n := if results[0].n < pending then results[0].n else pending;
      n + Taken(pending - n, results[1..])
  }

  /** The first result that is not a write of at least one byte; `|results|` if there is none. */
  function FirstStop(results: seq<Written>): (k: nat)
    ensures k <= |results| && (forall j | 0 <= j < k :: results[j].Wrote? && results[j].n > 0)
    ensures k < |results| ==> !(results[k].Wrote? && results[k].n > 0)
  {
    if results == [] || !results[0].Wrote? || results[0].n == 0 then 0 else 1 + FirstStop(results[1..])
  }

  /** The socket is full: it would block, or nothing more is known of it. */
  predicate Full(results: seq<Written>) {
    var k := FirstStop(results);
    k == |results| || results[k].WouldBlock?
  }

  /** The replies that found room, in order; `kept[i]` says whether the `i`th operation did. */
  function Replies(ops: seq<OutOp>, kept: seq<bool>): seq<byte>
    requires |kept| == |ops|
  {
    if ops == [] then []
    else
      var n := |ops| - 1;
      Replies(ops[..n], kept[..n]) + (if ops[n].Reply? && kept[n] then ops[n].bytes else [])
  }

  /** How many of those bytes the socket has not taken. */
  function Behind(ops: seq<OutOp>, kept: seq<bool>): nat
    requires |kept| == |ops|
  {
    if ops == [] then 0
    else
      var n := |ops| - 1;
      AfterOne(Behind(ops[..n], kept[..n]), ops[n], kept[n])
  }

  function AfterOne(b: nat, op: OutOp, kept: bool): nat {
    match op
    case Reply(s, _) => if kept then b + |s| else b
    case Flush(rs) => b - Taken(b, rs)
  }

  /** The `i`th operation is a flush that left bytes behind on a socket that is not full. */
  predicate Breaks(ops: seq<OutOp>, kept: seq<bool>, i: nat)
    requires i < |kept| <= |ops|
  {
    ops[i].Flush? && Behind(ops[..i + 1], kept[..i + 1]) > 0 && !Full(ops[i].results)
  }

  /** The last operation breaks the connection if it is closed, and no other does. */
  predicate BreaksOnlyLast(ops: seq<OutOp>, kept: seq<bool>, open: bool)
    requires |kept| <= |ops|
  {
    (!open ==> kept != []) && forall i | 0 <= i < |kept| :: Breaks(ops, kept, i) <==> !open && i == |kept| - 1
  }

  /** What one more operation adds. */
  lemma RunGrows(ops: seq<OutOp>, kept: seq<bool>, ok: bool)
    requires |kept| < |ops|
    ensures var n := |kept|;
            && Replies(ops[..n + 1], kept + [ok]) == Replies(ops[..n], kept) + (if ops[n].Reply? && ok then ops[n].bytes else [])
            && Behind(ops[..n + 1], kept + [ok]) == AfterOne(Behind(ops[..n], kept), ops[n], ok)
  {
    var n := |kept|;
    var xs, ks := ops[..n + 1], kept + [ok];
    assert xs[..n] == ops[..n] && ks[..n] == kept && xs[n] == ops[n];
    hide Taken;
  }

  lemma AfterOneIs(b: nat, op: OutOp, ok: bool)
    ensures op.Reply? ==> AfterOne(b, op, ok) == b + if ok then |op.bytes| else 0
    ensures op.Flush? ==> AfterOne(b, op, ok) == b - Taken(b, op.results)
  {
  }

  lemma OneMore(ops: seq<OutOp>, was: seq<bool>, ok: bool, open: bool)
    requires |was| < |ops| && BreaksOnlyLast(ops, was, true)
    requires open <==> !(ops[|was|].Flush? && Behind(ops[..|was| + 1], was + [ok]) > 0 && !Full(ops[|was|].results))
    ensures BreaksOnlyLast(ops, was + [ok], open)
  {
    hide Behind;
    hide Full;
    hide Taken;
    var kept := was + [ok];
    assert kept[..|was| + 1] == kept;
    forall i | 0 <= i < |was| ensures !Breaks(ops, kept, i) {
      assert kept[..i + 1] == was[..i + 1];
      assert !Breaks(ops, was, i);
    }
  }

  class Writer {
    const wbuf: Buffer
    /** What the peer has received. */
    ghost var sent: seq<byte>

    ghost predicate Valid()
      reads this, wbuf
    {
      wbuf.Valid()
    }

    /** Everything sent or still to be sent, in order. */
    ghost function Stream(): seq<byte>
      requires Valid()
      reads this, wbuf, wbuf.data
    {
      sent + wbuf.Unsent()
    }

    constructor (cap: nat)
      requires cap > 0
      ensures Valid() && fresh(wbuf) && fresh(wbuf.data) && Stream() == [] && sent == []
    {
      wbuf := new Buffer(cap);
      sent := [];
    }

    method AppendReply(s: seq<byte>, memory: bool) returns (ok: bool)
      requires Valid()
      modifies wbuf, wbuf.data
      ensures Valid() && (wbuf.data == old(wbuf.data) || fresh(wbuf.data)) && (memory ==> ok)
      ensures Stream() == old(Stream()) + (if ok then s else []) && sent == old(sent)
    {
      ghost var before := wbuf.Contents();
      ok := wbuf.Append(s, memory);
      ghost var added := if ok then s else [];
      assert wbuf.Unsent() == wbuf.Contents()[wbuf.rpos..];
      assert (before + added)[wbuf.rpos..] == before[wbuf.rpos..] + added;
      assert before[wbuf.rpos..] == old(wbuf.Unsent());
    }

    /** The socket took `n` bytes. */
    method Advance(n: nat)
      requires Valid() && n <= wbuf.len - wbuf.rpos
      modifies this, wbuf`rpos
      ensures Valid() && wbuf.rpos == old(wbuf.rpos) + n && |sent| == |old(sent)| + n
      ensures Stream() == old(Stream()) && old(sent) <= sent
    {
      ghost var part := wbuf.data[wbuf.rpos..wbuf.rpos + n];
      assert wbuf.Unsent() == part + wbuf.data[wbuf.rpos + n..wbuf.len];
      sent := sent + part;
      wbuf.rpos := wbuf.rpos + n;
    }

    /** `conn_flush`; `results` are the returns of the successive writes. */
    method FlushTo(results: seq<Written>) returns (code: int)
      requires Valid()
      modifies this, wbuf
      ensures Valid() && wbuf.data == old(wbuf.data)
      ensures Stream() == old(Stream()) && old(sent) <= sent
      ensures |sent| == |old(sent)| + Taken(old(wbuf.len - wbuf.rpos), results)
      ensures code == 0 <==> sent == old(Stream())
      ensures code == 1 <==> sent != old(Stream()) && Full(results)
      ensures code == -1 <==> sent != old(Stream()) && !Full(results)
      ensures code == 0 ==> wbuf.len == 0
    {
      var k := 0;
      while wbuf.rpos < wbuf.len
        invariant Valid() && wbuf.data == old(wbuf.data) && 0 <= k <= |results|
        invariant Stream() == old(Stream()) && old(sent) <= sent
        invariant |sent| + Taken(wbuf.len - wbuf.rpos, results[k..]) == |old(sent)| + Taken(old(wbuf.len - wbuf.rpos), results)
        invariant forall j | 0 <= j < k :: results[j].Wrote? && results[j].n > 0
        decreases |results| - k
      {
        if k == |results| { return 1; }
        assert results[k..][0] == results[k] && results[k..][1..] == results[k + 1..];
        match results[k] {
          case Wrote(m) =>
            var n := if m < wbuf.len - wbuf.rpos then m else wbuf.len - wbuf.rpos;
            if n == 0 { return -1; }
            Advance(n);
          case Nothing => return -1;
          case WouldBlock => return 1;
          case Failed => return -1;
        }
        k := k + 1;
      }
      assert wbuf.Unsent() == [];
      wbuf.Reset();
      return 0;
    }

    /** One reply or flush; `open` says whether the connection survives it. */
    method Step(op: OutOp) returns (ok: bool, open: bool)
      requires Valid()
      modifies this, wbuf, wbuf.data
      ensures Valid() && (wbuf.data == old(wbuf.data) || fresh(wbuf.data)) && (op.Reply? && op.memory ==> ok)
      ensures Stream() == old(Stream()) + if op.Reply? && ok then op.bytes else []
      ensures old(sent) <= sent && |Stream()| == |sent| + Unsent()
      ensures op.Reply? ==> Unsent() == old(Unsent()) + if ok then |op.bytes| else 0
      ensures op.Flush? ==> Unsent() == old(Unsent()) - Taken(old(Unsent()), op.results)
      ensures open <==> !(op.Flush? && Unsent() > 0 && !Full(op.results))
    {
      ok, open := true, true;
      match op {
        case Reply(s, memory) => ok := AppendReply(s, memory);
        case Flush(rs) =>
          var code := FlushTo(rs);
          open := code != -1;
          assert sent == Stream() <==> Unsent() == 0;
      }
    }

    ghost function Unsent(): nat
      requires Valid()
      reads this, wbuf
    {
      wbuf.len - wbuf.rpos
    }

    /**
     * Over every run of replies and partial flushes the peer sees an in-order prefix of
     * the replies that found room, and with memory to grow every reply does.  The
     * connection is closed at the first flush that leaves bytes behind on a socket that
     * is not full, and at no other.
     */
    method Session(ops: seq<OutOp>) returns (kept: seq<bool>, open: bool)
      requires Valid() && Stream() == [] && sent == []
      modifies this, wbuf, wbuf.data
      ensures Valid() && |kept| <= |ops| && (open ==> |kept| == |ops|)
      ensures forall i | 0 <= i < |kept| && ops[i].Reply? && ops[i].memory :: kept[i]
      ensures Stream() == Replies(ops[..|kept|], kept) && sent <= Stream()
      ensures |sent| + Behind(ops[..|kept|], kept) == |Stream()|
      ensures BreaksOnlyLast(ops, kept, open)
    {
      kept, open := [], true;
      while open && |kept| < |ops|
        invariant |kept| <= |ops| && Valid() && (wbuf.data == old(wbuf.data) || fresh(wbuf.data))
        invariant forall k | 0 <= k < |kept| && ops[k].Reply? && ops[k].memory :: kept[k]
        invariant Stream() == Replies(ops[..|kept|], kept) && |Stream()| == |sent| + Unsent()
        invariant Unsent() == Behind(ops[..|kept|], kept)
        invariant BreaksOnlyLast(ops, kept, open)
        decreases |ops| - |kept|
      {
        hide *;
        var ok;
        ghost var was := kept;
        ok, open := Step(ops[|kept|]);
        RunGrows(ops, kept, ok);
        kept := kept + [ok];
        AfterOneIs(Behind(ops[..|was|], was), ops[|was|], ok);
        OneMore(ops, was, ok, open);
      }
    }
  }
}
