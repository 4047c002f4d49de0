/**
 The encoder packet queue: a byte ring that stores every packet contiguously.

 `Ring` is the queue as a value and the functions below are its critical
 sections. `Contents` is what a client sees: a FIFO of stamped byte strings.
 The class at the end of the file is the queue updated in place.
 */
module PacketQueue {
  import opened Bytes
  import opened Wrappers

  /** The two presentation timestamps that a packet carries. */
  datatype Stamp = Stamp(pts: int, tv: int)

  /** A packet of the list; `data` is an index into the buffer. */
  datatype Packet = Packet(data: int, size: nat, stamp: Stamp, padding: nat)

  datatype Ring = Ring(buf: seq<byte>, datasize: int, head: int, tail: int, pkts: seq<Packet>)

  datatype Message = Message(bytes: seq<byte>, stamp: Stamp)

  function Fresh(bufsize: nat): (r: Ring)
    ensures Inv(r) && Contents(r) == []
  {
    Ring(seq(bufsize, _ => 0), 0, 0, 0, [])
  }

  // ---------------------------------------------------------------- abstraction

  function Span(p: Packet): nat { p.size + p.padding }

  function Occupied(pkts: seq<Packet>): nat
  {
    if pkts == [] then 0 else Span(pkts[0]) + Occupied(pkts[1..])
  }

  ghost predicate InBuffer(p: Packet, n: nat) { 0 <= p.data && p.data + p.size <= n }

  /** What every operation keeps, whatever the packet sizes. */
  ghost predicate WF(r: Ring)
  {
    && r.datasize == Occupied(r.pkts)
    && 0 <= r.tail <= |r.buf|
    && (forall i :: 0 <= i < |r.pkts| ==> InBuffer(r.pkts[i], |r.buf|))
    && (r.pkts != [] && r.pkts[|r.pkts| - 1].padding > 0 ==> r.tail == 0)
  }

  ghost function Payload(buf: seq<byte>, p: Packet): seq<byte>
    requires InBuffer(p, |buf|)
  {
    buf[p.data..p.data + p.size]
  }

  ghost function Contents(r: Ring): (c: seq<Message>)
    requires WF(r)
    ensures |c| == |r.pkts|
  {
    seq(|r.pkts|, i requires 0 <= i < |r.pkts| => Message(Payload(r.buf, r.pkts[i]), r.pkts[i].stamp))
  }

  /** Positions are counted from `head` without wrapping, up to `head + bufsize`. */
  function Wrap(x: int, n: nat): int { if x < n then x else x - n }

  /** A packet at unwrapped position `x` does not straddle the end of the buffer,
      and carries padding only when it reaches that end. */
  ghost predicate Fits(p: Packet, x: int, n: nat)
  {
    && (x + Span(p) <= n || n <= x)
    && (p.size > 0 ==> p.data == Wrap(x, n))
    && (p.padding > 0 ==> x + Span(p) == n)
  }

  /** The packets and their paddings lie one after the other from position `x` on. */
  ghost predicate Tiled(pkts: seq<Packet>, x: int, n: nat)
  {
    pkts == [] || (Fits(pkts[0], x, n) && Tiled(pkts[1..], x + Span(pkts[0]), n))
  }

  ghost predicate Inv(r: Ring)
  {
    && WF(r)
    && r.datasize <= |r.buf|
    && 0 <= r.head && (r.head < |r.buf| || r.head == 0)
    && (r.datasize == 0 ==> r.head == 0)
    && Tiled(r.pkts, r.head, |r.buf|)
    && r.tail == Wrap(r.head + r.datasize, |r.buf|)
  }

  // ------------------------------------------------------------------ operations

  predicate Room(r: Ring, size: nat) { r.datasize + size <= |r.buf| }

  /** The end of the buffer is too short for the packet: skip it. */
  function SkipEnd(r: Ring): (s: Ring)
    requires WF(r) && r.tail > 0
    ensures WF(s) && s.buf == r.buf && s.tail == 0
  {
    if r.pkts == [] then r.(datasize := 0, tail := 0, head := 0)
    else
      var last := |r.pkts| - 1;
      var padding := |r.buf| - r.tail;
      OccupiedUpdateLast(r.pkts, r.pkts[last].(padding := padding));
      r.(pkts := r.pkts[last := r.pkts[last].(padding := padding)],
         datasize := r.datasize + padding, tail := 0)
  }

  function StoreAtTail(r: Ring, payload: seq<byte>, stamp: Stamp): (s: Ring)
    requires WF(r) && r.tail + |payload| <= |r.buf|
    ensures WF(s) && |s.buf| == |r.buf|
  {
    var size := |payload|;
    var tail := r.tail + size;
    OccupiedConcat(r.pkts, [Packet(r.tail, size, stamp, 0)]);
    Ring(Splice(r.buf, r.tail, payload), r.datasize + size, r.head,
         if tail == |r.buf| then 0 else tail,
         r.pkts + [Packet(r.tail, size, stamp, 0)])
  }

  /** The recursive call is the source's jump back to the size check. */
  function Append(r: Ring, payload: seq<byte>, stamp: Stamp): (s: (Ring, bool))
    requires WF(r)
    ensures WF(s.0) && |s.0.buf| == |r.buf|
    decreases r.tail
  {
    if !Room(r, |payload|) then (r, false)
    else if |r.buf| - r.tail < |payload| then Append(SkipEnd(r), payload, stamp)
    else (StoreAtTail(r, payload, stamp), true)
  }

  function SplitPacket(r: Ring, offset: int): (s: Ring)
    requires WF(r)
    ensures WF(s) && s.buf == r.buf
  {
    if r.pkts == [] || offset <= r.pkts[0].data || offset >= r.pkts[0].data + r.pkts[0].size then r
    else
      var p := r.pkts[0];
      var first := p.(size := offset - p.data, padding := 0);
      var rest := p.(data := offset, size := p.size - first.size);
      assert [first, rest][1..] == [rest];
      OccupiedConcat([first, rest], r.pkts[1..]);
      OccupiedConcat([p], r.pkts[1..]);
      assert r.pkts == [p] + r.pkts[1..];
      r.(pkts := [first, rest] + r.pkts[1..])
  }

  function PopFront(r: Ring): (s: Ring)
    requires WF(r)
    ensures WF(s) && s.buf == r.buf
  {
    if r.pkts == [] then r
    else
      var sum := r.head + Span(r.pkts[0]);
      var head := if sum == |r.buf| then 0 else sum;
      var empty := head == r.tail;
      r.(pkts := r.pkts[1..], datasize := r.datasize - Span(r.pkts[0]),
         head := if empty then 0 else head, tail := if empty then 0 else r.tail)
  }

  function Reset(r: Ring): (s: Ring)
    ensures Inv(s) && Contents(s) == [] && s.buf == r.buf
  {
    Ring(r.buf, 0, 0, 0, [])
  }

  // ------------------------------------------------------------- facts about sums

  lemma {:induction false} OccupiedConcat(a: seq<Packet>, b: seq<Packet>)
    ensures Occupied(a + b) == Occupied(a) + Occupied(b)
  {
    if a == [] {
      assert a + b == b;
    } else {
      assert (a + b)[1..] == a[1..] + b;
      OccupiedConcat(a[1..], b);
    }
  }

  lemma OccupiedUpdateLast(pkts: seq<Packet>, p: Packet)
    requires pkts != []
    ensures Occupied(pkts[|pkts| - 1 := p]) == Occupied(pkts) - Span(pkts[|pkts| - 1]) + Span(p)
  {
    var last := |pkts| - 1;
    assert pkts == pkts[..last] + [pkts[last]];
    assert pkts[last := p] == pkts[..last] + [p];
    OccupiedConcat(pkts[..last], [pkts[last]]);
    OccupiedConcat(pkts[..last], [p]);
  }

  // ------------------------------------------------------------------ tiling facts

  lemma {:induction false} TiledConcat(pkts: seq<Packet>, p: Packet, x: int, n: nat)
    requires Tiled(pkts, x, n) && Fits(p, x + Occupied(pkts), n)
    ensures Tiled(pkts + [p], x, n)
  {
    if pkts == [] {
      assert pkts + [p] == [p] && [p][1..] == [];
    } else {
      TiledConcat(pkts[1..], p, x + Span(pkts[0]), n);
      assert (pkts + [p])[1..] == pkts[1..] + [p];
    }
  }

  lemma {:induction false} TiledInit(pkts: seq<Packet>, x: int, n: nat)
    requires pkts != [] && Tiled(pkts, x, n)
    ensures Tiled(pkts[..|pkts| - 1], x, n)
    ensures Fits(pkts[|pkts| - 1], x + Occupied(pkts[..|pkts| - 1]), n)
  {
    if |pkts| > 1 {
      TiledInit(pkts[1..], x + Span(pkts[0]), n);
      assert pkts[1..][..|pkts| - 2] == pkts[..|pkts| - 1][1..];
    }
  }

  /** Positions that have all passed the end of the buffer can be counted afresh. */
  lemma {:induction false} TiledShift(pkts: seq<Packet>, x: int, n: nat)
    requires n <= x && x - n + Occupied(pkts) <= n && Tiled(pkts, x, n)
    ensures Tiled(pkts, x - n, n)
  {
    if pkts != [] {
      assert pkts[0].padding == 0;
      TiledShift(pkts[1..], x + Span(pkts[0]), n);
    }
  }

  /** Packets without bytes lie anywhere. */
  lemma {:induction false} TiledEmpty(pkts: seq<Packet>, x: int, n: nat)
    requires Occupied(pkts) == 0 && 0 <= x <= n
    ensures Tiled(pkts, x, n)
  {
    if pkts != [] {
      TiledEmpty(pkts[1..], x, n);
    }
  }

  /** Packets with bytes lie at one place only. */
  lemma {:induction false} TiledUnique(pkts: seq<Packet>, x: int, n: nat)
    requires Tiled(pkts, x, n) && Tiled(pkts, 0, n) && Occupied(pkts) > 0
    requires 0 <= x < n
    ensures x == 0
  {
    if Span(pkts[0]) == 0 {
      TiledUnique(pkts[1..], x, n);
    }
  }

  /** Live packets do not overlap the bytes that an accepted packet is written to. */
  lemma {:induction false} TailIsFree(pkts: seq<Packet>, x: int, head: int, size: nat, n: nat)
    requires Tiled(pkts, x, n) && 0 <= head <= x
    requires x + Occupied(pkts) + size <= head + n
    ensures forall i | 0 <= i < |pkts| && pkts[i].size > 0 ::
              var t := Wrap(x + Occupied(pkts), n);
              pkts[i].data + pkts[i].size <= t || t + size <= pkts[i].data
  {
    if pkts != [] {
      TailIsFree(pkts[1..], x + Span(pkts[0]), head, size, n);
      forall i | 0 < i < |pkts| ensures pkts[i] == pkts[1..][i - 1] {}
    }
  }

  lemma {:induction false} ApartFromFirst(p: Packet, y: int, pkts: seq<Packet>, x: int, n: nat)
    requires 0 <= y < n && Fits(p, y, n) && p.size > 0 && Tiled(pkts, x, n)
    requires y + Span(p) <= x && x + Occupied(pkts) <= y + n
    ensures forall i | 0 <= i < |pkts| && pkts[i].size > 0 :: Apart(p, pkts[i])
  {
    if pkts != [] {
      ApartFromFirst(p, y, pkts[1..], x + Span(pkts[0]), n);
      forall i | 0 < i < |pkts| ensures pkts[i] == pkts[1..][i - 1] {}
    }
  }

  ghost predicate Apart(p: Packet, q: Packet)
  {
    p.data + p.size <= q.data || q.data + q.size <= p.data
  }

  lemma {:induction false} TiledApart(pkts: seq<Packet>, x: int, n: nat, i: nat, j: nat)
    requires Tiled(pkts, x, n) && Occupied(pkts) <= n && 0 <= x
    requires i < j < |pkts| && pkts[i].size > 0 && pkts[j].size > 0
    ensures Apart(pkts[i], pkts[j])
  {
    var p, y := pkts[0], x + Span(pkts[0]);
    if i > 0 {
      TiledApart(pkts[1..], y, n, i - 1, j - 1);
    } else if x < n {
      ApartFromFirst(p, x, pkts[1..], y, n);
      assert pkts[j] == pkts[1..][j - 1];
    } else {
      AscendingAfter(pkts[1..], y, n, j - 1);
    }
  }

  /** Past the end of the buffer the packets go up without a further wrap. */
  lemma {:induction false} AscendingAfter(pkts: seq<Packet>, x: int, n: nat, j: nat)
    requires n <= x && Tiled(pkts, x, n) && j < |pkts| && pkts[j].size > 0
    ensures x - n <= pkts[j].data
  {
    if j > 0 {
      AscendingAfter(pkts[1..], x + Span(pkts[0]), n, j - 1);
    }
  }

  /** The bytes of two queued packets never overlap. */
  lemma LiveRegionsDisjoint(r: Ring, i: nat, j: nat)
    requires Inv(r) && i < j < |r.pkts| && r.pkts[i].size > 0 && r.pkts[j].size > 0
    ensures Apart(r.pkts[i], r.pkts[j])
  {
    TiledApart(r.pkts, r.head, |r.buf|, i, j);
  }

  // ------------------------------------------------------------- append

  lemma PadLastTiled(pkts: seq<Packet>, padding: nat, x: int, n: nat)
    requires pkts != [] && Tiled(pkts, x, n) && pkts[|pkts| - 1].padding == 0
    requires x + Occupied(pkts) + padding == n
    ensures var last := |pkts| - 1; Tiled(pkts[last := pkts[last].(padding := padding)], x, n)
  {
    var last := |pkts| - 1;
    var q := pkts[last].(padding := padding);
    TiledInit(pkts, x, n);
    assert pkts == pkts[..last] + [pkts[last]];
    OccupiedConcat(pkts[..last], [pkts[last]]);
    assert pkts[last := q] == pkts[..last] + [q];
    TiledConcat(pkts[..last], q, x, n);
  }

  lemma SkipEndKeeps(r: Ring, size: nat)
    requires Inv(r) && Room(r, size) && |r.buf| - r.tail < size
    ensures r.pkts != [] && r.tail > 0
    ensures Inv(SkipEnd(r)) && Contents(SkipEnd(r)) == Contents(r)
    ensures SkipEnd(r).datasize == |r.buf| - r.head
  {
    hide Tiled;
    var last := |r.pkts| - 1;
    PadLastTiled(r.pkts, |r.buf| - r.tail, r.head, |r.buf|);
    assert forall i :: 0 <= i < |r.pkts| ==> Contents(SkipEnd(r))[i] == Contents(r)[i];
  }

  lemma SpliceBeside(buf: seq<byte>, at: nat, payload: seq<byte>, p: Packet)
    requires InBuffer(p, |buf|) && at + |payload| <= |buf|
    requires p.size > 0 ==> p.data + p.size <= at || at + |payload| <= p.data
    ensures Payload(Splice(buf, at, payload), p) == Payload(buf, p)
  {
  }

  lemma StoreAtTailRefines(r: Ring, payload: seq<byte>, stamp: Stamp)
    requires Inv(r) && Room(r, |payload|) && |payload| <= |r.buf| - r.tail
    ensures var s := StoreAtTail(r, payload, stamp);
            && Inv(s) && Contents(s) == Contents(r) + [Message(payload, stamp)]
            && (forall i :: 0 <= i < |r.pkts| ==>
                  s.pkts[i] == r.pkts[i] && Payload(s.buf, r.pkts[i]) == Payload(r.buf, r.pkts[i]))
  {
    hide Tiled, Occupied;
    var s, n, last := StoreAtTail(r, payload, stamp), |r.buf|, |r.pkts|;
    var p := Packet(r.tail, |payload|, stamp, 0);
    StoreAtTailTiled(r, p);
    TailIsFree(r.pkts, r.head, r.head, |payload|, n);
    forall i | 0 <= i < last
      ensures s.pkts[i] == r.pkts[i] && Payload(s.buf, r.pkts[i]) == Payload(r.buf, r.pkts[i])
    {
      SpliceBeside(r.buf, r.tail, payload, r.pkts[i]);
    }
    assert s.pkts[last] == p && Payload(s.buf, p) == payload;
  }

  lemma StoreAtTailTiled(r: Ring, p: Packet)
    requires Inv(r) && Room(r, p.size) && p.size <= |r.buf| - r.tail && p.data == r.tail && p.padding == 0
    ensures Tiled(r.pkts + [p], r.head, |r.buf|) && Occupied(r.pkts + [p]) == r.datasize + p.size
  {
    TiledConcat(r.pkts, p, r.head, |r.buf|);
    OccupiedConcat(r.pkts, [p]);
    assert [p][1..] == [];
  }

  /** An append is accepted exactly when the ring has room and the payload fits in one
      piece behind the tail or before the head; then it adds that payload at the back of
      the FIFO. A refused append leaves the FIFO as it was, but when only the place was missing
      it has given up the end of the buffer. */
  lemma AppendRefines(r: Ring, payload: seq<byte>, stamp: Stamp)
    requires Inv(r)
    ensures var (s, ok) := Append(r, payload, stamp);
            && Inv(s)
            && (ok <==> r.datasize + |payload| <= |r.buf|
                        && (|payload| <= |r.buf| - r.tail || |payload| <= r.head))
            && Contents(s) == Contents(r) + (if ok then [Message(payload, stamp)] else [])
            && (!ok ==> if r.datasize + |payload| <= |r.buf| then s.tail == 0 && s.datasize == |r.buf| - r.head
                        else s == r)
  {
    var size := |payload|;
    if Room(r, size) {
      if |r.buf| - r.tail < size {
        SkipEndKeeps(r, size);
        if Room(SkipEnd(r), size) {
          StoreAtTailRefines(SkipEnd(r), payload, stamp);
        }
      } else {
        StoreAtTailRefines(r, payload, stamp);
      }
    }
  }

  /** The jump back is taken at most once, and never on an empty list. */
  lemma RetryOnce(r: Ring, size: nat)
    requires Inv(r) && Room(r, size) && |r.buf| - r.tail < size
    ensures r.pkts != []
    ensures var s := SkipEnd(r); !(Room(s, size) && |s.buf| - s.tail < size)
  {
    SkipEndKeeps(r, size);
  }

  // ------------------------------------------------------------- split and pop

  predicate SplitsFirst(r: Ring, offset: int)
  {
    r.pkts != [] && r.pkts[0].data < offset < r.pkts[0].data + r.pkts[0].size
  }

  lemma SplitTiled(pkts: seq<Packet>, a: Packet, b: Packet, x: int, n: nat)
    requires pkts != [] && Tiled(pkts, x, n)
    requires a.size > 0 && b.size > 0 && a.size + b.size == pkts[0].size
    requires a.data == pkts[0].data && b.data == a.data + a.size && a.padding == 0 && b.padding == pkts[0].padding
    ensures Tiled([a, b] + pkts[1..], x, n)
  {
    var s := [a, b] + pkts[1..];
    assert s[1..] == [b] + pkts[1..] && s[1..][1..] == pkts[1..];
  }

  /** The first message cut in two after `k` bytes. */
  ghost function CutFirst(msgs: seq<Message>, k: nat): seq<Message>
    requires msgs != [] && k <= |msgs[0].bytes|
  {
    [Message(msgs[0].bytes[..k], msgs[0].stamp), Message(msgs[0].bytes[k..], msgs[0].stamp)] + msgs[1..]
  }

  /** A split inside the first packet replaces it by two that keep its stamp and its bytes;
      any other split does nothing. */
  lemma SplitRefines(r: Ring, offset: int)
    requires Inv(r)
    ensures var s := SplitPacket(r, offset);
            && Inv(s) && s.datasize == r.datasize
            && (!SplitsFirst(r, offset) ==> s == r)
            && (SplitsFirst(r, offset) ==> Contents(s) == CutFirst(Contents(r), offset - r.pkts[0].data))
  {
    if SplitsFirst(r, offset) {
      hide Occupied;
      var s := SplitPacket(r, offset);
      SplitTiled(r.pkts, s.pkts[0], s.pkts[1], r.head, |r.buf|);
      assert r.pkts[0] in r.pkts;
      var want := CutFirst(Contents(r), offset - r.pkts[0].data);
      forall i | 0 <= i < |s.pkts|
        ensures Contents(s)[i] == want[i]
      {
        if i > 1 { assert s.pkts[i] == r.pkts[i - 1]; }
      }
    }
  }

  /** The one pop that the source gets wrong: a first packet without bytes and without
      padding, in a full ring whose head is not at the start of the buffer. */
  predicate PopResetsLiveRing(r: Ring)
  {
    r.pkts != [] && Span(r.pkts[0]) == 0 && r.head == r.tail && r.head != 0
  }

  lemma PopDropsFirst(r: Ring)
    requires WF(r)
    ensures Contents(PopFront(r)) == if r.pkts == [] then [] else Contents(r)[1..]
  {
  }

  lemma PopKeepsInvIff(r: Ring)
    requires Inv(r)
    ensures Inv(PopFront(r)) <==> !PopResetsLiveRing(r)
  {
    if r.pkts != [] {
      var s, n, x := PopFront(r), |r.buf|, r.head + Span(r.pkts[0]);
      assert Tiled(s.pkts, x, n);
      if PopResetsLiveRing(r) {
        if Inv(s) { TiledUnique(s.pkts, x, n); }
      } else {
        if s.datasize == 0 {
          TiledEmpty(s.pkts, 0, n);
        } else if x == n {
          TiledShift(s.pkts, x, n);
        }
      }
    }
  }

  // ------------------------------------------------------------- whole runs

  datatype Op = AppendOp(payload: seq<byte>, stamp: Stamp) | SplitOp(offset: int) | PopOp | ResetOp

  /** The ring, with what it accepted and what was popped since the last reset. */
  datatype World = World(ring: Ring, accepted: seq<Message>, delivered: seq<Message>)

  ghost function Step(w: World, op: Op): (v: World)
    requires WF(w.ring)
    ensures WF(v.ring) && |v.ring.buf| == |w.ring.buf|
  {
    match op
    case AppendOp(payload, stamp) =>
      var (s, ok) := Append(w.ring, payload, stamp);
      World(s, w.accepted + if ok then [Message(payload, stamp)] else [], w.delivered)
    case SplitOp(offset) => w.(ring := SplitPacket(w.ring, offset))
    case PopOp => World(PopFront(w.ring), w.accepted,
                        w.delivered + if w.ring.pkts == [] then [] else [Contents(w.ring)[0]])
    case ResetOp => World(Reset(w.ring), [], [])
  }

  ghost function Run(w: World, ops: seq<Op>): (v: World)
    requires WF(w.ring)
    ensures WF(v.ring) && |v.ring.buf| == |w.ring.buf|
    decreases |ops|
  {
    if ops == [] then w else Run(Step(w, ops[0]), ops[1..])
  }

  /** No pop of the run meets the state that the source gets wrong. */
  ghost predicate Clean(w: World, ops: seq<Op>)
    requires WF(w.ring)
    decreases |ops|
  {
    ops == [] || (!(ops[0].PopOp? && PopResetsLiveRing(w.ring)) && Clean(Step(w, ops[0]), ops[1..]))
  }

  /** The messages byte by byte, each byte with its stamp: what splitting cannot change. */
  function Stream(msgs: seq<Message>): seq<(byte, Stamp)>
  {
    if msgs == [] then [] else Stamped(msgs[0]) + Stream(msgs[1..])
  }

  function Stamped(m: Message): seq<(byte, Stamp)>
  {
    seq(|m.bytes|, i requires 0 <= i < |m.bytes| => (m.bytes[i], m.stamp))
  }

  lemma {:induction false} StreamConcat(a: seq<Message>, b: seq<Message>)
    ensures Stream(a + b) == Stream(a) + Stream(b)
  {
    if a == [] {
      assert a + b == b;
    } else {
      assert (a + b)[1..] == a[1..] + b;
      StreamConcat(a[1..], b);
    }
  }

  ghost predicate Conserved(w: World)
    requires WF(w.ring)
  {
    Stream(w.delivered) + Stream(Contents(w.ring)) == Stream(w.accepted)
  }

  lemma StreamCons(m: Message, rest: seq<Message>)
    ensures Stream([m] + rest) == Stamped(m) + Stream(rest)
  {
    assert ([m] + rest)[1..] == rest;
  }

  lemma CutKeepsStream(msgs: seq<Message>, k: nat)
    requires msgs != [] && k <= |msgs[0].bytes|
    ensures Stream(CutFirst(msgs, k)) == Stream(msgs)
  {
    hide Stream;
    var m, rest := msgs[0], msgs[1..];
    var a, b := Message(m.bytes[..k], m.stamp), Message(m.bytes[k..], m.stamp);
    assert Stamped(m) == Stamped(a) + Stamped(b);
    assert CutFirst(msgs, k) == [a] + ([b] + rest) && msgs == [m] + rest;
    StreamCons(a, [b] + rest);
    StreamCons(b, rest);
    StreamCons(m, rest);
    ConcatAssoc(Stamped(a), Stamped(b), Stream(rest));
  }

  ghost predicate Listed(w: World)
    requires WF(w.ring)
  {
    w.delivered + Contents(w.ring) == w.accepted
  }

  lemma StreamAppend(d: seq<Message>, c: seq<Message>, added: seq<Message>)
    ensures Stream(d) + Stream(c + added) == Stream(d) + Stream(c) + Stream(added)
    ensures d + (c + added) == d + c + added
  {
    hide Stream;
    StreamConcat(c, added);
    ConcatAssoc(Stream(d), Stream(c), Stream(added));
  }

  lemma StreamMove(d: seq<Message>, c: seq<Message>)
    requires c != []
    ensures Stream(d + [c[0]]) + Stream(c[1..]) == Stream(d) + Stream(c)
  {
    hide Stream;
    StreamConcat(d, [c[0]]);
    StreamConcat([c[0]], c[1..]);
    assert [c[0]] + c[1..] == c;
    ConcatAssoc(Stream(d), Stream([c[0]]), Stream(c[1..]));
  }

  lemma AppendStepKeeps(w: World, payload: seq<byte>, stamp: Stamp)
    requires Inv(w.ring) && Conserved(w)
    ensures var v := Step(w, AppendOp(payload, stamp)); Inv(v.ring) && Conserved(v) && (Listed(w) ==> Listed(v))
  {
    AppendRefines(w.ring, payload, stamp);
    var added := if Append(w.ring, payload, stamp).1 then [Message(payload, stamp)] else [];
    StreamAppend(w.delivered, Contents(w.ring), added);
    StreamConcat(w.accepted, added);
  }

  lemma PopStepKeeps(w: World)
    requires Inv(w.ring) && Conserved(w) && !PopResetsLiveRing(w.ring)
    ensures var v := Step(w, PopOp); Inv(v.ring) && Conserved(v) && (Listed(w) ==> Listed(v))
  {
    PopKeepsInvIff(w.ring);
    PopDropsFirst(w.ring);
    if w.ring.pkts != [] {
      StreamMove(w.delivered, Contents(w.ring));
      MoveFirst(w.delivered, Contents(w.ring));
    } else {
      assert w.delivered + [] == w.delivered;
    }
  }

  lemma StepKeeps(w: World, op: Op)
    requires Inv(w.ring) && Conserved(w)
    requires !(op.PopOp? && PopResetsLiveRing(w.ring))
    ensures Inv(Step(w, op).ring) && Conserved(Step(w, op))
    ensures !op.SplitOp? && Listed(w) ==> Listed(Step(w, op))
  {
    match op
    case AppendOp(payload, stamp) => AppendStepKeeps(w, payload, stamp);
    case SplitOp(offset) =>
      SplitRefines(w.ring, offset);
      if SplitsFirst(w.ring, offset) {
        CutKeepsStream(Contents(w.ring), offset - w.ring.pkts[0].data);
      }
    case PopOp => PopStepKeeps(w);
    case ResetOp =>
  }

  /** Any interleaving of appends, splits, pops and resets keeps the ring's invariant, and what
      was popped followed by what is queued is exactly what was accepted, in order; when the run
      splits nothing this holds packet by packet. */
  lemma {:induction false} RunRefinesFifo(w: World, ops: seq<Op>)
    requires Inv(w.ring) && Conserved(w) && Clean(w, ops)
    ensures Inv(Run(w, ops).ring) && Conserved(Run(w, ops))
    ensures (forall op :: op in ops ==> !op.SplitOp?) && Listed(w) ==> Listed(Run(w, ops))
    decreases |ops|
  {
    if ops != [] {
      StepKeeps(w, ops[0]);
      RunRefinesFifo(Step(w, ops[0]), ops[1..]);
    }
  }

  ghost predicate AllNonempty(r: Ring) { forall i :: 0 <= i < |r.pkts| ==> r.pkts[i].size > 0 }

  /** Runs that append no empty packet never meet the bad pop. */
  lemma {:induction false} NonemptyRunsAreClean(w: World, ops: seq<Op>)
    requires Inv(w.ring) && Conserved(w) && AllNonempty(w.ring)
    requires forall op :: op in ops && op.AppendOp? ==> op.payload != []
    ensures Clean(w, ops)
    decreases |ops|
  {
    if ops != [] {
      assert !(ops[0].PopOp? && PopResetsLiveRing(w.ring));
      StepKeeps(w, ops[0]);
      StepKeepsNonempty(w, ops[0]);
      NonemptyRunsAreClean(Step(w, ops[0]), ops[1..]);
    }
  }

  /** The headline: from a new queue of any size, whatever the interleaving, as long as no empty packet is
      appended, the bytes popped followed by the bytes queued are the bytes accepted, in order, each with
      its stamp, and the packets tile the ring. */
  lemma QueueIsFifo(bufsize: nat, ops: seq<Op>)
    requires forall op :: op in ops && op.AppendOp? ==> op.payload != []
    ensures var w := Run(World(Fresh(bufsize), [], []), ops);
            && Inv(w.ring) && |w.ring.buf| == bufsize && Conserved(w)
            && ((forall op :: op in ops ==> !op.SplitOp?) ==> Listed(w))
  {
    var w := World(Fresh(bufsize), [], []);
    assert Conserved(w) && Listed(w);
    NonemptyRunsAreClean(w, ops);
    RunRefinesFifo(w, ops);
  }

  lemma StepKeepsNonempty(w: World, op: Op)
    requires WF(w.ring) && AllNonempty(w.ring) && (op.AppendOp? ==> op.payload != [])
    ensures AllNonempty(Step(w, op).ring)
  {
    if op.AppendOp? {
      AppendKeepsNonempty(w.ring, op.payload, op.stamp);
    }
  }

  lemma {:induction false} AppendKeepsNonempty(r: Ring, payload: seq<byte>, stamp: Stamp)
    requires WF(r) && AllNonempty(r) && payload != []
    ensures AllNonempty(Append(r, payload, stamp).0)
    decreases r.tail
  {
    if Room(r, |payload|) && |r.buf| - r.tail < |payload| {
      AppendKeepsNonempty(SkipEnd(r), payload, stamp);
    }
  }

  lemma RunCons(w: World, op: Op, rest: seq<Op>)
    requires WF(w.ring)
    ensures Run(w, [op] + rest) == Run(Step(w, op), rest) && Run(w, []) == w
  {
    assert ([op] + rest)[1..] == rest;
  }

  /** The run of `EmptyPacketLosesData`, on a ring of two bytes. */
  function BadRun(t: Stamp): seq<Op>
  {
    [AppendOp([1], t)] + ([AppendOp([], t)] + ([AppendOp([2], t)] + ([PopOp] +
    ([AppendOp([3], t)] + ([PopOp] + ([PopOp] + ([AppendOp([4], t)] + [])))))))
  }

  lemma StoreStep(w: World, payload: seq<byte>, t: Stamp, buf: seq<byte>)
    requires WF(w.ring) && Room(w.ring, |payload|) && w.ring.tail + |payload| <= |w.ring.buf|
    requires buf == w.ring.buf[..w.ring.tail] + payload + w.ring.buf[w.ring.tail + |payload|..]
    ensures Step(w, AppendOp(payload, t)) ==
            World(Ring(buf, w.ring.datasize + |payload|, w.ring.head,
                       if w.ring.tail + |payload| == |buf| then 0 else w.ring.tail + |payload|,
                       w.ring.pkts + [Packet(w.ring.tail, |payload|, t, 0)]),
                  w.accepted + [Message(payload, t)], w.delivered)
  {
  }

  lemma BadRunFills(t: Stamp, rest: seq<Op>) returns (w: World)
    ensures WF(w.ring)
    ensures Run(World(Fresh(2), [], []), [AppendOp([1], t)] + ([AppendOp([], t)] + ([AppendOp([2], t)] + rest)))
            == Run(w, rest)
    ensures w.ring == Ring([1, 2], 2, 0, 0, [Packet(0, 1, t, 0), Packet(1, 0, t, 0), Packet(1, 1, t, 0)])
    ensures w.accepted == [Message([1], t), Message([], t), Message([2], t)]
  {
    hide Run, Append, WF;
    var w0 := World(Fresh(2), [], []);
    var a, z, b := AppendOp([1], t), AppendOp([], t), AppendOp([2], t);
    RunCons(w0, a, [z] + ([b] + rest));
    StoreStep(w0, [1], t, [1, 0]);
    var w1 := Step(w0, a);
    assert w1.ring == Ring([1, 0], 1, 0, 1, [Packet(0, 1, t, 0)]);
    RunCons(w1, z, [b] + rest);
    StoreStep(w1, [], t, [1, 0]);
    var w2 := Step(w1, z);
    assert w2.ring == Ring([1, 0], 1, 0, 1, [Packet(0, 1, t, 0), Packet(1, 0, t, 0)]);
    RunCons(w2, b, rest);
    StoreStep(w2, [2], t, [1, 2]);
    w := Step(w2, b);
  }

  lemma BadRunEnds(t: Stamp)
    ensures var w := Run(World(Fresh(2), [], []), BadRun(t));
            && w.accepted == [Message([1], t), Message([], t), Message([2], t), Message([3], t), Message([4], t)]
            && w.ring == Ring([4, 2], 2, 1, 1, [Packet(0, 1, t, 0), Packet(0, 1, t, 0)])
  {
    hide Run, Append, WF;
    var c, d := AppendOp([3], t), AppendOp([4], t);
    var w3 := BadRunFills(t, [PopOp] + ([c] + ([PopOp] + ([PopOp] + ([d] + [])))));
    RunCons(w3, PopOp, [c] + ([PopOp] + ([PopOp] + ([d] + []))));
    var w4 := Step(w3, PopOp);
    assert w4.ring == Ring([1, 2], 1, 1, 0, [Packet(1, 0, t, 0), Packet(1, 1, t, 0)]);
    RunCons(w4, c, [PopOp] + ([PopOp] + ([d] + [])));
    StoreStep(w4, [3], t, [3, 2]);
    var w5 := Step(w4, c);
    assert w5.ring == Ring([3, 2], 2, 1, 1, [Packet(1, 0, t, 0), Packet(1, 1, t, 0), Packet(0, 1, t, 0)]);
    RunCons(w5, PopOp, [PopOp] + ([d] + []));
    var w6 := Step(w5, PopOp);
    assert w6.ring == Ring([3, 2], 2, 0, 0, [Packet(1, 1, t, 0), Packet(0, 1, t, 0)]);
    RunCons(w6, PopOp, [d] + []);
    var w7 := Step(w6, PopOp);
    assert w7.ring == Ring([3, 2], 1, 1, 0, [Packet(0, 1, t, 0)]);
    RunCons(w7, d, []);
    StoreStep(w7, [4], t, [4, 2]);
    var w8 := Step(w7, d);
    assert w8.ring == Ring([4, 2], 2, 1, 1, [Packet(0, 1, t, 0), Packet(0, 1, t, 0)]);
    RunCons(w8, d, []);
  }

  /** A run that the source gets wrong: an empty packet reaches the front of a full ring, its pop
      moves the head, and the last append overwrites the queued byte 3. */
  lemma EmptyPacketLosesData(t: Stamp)
    ensures var w := Run(World(Fresh(2), [], []), BadRun(t));
            && w.accepted == [Message([1], t), Message([], t), Message([2], t), Message([3], t), Message([4], t)]
            && |w.ring.pkts| == 2 && Contents(w.ring)[0] == Message([4], t)
  {
    hide Run;
    BadRunEnds(t);
  }

  // ------------------------------------------------------------- what the bad pop leads to

  ghost function Pops(r: Ring, n: nat): (s: Ring)
    requires WF(r)
    ensures WF(s) && |s.buf| == |r.buf|
    decreases n
  {
    if n == 0 then r else Pops(PopFront(r), n - 1)
  }

  lemma {:induction false} PopsDrop(r: Ring, n: nat)
    requires WF(r) && n <= |r.pkts|
    ensures Contents(Pops(r, n)) == Contents(r)[n..] && |Pops(r, n).pkts| == |r.pkts| - n
    decreases n
  {
    if n > 0 {
      PopDropsFirst(r);
      PopsDrop(PopFront(r), n - 1);
    }
  }

  lemma PopsNone(r: Ring)
    requires WF(r)
    ensures Pops(r, 0) == r
  {
  }

  lemma PopShifts(r: Ring, n: nat, i: nat)
    requires WF(r) && n + i + 1 < |r.pkts|
    ensures Pops(r, n + 1) == Pops(PopFront(r), n)
    ensures |PopFront(r).pkts| == |r.pkts| - 1 && Contents(PopFront(r))[n + i] == Contents(r)[n + 1 + i]
  {
    PopDropsFirst(r);
  }

  /** Packets that reach past the end of the buffer have one at its beginning. */
  lemma {:induction false} PacketAtStart(pkts: seq<Packet>, x: int, n: nat) returns (i: nat)
    requires Tiled(pkts, x, n) && x <= n < x + Occupied(pkts)
    ensures i < |pkts| && pkts[i].size > 0 && pkts[i].data == 0
  {
    if x == n && Span(pkts[0]) > 0 {
      i := 0;
    } else {
      i := PacketAtStart(pkts[1..], x + Span(pkts[0]), n);
      i := i + 1;
    }
  }

  /** A full ring whose positions were reset although its packets lie from `x` on. */
  ghost predicate Misplaced(r: Ring, x: int)
  {
    && WF(r) && r.datasize == |r.buf| && r.head == r.tail == 0
    && 0 < x < |r.buf| && Tiled(r.pkts, x, |r.buf|)
  }

  lemma BadPopMisplaces(r: Ring)
    requires Inv(r) && PopResetsLiveRing(r)
    ensures WF(r) && Misplaced(PopFront(r), r.head) && |PopFront(r).pkts| == |r.pkts| - 1
  {
  }

  lemma MisplacedIsWF(r: Ring, x: int)
    requires Misplaced(r, x)
    ensures WF(r)
  {
  }

  /** Popping the first packet with bytes or padding makes room at the beginning of the buffer. */
  lemma MisplacedPop(r: Ring, x: int)
    requires Misplaced(r, x)
    ensures r.pkts != [] && |PopFront(r).pkts| == |r.pkts| - 1
    ensures Span(r.pkts[0]) == 0 ==> Misplaced(PopFront(r), x)
    ensures var (s, m) := (PopFront(r), Span(r.pkts[0]));
            m > 0 ==> x + m <= |r.buf| < x + m + s.datasize && s.tail == 0
                      && s.datasize == |s.buf| - m && Tiled(s.pkts, x + m, |s.buf|)
  {
  }

  lemma OverwriteStart(s: Ring, x: int, m: nat, stamp: Stamp) returns (payload: seq<byte>, i: nat)
    requires WF(s) && m > 0 && s.tail == 0 && s.datasize == |s.buf| - m
    requires Tiled(s.pkts, x, |s.buf|) && x <= |s.buf| < x + s.datasize
    ensures i < |s.pkts|
    ensures var (t, ok) := Append(s, payload, stamp);
            ok && |t.pkts| == |s.pkts| + 1 && Contents(t)[i] != Contents(s)[i]
  {
    i := PacketAtStart(s.pkts, x, |s.buf|);
    hide Tiled, Occupied;
    payload := seq(m, _ => if s.buf[0] == 0 then 1 else 0);
    var t := StoreAtTail(s, payload, stamp);
    var p := s.pkts[i];
    assert t.pkts[i] == p && InBuffer(p, |s.buf|);
    assert Payload(t.buf, p)[0] == payload[0] && Payload(s.buf, p)[0] == s.buf[0];
  }

  lemma {:induction false} MisplacedLosesData(r: Ring, x: int, stamp: Stamp)
      returns (pops: nat, payload: seq<byte>, i: nat)
    requires Misplaced(r, x)
    ensures pops + i < |r.pkts|
    ensures var (t, ok) := Append(Pops(r, pops), payload, stamp);
            ok && |t.pkts| == |Pops(r, pops).pkts| + 1 && i < |t.pkts| && Contents(t)[i] != Contents(r)[pops + i]
    decreases |r.pkts|
  {
    hide Append, WF, Contents, Pops, PopFront;
    MisplacedPop(r, x);
    var s, m := PopFront(r), Span(r.pkts[0]);
    PopDropsFirst(r);
    if m == 0 {
      pops, payload, i := MisplacedLosesData(s, x, stamp);
    } else {
      payload, i := OverwriteStart(s, x + m, m, stamp);
      pops := 0;
      PopsNone(s);
    }
    PopShifts(r, pops, i);
    pops := pops + 1;
  }

  /** The bad pop always leads to a loss: from every state of the invariant that it is taken in, some more
      pops and one append, which is accepted, change the message that was queued in place `i` until then,
      and in place `pops + i` at first. */
  lemma BadPopLosesData(r: Ring, stamp: Stamp) returns (pops: nat, payload: seq<byte>, i: nat)
    requires Inv(r) && PopResetsLiveRing(r)
    ensures 0 < pops && pops + i < |r.pkts|
    ensures var s := Pops(r, pops);
            var (t, ok) := Append(s, payload, stamp);
            && ok && i < |s.pkts| && |t.pkts| == |s.pkts| + 1
            && Contents(s)[i] == Contents(r)[pops + i] != Contents(t)[i]
  {
    hide *;
    BadPopMisplaces(r);
    MisplacedIsWF(PopFront(r), r.head);
    pops, payload, i := MisplacedLosesData(PopFront(r), r.head, stamp);
    PopShifts(r, pops, i);
    pops := pops + 1;
    PopsDrop(r, pops);
  }

  // ------------------------------------------------------------- stability of queued bytes

  ghost predicate Covers(p: Packet, k: int) { p.data <= k < p.data + p.size }

  /** Byte `k` of the buffer belongs to a queued packet. */
  ghost predicate Live(r: Ring, k: int)
  {
    exists i :: 0 <= i < |r.pkts| && Covers(r.pkts[i], k)
  }

  /** The step leaves byte `k` queued: no reset, no pop of a packet that it belongs to, no bad pop. */
  ghost predicate Spares(r: Ring, op: Op, k: int)
  {
    && !op.ResetOp?
    && (op.PopOp? && r.pkts != [] ==> !Covers(r.pkts[0], k) && !PopResetsLiveRing(r))
  }

  lemma StepKeepsLive(w: World, op: Op, k: int)
    requires Inv(w.ring) && Live(w.ring, k) && Spares(w.ring, op, k)
    ensures 0 <= k < |w.ring.buf|
    ensures Inv(Step(w, op).ring) && Live(Step(w, op).ring, k) && Step(w, op).ring.buf[k] == w.ring.buf[k]
  {
    var r, s := w.ring, Step(w, op).ring;
    StepKeepsInv(w, op);
    hide Tiled, Occupied, Append;
    var i :| 0 <= i < |r.pkts| && Covers(r.pkts[i], k);
    assert InBuffer(r.pkts[i], |r.buf|);
    if op.AppendOp? {
      AppendKeepsLive(r, op.payload, op.stamp, i, k);
    } else if op.PopOp? {
      assert s.pkts[i - 1] == r.pkts[i];
    } else if s != r {
      if i == 0 {
        assert Covers(s.pkts[0], k) || Covers(s.pkts[1], k);
      } else {
        assert s.pkts[i + 1] == r.pkts[i];
      }
    }
  }

  lemma StepKeepsInv(w: World, op: Op)
    requires Inv(w.ring) && !(op.PopOp? && PopResetsLiveRing(w.ring))
    ensures Inv(Step(w, op).ring)
  {
    hide Inv;
    match op
    case AppendOp(payload, stamp) => AppendRefines(w.ring, payload, stamp);
    case SplitOp(offset) => SplitRefines(w.ring, offset);
    case PopOp => PopKeepsInvIff(w.ring);
    case ResetOp =>
  }

  lemma StoreKeepsLive(r: Ring, payload: seq<byte>, stamp: Stamp, i: nat, k: int)
    requires Inv(r) && Room(r, |payload|) && |payload| <= |r.buf| - r.tail
    requires i < |r.pkts| && Covers(r.pkts[i], k)
    ensures 0 <= k < |r.buf|
    ensures var s := StoreAtTail(r, payload, stamp);
            i < |s.pkts| && Covers(s.pkts[i], k) && s.buf[k] == r.buf[k]
  {
    hide Tiled, Occupied;
    var s, p := StoreAtTail(r, payload, stamp), r.pkts[i];
    StoreAtTailRefines(r, payload, stamp);
    assert InBuffer(p, |r.buf|) && s.pkts[i] == p;
    assert Payload(s.buf, p)[k - p.data] == Payload(r.buf, p)[k - p.data];
  }

  lemma AppendKeepsLive(r: Ring, payload: seq<byte>, stamp: Stamp, i: nat, k: int)
    requires Inv(r) && i < |r.pkts| && Covers(r.pkts[i], k)
    ensures 0 <= k < |r.buf|
    ensures var s := Append(r, payload, stamp).0;
            i < |s.pkts| && Covers(s.pkts[i], k) && s.buf[k] == r.buf[k]
    decreases r.tail
  {
    hide Tiled, Occupied;
    assert InBuffer(r.pkts[i], |r.buf|);
    if Room(r, |payload|) {
      if |r.buf| - r.tail < |payload| {
        SkipEndKeeps(r, |payload|);
        AppendKeepsLive(SkipEnd(r), payload, stamp, i, k);
      } else {
        StoreKeepsLive(r, payload, stamp, i, k);
      }
    }
  }

  /** Through the run byte `k` stays queued. */
  ghost predicate StaysQueued(w: World, ops: seq<Op>, k: int)
    requires WF(w.ring)
    decreases |ops|
  {
    ops == [] || (Spares(w.ring, ops[0], k) && StaysQueued(Step(w, ops[0]), ops[1..], k))
  }

  /** No number of appends, splits and pops changes a byte of a queued packet before that byte itself is
      popped, so the pointer that `Front` returned keeps its bytes. */
  lemma BytesStayUntilPopped(w: World, ops: seq<Op>, p: Packet)
    requires Inv(w.ring) && p in w.ring.pkts
    requires forall k :: Covers(p, k) ==> StaysQueued(w, ops, k)
    ensures Payload(Run(w, ops).ring.buf, p) == Payload(w.ring.buf, p)
  {
    var i :| 0 <= i < |w.ring.pkts| && w.ring.pkts[i] == p;
    forall k | Covers(p, k)
      ensures Run(w, ops).ring.buf[k] == w.ring.buf[k]
    {
      assert Covers(w.ring.pkts[i], k);
      LiveStays(w, ops, k);
    }
  }

  lemma {:induction false} LiveStays(w: World, ops: seq<Op>, k: int)
    requires Inv(w.ring) && Live(w.ring, k) && StaysQueued(w, ops, k)
    ensures 0 <= k < |w.ring.buf|
    ensures Run(w, ops).ring.buf[k] == w.ring.buf[k]
    decreases |ops|
  {
    if ops != [] {
      StepKeepsLive(w, ops[0], k);
      LiveStays(Step(w, ops[0]), ops[1..], k);
    } else {
      var i :| 0 <= i < |w.ring.pkts| && Covers(w.ring.pkts[i], k);
      assert InBuffer(w.ring.pkts[i], |w.ring.buf|);
    }
  }

  function PopCount(ops: seq<Op>): nat
  {
    if ops == [] then 0 else (if ops[0].PopOp? then 1 else 0) + PopCount(ops[1..])
  }

  /** With `i` packets ahead of its own, a byte outlasts every run of at most `i` pops. */
  lemma {:induction false} FewPopsSpare(w: World, ops: seq<Op>, i: nat, k: int)
    requires Inv(w.ring) && AllNonempty(w.ring)
    requires forall op :: op in ops ==> !op.ResetOp? && (op.AppendOp? ==> op.payload != [])
    requires PopCount(ops) <= i < |w.ring.pkts| && Covers(w.ring.pkts[i], k)
    ensures StaysQueued(w, ops, k)
    decreases |ops|
  {
    if ops != [] {
      var r, op, v := w.ring, ops[0], Step(w, ops[0]);
      if op.PopOp? { LiveRegionsDisjoint(r, 0, i); }
      assert Spares(r, op, k);
      StepKeepsInv(w, op);
      StepKeepsNonempty(w, op);
      var j := NextIndex(w, op, i, k);
      FewPopsSpare(v, ops[1..], j, k);
    }
  }

  /** Where the packet of byte `k` is after a step. */
  lemma NextIndex(w: World, op: Op, i: nat, k: int) returns (j: nat)
    requires Inv(w.ring) && i < |w.ring.pkts| && Covers(w.ring.pkts[i], k)
    requires !op.ResetOp? && (op.PopOp? ==> i > 0)
    ensures var s := Step(w, op).ring;
            j < |s.pkts| && Covers(s.pkts[j], k) && j >= if op.PopOp? then i - 1 else i
  {
    hide Tiled, Occupied, Append;
    var r, s := w.ring, Step(w, op).ring;
    match op
    case AppendOp(payload, stamp) => AppendKeepsLive(r, payload, stamp, i, k); return i;
    case PopOp => return i - 1;
    case SplitOp(offset) =>
      if s == r || (i == 0 && k < offset) { return i; }
      return i + 1;
  }

  /** A queued packet with `i` packets ahead of it keeps its bytes, where they are, through any run of
      appends, splits and at most `i` pops, as long as no packet is empty. */
  lemma BytesOutlastPops(w: World, ops: seq<Op>, i: nat)
    requires Inv(w.ring) && AllNonempty(w.ring)
    requires forall op :: op in ops ==> !op.ResetOp? && (op.AppendOp? ==> op.payload != [])
    requires PopCount(ops) <= i < |w.ring.pkts|
    ensures var p := w.ring.pkts[i]; Payload(Run(w, ops).ring.buf, p) == Payload(w.ring.buf, p)
  {
    forall k | Covers(w.ring.pkts[i], k) ensures StaysQueued(w, ops, k) { FewPopsSpare(w, ops, i, k); }
    BytesStayUntilPopped(w, ops, w.ring.pkts[i]);
  }

  // ------------------------------------------------------------- the queue in place

  class Queue {
    var buf: array<byte>
    var datasize: int
    var head: int
    var tail: int
    var pkts: seq<Packet>

    ghost function View(): Ring
      reads this, buf
    {
      Ring(buf[..], datasize, head, tail, pkts)
    }

    ghost predicate Valid()
      reads this, buf
    {
      WF(View())
    }

    constructor (bufsize: nat)
      ensures Valid() && fresh(buf) && View() == Fresh(bufsize)
    {
      buf := new byte[bufsize](_ => 0);
      datasize, head, tail, pkts := 0, 0, 0, [];
    }

    method ResetChannel()
      modifies this
      ensures buf == old(buf) && View() == Reset(old(View()))
    {
      pkts := [];
      head, tail := 0, 0;
      datasize := 0;
    }

    method AppendPacket(payload: seq<byte>, stamp: Stamp) returns (ok: bool)
      requires Valid()
      modifies this, buf
      ensures Valid() && buf == old(buf)
      ensures (View(), ok) == Append(old(View()), payload, stamp)
    {
      while true
        invariant Valid() && buf == old(buf) && buf[..] == old(buf[..])
        invariant Append(View(), payload, stamp) == Append(old(View()), payload, stamp)
        decreases tail
      {
        if datasize + |payload| > buf.Length {
          return false;
        }
        if buf.Length - tail >= |payload| {
          break;
        }
        PadLast();
      }
      Store(payload, stamp);
      return true;
    }

    method PadLast()
      requires Valid() && tail > 0
      modifies this`datasize, this`tail, this`head, this`pkts
      ensures Valid() && View() == SkipEnd(old(View()))
    {
      if |pkts| == 0 {
        datasize, tail, head := 0, 0, 0;
      } else {
        var padding := buf.Length - tail;
        pkts := pkts[|pkts| - 1 := pkts[|pkts| - 1].(padding := padding)];
        datasize := datasize + padding;
        tail := 0;
      }
      assert View() == SkipEnd(old(View()));
    }

    method Store(payload: seq<byte>, stamp: Stamp)
      requires Valid() && tail + |payload| <= buf.Length
      modifies this`datasize, this`tail, this`pkts, buf
      ensures Valid() && View() == StoreAtTail(old(View()), payload, stamp)
    {
      CopyInto(buf, tail, payload);
      var qp := Packet(tail, |payload|, stamp, 0);
      tail := tail + |payload|;
      datasize := datasize + |payload|;
      pkts := pkts + [qp];
      if tail == buf.Length {
        tail := 0;
      }
      assert View() == StoreAtTail(old(View()), payload, stamp);
    }

    /** The packet that `front` copies out; its `data` points into the live buffer. */
    method Front() returns (found: bool, pkt: Packet)
      requires Valid()
      ensures found <==> Contents(View()) != []
      ensures found ==> pkt == pkts[0]
                        && Contents(View())[0] == Message(buf[pkt.data..pkt.data + pkt.size], pkt.stamp)
    {
      if |pkts| == 0 {
        return false, Packet(0, 0, Stamp(0, 0), 0);
      }
      return true, pkts[0];
    }

    method Split(offset: int)
      requires Valid()
      modifies this`pkts
      ensures Valid() && View() == SplitPacket(old(View()), offset)
    {
      if |pkts| == 0 || offset <= pkts[0].data || offset >= pkts[0].data + pkts[0].size {
        return;
      }
      ghost var was := SplitPacket(View(), offset);
      var pkt := pkts[0];
      var newpkt := pkt.(size := offset - pkt.data, padding := 0);
      pkt := pkt.(data := offset, size := pkt.size - newpkt.size);
      pkts := [newpkt, pkt] + pkts[1..];
    }

    method Pop()
      requires Valid()
      modifies this`pkts, this`head, this`tail, this`datasize
      ensures Valid() && View() == PopFront(old(View()))
    {
      if |pkts| == 0 {
        return;
      }
      ghost var was := PopFront(View());
      var qp := pkts[0];
      pkts := pkts[1..];
      head := head + qp.size + qp.padding;
      datasize := datasize - qp.size - qp.padding;
      if head == buf.Length {
        head := 0;
      }
      if head == tail {
        head, tail := 0, 0;
      }
    }
  }
}
