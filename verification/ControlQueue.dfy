/**
 The controller's message queue: a ring of equal slots, each holding a two-byte length and a message.

 The reader works on the slot that `ReadMsg` points it to without holding the lock, and releases the
 slot afterwards. `Contents` is what a client sees: a bounded FIFO of messages.
 */
module ControlQueue {
  import opened Bytes
  import opened Wrappers

  /** The size of the source's slot header structure. */
  const HEADER := 4

  /** `buf` is empty once the queue has been freed. */
  datatype Queue = Queue(buf: seq<byte>, unit: nat, head: nat, tail: nat)

  /** The same indices counted in slots: `n` slots, the first message in slot `h`, the next one to go
      into slot `t`. */
  datatype Place = Place(n: nat, h: nat, t: nat)

  // ------------------------------------------------------------- operations

  function Fresh(size: nat, maxunit: nat): Queue
  {
    var unit := maxunit + HEADER;
    Queue(seq(size - size % unit, _ => 0), unit, 0, 0)
  }

  function Next(q: Queue, pos: nat): nat { if pos + q.unit == |q.buf| then 0 else pos + q.unit }

  /** The length, low byte first, and the message. */
  function Slot(msg: seq<byte>): (s: seq<byte>)
    ensures |s| == 2 + |msg|
  {
    [|msg| % 256, |msg| / 256 % 256] + msg
  }

  ghost predicate InBounds(q: Queue)
  {
    q.buf != [] ==> q.unit >= HEADER && q.head + q.unit <= |q.buf| && q.tail + q.unit <= |q.buf|
  }

  predicate Full(q: Queue) { Next(q, q.tail) == q.head }

  /** The message goes into the tail slot, unless it is too long, the queue is gone or full; the result
      is the number of bytes written. */
  function Write(q: Queue, msg: seq<byte>): (r: (Queue, nat))
    requires InBounds(q)
  {
    if |msg| + HEADER > q.unit || q.buf == [] || Full(q) then (q, 0)
    else (q.(buf := Splice(q.buf, q.tail, Slot(msg)), tail := Next(q, q.tail)), |msg|)
  }

  function Release(q: Queue): Queue
  {
    if q.buf == [] || q.head == q.tail then q else q.(head := Next(q, q.head))
  }

  function Clear(q: Queue): Queue { q.(head := 0, tail := 0) }

  function Free(q: Queue): Queue { Queue([], q.unit, 0, 0) }

  // ------------------------------------------------------------- abstraction

  ghost predicate Inv(q: Queue, p: Place)
  {
    && q.unit >= HEADER && |q.buf| == Offset(p.n, q.unit)
    && q.head == Offset(p.h, q.unit) && q.tail == Offset(p.t, q.unit)
    && (q.buf == [] ==> p == Place(0, 0, 0))
    && (q.buf != [] ==> p.h < p.n && p.t < p.n)
    && forall i :: 0 <= i < Count(p) ==> Holds(q, SlotOf(p, i))
  }

  function Count(p: Place): nat
  {
    if p.h <= p.t then p.t - p.h else if p.h < p.t + p.n then p.t + p.n - p.h else 0
  }

  /** Where slot `k` starts: `k` times the unit. */
  function Offset(k: nat, unit: nat): nat { if k == 0 then 0 else Offset(k - 1, unit) + unit }

  /** The slot of the `i`-th message. */
  function SlotOf(p: Place, i: nat): nat
    requires i < Count(p)
  { if p.h + i < p.n then p.h + i else p.h + i - p.n }

  function Length(slot: seq<byte>): nat
    requires |slot| >= 2
  {
    slot[0] as nat + 256 * (slot[1] as nat)
  }

  predicate Fits(slot: seq<byte>) { |slot| >= 2 && 2 + Length(slot) <= |slot| }

  function MessageIn(slot: seq<byte>): seq<byte>
    requires Fits(slot)
  {
    slot[2..2 + Length(slot)]
  }

  ghost predicate InBuffer(q: Queue, k: nat) { Offset(k, q.unit) + q.unit <= |q.buf| }

  ghost function SlotBytes(q: Queue, k: nat): seq<byte>
    requires InBuffer(q, k)
  {
    q.buf[Offset(k, q.unit)..Offset(k, q.unit) + q.unit]
  }

  /** Slot `k` is inside the buffer and holds a message that fits it. */
  ghost predicate Holds(q: Queue, k: nat)
  {
    InBuffer(q, k) && Fits(SlotBytes(q, k))
  }

  ghost function MessageAt(q: Queue, k: nat): seq<byte>
    requires Holds(q, k)
  {
    MessageIn(SlotBytes(q, k))
  }

  ghost function Contents(q: Queue, p: Place): (c: seq<seq<byte>>)
    requires Inv(q, p)
    ensures |c| == Count(p)
  {
    seq(Count(p), i requires 0 <= i < Count(p) => MessageAt(q, SlotOf(p, i)))
  }

  /** What a slot gives back: lengths are kept in 16 bits. */
  function Stored(msg: seq<byte>): seq<byte> { msg[..|msg| % 0x1_0000] }

  // ------------------------------------------------------------- arithmetic of slots

  lemma {:induction false} SlotsApart(i: nat, j: nat, unit: nat)
    requires i < j
    ensures Offset(i, unit) + unit <= Offset(j, unit)
  {
    if i < j - 1 {
      SlotsApart(i, j - 1, unit);
    }
  }

  lemma SlotsDistinct(i: nat, j: nat, unit: nat)
    requires unit > 0
    ensures Offset(i, unit) == Offset(j, unit) <==> i == j
  {
    if i < j { SlotsApart(i, j, unit); }
    if j < i { SlotsApart(j, i, unit); }
  }

  lemma {:induction false} OffsetIsProduct(k: nat, unit: nat)
    ensures Offset(k, unit) == k * unit
  {
    if k > 0 {
      OffsetIsProduct(k - 1, unit);
    }
  }

  function NextSlot(k: nat, n: nat): nat { if k + 1 == n then 0 else k + 1 }

  lemma NextIsNextSlot(q: Queue, p: Place, k: nat)
    requires Inv(q, p) && k < p.n
    ensures Next(q, Offset(k, q.unit)) == Offset(NextSlot(k, p.n), q.unit)
  {
    SlotsDistinct(k + 1, p.n, q.unit);
  }

  /** A new queue has whole slots and no messages; it has a slot at all exactly when the size is at least
      a unit. */
  lemma FreshInv(size: nat, maxunit: nat)
    ensures var q := Fresh(size, maxunit);
            var p := Place(size / q.unit, 0, 0);
            && q.unit == maxunit + 4 && Inv(q, p) && Contents(q, p) == []
            && (InBuffer(q, 0) <==> size >= maxunit + 4) && (q.buf != [] <==> size >= maxunit + 4)
  {
    var unit := maxunit + HEADER;
    OffsetIsProduct(size / unit, unit);
    if size >= unit { WholeSlots(size, unit); } else { NoSlots(size, unit); }
  }

  lemma NoSlots(size: nat, unit: nat)
    requires size < unit
    ensures size / unit == 0 && size % unit == size
  {
  }

  lemma WholeSlots(size: nat, unit: nat)
    requires size >= unit > 0
    ensures size / unit > 0 && size / unit * unit == size - size % unit > 0
  {
  }

  // ------------------------------------------------------------- write

  function Advanced(p: Place): Place
    requires p.t < p.n
  {
    p.(t := NextSlot(p.t, p.n))
  }

  lemma FullIff(q: Queue, p: Place)
    requires Inv(q, p) && q.buf != []
    ensures Full(q) <==> Count(p) == p.n - 1
  {
    NextIsNextSlot(q, p, p.t);
    SlotsDistinct(NextSlot(p.t, p.n), p.h, q.unit);
  }

  lemma TailSlotFits(q: Queue, p: Place)
    requires Inv(q, p) && q.buf != []
    ensures InBounds(q)
  {
    SlotsApart(p.h, p.n, q.unit);
    SlotsApart(p.t, p.n, q.unit);
  }

  ghost function Written(q: Queue, msg: seq<byte>): Queue
    requires q.tail + 2 + |msg| <= |q.buf|
  {
    Queue(Splice(q.buf, q.tail, Slot(msg)), q.unit, q.head, Next(q, q.tail))
  }

  /** A write changes no slot but the tail slot. */
  lemma WriteElsewhere(q: Queue, p: Place, msg: seq<byte>, k: nat)
    requires Inv(q, p) && q.buf != [] && InBounds(q) && |msg| + HEADER <= q.unit && k < p.n && k != p.t
    ensures var r := Written(q, msg); InBuffer(q, k) && InBuffer(r, k) && SlotBytes(r, k) == SlotBytes(q, k)
  {
    hide Offset, Slot;
    SlotsApart(k, p.n, q.unit);
    if k < p.t { SlotsApart(k, p.t, q.unit); } else { SlotsApart(p.t, k, q.unit); }
  }

  /** The tail slot holds what was written. */
  lemma WriteHere(q: Queue, p: Place, msg: seq<byte>)
    requires Inv(q, p) && q.buf != [] && InBounds(q) && |msg| + HEADER <= q.unit
    ensures var r := Written(q, msg); Holds(r, p.t) && MessageAt(r, p.t) == Stored(msg)
  {
    hide Offset, Inv;
    var r := Written(q, msg);
    assert q.tail == Offset(p.t, q.unit) by { TailPlace(q, p); }
    var rest := q.buf[q.tail + 2 + |msg|..q.tail + q.unit];
    assert SlotBytes(r, p.t) == Slot(msg) + rest;
    SlotRoundTrip(msg, rest);
  }

  lemma TailPlace(q: Queue, p: Place)
    requires Inv(q, p)
    ensures q.tail == Offset(p.t, q.unit)
  {
  }

  lemma TwoBytes(n: nat)
    ensures n % 256 + 256 * (n / 256 % 256) == n % 0x1_0000
  {
    var q := n / 256;
    assert n == 0x1_0000 * (q / 256) + (256 * (q % 256) + n % 256);
  }

  lemma SlotRoundTrip(msg: seq<byte>, rest: seq<byte>)
    ensures Fits(Slot(msg) + rest) && MessageIn(Slot(msg) + rest) == Stored(msg)
  {
    var slot := Slot(msg) + rest;
    TwoBytes(|msg|);
    assert slot[0] == |msg| % 256 && slot[1] == |msg| / 256 % 256;
    assert slot[2..2 + Length(slot)] == msg[..Length(slot)];
  }

  /** A write enqueues exactly when the message fits a slot and fewer than `n - 1` messages are queued;
      then the message, up to 65535 bytes of it whole, is last in the FIFO and the result is its length.
      Otherwise nothing changes and the result is 0. */
  lemma WriteRefines(q: Queue, p: Place, msg: seq<byte>)
    requires Inv(q, p)
    ensures InBounds(q)
    ensures var (r, written) := Write(q, msg);
            var ok := |msg| + 4 <= q.unit && Count(p) + 1 < p.n;
            && (ok ==> written == |msg| && Inv(r, Advanced(p))
                       && Contents(r, Advanced(p)) == Contents(q, p) + [Stored(msg)])
            && (!ok ==> written == 0 && r == q)
  {
    if q.buf != [] {
      TailSlotFits(q, p);
      FullIff(q, p);
      if |msg| + HEADER <= q.unit && !Full(q) {
        WriteStores(q, p, msg);
      }
    }
  }

  lemma WriteStores(q: Queue, p: Place, msg: seq<byte>)
    requires Inv(q, p) && q.buf != [] && InBounds(q) && |msg| + HEADER <= q.unit && Count(p) + 1 < p.n
    ensures var r := Written(q, msg);
            Inv(r, Advanced(p)) && Contents(r, Advanced(p)) == Contents(q, p) + [Stored(msg)]
  {
    hide Slot, Splice, Stored, Holds, SlotBytes, Fits, MessageIn;
    var r, p' := Written(q, msg), Advanced(p);
    NextIsNextSlot(q, p, p.t);
    WriteHere(q, p, msg);
    forall i | 0 <= i < Count(p)
      ensures Holds(r, SlotOf(p', i)) && MessageAt(r, SlotOf(p', i)) == MessageAt(q, SlotOf(p, i))
    {
      WriteElsewhere(q, p, msg, SlotOf(p, i));
      SameSlotSameMessage(q, r, SlotOf(p, i));
    }
    assert Count(p') == Count(p) + 1 && SlotOf(p', Count(p)) == p.t;
    WrittenLength(q, msg);
  }

  lemma WrittenLength(q: Queue, msg: seq<byte>)
    requires q.tail + 2 + |msg| <= |q.buf|
    ensures |Written(q, msg).buf| == |q.buf|
  {
  }

  lemma SameSlotSameMessage(q: Queue, r: Queue, k: nat)
    requires Holds(q, k) && InBuffer(r, k) && SlotBytes(r, k) == SlotBytes(q, k)
    ensures Holds(r, k) && MessageAt(r, k) == MessageAt(q, k)
  {
  }

  // ------------------------------------------------------------- read and release

  /** The offset of the slot that the reader is pointed to. */
  function Read(q: Queue): (pos: int) { if q.buf == [] || q.head == q.tail then -1 else q.head }

  lemma EmptyIff(q: Queue, p: Place)
    requires Inv(q, p)
    ensures q.head == q.tail <==> Contents(q, p) == []
  {
    SlotsDistinct(p.h, p.t, q.unit);
  }

  /** A reader gets the slot of the first message, or nothing when the FIFO is empty. */
  lemma ReadRefines(q: Queue, p: Place)
    requires Inv(q, p)
    ensures Read(q) == -1 <==> Contents(q, p) == []
    ensures Read(q) >= 0 ==> Read(q) == Offset(p.h, q.unit) && Holds(q, p.h) && Contents(q, p)[0] == MessageAt(q, p.h)
  {
    EmptyIff(q, p);
    if Contents(q, p) != [] { assert SlotOf(p, 0) == p.h; }
  }

  function Dropped(p: Place): Place
  {
    if p.h == p.t then p else p.(h := NextSlot(p.h, p.n))
  }

  lemma ReleaseRefines(q: Queue, p: Place)
    requires Inv(q, p)
    ensures Inv(Release(q), Dropped(p))
    ensures Contents(Release(q), Dropped(p)) == if Contents(q, p) == [] then [] else Contents(q, p)[1..]
  {
    hide SlotBytes, Fits, MessageIn, Offset, Holds;
    EmptyIff(q, p);
    if q.head != q.tail {
      NextIsNextSlot(q, p, p.h);
      var r, p' := Release(q), Dropped(p);
      assert Count(p') == Count(p) - 1;
      forall i | 0 <= i < Count(p')
        ensures Holds(r, SlotOf(p', i)) && MessageAt(r, SlotOf(p', i)) == MessageAt(q, SlotOf(p, i + 1))
      {
        assert SlotOf(p', i) == SlotOf(p, i + 1) && Holds(q, SlotOf(p, i + 1));
        SameBufferSameSlot(q, r, SlotOf(p', i));
      }
    }
  }

  lemma SameBufferSameSlot(q: Queue, r: Queue, k: nat)
    requires Holds(q, k) && q.buf == r.buf && q.unit == r.unit
    ensures Holds(r, k) && MessageAt(r, k) == MessageAt(q, k)
  {
  }

  // ------------------------------------------------------------- whole runs

  datatype Op = WriteOp(msg: seq<byte>) | ReleaseOp | ClearOp | FreeOp

  /** The queue, with the messages accepted and released since it was last emptied. */
  datatype World = World(q: Queue, p: Place, accepted: seq<seq<byte>>, released: seq<seq<byte>>)

  ghost predicate Fifo(w: World)
  {
    Inv(w.q, w.p) && w.accepted == w.released + Contents(w.q, w.p)
  }

  ghost function Step(w: World, op: Op): World
    requires Fifo(w)
  {
    match op
    case WriteOp(msg) =>
      WriteRefines(w.q, w.p, msg);
      if |msg| + HEADER <= w.q.unit && Count(w.p) + 1 < w.p.n then
        World(Write(w.q, msg).0, Advanced(w.p), w.accepted + [Stored(msg)], w.released)
      else w.(q := Write(w.q, msg).0)
    case ReleaseOp =>
      World(Release(w.q), Dropped(w.p), w.accepted,
            w.released + if Contents(w.q, w.p) == [] then [] else [Contents(w.q, w.p)[0]])
    case ClearOp => World(Clear(w.q), Place(w.p.n, 0, 0), [], [])
    case FreeOp => World(Free(w.q), Place(0, 0, 0), [], [])
  }

  lemma StepKeeps(w: World, op: Op)
    requires Fifo(w)
    ensures Fifo(Step(w, op))
  {
    match op
    case WriteOp(msg) =>
      hide Contents, Inv, Write;
      WriteRefines(w.q, w.p, msg);
      ConcatAssoc(w.released, Contents(w.q, w.p), [Stored(msg)]);
    case ReleaseOp =>
      hide Contents, Inv, Release, Dropped;
      ReleaseRefines(w.q, w.p);
      MoveFirst(w.released, Contents(w.q, w.p));
    case ClearOp =>
    case FreeOp =>
  }

  ghost function Run(w: World, ops: seq<Op>): World
    requires Fifo(w)
    decreases |ops|
  {
    if ops == [] then w else StepKeeps(w, ops[0]); Run(Step(w, ops[0]), ops[1..])
  }

  /** In any interleaving of writers and the reader the indices stay multiples of the unit inside the
      buffer, at most `n - 1` messages are queued, and the messages released followed by the messages
      queued are exactly the messages accepted, in order. */
  lemma {:induction false} RunIsFifo(w: World, ops: seq<Op>)
    requires Fifo(w)
    ensures var v := Run(w, ops);
            && Fifo(v) && (v.q.buf != [] ==> |Contents(v.q, v.p)| <= v.p.n - 1)
            && v.q.head == v.p.h * v.q.unit && v.q.tail == v.p.t * v.q.unit
            && (v.q.buf != [] ==> v.q.head < |v.q.buf| && v.q.tail < |v.q.buf|)
    decreases |ops|
  {
    if ops != [] {
      StepKeeps(w, ops[0]);
      RunIsFifo(Step(w, ops[0]), ops[1..]);
    } else {
      OffsetIsProduct(w.p.h, w.q.unit);
      OffsetIsProduct(w.p.t, w.q.unit);
      if w.q.buf != [] { TailSlotFits(w.q, w.p); }
    }
  }

  /** The first message's slot is the same, byte for byte, and still the first. */
  ghost predicate SameFront(w: World, v: World)
    requires Fifo(w) && Fifo(v)
  {
    && v.q.head == w.q.head && v.p.h == w.p.h && v.q.unit == w.q.unit
    && Holds(w.q, w.p.h) && Holds(v.q, w.p.h) && SlotBytes(v.q, w.p.h) == SlotBytes(w.q, w.p.h)
    && Contents(v.q, v.p) != [] && Contents(v.q, v.p)[0] == MessageAt(w.q, w.p.h)
  }

  /** The slot that the reader was pointed to keeps every byte, and stays the first, through any number
      of writes. */
  lemma {:induction false} ReaderSlotStays(w: World, ops: seq<Op>)
    requires Fifo(w) && Contents(w.q, w.p) != [] && forall op :: op in ops ==> op.WriteOp?
    ensures Fifo(Run(w, ops)) && SameFront(w, Run(w, ops))
    decreases |ops|
  {
    hide Fifo, Contents, Holds, SlotBytes;
    if ops != [] {
      StepKeeps(w, ops[0]);
      WriteKeepsFront(w, ops[0].msg);
      ReaderSlotStays(Step(w, ops[0]), ops[1..]);
    } else {
      FrontIsFirst(w);
    }
  }

  lemma FrontIsFirst(w: World)
    requires Fifo(w) && Contents(w.q, w.p) != []
    ensures SameFront(w, w)
  {
    ReadRefines(w.q, w.p);
  }

  lemma WriteKeepsFront(w: World, msg: seq<byte>)
    requires Fifo(w) && Contents(w.q, w.p) != []
    ensures var v := Step(w, WriteOp(msg)); Fifo(v) && SameFront(w, v)
  {
    hide Holds, SlotBytes, Slot, Splice, Stored, Offset;
    var v := Step(w, WriteOp(msg));
    StepKeeps(w, WriteOp(msg));
    FrontIsFirst(w);
    WriteRefines(w.q, w.p, msg);
    if |msg| + HEADER <= w.q.unit && Count(w.p) + 1 < w.p.n {
      FullIff(w.q, w.p);
      WriteElsewhere(w.q, w.p, msg, w.p.h);
      SameSlotSameMessage(w.q, v.q, w.p.h);
    }
  }

  // ------------------------------------------------------------- the queue in place

  class Controller {
    var qbuffer: array?<byte>
    var qunit: nat
    var qsize: nat
    var qhead: nat
    var qtail: nat

    ghost function View(): Queue
      reads this, qbuffer
    {
      Queue(if qbuffer == null then [] else qbuffer[..], qunit, qhead, qtail)
    }

    ghost predicate Valid()
      reads this, qbuffer
    {
      && InBounds(View())
      && qsize == (if qbuffer == null then 0 else qbuffer.Length)
      && (qsize == 0 ==> qhead == qtail)
    }

    /** There is a slot to write to, or the queue has been freed. */
    predicate HasSlots()
      reads this
    {
      qbuffer == null || qbuffer.Length > 0
    }

    constructor (size: nat, maxunit: nat)
      ensures qbuffer != null && fresh(qbuffer) && View() == Fresh(size, maxunit)
      ensures Valid() && qunit == maxunit + 4 && (HasSlots() <==> size >= maxunit + 4)
    {
      qunit := maxunit + HEADER;
      qsize := size - size % (maxunit + HEADER);
      qbuffer := new byte[size - size % (maxunit + HEADER)](_ => 0);
      qhead, qtail := 0, 0;
      new;
      FreshInv(size, maxunit);
      if size >= maxunit + HEADER { TailSlotFits(Fresh(size, maxunit), Place(size / qunit, 0, 0)); }
      assert View() == Fresh(size, maxunit);
    }

    method FreeQueue()
      modifies this
      ensures Valid() && View() == Free(old(View()))
    {
      qbuffer := null;
      qhead, qtail, qsize := 0, 0, 0;
    }

    method ReadMsg() returns (pos: int)
      requires Valid()
      ensures pos == Read(View())
    {
      if qbuffer == null || qtail == qhead {
        return -1;
      }
      return qhead;
    }

    method ReleaseMsg()
      requires Valid()
      modifies this`qhead
      ensures View() == Release(old(View()))
    {
      if qbuffer == null || qhead == qtail {
        return;
      }
      qhead := qhead + qunit;
      if qhead == qsize {
        qhead := 0;
      }
    }

    method WriteMsg(msg: seq<byte>) returns (written: nat)
      requires Valid() && (|msg| + HEADER <= qunit ==> HasSlots())
      modifies this`qtail, qbuffer
      ensures (View(), written) == Write(old(View()), msg)
    {
      if |msg| + HEADER > qunit || qbuffer == null {
        return 0;
      }
      var nextpos := qtail + qunit;
      if nextpos == qsize {
        nextpos := 0;
      }
      if nextpos == qhead {
        return 0;
      }
      CopyInto(qbuffer, qtail, [|msg| % 256, |msg| / 256 % 256] + msg);
      qtail := nextpos;
      return |msg|;
    }

    method ClearQueue()
      modifies this`qhead, this`qtail
      ensures View() == Clear(old(View()))
    {
      qhead, qtail := 0, 0;
    }
  }
}
