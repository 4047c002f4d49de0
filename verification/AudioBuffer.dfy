/**
 The audio source's buffer: a FIFO of frames in a byte array, compacted when the space behind the
 queued bytes is too short.
 */
module AudioBuffer {
  import opened Bytes
  import opened Wrappers

  /** Capacity in frames, channels, and bits per sample. */
  datatype Format = Format(capacity: nat, channels: nat, bits: nat)

  datatype Audio = Audio(buf: seq<byte>, head: nat, tail: nat, bframes: nat, pts: nat)

  /** The bytes of `n` frames, rounded down as in the source. */
  function Size(f: Format, n: nat): nat { n * (f.channels * f.bits) / 8 }

  /** The source makes no buffer for a format with a zero in it. */
  predicate Usable(f: Format) { f.capacity > 0 && f.channels > 0 && f.bits > 0 }

  /** A frame is a whole number of bytes. */
  predicate WholeBytes(f: Format) { f.channels * f.bits % 8 == 0 }

  /** A frame has a byte, and the bits that rounding drops do not add up to a byte within the capacity. */
  predicate Tight(f: Format) { f.channels * f.bits >= 8 && f.capacity * (f.channels * f.bits % 8) < 8 }

  // ------------------------------------------------------------- sizes

  /** The whole bytes of the frames, and the whole bytes that their remaining bits make. */
  lemma SizeParts(f: Format, n: nat)
    ensures Size(f, n) == n * (f.channels * f.bits / 8) + n * (f.channels * f.bits % 8) / 8
  {
    var c := f.channels * f.bits;
    var q, r := c / 8, c % 8;
    assert n * c == n * (8 * q + r) == 8 * (n * q) + n * r;
    EightTimes(n * q, n * r);
  }

  lemma EightTimes(a: nat, b: nat)
    ensures (8 * a + b) / 8 == a + b / 8
  {
  }

  lemma MulOrder(m: nat, n: nat, r: nat)
    requires m <= n
    ensures m * r <= n * r
  {
    assert n * r - m * r == (n - m) * r;
  }

  lemma MulSum(m: nat, n: nat, q: nat)
    ensures (m + n) * q == m * q + n * q
  {
  }

  lemma SizeWithin(f: Format, n: nat)
    requires Tight(f) && n <= f.capacity
    ensures Size(f, n) == n * (f.channels * f.bits / 8)
  {
    SizeParts(f, n);
    MulOrder(n, f.capacity, f.channels * f.bits % 8);
  }

  /** Within the capacity of a tight format, sizes add up. */
  lemma SizeAdds(f: Format, m: nat, n: nat)
    requires Tight(f) && m + n <= f.capacity
    ensures Size(f, m + n) == Size(f, m) + Size(f, n)
  {
    hide Size, Tight;
    SizeWithin(f, m);
    SizeWithin(f, n);
    SizeWithin(f, m + n);
    MulSum(m, n, f.channels * f.bits / 8);
  }

  /** Past the capacity they take more bytes than there are. */
  lemma SizeOver(f: Format, m: nat, n: nat)
    requires Tight(f) && m <= f.capacity < m + n
    ensures Size(f, m) + Size(f, n) > Size(f, f.capacity)
  {
    SizeWithin(f, m);
    SizeParts(f, n);
    SizeWithin(f, f.capacity);
    OneMore(f.capacity, m, n, f.channels * f.bits / 8);
  }

  lemma OneMore(k: nat, m: nat, n: nat, q: nat)
    requires k < m + n && q > 0
    ensures m * q + n * q > k * q
  {
    MulOrder(k + 1, m + n, q);
    assert (m + n) * q == m * q + n * q && (k + 1) * q == k * q + q;
  }

  lemma SizeOrder(f: Format, m: nat, n: nat)
    requires m <= n
    ensures Size(f, m) <= Size(f, n)
  {
    MulOrder(m, n, f.channels * f.bits);
  }

  lemma SizeOfNone(f: Format)
    ensures Size(f, 0) == 0
  {
  }

  lemma WholeIsTight(f: Format)
    requires Usable(f) && WholeBytes(f)
    ensures Tight(f)
  {
    assert f.channels * f.bits > 0;
  }

  lemma SizeAddsWhole(f: Format, m: nat, n: nat)
    requires WholeBytes(f)
    ensures Size(f, m + n) == Size(f, m) + Size(f, n)
  {
    hide Size;
    SizeParts(f, m);
    SizeParts(f, n);
    SizeParts(f, m + n);
    MulSum(m, n, f.channels * f.bits / 8);
  }

  lemma NotZero(m: nat, n: nat)
    requires m * n > 0
    ensures n > 0
  {
  }

  /** Two sizes that do not add up, in a format whose dropped bits do make a byte. */
  lemma SizesDiffer(f: Format) returns (k: nat)
    requires f.capacity * (f.channels * f.bits % 8) >= 8
    ensures 1 <= k < f.capacity && Size(f, k) + Size(f, 1) < Size(f, k + 1)
  {
    var c := f.channels * f.bits;
    var r, q := c % 8, c / 8;
    NotZero(f.capacity, r);
    k := if r == 1 then 7 else if r == 2 then 3 else if r == 3 then 2 else 1;
    assert k * r < 8 <= (k + 1) * r;
    if f.capacity <= k { MulOrder(f.capacity, k, r); }
    SizeParts(f, k);
    SizeParts(f, 1);
    SizeParts(f, k + 1);
    assert (k + 1) * q == k * q + q;
  }

  /** Sizes add up over all numbers of frames within the capacity exactly when the dropped bits of a
      full buffer make less than a byte. */
  lemma SizeAddsIff(f: Format)
    requires f.channels * f.bits >= 8
    ensures Tight(f) <==> forall m: nat, n: nat :: m + n <= f.capacity ==> Size(f, m + n) == Size(f, m) + Size(f, n)
  {
    if Tight(f) {
      forall m: nat, n: nat | m + n <= f.capacity ensures Size(f, m + n) == Size(f, m) + Size(f, n) {
        SizeAdds(f, m, n);
      }
    } else {
      var k := SizesDiffer(f);
      assert Size(f, k + 1) != Size(f, k) + Size(f, 1);
    }
  }

  // ------------------------------------------------------------- operations

  function Fresh(f: Format): Audio { Audio(seq(Size(f, f.capacity), _ => 0), 0, 0, 0, 0) }

  ghost predicate Bounded(a: Audio) { a.head <= a.tail <= |a.buf| }

  function Compacted(a: Audio): (c: Audio)
    requires Bounded(a)
    ensures Bounded(c) && |c.buf| == |a.buf|
  {
    a.(buf := Splice(a.buf, 0, a.buf[a.head..a.tail]), tail := a.tail - a.head, head := 0)
  }

  /** Stores `frames` frames with the bytes `data`; the recursive call is the source's retry. */
  function Fill(a: Audio, data: seq<byte>, frames: nat): (r: (Audio, bool))
    requires Bounded(a)
    ensures Bounded(r.0) && |r.0.buf| == |a.buf|
    decreases a.head
  {
    if |data| > a.head + (|a.buf| - a.tail) then (a, false)
    else if |data| <= |a.buf| - a.tail then
      (Audio(Splice(a.buf, a.tail, data), a.head, a.tail + |data|, a.bframes + frames, a.pts), true)
    else Fill(Compacted(a), data, frames)
  }

  function Min(m: nat, n: nat): nat { if m <= n then m else n }

  /** The bytes of the frames are copied out of the buffer; in a buffer whose counts have drifted apart
      they may reach past the queued bytes. */
  function Read(f: Format, a: Audio, frames: nat): (r: (Audio, seq<byte>))
    requires a.head + Size(f, Min(frames, a.bframes)) <= |a.buf|
    ensures |r.0.buf| == |a.buf|
    ensures Bounded(a) && a.head + Size(f, Min(frames, a.bframes)) <= a.tail ==> Bounded(r.0)
  {
    var n := Min(frames, a.bframes);
    if n == 0 then (a, [])
    else
      var data := a.buf[a.head..a.head + Size(f, n)];
      if n == a.bframes then (Audio(a.buf, 0, 0, 0, a.pts + n), data)
      else (Audio(a.buf, a.head + Size(f, n), a.tail, a.bframes - n, a.pts + n), data)
  }

  function Purge(a: Audio): Audio { Audio(a.buf, 0, 0, 0, 0) }

  // ------------------------------------------------------------- invariant and FIFO

  /** The queued bytes are the bytes of the queued frames. */
  ghost predicate Exact(f: Format, a: Audio) { Bounded(a) && a.tail - a.head == Size(f, a.bframes) }

  ghost predicate Inv(f: Format, a: Audio)
  {
    && Usable(f) && Tight(f) && |a.buf| == Size(f, f.capacity)
    && Exact(f, a) && a.bframes <= f.capacity
    && (a.bframes == 0 ==> a.head == 0)
  }

  ghost function Contents(a: Audio): seq<byte>
    requires Bounded(a)
  {
    a.buf[a.head..a.tail]
  }

  lemma FreshInv(f: Format)
    requires Usable(f) && Tight(f)
    ensures Inv(f, Fresh(f)) && Contents(Fresh(f)) == []
  {
    SizeOfNone(f);
  }

  lemma CompactedKeeps(f: Format, a: Audio)
    requires Inv(f, a)
    ensures Inv(f, Compacted(a)) && Contents(Compacted(a)) == Contents(a)
  {
  }

  /** A fill is accepted exactly when the capacity in frames allows it; then its bytes are last in the
      FIFO, whether or not the buffer had to be compacted first. */
  lemma {:induction false} FillRefines(f: Format, a: Audio, data: seq<byte>, frames: nat)
    requires Inv(f, a) && frames > 0 && |data| == Size(f, frames)
    ensures var (r, ok) := Fill(a, data, frames);
            && Inv(f, r) && r.pts == a.pts
            && (ok <==> a.bframes + frames <= f.capacity)
            && r.bframes == a.bframes + (if ok then frames else 0)
            && Contents(r) == Contents(a) + if ok then data else []
    decreases a.head
  {
    hide Size, Tight;
    if a.bframes + frames <= f.capacity {
      SizeAdds(f, a.bframes, frames);
      SizeOrder(f, a.bframes + frames, f.capacity);
    } else {
      SizeOver(f, a.bframes, frames);
    }
    if |a.buf| - a.tail < |data| <= a.head + (|a.buf| - a.tail) {
      CompactedKeeps(f, a);
      FillRefines(f, Compacted(a), data, frames);
    }
  }

  /** After a compaction the fill succeeds at once. */
  lemma RetryOnce(a: Audio, size: nat)
    requires Bounded(a) && |a.buf| - a.tail < size <= a.head + (|a.buf| - a.tail)
    ensures size <= |Compacted(a).buf| - Compacted(a).tail && a.head > 0 && Compacted(a).head == 0
  {
  }

  /** A read takes the first frames, as many as there are up to the number asked for. */
  lemma ReadRefines(f: Format, a: Audio, frames: nat)
    requires Inv(f, a)
    ensures var n := if frames <= a.bframes then frames else a.bframes;
            && n == Min(frames, a.bframes) && a.head + Size(f, n) <= a.tail
            && var (r, data) := Read(f, a, frames);
            && Inv(f, r) && r.bframes == a.bframes - n && r.pts == a.pts + n
            && |data| == Size(f, n) && data + Contents(r) == Contents(a)
  {
    hide Size, Tight;
    var n := Min(frames, a.bframes);
    SizeAdds(f, n, a.bframes - n);
    SizeOfNone(f);
  }

  // ------------------------------------------------------------- whole runs

  datatype Op = FillOp(data: seq<byte>, frames: nat) | ReadOp(frames: nat) | PurgeOp

  ghost predicate Legal(f: Format, op: Op) { op.FillOp? ==> op.frames > 0 && |op.data| == Size(f, op.frames) }

  ghost predicate AllLegal(f: Format, ops: seq<Op>) { forall op :: op in ops ==> Legal(f, op) }

  /** The buffer, and the bytes accepted and read since the last purge. */
  datatype World = World(a: Audio, filled: seq<byte>, got: seq<byte>)

  ghost predicate Fifo(f: Format, w: World)
  {
    Inv(f, w.a) && w.filled == w.got + Contents(w.a)
  }

  ghost function Step(f: Format, w: World, op: Op): World
    requires Fifo(f, w) && Legal(f, op)
  {
    match op
    case FillOp(data, frames) =>
      var (a, ok) := Fill(w.a, data, frames);
      World(a, w.filled + if ok then data else [], w.got)
    case ReadOp(frames) =>
      ReadRefines(f, w.a, frames);
      var (a, data) := Read(f, w.a, frames);
      World(a, w.filled, w.got + data)
    case PurgeOp => World(Purge(w.a), [], [])
  }

  lemma StepKeeps(f: Format, w: World, op: Op)
    requires Fifo(f, w) && Legal(f, op)
    ensures Fifo(f, Step(f, w, op))
  {
    hide Size, Tight;
    match op
    case FillOp(data, frames) =>
      FillRefines(f, w.a, data, frames);
      ConcatAssoc(w.got, Contents(w.a), if Fill(w.a, data, frames).1 then data else []);
    case ReadOp(frames) =>
      ReadRefines(f, w.a, frames);
      var (a, data) := Read(f, w.a, frames);
      ConcatAssoc(w.got, data, Contents(a));
    case PurgeOp => SizeOfNone(f);
  }

  ghost function Run(f: Format, w: World, ops: seq<Op>): World
    requires Fifo(f, w) && AllLegal(f, ops)
    decreases |ops|
  {
    if ops == [] then w else StepKeeps(f, w, ops[0]); Run(f, Step(f, w, ops[0]), ops[1..])
  }

  /** In any interleaving of fills, reads and purges of a tight format, since the last purge the bytes read
      followed by the bytes queued are the bytes accepted, in order, and the indices stay in order with
      exactly the bytes of the queued frames between them. */
  lemma {:induction false} RunIsFifo(f: Format, w: World, ops: seq<Op>)
    requires Fifo(f, w) && AllLegal(f, ops)
    ensures Fifo(f, Run(f, w, ops)) && Run(f, w, ops).a.bframes <= f.capacity
    decreases |ops|
  {
    if ops != [] {
      StepKeeps(f, w, ops[0]);
      RunIsFifo(f, Step(f, w, ops[0]), ops[1..]);
    }
  }

  // ------------------------------------------------------------- which formats drift

  /** The operation stays in the buffer: a fill finds the indices in order, a read copies bytes that exist. */
  ghost predicate Defined(f: Format, a: Audio, op: Op)
  {
    match op
    case FillOp(_, _) => Bounded(a)
    case ReadOp(frames) => a.head + Size(f, Min(frames, a.bframes)) <= |a.buf|
    case PurgeOp => true
  }

  ghost function Apply(f: Format, a: Audio, op: Op): Audio
    requires Defined(f, a, op)
  {
    match op
    case FillOp(data, frames) => Fill(a, data, frames).0
    case ReadOp(frames) => Read(f, a, frames).0
    case PurgeOp => Purge(a)
  }

  lemma ExactIsDefined(f: Format, a: Audio, op: Op)
    requires Exact(f, a)
    ensures Defined(f, a, op)
  {
    if op.ReadOp? { SizeOrder(f, Min(op.frames, a.bframes), a.bframes); }
  }

  /** Through the whole run the queued bytes are the bytes of the queued frames. */
  ghost predicate StaysExact(f: Format, a: Audio, ops: seq<Op>)
    decreases |ops|
  {
    && Exact(f, a)
    && (ops == [] || (ExactIsDefined(f, a, ops[0]); StaysExact(f, Apply(f, a, ops[0]), ops[1..])))
  }

  lemma ApplyKeeps(f: Format, a: Audio, op: Op)
    requires Inv(f, a) && Legal(f, op)
    ensures Defined(f, a, op) && Inv(f, Apply(f, a, op))
  {
    hide Size, Tight;
    ExactIsDefined(f, a, op);
    match op
    case FillOp(data, frames) => FillRefines(f, a, data, frames);
    case ReadOp(frames) => ReadRefines(f, a, frames);
    case PurgeOp => SizeOfNone(f);
  }

  lemma {:induction false} TightStaysExact(f: Format, a: Audio, ops: seq<Op>)
    requires Inv(f, a) && AllLegal(f, ops)
    ensures StaysExact(f, a, ops)
    decreases |ops|
  {
    if ops != [] {
      ApplyKeeps(f, a, ops[0]);
      TightStaysExact(f, Apply(f, a, ops[0]), ops[1..]);
    }
  }

  function ZeroFrames(f: Format, n: nat): Op { FillOp(seq(Size(f, n), _ => 0), n) }

  /** A fill that fits behind the tail. */
  lemma FillBehind(a: Audio, data: seq<byte>, frames: nat)
    requires Bounded(a) && a.head == 0 && |data| <= |a.buf| - a.tail
    ensures var b := Fill(a, data, frames).0;
            b.head == 0 && b.tail == a.tail + |data| && b.bframes == a.bframes + frames
  {
  }

  /** Two fills whose bytes are fewer than the bytes of their frames together. */
  lemma TwoFillsDrift(f: Format, k: nat)
    requires 1 <= k < f.capacity && Size(f, k) + Size(f, 1) < Size(f, k + 1)
    ensures !StaysExact(f, Fresh(f), [ZeroFrames(f, k), ZeroFrames(f, 1)])
  {
    SizeOrder(f, k + 1, f.capacity);
    SizeOfNone(f);
    hide Size, Fill;
    var one, two := ZeroFrames(f, k), ZeroFrames(f, 1);
    var a := Fresh(f);
    FillBehind(a, one.data, k);
    var b := Apply(f, a, one);
    FillBehind(b, two.data, 1);
    assert !StaysExact(f, Apply(f, b, two), []);
    assert !StaysExact(f, b, [two]) by { assert [two][1..] == []; }
    assert [one, two][1..] == [two];
  }

  function Times<T>(n: nat, x: T): (s: seq<T>)
    ensures |s| == n && forall y :: y in s ==> y == x
  {
    if n == 0 then [] else [x] + Times(n - 1, x)
  }

  /** In a format whose frame has no byte, frames come in without limit and without bytes. */
  lemma {:induction false} EmptyFramesDrift(f: Format, a: Audio, k: nat)
    requires f.channels * f.bits in {1, 2, 3, 4, 5, 6, 7} && k <= 8
    requires a.head == a.tail == 0 && a.bframes == 8 - k
    ensures !StaysExact(f, a, Times(k, FillOp([], 1)))
    decreases k
  {
    if k == 0 {
      assert Size(f, 8) == f.channels * f.bits;
    } else {
      var op := FillOp([], 1);
      assert Times(k, op)[1..] == Times(k - 1, op);
      EmptyFramesDrift(f, Fill(a, [], 1).0, k - 1);
    }
  }

  /** The queued bytes stay the bytes of the queued frames, through every run of fills, reads and purges,
      exactly for the tight formats. */
  lemma ExactIff(f: Format)
    requires Usable(f)
    ensures Tight(f) <==> forall ops :: AllLegal(f, ops) ==> StaysExact(f, Fresh(f), ops)
  {
    if Tight(f) {
      FreshInv(f);
      forall ops | AllLegal(f, ops) ensures StaysExact(f, Fresh(f), ops) { TightStaysExact(f, Fresh(f), ops); }
    } else if f.channels * f.bits < 8 {
      var ops := Times(8, FillOp([], 1));
      assert f.channels * f.bits > 0;
      assert Size(f, 1) == 0;
      assert AllLegal(f, ops);
      EmptyFramesDrift(f, Fresh(f), 8);
    } else {
      var k := SizesDiffer(f);
      TwoFillsDrift(f, k);
      assert AllLegal(f, [ZeroFrames(f, k), ZeroFrames(f, 1)]);
    }
  }

  /** Frames of twelve bits: after two fills of one frame, two bytes stand for frames of three. */
  lemma TwelveBitsDrift()
    ensures var f := Format(4, 1, 12);
            var b := Fill(Fill(Fresh(f), [1], 1).0, [2], 1).0;
            b.tail - b.head == 2 && b.bframes == 2 && Size(f, b.bframes) == 3
  {
  }

  /** The bytes read since the last purge, after one more operation. */
  ghost function GotAfter(f: Format, a: Audio, got: nat, op: Op): nat
    requires Defined(f, a, op)
  {
    match op
    case FillOp(_, _) => got
    case ReadOp(frames) => got + |Read(f, a, frames).1|
    case PurgeOp => 0
  }

  /** Through the whole run, as long as it stays in the buffer, `pts` counts the frames whose bytes were
      read: the `got` bytes are the bytes of `pts` frames. */
  ghost predicate PtsStays(f: Format, a: Audio, got: nat, ops: seq<Op>)
    decreases |ops|
  {
    && got == Size(f, a.pts)
    && (ops != [] && Defined(f, a, ops[0]) ==>
          PtsStays(f, Apply(f, a, ops[0]), GotAfter(f, a, got, ops[0]), ops[1..]))
  }

  lemma {:induction false} WholeKeepsPts(f: Format, a: Audio, got: nat, ops: seq<Op>)
    requires Inv(f, a) && AllLegal(f, ops) && WholeBytes(f) && got == Size(f, a.pts)
    ensures PtsStays(f, a, got, ops)
    decreases |ops|
  {
    if ops != [] {
      hide Size, Tight, WholeBytes;
      var op := ops[0];
      ApplyKeeps(f, a, op);
      match op {
        case FillOp(data, frames) => FillRefines(f, a, data, frames);
        case ReadOp(frames) =>
          ReadRefines(f, a, frames);
          SizeAddsWhole(f, a.pts, Min(frames, a.bframes));
        case PurgeOp => SizeOfNone(f);
      }
      WholeKeepsPts(f, Apply(f, a, op), GotAfter(f, a, got, op), ops[1..]);
    }
  }

  /** `n` frames that are filled and read one at a time. */
  function OneByOne(f: Format, n: nat): seq<Op>
  {
    if n == 0 then [] else [ZeroFrames(f, 1)] + ([ReadOp(1)] + OneByOne(f, n - 1))
  }

  lemma {:induction false} OneByOneLegal(f: Format, n: nat)
    ensures AllLegal(f, OneByOne(f, n))
  {
    if n > 0 { OneByOneLegal(f, n - 1); }
  }

  lemma PtsStep(f: Format, a: Audio, got: nat, op: Op, rest: seq<Op>)
    requires Defined(f, a, op) && !PtsStays(f, Apply(f, a, op), GotAfter(f, a, got, op), rest)
    ensures !PtsStays(f, a, got, [op] + rest)
  {
    assert ([op] + rest)[1..] == rest;
  }

  /** Of frames that go in and out of an empty buffer one at a time, each takes the bytes of one frame. */
  lemma {:induction false} OneByOneDrifts(f: Format, a: Audio, got: nat, n: nat)
    requires a.head == a.tail == a.bframes == 0 && Size(f, 1) <= |a.buf|
    requires got + n * Size(f, 1) != Size(f, a.pts + n)
    ensures !PtsStays(f, a, got, OneByOne(f, n))
    decreases n
  {
    hide Size, Defined, Apply, GotAfter;
    if n > 0 {
      var fill, rest := ZeroFrames(f, 1), OneByOne(f, n - 1);
      var b := OneIn(f, a, got);
      var c := OneOut(f, b, got);
      assert got + n * Size(f, 1) == got + Size(f, 1) + (n - 1) * Size(f, 1);
      OneByOneDrifts(f, c, got + Size(f, 1), n - 1);
      PtsStep(f, b, got, ReadOp(1), rest);
      PtsStep(f, a, got, fill, [ReadOp(1)] + rest);
    }
  }

  lemma OneIn(f: Format, a: Audio, got: nat) returns (b: Audio)
    requires a.head == a.tail == a.bframes == 0 && Size(f, 1) <= |a.buf|
    ensures var op := ZeroFrames(f, 1); Defined(f, a, op) && b == Apply(f, a, op) && GotAfter(f, a, got, op) == got
    ensures b.head == 0 && b.tail == Size(f, 1) && b.bframes == 1 && b.pts == a.pts && |b.buf| == |a.buf|
  {
    hide Size;
    b := Apply(f, a, ZeroFrames(f, 1));
  }

  lemma OneOut(f: Format, b: Audio, got: nat) returns (c: Audio)
    requires b.head == 0 && b.bframes == 1 && Size(f, 1) <= |b.buf|
    ensures var op := ReadOp(1);
            Defined(f, b, op) && c == Apply(f, b, op) && GotAfter(f, b, got, op) == got + Size(f, 1)
    ensures c.head == c.tail == c.bframes == 0 && c.pts == b.pts + 1 && |c.buf| == |b.buf|
  {
    hide Size;
    c := Apply(f, b, ReadOp(1));
  }

  /** `pts` is exact about the bytes read, through every run from a new buffer, exactly for the formats of
      whole bytes: eight frames read one at a time lose the bits that eight frames together have. */
  lemma PtsExactIff(f: Format)
    requires Usable(f)
    ensures WholeBytes(f) <==> forall ops :: AllLegal(f, ops) ==> PtsStays(f, Fresh(f), 0, ops)
  {
    SizeOfNone(f);
    if WholeBytes(f) {
      WholeIsTight(f);
      FreshInv(f);
      forall ops | AllLegal(f, ops) ensures PtsStays(f, Fresh(f), 0, ops) { WholeKeepsPts(f, Fresh(f), 0, ops); }
    } else {
      OneByOneLegal(f, 8);
      SizeOrder(f, 1, f.capacity);
      assert Size(f, 8) == f.channels * f.bits && Size(f, 1) == f.channels * f.bits / 8;
      OneByOneDrifts(f, Fresh(f), 0, 8);
    }
  }

  // ------------------------------------------------------------- the buffer in place

  class Source {
    const format: Format
    var buffer: array<byte>
    var bufhead: nat
    var buftail: nat
    var bframes: nat
    var bufPts: nat

    ghost function View(): Audio
      reads this, buffer
    {
      Audio(buffer[..], bufhead, buftail, bframes, bufPts)
    }

    constructor (format: Format)
      ensures this.format == format && fresh(buffer) && View() == Fresh(format)
    {
      this.format := format;
      buffer := new byte[Size(format, format.capacity)](_ => 0);
      bufhead, buftail, bframes, bufPts := 0, 0, 0, 0;
    }

    /** Without data, zeros are stored. */
    method FillOne(data: seq<byte>, isNull: bool, frames: int) returns (ok: bool)
      requires Bounded(View()) && (frames > 0 && !isNull ==> |data| == Size(format, frames))
      modifies this, buffer
      ensures buffer == old(buffer)
      ensures frames <= 0 ==> View() == old(View()) && !ok
      ensures frames > 0 ==>
                var bytes := if isNull then seq(Size(format, frames), _ => 0) else data;
                (View(), ok) == Fill(old(View()), bytes, frames)
    {
      if frames <= 0 {
        return false;
      }
      var bytes := if isNull then seq(Size(format, frames), _ => 0) else data;
      var framesize := Size(format, frames);
      hide Size;
      while true
        invariant Bounded(View()) && buffer == old(buffer) && framesize == |bytes|
        invariant Fill(View(), bytes, frames) == Fill(old(View()), bytes, frames)
        decreases bufhead
      {
        if framesize > bufhead + (buffer.Length - buftail) {
          return false;
        }
        if framesize <= buffer.Length - buftail {
          Append(bytes, frames);
          return true;
        }
        Compact();
      }
    }

    method Append(bytes: seq<byte>, frames: nat)
      requires Bounded(View()) && |bytes| <= buffer.Length - buftail
      modifies this`buftail, this`bframes, buffer
      ensures (View(), true) == Fill(old(View()), bytes, frames)
    {
      CopyInto(buffer, buftail, bytes);
      buftail := buftail + |bytes|;
      bframes := bframes + frames;
    }

    method Compact()
      requires Bounded(View())
      modifies this`buftail, this`bufhead, buffer
      ensures View() == Compacted(old(View()))
    {
      CopyInto(buffer, 0, buffer[bufhead..buftail]);
      buftail := buftail - bufhead;
      bufhead := 0;
    }

    /** The part of a read that follows the wait for data; the bytes copied must be in the buffer. */
    method ReadFrames(frames: int) returns (copied: nat, data: seq<byte>)
      requires frames > 0 ==> bufhead + Size(format, Min(frames, bframes)) <= buffer.Length
      modifies this
      ensures buffer == old(buffer)
      ensures frames <= 0 ==> View() == old(View()) && copied == 0 && data == []
      ensures frames > 0 ==>
                && copied == Min(frames, old(bframes))
                && (View(), data) == Read(format, old(View()), frames)
    {
      copied, data := 0, [];
      if frames <= 0 {
        return;
      }
      hide Size;
      copied := if bframes >= frames then frames else bframes;
      if copied > 0 {
        var copysize := Size(format, copied);
        data := buffer[bufhead..bufhead + copysize];
        bufhead := bufhead + copysize;
        bframes := bframes - copied;
        bufPts := bufPts + copied;
        if bframes == 0 {
          bufhead, buftail := 0, 0;
        }
      }
    }

    method PurgeAll()
      modifies this
      ensures buffer == old(buffer) && View() == Purge(old(View()))
    {
      bufPts := 0;
      bufhead, buftail, bframes := 0, 0, 0;
    }
  }
}
