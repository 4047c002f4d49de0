/**
 The discrete-frame pipe: a pool of free frame buffers, an output queue of stored frames, and the
 buffers that producers and consumers hold.

 `Pool` is the pipe as a value; its functions are the critical sections. The classes at the end are
 the pipe on its linked lists.
 */
module Dpipe {
  import opened Wrappers

  /** `free` is the input pool, the most recently returned buffer first; `out` the output pool, the
      eldest frame first. */
  datatype Pool<T> = Pool(free: seq<T>, out: seq<T>, held: set<T>)

  // ------------------------------------------------------------- critical sections

  function Get<T>(p: Pool<T>): (Pool<T>, Option<T>)
  {
    if p.free != [] then (Pool(p.free[1..], p.out, p.held + {p.free[0]}), Some(p.free[0]))
    else Load(p)
  }

  function Put<T>(p: Pool<T>, b: T): Pool<T>
  {
    Pool([b] + p.free, p.out, p.held - {b})
  }

  function Load<T>(p: Pool<T>): (Pool<T>, Option<T>)
  {
    if p.out != [] then (Pool(p.free, p.out[1..], p.held + {p.out[0]}), Some(p.out[0]))
    else (p, None)
  }

  function Store<T>(p: Pool<T>, b: T): Pool<T>
  {
    Pool(p.free, p.out + [b], p.held - {b})
  }

  // ------------------------------------------------------------- conservation

  ghost predicate NoDuplicates<T>(s: seq<T>)
  {
    forall i, j :: 0 <= i < j < |s| ==> s[i] != s[j]
  }

  ghost function Elements<T>(s: seq<T>): set<T> { set x | x in s }

  /** Every buffer is in exactly one place. */
  ghost predicate Partition<T>(p: Pool<T>, all: set<T>)
  {
    && NoDuplicates(p.free) && NoDuplicates(p.out)
    && Elements(p.free) !! Elements(p.out) && (Elements(p.free) + Elements(p.out)) !! p.held
    && Elements(p.free) + Elements(p.out) + p.held == all
  }

  lemma {:induction false} NoDuplicatesSize<T>(s: seq<T>)
    requires NoDuplicates(s)
    ensures |Elements(s)| == |s|
  {
    if s != [] {
      NoDuplicatesSize(s[1..]);
      assert Elements(s) == {s[0]} + Elements(s[1..]);
    }
  }

  /** The counts add up to the number of buffers. */
  lemma CountsAddUp<T>(p: Pool<T>, all: set<T>)
    requires Partition(p, all)
    ensures |p.free| + |p.out| + |p.held| == |all|
  {
    NoDuplicatesSize(p.free);
    NoDuplicatesSize(p.out);
  }

  lemma EmptyPartition<T>(p: Pool<T>, all: set<T>)
    requires p == Pool([], [], {}) && all == {}
    ensures Partition(p, all)
  {
  }

  lemma FreshKeepsPartition<T>(free: seq<T>, all: set<T>, b: T)
    requires Partition(Pool(free, [], {}), all) && b !in all
    ensures Partition(Pool([b] + free, [], {}), all + {b})
    ensures Elements([b] + free) == all + {b}
  {
    assert Elements([b] + free) == {b} + Elements(free);
    assert forall k :: 0 <= k < |free| ==> free[k] in Elements(free);
  }

  lemma GetKeepsPartition<T>(p: Pool<T>, all: set<T>)
    requires Partition(p, all)
    ensures Partition(Get(p).0, all) && Partition(Load(p).0, all)
  {
    if p.free != [] { assert Elements(p.free) == {p.free[0]} + Elements(p.free[1..]); }
    if p.out != [] { assert Elements(p.out) == {p.out[0]} + Elements(p.out[1..]); }
  }

  lemma PutKeepsPartition<T>(p: Pool<T>, b: T, all: set<T>)
    requires Partition(p, all) && b in p.held
    ensures Partition(Put(p, b), all) && Partition(Store(p, b), all)
  {
    assert Elements([b] + p.free) == {b} + Elements(p.free);
    assert Elements(p.out + [b]) == {b} + Elements(p.out);
  }

  /** Whoever takes a buffer takes one that nobody holds, and holds that one from then on. */
  lemma TakerHoldsIt<T>(p: Pool<T>, all: set<T>)
    requires Partition(p, all)
    ensures var (q, got) := Get(p);
            if got.Some? then got.value in all && got.value !in p.held && q.held == p.held + {got.value} else q == p
    ensures var (q, got) := Load(p);
            if got.Some? then got.value in all && got.value !in p.held && q.held == p.held + {got.value} else q == p
  {
    if p.free != [] { assert p.free[0] in Elements(p.free); }
    if p.out != [] { assert p.out[0] in Elements(p.out); }
  }

  /** The free list is a stack: the buffer returned last is the one that is taken next. */
  lemma PutThenGet<T>(p: Pool<T>, b: T)
    requires b in p.held
    ensures Get(Put(p, b)) == (p, Some(b))
  {
    assert p.held - {b} + {b} == p.held;
    assert ([b] + p.free)[1..] == p.free;
  }

  /** `Get` fails exactly when every buffer is held. */
  lemma GetFailsIff<T>(p: Pool<T>, all: set<T>)
    requires Partition(p, all)
    ensures Get(p).1 == None <==> |p.held| == |all|
  {
    CountsAddUp(p, all);
  }

  // ------------------------------------------------------------- whole runs

  datatype Op<T, F> = GetOp | PutOp(buffer: T) | LoadOp | StoreOp(buffer: T) | WriteOp(buffer: T, frame: F)

  /** How a frame left the output pool. */
  datatype Leave<F> = Loaded(frame: F) | Dropped(frame: F)

  /** The pool, the frames in its buffers, and the history of stored and removed frames. */
  datatype World<T, F> = World(pool: Pool<T>, data: map<T, F>, stored: seq<F>, left: seq<Leave<F>>)

  /** Callers return and write only buffers that they hold. */
  ghost predicate Legal<T, F>(w: World<T, F>, op: Op<T, F>)
  {
    match op
    case GetOp => true
    case LoadOp => true
    case PutOp(b) => b in w.pool.held
    case StoreOp(b) => b in w.pool.held
    case WriteOp(b, _) => b in w.pool.held
  }

  ghost predicate Filled<T, F>(w: World<T, F>, all: set<T>)
  {
    Partition(w.pool, all) && w.data.Keys == all
  }

  function Step<T, F>(w: World<T, F>, op: Op<T, F>): World<T, F>
    requires forall b :: b in w.pool.out ==> b in w.data
    requires op.StoreOp? ==> op.buffer in w.data
  {
    match op
    case GetOp =>
      var (p, got) := Get(w.pool);
      if w.pool.free == [] && got.Some? then w.(pool := p, left := w.left + [Dropped(w.data[got.value])])
      else w.(pool := p)
    case PutOp(b) => w.(pool := Put(w.pool, b))
    case LoadOp =>
      var (p, got) := Load(w.pool);
      if got.Some? then w.(pool := p, left := w.left + [Loaded(w.data[got.value])]) else w
    case StoreOp(b) => w.(pool := Store(w.pool, b), stored := w.stored + [w.data[b]])
    case WriteOp(b, f) => w.(data := w.data[b := f])
  }

  /** The frames that are queued now. */
  function Queued<T, F>(w: World<T, F>): (q: seq<F>)
    requires forall b :: b in w.pool.out ==> b in w.data
    ensures |q| == |w.pool.out|
  {
    seq(|w.pool.out|, i requires 0 <= i < |w.pool.out| => w.data[w.pool.out[i]])
  }

  function Frames<F>(left: seq<Leave<F>>): (f: seq<F>)
    ensures |f| == |left|
  {
    seq(|left|, i requires 0 <= i < |left| => left[i].frame)
  }

  /** Stored frames left in the order of their stores, or are still queued in that order. */
  ghost predicate InOrder<T, F>(w: World<T, F>)
    requires forall b :: b in w.pool.out ==> b in w.data
  {
    w.stored == Frames(w.left) + Queued(w)
  }

  ghost predicate Inv<T, F>(w: World<T, F>, all: set<T>)
  {
    Filled(w, all) && InOrder(w)
  }

  lemma StepKeeps<T, F>(w: World<T, F>, op: Op<T, F>, all: set<T>)
    requires Inv(w, all) && Legal(w, op)
    ensures Inv(Step(w, op), all)
  {
    var v := Step(w, op);
    match op
    case GetOp =>
      GetKeepsPartition(w.pool, all);
      if w.pool.free == [] && w.pool.out != [] { LeaveKeepsOrder(w, v); }
    case PutOp(b) => PutKeepsPartition(w.pool, b, all);
    case LoadOp =>
      GetKeepsPartition(w.pool, all);
      if w.pool.out != [] { LeaveKeepsOrder(w, v); }
    case StoreOp(b) =>
      PutKeepsPartition(w.pool, b, all);
      assert Queued(v) == Queued(w) + [w.data[b]];
      assert Frames(w.left) + (Queued(w) + [w.data[b]]) == Frames(w.left) + Queued(w) + [w.data[b]];
    case WriteOp(b, f) =>
      assert b !in Elements(w.pool.out);
      assert Queued(v) == Queued(w);
  }

  lemma LeaveKeepsOrder<T, F>(w: World<T, F>, v: World<T, F>)
    requires w.pool.out != [] && v.pool.out == w.pool.out[1..]
    requires forall b :: b in w.pool.out ==> b in w.data
    requires v.data == w.data && v.stored == w.stored && InOrder(w)
    requires |v.left| == |w.left| + 1 && v.left[..|w.left|] == w.left
    requires v.left[|w.left|].frame == w.data[w.pool.out[0]]
    ensures InOrder(v)
  {
    assert forall i :: 0 <= i < |w.left| ==> v.left[i] == v.left[..|w.left|][i];
    assert Frames(v.left) == Frames(w.left) + [Queued(w)[0]];
    assert Queued(v) == Queued(w)[1..];
  }

  ghost predicate LegalRun<T, F>(w: World<T, F>, ops: seq<Op<T, F>>, all: set<T>)
    requires Inv(w, all)
    decreases |ops|
  {
    ops == [] || (Legal(w, ops[0]) && (StepKeeps(w, ops[0], all); LegalRun(Step(w, ops[0]), ops[1..], all)))
  }

  ghost function Run<T, F>(w: World<T, F>, ops: seq<Op<T, F>>, all: set<T>): World<T, F>
    requires Inv(w, all) && LegalRun(w, ops, all)
    decreases |ops|
  {
    if ops == [] then w else StepKeeps(w, ops[0], all); Run(Step(w, ops[0]), ops[1..], all)
  }

  /** In any interleaving of the operations by any number of threads, the free list, the output list
      and the held set stay a partition of the buffers; the frames that left the output pool, followed
      by the frames still in it, are the stored frames in the order of their stores; and the history
      only grows. */
  lemma {:induction false} RunKeeps<T, F>(w: World<T, F>, ops: seq<Op<T, F>>, all: set<T>)
    requires Inv(w, all) && LegalRun(w, ops, all)
    ensures Inv(Run(w, ops, all), all)
    ensures w.stored <= Run(w, ops, all).stored && w.left <= Run(w, ops, all).left
    decreases |ops|
  {
    if ops != [] {
      StepKeeps(w, ops[0], all);
      RunKeeps(Step(w, ops[0]), ops[1..], all);
    }
  }

  /** The headline: from a pipe whose buffers are all free, after any legal interleaving every buffer is
      in one place, and the frames loaded or dropped followed by the frames queued are the frames stored. */
  lemma PipeIsFifo<T, F>(free: seq<T>, data: map<T, F>, ops: seq<Op<T, F>>)
    requires NoDuplicates(free) && data.Keys == Elements(free)
    ensures var (w, all) := (World(Pool(free, [], {}), data, [], []), Elements(free));
            && Inv(w, all)
            && (LegalRun(w, ops, all) ==>
                  var v := Run(w, ops, all);
                  && Inv(v, all) && v.stored == Frames(v.left) + Queued(v)
                  && |v.pool.free| + |v.pool.out| + |v.pool.held| == |free|)
  {
    hide LegalRun, Run;
    var w, all := World(Pool(free, [], {}), data, [], []), Elements(free);
    assert Inv(w, all);
    if LegalRun(w, ops, all) {
      RunKeeps(w, ops, all);
      CountsAddUp(Run(w, ops, all).pool, all);
      NoDuplicatesSize(free);
    }
  }

  function Drops<F>(left: seq<Leave<F>>): nat
  {
    if left == [] then 0 else Drops(left[..|left| - 1]) + (if left[|left| - 1].Dropped? then 1 else 0)
  }

  /** A step drops a frame exactly when it takes a buffer while none is free but some frame is queued;
      then the frame is the eldest queued one. Every other step drops nothing. */
  lemma DropIff<T, F>(w: World<T, F>, op: Op<T, F>, all: set<T>)
    requires Inv(w, all) && Legal(w, op)
    ensures var v := Step(w, op);
            && (Drops(v.left) > Drops(w.left) <==> op.GetOp? && w.pool.free == [] && w.pool.out != [])
            && (Drops(v.left) != Drops(w.left) ==>
                  v.left == w.left + [Dropped(Queued(w)[0])] && Drops(v.left) == Drops(w.left) + 1)
  {
    var v := Step(w, op);
    if v.left != w.left {
      assert v.left[..|v.left| - 1] == w.left;
    }
  }

  // ------------------------------------------------------------- the linked lists

  class Buffer {
    var frame: int
    var next: Buffer?

    constructor (next: Buffer?)
      ensures this.next == next
    {
      frame := 0;
      this.next := next;
    }
  }

  /** What follows index `i`, with `end` behind the last one. */
  function After(s: seq<Buffer>, i: nat, end: Buffer?): Buffer? { if i + 1 < |s| then s[i + 1] else end }

  /** The links lead from `head` through the buffers of `s` to `end`. */
  ghost predicate Linked(s: seq<Buffer>, head: Buffer?, end: Buffer?)
    reads s
  {
    && head == (if s == [] then end else s[0])
    && forall i :: 0 <= i < |s| ==> s[i].next == After(s, i, end)
  }

  lemma LinkedOne(b: Buffer)
    ensures Linked([b], b, b.next)
  {
  }

  lemma LinkedSplit(a: seq<Buffer>, b: seq<Buffer>, head: Buffer?, end: Buffer?)
    requires Linked(a + b, head, end)
    ensures var mid := if b == [] then end else b[0]; Linked(a, head, mid) && Linked(b, mid, end)
  {
    var s, mid := a + b, if b == [] then end else b[0];
    forall i | 0 <= i < |a| ensures a[i].next == After(a, i, mid) { assert s[i] == a[i]; }
    forall i | 0 <= i < |b| ensures b[i].next == After(b, i, end) { assert s[|a| + i] == b[i]; }
  }

  lemma LinkedJoin(a: seq<Buffer>, b: seq<Buffer>, head: Buffer?, mid: Buffer?, end: Buffer?)
    requires Linked(a, head, mid) && Linked(b, mid, end)
    ensures Linked(a + b, head, end)
  {
    var s := a + b;
    forall i | 0 <= i < |s| ensures s[i].next == After(s, i, end)
    {
      if i < |a| { assert s[i] == a[i]; } else { assert s[i] == b[i - |a|]; }
    }
  }

  /** Where the end nodes of the lists and the held buffers can not be. */
  lemma Elsewhere(p: Pool<Buffer>, all: set<Buffer>)
    requires Partition(p, all)
    ensures Within(p.free, all) && Within(p.out, all)
    ensures p.free != [] ==> p.free[0] !in p.free[1..] && p.free[0] !in p.out
    ensures p.out != [] ==> p.out[0] !in p.out[1..] && p.out[0] !in p.free
    ensures p.out != [] ==> var last := |p.out| - 1; p.out[last] !in p.out[..last] && p.out[last] !in p.free
    ensures forall b :: b in p.held ==> b in all && b !in p.free && b !in p.out
  {
    forall b: Buffer ensures (b in p.free <==> b in Elements(p.free)) && (b in p.out <==> b in Elements(p.out)) {}
  }

  ghost predicate Within(s: seq<Buffer>, all: set<Buffer>)
  {
    forall b :: b in s ==> b in all
  }

  function OrNull(o: Option<Buffer>): Buffer? { if o.Some? then o.value else null }

  class Pipe {
    var free: Buffer?
    var out: Buffer?
    var outTail: Buffer?
    var inCount: int
    var outCount: int

    ghost var pool: Pool<Buffer>
    ghost var all: set<Buffer>

    ghost predicate Valid()
      reads this, all
    {
      && Partition(pool, all)
      && Within(pool.free, all) && Within(pool.out, all)
      && Linked(pool.free, free, null) && Linked(pool.out, out, null)
      && outTail == (if pool.out == [] then null else pool.out[|pool.out| - 1])
      && inCount == |pool.free| && outCount == |pool.out|
    }

    /** All buffers start out free. */
    constructor (nframe: nat)
      ensures Valid() && fresh(all) && |all| == nframe
      ensures |pool.free| == nframe && pool.out == [] && pool.held == {}
    {
      free, out, outTail, inCount, outCount := null, null, null, 0, 0;
      pool, all := Pool([], [], {}), {};
      new;
      hide Partition, Linked;
      EmptyPartition(pool, all);
      EmptyLinked(null);
      for i := 0 to nframe
        invariant Valid() && fresh(all) && |all| == i == |pool.free| && pool.out == [] && pool.held == {}
      {
        AddFree();
      }
    }

    /** One turn of the loop that allocates the buffers. */
    method AddFree()
      requires Valid() && pool.out == [] && pool.held == {}
      modifies this
      ensures Valid() && fresh(all - old(all)) && old(all) <= all && |all| == |old(all)| + 1
      ensures |pool.free| == |old(pool.free)| + 1 && pool.out == [] && pool.held == {}
    {
      hide Partition, Linked;
      ghost var before := pool.free;
      var dbuffer := new Buffer(free);
      FreshKeepsPartition(before, all, dbuffer);
      LinkedOne(dbuffer);
      LinkedJoin([dbuffer], before, dbuffer, free, null);
      free := dbuffer;
      inCount := inCount + 1;
      pool := Pool([dbuffer] + before, [], {});
      all := all + {dbuffer};
    }

    method GetBuffer() returns (vbuf: Buffer?)
      requires Valid()
      modifies this, all
      ensures Valid() && all == old(all)
      ensures pool == Get(old(pool)).0 && vbuf == OrNull(Get(old(pool)).1)
      ensures forall b :: b in all ==> b.frame == old(b.frame)
    {
      hide Partition, Linked;
      ghost var p := pool;
      EmptyIffNull(p.free, free);
      if free != null {
        Elsewhere(p, all);
        GetKeepsPartition(p, all);
        Elsewhere(Get(p).0, all);
        SplitFirst(p.free, free);
        vbuf := free;
        free := vbuf.next;
        vbuf.next := null;
        inCount := inCount - 1;
        pool := Get(p).0;
      } else {
        vbuf := LoadNowait();
      }
    }

    method PutBuffer(buffer: Buffer)
      requires Valid() && buffer in pool.held
      modifies this, all
      ensures Valid() && all == old(all) && pool == Put(old(pool), buffer)
      ensures forall b :: b in all ==> b.frame == old(b.frame)
    {
      hide Partition, Linked;
      Elsewhere(pool, all);
      PutKeepsPartition(pool, buffer, all);
      buffer.next := free;
      LinkedOne(buffer);
      LinkedJoin([buffer], pool.free, buffer, free, null);
      free := buffer;
      inCount := inCount + 1;
      pool := Put(pool, buffer);
    }

    method LoadNowait() returns (vbuf: Buffer?)
      requires Valid()
      modifies this, all
      ensures Valid() && all == old(all)
      ensures pool == Load(old(pool)).0 && vbuf == OrNull(Load(old(pool)).1)
      ensures forall b :: b in all ==> b.frame == old(b.frame)
    {
      hide Partition, Linked;
      ghost var p := pool;
      EmptyIffNull(p.out, out);
      vbuf := null;
      if out != null {
        Elsewhere(p, all);
        GetKeepsPartition(p, all);
        Elsewhere(Load(p).0, all);
        SplitFirst(p.out, out);
        vbuf := out;
        out := vbuf.next;
        vbuf.next := null;
        EmptyIffNull(p.out[1..], out);
        if out == null {
          outTail := null;
        }
        outCount := outCount - 1;
        pool := Load(p).0;
      }
    }

    method StoreBuffer(buffer: Buffer)
      requires Valid() && buffer in pool.held
      modifies this, all
      ensures Valid() && all == old(all) && pool == Store(old(pool), buffer)
      ensures forall b :: b in all ==> b.frame == old(b.frame)
    {
      hide Partition, Linked;
      ghost var p := pool;
      Elsewhere(p, all);
      PutKeepsPartition(p, buffer, all);
      if outTail != null {
        LinkLast(p.out, out, outTail, buffer);
        outTail := buffer;
      } else {
        out := buffer;
        outTail := buffer;
        EmptyLinked(buffer);
      }
      buffer.next := null;
      LinkedOne(buffer);
      LinkedJoin(p.out, [buffer], out, buffer, null);
      outCount := outCount + 1;
      pool := Store(p, buffer);
    }
  }

  /** Lets the last node of a list point at `end`. */
  method LinkLast(ghost s: seq<Buffer>, ghost head: Buffer?, last: Buffer, end: Buffer?)
    requires s != [] && last == s[|s| - 1] && last !in s[..|s| - 1] && Linked(s, head, null)
    modifies last`next
    ensures Linked(s, head, end)
  {
    hide Linked;
    ghost var init := s[..|s| - 1];
    SplitLast(s, head);
    last.next := end;
    LinkedOne(last);
    LinkedJoin(init, [last], head, last, end);
    assert init + [last] == s;
  }

  lemma EmptyLinked(end: Buffer?)
    ensures Linked([], end, end)
  {
  }

  lemma EmptyIffNull(s: seq<Buffer>, head: Buffer?)
    requires Linked(s, head, null)
    ensures s == [] <==> head == null
    ensures s != [] ==> head == s[0]
  {
  }

  lemma SplitFirst(s: seq<Buffer>, head: Buffer)
    requires s != [] && Linked(s, head, null)
    ensures Linked(s[1..], head.next, null)
  {
    assert s == s[..1] + s[1..];
    LinkedSplit(s[..1], s[1..], head, null);
    assert s[..1][0].next == After(s[..1], 0, if s[1..] == [] then null else s[1..][0]);
  }

  lemma SplitLast(s: seq<Buffer>, head: Buffer?)
    requires s != [] && Linked(s, head, null)
    ensures Linked(s[..|s| - 1], head, s[|s| - 1])
  {
    var last := |s| - 1;
    assert s == s[..last] + s[last..];
    LinkedSplit(s[..last], s[last..], head, null);
  }
}
