/**
 The TCP side of the control server: a byte stream cut into arbitrary chunks, out of which messages
 are taken that start with their own length in two bytes, high byte first.

 The loop is modelled with and without the step that its comments call for but the source leaves out:
 moving what is left over to the front of the buffer and reading it from there. `compact` says which.
 */
module TcpStream {
  import opened Bytes
  import opened Wrappers

  const BUFSIZE := 8192

  /** The receive buffer, the unread bytes at `head`, and the messages handed on so far. */
  datatype Rx = Rx(buf: seq<byte>, head: nat, len: nat, out: seq<seq<byte>>)

  predicate InBuffer(r: Rx) { r.head + r.len <= |r.buf| }

  function Window(r: Rx): (w: seq<byte>)
    requires InBuffer(r)
    ensures |w| == r.len
  {
    r.buf[r.head..r.head + r.len]
  }

  function MsgLen(s: seq<byte>): nat
    requires |s| >= 2
  {
    256 * (s[0] as nat) + (s[1] as nat)
  }

  // ------------------------------------------------------------- the loop

  /** The length that is read at `head`. */
  function Peek(r: Rx): nat
    requires r.head + 2 <= |r.buf|
  {
    MsgLen(r.buf[r.head..])
  }

  /** Waiting for more: the bytes left over stay where they are, or go to the front. */
  function Wait(r: Rx, move: bool, compact: bool): (q: Rx)
    requires move || compact ==> InBuffer(r)
    ensures |q.buf| == |r.buf| && q.len == r.len && q.out == r.out
  {
    Rx(if move || compact then Splice(r.buf, 0, Window(r)) else r.buf,
       if compact then 0 else r.head, r.len, r.out)
  }

  /** The first message taken out of the window. */
  function Took(r: Rx): (q: Rx)
    requires r.head + 2 <= |r.buf| && r.head + Peek(r) <= |r.buf| && 0 < Peek(r) < r.len
    ensures q.len < r.len && |q.buf| == |r.buf|
  {
    var n := Peek(r);
    Rx(r.buf, r.head + n, r.len - n, r.out + [r.buf[r.head..r.head + n]])
  }

  /** Everything from the size check on, until the loop reads more from the socket. There is no result
      when bytes past the end of the buffer are read, for a length, a message or a move. */
  function Process(r: Rx, compact: bool): (q: Option<Rx>)
    ensures q.Some? ==> |q.value.buf| == |r.buf| && q.value.len <= r.len
    decreases r.len
  {
    if r.len < 2 then
      if compact && !InBuffer(r) then None else Some(Wait(r, false, compact))
    else if r.head + 2 > |r.buf| then None
    else
      var n := Peek(r);
      if n == 0 then Some(r.(head := 0))
      else if r.len < n then
        if InBuffer(r) then Some(Wait(r, true, compact)) else None
      else if r.head + n > |r.buf| then None
      else if r.len > n then Process(Took(r), compact)
      else Some(Rx(r.buf, 0, 0, r.out + [Window(r)]))
  }

  /** The socket fills the buffer behind as many bytes as are left over, wherever these are. */
  function Refill(r: Rx, chunk: seq<byte>): (q: Rx)
    requires r.len + |chunk| <= |r.buf|
    ensures |q.buf| == |r.buf|
  {
    r.(buf := Splice(r.buf, r.len, chunk), len := r.len + |chunk|)
  }

  /** One `recv` and what follows. */
  function Receive(r: Rx, chunk: seq<byte>, compact: bool): (q: Option<Rx>)
    requires r.len + |chunk| <= |r.buf|
    ensures q.Some? ==> |q.value.buf| == |r.buf|
  {
    Process(Refill(r, chunk), compact)
  }

  // ------------------------------------------------------------- messages of a stream

  datatype Split = Split(msgs: seq<seq<byte>>, rest: seq<byte>)

  /** The whole messages at the front of a stream, and what is left. */
  function Frames(s: seq<byte>): (f: Split)
    ensures |f.rest| <= |s|
  {
    if |s| < 2 || MsgLen(s) == 0 || |s| < MsgLen(s) then Split([], s)
    else
      var n := MsgLen(s);
      var f := Frames(s[n..]);
      Split([s[..n]] + f.msgs, f.rest)
  }

  /** A length of zero stops the source. */
  predicate Stuck(s: seq<byte>) { |s| >= 2 && MsgLen(s) == 0 }

  predicate StartsWhole(s: seq<byte>) { |s| >= 2 && 0 < MsgLen(s) <= |s| }

  lemma FramesStep(s: seq<byte>)
    ensures !StartsWhole(s) ==> Frames(s) == Split([], s)
    ensures StartsWhole(s) ==>
              var n := MsgLen(s);
              var f := Frames(s[n..]);
              Frames(s) == Split([s[..n]] + f.msgs, f.rest)
              && Flatten([s[..n]] + f.msgs) == s[..n] + Flatten(f.msgs)
  {
    if StartsWhole(s) { FlattenCons(s[..MsgLen(s)], Frames(s[MsgLen(s)..]).msgs); }
  }

  lemma FlattenCons(m: seq<byte>, rest: seq<seq<byte>>)
    ensures Flatten([m] + rest) == m + Flatten(rest)
  {
    assert ([m] + rest)[1..] == rest;
  }

  lemma {:induction false} FramesFlatten(s: seq<byte>)
    ensures Flatten(Frames(s).msgs) + Frames(s).rest == s
  {
    hide Frames, Flatten;
    FramesStep(s);
    if StartsWhole(s) {
      var n := MsgLen(s);
      FramesFlatten(s[n..]);
      ConcatAssoc(s[..n], Flatten(Frames(s[n..]).msgs), Frames(s[n..]).rest);
    } else {
      assert Flatten([]) + s == s by { FlattenNone(); }
    }
  }

  lemma FlattenNone()
    ensures Flatten([]) == []
  {
  }

  /** Cutting a stream does not change its messages. */
  lemma {:induction false} FramesConcat(a: seq<byte>, b: seq<byte>)
    ensures Frames(a + b).msgs == Frames(a).msgs + Frames(Frames(a).rest + b).msgs
    ensures Frames(a + b).rest == Frames(Frames(a).rest + b).rest
    decreases |a|
  {
    hide Frames;
    FramesStep(a);
    if StartsWhole(a) {
      var n := MsgLen(a);
      assert MsgLen(a + b) == n && (a + b)[n..] == a[n..] + b && (a + b)[..n] == a[..n];
      FramesStep(a + b);
      FramesConcat(a[n..], b);
      ConcatAssoc([a[..n]], Frames(a[n..]).msgs, Frames(Frames(a).rest + b).msgs);
    } else {
      assert [] + Frames(a + b).msgs == Frames(a + b).msgs;
    }
  }

  /** A message of the protocol: it starts with its own length and fits the buffer. */
  ghost predicate IsMessage(m: seq<byte>) { 2 <= |m| <= BUFSIZE && MsgLen(m) == |m| }

  ghost predicate AreMessages(msgs: seq<seq<byte>>) { forall i :: 0 <= i < |msgs| ==> IsMessage(msgs[i]) }

  lemma {:induction false} FramesOfMessages(msgs: seq<seq<byte>>)
    requires AreMessages(msgs)
    ensures Frames(Flatten(msgs)) == Split(msgs, [])
  {
    if msgs != [] {
      hide Frames;
      var m, rest := msgs[0], Flatten(msgs[1..]);
      FramesOfMessages(msgs[1..]);
      assert IsMessage(m) && (m + rest)[..|m|] == m && (m + rest)[|m|..] == rest;
      FramesStep(m + rest);
      assert [m] + msgs[1..] == msgs;
    } else {
      FramesStep([]);
    }
  }

  /** The framing of any beginning of a stream of messages: some first messages, and less than one more
      message, which starts with no zero length. */
  lemma {:induction false} PrefixFrames(msgs: seq<seq<byte>>, s: seq<byte>)
    requires AreMessages(msgs) && s <= Flatten(msgs)
    ensures var (f, j) := (Frames(s), |Frames(s).msgs|);
            && !Stuck(f.rest) && |f.rest| < BUFSIZE && j <= |msgs| && f.msgs == msgs[..j]
            && Flatten(msgs) == Flatten(f.msgs) + Flatten(msgs[j..])
    decreases |msgs|
  {
    hide Frames;
    FramesStep(s);
    if msgs != [] {
      var m, rest := msgs[0], Flatten(msgs[1..]);
      assert IsMessage(m) && Flatten(msgs) == m + rest;
      if |s| < |m| {
        assert |s| >= 2 ==> s[0] == m[0] && s[1] == m[1];
        FlattenNone();
        assert msgs[0..] == msgs && [] + Flatten(msgs) == Flatten(msgs);
      } else {
        assert s[0] == m[0] && s[1] == m[1] && s[..|m|] == m;
        assert s[|m|..] <= rest;
        PrefixFrames(msgs[1..], s[|m|..]);
        PrefixCons(msgs, Frames(s[|m|..]).msgs);
      }
    }
  }

  lemma SliceShift<T>(s: seq<T>, k: nat)
    requires k < |s|
    ensures s[1..][k..] == s[k + 1..] && [s[0]] + s[1..][..k] == s[..k + 1] && [s[0]] + s[1..] == s
  {
  }

  lemma PrefixCons(msgs: seq<seq<byte>>, first: seq<seq<byte>>)
    requires msgs != [] && |first| < |msgs| && first == msgs[1..][..|first|]
    requires Flatten(msgs[1..]) == Flatten(first) + Flatten(msgs[1..][|first|..])
    ensures var (all, j) := ([msgs[0]] + first, |first| + 1);
            all == msgs[..j] && Flatten(msgs) == Flatten(all) + Flatten(msgs[j..])
  {
    hide Flatten;
    SliceShift(msgs, |first|);
    FlattenCons(msgs[0], msgs[1..]);
    FlattenCons(msgs[0], first);
    ConcatAssoc(msgs[0], Flatten(first), Flatten(msgs[|first| + 1..]));
  }

  /** What is left over holds no whole message. */
  lemma {:induction false} RestHasNoMessage(s: seq<byte>)
    ensures Frames(Frames(s).rest) == Split([], Frames(s).rest)
  {
    if !(|s| < 2 || MsgLen(s) == 0 || |s| < MsgLen(s)) {
      RestHasNoMessage(s[MsgLen(s)..]);
    }
  }

  // ------------------------------------------------------------- one chunk

  /** How `o` comes from handing on the messages of `f` out of the window of `r`. */
  ghost predicate HandedOn(r: Rx, o: Option<Rx>, f: Split, compact: bool)
  {
    && o.Some? && var q := o.value;
    && q.out == r.out + f.msgs && q.len == |f.rest|
    && q.head == (if compact || (f.rest == [] && f.msgs != []) then 0 else r.head + |Flatten(f.msgs)|)
    && (compact || q.head == 0 ==> InBuffer(q) && Window(q) == f.rest)
    && |f.rest| <= |r.buf| && q.buf == (if compact || |f.rest| >= 2 then Splice(r.buf, 0, f.rest) else r.buf)
  }

  lemma PeekIsWindow(r: Rx)
    requires InBuffer(r) && r.len >= 2
    ensures Peek(r) == MsgLen(Window(r))
  {
  }

  lemma WaitHandsNothing(r: Rx, compact: bool)
    requires InBuffer(r) && !StartsWhole(Window(r)) && !Stuck(Window(r))
    ensures HandedOn(r, Process(r, compact), Split([], Window(r)), compact)
  {
    hide MsgLen;
    if r.len >= 2 { PeekIsWindow(r); }
    var w := Window(r);
    assert r.out + [] == r.out;
    assert Splice(r.buf, 0, w)[..r.len] == w;
  }

  lemma LastHandsAll(r: Rx, compact: bool)
    requires InBuffer(r) && r.len >= 2 && MsgLen(Window(r)) == r.len
    ensures HandedOn(r, Process(r, compact), Split([Window(r)], []), compact)
  {
  }

  lemma FirstThenRest(r: Rx, f: Split, compact: bool)
    requires InBuffer(r) && r.len >= 2 && 0 < MsgLen(Window(r)) < r.len && Peek(r) == MsgLen(Window(r))
    requires HandedOn(Took(r), Process(Took(r), compact), f, compact) && (f.msgs != [] || f.rest != [])
    ensures HandedOn(r, Process(r, compact), Split([Window(r)[..MsgLen(Window(r))]] + f.msgs, f.rest), compact)
  {
    hide Flatten, Took;
    var m := Window(r)[..MsgLen(Window(r))];
    assert Took(r).out == r.out + [m] && Took(r).head == r.head + |m| && Took(r).buf == r.buf by { TookShape(r); }
    ConcatAssoc(r.out, [m], f.msgs);
    FlattenCons(m, f.msgs);
  }

  lemma TookShape(r: Rx)
    requires InBuffer(r) && r.len >= 2 && 0 < MsgLen(Window(r)) < r.len
    ensures var n := MsgLen(Window(r));
            && Peek(r) == n && InBuffer(Took(r))
            && Took(r).out == r.out + [Window(r)[..n]] && Took(r).head == r.head + n
            && Window(Took(r)) == Window(r)[n..] && Took(r).buf == r.buf
  {
    PeekIsWindow(r);
    hide MsgLen;
    SliceOfSlice(r.buf, r.head, r.len, MsgLen(Window(r)));
  }

  lemma SliceOfSlice<T>(s: seq<T>, head: nat, len: nat, n: nat)
    requires n <= len && head + len <= |s|
    ensures s[head..head + len][..n] == s[head..head + n]
    ensures s[head..head + len][n..] == s[head + n..head + len]
  {
  }

  /** The loop hands on exactly the whole messages of its window. With compaction the bytes left over are
      at the front; as written they are copied there if there are two or more, but read from there only if
      nothing was taken out in front of them. */
  lemma {:induction false} ProcessRefines(r: Rx, compact: bool)
    requires InBuffer(r) && !Stuck(Frames(Window(r)).rest)
    ensures HandedOn(r, Process(r, compact), Frames(Window(r)), compact)
    decreases r.len
  {
    hide Frames, Flatten, Process, HandedOn, Took;
    var w := Window(r);
    FramesStep(w);
    if !StartsWhole(w) {
      WaitHandsNothing(r, compact);
    } else if r.len > MsgLen(w) {
      TookShape(r);
      FramesStep(w[MsgLen(w)..]);
      ProcessRefines(Took(r), compact);
      FirstThenRest(r, Frames(w[MsgLen(w)..]), compact);
    } else {
      FramesStep([]);
      assert w[..r.len] == w && w[r.len..] == [] && [w] + [] == [w];
      LastHandsAll(r, compact);
    }
  }

  /** Ready for the next chunk: what is left over is at the front. */
  ghost predicate Ready(r: Rx, left: seq<byte>)
  {
    |r.buf| == BUFSIZE && r.head == 0 && InBuffer(r) && Window(r) == left
  }

  /** A chunk that arrives when the leftover bytes are at the front is framed with them. As written, the
      next chunk finds them at the front again exactly when no message was taken out or nothing is left. */
  lemma ReceiveRefines(r: Rx, left: seq<byte>, chunk: seq<byte>, compact: bool)
    requires Ready(r, left) && r.len + |chunk| <= BUFSIZE && !Stuck(Frames(left + chunk).rest)
    ensures var (o, f) := (Receive(r, chunk, compact), Frames(left + chunk));
            && o.Some? && o.value.out == r.out + f.msgs && o.value.len == |f.rest|
            && (Ready(o.value, f.rest) <==> compact || f.msgs == [] || f.rest == [])
            && (Ready(o.value, f.rest) <==> o.value.head == 0)
  {
    var f := Refill(r, chunk);
    assert Window(f) == left + chunk;
    ProcessRefines(f, compact);
    FramesFlatten(left + chunk);
    if Frames(left + chunk).msgs != [] { FirstMessageNonempty(left + chunk); }
  }

  lemma FirstMessageNonempty(s: seq<byte>)
    requires Frames(s).msgs != []
    ensures Flatten(Frames(s).msgs) != []
  {
  }

  // ------------------------------------------------------------- runs of chunks

  /** The chunks arrive one by one; a chunk is never larger than the room it is read into. */
  ghost predicate Arrive(r: Rx, chunks: seq<seq<byte>>, compact: bool)
    decreases |chunks|
  {
    chunks == []
    || (r.len + |chunks[0]| <= |r.buf| && var o := Receive(r, chunks[0], compact);
        o.Some? ==> Arrive(o.value, chunks[1..], compact))
  }

  function Run(r: Rx, chunks: seq<seq<byte>>, compact: bool): Option<Rx>
    requires Arrive(r, chunks, compact)
    decreases |chunks|
  {
    if chunks == [] then Some(r)
    else
      match Receive(r, chunks[0], compact)
      case None => None
      case Some(q) => Run(q, chunks[1..], compact)
  }

  /** Every refill finds the leftover bytes at the front of the buffer. */
  ghost predicate RefillsAtFront(r: Rx, chunks: seq<seq<byte>>, compact: bool)
    requires Arrive(r, chunks, compact)
    decreases |chunks|
  {
    chunks == []
    || (r.head == 0 && var o := Receive(r, chunks[0], compact);
        o.Some? ==> RefillsAtFront(o.value, chunks[1..], compact))
  }

  /** The cuts alone: no chunk but the last ends a message and begins another. */
  ghost predicate CleanCuts(left: seq<byte>, chunks: seq<seq<byte>>)
    decreases |chunks|
  {
    |chunks| <= 1
    || (var f := Frames(left + chunks[0]);
        (f.msgs == [] || f.rest == []) && CleanCuts(f.rest, chunks[1..]))
  }

  /** No zero length is left over after any of the chunks. */
  ghost predicate NeverStuck(left: seq<byte>, chunks: seq<seq<byte>>)
    decreases |chunks|
  {
    chunks == [] || (!Stuck(Frames(left + chunks[0]).rest) && NeverStuck(Frames(left + chunks[0]).rest, chunks[1..]))
  }

  /** As written, every refill finds the leftover bytes at the front exactly when the cuts are clean. */
  lemma {:induction false} AtFrontIffCleanCuts(r: Rx, left: seq<byte>, chunks: seq<seq<byte>>)
    requires Ready(r, left) && Arrive(r, chunks, false) && NeverStuck(left, chunks)
    ensures RefillsAtFront(r, chunks, false) <==> CleanCuts(left, chunks)
    decreases |chunks|
  {
    hide Frames, Receive;
    if chunks != [] {
      var f := Frames(left + chunks[0]);
      ReceiveRefines(r, left, chunks[0], false);
      if f.msgs == [] || f.rest == [] {
        AtFrontIffCleanCuts(Receive(r, chunks[0], false).value, f.rest, chunks[1..]);
      }
    }
  }

  /** The messages of the whole stream come out, however it is cut with compaction, and as written when
      the cuts are clean. */
  lemma {:induction false} RunFrames(r: Rx, left: seq<byte>, chunks: seq<seq<byte>>, compact: bool)
    requires Ready(r, left) && Frames(left) == Split([], left)
    requires Arrive(r, chunks, compact) && NeverStuck(left, chunks)
    requires compact || CleanCuts(left, chunks)
    ensures var (o, f) := (Run(r, chunks, compact), Frames(left + Flatten(chunks)));
            o.Some? && o.value.out == r.out + f.msgs && o.value.len == |f.rest|
    decreases |chunks|
  {
    hide Frames, Receive;
    if chunks == [] {
      assert left + [] == left && r.out + [] == r.out;
    } else {
      var s, later := left + chunks[0], Flatten(chunks[1..]);
      var f := Frames(s);
      ReceiveRefines(r, left, chunks[0], compact);
      var q := Receive(r, chunks[0], compact).value;
      ConcatAssoc(left, chunks[0], later);
      if chunks[1..] == [] {
        assert s + later == s;
      } else {
        RestHasNoMessage(s);
        FramesConcat(s, later);
        RunFrames(q, f.rest, chunks[1..], compact);
        ConcatAssoc(r.out, f.msgs, Frames(f.rest + later).msgs);
      }
    }
  }

  lemma {:induction false} MessagesNeverStick(msgs: seq<seq<byte>>, left: seq<byte>, chunks: seq<seq<byte>>)
    requires AreMessages(msgs) && left + Flatten(chunks) <= Flatten(msgs)
    ensures NeverStuck(left, chunks)
    decreases |chunks|
  {
    if chunks != [] {
      var s, later := left + chunks[0], Flatten(chunks[1..]);
      assert s + later == left + Flatten(chunks);
      assert s <= Flatten(msgs);
      PrefixFrames(msgs, s);
      FramesFlatten(s);
      var f := Frames(s);
      CancelPrefix(Flatten(f.msgs), f.rest, later, Flatten(msgs[|f.msgs|..]));
      MessagesNeverStick(msgs[|f.msgs|..], f.rest, chunks[1..]);
    }
  }

  lemma CancelPrefix(a: seq<byte>, b: seq<byte>, c: seq<byte>, d: seq<byte>)
    requires a + b + c <= a + d
    ensures b + c <= d
  {
    assert (a + b + c)[|a|..] == b + c && (a + d)[|a|..] == d;
    assert (a + d)[..|a + b + c|][|a|..] == d[..|b + c|];
  }

  function Start(buf: seq<byte>): Rx { Rx(buf, 0, 0, []) }

  /** However a stream of messages is cut into chunks, the loop with compaction hands on exactly these
      messages in order. The loop as written does when no chunk but the last ends a message and begins another. */
  lemma StreamDelivered(buf: seq<byte>, chunks: seq<seq<byte>>, msgs: seq<seq<byte>>, compact: bool)
    requires |buf| == BUFSIZE && Arrive(Start(buf), chunks, compact)
    requires AreMessages(msgs) && Flatten(chunks) == Flatten(msgs)
    requires compact || CleanCuts([], chunks)
    ensures var o := Run(Start(buf), chunks, compact); o.Some? && o.value.out == msgs && o.value.len == 0
  {
    assert [] + Flatten(chunks) == Flatten(msgs);
    MessagesNeverStick(msgs, [], chunks);
    RunFrames(Start(buf), [], chunks, compact);
    FramesOfMessages(msgs);
  }

  // ------------------------------------------------------------- the sender's side

  /** How the protocol sends a body: behind the length of the whole message, high byte first. */
  function Framed(body: seq<byte>): (m: seq<byte>)
    requires |body| <= 8190
    ensures |m| == |body| + 2
  {
    [(|body| + 2) / 256, (|body| + 2) % 256] + body
  }

  predicate Sendable(bodies: seq<seq<byte>>) { forall i :: 0 <= i < |bodies| ==> |bodies[i]| <= 8190 }

  function FramedAll(bodies: seq<seq<byte>>): (msgs: seq<seq<byte>>)
    requires Sendable(bodies)
    ensures |msgs| == |bodies| && forall i :: 0 <= i < |msgs| ==> msgs[i] == Framed(bodies[i])
  {
    seq(|bodies|, i requires 0 <= i < |bodies| => Framed(bodies[i]))
  }

  /** How many of the messages have arrived when `n` bytes have. */
  function Whole(msgs: seq<seq<byte>>, n: nat): (j: nat)
    ensures j <= |msgs|
  {
    if msgs == [] || n < |msgs[0]| then 0 else 1 + Whole(msgs[1..], n - |msgs[0]|)
  }

  /** The cuts by lengths alone, when `k` bytes of the first message are there: no chunk but the last ends
      a message and begins another. */
  predicate CutsBetween(msgs: seq<seq<byte>>, k: nat, chunks: seq<seq<byte>>)
    decreases |chunks|
  {
    |chunks| <= 1
    || (var j, n := Whole(msgs, k + |chunks[0]|), k + |chunks[0]|;
        var over := n - |Flatten(msgs[..j])|;
        (j == 0 || over == 0) && over >= 0 && CutsBetween(msgs[j..], over, chunks[1..]))
  }

  lemma FramedIsMessage(body: seq<byte>)
    requires |body| <= 8190
    ensures IsMessage(Framed(body))
  {
  }

  lemma {:induction false} WholeIsFramed(msgs: seq<seq<byte>>, s: seq<byte>)
    requires AreMessages(msgs) && s <= Flatten(msgs)
    ensures Whole(msgs, |s|) == |Frames(s).msgs| && Frames(s).msgs == msgs[..|Frames(s).msgs|]
    decreases |msgs|
  {
    hide Frames;
    PrefixFrames(msgs, s);
    FramesStep(s);
    if msgs != [] {
      var m, rest := msgs[0], Flatten(msgs[1..]);
      assert IsMessage(m) && Flatten(msgs) == m + rest;
      if |s| < |m| {
        assert |s| >= 2 ==> s[0] == m[0] && s[1] == m[1];
      } else {
        assert s[0] == m[0] && s[1] == m[1] && s[..|m|] == m && s[|m|..] <= rest;
        WholeIsFramed(msgs[1..], s[|m|..]);
      }
    }
  }

  /** For a stream of messages the cuts are clean exactly when they are by lengths. */
  lemma {:induction false} CleanIffBetween(msgs: seq<seq<byte>>, left: seq<byte>, chunks: seq<seq<byte>>)
    requires AreMessages(msgs) && left + Flatten(chunks) <= Flatten(msgs)
    ensures CleanCuts(left, chunks) <==> CutsBetween(msgs, |left|, chunks)
    decreases |chunks|
  {
    if |chunks| > 1 {
      hide Frames, Whole;
      var s, later := left + chunks[0], Flatten(chunks[1..]);
      ConcatAssoc(left, chunks[0], later);
      assert s <= s + later;
      var f := Frames(s);
      PrefixFrames(msgs, s);
      WholeIsFramed(msgs, s);
      FramesFlatten(s);
      CancelPrefix(Flatten(f.msgs), f.rest, later, Flatten(msgs[|f.msgs|..]));
      CleanIffBetween(msgs[|f.msgs|..], f.rest, chunks[1..]);
    }
  }

  /** The headline: whatever bodies of up to 8190 bytes are sent, and however their framed forms are cut
      into chunks, the loop with compaction hands on exactly these forms, in order. The loop as written does
      when no chunk but the last ends a message and begins another. */
  lemma FramedDelivered(buf: seq<byte>, chunks: seq<seq<byte>>, bodies: seq<seq<byte>>, compact: bool)
    requires |buf| == 8192 && Arrive(Start(buf), chunks, compact)
    requires Sendable(bodies) && Flatten(chunks) == Flatten(FramedAll(bodies))
    requires compact || CutsBetween(FramedAll(bodies), 0, chunks)
    ensures var o := Run(Start(buf), chunks, compact);
            o.Some? && o.value.out == FramedAll(bodies) && o.value.len == 0
  {
    hide Run, Arrive, CleanCuts, CutsBetween;
    var msgs := FramedAll(bodies);
    forall i | 0 <= i < |msgs| ensures IsMessage(msgs[i]) { FramedIsMessage(bodies[i]); }
    assert [] + Flatten(chunks) == Flatten(msgs);
    if !compact { CleanIffBetween(msgs, [], chunks); }
    StreamDelivered(buf, chunks, msgs, compact);
  }

  // ------------------------------------------------------------- the loop as written

  /** A refill of `n` bytes that stays in the buffer appends to the leftover bytes, whatever arrives,
      exactly when these are at the front: otherwise the last byte of the window is an old one. */
  lemma RefillAppendsIff(r: Rx, n: nat)
    requires n > 0 && r.head + r.len + n <= |r.buf|
    ensures r.head == 0
            <==> forall chunk: seq<byte> :: |chunk| == n ==> Window(Refill(r, chunk)) == Window(r) + chunk
  {
    if r.head > 0 {
      var k := r.head + r.len + n - 1;
      var chunk: seq<byte> := seq(n, _ => if r.buf[k] == 0 then 1 else 0);
      var w := Window(Refill(r, chunk));
      assert w[|w| - 1] == r.buf[k] && (Window(r) + chunk)[r.len + n - 1] == chunk[n - 1];
    } else {
      forall chunk: seq<byte> | |chunk| == n ensures Window(Refill(r, chunk)) == Window(r) + chunk {
      }
    }
  }

  /** A message can begin with these bytes. */
  predicate CanBegin(s: seq<byte>)
  {
    (|s| == 1 ==> s[0] <= 32) && (|s| >= 2 ==> |s| < MsgLen(s) <= BUFSIZE)
  }

  ghost predicate Completes(s: seq<byte>, d: seq<byte>) { d != [] && IsMessage(s + d) }

  /** As written, the loop hands on all whole messages of what has arrived. */
  ghost predicate Delivers(r: Rx, left: seq<byte>, chunks: seq<seq<byte>>)
  {
    && Arrive(r, chunks, false)
    && var o := Run(r, chunks, false);
       o.Some? && o.value.out == r.out + Frames(left + Flatten(chunks)).msgs
  }

  lemma ProcessMore(r: Rx)
    requires r.head + 2 <= |r.buf| && r.head + Peek(r) <= |r.buf| && 0 < Peek(r) < r.len
    ensures Process(r, false) == Process(Took(r), false)
  {
  }

  /** What is handed on is no longer than the window. */
  lemma {:induction false} ProcessExtends(r: Rx)
    ensures var o := Process(r, false);
            o.Some? ==> r.out <= o.value.out
                        && forall i :: |r.out| <= i < |o.value.out| ==> |o.value.out[i]| <= r.len
    decreases r.len
  {
    if r.len >= 2 && r.head + 2 <= |r.buf| && 0 < Peek(r) < r.len && r.head + Peek(r) <= |r.buf| {
      ProcessExtends(Took(r));
    }
  }

  /** `m` is not among the messages handed on from `r` to `o`. */
  ghost predicate NotHandedOn(r: Rx, o: Option<Rx>, m: seq<byte>)
  {
    o.Some? ==> r.out <= o.value.out && forall i :: |r.out| <= i < |o.value.out| ==> o.value.out[i] != m
  }

  /** A message is not handed on from where another byte than its last one is. */
  lemma OtherLastByte(r: Rx, m: seq<byte>)
    requires |m| == r.len > 0 && (r.head + r.len <= |r.buf| ==> r.buf[r.head + r.len - 1] != m[r.len - 1])
    ensures NotHandedOn(r, Process(r, false), m)
  {
    if r.len >= 2 && r.head + 2 <= |r.buf| && r.head + Peek(r) <= |r.buf| {
      var n := Peek(r);
      if 0 < n < r.len {
        hide Process;
        ProcessMore(r);
        ProcessExtends(Took(r));
        assert Took(r).out[|r.out|] == r.buf[r.head..r.head + n] != m;
      } else if n == r.len {
        assert Window(r)[n - 1] != m[n - 1];
      }
    }
  }

  /** When the leftover bytes begin a message but are read behind the front, there are bytes that complete
      the message and do not bring it out: the last byte that is looked at is an old one. */
  lemma CompletionLost(o: Rx, rest: seq<byte>) returns (d: seq<byte>)
    requires |o.buf| == BUFSIZE && o.head > 0 && o.len == |rest| > 0 && CanBegin(rest)
    ensures Completes(rest, d) && o.len + |d| <= |o.buf|
    ensures NotHandedOn(o, Receive(o, d, false), rest + d)
  {
    var k := o.head + WholeLength(rest) - 1;
    d := Completion(rest, if k < BUFSIZE && o.buf[k] == 0 then 1 else 0);
    hide Process, WholeLength, MsgLen;
    OtherLastByte(Refill(o, d), rest + d);
  }

  /** The length of a message that begins with `rest`, more than two bytes. */
  function WholeLength(rest: seq<byte>): nat
    requires rest != []
  {
    if |rest| >= 2 then MsgLen(rest) else if rest[0] == 0 then 3 else 256 * (rest[0] as nat)
  }

  /** A completion with a last byte of choice. */
  lemma Completion(rest: seq<byte>, last: byte) returns (d: seq<byte>)
    requires rest != [] && CanBegin(rest)
    ensures Completes(rest, d) && |rest| + |d| == WholeLength(rest) && d[|d| - 1] == last
  {
    var n := WholeLength(rest);
    if |rest| == 1 {
      d := [if rest[0] == 0 then 3 else 0] + seq(n - 2, _ => last);
    } else {
      d := seq(n - |rest|, _ => last);
    }
    assert IsMessage(rest + d);
  }

  lemma FlattenOne(m: seq<byte>)
    ensures Flatten([m]) == m
  {
    assert [m][1..] == [] && Flatten([]) == [];
  }

  lemma OneMessage(m: seq<byte>)
    requires IsMessage(m)
    ensures Frames(m) == Split([m], [])
  {
    FlattenOne(m);
    FramesOfMessages([m]);
  }

  lemma RunOne(r: Rx, d: seq<byte>)
    ensures Arrive(r, [d], false) <==> r.len + |d| <= |r.buf|
    ensures Arrive(r, [d], false) ==> Run(r, [d], false) == Receive(r, d, false)
  {
    hide Receive;
    var ds: seq<seq<byte>> := [d];
    assert ds[0] == d && ds[1..] == [];
    if r.len + |d| <= |r.buf| {
      var o := Receive(r, d, false);
      assert o.Some? ==> Arrive(o.value, ds[1..], false);
      assert Arrive(r, ds, false);
    }
  }

  lemma DeliversOne(r: Rx, left: seq<byte>, d: seq<byte>)
    requires Ready(r, left) && Completes(left, d)
    ensures Delivers(r, left, [d])
  {
    hide Frames, Receive;
    OneMessage(left + d);
    ReceiveRefines(r, left, d, false);
    FlattenOne(d);
    RunOne(r, d);
  }

  /** A first chunk in front of others, whether or not it leaves its last bytes at the front. */
  lemma DeliversStep(r: Rx, left: seq<byte>, c: seq<byte>, later: seq<seq<byte>>)
    requires Ready(r, left) && r.len + |c| <= BUFSIZE && !Stuck(Frames(left + c).rest)
    ensures Receive(r, c, false).Some?
    ensures Delivers(r, left, [c] + later) <==> Delivers(Receive(r, c, false).value, Frames(left + c).rest, later)
  {
    hide Frames, Receive;
    var f, s := Frames(left + c), left + c;
    ReceiveRefines(r, left, c, false);
    assert ([c] + later)[1..] == later;
    FlattenCons(c, later);
    ConcatAssoc(left, c, Flatten(later));
    FramesConcat(s, Flatten(later));
    var more := Frames(f.rest + Flatten(later)).msgs;
    ConcatAssoc(r.out, f.msgs, more);
  }

  /** The exact condition for the loop as written. When the cuts between `chunks` are clean, the cut behind
      them is clean if and only if all messages come out, whatever completes the one that is begun. So the
      first unclean cut of a stream loses the message that it cuts, for some bytes of that message. */
  lemma {:induction false} DeliveredIffClean(r: Rx, left: seq<byte>, chunks: seq<seq<byte>>, next: seq<byte>)
    requires Ready(r, left) && Frames(left) == Split([], left)
    requires Arrive(r, chunks, false) && NeverStuck(left, chunks) && CleanCuts(left, chunks)
    requires CanBegin(Frames(left + Flatten(chunks)).rest)
    ensures var rest := Frames(left + Flatten(chunks)).rest;
            CleanCuts(left, chunks + [next])
            <==> forall d :: Completes(rest, d) ==> Delivers(r, left, chunks + [d])
    decreases |chunks|
  {
    hide Frames, Receive, Delivers, Completes;
    if chunks == [] {
      assert left + [] == left && [] + [next] == [next];
      forall d | Completes(left, d) ensures Delivers(r, left, [] + [d]) {
        DeliversOne(r, left, d);
        assert [] + [d] == [d];
      }
    } else {
      var c, tail, s := chunks[0], chunks[1..], left + chunks[0];
      var f := Frames(s);
      ReceiveRefines(r, left, c, false);
      var q := Receive(r, c, false).value;
      RestHasNoMessage(s);
      ConcatAssoc(left, c, Flatten(tail));
      FramesConcat(s, Flatten(tail));
      forall d ensures Delivers(r, left, chunks + [d]) <==> Delivers(q, f.rest, tail + [d]) {
        assert chunks + [d] == [c] + (tail + [d]);
        DeliversStep(r, left, c, tail + [d]);
      }
      assert (chunks + [next])[1..] == tail + [next];
      if f.msgs == [] || f.rest == [] {
        DeliveredIffClean(q, f.rest, tail, next);
      } else {
        assert tail == [] && s + [] == s by { FlattenNone(); }
        FirstUncleanCut(q, f.rest);
      }
    }
  }

  lemma FirstUncleanCut(q: Rx, rest: seq<byte>)
    requires |q.buf| == BUFSIZE && q.head > 0 && q.len == |rest| > 0 && CanBegin(rest)
    ensures exists d :: Completes(rest, d) && !Delivers(q, rest, [] + [d])
  {
    hide Frames, Receive;
    var d := CompletionLost(q, rest);
    OneMessage(rest + d);
    assert (q.out + [rest + d])[|q.out|] == rest + d;
    FlattenOne(d);
    RunOne(q, d);
    var ds: seq<seq<byte>> := [d];
    assert [] + ds == ds;
    assert !Delivers(q, rest, [] + [d]);
  }

  /** What any beginning of a stream of messages leaves over can begin a message. */
  lemma PrefixCanBegin(msgs: seq<seq<byte>>, s: seq<byte>)
    requires AreMessages(msgs) && s <= Flatten(msgs)
    ensures CanBegin(Frames(s).rest)
  {
    hide Frames;
    var f := Frames(s);
    PrefixFrames(msgs, s);
    FramesFlatten(s);
    RestHasNoMessage(s);
    FramesStep(f.rest);
    var later := msgs[|f.msgs|..];
    assert Flatten(f.msgs) + f.rest + [] == s;
    CancelPrefix(Flatten(f.msgs), f.rest, [], Flatten(later));
    assert f.rest <= Flatten(later);
    if f.rest != [] {
      var m := later[0];
      assert IsMessage(m) && m <= Flatten(later);
      assert m[0] == f.rest[0] && (|f.rest| >= 2 ==> m[1] == f.rest[1]);
    }
  }

  /** The same for a stream of messages, of which any beginning has arrived. */
  lemma StreamDeliveredIff(buf: seq<byte>, msgs: seq<seq<byte>>, chunks: seq<seq<byte>>, next: seq<byte>)
    requires |buf| == BUFSIZE && AreMessages(msgs) && Flatten(chunks) <= Flatten(msgs)
    requires Arrive(Start(buf), chunks, false) && CleanCuts([], chunks)
    ensures var rest := Frames(Flatten(chunks)).rest;
            CleanCuts([], chunks + [next])
            <==> forall d :: Completes(rest, d) ==> Delivers(Start(buf), [], chunks + [d])
  {
    assert [] + Flatten(chunks) == Flatten(chunks);
    MessagesNeverStick(msgs, [], chunks);
    PrefixCanBegin(msgs, Flatten(chunks));
    DeliveredIffClean(Start(buf), [], chunks, next);
  }

  /** Two messages cut inside the second one's length: as written, the second message is lost. */
  lemma SplitLengthLosesMessage(buf: seq<byte>)
    requires |buf| == BUFSIZE && forall i :: 0 <= i < |buf| ==> buf[i] == 0
    ensures var (a, b) := ([0, 2], [0, 3, 7]);
            var (c1, c2) := ([0, 2, 0], [3, 7]);
            && IsMessage(a) && IsMessage(b) && a + b == c1 + c2
            && var q := Receive(Start(buf), c1, false);
            && q.Some? && q.value.len + |c2| <= BUFSIZE
            && var o := Receive(q.value, c2, false);
            o.Some? && o.value.out == [a]
  {
    var c1: seq<byte>, c2: seq<byte> := [0, 2, 0], [3, 7];
    var r := Start(buf);
    var f := Refill(r, c1);
    assert f.buf[0] == 0 && f.buf[1] == 2 && f.buf[2] == 0 && f.buf[3] == 0;
    assert f.buf[0..2] == [0, 2] && Peek(f) == 2;
    var q := Rx(f.buf, 2, 1, [[0, 2]]);
    assert Took(f) == q;
    assert Process(q, false) == Some(q);
    var g := Refill(q, c2);
    assert g.buf[2] == 7 && g.buf[3] == 0;
    assert Peek(g) == 1792;
  }

  /** The same two messages cut behind the second length: the bytes left over are moved to the front, but
      read where they were, and the second message is lost as well. */
  lemma SplitBodyLosesMessage(buf: seq<byte>)
    requires |buf| == BUFSIZE && forall i :: 0 <= i < |buf| ==> buf[i] == 0
    ensures var (a, b) := ([0, 2], [0, 3, 7]);
            var (c1, c2) := ([0, 2, 0, 3], [7]);
            && IsMessage(a) && IsMessage(b) && a + b == c1 + c2
            && var q := Receive(Start(buf), c1, false);
            && q.Some? && q.value.len + |c2| <= BUFSIZE
            && var o := Receive(q.value, c2, false);
            o.Some? && o.value.out == [a]
  {
    var c1: seq<byte>, c2: seq<byte> := [0, 2, 0, 3], [7];
    var r := Start(buf);
    var f := Refill(r, c1);
    assert f.buf[0] == 0 && f.buf[1] == 2 && f.buf[2] == 0 && f.buf[3] == 3;
    assert f.buf[0..2] == [0, 2] && Peek(f) == 2;
    var t := Rx(f.buf, 2, 2, [[0, 2]]);
    assert Took(f) == t;
    assert Peek(t) == 3;
    var q := Rx(Splice(f.buf, 0, [0, 3]), 2, 2, [[0, 2]]);
    assert Window(t) == [0, 3];
    assert Process(t, false) == Some(q);
    var g := Refill(q, c2);
    assert g.buf[2] == 7 && g.buf[3] == 3;
    assert Peek(g) == 1795;
  }

  /** A message of length zero is at the front of the buffer. */
  ghost predicate ZeroInFront(r: Rx)
  {
    r.head == 0 && 2 <= r.len <= |r.buf| && r.buf[0] == 0 && r.buf[1] == 0
  }

  /** It stays there: whatever arrives, nothing is handed on any more. */
  lemma {:induction false} ZeroStallsForever(r: Rx, chunks: seq<seq<byte>>, compact: bool)
    requires ZeroInFront(r) && Arrive(r, chunks, compact)
    ensures var o := Run(r, chunks, compact); o.Some? && o.value.out == r.out && ZeroInFront(o.value)
    decreases |chunks|
  {
    if chunks != [] {
      var f := Refill(r, chunks[0]);
      assert f.buf[0] == r.buf[0] && f.buf[1] == r.buf[1];
      assert Receive(r, chunks[0], compact) == Some(f);
      ZeroStallsForever(f, chunks[1..], compact);
    }
  }

  /** Behind another message it makes the loop start over: that message is handed on twice. */
  lemma ZeroLengthRepeats(buf: seq<byte>)
    requires |buf| == BUFSIZE
    ensures var (c1, c2) := ([0, 2, 0, 0], [0, 2]);
            && var q := Receive(Start(buf), c1, false);
            && q.Some? && q.value.out == [[0, 2]] && q.value.len + |c2| <= BUFSIZE
            && var o := Receive(q.value, c2, false);
            o.Some? && o.value.out == [[0, 2], [0, 2], [0, 2]]
  {
    var c1: seq<byte>, c2: seq<byte> := [0, 2, 0, 0], [0, 2];
    var f := Refill(Start(buf), c1);
    assert f.buf[0] == 0 && f.buf[1] == 2 && f.buf[2] == 0 && f.buf[3] == 0;
    assert f.buf[0..2] == [0, 2] && Peek(f) == 2;
    var q := Rx(f.buf, 2, 2, [[0, 2]]);
    assert Took(f) == q;
    assert Peek(q) == 0;
    assert Process(f, false) == Some(q.(head := 0));
    var g := Refill(q.(head := 0), c2);
    assert g.buf[0] == 0 && g.buf[1] == 2 && g.buf[2] == 0 && g.buf[3] == 2;
    assert g.buf[0..2] == [0, 2] && Peek(g) == 2;
    var t := Rx(g.buf, 2, 2, [[0, 2], [0, 2]]);
    assert Took(g) == t;
    assert Peek(t) == 2 && Window(t) == [0, 2];
    assert t.out + [Window(t)] == [[0, 2], [0, 2], [0, 2]];
    assert Process(t, false) == Some(Rx(g.buf, 0, 0, t.out + [Window(t)]));
    ProcessMore(g);
  }

  // ------------------------------------------------------------- the loop in place

  class Receiver {
    var buf: array<byte>
    var bufhead: nat
    var buflen: nat
    var handed: seq<seq<byte>>

    ghost function View(): Rx
      reads this, buf
    {
      Rx(buf[..], bufhead, buflen, handed)
    }

    constructor ()
      ensures fresh(buf) && buf.Length == 8192 && View() == Start(buf[..])
    {
      buf := new byte[BUFSIZE](_ => 0);
      bufhead, buflen, handed := 0, 0, [];
    }

    /** What the loop does with a chunk that it received, as the source has it. */
    method OnReceive(chunk: seq<byte>)
      requires buflen + |chunk| <= buf.Length && Receive(View(), chunk, false).Some?
      modifies this, buf
      ensures buf == old(buf) && Some(View()) == Receive(old(View()), chunk, false)
    {
      hide Process;
      CopyInto(buf, buflen, chunk);
      buflen := buflen + |chunk|;
      assert View() == Refill(old(View()), chunk);
      var more := true;
      while more
        invariant buf == old(buf)
        invariant Receive(old(View()), chunk, false) == if more then Process(View(), false) else Some(View())
        decreases more, buflen
      {
        more := HandOne();
      }
    }

    /** One turn of the loop behind `tcp_again`; the result says whether it goes on. */
    method HandOne() returns (more: bool)
      requires Process(View(), false).Some?
      modifies this, buf
      ensures buf == old(buf) && (more ==> buflen < old(buflen))
      ensures Process(old(View()), false) == if more then Process(View(), false) else Some(View())
    {
      ghost var r := View();
      if buflen < 2 {
        return false;
      }
      var msglen := 256 * (buf[bufhead] as nat) + (buf[bufhead + 1] as nat);
      assert msglen == Peek(r);
      if msglen == 0 {
        bufhead := 0;
        return false;
      }
      if buflen < msglen {
        assert buf[bufhead..bufhead + buflen] == Window(r);
        CopyInto(buf, 0, buf[bufhead..bufhead + buflen]);
        assert View() == Wait(r, true, false);
        return false;
      }
      handed := handed + [buf[bufhead..bufhead + msglen]];
      if buflen > msglen {
        hide Process;
        bufhead := bufhead + msglen;
        buflen := buflen - msglen;
        assert View() == Took(r);
        ProcessMore(r);
        return true;
      }
      bufhead, buflen := 0, 0;
      return false;
    }
  }
}
