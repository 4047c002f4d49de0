/**
 The bandwidth estimator: per source (SSRC) it counts packets, losses, frames and bytes from 16-bit
 sequence numbers, and now and then reports and starts over.

 `Summary` says what a record should hold, computed from the packets' true, unwrapped numbers.
 */
module Bandwidth {
  import opened Wrappers

  /** A packet with its true sequence number; times are in microseconds. */
  datatype Packet = Packet(ssrc: nat, number: int, rcvTime: int, timestamp: nat, size: nat)

  datatype Record = Record(initTime: int, framecount: int, pktcount: int, pktloss: int, bytesRcvd: int,
                           lastSeq: int, lastRcvTime: int, lastTimestamp: nat, lastSize: nat,
                           samples: int, totalBytes: int, totalElapsed: int)

  /** The counts that are sent to the server. */
  datatype Report = Report(duration: int, framecount: int, pktcount: int, pktloss: int, bytesRcvd: int,
                           capacity: Option<int>)

  const SEQ_MOD := 0x1_0000
  const MIN_FRAMES := 240
  const MIN_SAMPLES := 3000

  /** The 16 bits that the packet carries. */
  function Seq(p: Packet): (s: int)
    ensures 0 <= s < SEQ_MOD
  {
    p.number % SEQ_MOD
  }

  /** Microseconds, kept in 32 unsigned bits. */
  function Elapsed(rcv: int, last: int): int { (rcv - last) % 0x1_0000_0000 }

  /** Bits per second over the sampled microseconds, of which there must be some. */
  function Capacity(bytes: int, elapsed: int): Option<int>
  {
    if elapsed == 0 then None else Some(8_000_000 * bytes / elapsed)
  }

  // ------------------------------------------------------------- one packet

  function First(p: Packet): Record
  {
    Record(p.rcvTime, 1, 1, 0, p.size, Seq(p), p.rcvTime, p.timestamp, p.size, 0, 0, 0)
  }

  /** The sequence number follows the last one; the source compares without wrapping. */
  predicate Consecutive(r: Record, p: Packet) { Seq(p) - 1 == r.lastSeq }

  /** Losses as the source counts them, in 16 bits. */
  function Delta(r: Record, p: Packet): int { (Seq(p) - r.lastSeq - 1) % SEQ_MOD }

  function Counted(r: Record, p: Packet): Record
  {
    var f := if p.timestamp != r.lastTimestamp then r.(framecount := r.framecount + 1) else r;
    if Consecutive(r, p) then
      if p.timestamp == r.lastTimestamp then
        f.(samples := r.samples + 1, totalElapsed := r.totalElapsed + Elapsed(p.rcvTime, r.lastRcvTime),
           totalBytes := r.totalBytes + r.lastSize)
      else f
    else f.(pktloss := r.pktloss + Delta(r, p), pktcount := r.pktcount + Delta(r, p))
  }

  predicate Resets(r: Record, p: Packet)
  {
    && Consecutive(r, p) && p.timestamp == r.lastTimestamp
    && r.framecount >= MIN_FRAMES && r.samples + 1 >= MIN_SAMPLES
  }

  /** A record emptied by a report. */
  function Emptied(p: Packet): Record { Record(p.rcvTime, 1, 0, 0, 0, 0, 0, 0, 0, 0, 0, 0) }

  function Update(r: Record, p: Packet): (Record, Option<Report>)
  {
    var c := Counted(r, p);
    var d := if Resets(r, p) then Emptied(p) else c;
    (d.(pktcount := d.pktcount + 1, bytesRcvd := d.bytesRcvd + p.size, lastSeq := Seq(p),
        lastRcvTime := p.rcvTime, lastTimestamp := p.timestamp, lastSize := p.size),
     if Resets(r, p) then
       Some(Report(p.rcvTime - c.initTime, c.framecount, c.pktcount, c.pktloss, c.bytesRcvd,
                   Capacity(c.totalBytes, c.totalElapsed)))
     else None)
  }

  // ------------------------------------------------------------- what a record should hold

  function Last(w: seq<Packet>): Packet
    requires w != []
  {
    w[|w| - 1]
  }

  function Bytes(w: seq<Packet>): int
  {
    if w == [] then 0 else Bytes(w[..|w| - 1]) + w[|w| - 1].size
  }

  /** Places where a new frame begins, the first packet included. */
  function FrameStarts(w: seq<Packet>): int
    requires w != []
  {
    if |w| == 1 then 1
    else FrameStarts(w[..|w| - 1]) + (if w[|w| - 1].timestamp != w[|w| - 2].timestamp then 1 else 0)
  }

  /** Neighbours of one frame that are used as a sample: not across the wrap to zero. */
  predicate IsSample(p: Packet, q: Packet)
  {
    q.number == p.number + 1 && q.number % 65536 != 0 && q.timestamp == p.timestamp
  }

  /** The time from one packet to the next, which a 32-bit counter of microseconds holds. */
  function Between(p: Packet, q: Packet): int { (q.rcvTime - p.rcvTime) % 4294967296 }

  datatype Samples = Samples(count: int, bytes: int, elapsed: int)

  function SamplesOf(w: seq<Packet>): Samples
  {
    if |w| < 2 then Samples(0, 0, 0)
    else
      var s, p, q := SamplesOf(w[..|w| - 1]), w[|w| - 2], w[|w| - 1];
      if IsSample(p, q) then Samples(s.count + 1, s.bytes + p.size, s.elapsed + Between(p, q)) else s
  }

  /** The record of the packets `w` of a window, from their true numbers. */
  function Summary(w: seq<Packet>): Record
    requires w != []
  {
    var expected := Last(w).number - w[0].number + 1;
    var s := SamplesOf(w);
    Record(w[0].rcvTime, FrameStarts(w), expected, expected - |w|, Bytes(w),
           Seq(Last(w)), Last(w).rcvTime, Last(w).timestamp, Last(w).size, s.count, s.bytes, s.elapsed)
  }

  /** The true numbers go up, by less than a whole turn of the 16-bit counter plus one. */
  ghost predicate Follows(p: Packet, q: Packet) { 1 <= q.number - p.number <= 65536 }

  // ------------------------------------------------------------- one packet, proved

  lemma WrapStep(p: Packet, q: Packet)
    requires Follows(p, q)
    ensures (Seq(q) - Seq(p) - 1) % SEQ_MOD == q.number - p.number - 1
    ensures Seq(q) - 1 == Seq(p) <==> q.number == p.number + 1 && Seq(q) != 0
  {
    WrapIff(p, q);
  }

  /** The 16-bit difference is the true number of missing packets exactly when the true numbers go up
      by 1 to 65536. */
  lemma WrapIff(p: Packet, q: Packet)
    ensures (Seq(q) - Seq(p) - 1) % SEQ_MOD == q.number - p.number - 1 <==> Follows(p, q)
  {
  }

  /** Between packets in order less than 71 minutes apart, the time counted is the time that passed. */
  lemma ElapsedIff(p: Packet, q: Packet)
    ensures Elapsed(q.rcvTime, p.rcvTime) == Between(p, q)
    ensures Elapsed(q.rcvTime, p.rcvTime) == q.rcvTime - p.rcvTime <==> 0 <= q.rcvTime - p.rcvTime < 4294967296
  {
  }

  lemma WindowGrows(w: seq<Packet>, p: Packet)
    requires w != []
    ensures var v := w + [p];
            && v[..|v| - 1] == w && v[|v| - 2] == Last(w) && v[|v| - 1] == p == Last(v) && v[0] == w[0]
            && Bytes(v) == Bytes(w) + p.size
            && FrameStarts(v) == FrameStarts(w) + (if p.timestamp != Last(w).timestamp then 1 else 0)
            && SamplesOf(v) == (var s := SamplesOf(w);
                 if IsSample(Last(w), p) then
                   Samples(s.count + 1, s.bytes + Last(w).size, s.elapsed + Between(Last(w), p))
                 else s)
  {
    var v := w + [p];
    assert v[..|v| - 1] == w;
  }

  lemma SummaryOfOne(p: Packet)
    ensures Summary([p]) == First(p)
  {
    var w := [p];
    assert w[..|w| - 1] == [] && Bytes([]) == 0;
  }

  lemma SummaryCounts(w: seq<Packet>)
    requires w != []
    ensures Summary(w).pktcount == Last(w).number - w[0].number + 1
    ensures Summary(w).pktloss == Summary(w).pktcount - |w|
  {
  }

  lemma RunStep(init: seq<Packet>, p: Packet)
    requires init != []
    ensures Run(init + [p]) == Track(Run(init), p)
  {
    assert (init + [p])[..|init|] == init;
  }

  /** A packet that does not make the estimator report extends the window; one that does starts a window
      of its own, with the record of a first packet, and reports the window before it. */
  lemma UpdateRefines(w: seq<Packet>, p: Packet)
    requires w != [] && Follows(Last(w), p)
    ensures var r := Summary(w);
            && Update(r, p).0 == Summary(if Resets(r, p) then [p] else w + [p])
            && (Resets(r, p) ==> Update(r, p).0 == First(p))
            && Update(r, p).1 == if Resets(r, p) then
                 Some(Report(p.rcvTime - w[0].rcvTime, FrameStarts(w), Last(w).number - w[0].number + 1,
                             Last(w).number - w[0].number + 1 - |w|, Bytes(w),
                             Capacity(SamplesOf(w + [p]).bytes, SamplesOf(w + [p]).elapsed)))
               else None
  {
    WrapStep(Last(w), p);
    WindowGrows(w, p);
    SummaryOfOne(p);
  }

  /** A report is made exactly when a sample is taken in a window of 240 frames or more that has, with it,
      3000 samples or more. */
  lemma ResetsIff(w: seq<Packet>, p: Packet)
    requires w != [] && Follows(Last(w), p)
    ensures Update(Summary(w), p).1.Some?
            <==> IsSample(Last(w), p) && FrameStarts(w) >= 240 && SamplesOf(w + [p]).count >= 3000
  {
    WrapStep(Last(w), p);
    WindowGrows(w, p);
  }

  /** The capacity reported is the quotient of the bits and the seconds sampled, rounded down. */
  lemma CapacityIsQuotient(bytes: nat, elapsed: nat)
    ensures var c := Capacity(bytes, elapsed);
            if elapsed == 0 then c == None
            else c.Some? && c.value * elapsed <= 8_000_000 * bytes < (c.value + 1) * elapsed
  {
    if elapsed > 0 { Quotient(8_000_000 * bytes, elapsed); }
  }

  lemma Quotient(a: nat, b: nat)
    requires b > 0
    ensures a / b * b <= a < (a / b + 1) * b
  {
  }

  // ------------------------------------------------------------- whole runs

  /** The record of one source, and the packets of its current window. */
  datatype Tracked = Tracked(record: Record, window: seq<Packet>)

  function Track(t: Tracked, p: Packet): Tracked
  {
    Tracked(Update(t.record, p).0, if Resets(t.record, p) then [p] else t.window + [p])
  }

  function Run(pkts: seq<Packet>): Tracked
    requires pkts != []
  {
    if |pkts| == 1 then Tracked(First(pkts[0]), pkts) else Track(Run(pkts[..|pkts| - 1]), pkts[|pkts| - 1])
  }

  ghost predicate Increasing(pkts: seq<Packet>)
  {
    forall i :: 0 < i < |pkts| ==> Follows(pkts[i - 1], pkts[i])
  }

  /** Through any run, however long and whatever the reports in it, the record is the summary of the packets
      since the last report: the packets expected and missing by their true numbers, frames and bytes. */
  lemma {:induction false} RunCountsTruly(pkts: seq<Packet>)
    requires pkts != [] && Increasing(pkts)
    ensures var t := Run(pkts);
            && t.window != [] && t.record == Summary(t.window)
            && |t.window| <= |pkts| && t.window == pkts[|pkts| - |t.window|..]
            && t.record.pktcount == Last(pkts).number - t.window[0].number + 1
            && t.record.pktloss == t.record.pktcount - |t.window|
  {
    hide Summary, Update, Resets;
    if |pkts| == 1 {
      SummaryOfOne(pkts[0]);
      assert pkts == [pkts[0]];
    } else {
      hide Run;
      var init, p := pkts[..|pkts| - 1], pkts[|pkts| - 1];
      assert pkts == init + [p];
      RunCountsTruly(init);
      RunStep(init, p);
      WindowFollows(init, p, Run(init));
    }
    SummaryCounts(Run(pkts).window);
  }

  lemma WindowFollows(init: seq<Packet>, p: Packet, t: Tracked)
    requires init != [] && Follows(Last(init), p)
    requires t.window != [] && |t.window| <= |init| && t.window == init[|init| - |t.window|..]
    requires t.record == Summary(t.window)
    ensures var (u, pkts) := (Track(t, p), init + [p]);
            && u.window != [] && u.record == Summary(u.window)
            && |u.window| <= |pkts| && u.window == pkts[|pkts| - |u.window|..] && Last(u.window) == p
  {
    hide Summary, Update, Resets;
    assert Last(t.window) == Last(init);
    UpdateRefines(t.window, p);
  }

  /** Packet `k` began the current window: it is the first of the run or the latest that made a report. */
  ghost predicate SinceReport(pkts: seq<Packet>, k: int)
  {
    && 0 <= k < |pkts|
    && (k == 0 || Resets(Run(pkts[..k]).record, pkts[k]))
    && forall j :: k < j < |pkts| ==> !Resets(Run(pkts[..j]).record, pkts[j])
  }

  lemma {:induction false} WindowStart(pkts: seq<Packet>)
    requires pkts != []
    ensures 0 < |Run(pkts).window| <= |pkts| && SinceReport(pkts, |pkts| - |Run(pkts).window|)
  {
    hide Update, Resets;
    if |pkts| > 1 {
      hide Run;
      var init, p := pkts[..|pkts| - 1], pkts[|pkts| - 1];
      assert pkts == init + [p];
      WindowStart(init);
      RunStep(init, p);
      forall j | 0 < j < |pkts| ensures pkts[..j] == init[..j] {}
      assert init[..|init|] == init;
    }
  }

  // ------------------------------------------------------------- all reports of a run

  function Reports(pkts: seq<Packet>): seq<Report>
    requires pkts != []
  {
    if |pkts| == 1 then []
    else
      var init, p := pkts[..|pkts| - 1], pkts[|pkts| - 1];
      match Update(Run(init).record, p).1
      case None => Reports(init)
      case Some(report) => Reports(init) + [report]
  }

  datatype Totals = Totals(duration: int, frames: int, expected: int, lost: int, bytes: int)

  function TotalOf(reports: seq<Report>): Totals
  {
    if reports == [] then Totals(0, 0, 0, 0, 0)
    else
      var t, last := TotalOf(reports[..|reports| - 1]), reports[|reports| - 1];
      Totals(t.duration + last.duration, t.frames + last.framecount, t.expected + last.pktcount,
             t.lost + last.pktloss, t.bytes + last.bytesRcvd)
  }

  /** What was reported and what the record still holds, together. */
  ghost predicate Accounted(pkts: seq<Packet>, reports: seq<Report>, r: Record)
    requires pkts != []
  {
    var t := TotalOf(reports);
    && t.expected + r.pktcount == Last(pkts).number - pkts[0].number + 1
    && t.lost + r.pktloss == Last(pkts).number - pkts[0].number + 1 - |pkts|
    && t.bytes + r.bytesRcvd == Bytes(pkts)
    && t.frames + r.framecount == FrameStarts(pkts) + |reports|
    && t.duration == r.initTime - pkts[0].rcvTime
  }

  lemma AccountedStep(init: seq<Packet>, p: Packet, w: seq<Packet>, reports: seq<Report>)
    requires init != [] && w != [] && Last(w) == Last(init) && Follows(Last(init), p)
    requires Accounted(init, reports, Summary(w))
    ensures var (r, report) := Update(Summary(w), p);
            Accounted(init + [p], reports + if report.Some? then [report.value] else [], r)
  {
    UpdateRefines(w, p);
    WindowGrows(init, p);
    WindowGrows(w, p);
    hide Update;
    if Resets(Summary(w), p) {
      var report := Update(Summary(w), p).1.value;
      assert (reports + [report])[..|reports|] == reports;
      assert p.number == Last(w).number + 1 by { WrapStep(Last(w), p); }
    } else {
      assert reports + [] == reports;
    }
  }

  /** Nothing is lost from the counts when the estimator reports and starts over: over any run, the packets
      expected and missing in all reports and in the record are those of the whole run by true numbers, and
      so are the bytes and the time. A frame that a report cuts is counted on both sides. */
  lemma {:induction false} RunAccounts(pkts: seq<Packet>)
    requires pkts != [] && Increasing(pkts)
    ensures Accounted(pkts, Reports(pkts), Run(pkts).record)
  {
    hide Summary, Update, Resets, Accounted;
    if |pkts| == 1 {
      AccountedOne(pkts[0]);
      assert pkts == [pkts[0]];
    } else {
      var init, p := pkts[..|pkts| - 1], pkts[|pkts| - 1];
      assert pkts == init + [p];
      RunAccounts(init);
      RunCountsTruly(init);
      RunStep(init, p);
      AccountedStep(init, p, Run(init).window, Reports(init));
      assert Reports(init) + [] == Reports(init);
    }
  }

  lemma AccountedOne(p: Packet)
    ensures Accounted([p], [], First(p))
  {
    SummaryOfOne(p);
    assert [p][..0] == [];
  }

  /** A gap of a whole turn of the counter: 65536 packets are missing, and none is counted. */
  lemma WholeTurnUncounted(p: Packet, q: Packet)
    requires q.number == p.number + 65537
    ensures Run([p, q]).record.pktloss == 0
  {
    assert [p, q][..1] == [p];
    assert Seq(q) == (Seq(p) + 1) % SEQ_MOD;
  }

  // ------------------------------------------------------------- many sources

  type Watchlist = map<nat, Record>

  function Watch(m: Watchlist, p: Packet): Watchlist
  {
    m[p.ssrc := if p.ssrc in m then Update(m[p.ssrc], p).0 else First(p)]
  }

  function WatchAll(pkts: seq<Packet>): Watchlist
  {
    if pkts == [] then map[] else Watch(WatchAll(pkts[..|pkts| - 1]), pkts[|pkts| - 1])
  }

  function Of(ssrc: nat, pkts: seq<Packet>): (s: seq<Packet>)
  {
    if pkts == [] then []
    else Of(ssrc, pkts[..|pkts| - 1]) + if pkts[|pkts| - 1].ssrc == ssrc then [pkts[|pkts| - 1]] else []
  }

  /** However the packets of several sources are interleaved, each record is that of its own packets. */
  lemma {:induction false} SourcesAreIndependent(pkts: seq<Packet>, ssrc: nat)
    ensures ssrc in WatchAll(pkts) <==> Of(ssrc, pkts) != []
    ensures ssrc in WatchAll(pkts) ==> WatchAll(pkts)[ssrc] == Run(Of(ssrc, pkts)).record
  {
    if pkts != [] {
      var init, p := pkts[..|pkts| - 1], pkts[|pkts| - 1];
      SourcesAreIndependent(init, ssrc);
      if p.ssrc == ssrc {
        assert Of(ssrc, pkts)[..|Of(ssrc, pkts)| - 1] == Of(ssrc, init);
      } else {
        assert Of(ssrc, pkts) == Of(ssrc, init);
      }
    }
  }

  /** Every record of the watchlist is the summary of its source's packets since that source's last report. */
  lemma WatchlistCountsTruly(pkts: seq<Packet>, ssrc: nat)
    requires ssrc in WatchAll(pkts) && Increasing(Of(ssrc, pkts))
    ensures var own := Of(ssrc, pkts);
            && own != []
            && var k := |own| - |Run(own).window|;
            && SinceReport(own, k) && WatchAll(pkts)[ssrc] == Summary(own[k..])
  {
    hide Summary, Run, SinceReport, Of, WatchAll;
    var own := Of(ssrc, pkts);
    SourcesAreIndependent(pkts, ssrc);
    RunCountsTruly(own);
    WindowStart(own);
  }

  // ------------------------------------------------------------- the watchlist in place

  class Estimator {
    var watchlist: Watchlist

    constructor ()
      ensures watchlist == map[]
    {
      watchlist := map[];
    }

    /** Counts a packet; only the 16 bits `Seq(p)` of its number are looked at. The result is what is sent
        to the server, if anything. */
    method UpdateEstimate(p: Packet) returns (report: Option<Report>)
      modifies this
      ensures watchlist == Watch(old(watchlist), p)
      ensures report == if p.ssrc in old(watchlist) then Update(old(watchlist)[p.ssrc], p).1 else None
    {
      report := None;
      if p.ssrc !in watchlist {
        watchlist := watchlist[p.ssrc := First(p)];
        return;
      }
      var r := watchlist[p.ssrc];
      var sampleframe := true;
      if p.timestamp != r.lastTimestamp {
        r := r.(framecount := r.framecount + 1);
        sampleframe := false;
      }
      if Seq(p) - 1 == r.lastSeq {
        if sampleframe {
          r := r.(samples := r.samples + 1, totalElapsed := r.totalElapsed + Elapsed(p.rcvTime, r.lastRcvTime),
                  totalBytes := r.totalBytes + r.lastSize);
          if r.framecount >= MIN_FRAMES && r.samples >= MIN_SAMPLES {
            report := Some(Report(p.rcvTime - r.initTime, r.framecount, r.pktcount, r.pktloss, r.bytesRcvd,
                                  Capacity(r.totalBytes, r.totalElapsed)));
            r := Emptied(p);
          }
        }
      } else {
        var delta := (Seq(p) - r.lastSeq - 1) % SEQ_MOD;
        r := r.(pktloss := r.pktloss + delta, pktcount := r.pktcount + delta);
      }
      r := r.(pktcount := r.pktcount + 1, bytesRcvd := r.bytesRcvd + p.size, lastSeq := Seq(p),
              lastRcvTime := p.rcvTime, lastTimestamp := p.timestamp, lastSize := p.size);
      watchlist := watchlist[p.ssrc := r];
    }
  }
}
