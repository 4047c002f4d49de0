/**
 NAL units of ITU-T H.264: emulation prevention (sections 7.3.1 and 7.4.1), start codes
 (annex B), and the parser's entry point.
 */
module NalParser {
  import opened BitReader
  import opened SpsParser
  import opened Wrappers

  type Buffer = seq<bv8>

  // ------------------------------------------------------------- emulation prevention

  predicate EscapedAt(s: Buffer, i: nat)
  {
    i + 2 < |s| && s[i] == 0 && s[i + 1] == 0 && s[i + 2] == 3
  }

  /** What the source's loop leaves: 00 00 03 becomes 00 00. */
  function Unescape(s: Buffer): (r: Buffer)
    ensures |r| <= |s|
  {
    if s == [] then []
    else if EscapedAt(s, 0) then [0, 0] + Unescape(s[3..])
    else [s[0]] + Unescape(s[1..])
  }

  /** Section 7.4.1, after `zeros` zero bytes: a 03 goes between 00 00 and a byte of at most 03. */
  function Escape(s: Buffer, zeros: nat): Buffer
    requires zeros <= 2
  {
    if s == [] then []
    else if zeros == 2 && s[0] <= 3 then [3, s[0]] + Escape(s[1..], if s[0] == 0 then 1 else 0)
    else if s[0] == 0 then [0] + Escape(s[1..], zeros + 1)
    else [s[0]] + Escape(s[1..], 0)
  }

  /** The zero bytes that the escaper has behind it after `s`. */
  function EndZeros(s: Buffer, zeros: nat): (n: nat)
    requires zeros <= 2
    ensures n <= 2
  {
    if s == [] then zeros
    else if zeros == 2 && s[0] <= 3 then EndZeros(s[1..], if s[0] == 0 then 1 else 0)
    else if s[0] == 0 then EndZeros(s[1..], zeros + 1)
    else EndZeros(s[1..], 0)
  }

  /** The body of a NAL unit: a 03 is also appended when the payload ends in 00. */
  function Encapsulate(rbsp: Buffer): Buffer
  {
    Escape(rbsp, 0) + if rbsp != [] && rbsp[|rbsp| - 1] == 0 then [3] else []
  }

  function ZeroBytes(n: nat): (z: Buffer)
    requires n <= 2
    ensures |z| == n
  {
    if n == 0 then [] else if n == 1 then [0] else [0, 0]
  }

  lemma UnescapeCons(b: bv8, s: Buffer)
    requires !EscapedAt([b] + s, 0)
    ensures Unescape([b] + s) == [b] + Unescape(s)
  {
    assert ([b] + s)[1..] == s;
  }

  lemma UnescapeSkip(s: Buffer)
    ensures Unescape([0, 0, 3] + s) == [0, 0] + Unescape(s)
  {
    assert ([0, 0, 3] + s)[3..] == s;
  }

  lemma {:induction false} UnescapeZeros(zeros: nat, s: Buffer)
    requires zeros <= 2 && (s == [] || (s[0] != 0 && (zeros == 2 ==> s[0] != 3)))
    ensures Unescape(ZeroBytes(zeros) + s) == ZeroBytes(zeros) + Unescape(s)
  {
    hide Unescape;
    if zeros == 0 {
      assert ZeroBytes(0) + s == s && ZeroBytes(0) + Unescape(s) == Unescape(s);
    } else {
      assert ZeroBytes(zeros) + s == [0] + (ZeroBytes(zeros - 1) + s);
      UnescapeCons(0, ZeroBytes(zeros - 1) + s);
      UnescapeZeros(zeros - 1, s);
      assert [0] + (ZeroBytes(zeros - 1) + Unescape(s)) == ZeroBytes(zeros) + Unescape(s);
    }
  }

  lemma UnescapeShort(s: Buffer)
    requires |s| < 3
    ensures Unescape(s) == s
  {
    if s != [] { assert [s[0]] + s[1..] == s; }
  }

  /** The state after one more payload byte. */
  function NextZeros(b: bv8, zeros: nat): (n: nat)
    requires zeros <= 2
    ensures n <= 2
  {
    if b != 0 then 0 else if zeros == 2 then 1 else zeros + 1
  }

  lemma GlueNone(x: Buffer)
    ensures ZeroBytes(0) + x == x
  {
  }

  lemma GlueZero(zeros: nat, x: Buffer)
    requires zeros < 2
    ensures ZeroBytes(zeros) + ([0] + x) == ZeroBytes(zeros + 1) + x
  {
  }

  lemma GlueThree(x: Buffer)
    ensures ZeroBytes(2) + ([3] + x) == [0, 0, 3] + x
  {
  }

  /** How a payload byte `b` is written behind `zeros` zero bytes, in front of `e`. */
  function EscapedByte(zeros: nat, b: bv8, e: Buffer): Buffer
    requires zeros <= 2
  {
    if zeros == 2 && b <= 3 then [0, 0, 3] + ([b] + e) else ZeroBytes(zeros) + ([b] + e)
  }

  /** The escaped form of one payload byte behind the zeros that precede it. */
  lemma EscapeStep(s: Buffer, zeros: nat, end: Buffer)
    requires zeros <= 2 && s != []
    ensures var next := NextZeros(s[0], zeros);
            && EndZeros(s, zeros) == EndZeros(s[1..], next)
            && ZeroBytes(zeros) + Escape(s, zeros) + end == EscapedByte(zeros, s[0], Escape(s[1..], next) + end)
  {
    var z, b, e := ZeroBytes(zeros), s[0], Escape(s[1..], NextZeros(s[0], zeros));
    EscapeUnfold(s, zeros);
    hide Escape;
    var one := if zeros == 2 && b <= 3 then [3, b] else [b];
    ConcatAssoc(one, e, end);
    ConcatAssoc(z, one + e, end);
    if zeros == 2 && b <= 3 {
      assert one == [3] + [b];
      ConcatAssoc([3], [b], e + end);
      GlueThree([b] + (e + end));
    }
  }

  lemma EscapeUnfold(s: Buffer, zeros: nat)
    requires zeros <= 2 && s != []
    ensures var (b, e) := (s[0], Escape(s[1..], NextZeros(s[0], zeros)));
            Escape(s, zeros) == (if zeros == 2 && b <= 3 then [3, b] else [b]) + e
  {
  }

  lemma EscapeEmpty(zeros: nat)
    requires zeros <= 2
    ensures Escape([], zeros) == [] && EndZeros([], zeros) == zeros
  {
  }

  /** Unescaping inverts escaping; of an appended 03 it removes only one that looks like an escape. */
  lemma {:induction false} UnescapeEscape(s: Buffer, zeros: nat, end: Buffer)
    requires zeros <= 2
    requires end == [] || end == [3]
    ensures Unescape(ZeroBytes(zeros) + Escape(s, zeros) + end)
            == ZeroBytes(zeros) + s + if end == [] || EndZeros(s, zeros) == 2 then [] else [3]
  {
    hide Unescape, Escape, EndZeros;
    var z := ZeroBytes(zeros);
    if s == [] {
      EscapeEmpty(zeros);
      assert z + Escape(s, zeros) + end == z + end && z + s == z;
      if zeros == 2 && end == [3] {
        assert z + end == [0, 0, 3] + [] && z == [0, 0] + [];
        UnescapeSkip([]);
        UnescapeShort([]);
      } else {
        assert z + end + [] == z + end;
        UnescapeShort(z + end);
      }
    } else {
      var b, t, next := s[0], s[1..], NextZeros(s[0], zeros);
      EscapeStep(s, zeros, end);
      UnescapeEscape(t, next, end);
      EscapeGlue(s, zeros, end);
      UnescapeBehind(zeros, b, t + if end == [] || EndZeros(t, next) == 2 then [] else [3], Escape(t, next) + end);
    }
  }

  /** The same byte strings, bracketed differently. */
  lemma EscapeGlue(s: Buffer, zeros: nat, end: Buffer)
    requires zeros <= 2 && s != []
    ensures var (t, next) := (s[1..], NextZeros(s[0], zeros));
            var end' := if end == [] || EndZeros(t, next) == 2 then [] else [3];
            && ZeroBytes(next) + Escape(t, next) + end == ZeroBytes(next) + (Escape(t, next) + end)
            && ZeroBytes(next) + t + end' == ZeroBytes(next) + (t + end')
            && ZeroBytes(zeros) + s + end' == ZeroBytes(zeros) + ([s[0]] + (t + end'))
  {
    hide Escape, EndZeros;
    var t, next := s[1..], NextZeros(s[0], zeros);
    var end' := if end == [] || EndZeros(t, next) == 2 then [] else [3];
    ConcatAssoc(ZeroBytes(next), Escape(t, next), end);
    ConcatAssoc(ZeroBytes(next), t, end');
    assert s == [s[0]] + t;
    ConcatAssoc([s[0]], t, end');
    ConcatAssoc(ZeroBytes(zeros), s, end');
  }

  /** The induction step: the byte `b` behind `zeros` zeros, given what unescaping makes of the rest. */
  lemma UnescapeBehind(zeros: nat, b: bv8, t: Buffer, e: Buffer)
    requires zeros <= 2
    requires var n := NextZeros(b, zeros); Unescape(ZeroBytes(n) + e) == ZeroBytes(n) + t
    ensures Unescape(EscapedByte(zeros, b, e)) == ZeroBytes(zeros) + ([b] + t)
  {
    hide Unescape;
    if b == 0 && zeros < 2 {
      GlueZero(zeros, e);
      GlueZero(zeros, t);
    } else if b == 0 {
      UnescapeSkip([b] + e);
    } else {
      GlueNone(e);
      GlueNone(t);
      UnescapeCons(b, e);
      if zeros == 2 && b <= 3 {
        UnescapeSkip([b] + e);
      } else {
        UnescapeZeros(zeros, [b] + e);
      }
    }
  }

  lemma {:induction false} EndZerosMeansZero(s: Buffer, zeros: nat)
    requires zeros <= 2 && s != []
    ensures EndZeros(s, zeros) > 0 <==> s[|s| - 1] == 0
  {
    if |s| > 1 {
      EndZerosMeansZero(s[1..], if s[0] != 0 then 0 else if zeros == 2 then 1 else zeros + 1);
    }
  }

  /** The zero bytes that `s` ends with. */
  function TrailingZeros(s: Buffer): nat
  {
    if s != [] && s[|s| - 1] == 0 then 1 + TrailingZeros(s[..|s| - 1]) else 0
  }

  lemma {:induction false} EndZerosSnoc(s: Buffer, b: bv8, zeros: nat)
    requires zeros <= 2
    ensures EndZeros(s + [b], zeros) == NextZeros(b, EndZeros(s, zeros))
  {
    if s == [] {
      assert [] + [b] == [b] && [b][1..] == [];
    } else {
      assert (s + [b])[1..] == s[1..] + [b];
      EndZerosSnoc(s[1..], b, NextZeros(s[0], zeros));
    }
  }

  /** The escaper starts to count anew after every second zero. */
  lemma {:induction false} EndZerosAre(s: Buffer)
    ensures var k := TrailingZeros(s); EndZeros(s, 0) == if k == 0 then 0 else if k % 2 == 1 then 1 else 2
    decreases |s|
  {
    if s != [] {
      hide EndZeros;
      var t, b := s[..|s| - 1], s[|s| - 1];
      assert t + [b] == s;
      EndZerosSnoc(t, b, 0);
      EndZerosAre(t);
    } else {
      EscapeEmpty(0);
    }
  }

  /** Unescaping gives back the payload exactly when the payload ends in an even number of zeros; behind
      an odd number it leaves the 03 that the standard appends. */
  lemma EncapsulateRoundTrip(rbsp: Buffer)
    ensures Unescape(Encapsulate(rbsp)) == rbsp + if TrailingZeros(rbsp) % 2 == 0 then [] else [3]
    ensures Unescape(Encapsulate(rbsp)) == rbsp <==> TrailingZeros(rbsp) % 2 == 0
  {
    if rbsp != [] {
      hide Unescape, Escape, EndZeros;
      EndZerosMeansZero(rbsp, 0);
      EndZerosAre(rbsp);
      var end: Buffer := if rbsp[|rbsp| - 1] == 0 then [3] else [];
      UnescapeEscape(rbsp, 0, end);
      assert ZeroBytes(0) + Escape(rbsp, 0) + end == Encapsulate(rbsp);
      assert ZeroBytes(0) + rbsp == rbsp;
    }
  }

  /** A payload that ends in one zero. */
  lemma LoneZeroComesBackLonger()
    ensures Encapsulate([1, 0]) == [1, 0, 3] && Unescape(Encapsulate([1, 0])) == [1, 0, 3]
  {
    assert TrailingZeros([1, 0]) == 1;
    EncapsulateRoundTrip([1, 0]);
  }

  // ------------------------------------------------------------- the loop in place

  lemma UnescapeStep(done: Buffer, s: Buffer)
    requires s != []
    ensures done + Unescape(s) == if EscapedAt(s, 0) then done + [s[0]] + [s[1]] + Unescape(s[3..])
                                  else done + [s[0]] + Unescape(s[1..])
  {
    if EscapedAt(s, 0) {
      var r := Unescape(s[3..]);
      assert Unescape(s) == [s[0]] + [s[1]] + r;
      hide Unescape;
      ConcatAssoc([s[0]], [s[1]], r);
      ConcatAssoc(done, [s[0]], [s[1]] + r);
      ConcatAssoc(done + [s[0]], [s[1]], r);
    } else {
      ConcatAssoc(done, [s[0]], Unescape(s[1..]));
    }
  }

  lemma UnescapeStart(s: Buffer)
    ensures [] + Unescape(s) == Unescape(s) && Unescape([]) == []
  {
  }

  /** Rewrites the front of the buffer; what lies behind the write index is still as it was, so that
      the bytes read are those of the escaped form. */
  method UnescapeInPlace(buf: array<bv8>) returns (rbsplen: nat)
    modifies buf
    ensures rbsplen == |Unescape(old(buf[..]))|
    ensures buf[..] == Unescape(old(buf[..])) + old(buf[..])[rbsplen..]
  {
    hide Unescape;
    ghost var was := buf[..];
    var src := 0;
    rbsplen := 0;
    UnescapeStart(was);
    while src < buf.Length
      invariant 0 <= rbsplen <= src <= buf.Length
      invariant forall k :: rbsplen <= k < buf.Length ==> buf[k] == was[k]
      invariant buf[..rbsplen] + Unescape(was[src..]) == Unescape(was)
    {
      ghost var done := buf[..rbsplen];
      UnescapeStep(done, was[src..]);
      if src + 2 < buf.Length && buf[src] == 0 && buf[src + 1] == 0 && buf[src + 2] == 3 {
        assert was[src..][3..] == was[src + 3..];
        buf[rbsplen] := buf[src];
        rbsplen, src := rbsplen + 1, src + 1;
        buf[rbsplen] := buf[src];
        rbsplen, src := rbsplen + 1, src + 1;
        assert buf[..rbsplen] == done + [was[src - 2]] + [was[src - 1]];
      } else {
        assert was[src..][1..] == was[src + 1..];
        buf[rbsplen] := buf[src];
        rbsplen := rbsplen + 1;
        assert buf[..rbsplen] == done + [was[src]];
      }
      src := src + 1;
    }
    assert was[src..] == [] && buf[..rbsplen] + [] == buf[..rbsplen];
    assert buf[..] == buf[..rbsplen] + buf[rbsplen..] && buf[rbsplen..] == was[rbsplen..];
  }

  // ------------------------------------------------------------- start codes

  const START: Buffer := [0, 0, 0, 1]

  predicate StartCodeAt(buf: Buffer, i: nat)
  {
    i + 4 <= |buf| && buf[i] == 0 && buf[i + 1] == 0 && buf[i + 2] == 0 && buf[i + 3] == 1
  }

  /** Nothing in an escaped payload looks like the beginning of a start code. */
  ghost predicate NoRun(s: Buffer)
  {
    forall i :: 0 <= i < |s| - 2 ==> s[i] != 0 || s[i + 1] != 0 || s[i + 2] > 2
  }

  lemma NoRunBehind(zeros: nat, b: bv8, tail: Buffer)
    requires zeros <= 2 && b != 0 && (zeros == 2 ==> b > 2) && NoRun(tail)
    ensures NoRun(ZeroBytes(zeros) + ([b] + tail))
  {
    var s := ZeroBytes(zeros) + ([b] + tail);
    forall i | 0 <= i < |s| - 2
      ensures s[i] != 0 || s[i + 1] != 0 || s[i + 2] > 2
    {
      if i > zeros {
        var k := i - zeros - 1;
        assert s[i] == tail[k] && s[i + 1] == tail[k + 1] && s[i + 2] == tail[k + 2];
      }
    }
  }

  /** The induction step of `EscapeHasNoRun`. */
  lemma NoRunStep(zeros: nat, b: bv8, e: Buffer)
    requires zeros <= 2 && NoRun(ZeroBytes(NextZeros(b, zeros)) + e)
    ensures NoRun(EscapedByte(zeros, b, e))
  {
    hide NoRun, ZeroBytes;
    if b == 0 && zeros < 2 {
      GlueZero(zeros, e);
    } else {
      if b == 0 { GlueZero(0, e); } else { GlueNone(e); }
      if b != 0 { NoRunBehind(0, b, e); }
      GlueNone([b] + e);
      if zeros == 2 && b <= 3 {
        NoRunBehind(2, 3, [b] + e);
        GlueThree([b] + e);
      } else {
        NoRunBehind(zeros, b, e);
      }
    }
  }

  lemma {:induction false} EscapeHasNoRun(s: Buffer, zeros: nat)
    requires zeros <= 2
    ensures NoRun(ZeroBytes(zeros) + Escape(s, zeros))
  {
    if s != [] {
      hide NoRun, Escape;
      var next := NextZeros(s[0], zeros);
      EscapeHasNoRun(s[1..], next);
      NoRunStep(zeros, s[0], Escape(s[1..], next));
      EscapeStep(s, zeros, []);
      assert Escape(s[1..], next) + [] == Escape(s[1..], next);
      assert ZeroBytes(zeros) + Escape(s, zeros) + [] == ZeroBytes(zeros) + Escape(s, zeros);
    }
  }

  lemma {:induction false} EscapeKeepsLast(s: Buffer, zeros: nat)
    requires zeros <= 2 && s != []
    ensures Escape(s, zeros) != [] && Escape(s, zeros)[|Escape(s, zeros)| - 1] == s[|s| - 1]
  {
    if |s| > 1 {
      EscapeKeepsLast(s[1..], NextZeros(s[0], zeros));
    }
  }

  /** The index of the first start code from `i` on that has a byte behind it, or 0 if there is none. */
  function NextStart(buf: Buffer, i: nat): (n: nat)
    requires i > 0
    ensures n == 0 || (i <= n && n + 4 < |buf| && StartCodeAt(buf, n))
    ensures forall j :: i <= j && j + 4 < |buf| && StartCodeAt(buf, j) ==> 0 < n <= j
    decreases |buf| - i
  {
    if i + 4 >= |buf| then 0
    else if StartCodeAt(buf, i) then i
    else NextStart(buf, i + 1)
  }

  /** The search loop over the buffer. */
  method FindStart(buf: Buffer) returns (ret: nat)
    ensures ret == NextStart(buf, 4)
  {
    var s := 4;
    while s + 4 < |buf|
      invariant 4 <= s && NextStart(buf, s) == NextStart(buf, 4)
      decreases |buf| - s
    {
      if buf[s] == 0 && buf[s + 1] == 0 && buf[s + 2] == 0 && buf[s + 3] == 1 {
        return s;
      }
      s := s + 1;
    }
    return 0;
  }

  /** A stream of a NAL unit and whatever follows the next start code. */
  function TwoNals(header: bv8, rbsp: Buffer, more: Buffer): Buffer
  {
    START + ([header] + Encapsulate(rbsp)) + START + more
  }

  /** The first NAL unit is delimited exactly, whatever its header and payload: escaped data, with the 03
      behind a last 00, holds no start code, neither inside nor across its ends. */
  lemma FirstNalDelimited(header: bv8, rbsp: Buffer, more: Buffer)
    requires more != []
    ensures var buf := TwoNals(header, rbsp, more);
            NextStart(buf, 4) == 5 + |Encapsulate(rbsp)|
            && buf[5..NextStart(buf, 4)] == Encapsulate(rbsp)
  {
    var e := Encapsulate(rbsp);
    EncapsulateShape(rbsp);
    hide NoRun, Encapsulate, NextStart;
    var buf, p := TwoNals(header, rbsp, more), 5 + |e|;
    StreamLayout(header, e, more);
    forall j | 4 <= j < p
      ensures !StartCodeAt(buf, j)
    {
      NoStartInside(buf, header, e, j);
    }
    assert buf[p..p + 4][0] == 0 && buf[p..p + 4][1] == 0 && buf[p..p + 4][2] == 0 && buf[p..p + 4][3] == 1;
    assert StartCodeAt(buf, p);
  }

  /** A NAL unit with nothing behind it: no start code is found. */
  lemma LoneNal(header: bv8, rbsp: Buffer)
    ensures NextStart(START + ([header] + Encapsulate(rbsp)), 4) == 0
  {
    var e := Encapsulate(rbsp);
    var buf := START + ([header] + e);
    EncapsulateShape(rbsp);
    hide Encapsulate, NextStart;
    forall j | 4 <= j && j + 4 < |buf|
      ensures !StartCodeAt(buf, j)
    {
      var k := if j == 4 then 0 else j - 5;
      assert e[k] == buf[k + 5] && e[k + 1] == buf[k + 6] && e[k + 2] == buf[k + 7];
      assert e[k] != 0 || e[k + 1] != 0 || e[k + 2] > 2;
    }
  }

  lemma EncapsulateShape(rbsp: Buffer)
    ensures var e := Encapsulate(rbsp); NoRun(e) && (e != [] ==> e[|e| - 1] != 0)
  {
    hide Escape, NoRun;
    var e := Escape(rbsp, 0);
    EscapeHasNoRun(rbsp, 0);
    if rbsp != [] { EscapeKeepsLast(rbsp, 0); } else { EscapeEmpty(0); }
    assert ZeroBytes(0) + e == e && e + [] == e;
    NoRunThree(e);
  }

  lemma NoRunThree(e: Buffer)
    requires NoRun(e)
    ensures NoRun(e + [3])
  {
  }

  lemma StreamLayout(header: bv8, e: Buffer, more: Buffer)
    ensures var (buf, p) := (START + ([header] + e) + START + more, 5 + |e|);
            && |buf| == p + 4 + |more|
            && buf[4] == header && buf[5..p] == e && buf[p..p + 4] == START
  {
  }

  lemma NoStartInside(buf: Buffer, header: bv8, e: Buffer, j: nat)
    requires 4 <= j < 5 + |e| && 5 + |e| + 4 <= |buf|
    requires (e != [] ==> e[|e| - 1] != 0) && NoRun(e)
    requires buf[4] == header && buf[5..5 + |e|] == e && buf[5 + |e|..5 + |e| + 4] == START
    ensures !StartCodeAt(buf, j)
  {
    var k := if j == 4 then 0 else j - 5;
    if k + 2 < |e| {
      var b := buf[5..5 + |e|];
      assert b[k] == buf[k + 5] && b[k + 1] == buf[k + 6] && b[k + 2] == buf[k + 7];
      assert e[k] != 0 || e[k + 1] != 0 || e[k + 2] > 2;
    } else if e != [] {
      assert buf[5..5 + |e|][|e| - 1] == buf[5 + |e| - 1];
    } else {
      assert buf[5..9][2] == buf[7];
    }
  }

  // ------------------------------------------------------------- the parser's entry point

  datatype Fields = Fields(nri: nat, nalType: nat, sliceType: nat, frameType: nat, sps: Sps, lists: Lists,
                           rawSps: Buffer, rawPps: Buffer, width: int, height: int, isConfig: bool)

  const NO_SPS := Sps(0, 0, 0, NO_CHROMA, 0, PicOrder(0, 0, 0, 0, 0, []), Geometry(0, 0, 0, 0, 0, 0, 0),
                      Crop(0, 0, 0, 0, 0), 0)

  /** A context filled with zeros. */
  const BLANK := Fields(0, 0, 0, 0, NO_SPS, [], [], [], 0, 0, false)

  function NalType(header: bv8): nat { (header & 0x1f) as nat }

  function Nri(header: bv8): nat { ((header & 0x60) >> 5) as nat }

  predicate Accepted(buf: Buffer)
  {
    |buf| >= 5 && StartCodeAt(buf, 0) && buf[4] & 0x80 == 0
  }

  predicate IsSlice(nalType: nat) { nalType in {1, 5, 19} }

  /** The stored frame types: I, SI, B, P and SP are 1 to 5; an unknown slice type leaves 0. */
  function FrameType(sliceType: nat): nat
  {
    if sliceType in {0, 5} then 4
    else if sliceType in {1, 6} then 3
    else if sliceType in {2, 7} then 1
    else if sliceType in {3, 8} then 5
    else if sliceType in {4, 9} then 2
    else 0
  }

  // ------------------------------------------------------------- what a header says

  /** Section 7.3.1: a header byte without its first bit is two bits of reference and five of type. */
  lemma HeaderFields(header: bv8)
    requires header < 0x80
    ensures header as nat == 32 * Nri(header) + NalType(header) && NalType(header) < 32 && Nri(header) < 4
  {
  }

  lemma HeaderParts(header: bv8)
    requires header < 0x80
    ensures Nri(header) == header as nat / 32 && NalType(header) == header as nat % 32 && header & 0x80 == 0
  {
    hide Nri, NalType;
    HeaderFields(header);
    TopBit(header);
  }

  /** What is accepted: five bytes or more, of which four are the start code, and a header without its
      first bit. */
  lemma AcceptedIff(buf: Buffer)
    ensures Accepted(buf) <==> |buf| >= 5 && buf[..4] == [0, 0, 0, 1] && buf[4] < 0x80
  {
    if |buf| >= 5 {
      assert buf[..4][0] == buf[0] && buf[..4][1] == buf[1] && buf[..4][2] == buf[2] && buf[..4][3] == buf[3];
      TopBit(buf[4]);
    }
  }

  lemma TopBit(b: bv8)
    ensures b & 0x80 == 0 <==> b < 0x80
  {
  }

  /** Table 7-6: P, B, I, SP and SI, each with two numbers, are stored as 4, 3, 1, 5 and 2. */
  lemma FrameTypes(sliceType: nat)
    ensures sliceType <= 9 ==> FrameType(sliceType) == [4, 3, 1, 5, 2][sliceType % 5]
    ensures sliceType > 9 ==> FrameType(sliceType) == 0
  {
  }

  lemma UnknownSlice(sliceType: nat)
    ensures sliceType > 9 ==> FrameType(sliceType) == 0
  {
  }

  /** The slice type, the second element of a slice header, stored in 16 bits. */
  function GetSliceType(bits: Bits): Option<nat>
  {
    var (firstMb, b1) :- GetUe(bits);
    var (sliceType, rest) :- GetUe(b1);
    Some(sliceType % 0x1_0000)
  }

  function SpsOf(body: Buffer): Option<(Sps, Lists, Bits)>
  {
    GetSps(BufferBits(Unescape(body)))
  }

  /** The first NAL unit: up to the next start code, or the whole buffer. */
  function FirstNal(buf: Buffer): Buffer
    requires |buf| >= 5
  {
    var n := NextStart(buf, 4);
    if n > 0 then buf[..n] else buf
  }

  /** The buffer holds the bits that the parser reads; the source does not check this. */
  predicate Readable(buf: Buffer)
    requires |buf| >= 5
  {
    && (IsSlice(NalType(buf[4])) ==> GetSliceType(BufferBits(buf[5..])).Some?)
    && (NalType(buf[4]) == 7 ==> |FirstNal(buf)| >= 5 && SpsOf(FirstNal(buf)[5..]).Some?)
  }

  /** The context after parsing. */
  function Parsed(buf: Buffer): Fields
    requires |buf| >= 5 && Readable(buf)
  {
    var t := NalType(buf[4]);
    var f := BLANK.(nri := Nri(buf[4]), nalType := t);
    if IsSlice(t) then
      var sliceType := GetSliceType(BufferBits(buf[5..])).value;
      f.(sliceType := sliceType, frameType := FrameType(sliceType))
    else if t == 7 then
      var (sps, lists, rest) := SpsOf(FirstNal(buf)[5..]).value;
      f.(sps := sps, lists := lists, rawSps := FirstNal(buf), width := Width(sps), height := Height(sps),
         isConfig := true)
    else if t == 8 then f.(rawPps := FirstNal(buf), isConfig := true)
    else if 1 < t < 5 || 19 < t <= 21 then f
    else f.(isConfig := true)
  }

  method ReadSliceType(body: Buffer) returns (t: nat)
    requires GetSliceType(BufferBits(body)).Some?
    ensures t == GetSliceType(BufferBits(body)).value
  {
    hide GetUe, BufferBits;
    var bi := new Reader(body);
    var firstMb := bi.Ue();
    var slice := bi.Ue();
    t := slice % 0x1_0000;
  }

  /** Copies the buffer and unescapes the copy. */
  method DupUnescaped(body: Buffer) returns (rbsp: Buffer)
    ensures rbsp == Unescape(body)
  {
    hide Unescape;
    var newbuf := new bv8[|body|](i requires 0 <= i < |body| => body[i]);
    assert newbuf[..] == body;
    var rbsplen := UnescapeInPlace(newbuf);
    rbsp := newbuf[..rbsplen];
  }

  class Context {
    var nri: nat
    var nalType: nat
    var sliceType: nat
    var frameType: nat
    var sps: Sps
    var lists: Lists
    var rawSps: Buffer
    var rawPps: Buffer
    var width: int
    var height: int
    var isConfig: bool

    function View(): Fields
      reads this
    {
      Fields(nri, nalType, sliceType, frameType, sps, lists, rawSps, rawPps, width, height, isConfig)
    }

    method Clear()
      modifies this
      ensures View() == BLANK
    {
      nri, nalType, sliceType, frameType := 0, 0, 0, 0;
      sps, lists := NO_SPS, [];
      rawSps, rawPps := [], [];
      width, height := 0, 0;
      isConfig := false;
    }

    method ParseSps(body: Buffer)
      requires SpsOf(body).Some?
      modifies this`sps, this`lists, this`width, this`height
      ensures var (s, l, rest) := SpsOf(body).value;
              View() == old(View()).(sps := s, lists := l, width := Width(s), height := Height(s))
    {
      hide Unescape, GetSps, BufferBits;
      var rbsp := DupUnescaped(body);
      var bi := new Reader(rbsp);
      sps, lists := ParseFields(bi);
      width := Width(sps);
      height := Height(sps);
    }

    method ParseSlice(body: Buffer)
      requires GetSliceType(BufferBits(body)).Some?
      modifies this`sliceType, this`frameType
      ensures var t := GetSliceType(BufferBits(body)).value;
              View() == old(View()).(sliceType := t, frameType := if t <= 9 then FrameType(t) else old(frameType))
    {
      hide GetSliceType, BufferBits, FrameType;
      sliceType := ReadSliceType(body);
      if sliceType <= 9 {
        frameType := FrameType(sliceType);
      }
    }

    /** 0 on success, the length of the first NAL unit of several, or -1 on failure. */
    method Parse(buf: Buffer) returns (ret: int)
      requires Accepted(buf) ==> Readable(buf)
      modifies this
      ensures !Accepted(buf) ==> ret == -1 && View() == old(View())
      ensures Accepted(buf) ==> View() == Parsed(buf)
                                && ret == if nalType in {7, 8} then NextStart(buf, 4) else 0
    {
      hide Unescape, GetSps, GetSliceType, NextStart, BufferBits, NalType, Nri, FrameType, Width, Height;
      if |buf| < 5 || !StartCodeAt(buf, 0) {
        return -1;
      }
      if buf[4] & 0x80 != 0 {
        return -1;
      }
      Clear();
      ret := 0;
      nri := Nri(buf[4]);
      nalType := NalType(buf[4]);
      if IsSlice(nalType) {
        ParseSlice(buf[5..]);
        UnknownSlice(sliceType);
      } else if 1 < nalType < 5 || 19 < nalType <= 21 {
      } else if nalType == 7 {
        ret := FindStart(buf);
        isConfig := true;
        rawSps := if ret > 0 then buf[..ret] else buf;
        ParseSps(rawSps[5..]);
      } else if nalType == 8 {
        ret := FindStart(buf);
        isConfig := true;
        rawPps := if ret > 0 then buf[..ret] else buf;
      } else {
        isConfig := true;
      }
    }
  }

  // ------------------------------------------------------------- end to end

  /** Section 7.3.2.11: a one bit, then zeros to the next byte boundary, behind `n` bits. */
  function Trailing(n: nat): (bits: Bits)
    ensures (n + |bits|) % 8 == 0 && 1 <= |bits| <= 8 && bits[0]
  {
    [true] + Zeros(7 - n % 8)
  }

  /** The payload of an SPS NAL unit; `vui` are the bits of the VUI parameters, if any. */
  function SpsPayload(s: Sps, codes: seq<ListCode>, constraints: nat, vui: Bits): Buffer
  {
    var bits := PutSps(s, codes, constraints, vui);
    Pack(bits + Trailing(|bits|))
  }

  /** Its bits are the SPS printed in front of the VUI and the trailing bits, and its last byte is not zero. */
  lemma PayloadShape(s: Sps, codes: seq<ListCode>, constraints: nat, vui: Bits)
    ensures var n := |PutSps(s, codes, constraints, vui)|;
            var p := SpsPayload(s, codes, constraints, vui);
            && BufferBits(p) == PutSps(s, codes, constraints, vui + Trailing(n))
            && p != [] && p[|p| - 1] != 0
  {
    hide PutSps, Pack, BufferBits, BitAt, Trailing;
    var bits := PutSps(s, codes, constraints, vui);
    var k, p := |bits|, SpsPayload(s, codes, constraints, vui);
    var all := bits + Trailing(k);
    PutSpsAppend(s, codes, constraints, vui, Trailing(k));
    PackRoundTrip(all);
    assert all[k];
    BufferBitAt(p, |p| - 1, k - 8 * (|p| - 1));
    ZeroHasNoBits(k - 8 * (|p| - 1));
  }

  lemma ZeroHasNoBits(i: nat)
    requires i < 8
    ensures !BitAt(0, i)
  {
  }

  /** The end of the buffer, or a start code with something behind it. */
  predicate EndsNal(behind: Buffer) { behind == [] || (|behind| > 4 && behind[..4] == START) }

  /** The first NAL unit is found, by itself or in front of others. */
  lemma NalFound(header: bv8, rbsp: Buffer, behind: Buffer)
    requires EndsNal(behind)
    ensures var nal := START + ([header] + Encapsulate(rbsp));
            && FirstNal(nal + behind) == nal && (nal + behind)[4] == header
            && (nal + behind)[..4] == START && nal[5..] == Encapsulate(rbsp)
            && NextStart(nal + behind, 4) == if behind == [] then 0 else |nal|
  {
    hide Encapsulate, NextStart;
    var e := Encapsulate(rbsp);
    var nal := START + ([header] + e);
    if behind == [] {
      LoneNal(header, rbsp);
      assert nal + [] == nal;
    } else {
      var more := behind[4..];
      FirstNalDelimited(header, rbsp, more);
      assert nal + behind == TwoNals(header, rbsp, more) by {
        assert behind == START + more;
        ConcatAssoc(nal, START, more);
      }
      assert (nal + behind)[..|nal|] == nal;
    }
  }

  /** The whole way: an SPS in range is printed with any VUI bits, closed by the trailing bits, packed,
      escaped, and put behind a start code, by itself or in front of other NAL units. The parser accepts the
      stream, returns the length of the first of several NAL units, and stores the SPS that was printed, its
      scaling lists and its picture size. */
  lemma SpsStreamRoundTrip(header: bv8, s: Sps, codes: seq<ListCode>, constraints: nat, vui: Bits,
                           behind: Buffer)
    requires SpsInRange(s, codes) && constraints < 256
    requires header < 0x80 && header as nat % 32 == 7 && EndsNal(behind)
    ensures var nal := START + ([header] + Encapsulate(SpsPayload(s, codes, constraints, vui)));
            var buf := nal + behind;
            && Accepted(buf) && Readable(buf)
            && NextStart(buf, 4) == (if behind == [] then 0 else |nal|)
            && Parsed(buf) == Fields(header as nat / 32, 7, 0, 0, s, ListsOf(codes), nal, [],
                                     Width(s), Height(s), true)
  {
    hide PutSps, GetSps, SpsPayload, Trailing, Encapsulate, Unescape, NextStart, BufferBits, NalType, Nri;
    hide Width, Height, FirstNal, Accepted;
    var rbsp := SpsPayload(s, codes, constraints, vui);
    HeaderParts(header);
    PayloadShape(s, codes, constraints, vui);
    NalFound(header, rbsp, behind);
    EncapsulateRoundTrip(rbsp);
    SpsRoundTrip(s, codes, constraints, vui + Trailing(|PutSps(s, codes, constraints, vui)|));
    AcceptedIff(START + ([header] + Encapsulate(rbsp)) + behind);
  }

  /** A picture parameter set is stored as it came, and the length of its NAL unit is returned. */
  lemma PpsStream(header: bv8, rbsp: Buffer, behind: Buffer)
    requires header < 0x80 && header as nat % 32 == 8 && EndsNal(behind)
    ensures var nal := START + ([header] + Encapsulate(rbsp));
            var buf := nal + behind;
            && Accepted(buf) && Readable(buf) && NextStart(buf, 4) == (if behind == [] then 0 else |nal|)
            && Parsed(buf) == Fields(header as nat / 32, 8, 0, 0, NO_SPS, [], [], nal, 0, 0, true)
  {
    hide Encapsulate, NextStart, NalType, Nri, FirstNal, Accepted;
    HeaderParts(header);
    NalFound(header, rbsp, behind);
    AcceptedIff(START + ([header] + Encapsulate(rbsp)) + behind);
  }

  /** Of the remaining NAL units only the header is stored; the ones that are neither slices nor parts of
      slices count as configuration. */
  lemma OtherStream(buf: Buffer)
    requires |buf| >= 5 && buf[..4] == [0, 0, 0, 1] && buf[4] < 0x80
    requires buf[4] as nat % 32 !in {1, 5, 7, 8, 19}
    ensures var t := buf[4] as nat % 32;
            && Accepted(buf) && Readable(buf)
            && Parsed(buf) == Fields(buf[4] as nat / 32, t, 0, 0, NO_SPS, [], [], [], 0, 0,
                                     t !in {2, 3, 4, 20, 21})
  {
    hide NalType, Nri;
    AcceptedIff(buf);
    HeaderParts(buf[4]);
  }

  // ------------------------------------------------------------- slices

  /** Section 7.3.3: a slice header begins with the number of its first macroblock and its type. */
  function SliceHeader(firstMb: nat, sliceType: nat, tail: Bits): Bits { PutUe(firstMb, PutUe(sliceType, tail)) }

  predicate SliceNal(header: bv8) { header < 0x80 && header as nat % 32 in {1, 5, 19} }

  /** What is to be stored of a slice. Table 7-6: P, B, I, SP and SI slices have two numbers each; the
      source stores them as 4, 3, 1, 5 and 2. */
  function SliceFields(header: bv8, sliceType: nat): Fields
  {
    var stored := sliceType % 65536;
    var frame := if stored <= 9 then [4, 3, 1, 5, 2][stored % 5] else 0;
    Fields(header as nat / 32, header as nat % 32, stored, frame, NO_SPS, [], [], [], 0, 0, false)
  }

  /** A slice NAL unit whose bits are a slice header: its type is stored in 16 bits, and its frame type. */
  lemma SliceStream(header: bv8, body: Buffer, firstMb: nat, sliceType: nat, tail: Bits)
    requires SliceNal(header)
    requires IsUe(firstMb) && IsUe(sliceType) && BufferBits(body) == SliceHeader(firstMb, sliceType, tail)
    ensures var buf := START + [header] + body;
            Accepted(buf) && Readable(buf) && Parsed(buf) == SliceFields(header, sliceType)
  {
    hide GetUe, PutUe, BufferBits, FrameType, NalType, Nri;
    var buf, stored := START + [header] + body, sliceType % 65536;
    HeaderParts(header);
    UeRoundTrip(firstMb, PutUe(sliceType, tail));
    UeRoundTrip(sliceType, tail);
    assert buf[4] == header && buf[5..] == body;
    FrameTypes(stored);
  }

  /** None of the first `n` bytes of `s` is escaped. */
  ghost predicate NoEscape(s: Buffer, n: nat)
    requires n <= |s|
  {
    forall i :: 0 <= i < n - 2 ==> s[i] != 0 || s[i + 1] != 0 || s[i + 2] > 3
  }

  lemma {:induction false} EscapePlain(s: Buffer, zeros: nat, k: nat)
    requires zeros <= 2 && k <= |s| && NoEscape(ZeroBytes(zeros) + s, zeros + k)
    ensures k <= |Escape(s, zeros)| && Escape(s, zeros)[..k] == s[..k]
    decreases k
  {
    if k > 0 {
      hide Escape, NoEscape;
      var b, t, next := s[0], s[1..], NextZeros(s[0], zeros);
      NoEscapeStep(s, zeros, k);
      EscapePlain(t, next, k - 1);
      EscapeUnfold(s, zeros);
      assert Escape(s, zeros)[..k] == [b] + Escape(t, next)[..k - 1] && s[..k] == [b] + t[..k - 1];
    }
  }

  lemma NoEscapeStep(s: Buffer, zeros: nat, k: nat)
    requires zeros <= 2 && 0 < k <= |s| && NoEscape(ZeroBytes(zeros) + s, zeros + k)
    ensures zeros == 2 ==> s[0] > 3
    ensures var next := NextZeros(s[0], zeros); NoEscape(ZeroBytes(next) + s[1..], next + k - 1)
  {
    var next := NextZeros(s[0], zeros);
    var x, y := ZeroBytes(zeros) + s, ZeroBytes(next) + s[1..];
    assert zeros == 2 ==> x[0] == 0 && x[1] == 0 && x[2] == s[0];
    assert forall i :: 0 <= i < |y| ==> y[i] == x[|x| - |y| + i];
  }

  /** A byte of at most 3 begins with six zero bits, and one of 0 has eight. */
  lemma ZeroBits(s: Buffer, i: nat, j: nat)
    requires i + 2 < |s| && s[i] == 0 && s[i + 1] == 0 && s[i + 2] <= 3
    requires 8 * i <= j < 8 * i + 22
    ensures !BufferBits(s)[j]
  {
    BufferBitAt(s, j / 8, j % 8);
    if j / 8 == i + 2 { SmallBits(s[i + 2], j % 8); } else { ZeroHasNoBits(j % 8); }
  }

  lemma SmallBits(b: bv8, i: nat)
    requires b <= 3 && i < 6
    ensures !BitAt(b, i)
  {
  }

  /** Slice headers with the numbers that occur are short enough to need no escape. */
  lemma HeaderNeedsNoEscape(p: Buffer, firstMb: nat, sliceType: nat, tail: Bits, n: nat)
    requires firstMb < 0x3_ffff && sliceType <= 9 && BufferBits(p) == SliceHeader(firstMb, sliceType, tail)
    requires n == |UeCode(firstMb)| + |UeCode(sliceType)|
    ensures (n + 7) / 8 <= |p| && NoEscape(p, (n + 7) / 8)
  {
    var l, z := Log2(firstMb + 1), Log2(sliceType + 1);
    assert Pow2(3) == 8 && Pow2(17) == 0x2_0000 by { Pow2Of17(); }
    LogBelow(firstMb + 1, 17);
    LogBelow(sliceType + 1, 3);
    HeaderOnes(firstMb, sliceType, tail);
    hide BufferBits, UeCode, PutUe, Log2;
    var bits := BufferBits(p);
    forall i | 0 <= i < (n + 7) / 8 - 2
      ensures p[i] != 0 || p[i + 1] != 0 || p[i + 2] > 3
    {
      if p[i] == 0 && p[i + 1] == 0 && p[i + 2] <= 3 {
        if 8 * i <= l < 8 * i + 22 { ZeroBits(p, i, l); }
        if 8 * i <= 2 * l + 1 + z < 8 * i + 22 { ZeroBits(p, i, 2 * l + 1 + z); }
        assert false;
      }
    }
  }

  lemma Pow2Of17()
    ensures Pow2(3) == 8 && Pow2(17) == 0x2_0000
  {
    assert Pow2(8) == 0x100;
    assert Pow2(16) == 0x1_0000;
  }

  lemma LogBelow(n: nat, k: nat)
    requires 0 < n < 2 * Pow2(k)
    ensures Log2(n) <= k
  {
    Log2Bounds(n);
    Pow2Monotone(k + 1, if Log2(n) > k then Log2(n) else k + 1);
  }

  /** The two one bits that end the leading zeros of the codes. */
  lemma HeaderOnes(firstMb: nat, sliceType: nat, tail: Bits)
    ensures var (l, z, bits) := (Log2(firstMb + 1), Log2(sliceType + 1), SliceHeader(firstMb, sliceType, tail));
            && |UeCode(firstMb)| == 2 * l + 1 && |UeCode(sliceType)| == 2 * z + 1
            && 2 * l + 1 + 2 * z + 1 <= |bits| && bits[l] && bits[2 * l + 1 + z]
  {
    var l, z := Log2(firstMb + 1), Log2(sliceType + 1);
    CodeOne(firstMb);
    CodeOne(sliceType);
    hide UeCode, Log2;
    var rest := PutUe(sliceType, tail);
    assert rest[z] && PutUe(firstMb, rest)[2 * l + 1 + z] == rest[z];
  }

  lemma CodeOne(n: nat)
    ensures UeCode(n)[Log2(n + 1)]
  {
  }

  /** The source reads a slice header from the escaped bytes. For the macroblock numbers of any level, and
      the types that exist, this makes no difference: nothing is escaped so early. */
  lemma EscapedSliceStream(header: bv8, p: Buffer, firstMb: nat, sliceType: nat, tail: Bits)
    requires SliceNal(header)
    requires firstMb < 0x3_ffff && sliceType <= 9 && BufferBits(p) == SliceHeader(firstMb, sliceType, tail)
    ensures var buf := START + [header] + Encapsulate(p);
            Accepted(buf) && Readable(buf) && Parsed(buf) == SliceFields(header, sliceType)
  {
    var tail' := EscapedHeader(p, firstMb, sliceType, tail);
    hide *;
    SliceStream(header, Encapsulate(p), firstMb, sliceType, tail');
  }

  lemma EscapedHeader(p: Buffer, firstMb: nat, sliceType: nat, tail: Bits) returns (tail': Bits)
    requires firstMb < 0x3_ffff && sliceType <= 9 && BufferBits(p) == SliceHeader(firstMb, sliceType, tail)
    ensures IsUe(firstMb) && IsUe(sliceType)
    ensures BufferBits(Encapsulate(p)) == SliceHeader(firstMb, sliceType, tail')
  {
    hide BufferBits, UeCode, Encapsulate, NoEscape;
    var a, b := UeCode(firstMb), UeCode(sliceType);
    var n, e := |a| + |b|, Encapsulate(p);
    var k := (n + 7) / 8;
    HeaderNeedsNoEscape(p, firstMb, sliceType, tail, n);
    PlainBegin(p, k);
    SameBits(p, e, k, n);
    tail' := BufferBits(e)[n..];
    TwoCodes(a, b, tail, BufferBits(p));
    ConcatAssoc(a, b, tail');
    assert BufferBits(e)[..n] + tail' == BufferBits(e);
  }

  lemma PlainBegin(p: Buffer, k: nat)
    requires k <= |p| && NoEscape(p, k)
    ensures k <= |Encapsulate(p)| && Encapsulate(p)[..k] == p[..k]
  {
    hide Escape;
    GlueNone(p);
    EscapePlain(p, 0, k);
  }

  lemma TwoCodes(a: Bits, b: Bits, tail: Bits, bits: Bits)
    requires bits == a + (b + tail)
    ensures bits[..|a| + |b|] == a + b
  {
  }

  lemma SameBits(p: Buffer, e: Buffer, k: nat, n: nat)
    requires k <= |p| && k <= |e| && p[..k] == e[..k] && n <= 8 * k
    ensures BufferBits(e)[..n] == BufferBits(p)[..n]
  {
    hide BufferBits, BitAt;
    forall j | 0 <= j < n ensures BufferBits(e)[j] == BufferBits(p)[j] {
      BufferBitAt(p, j / 8, j % 8);
      BufferBitAt(e, j / 8, j % 8);
      assert p[..k][j / 8] == p[j / 8] && e[..k][j / 8] == e[j / 8];
    }
  }
}
