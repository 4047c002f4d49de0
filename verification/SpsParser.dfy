/**
 The sequence parameter set of ITU-T H.264, section 7.3.2.1.1: the parser of the source, and the
 printer of the standard, which the parser undoes.

 `Get` functions read from the front of a bit string and return what is left; they are `None` where
 the source would read past its buffer or overflow. `Put` functions print in front of a given tail.
 */
module SpsParser {
  import opened BitReader
  import opened Wrappers

  datatype Chroma = Chroma(formatIdc: nat, separatePlane: nat, lumaMinus8: nat, chromaMinus8: nat,
                           bypass: nat, matrixPresent: nat, listPresent: seq<nat>)

  datatype PicOrder = PicOrder(cntType: nat, log2LsbMinus4: nat, deltaAlwaysZero: nat,
                               offsetNonRef: int, offsetTopBottom: int, offsets: seq<int>)

  datatype Crop = Crop(flag: nat, left: nat, right: nat, top: nat, bottom: nat)

  datatype Geometry = Geometry(maxRefFrames: nat, gapsAllowed: nat, widthMinus1: nat, heightMinus1: nat,
                               frameMbsOnly: nat, mbAdaptive: nat, direct8x8: nat)

  /** The stored fields, zero where the syntax leaves them out. */
  datatype Sps = Sps(profileIdc: nat, levelIdc: nat, spsId: nat, chroma: Chroma, log2FrameNumMinus4: nat,
                     order: PicOrder, geometry: Geometry, crop: Crop, vuiPresent: nat)

  /** The entries of the scaling lists that are present, `[]` for the others. */
  type Lists = seq<seq<int>>

  const NO_LISTS: seq<nat> := [0, 0, 0, 0, 0, 0, 0, 0, 0, 0, 0, 0]

  const NO_CHROMA := Chroma(0, 0, 0, 0, 0, 0, NO_LISTS)

  const MAX_OFFSETS := 64

  predicate HighProfile(profile: nat)
  {
    profile in {100, 110, 122, 244, 44, 83, 86, 118, 128, 138}
  }

  function ListSize(i: nat): nat { if i < 6 then 16 else 64 }

  function ListCount(formatIdc: nat): nat { if formatIdc != 3 then 8 else 12 }

  // ------------------------------------------------------------- parsing

  /** Reads `n` entries after an entry `last`; `next` is zero once the list repeats its last entry. */
  function GetEntries(n: nat, last: int, next: int, bits: Bits): Option<(seq<int>, Bits)>
  {
    if n == 0 then Some(([], bits))
    else if next == 0 then
      var (tail, rest) :- GetEntries(n - 1, last, 0, bits);
      Some(([last] + tail, rest))
    else
      var (delta, b1) :- GetSe(bits);
      var next' := (last + delta + 256) % 256;
      var entry := if next' == 0 then last else next';
      var (tail, rest) :- GetEntries(n - 1, entry, next', b1);
      Some(([entry] + tail, rest))
  }

  function GetList(i: nat, flag: nat, bits: Bits): Option<(seq<int>, Bits)>
  {
    if flag != 0 then GetEntries(ListSize(i), 8, 8, bits) else Some(([], bits))
  }

  function GetLists(i: nat, count: nat, bits: Bits): Option<(seq<nat>, Lists, Bits)>
    decreases count - i
  {
    if i >= count then Some(([], [], bits))
    else
      var (flag, b1) :- GetU(1, bits);
      var (entries, b2) :- GetList(i, flag, b1);
      var (flags, lists, rest) :- GetLists(i + 1, count, b2);
      Some(([flag] + flags, [entries] + lists, rest))
  }

  function GetOptional(present: bool, bits: Bits): Option<(nat, Bits)>
  {
    if present then GetU(1, bits) else Some((0, bits))
  }

  function GetChroma(bits: Bits): Option<(Chroma, Lists, Bits)>
  {
    var (formatIdc, b1) :- GetUe(bits);
    var (separatePlane, b2) :- GetOptional(formatIdc == 3, b1);
    var (luma, b3) :- GetUe(b2);
    var (chroma, b4) :- GetUe(b3);
    var (bypass, b5) :- GetU(1, b4);
    var (matrix, b6) :- GetU(1, b5);
    var count := if matrix != 0 then ListCount(formatIdc) else 0;
    var (flags, lists, rest) :- GetLists(0, count, b6);
    Some((Chroma(formatIdc, separatePlane, luma, chroma, bypass, matrix, (flags + NO_LISTS)[..12]), lists, rest))
  }

  function GetChromaOf(profile: nat, bits: Bits): Option<(Chroma, Lists, Bits)>
  {
    if HighProfile(profile) then GetChroma(bits) else Some((NO_CHROMA, [], bits))
  }

  function GetOffsets(n: nat, bits: Bits): Option<(seq<int>, Bits)>
  {
    if n == 0 then Some(([], bits))
    else
      var (offset, b1) :- GetSe(bits);
      var (tail, rest) :- GetOffsets(n - 1, b1);
      Some(([offset] + tail, rest))
  }

  function GetOrderCycle(bits: Bits): Option<(PicOrder, Bits)>
  {
    var (always, b1) :- GetU(1, bits);
    var (nonRef, b2) :- GetSe(b1);
    var (topBottom, b3) :- GetSe(b2);
    var (count, b4) :- GetUe(b3);
    if count > MAX_OFFSETS then None
    else
      var (offsets, rest) :- GetOffsets(count, b4);
      Some((PicOrder(1, 0, always, nonRef, topBottom, offsets), rest))
  }

  function GetOrder(bits: Bits): Option<(PicOrder, Bits)>
  {
    var (cntType, b1) :- GetUe(bits);
    if cntType == 0 then
      var (lsb, rest) :- GetUe(b1);
      Some((PicOrder(0, lsb, 0, 0, 0, []), rest))
    else if cntType == 1 then GetOrderCycle(b1)
    else Some((PicOrder(cntType, 0, 0, 0, 0, []), b1))
  }

  function GetGeometry(bits: Bits): Option<(Geometry, Bits)>
  {
    var (refs, b1) :- GetUe(bits);
    var (gaps, b2) :- GetU(1, b1);
    var (width, b3) :- GetUe(b2);
    var (height, b4) :- GetUe(b3);
    var (frame, b5) :- GetU(1, b4);
    var (adaptive, b6) :- GetOptional(frame == 0, b5);
    var (direct, rest) :- GetU(1, b6);
    Some((Geometry(refs, gaps, width, height, frame, adaptive, direct), rest))
  }

  function GetCrop(bits: Bits): Option<(Crop, Bits)>
  {
    var (flag, b1) :- GetU(1, bits);
    if flag == 0 then Some((Crop(0, 0, 0, 0, 0), b1))
    else
      var (left, b2) :- GetUe(b1);
      var (right, b3) :- GetUe(b2);
      var (top, b4) :- GetUe(b3);
      var (bottom, rest) :- GetUe(b4);
      Some((Crop(flag, left, right, top, bottom), rest))
  }

  function GetSps(bits: Bits): Option<(Sps, Lists, Bits)>
  {
    var (profile, b1) :- GetU(8, bits);
    var (_, b2) :- GetU(8, b1);
    var (level, b3) :- GetU(8, b2);
    var (id, b4) :- GetUe(b3);
    var (chroma, lists, b5) :- GetChromaOf(profile, b4);
    var (frameNum, b6) :- GetUe(b5);
    var (order, b7) :- GetOrder(b6);
    var (geometry, b8) :- GetGeometry(b7);
    var (crop, b9) :- GetCrop(b8);
    var (vui, rest) :- GetU(1, b9);
    Some((Sps(profile, level, id, chroma, frameNum, order, geometry, crop, vui), lists, rest))
  }

  // ------------------------------------------------------------- printing

  /** How a scaling list is written: left out, or with its entries, of which the ones from `stop` on
      repeat the entry before them and are cut off by a final code. */
  datatype ListCode = Absent | Present(entries: seq<int>, stop: nat)

  /** Section 7.4.2.1.1.1: differences are taken modulo 256, in the range -128 to 127. */
  function Delta(last: int, entry: int): int { (entry - last + 128) % 256 - 128 }

  function PutEntries(entries: seq<int>, last: int, stop: nat, tail: Bits): Bits
  {
    if entries == [] then tail
    else if stop == 0 then PutSe(Delta(last, 0), tail)
    else PutSe(Delta(last, entries[0]), PutEntries(entries[1..], entries[0], stop - 1, tail))
  }

  function PutLists(codes: seq<ListCode>, tail: Bits): Bits
  {
    if codes == [] then tail
    else
      match codes[0]
      case Absent => PutU(1, 0, PutLists(codes[1..], tail))
      case Present(entries, stop) => PutU(1, 1, PutEntries(entries, 8, stop, PutLists(codes[1..], tail)))
  }

  function PutOptional(present: bool, flag: nat, tail: Bits): Bits
  {
    if present then PutU(1, flag, tail) else tail
  }

  function PutChroma(c: Chroma, codes: seq<ListCode>, tail: Bits): Bits
  {
    PutUe(c.formatIdc, PutOptional(c.formatIdc == 3, c.separatePlane,
      PutUe(c.lumaMinus8, PutUe(c.chromaMinus8, PutU(1, c.bypass, PutU(1, c.matrixPresent,
      PutLists(codes, tail)))))))
  }

  /** Section 7.3.2.1.1: the profiles whose SPS codes the chroma fields. */
  predicate CodesChroma(profile: nat)
  {
    || profile == 100 || profile == 110 || profile == 122 || profile == 244 || profile == 44
    || profile == 83 || profile == 86 || profile == 118 || profile == 128 || profile == 138
  }

  function PutChromaOf(profile: nat, c: Chroma, codes: seq<ListCode>, tail: Bits): Bits
  {
    if CodesChroma(profile) then PutChroma(c, codes, tail) else tail
  }

  function PutOffsets(offsets: seq<int>, tail: Bits): Bits
  {
    if offsets == [] then tail else PutSe(offsets[0], PutOffsets(offsets[1..], tail))
  }

  function PutOrderCycle(o: PicOrder, tail: Bits): Bits
  {
    PutU(1, o.deltaAlwaysZero, PutSe(o.offsetNonRef, PutSe(o.offsetTopBottom,
      PutUe(|o.offsets|, PutOffsets(o.offsets, tail)))))
  }

  function PutOrder(o: PicOrder, tail: Bits): Bits
  {
    PutUe(o.cntType,
          if o.cntType == 0 then PutUe(o.log2LsbMinus4, tail)
          else if o.cntType == 1 then PutOrderCycle(o, tail)
          else tail)
  }

  function PutGeometry(g: Geometry, tail: Bits): Bits
  {
    PutUe(g.maxRefFrames, PutU(1, g.gapsAllowed, PutUe(g.widthMinus1, PutUe(g.heightMinus1,
      PutU(1, g.frameMbsOnly, PutOptional(g.frameMbsOnly == 0, g.mbAdaptive, PutU(1, g.direct8x8, tail)))))))
  }

  function PutCrop(c: Crop, tail: Bits): Bits
  {
    PutU(1, c.flag,
         if c.flag == 0 then tail
         else PutUe(c.left, PutUe(c.right, PutUe(c.top, PutUe(c.bottom, tail)))))
  }

  /** `constraints` are the eight bits that the parser skips; `tail` starts with the VUI, if any. */
  function PutSps(s: Sps, codes: seq<ListCode>, constraints: nat, tail: Bits): Bits
  {
    PutU(8, s.profileIdc, PutU(8, constraints, PutU(8, s.levelIdc, PutUe(s.spsId,
      PutChromaOf(s.profileIdc, s.chroma, codes, PutUe(s.log2FrameNumMinus4, PutOrder(s.order,
      PutGeometry(s.geometry, PutCrop(s.crop, PutU(1, s.vuiPresent, tail))))))))))
  }

  // ------------------------------------------------------------- what can be printed

  predicate IsFlag(n: nat) { n < 2 }

  predicate OptionalFlag(present: bool, n: nat) { IsFlag(n) && (!present ==> n == 0) }

  ghost predicate EntriesInRange(entries: seq<int>, last: int, stop: nat)
  {
    entries == []
    || if stop == 0 then forall i :: 0 <= i < |entries| ==> entries[i] == last
       else 1 <= entries[0] <= 255 && EntriesInRange(entries[1..], entries[0], stop - 1)
  }

  /** Section 7.3.2.1.1: lists 0 to 5 have 16 entries, the others 64. */
  ghost predicate ListInRange(i: nat, code: ListCode)
  {
    code.Present? ==> |code.entries| == (if i <= 5 then 16 else 64) && EntriesInRange(code.entries, 8, code.stop)
  }

  ghost predicate ListsInRange(i: nat, codes: seq<ListCode>)
    decreases |codes|
  {
    codes == [] || (ListInRange(i, codes[0]) && ListsInRange(i + 1, codes[1..]))
  }

  function Flag(code: ListCode): nat { if code.Present? then 1 else 0 }

  function EntriesOf(code: ListCode): seq<int> { if code.Present? then code.entries else [] }

  function Flags(codes: seq<ListCode>): (f: seq<nat>)
    ensures |f| == |codes|
  {
    if codes == [] then [] else [Flag(codes[0])] + Flags(codes[1..])
  }

  function ListsOf(codes: seq<ListCode>): Lists
  {
    if codes == [] then [] else [EntriesOf(codes[0])] + ListsOf(codes[1..])
  }

  /** The stored flags: those of the lists that are coded, and zeros up to twelve. */
  ghost predicate StoredFlags(flags: seq<nat>, codes: seq<ListCode>)
  {
    |flags| == 12 && forall i :: 0 <= i < 12 ==> flags[i] == if i < |codes| then Flag(codes[i]) else 0
  }

  /** Section 7.3.2.1.1: 8 lists, or 12 for the chroma format 4:4:4. */
  ghost predicate ChromaInRange(c: Chroma, codes: seq<ListCode>)
  {
    && IsUe(c.formatIdc) && OptionalFlag(c.formatIdc == 3, c.separatePlane)
    && IsUe(c.lumaMinus8) && IsUe(c.chromaMinus8) && IsFlag(c.bypass) && IsFlag(c.matrixPresent)
    && |codes| == (if c.matrixPresent == 0 then 0 else if c.formatIdc == 3 then 12 else 8)
    && ListsInRange(0, codes) && StoredFlags(c.listPresent, codes)
  }

  /** Nothing is coded, and zeros are stored. */
  ghost predicate ChromaAbsent(c: Chroma, codes: seq<ListCode>)
  {
    c == Chroma(0, 0, 0, 0, 0, 0, c.listPresent) && codes == [] && StoredFlags(c.listPresent, codes)
  }

  ghost predicate OffsetsInRange(offsets: seq<int>)
  {
    offsets == [] || (IsSe(offsets[0]) && OffsetsInRange(offsets[1..]))
  }

  ghost predicate OrderInRange(o: PicOrder)
  {
    && IsUe(o.cntType)
    && if o.cntType == 0 then IsUe(o.log2LsbMinus4) && o == PicOrder(0, o.log2LsbMinus4, 0, 0, 0, [])
       else if o.cntType == 1 then
         && o.log2LsbMinus4 == 0 && IsFlag(o.deltaAlwaysZero) && IsSe(o.offsetNonRef) && IsSe(o.offsetTopBottom)
         && |o.offsets| <= 64 && OffsetsInRange(o.offsets)
       else o == PicOrder(o.cntType, 0, 0, 0, 0, [])
  }

  ghost predicate GeometryInRange(g: Geometry)
  {
    && IsUe(g.maxRefFrames) && IsFlag(g.gapsAllowed) && IsUe(g.widthMinus1) && IsUe(g.heightMinus1)
    && IsFlag(g.frameMbsOnly) && OptionalFlag(g.frameMbsOnly == 0, g.mbAdaptive) && IsFlag(g.direct8x8)
  }

  ghost predicate CropInRange(c: Crop)
  {
    && IsFlag(c.flag) && IsUe(c.left) && IsUe(c.right) && IsUe(c.top) && IsUe(c.bottom)
    && (c.flag == 0 ==> c == Crop(0, 0, 0, 0, 0))
  }

  ghost predicate SpsInRange(s: Sps, codes: seq<ListCode>)
  {
    && s.profileIdc < 256 && s.levelIdc < 256 && IsUe(s.spsId)
    && (if CodesChroma(s.profileIdc) then ChromaInRange(s.chroma, codes) else ChromaAbsent(s.chroma, codes))
    && IsUe(s.log2FrameNumMinus4) && OrderInRange(s.order) && GeometryInRange(s.geometry)
    && CropInRange(s.crop) && IsFlag(s.vuiPresent)
  }

  // ------------------------------------------------------------- the round trip

  lemma Widths()
    ensures Pow2(1) == 2 && Pow2(8) == 256
  {
  }

  lemma {:induction false} RepeatRoundTrip(entries: seq<int>, last: int, bits: Bits)
    requires forall i :: 0 <= i < |entries| ==> entries[i] == last
    ensures GetEntries(|entries|, last, 0, bits) == Some((entries, bits))
  {
    if entries != [] {
      RepeatRoundTrip(entries[1..], last, bits);
      assert [last] + entries[1..] == entries;
    }
  }

  lemma DeltaIsSe(last: int, entry: int)
    requires 1 <= last <= 255 && 0 <= entry <= 255
    ensures IsSe(Delta(last, entry)) && (last + Delta(last, entry) + 256) % 256 == entry
  {
  }

  lemma {:induction false} EntriesRoundTrip(entries: seq<int>, last: int, next: int, stop: nat, tail: Bits)
    requires 1 <= last <= 255 && next != 0 && EntriesInRange(entries, last, stop)
    ensures GetEntries(|entries|, last, next, PutEntries(entries, last, stop, tail)) == Some((entries, tail))
  {
    hide GetSe, PutSe, Delta;
    if entries == [] {
    } else if stop == 0 {
      DeltaIsSe(last, 0);
      SeRoundTrip(Delta(last, 0), tail);
      RepeatRoundTrip(entries[1..], last, tail);
      assert [last] + entries[1..] == entries;
    } else {
      var rest := PutEntries(entries[1..], entries[0], stop - 1, tail);
      DeltaIsSe(last, entries[0]);
      SeRoundTrip(Delta(last, entries[0]), rest);
      EntriesRoundTrip(entries[1..], entries[0], entries[0], stop - 1, tail);
      assert [entries[0]] + entries[1..] == entries;
    }
  }

  /** A difference outside the standard's range is taken modulo 256 as well. */
  lemma AnyDelta(last: int, next: int, delta: int, tail: Bits)
    requires next != 0 && IsSe(delta)
    ensures var sum := (last + delta) % 256;
            GetEntries(1, last, next, PutSe(delta, tail)) == Some(([if sum == 0 then last else sum], tail))
  {
    hide GetSe, PutSe;
    SeRoundTrip(delta, tail);
    var sum := (last + delta + 256) % 256;
    var entry := if sum == 0 then last else sum;
    assert sum == (last + delta) % 256;
    assert GetEntries(0, entry, sum, tail) == Some(([], tail));
    assert [entry] + [] == [entry];
  }

  lemma ListRoundTrip(i: nat, code: ListCode, rest: Bits)
    requires ListInRange(i, code)
    ensures var bits := PutLists([code], rest);
            GetU(1, bits).Some? && GetU(1, bits).value.0 == Flag(code)
            && GetList(i, Flag(code), GetU(1, bits).value.1) == Some((EntriesOf(code), rest))
  {
    hide GetU, PutU, PutEntries, GetEntries;
    assert PutLists([], rest) == rest && [code][1..] == [];
    match code {
      case Absent => FlagRoundTrip(0, rest);
      case Present(entries, stop) =>
        FlagRoundTrip(1, PutEntries(entries, 8, stop, rest));
        EntriesRoundTrip(entries, 8, 8, stop, rest);
    }
  }

  lemma PutListsCons(codes: seq<ListCode>, tail: Bits)
    requires codes != []
    ensures PutLists(codes, tail) == PutLists([codes[0]], PutLists(codes[1..], tail))
  {
    hide PutU, PutEntries;
    var rest := PutLists(codes[1..], tail);
    assert [codes[0]][1..] == [] && PutLists([], rest) == rest;
  }

  lemma GetListsCons(i: nat, count: nat, bits: Bits, flag: nat, b1: Bits, entries: seq<int>, b2: Bits)
    requires i < count && GetU(1, bits) == Some((flag, b1)) && GetList(i, flag, b1) == Some((entries, b2))
    requires GetLists(i + 1, count, b2).Some?
    ensures var (flags, lists, rest) := GetLists(i + 1, count, b2).value;
            GetLists(i, count, bits) == Some(([flag] + flags, [entries] + lists, rest))
  {
    hide GetU, GetList;
  }

  lemma {:induction false} ListsRoundTrip(i: nat, codes: seq<ListCode>, tail: Bits)
    requires ListsInRange(i, codes)
    ensures GetLists(i, i + |codes|, PutLists(codes, tail)) == Some((Flags(codes), ListsOf(codes), tail))
    decreases |codes|
  {
    hide GetU, GetList, GetLists, PutLists, ListInRange;
    if codes == [] {
      PutListsNil(tail);
      ListsEnd(i, tail);
    } else {
      var bits, rest := PutLists(codes, tail), PutLists(codes[1..], tail);
      PutListsCons(codes, tail);
      ListRoundTrip(i, codes[0], rest);
      ListsRoundTrip(i + 1, codes[1..], tail);
      GetListsCons(i, i + |codes|, bits, Flag(codes[0]), GetU(1, bits).value.1, EntriesOf(codes[0]), rest);
    }
  }

  lemma PutListsNil(tail: Bits)
    ensures PutLists([], tail) == tail
  {
  }

  lemma ListsEnd(count: nat, bits: Bits)
    ensures GetLists(count, count, bits) == Some(([], [], bits))
  {
  }

  lemma FlagRoundTrip(flag: nat, tail: Bits)
    requires IsFlag(flag)
    ensures GetU(1, PutU(1, flag, tail)) == Some((flag, tail))
  {
    Widths();
    URoundTrip(1, flag, tail);
  }

  lemma OptionalRoundTrip(present: bool, flag: nat, tail: Bits)
    requires OptionalFlag(present, flag)
    ensures GetOptional(present, PutOptional(present, flag, tail)) == Some((flag, tail))
  {
    if present { FlagRoundTrip(flag, tail); }
  }

  lemma FlagsStored(flags: seq<nat>, codes: seq<ListCode>)
    requires StoredFlags(flags, codes) && |codes| <= 12
    ensures flags == (Flags(codes) + NO_LISTS)[..12]
  {
    forall i | 0 <= i < |codes| ensures Flags(codes)[i] == Flag(codes[i]) { FlagAt(codes, i); }
  }

  lemma AbsentIsNothing(c: Chroma, codes: seq<ListCode>)
    requires ChromaAbsent(c, codes)
    ensures c == NO_CHROMA && ListsOf(codes) == []
  {
    assert c.listPresent == NO_LISTS;
  }

  lemma {:induction false} FlagAt(codes: seq<ListCode>, i: nat)
    requires i < |codes|
    ensures Flags(codes)[i] == Flag(codes[i])
  {
    if i > 0 { FlagAt(codes[1..], i - 1); }
  }

  lemma ChromaRoundTrip(c: Chroma, codes: seq<ListCode>, tail: Bits)
    requires ChromaInRange(c, codes)
    ensures GetChroma(PutChroma(c, codes, tail)) == Some((c, ListsOf(codes), tail))
  {
    hide GetUe, GetU, PutUe, PutU, GetLists, PutLists, GetOptional, PutOptional;
    var b6 := PutLists(codes, tail);
    var b5 := PutU(1, c.matrixPresent, b6);
    var b4 := PutU(1, c.bypass, b5);
    var b3 := PutUe(c.chromaMinus8, b4);
    var b2 := PutUe(c.lumaMinus8, b3);
    UeRoundTrip(c.formatIdc, PutOptional(c.formatIdc == 3, c.separatePlane, b2));
    OptionalRoundTrip(c.formatIdc == 3, c.separatePlane, b2);
    UeRoundTrip(c.lumaMinus8, b3);
    UeRoundTrip(c.chromaMinus8, b4);
    FlagRoundTrip(c.bypass, b5);
    FlagRoundTrip(c.matrixPresent, b6);
    ListsRoundTrip(0, codes, tail);
    FlagsStored(c.listPresent, codes);
  }

  lemma {:induction false} OffsetsRoundTrip(offsets: seq<int>, tail: Bits)
    requires OffsetsInRange(offsets)
    ensures GetOffsets(|offsets|, PutOffsets(offsets, tail)) == Some((offsets, tail))
  {
    if offsets != [] {
      SeRoundTrip(offsets[0], PutOffsets(offsets[1..], tail));
      OffsetsRoundTrip(offsets[1..], tail);
      assert [offsets[0]] + offsets[1..] == offsets;
    }
  }

  lemma OrderRoundTrip(o: PicOrder, tail: Bits)
    requires OrderInRange(o)
    ensures GetOrder(PutOrder(o, tail)) == Some((o, tail))
  {
    hide GetUe, GetU, GetSe, PutUe, PutU, PutSe, GetOffsets, PutOffsets;
    if o.cntType == 0 {
      UeRoundTrip(o.cntType, PutUe(o.log2LsbMinus4, tail));
      UeRoundTrip(o.log2LsbMinus4, tail);
    } else if o.cntType == 1 {
      UeRoundTrip(o.cntType, PutOrderCycle(o, tail));
      var b4 := PutOffsets(o.offsets, tail);
      var b3 := PutUe(|o.offsets|, b4);
      var b2 := PutSe(o.offsetTopBottom, b3);
      FlagRoundTrip(o.deltaAlwaysZero, PutSe(o.offsetNonRef, b2));
      SeRoundTrip(o.offsetNonRef, b2);
      SeRoundTrip(o.offsetTopBottom, b3);
      UeRoundTrip(|o.offsets|, b4);
      OffsetsRoundTrip(o.offsets, tail);
    } else {
      UeRoundTrip(o.cntType, tail);
    }
  }

  lemma GeometryRoundTrip(g: Geometry, tail: Bits)
    requires GeometryInRange(g)
    ensures GetGeometry(PutGeometry(g, tail)) == Some((g, tail))
  {
    hide GetUe, GetU, PutUe, PutU, GetOptional, PutOptional;
    var b6 := PutU(1, g.direct8x8, tail);
    var b5 := PutOptional(g.frameMbsOnly == 0, g.mbAdaptive, b6);
    var b4 := PutU(1, g.frameMbsOnly, b5);
    var b3 := PutUe(g.heightMinus1, b4);
    var b2 := PutUe(g.widthMinus1, b3);
    UeRoundTrip(g.maxRefFrames, PutU(1, g.gapsAllowed, b2));
    FlagRoundTrip(g.gapsAllowed, b2);
    UeRoundTrip(g.widthMinus1, b3);
    UeRoundTrip(g.heightMinus1, b4);
    FlagRoundTrip(g.frameMbsOnly, b5);
    OptionalRoundTrip(g.frameMbsOnly == 0, g.mbAdaptive, b6);
    FlagRoundTrip(g.direct8x8, tail);
  }

  lemma CropRoundTrip(c: Crop, tail: Bits)
    requires CropInRange(c)
    ensures GetCrop(PutCrop(c, tail)) == Some((c, tail))
  {
    hide GetUe, GetU, PutUe, PutU;
    if c.flag == 0 {
      FlagRoundTrip(0, tail);
    } else {
      var b4 := PutUe(c.bottom, tail);
      var b3 := PutUe(c.top, b4);
      var b2 := PutUe(c.right, b3);
      FlagRoundTrip(c.flag, PutUe(c.left, b2));
      UeRoundTrip(c.left, b2);
      UeRoundTrip(c.right, b3);
      UeRoundTrip(c.top, b4);
      UeRoundTrip(c.bottom, tail);
    }
  }

  /** Parsing a printed SPS gives back every stored field and every scaling-list entry, and stops
      exactly behind what was printed. */
  lemma SpsRoundTrip(s: Sps, codes: seq<ListCode>, constraints: nat, tail: Bits)
    requires SpsInRange(s, codes) && constraints < 256
    ensures GetSps(PutSps(s, codes, constraints, tail)) == Some((s, ListsOf(codes), tail))
  {
    hide GetUe, GetU, PutUe, PutU, GetChroma, PutChroma, GetOrder, PutOrder, GetGeometry, PutGeometry, GetCrop, PutCrop;
    hide OrderInRange, GeometryInRange, CropInRange, ChromaInRange;
    Widths();
    var b9 := PutU(1, s.vuiPresent, tail);
    var b8 := PutCrop(s.crop, b9);
    var b7 := PutGeometry(s.geometry, b8);
    var b6 := PutOrder(s.order, b7);
    var b5 := PutUe(s.log2FrameNumMinus4, b6);
    var b4 := PutChromaOf(s.profileIdc, s.chroma, codes, b5);
    var b3 := PutUe(s.spsId, b4);
    var b2 := PutU(8, s.levelIdc, b3);
    URoundTrip(8, s.profileIdc, PutU(8, constraints, b2));
    URoundTrip(8, constraints, b2);
    URoundTrip(8, s.levelIdc, b3);
    UeRoundTrip(s.spsId, b4);
    if CodesChroma(s.profileIdc) { ChromaRoundTrip(s.chroma, codes, b5); } else { AbsentIsNothing(s.chroma, codes); }
    UeRoundTrip(s.log2FrameNumMinus4, b6);
    OrderRoundTrip(s.order, b7);
    GeometryRoundTrip(s.geometry, b8);
    CropRoundTrip(s.crop, b9);
    FlagRoundTrip(s.vuiPresent, tail);
  }

  // ------------------------------------------------------------- printing in front of more bits

  lemma PutUAppend(n: nat, v: nat, t: Bits, x: Bits)
    ensures PutU(n, v, t + x) == PutU(n, v, t) + x
  {
    ConcatAssoc(NatBits(n, v), t, x);
  }

  lemma PutUeAppend(n: nat, t: Bits, x: Bits)
    ensures PutUe(n, t + x) == PutUe(n, t) + x
  {
    ConcatAssoc(UeCode(n), t, x);
  }

  lemma PutOptionalAppend(present: bool, flag: nat, t: Bits, x: Bits)
    ensures PutOptional(present, flag, t + x) == PutOptional(present, flag, t) + x
  {
    PutUAppend(1, flag, t, x);
  }

  lemma {:induction false} PutEntriesAppend(entries: seq<int>, last: int, stop: nat, t: Bits, x: Bits)
    ensures PutEntries(entries, last, stop, t + x) == PutEntries(entries, last, stop, t) + x
  {
    hide PutUe;
    if entries != [] {
      if stop == 0 {
        PutUeAppend(SeCode(Delta(last, 0)), t, x);
      } else {
        PutEntriesAppend(entries[1..], entries[0], stop - 1, t, x);
        PutUeAppend(SeCode(Delta(last, entries[0])), PutEntries(entries[1..], entries[0], stop - 1, t), x);
      }
    }
  }

  lemma {:induction false} PutListsAppend(codes: seq<ListCode>, t: Bits, x: Bits)
    ensures PutLists(codes, t + x) == PutLists(codes, t) + x
  {
    hide PutU, PutEntries;
    if codes != [] {
      var rest := PutLists(codes[1..], t);
      PutListsAppend(codes[1..], t, x);
      match codes[0]
      case Absent => PutUAppend(1, 0, rest, x);
      case Present(entries, stop) =>
        PutEntriesAppend(entries, 8, stop, rest, x);
        PutUAppend(1, 1, PutEntries(entries, 8, stop, rest), x);
    }
  }

  lemma PutChromaAppend(c: Chroma, codes: seq<ListCode>, t: Bits, x: Bits)
    ensures PutChroma(c, codes, t + x) == PutChroma(c, codes, t) + x
  {
    hide PutU, PutUe, PutOptional, PutLists;
    var b6 := PutLists(codes, t);
    var b5 := PutU(1, c.matrixPresent, b6);
    var b4 := PutU(1, c.bypass, b5);
    var b3 := PutUe(c.chromaMinus8, b4);
    var b2 := PutUe(c.lumaMinus8, b3);
    PutListsAppend(codes, t, x);
    PutUAppend(1, c.matrixPresent, b6, x);
    PutUAppend(1, c.bypass, b5, x);
    PutUeAppend(c.chromaMinus8, b4, x);
    PutUeAppend(c.lumaMinus8, b3, x);
    PutOptionalAppend(c.formatIdc == 3, c.separatePlane, b2, x);
    PutUeAppend(c.formatIdc, PutOptional(c.formatIdc == 3, c.separatePlane, b2), x);
  }

  lemma {:induction false} PutOffsetsAppend(offsets: seq<int>, t: Bits, x: Bits)
    ensures PutOffsets(offsets, t + x) == PutOffsets(offsets, t) + x
  {
    hide PutUe;
    if offsets != [] {
      PutOffsetsAppend(offsets[1..], t, x);
      PutUeAppend(SeCode(offsets[0]), PutOffsets(offsets[1..], t), x);
    }
  }

  lemma PutOrderAppend(o: PicOrder, t: Bits, x: Bits)
    ensures PutOrder(o, t + x) == PutOrder(o, t) + x
  {
    hide PutU, PutUe, PutOffsets;
    if o.cntType == 0 {
      PutUeAppend(o.log2LsbMinus4, t, x);
      PutUeAppend(o.cntType, PutUe(o.log2LsbMinus4, t), x);
    } else if o.cntType == 1 {
      var b4 := PutOffsets(o.offsets, t);
      var b3 := PutUe(|o.offsets|, b4);
      var b2 := PutSe(o.offsetTopBottom, b3);
      var b1 := PutSe(o.offsetNonRef, b2);
      PutOffsetsAppend(o.offsets, t, x);
      PutUeAppend(|o.offsets|, b4, x);
      PutUeAppend(SeCode(o.offsetTopBottom), b3, x);
      PutUeAppend(SeCode(o.offsetNonRef), b2, x);
      PutUAppend(1, o.deltaAlwaysZero, b1, x);
      PutUeAppend(o.cntType, PutOrderCycle(o, t), x);
    } else {
      PutUeAppend(o.cntType, t, x);
    }
  }

  lemma PutGeometryAppend(g: Geometry, t: Bits, x: Bits)
    ensures PutGeometry(g, t + x) == PutGeometry(g, t) + x
  {
    hide PutU, PutUe, PutOptional;
    var b6 := PutU(1, g.direct8x8, t);
    var b5 := PutOptional(g.frameMbsOnly == 0, g.mbAdaptive, b6);
    var b4 := PutU(1, g.frameMbsOnly, b5);
    var b3 := PutUe(g.heightMinus1, b4);
    var b2 := PutUe(g.widthMinus1, b3);
    PutUAppend(1, g.direct8x8, t, x);
    PutOptionalAppend(g.frameMbsOnly == 0, g.mbAdaptive, b6, x);
    PutUAppend(1, g.frameMbsOnly, b5, x);
    PutUeAppend(g.heightMinus1, b4, x);
    PutUeAppend(g.widthMinus1, b3, x);
    PutUAppend(1, g.gapsAllowed, b2, x);
    PutUeAppend(g.maxRefFrames, PutU(1, g.gapsAllowed, b2), x);
  }

  lemma PutCropAppend(c: Crop, t: Bits, x: Bits)
    ensures PutCrop(c, t + x) == PutCrop(c, t) + x
  {
    hide PutU, PutUe;
    if c.flag == 0 {
      PutUAppend(1, c.flag, t, x);
    } else {
      var b4 := PutUe(c.bottom, t);
      var b3 := PutUe(c.top, b4);
      var b2 := PutUe(c.right, b3);
      PutUeAppend(c.bottom, t, x);
      PutUeAppend(c.top, b4, x);
      PutUeAppend(c.right, b3, x);
      PutUeAppend(c.left, b2, x);
      PutUAppend(1, c.flag, PutUe(c.left, b2), x);
    }
  }

  /** Bits behind an SPS are printed behind it: what is printed of the SPS does not depend on them. */
  lemma PutSpsAppend(s: Sps, codes: seq<ListCode>, constraints: nat, t: Bits, x: Bits)
    ensures PutSps(s, codes, constraints, t + x) == PutSps(s, codes, constraints, t) + x
  {
    hide PutU, PutUe, PutChroma, PutOrder, PutGeometry, PutCrop;
    var b9 := PutU(1, s.vuiPresent, t);
    var b8 := PutCrop(s.crop, b9);
    var b7 := PutGeometry(s.geometry, b8);
    var b6 := PutOrder(s.order, b7);
    var b5 := PutUe(s.log2FrameNumMinus4, b6);
    var b4 := PutChromaOf(s.profileIdc, s.chroma, codes, b5);
    var b3 := PutUe(s.spsId, b4);
    var b2 := PutU(8, s.levelIdc, b3);
    PutUAppend(1, s.vuiPresent, t, x);
    PutCropAppend(s.crop, b9, x);
    PutGeometryAppend(s.geometry, b8, x);
    PutOrderAppend(s.order, b7, x);
    PutUeAppend(s.log2FrameNumMinus4, b6, x);
    if CodesChroma(s.profileIdc) { PutChromaAppend(s.chroma, codes, b5, x); }
    PutUeAppend(s.spsId, b4, x);
    PutUAppend(8, s.levelIdc, b3, x);
    PutUAppend(8, constraints, b2, x);
    PutUAppend(8, s.profileIdc, PutU(8, constraints, b2), x);
  }

  // ------------------------------------------------------------- picture size

  const TWO_31 := 0x8000_0000

  /** An `int` from 32-bit unsigned arithmetic. */
  function ToInt32(x: int): int { (x + TWO_31) % TWO_32 - TWO_31 }

  function Width(s: Sps): int
  {
    ToInt32((s.geometry.widthMinus1 + 1) * 16 - s.crop.right * 2 - s.crop.left * 2)
  }

  function Height(s: Sps): int
  {
    ToInt32((2 - s.geometry.frameMbsOnly) * (s.geometry.heightMinus1 + 1) * 16 - s.crop.top * 2 - s.crop.bottom * 2)
  }

  /** Section 7.4.2.1.1: the chroma format that is absent is 4:2:0, and cropping counts in these units. */
  function ChromaArrayType(s: Sps): nat
  {
    if !CodesChroma(s.profileIdc) then 1
    else if s.chroma.separatePlane != 0 then 0
    else s.chroma.formatIdc
  }

  function CropUnitX(s: Sps): nat { if ChromaArrayType(s) in {1, 2} then 2 else 1 }

  function CropUnitY(s: Sps): nat
    requires IsFlag(s.geometry.frameMbsOnly)
  {
    (if ChromaArrayType(s) == 1 then 2 else 1) * (2 - s.geometry.frameMbsOnly)
  }

  function StandardWidth(s: Sps): int
  {
    16 * (s.geometry.widthMinus1 + 1) - CropUnitX(s) * (s.crop.left + s.crop.right)
  }

  function StandardHeight(s: Sps): int
    requires IsFlag(s.geometry.frameMbsOnly)
  {
    (2 - s.geometry.frameMbsOnly) * (s.geometry.heightMinus1 + 1) * 16 - CropUnitY(s) * (s.crop.top + s.crop.bottom)
  }

  predicate IsInt32(x: int) { -TWO_31 <= x < TWO_31 }

  /** The source's picture size is the standard's exactly when the standard's fits an `int` and what it
      crops differs from two samples a unit by a multiple of 2^32. */
  lemma PictureSizeIff(s: Sps)
    requires IsFlag(s.geometry.frameMbsOnly)
    ensures Width(s) == StandardWidth(s)
            <==> IsInt32(StandardWidth(s)) && (CropUnitX(s) - 2) * (s.crop.left + s.crop.right) % TWO_32 == 0
    ensures Height(s) == StandardHeight(s)
            <==> IsInt32(StandardHeight(s)) && (CropUnitY(s) - 2) * (s.crop.top + s.crop.bottom) % TWO_32 == 0
  {
    var rows := (2 - s.geometry.frameMbsOnly) * (s.geometry.heightMinus1 + 1) * 16;
    CropIff(16 * (s.geometry.widthMinus1 + 1), CropUnitX(s), s.crop.right, s.crop.left);
    CropIff(rows, CropUnitY(s), s.crop.top, s.crop.bottom);
  }

  /** For sizes below 2^31 this says that nothing is cropped in a direction or the crop unit of that
      direction is two samples. */
  lemma CropUnitDecides(s: Sps)
    requires IsFlag(s.geometry.frameMbsOnly)
    requires 32 * (s.geometry.widthMinus1 + 1) < TWO_31 && 32 * (s.geometry.heightMinus1 + 1) < TWO_31
    requires 4 * (s.crop.left + s.crop.right) < TWO_31 && 4 * (s.crop.top + s.crop.bottom) < TWO_31
    ensures Width(s) == StandardWidth(s) <==> s.crop.left + s.crop.right == 0 || CropUnitX(s) == 2
    ensures Height(s) == StandardHeight(s) <==> s.crop.top + s.crop.bottom == 0 || CropUnitY(s) == 2
  {
    hide Width, Height;
    PictureSizeIff(s);
    SmallCrop(CropUnitX(s), s.crop.left + s.crop.right);
    SmallCrop(CropUnitY(s), s.crop.top + s.crop.bottom);
  }

  lemma SmallCrop(unit: nat, crop: nat)
    requires unit in {1, 2, 4} && 4 * crop < TWO_31
    ensures 0 <= unit * crop < TWO_31
    ensures (unit - 2) * crop % TWO_32 == 0 <==> crop == 0 || unit == 2
  {
  }

  /** 1088 rows of 4:4:4 of which 8 are cropped: 1080 by the standard, 1072 by the source. */
  lemma Crop444Differs()
    ensures var s := Sps(244, 40, 0, NO_CHROMA.(formatIdc := 3), 0, PicOrder(2, 0, 0, 0, 0, []),
                         Geometry(1, 0, 119, 67, 1, 0, 1), Crop(1, 0, 0, 0, 8), 0);
            SpsInRange(s, []) && CropUnitY(s) == 1 && StandardHeight(s) == 1080 && Height(s) == 1072
  {
  }

  lemma ToInt32Iff(x: int, y: int)
    ensures ToInt32(x) == y <==> IsInt32(y) && (x - y) % TWO_32 == 0
  {
  }

  lemma CropIff(samples: int, unit: nat, a: nat, b: nat)
    ensures var standard := samples - unit * (a + b);
            ToInt32(samples - a * 2 - b * 2) == standard
            <==> IsInt32(standard) && (unit - 2) * (a + b) % TWO_32 == 0
  {
    ToInt32Iff(samples - a * 2 - b * 2, samples - unit * (a + b));
    assert samples - a * 2 - b * 2 - (samples - unit * (a + b)) == (unit - 2) * (a + b);
  }

  // ------------------------------------------------------------- the parser in place

  /** What one turn of the scaling-list loop reads: the new scale, and the bits left. */
  function NextScale(last: int, next: int, bits: Bits): (int, Bits)
    requires next != 0 ==> GetSe(bits).Some?
  {
    if next == 0 then (0, bits)
    else var (delta, rest) := GetSe(bits).value; ((last + delta + 256) % 256, rest)
  }

  lemma EntriesStep(done: seq<int>, n: nat, last: int, next: int, bits: Bits)
    requires n > 0 && GetEntries(n, last, next, bits).Some?
    ensures next != 0 ==> GetSe(bits).Some?
    ensures var (next', b1) := NextScale(last, next, bits);
            var entry := if next' == 0 then last else next';
            && GetEntries(n - 1, entry, next', b1).Some?
            && var (all, rest) := GetEntries(n, last, next, bits).value;
               var (tail, rest1) := GetEntries(n - 1, entry, next', b1).value;
               done + all == done + [entry] + tail && rest == rest1
  {
    hide GetSe;
  }

  lemma EntriesEnd(last: int, next: int, bits: Bits)
    ensures GetEntries(0, last, next, bits) == Some(([], bits))
  {
  }

  /** Fills `list` from the bit stream. */
  method ScalingList(r: Reader, list: array<int>)
    requires r.Valid() && GetEntries(list.Length, 8, 8, r.Rest()).Some?
    modifies r, list
    ensures r.Valid() && (list[..], r.Rest()) == GetEntries(list.Length, 8, 8, old(r.Rest())).value
  {
    hide GetSe, GetEntries, BufferBits;
    var lastScale, nextScale, j := 8, 8, 0;
    assert forall s: seq<int> :: list[..0] + s == s;
    while j < list.Length
      invariant 0 <= j <= list.Length && r.Valid()
      invariant GetEntries(list.Length - j, lastScale, nextScale, r.Rest()).Some?
      invariant var (tail, rest) := GetEntries(list.Length - j, lastScale, nextScale, r.Rest()).value;
                (list[..j] + tail, rest) == GetEntries(list.Length, 8, 8, old(r.Rest())).value
    {
      EntriesStep(list[..j], list.Length - j, lastScale, nextScale, r.Rest());
      if nextScale != 0 {
        var deltaScale := r.Se();
        nextScale := (lastScale + deltaScale + 256) % 256;
      }
      lastScale := if nextScale == 0 then lastScale else nextScale;
      list[j] := lastScale;
      j := j + 1;
      assert list[..j] == list[..j - 1] + [lastScale];
    }
    EntriesEnd(lastScale, nextScale, r.Rest());
    assert list[..j] + [] == list[..];
  }

  lemma ListsStep(flags: seq<nat>, lists: Lists, i: nat, count: nat, bits: Bits)
    requires i < count && GetLists(i, count, bits).Some?
    ensures GetU(1, bits).Some?
    ensures var (flag, b1) := GetU(1, bits).value;
            && GetList(i, flag, b1).Some?
            && var (entries, b2) := GetList(i, flag, b1).value;
            && GetLists(i + 1, count, b2).Some?
            && var (f, l, rest) := GetLists(i, count, bits).value;
               var (f1, l1, rest1) := GetLists(i + 1, count, b2).value;
               flags + f == flags + [flag] + f1 && lists + l == lists + [entries] + l1 && rest == rest1
  {
    hide GetU, GetList;
  }

  method ParseList(r: Reader, i: nat, flag: nat) returns (entries: seq<int>)
    requires r.Valid() && GetList(i, flag, r.Rest()).Some?
    modifies r
    ensures r.Valid() && (entries, r.Rest()) == GetList(i, flag, old(r.Rest())).value
  {
    entries := [];
    if flag != 0 {
      var list := new int[ListSize(i)];
      ScalingList(r, list);
      entries := list[..];
    }
  }

  method ParseLists(r: Reader, count: nat) returns (flags: seq<nat>, lists: Lists)
    requires r.Valid() && GetLists(0, count, r.Rest()).Some?
    modifies r
    ensures r.Valid() && (flags, lists, r.Rest()) == GetLists(0, count, old(r.Rest())).value
  {
    hide GetList, GetLists, BufferBits;
    flags, lists := [], [];
    var i := 0;
    while i < count
      invariant 0 <= i <= count && r.Valid()
      invariant GetLists(i, count, r.Rest()).Some?
      invariant var (f, l, rest) := GetLists(i, count, r.Rest()).value;
                var (f0, l0, rest0) := GetLists(0, count, old(r.Rest())).value;
                flags + f == f0 && lists + l == l0 && rest == rest0
    {
      ListsStep(flags, lists, i, count, r.Rest());
      var flag := r.U(1);
      var entries := ParseList(r, i, flag);
      flags, lists := flags + [flag], lists + [entries];
      i := i + 1;
    }
    ListsEnd(count, r.Rest());
    assert flags + [] == flags && lists + [] == lists;
  }

  method OptionalBit(r: Reader, present: bool) returns (flag: nat)
    requires r.Valid() && GetOptional(present, r.Rest()).Some?
    modifies r
    ensures r.Valid() && (flag, r.Rest()) == GetOptional(present, old(r.Rest())).value
  {
    flag := 0;
    if present {
      flag := r.U(1);
    }
  }

  method ParseChroma(r: Reader) returns (c: Chroma, lists: Lists)
    requires r.Valid() && GetChroma(r.Rest()).Some?
    modifies r
    ensures r.Valid() && (c, lists, r.Rest()) == GetChroma(old(r.Rest())).value
  {
    hide GetUe, GetLists, GetOptional;
    var formatIdc := r.Ue();
    var separatePlane := OptionalBit(r, formatIdc == 3);
    var luma := r.Ue();
    var chroma := r.Ue();
    var bypass := r.U(1);
    var matrix := r.U(1);
    var flags: seq<nat>;
    flags, lists := ParseLists(r, if matrix != 0 then ListCount(formatIdc) else 0);
    c := Chroma(formatIdc, separatePlane, luma, chroma, bypass, matrix, (flags + NO_LISTS)[..12]);
  }

  lemma OffsetsStep(done: seq<int>, n: nat, bits: Bits)
    requires n > 0 && GetOffsets(n, bits).Some?
    ensures GetSe(bits).Some?
    ensures var (offset, b1) := GetSe(bits).value;
            && GetOffsets(n - 1, b1).Some?
            && var (all, rest) := GetOffsets(n, bits).value;
               var (tail, rest1) := GetOffsets(n - 1, b1).value;
               done + all == done + [offset] + tail && rest == rest1
  {
    hide GetSe;
  }

  lemma OffsetsEnd(bits: Bits)
    ensures GetOffsets(0, bits) == Some(([], bits))
  {
  }

  method ParseOffsets(r: Reader, n: nat) returns (offsets: seq<int>)
    requires r.Valid() && GetOffsets(n, r.Rest()).Some?
    modifies r
    ensures r.Valid() && (offsets, r.Rest()) == GetOffsets(n, old(r.Rest())).value
  {
    hide GetSe, GetOffsets, BufferBits;
    offsets := [];
    assert forall s: seq<int> :: offsets + s == s;
    var i := 0;
    while i < n
      invariant 0 <= i <= n && r.Valid()
      invariant GetOffsets(n - i, r.Rest()).Some?
      invariant var (tail, rest) := GetOffsets(n - i, r.Rest()).value;
                (offsets + tail, rest) == GetOffsets(n, old(r.Rest())).value
    {
      OffsetsStep(offsets, n - i, r.Rest());
      var offset := r.Se();
      offsets := offsets + [offset];
      i := i + 1;
    }
    OffsetsEnd(r.Rest());
    assert offsets + [] == offsets;
  }

  method ParseOrder(r: Reader) returns (o: PicOrder)
    requires r.Valid() && GetOrder(r.Rest()).Some?
    modifies r
    ensures r.Valid() && (o, r.Rest()) == GetOrder(old(r.Rest())).value
  {
    hide GetUe, GetSe, GetOffsets;
    var cntType := r.Ue();
    if cntType == 0 {
      var lsb := r.Ue();
      o := PicOrder(0, lsb, 0, 0, 0, []);
    } else if cntType == 1 {
      var always := r.U(1);
      var nonRef := r.Se();
      var topBottom := r.Se();
      var count := r.Ue();
      var offsets := ParseOffsets(r, count);
      o := PicOrder(1, 0, always, nonRef, topBottom, offsets);
    } else {
      o := PicOrder(cntType, 0, 0, 0, 0, []);
    }
  }

  method ParseGeometry(r: Reader) returns (g: Geometry)
    requires r.Valid() && GetGeometry(r.Rest()).Some?
    modifies r
    ensures r.Valid() && (g, r.Rest()) == GetGeometry(old(r.Rest())).value
  {
    hide GetUe, GetOptional;
    var refs := r.Ue();
    var gaps := r.U(1);
    var width := r.Ue();
    var height := r.Ue();
    var frame := r.U(1);
    var adaptive := OptionalBit(r, frame == 0);
    var direct := r.U(1);
    g := Geometry(refs, gaps, width, height, frame, adaptive, direct);
  }

  method ParseCrop(r: Reader) returns (c: Crop)
    requires r.Valid() && GetCrop(r.Rest()).Some?
    modifies r
    ensures r.Valid() && (c, r.Rest()) == GetCrop(old(r.Rest())).value
  {
    hide GetUe;
    var flag := r.U(1);
    c := Crop(0, 0, 0, 0, 0);
    if flag != 0 {
      var left := r.Ue();
      var right := r.Ue();
      var top := r.Ue();
      var bottom := r.Ue();
      c := Crop(flag, left, right, top, bottom);
    }
  }

  /** The field reads of `parse_sps`, in the source's order. */
  method ParseFields(r: Reader) returns (s: Sps, lists: Lists)
    requires r.Valid() && GetSps(r.Rest()).Some?
    modifies r
    ensures r.Valid() && (s, lists, r.Rest()) == GetSps(old(r.Rest())).value
  {
    hide GetUe, GetChroma, GetOrder, GetGeometry, GetCrop;
    var profile := r.U(8);
    var constraints := r.U(8);
    var level := r.U(8);
    var id := r.Ue();
    var chroma := NO_CHROMA;
    lists := [];
    if HighProfile(profile) {
      chroma, lists := ParseChroma(r);
    }
    var frameNum := r.Ue();
    var order := ParseOrder(r);
    var geometry := ParseGeometry(r);
    var crop := ParseCrop(r);
    var vui := r.U(1);
    s := Sps(profile, level, id, chroma, frameNum, order, geometry, crop, vui);
  }
}
