/**
 Reading a buffer bit by bit, the high bit of each byte first: fixed-length codes u(n),
 and the Exp-Golomb codes ue(v) and se(v) of ITU-T H.264, section 9.1.
 */
module BitReader {
  import opened Wrappers

  type Bits = seq<bool>

  // ------------------------------------------------------------- bits of a buffer

  function Mask(i: nat): bv8
    requires i < 8
  {
    if i == 0 then 0x80 else if i == 1 then 0x40 else if i == 2 then 0x20 else if i == 3 then 0x10
    else if i == 4 then 0x08 else if i == 5 then 0x04 else if i == 6 then 0x02 else 0x01
  }

  function BitAt(b: bv8, i: nat): bool
    requires i < 8
  {
    b & Mask(i) != 0
  }

  function BufferBits(buf: seq<bv8>): (bits: Bits)
    ensures |bits| == 8 * |buf|
  {
    seq(8 * |buf|, i requires 0 <= i < 8 * |buf| => BitAt(buf[i / 8], i % 8))
  }

  function PackByte(b: Bits): bv8
    requires |b| == 8
  {
    (if b[0] then 0x80 else 0) | (if b[1] then 0x40 else 0) | (if b[2] then 0x20 else 0) | (if b[3] then 0x10 else 0)
    | (if b[4] then 0x08 else 0) | (if b[5] then 0x04 else 0) | (if b[6] then 0x02 else 0) | (if b[7] then 0x01 else 0)
  }

  function Pack(bits: Bits): (buf: seq<bv8>)
    requires |bits| % 8 == 0
    ensures 8 * |buf| == |bits|
  {
    if |bits| == 0 then [] else [PackByte(bits[..8])] + Pack(bits[8..])
  }

  lemma PackByteAt(b: Bits, i: nat)
    requires |b| == 8 && i < 8
    ensures BitAt(PackByte(b), i) == b[i]
  {
  }

  lemma BufferBitAt(buf: seq<bv8>, byteoff: nat, i: nat)
    requires byteoff < |buf| && i < 8
    ensures BufferBits(buf)[8 * byteoff + i] == BitAt(buf[byteoff], i)
  {
    assert (8 * byteoff + i) / 8 == byteoff && (8 * byteoff + i) % 8 == i;
  }

  lemma BufferBitsCons(b: bv8, rest: seq<bv8>)
    ensures BufferBits([b] + rest) == seq(8, i requires 0 <= i < 8 => BitAt(b, i)) + BufferBits(rest)
  {
    hide BufferBits, BitAt;
    forall k | 0 <= k < 8 * |rest| + 8
      ensures BufferBits([b] + rest)[k] == (seq(8, i requires 0 <= i < 8 => BitAt(b, i)) + BufferBits(rest))[k]
    {
      BufferBitAt([b] + rest, k / 8, k % 8);
      if k >= 8 { BufferBitAt(rest, k / 8 - 1, k % 8); }
    }
  }

  lemma {:induction false} PackRoundTrip(bits: Bits)
    requires |bits| % 8 == 0
    ensures BufferBits(Pack(bits)) == bits
  {
    if |bits| > 0 {
      hide BufferBits, BitAt, PackByte;
      var first := PackByte(bits[..8]);
      PackRoundTrip(bits[8..]);
      BufferBitsCons(first, Pack(bits[8..]));
      forall i | 0 <= i < 8 ensures BitAt(first, i) == bits[i] { PackByteAt(bits[..8], i); }
      assert seq(8, i requires 0 <= i < 8 => BitAt(first, i)) == bits[..8];
    }
  }

  // ------------------------------------------------------------- numbers

  function Pow2(n: nat): (p: nat)
    ensures p > 0
  {
    if n == 0 then 1 else 2 * Pow2(n - 1)
  }

  lemma {:induction false} Pow2Monotone(m: nat, n: nat)
    requires m <= n
    ensures Pow2(m) <= Pow2(n)
  {
    if m < n {
      Pow2Monotone(m, n - 1);
    }
  }

  function Value(bits: Bits): (v: nat)
  {
    if |bits| == 0 then 0 else 2 * Value(bits[..|bits| - 1]) + (if bits[|bits| - 1] then 1 else 0)
  }

  lemma ValueEmpty()
    ensures Value([]) == 0
  {
  }

  lemma ValueSnoc(bits: Bits, i: nat)
    requires i < |bits|
    ensures Value(bits[..i + 1]) == 2 * Value(bits[..i]) + (if bits[i] then 1 else 0)
  {
    assert bits[..i + 1][..i] == bits[..i];
  }

  /** The `n` low bits of `v`, high bit first: the code u(n). */
  function NatBits(n: nat, v: nat): (bits: Bits)
    ensures |bits| == n
  {
    if n == 0 then [] else NatBits(n - 1, v / 2) + [v % 2 == 1]
  }

  lemma {:induction false} ValueBound(bits: Bits)
    ensures Value(bits) < Pow2(|bits|)
  {
    if |bits| > 0 {
      ValueBound(bits[..|bits| - 1]);
    }
  }

  lemma {:induction false} NatBitsValue(n: nat, v: nat)
    requires v < Pow2(n)
    ensures Value(NatBits(n, v)) == v
  {
    if n > 0 {
      NatBitsValue(n - 1, v / 2);
      assert NatBits(n, v)[..n - 1] == NatBits(n - 1, v / 2);
    }
  }

  lemma {:induction false} ValueNatBits(bits: Bits)
    ensures NatBits(|bits|, Value(bits)) == bits
  {
    if |bits| > 0 {
      ValueNatBits(bits[..|bits| - 1]);
    }
  }

  // ------------------------------------------------------------- reading codes

  function GetU(n: nat, bits: Bits): Option<(nat, Bits)>
  {
    if n <= |bits| then Some((Value(bits[..n]), bits[n..])) else None
  }

  function LeadingZeros(bits: Bits): (k: nat)
    ensures k <= |bits| && (k < |bits| ==> bits[k]) && forall i :: 0 <= i < k ==> !bits[i]
  {
    if |bits| == 0 || bits[0] then 0 else 1 + LeadingZeros(bits[1..])
  }

  /** More than 30 leading zeros overflow the source's `1 << leading`, an `int`. */
  const MAX_LEADING := 30

  function GetUe(bits: Bits): Option<(nat, Bits)>
  {
    var k := LeadingZeros(bits);
    if k <= MAX_LEADING && 2 * k + 1 <= |bits| then
      Some((Pow2(k) - 1 + Value(bits[k + 1..2 * k + 1]), bits[2 * k + 1..]))
    else
      None
  }

  /** What the source reads: up to the first one bit, and as many bits again. */
  lemma GetUeParts(bits: Bits)
    requires GetUe(bits).Some?
    ensures var k := LeadingZeros(bits);
            var behind := bits[k + 1..];
            && k < |bits| && k <= |behind| && k <= 32
            && GetUe(bits).value == (Pow2(k) - 1 + Value(behind[..k]), behind[k..])
  {
    var k := LeadingZeros(bits);
    assert bits[k + 1..][..k] == bits[k + 1..2 * k + 1] && bits[k + 1..][k..] == bits[2 * k + 1..];
  }

  function MapSe(code: nat): int
  {
    (if code % 2 == 0 then -1 else 1) * ((code + 1) / 2)
  }

  function GetSe(bits: Bits): Option<(int, Bits)>
  {
    var (code, rest) :- GetUe(bits);
    Some((MapSe(code), rest))
  }

  // ------------------------------------------------------------- writing codes

  function PutU(n: nat, v: nat, tail: Bits): Bits { NatBits(n, v) + tail }

  function Log2(n: nat): nat
    requires n > 0
  {
    if n == 1 then 0 else 1 + Log2(n / 2)
  }

  lemma {:induction false} Log2Bounds(n: nat)
    requires n > 0
    ensures Pow2(Log2(n)) <= n < 2 * Pow2(Log2(n))
  {
    if n > 1 {
      Log2Bounds(n / 2);
    }
  }

  lemma {:induction false} Log2Unique(n: nat, k: nat)
    requires n > 0 && Pow2(k) <= n < 2 * Pow2(k)
    ensures Log2(n) == k
  {
    if k > 0 {
      Log2Unique(n / 2, k - 1);
    }
  }

  /** Section 9.1: `k` zeros, a one, and the `k` low bits of `n + 1`. */
  function UeCode(n: nat): (code: Bits)
    ensures |code| == 2 * Log2(n + 1) + 1
  {
    var k := Log2(n + 1);
    Log2Bounds(n + 1);
    Zeros(k) + [true] + NatBits(k, n + 1 - Pow2(k))
  }

  function PutUe(n: nat, tail: Bits): Bits { UeCode(n) + tail }

  /** Section 9.1.1. */
  function SeCode(v: int): nat { if v > 0 then 2 * v - 1 else -2 * v }

  function PutSe(v: int, tail: Bits): Bits { PutUe(SeCode(v), tail) }

  const TWO_32 := 0x1_0000_0000

  predicate IsUe(n: nat) { n <= 0x7fff_fffe }

  predicate IsSe(v: int) { IsUe(SeCode(v)) }

  // ------------------------------------------------------------- round trips

  lemma URoundTrip(n: nat, v: nat, tail: Bits)
    requires v < Pow2(n)
    ensures GetU(n, PutU(n, v, tail)) == Some((v, tail))
  {
    NatBitsValue(n, v);
    assert PutU(n, v, tail)[..n] == NatBits(n, v);
  }

  lemma {:induction false} LeadingZerosUnique(bits: Bits, k: nat)
    requires k < |bits| && bits[k] && forall i :: 0 <= i < k ==> !bits[i]
    ensures LeadingZeros(bits) == k
  {
  }

  lemma Pow2Of31()
    ensures Pow2(30) == 0x4000_0000 && Pow2(31) == 0x8000_0000
  {
    assert Pow2(8) == 0x100;
    assert Pow2(16) == 0x1_0000;
    assert Pow2(24) == 0x100_0000;
  }

  lemma UeLength(n: nat)
    ensures Log2(n + 1) <= MAX_LEADING <==> IsUe(n)
  {
    Log2Bounds(n + 1);
    Pow2Of31();
    if Log2(n + 1) <= 30 { Pow2Monotone(Log2(n + 1), 30); } else { Pow2Monotone(31, Log2(n + 1)); }
  }

  /** Reading the code of `n` gives `n` back and leaves exactly the bits behind the code, for every
      `n` up to 2^31-2 and for no other. */
  lemma UeRoundTrip(n: nat, tail: Bits)
    ensures GetUe(PutUe(n, tail)) == if IsUe(n) then Some((n, tail)) else None
  {
    hide Log2, Pow2, NatBits, Value, LeadingZeros;
    var k, bits := Log2(n + 1), PutUe(n, tail);
    Log2Bounds(n + 1);
    LeadingZerosUnique(bits, k);
    UeLength(n);
    NatBitsValue(k, n + 1 - Pow2(k));
    assert bits[k + 1..2 * k + 1] == NatBits(k, n + 1 - Pow2(k));
    assert bits[2 * k + 1..] == tail;
  }

  /** Conversely, whatever is read was the code of the value read. */
  lemma UeIsCanonical(bits: Bits)
    requires GetUe(bits).Some?
    ensures var (n, tail) := GetUe(bits).value; PutUe(n, tail) == bits && IsUe(n)
  {
    var k := LeadingZeros(bits);
    var (n, tail) := GetUe(bits).value;
    var suffix := bits[k + 1..2 * k + 1];
    ValueBound(suffix);
    ValueNatBits(suffix);
    Log2Unique(n + 1, k);
    UeLength(n);
    assert bits == Zeros(k) + [true] + suffix + tail;
  }

  lemma SeBijection(v: int, code: nat)
    ensures MapSe(SeCode(v)) == v && SeCode(MapSe(code)) == code
  {
  }

  lemma SeRoundTrip(v: int, tail: Bits)
    ensures GetSe(PutSe(v, tail)) == if IsSe(v) then Some((v, tail)) else None
  {
    UeRoundTrip(SeCode(v), tail);
    SeBijection(v, 0);
  }

  lemma SmallValue(bits: Bits)
    requires |bits| <= 32
    ensures Value(bits) < TWO_32
  {
    ValueBound(bits);
    Pow2Of31();
    Pow2Monotone(|bits|, 32);
  }

  lemma ModStep(x: nat, b: nat)
    ensures (2 * (x % TWO_32) + b) % TWO_32 == (2 * x + b) % TWO_32
  {
  }

  // ------------------------------------------------------------- the reader

  class Reader {
    const buf: seq<bv8>
    var byteoff: nat
    var bitmask: bv8

    constructor (buf: seq<bv8>)
      ensures this.buf == buf && Valid() && Rest() == BufferBits(buf)
    {
      this.buf := buf;
      byteoff, bitmask := 0, 0x80;
    }

    function Index(): nat
      reads this
    {
      if bitmask == 0x80 then 0 else if bitmask == 0x40 then 1 else if bitmask == 0x20 then 2
      else if bitmask == 0x10 then 3 else if bitmask == 0x08 then 4 else if bitmask == 0x04 then 5
      else if bitmask == 0x02 then 6 else 7
    }

    ghost predicate Valid()
      reads this
    {
      bitmask == Mask(Index()) && 8 * byteoff + Index() <= 8 * |buf|
    }

    /** The bits that are still to be read. */
    ghost function Rest(): Bits
      requires Valid()
      reads this
    {
      BufferBits(buf)[8 * byteoff + Index()..]
    }

    method NextBit() returns (b: bool)
      requires Valid() && Rest() != []
      modifies this
      ensures Valid() && b == old(Rest())[0] && Rest() == old(Rest())[1..]
    {
      hide BufferBits;
      BufferBitAt(buf, byteoff, Index());
      b := buf[byteoff] & bitmask != 0;
      if bitmask != 1 {
        bitmask := bitmask >> 1;
      } else {
        byteoff := byteoff + 1;
        bitmask := 0x80;
      }
    }

    /** u(n), accumulated in 32 bits. */
    method U(n: nat) returns (val: nat)
      requires Valid() && n <= |Rest()|
      modifies this
      ensures Valid() && Rest() == old(Rest())[n..]
      ensures val == Value(old(Rest())[..n]) % TWO_32
      ensures n <= 32 ==> val == Value(old(Rest())[..n])
    {
      hide BufferBits, Mask, Value;
      assert Value([]) == 0 by { ValueEmpty(); }
      val := 0;
      var i := 0;
      while i < n
        invariant 0 <= i <= n && Valid() && Rest() == old(Rest())[i..]
        invariant val == Value(old(Rest())[..i]) % TWO_32
      {
        ghost var bits := old(Rest());
        assert bits[i..][1..] == bits[i + 1..];
        ValueSnoc(bits, i);
        var b := NextBit();
        ModStep(Value(old(Rest())[..i]), if b then 1 else 0);
        val := (2 * val + (if b then 1 else 0)) % TWO_32;
        i := i + 1;
      }
      if n <= 32 { SmallValue(old(Rest())[..n]); }
    }

    /** The loop of ue(v) that counts zeros up to and including the first one bit. */
    method SkipZeros() returns (leading: nat)
      requires Valid() && LeadingZeros(Rest()) < |Rest()|
      modifies this
      ensures Valid() && leading == LeadingZeros(old(Rest())) && Rest() == old(Rest())[leading + 1..]
    {
      hide BufferBits, Mask, LeadingZeros;
      ghost var bits, k := Rest(), LeadingZeros(Rest());
      leading := 0;
      var b := NextBit();
      while !b
        invariant 0 <= leading <= k && Valid() && Rest() == bits[leading + 1..]
        invariant b == bits[leading]
        decreases k - leading
      {
        assert bits[leading + 1..][1..] == bits[leading + 2..] && leading + 1 <= k;
        b := NextBit();
        leading := leading + 1;
      }
    }

    method Ue() returns (val: nat)
      requires Valid() && GetUe(Rest()).Some?
      modifies this
      ensures Valid() && (val, Rest()) == GetUe(old(Rest())).value
    {
      hide BufferBits, Pow2, LeadingZeros, Value, GetUe;
      GetUeParts(Rest());
      var leading := SkipZeros();
      var suffix := U(leading);
      val := Pow2(leading) - 1 + suffix;
    }

    method Se() returns (val: int)
      requires Valid() && GetSe(Rest()).Some?
      modifies this
      ensures Valid() && (val, Rest()) == GetSe(old(Rest())).value
    {
      var code := Ue();
      val := MapSe(code);
    }
  }
}
