/**
 CRC5: the table-driven checksum, the shift register it computes, and the errors it detects.

 A register holds the checksum in five bits; the source keeps it in the top five bits of a byte.
 Messages are taken bit by bit, the low bit of each byte first.
 */
module Crc5 {
  import opened Wrappers

  datatype Table = Usb | Ccitt

  /** The generator polynomial without its leading term, bit-reversed: 0x05 and 0x0B. */
  function Poly(t: Table): bv8 { if t.Usb? then 0x14 else 0x1a }

  /** The source's two tables, sixteen entries a row. */
  function UsbRow(high: bv8): (row: seq<bv8>)
    requires high < 16
    ensures |row| == 16
  {
    match high
    case 0 => [0x00, 0x70, 0xe0, 0x90, 0x88, 0xf8, 0x68, 0x18, 0x58, 0x28, 0xb8, 0xc8, 0xd0, 0xa0, 0x30, 0x40]
    case 1 => [0xb0, 0xc0, 0x50, 0x20, 0x38, 0x48, 0xd8, 0xa8, 0xe8, 0x98, 0x08, 0x78, 0x60, 0x10, 0x80, 0xf0]
    case 2 => [0x28, 0x58, 0xc8, 0xb8, 0xa0, 0xd0, 0x40, 0x30, 0x70, 0x00, 0x90, 0xe0, 0xf8, 0x88, 0x18, 0x68]
    case 3 => [0x98, 0xe8, 0x78, 0x08, 0x10, 0x60, 0xf0, 0x80, 0xc0, 0xb0, 0x20, 0x50, 0x48, 0x38, 0xa8, 0xd8]
    case 4 => [0x50, 0x20, 0xb0, 0xc0, 0xd8, 0xa8, 0x38, 0x48, 0x08, 0x78, 0xe8, 0x98, 0x80, 0xf0, 0x60, 0x10]
    case 5 => [0xe0, 0x90, 0x00, 0x70, 0x68, 0x18, 0x88, 0xf8, 0xb8, 0xc8, 0x58, 0x28, 0x30, 0x40, 0xd0, 0xa0]
    case 6 => [0x78, 0x08, 0x98, 0xe8, 0xf0, 0x80, 0x10, 0x60, 0x20, 0x50, 0xc0, 0xb0, 0xa8, 0xd8, 0x48, 0x38]
    case 7 => [0xc8, 0xb8, 0x28, 0x58, 0x40, 0x30, 0xa0, 0xd0, 0x90, 0xe0, 0x70, 0x00, 0x18, 0x68, 0xf8, 0x88]
    case 8 => [0xa0, 0xd0, 0x40, 0x30, 0x28, 0x58, 0xc8, 0xb8, 0xf8, 0x88, 0x18, 0x68, 0x70, 0x00, 0x90, 0xe0]
    case 9 => [0x10, 0x60, 0xf0, 0x80, 0x98, 0xe8, 0x78, 0x08, 0x48, 0x38, 0xa8, 0xd8, 0xc0, 0xb0, 0x20, 0x50]
    case 10 => [0x88, 0xf8, 0x68, 0x18, 0x00, 0x70, 0xe0, 0x90, 0xd0, 0xa0, 0x30, 0x40, 0x58, 0x28, 0xb8, 0xc8]
    case 11 => [0x38, 0x48, 0xd8, 0xa8, 0xb0, 0xc0, 0x50, 0x20, 0x60, 0x10, 0x80, 0xf0, 0xe8, 0x98, 0x08, 0x78]
    case 12 => [0xf0, 0x80, 0x10, 0x60, 0x78, 0x08, 0x98, 0xe8, 0xa8, 0xd8, 0x48, 0x38, 0x20, 0x50, 0xc0, 0xb0]
    case 13 => [0x40, 0x30, 0xa0, 0xd0, 0xc8, 0xb8, 0x28, 0x58, 0x18, 0x68, 0xf8, 0x88, 0x90, 0xe0, 0x70, 0x00]
    case 14 => [0xd8, 0xa8, 0x38, 0x48, 0x50, 0x20, 0xb0, 0xc0, 0x80, 0xf0, 0x60, 0x10, 0x08, 0x78, 0xe8, 0x98]
    case _ => [0x68, 0x18, 0x88, 0xf8, 0xe0, 0x90, 0x00, 0x70, 0x30, 0x40, 0xd0, 0xa0, 0xb8, 0xc8, 0x58, 0x28]
  }

  function CcittRow(high: bv8): (row: seq<bv8>)
    requires high < 16
    ensures |row| == 16
  {
    match high
    case 0 => [0x00, 0x58, 0xb0, 0xe8, 0xc8, 0x90, 0x78, 0x20, 0x38, 0x60, 0x88, 0xd0, 0xf0, 0xa8, 0x40, 0x18]
    case 1 => [0x70, 0x28, 0xc0, 0x98, 0xb8, 0xe0, 0x08, 0x50, 0x48, 0x10, 0xf8, 0xa0, 0x80, 0xd8, 0x30, 0x68]
    case 2 => [0xe0, 0xb8, 0x50, 0x08, 0x28, 0x70, 0x98, 0xc0, 0xd8, 0x80, 0x68, 0x30, 0x10, 0x48, 0xa0, 0xf8]
    case 3 => [0x90, 0xc8, 0x20, 0x78, 0x58, 0x00, 0xe8, 0xb0, 0xa8, 0xf0, 0x18, 0x40, 0x60, 0x38, 0xd0, 0x88]
    case 4 => [0x68, 0x30, 0xd8, 0x80, 0xa0, 0xf8, 0x10, 0x48, 0x50, 0x08, 0xe0, 0xb8, 0x98, 0xc0, 0x28, 0x70]
    case 5 => [0x18, 0x40, 0xa8, 0xf0, 0xd0, 0x88, 0x60, 0x38, 0x20, 0x78, 0x90, 0xc8, 0xe8, 0xb0, 0x58, 0x00]
    case 6 => [0x88, 0xd0, 0x38, 0x60, 0x40, 0x18, 0xf0, 0xa8, 0xb0, 0xe8, 0x00, 0x58, 0x78, 0x20, 0xc8, 0x90]
    case 7 => [0xf8, 0xa0, 0x48, 0x10, 0x30, 0x68, 0x80, 0xd8, 0xc0, 0x98, 0x70, 0x28, 0x08, 0x50, 0xb8, 0xe0]
    case 8 => [0xd0, 0x88, 0x60, 0x38, 0x18, 0x40, 0xa8, 0xf0, 0xe8, 0xb0, 0x58, 0x00, 0x20, 0x78, 0x90, 0xc8]
    case 9 => [0xa0, 0xf8, 0x10, 0x48, 0x68, 0x30, 0xd8, 0x80, 0x98, 0xc0, 0x28, 0x70, 0x50, 0x08, 0xe0, 0xb8]
    case 10 => [0x30, 0x68, 0x80, 0xd8, 0xf8, 0xa0, 0x48, 0x10, 0x08, 0x50, 0xb8, 0xe0, 0xc0, 0x98, 0x70, 0x28]
    case 11 => [0x40, 0x18, 0xf0, 0xa8, 0x88, 0xd0, 0x38, 0x60, 0x78, 0x20, 0xc8, 0x90, 0xb0, 0xe8, 0x00, 0x58]
    case 12 => [0xb8, 0xe0, 0x08, 0x50, 0x70, 0x28, 0xc0, 0x98, 0x80, 0xd8, 0x30, 0x68, 0x48, 0x10, 0xf8, 0xa0]
    case 13 => [0xc8, 0x90, 0x78, 0x20, 0x00, 0x58, 0xb0, 0xe8, 0xf0, 0xa8, 0x40, 0x18, 0x38, 0x60, 0x88, 0xd0]
    case 14 => [0x58, 0x00, 0xe8, 0xb0, 0x90, 0xc8, 0x20, 0x78, 0x60, 0x38, 0xd0, 0x88, 0xa8, 0xf0, 0x18, 0x40]
    case _ => [0x28, 0x70, 0x98, 0xc0, 0xe0, 0xb8, 0x50, 0x08, 0x10, 0x48, 0xa0, 0xf8, 0xd8, 0x80, 0x68, 0x30]
  }

  function Row(t: Table, high: bv8): (row: seq<bv8>)
    requires high < 16
    ensures |row| == 16
  {
    if t.Usb? then UsbRow(high) else CcittRow(high)
  }

  function Entry(t: Table, index: bv8): bv8
  {
    Row(t, index >> 4)[(index & 0xf) as int]
  }

  // ------------------------------------------------------------- the shift register

  function Xor(x: bv8, y: bv8): bv8 { x ^ y }

  function Low(x: bv8): bool { x & 1 == 1 }

  /** The polynomial is folded in when the bit that leaves the register and the message bit differ. */
  function Fold(x: bv8, feedback: bool, poly: bv8): bv8 { if feedback then Xor(x, poly) else x }

  /** One bit of the message through the register. */
  function Shift(t: Table, reg: bv8, bit: bool): bv8
  {
    Fold(reg >> 1, Low(reg) != bit, Poly(t))
  }

  function Register(t: Table, reg: bv8, bits: seq<bool>): bv8
    decreases |bits|
  {
    if |bits| == 0 then reg else Register(t, Shift(t, reg, bits[0]), bits[1..])
  }

  function BitsOf(b: bv8): seq<bool>
  {
    [Low(b), Low(b >> 1), Low(b >> 2), Low(b >> 3), Low(b >> 4), Low(b >> 5), Low(b >> 6), Low(b >> 7)]
  }

  function MessageBits(data: seq<bv8>): (bits: seq<bool>)
    ensures |bits| == 8 * |data|
  {
    if data == [] then [] else BitsOf(data[0]) + MessageBits(data[1..])
  }

  // ------------------------------------------------------------- the tables

  function Halve(t: Table, x: bv8): bv8 { if x & 1 == 1 then (x >> 1) ^ Poly(t) else x >> 1 }

  /** `Halve` twice, and four times. */
  function Halve2(t: Table, x: bv8): bv8
  {
    var a := if x & 1 == 1 then (x >> 1) ^ Poly(t) else x >> 1;
    if a & 1 == 1 then (a >> 1) ^ Poly(t) else a >> 1
  }

  function Halve4(t: Table, x: bv8): bv8 { Halve2(t, Halve2(t, x)) }

  /** Eight shifts of a byte without further input: what a table entry stands for. */
  function Serial(t: Table, x: bv8): bv8
  {
    Halve4(t, Halve4(t, x))
  }

  /** The row of the entries whose indices start with the four bits `high`. */
  ghost predicate IsSerialRow(row: seq<bv8>, t: Table, high: bv8)
  {
    var h := high << 4;
    && |row| == 16
    && row[0] == Serial(t, h | 0) << 3 && row[1] == Serial(t, h | 1) << 3
    && row[2] == Serial(t, h | 2) << 3 && row[3] == Serial(t, h | 3) << 3
    && row[4] == Serial(t, h | 4) << 3 && row[5] == Serial(t, h | 5) << 3
    && row[6] == Serial(t, h | 6) << 3 && row[7] == Serial(t, h | 7) << 3
    && row[8] == Serial(t, h | 8) << 3 && row[9] == Serial(t, h | 9) << 3
    && row[10] == Serial(t, h | 10) << 3 && row[11] == Serial(t, h | 11) << 3
    && row[12] == Serial(t, h | 12) << 3 && row[13] == Serial(t, h | 13) << 3
    && row[14] == Serial(t, h | 14) << 3 && row[15] == Serial(t, h | 15) << 3
  }

  function SerialRow(t: Table, high: bv8): (row: seq<bv8>)
    ensures |row| == 16
  {
    var h := high << 4;
    [Serial(t, h) << 3, Serial(t, h | 1) << 3, Serial(t, h | 2) << 3, Serial(t, h | 3) << 3,
     Serial(t, h | 4) << 3, Serial(t, h | 5) << 3, Serial(t, h | 6) << 3, Serial(t, h | 7) << 3,
     Serial(t, h | 8) << 3, Serial(t, h | 9) << 3, Serial(t, h | 10) << 3, Serial(t, h | 11) << 3,
     Serial(t, h | 12) << 3, Serial(t, h | 13) << 3, Serial(t, h | 14) << 3, Serial(t, h | 15) << 3]
  }

  lemma SerialRowIsSerial(t: Table, high: bv8)
    ensures IsSerialRow(SerialRow(t, high), t, high)
  {
    hide Serial;
    assert high << 4 == (high << 4) | 0;
  }

  lemma UsbRows0(high: bv8)
    requires high < 4
    ensures UsbRow(high) == SerialRow(Usb, high)
  {
    if {
      case high == 0 => case high == 1 => case high == 2 => case high == 3 =>
    }
  }

  lemma UsbRows4(high: bv8)
    requires 4 <= high < 8
    ensures UsbRow(high) == SerialRow(Usb, high)
  {
    if {
      case high == 4 => case high == 5 => case high == 6 => case high == 7 =>
    }
  }

  lemma UsbRows8(high: bv8)
    requires 8 <= high < 12
    ensures UsbRow(high) == SerialRow(Usb, high)
  {
    if {
      case high == 8 => case high == 9 => case high == 10 => case high == 11 =>
    }
  }

  lemma UsbRows12(high: bv8)
    requires 12 <= high < 16
    ensures UsbRow(high) == SerialRow(Usb, high)
  {
    if {
      case high == 12 => case high == 13 => case high == 14 => case high == 15 =>
    }
  }

  lemma CcittRows0(high: bv8)
    requires high < 4
    ensures CcittRow(high) == SerialRow(Ccitt, high)
  {
    if {
      case high == 0 => case high == 1 => case high == 2 => case high == 3 =>
    }
  }

  lemma CcittRows4(high: bv8)
    requires 4 <= high < 8
    ensures CcittRow(high) == SerialRow(Ccitt, high)
  {
    if {
      case high == 4 => case high == 5 => case high == 6 => case high == 7 =>
    }
  }

  lemma CcittRows8(high: bv8)
    requires 8 <= high < 12
    ensures CcittRow(high) == SerialRow(Ccitt, high)
  {
    if {
      case high == 8 => case high == 9 => case high == 10 => case high == 11 =>
    }
  }

  lemma CcittRows12(high: bv8)
    requires 12 <= high < 16
    ensures CcittRow(high) == SerialRow(Ccitt, high)
  {
    if {
      case high == 12 => case high == 13 => case high == 14 => case high == 15 =>
    }
  }

  lemma SerialRowAtLow(row: seq<bv8>, t: Table, high: bv8, low: bv8)
    requires IsSerialRow(row, t, high) && low < 8
    ensures row[low as int] == Serial(t, (high << 4) | low) << 3
  {
    hide Serial;
    if {
      case low == 0 => case low == 1 => case low == 2 => case low == 3 =>
      case low == 4 => case low == 5 => case low == 6 => case low == 7 =>
    }
  }

  lemma SerialRowAtHigh(row: seq<bv8>, t: Table, high: bv8, low: bv8)
    requires IsSerialRow(row, t, high) && 8 <= low < 16
    ensures row[low as int] == Serial(t, (high << 4) | low) << 3
  {
    hide Serial;
    if {
      case low == 8 => case low == 9 => case low == 10 => case low == 11 =>
      case low == 12 => case low == 13 => case low == 14 => case low == 15 =>
    }
  }

  lemma RowsAreSerial(t: Table, high: bv8)
    requires high < 16
    ensures IsSerialRow(Row(t, high), t, high)
  {
    hide UsbRow, CcittRow, IsSerialRow, SerialRow;
    SerialRowIsSerial(t, high);
    if high < 8 {
      if high < 4 { UsbRows0(high); CcittRows0(high); } else { UsbRows4(high); CcittRows4(high); }
    } else {
      if high < 12 { UsbRows8(high); CcittRows8(high); } else { UsbRows12(high); CcittRows12(high); }
    }
  }

  lemma Nibbles(index: bv8)
    ensures index >> 4 < 16 && index & 0xf < 16 && index == ((index >> 4) << 4) | (index & 0xf)
  {
  }

  /** Every entry of both tables is what eight shifts make of its index. */
  lemma EntryIsSerial(t: Table, index: bv8)
    ensures Entry(t, index) == Serial(t, index) << 3
  {
    hide Row, Serial, IsSerialRow;
    Nibbles(index);
    RowsAreSerial(t, index >> 4);
    var high, low := index >> 4, index & 0xf;
    if low < 8 { SerialRowAtLow(Row(t, high), t, high, low); } else { SerialRowAtHigh(Row(t, high), t, high, low); }
  }

  lemma XorShifts(x: bv8, y: bv8)
    ensures Xor(x, y) >> 1 == Xor(x >> 1, y >> 1) && Low(Xor(x, y)) == (Low(x) != Low(y))
  {
  }

  lemma XorSwaps(x: bv8, y: bv8, z: bv8)
    ensures Xor(Xor(x, y), z) == Xor(Xor(x, z), y) && Xor(x, y) == Xor(y, x)
  {
  }

  lemma XorCancels(x: bv8, y: bv8)
    ensures Xor(Xor(x, y), y) == x && Xor(x, x) == 0
  {
  }

  lemma FoldLinear(x: bv8, y: bv8, f: bool, g: bool, p: bv8)
    ensures Xor(Fold(x, f, p), Fold(y, g, p)) == Fold(Xor(x, y), f != g, p)
  {
    hide Xor;
    XorSwaps(x, p, y);
    XorSwaps(x, Xor(y, p), p);
    XorSwaps(y, p, x);
    XorSwaps(x, y, p);
    XorSwaps(x, p, Xor(y, p));
    XorCancels(Xor(x, y), p);
  }

  /** Feeding a bit of `y` into the register shifts register and byte together. */
  lemma ShiftIsHalve(t: Table, reg: bv8, y: bv8)
    ensures Xor(Shift(t, reg, Low(y)), y >> 1) == Halve(t, Xor(reg, y))
  {
    hide Xor, Low, Fold, Poly, Halve;
    HalveIsFold(t, Xor(reg, y));
    XorShifts(reg, y);
    FoldLinear(reg >> 1, y >> 1, Low(reg) != Low(y), false, Poly(t));
    assert Fold(y >> 1, false, Poly(t)) == y >> 1 by { FoldNothing(y >> 1, Poly(t)); }
  }

  lemma HalveIsFold(t: Table, x: bv8)
    ensures Halve(t, x) == Fold(x >> 1, Low(x), Poly(t))
  {
  }

  lemma FoldNothing(x: bv8, p: bv8)
    ensures Fold(x, false, p) == x
  {
  }

  lemma ShiftStaysSmall(t: Table, reg: bv8, bit: bool)
    requires reg < 32
    ensures Shift(t, reg, bit) < 32
  {
  }

  lemma RegisterCons(t: Table, reg: bv8, bit: bool, rest: seq<bool>)
    ensures Register(t, reg, [bit] + rest) == Register(t, Shift(t, reg, bit), rest)
  {
    assert ([bit] + rest)[1..] == rest;
  }

  lemma Halve2IsHalves(t: Table, x: bv8)
    ensures Halve2(t, x) == Halve(t, Halve(t, x))
  {
  }

  /** The two low bits of `y` through the register. */
  lemma TwoBits(t: Table, reg: bv8, y: bv8, b0: bool, b1: bool, rest: seq<bool>) returns (r: bv8)
    requires reg < 32 && b0 == Low(y) && b1 == Low(y >> 1)
    ensures r < 32 && Xor(r, y >> 2) == Halve2(t, Xor(reg, y))
    ensures Register(t, reg, [b0] + ([b1] + rest)) == Register(t, r, rest)
  {
    hide Register, Shift, Halve, Halve2, Xor, Low;
    var r1 := Shift(t, reg, b0);
    ShiftIsHalve(t, reg, y);
    ShiftStaysSmall(t, reg, b0);
    ShiftIsHalve(t, r1, y >> 1);
    r := Shift(t, r1, b1);
    ShiftStaysSmall(t, r1, b1);
    assert (y >> 1) >> 1 == y >> 2;
    RegisterCons(t, reg, b0, [b1] + rest);
    RegisterCons(t, r1, b1, rest);
    Halve2IsHalves(t, Xor(reg, y));
  }

  lemma FourBits(t: Table, reg: bv8, y: bv8, a: seq<bool>, rest: seq<bool>) returns (r: bv8)
    requires reg < 32 && |a| == 4
    requires a[0] == Low(y) && a[1] == Low(y >> 1) && a[2] == Low(y >> 2) && a[3] == Low(y >> 3)
    ensures r < 32 && Xor(r, y >> 4) == Halve4(t, Xor(reg, y))
    ensures Register(t, reg, [a[0]] + ([a[1]] + ([a[2]] + ([a[3]] + rest)))) == Register(t, r, rest)
  {
    hide Halve2, Register, Xor, Low;
    assert (y >> 2) >> 1 == y >> 3 && (y >> 2) >> 2 == y >> 4;
    var r2 := TwoBits(t, reg, y, a[0], a[1], [a[2]] + ([a[3]] + rest));
    r := TwoBits(t, r2, y >> 2, a[2], a[3], rest);
  }

  lemma EightThen<T>(a: seq<T>, rest: seq<T>)
    requires |a| == 8
    ensures a + rest == [a[0]] + ([a[1]] + ([a[2]] + ([a[3]] + ([a[4]] + ([a[5]] + ([a[6]] + ([a[7]] + rest)))))))
  {
  }

  /** Eight bits through the register are one eight-fold shift of register and byte together. */
  lemma ByteThroughRegister(t: Table, reg: bv8, b: bv8, rest: seq<bool>)
    requires reg < 32
    ensures Register(t, reg, BitsOf(b) + rest) == Register(t, Serial(t, Xor(reg, b)), rest)
    ensures Serial(t, Xor(reg, b)) < 32
  {
    hide Halve4, Register, BitsOf, Low, Xor;
    var a := BitsOf(b);
    ByteBits(b);
    EightThen(a, rest);
    var r4 := FourBits(t, reg, b, a[..4], [a[4]] + ([a[5]] + ([a[6]] + ([a[7]] + rest))));
    var r8 := FourBits(t, r4, b >> 4, a[4..], rest);
    XorNothing(r8, b);
  }

  lemma XorNothing(r: bv8, b: bv8)
    ensures Xor(r, (b >> 4) >> 4) == r
  {
  }

  lemma ByteBits(b: bv8)
    ensures var a, c := BitsOf(b), b >> 4;
            && |a| == 8
            && a[0] == Low(b) && a[1] == Low(b >> 1) && a[2] == Low(b >> 2) && a[3] == Low(b >> 3)
            && a[4] == Low(c) && a[5] == Low(c >> 1) && a[6] == Low(c >> 2) && a[7] == Low(c >> 3)
  {
    hide Low;
    assert b >> 5 == (b >> 4) >> 1 && b >> 6 == (b >> 4) >> 2 && b >> 7 == (b >> 4) >> 3;
  }

  lemma UpdateStep(t: Table, r: bv8, b: bv8, rest: seq<bool>)
    ensures var next := (Entry(t, (r >> 3) ^ b) ^ (r >> 8)) & (0x1f << 3);
            Register(t, r >> 3, BitsOf(b) + rest) == Register(t, next >> 3, rest)
  {
    hide Serial, Entry, BitsOf, Register;
    assert Xor(r >> 3, b) == (r >> 3) ^ b;
    ByteThroughRegister(t, r >> 3, b, rest);
    EntryIsSerial(t, (r >> 3) ^ b);
    SmallSurvives(Serial(t, (r >> 3) ^ b), r);
  }

  lemma SmallSurvives(x: bv8, r: bv8)
    requires x < 32
    ensures ((((x << 3) ^ (r >> 8)) & (0x1f << 3)) >> 3) == x
  {
  }

  lemma TopFiveBits(r: bv8)
    ensures r & (0x1f << 3) == (r >> 3) << 3 && r >> 3 < 32
  {
  }

  method Update(crc: bv8, data: seq<bv8>, t: Table) returns (r: bv8)
    ensures r == Register(t, crc >> 3, MessageBits(data)) << 3
    ensures Register(t, crc >> 3, MessageBits(data)) < 32
  {
    hide Entry, BitsOf;
    r := crc;
    var i := 0;
    while i < |data|
      invariant 0 <= i <= |data|
      invariant Register(t, r >> 3, MessageBits(data[i..])) == Register(t, crc >> 3, MessageBits(data))
    {
      hide Register;
      UpdateStep(t, r, data[i], MessageBits(data[i + 1..]));
      assert data[i..][1..] == data[i + 1..];
      var index := (r >> 3) ^ data[i];
      r := (Entry(t, index) ^ (r >> 8)) & (0x1f << 3);
      i := i + 1;
    }
    TopFiveBits(r);
    r := r & (0x1f << 3);
  }

  function ChecksumOf(data: seq<bv8>, t: Table): bv8
  {
    Register(t, 0x1f, MessageBits(data)) ^ 0x1f
  }

  /** The five bits of a checksum, low bit first as in a message. */
  function FiveBits(c: bv8): seq<bool>
  {
    [c & 1 == 1, c & 2 == 2, c & 4 == 4, c & 8 == 8, c & 16 == 16]
  }

  /** What a register that starts with ones holds behind any message and its checksum; for the USB
      polynomial this is the residual of section 8.3.5.1, bit-reversed. */
  function Residue(t: Table): bv8 { if t.Usb? then 0x06 else 0x02 }

  /** A five-bit number in front of which the register `r` stands is its complement exactly when it
      leaves the residue. */
  lemma ComplementLeavesResidue(t: Table, r: bv8, c: bv8)
    requires r < 32 && c < 32
    ensures Register(t, r, FiveBits(c)) == Residue(t) <==> c == r ^ 0x1f
  {
    hide Register, Shift;
    var a := FiveBits(c);
    var r1 := Shift(t, r, a[0]);
    var r2 := Shift(t, r1, a[1]);
    var r3 := Shift(t, r2, a[2]);
    var r4 := Shift(t, r3, a[3]);
    var r5 := Shift(t, r4, a[4]);
    assert a == [a[0]] + ([a[1]] + ([a[2]] + ([a[3]] + ([a[4]] + []))));
    RegisterCons(t, r, a[0], [a[1]] + ([a[2]] + ([a[3]] + ([a[4]] + []))));
    RegisterCons(t, r1, a[1], [a[2]] + ([a[3]] + ([a[4]] + [])));
    RegisterCons(t, r2, a[2], [a[3]] + ([a[4]] + []));
    RegisterCons(t, r3, a[3], [a[4]] + []);
    RegisterCons(t, r4, a[4], []);
    RegisterNil(t, r5);
    FiveShifts(t, r, c);
  }

  lemma RegisterNil(t: Table, reg: bv8)
    ensures Register(t, reg, []) == reg
  {
  }

  lemma FiveShifts(t: Table, r: bv8, c: bv8)
    requires r < 32 && c < 32
    ensures var a := FiveBits(c);
            Shift(t, Shift(t, Shift(t, Shift(t, Shift(t, r, a[0]), a[1]), a[2]), a[3]), a[4]) == Residue(t)
            <==> c == r ^ 0x1f
  {
  }

  /** The residue law: of all five-bit numbers exactly the checksum, sent behind its message, leaves the
      residue in a register that starts with ones. */
  lemma ChecksumIffResidue(t: Table, data: seq<bv8>, c: bv8)
    ensures c == ChecksumOf(data, t)
            <==> c < 32 && Register(t, 0x1f, MessageBits(data) + FiveBits(c)) == Residue(t)
  {
    hide Register, MessageBits, FiveBits, Residue;
    var r := Register(t, 0x1f, MessageBits(data));
    RegisterStaysSmall(t, 0x1f, MessageBits(data));
    RegisterConcat(t, 0x1f, MessageBits(data), FiveBits(c));
    FlipStaysSmall(r);
    if c < 32 { ComplementLeavesResidue(t, r, c); }
  }

  lemma FlipStaysSmall(r: bv8)
    requires r < 32
    ensures r ^ 0x1f < 32
  {
  }

  lemma {:induction false} RegisterStaysSmall(t: Table, reg: bv8, bits: seq<bool>)
    requires reg < 32
    ensures Register(t, reg, bits) < 32
    decreases |bits|
  {
    if |bits| > 0 {
      hide Shift;
      ShiftStaysSmall(t, reg, bits[0]);
      RegisterStaysSmall(t, Shift(t, reg, bits[0]), bits[1..]);
    }
  }

  /** Initialise, update, finalise: the checksum that the video source computes. Sent behind its message,
      it leaves the residue in a register that starts with ones, as no other five-bit number does. */
  method Checksum(data: seq<bv8>, t: Table) returns (c: bv8)
    ensures c == ChecksumOf(data, t)
    ensures c < 32 && Register(t, 0x1f, MessageBits(data) + FiveBits(c)) == Residue(t)
  {
    hide Register, MessageBits, FiveBits, Residue;
    var crc := Update(0x1f << 3, data, t);
    c := (crc >> 3) ^ 0x1f;
    Finalised(Register(t, 0x1f, MessageBits(data)), crc);
    assert (0x1f << 3) >> 3 == 0x1f as bv8;
    ChecksumIffResidue(t, data, c);
  }

  lemma Finalised(r: bv8, crc: bv8)
    requires r < 32 && crc == r << 3
    ensures (crc >> 3) ^ 0x1f == r ^ 0x1f
  {
  }

  // ------------------------------------------------------------- differences

  function Diff(a: seq<bool>, b: seq<bool>): (e: seq<bool>)
    requires |a| == |b|
    ensures |e| == |a|
  {
    seq(|a|, i requires 0 <= i < |a| => a[i] != b[i])
  }

  lemma ShiftLinear(t: Table, r: bv8, s: bv8, x: bool, y: bool)
    ensures Xor(Shift(t, r, x), Shift(t, s, y)) == Shift(t, Xor(r, s), x != y)
  {
    hide Xor, Low, Fold, Poly;
    XorShifts(r, s);
    FoldLinear(r >> 1, s >> 1, Low(r) != x, Low(s) != y, Poly(t));
    assert Shift(t, Xor(r, s), x != y) == Fold(Xor(r, s) >> 1, Low(Xor(r, s)) != (x != y), Poly(t));
  }

  /** The register is linear: registers of two messages differ by the register of their difference. */
  lemma {:induction false} RegisterLinear(t: Table, r: bv8, s: bv8, a: seq<bool>, b: seq<bool>)
    requires |a| == |b|
    ensures Register(t, Xor(r, s), Diff(a, b)) == Xor(Register(t, r, a), Register(t, s, b))
    decreases |a|
  {
    hide Shift, Xor;
    if |a| > 0 {
      ShiftLinear(t, r, s, a[0], b[0]);
      RegisterLinear(t, Shift(t, r, a[0]), Shift(t, s, b[0]), a[1..], b[1..]);
      assert Diff(a, b)[0] == (a[0] != b[0]) && Diff(a, b)[1..] == Diff(a[1..], b[1..]);
    }
  }

  lemma XorZero(x: bv8, y: bv8)
    ensures Xor(x, y) == 0 <==> x == y
  {
  }

  lemma CollisionIffZero(t: Table, r: bv8, a: seq<bool>, b: seq<bool>)
    requires |a| == |b|
    ensures Register(t, r, a) == Register(t, r, b) <==> Register(t, 0, Diff(a, b)) == 0
  {
    hide Register;
    RegisterLinear(t, r, r, a, b);
    XorZero(r, r);
    XorZero(Register(t, r, a), Register(t, r, b));
  }

  lemma ShiftNonzero(t: Table, reg: bv8)
    requires 0 < reg < 32
    ensures 0 < Shift(t, reg, false) < 32
  {
  }

  lemma {:induction false} ZerosKeep(t: Table, reg: bv8, bits: seq<bool>)
    requires reg < 32 && forall i :: 0 <= i < |bits| ==> !bits[i]
    ensures Register(t, reg, bits) == 0 <==> reg == 0
    decreases |bits|
  {
    if |bits| > 0 {
      if reg != 0 { ShiftNonzero(t, reg); }
      ZerosKeep(t, Shift(t, reg, false), bits[1..]);
    }
  }

  // ------------------------------------------------------------- bursts

  function PowerOfTwo(k: nat): bv8
    requires k <= 4
  {
    if k == 0 then 1 else if k == 1 then 2 else if k == 2 then 4 else if k == 3 then 8 else 16
  }

  lemma ShiftHalvesAtWorst(t: Table, reg: bv8, bit: bool, k: nat)
    requires reg < 32 && 0 < k <= 4 && PowerOfTwo(k) <= reg
    ensures PowerOfTwo(k - 1) <= Shift(t, reg, bit) < 32
  {
  }

  lemma {:induction false} BurstTail(t: Table, reg: bv8, bits: seq<bool>, k: nat)
    requires k <= 4 && PowerOfTwo(k) <= reg < 32
    requires forall j :: k <= j < |bits| ==> !bits[j]
    ensures Register(t, reg, bits) != 0
    decreases |bits|
  {
    if k == 0 {
      ZerosKeep(t, reg, bits);
    } else if |bits| > 0 {
      ShiftHalvesAtWorst(t, reg, bits[0], k);
      BurstTail(t, Shift(t, reg, bits[0]), bits[1..], k - 1);
    }
  }

  /** A difference confined to five consecutive bits leaves a nonzero register. */
  lemma {:induction false} BurstNonzero(t: Table, e: seq<bool>, first: nat)
    requires exists j :: 0 <= j < |e| && e[j]
    requires forall j :: 0 <= j < |e| && e[j] ==> first <= j < first + 5
    ensures Register(t, 0, e) != 0
    decreases |e|
  {
    if e[0] {
      assert 16 <= Shift(t, 0, true) < 32;
      BurstTail(t, Shift(t, 0, true), e[1..], 4);
    } else {
      var j :| 0 <= j < |e| && e[j];
      assert e[1..][j - 1];
      assert forall i :: 0 <= i < |e| - 1 ==> e[1..][i] == e[i + 1];
      BurstNonzero(t, e[1..], if first == 0 then 0 else first - 1);
    }
  }

  /** Both checksums detect every error burst of up to five bits, in messages of any length. */
  lemma BurstDetected(t: Table, a: seq<bv8>, b: seq<bv8>, first: nat)
    requires |a| == |b| && MessageBits(a) != MessageBits(b)
    requires forall j :: 0 <= j < 8 * |a| && MessageBits(a)[j] != MessageBits(b)[j] ==> first <= j < first + 5
    ensures ChecksumOf(a, t) != ChecksumOf(b, t)
  {
    hide Register, MessageBits;
    var x, y := MessageBits(a), MessageBits(b);
    var j :| 0 <= j < |x| && x[j] != y[j];
    assert Diff(x, y)[j];
    BurstNonzero(t, Diff(x, y), first);
    CollisionIffZero(t, 0x1f, x, y);
    ChecksumsCompare(Register(t, 0x1f, x), Register(t, 0x1f, y));
  }

  lemma ChecksumsCompare(r: bv8, s: bv8)
    ensures r ^ 0x1f == s ^ 0x1f <==> r == s
  {
  }

  // ------------------------------------------------------------- parity

  predicate RegisterParity(r: bv8)
  {
    (r ^ (r >> 1) ^ (r >> 2) ^ (r >> 3) ^ (r >> 4)) & 1 == 1
  }

  predicate Odd(bits: seq<bool>)
  {
    |bits| > 0 && bits[0] != Odd(bits[1..])
  }

  lemma ShiftParity(reg: bv8, bit: bool)
    requires reg < 32
    ensures Shift(Ccitt, reg, bit) < 32
    ensures RegisterParity(Shift(Ccitt, reg, bit)) == (RegisterParity(reg) != bit)
  {
  }

  /** The CCITT polynomial has the factor x + 1, so the register's parity follows the message's. */
  lemma {:induction false} RegisterTracksParity(reg: bv8, bits: seq<bool>)
    requires reg < 32
    ensures RegisterParity(Register(Ccitt, reg, bits)) == (RegisterParity(reg) != Odd(bits))
    decreases |bits|
  {
    if |bits| > 0 {
      ShiftParity(reg, bits[0]);
      RegisterTracksParity(Shift(Ccitt, reg, bits[0]), bits[1..]);
    }
  }

  /** The CCITT checksum detects every odd number of wrong bits, in messages of any length. */
  lemma OddErrorDetected(a: seq<bv8>, b: seq<bv8>)
    requires |a| == |b| && Odd(Diff(MessageBits(a), MessageBits(b)))
    ensures ChecksumOf(a, Ccitt) != ChecksumOf(b, Ccitt)
  {
    hide Register, MessageBits;
    var x, y := MessageBits(a), MessageBits(b);
    RegisterTracksParity(0, Diff(x, y));
    CollisionIffZero(Ccitt, 0x1f, x, y);
    ChecksumsCompare(Register(Ccitt, 0x1f, x), Register(Ccitt, 0x1f, y));
  }

  // ------------------------------------------------------------- two wrong bits

  /** The register after `n` message bits that are all zero. */
  function Idle(t: Table, reg: bv8, n: nat): bv8
  {
    if n == 0 then reg else Shift(t, Idle(t, reg, n - 1), false)
  }

  function Period(t: Table): nat { if t.Usb? then 31 else 15 }

  lemma {:induction false} IdleAdd(t: Table, reg: bv8, m: nat, n: nat)
    ensures Idle(t, Idle(t, reg, m), n) == Idle(t, reg, m + n)
  {
    if n > 0 {
      IdleAdd(t, reg, m, n - 1);
    }
  }

  lemma UsbCycle(n: nat)
    requires n <= 31
    ensures Idle(Usb, 1, n) == 1 <==> n == 0 || n == 31
  {
    assert Idle(Usb, 1, 1) == 0x14;
    assert Idle(Usb, 1, 2) == 0x0a;
    assert Idle(Usb, 1, 3) == 0x05;
    assert Idle(Usb, 1, 4) == 0x16;
    assert Idle(Usb, 1, 5) == 0x0b;
    assert Idle(Usb, 1, 6) == 0x11;
    assert Idle(Usb, 1, 7) == 0x1c;
    assert Idle(Usb, 1, 8) == 0x0e;
    assert Idle(Usb, 1, 9) == 0x07;
    assert Idle(Usb, 1, 10) == 0x17;
    assert Idle(Usb, 1, 11) == 0x1f;
    assert Idle(Usb, 1, 12) == 0x1b;
    assert Idle(Usb, 1, 13) == 0x19;
    assert Idle(Usb, 1, 14) == 0x18;
    assert Idle(Usb, 1, 15) == 0x0c;
    assert Idle(Usb, 1, 16) == 0x06;
    assert Idle(Usb, 1, 17) == 0x03;
    assert Idle(Usb, 1, 18) == 0x15;
    assert Idle(Usb, 1, 19) == 0x1e;
    assert Idle(Usb, 1, 20) == 0x0f;
    assert Idle(Usb, 1, 21) == 0x13;
    assert Idle(Usb, 1, 22) == 0x1d;
    assert Idle(Usb, 1, 23) == 0x1a;
    assert Idle(Usb, 1, 24) == 0x0d;
    assert Idle(Usb, 1, 25) == 0x12;
    assert Idle(Usb, 1, 26) == 0x09;
    assert Idle(Usb, 1, 27) == 0x10;
    assert Idle(Usb, 1, 28) == 0x08;
    assert Idle(Usb, 1, 29) == 0x04;
    assert Idle(Usb, 1, 30) == 0x02;
    assert Idle(Usb, 1, 31) == 0x01;
  }

  lemma CcittCycle(n: nat)
    requires n <= 15
    ensures Idle(Ccitt, 1, n) == 1 <==> n == 0 || n == 15
  {
    assert Idle(Ccitt, 1, 1) == 0x1a;
    assert Idle(Ccitt, 1, 2) == 0x0d;
    assert Idle(Ccitt, 1, 3) == 0x1c;
    assert Idle(Ccitt, 1, 4) == 0x0e;
    assert Idle(Ccitt, 1, 5) == 0x07;
    assert Idle(Ccitt, 1, 6) == 0x19;
    assert Idle(Ccitt, 1, 7) == 0x16;
    assert Idle(Ccitt, 1, 8) == 0x0b;
    assert Idle(Ccitt, 1, 9) == 0x1f;
    assert Idle(Ccitt, 1, 10) == 0x15;
    assert Idle(Ccitt, 1, 11) == 0x10;
    assert Idle(Ccitt, 1, 12) == 0x08;
    assert Idle(Ccitt, 1, 13) == 0x04;
    assert Idle(Ccitt, 1, 14) == 0x02;
    assert Idle(Ccitt, 1, 15) == 0x01;
  }

  lemma {:induction false} IdlePeriod(t: Table, n: nat)
    ensures Idle(t, 1, n) == 1 <==> n % Period(t) == 0
  {
    hide Idle;
    if n < Period(t) {
      if t.Usb? { UsbCycle(n); } else { CcittCycle(n); }
    } else {
      if t.Usb? { UsbCycle(31); } else { CcittCycle(15); }
      IdleAdd(t, 1, Period(t), n - Period(t));
      IdlePeriod(t, n - Period(t));
      assert if t.Usb? then n % 31 == (n - 31) % 31 else n % 15 == (n - 15) % 15;
    }
  }

  /** After the first wrong bit the register idles until the second one. */
  lemma {:induction false} SecondError(t: Table, n: nat, m: nat, e: seq<bool>)
    requires m < |e| && forall j :: 0 <= j < |e| ==> e[j] == (j == m)
    requires Idle(t, 1, n) < 32
    ensures Register(t, Idle(t, 1, n), e) == 0 <==> (n + m) % Period(t) == 0
    decreases |e|
  {
    var reg := Idle(t, 1, n);
    if m == 0 {
      IdlePeriod(t, n);
      LastErrorClears(t, reg);
      ZerosKeep(t, Shift(t, reg, true), e[1..]);
    } else {
      ShiftStaysSmall(t, reg, false);
      assert Idle(t, 1, n + 1) == Shift(t, reg, false);
      SecondError(t, n + 1, m - 1, e[1..]);
    }
  }

  lemma LastErrorClears(t: Table, reg: bv8)
    requires reg < 32
    ensures Shift(t, reg, true) == 0 <==> reg == 1
    ensures Shift(t, reg, true) < 32
  {
  }

  lemma {:induction false} TwoErrorsZero(t: Table, e: seq<bool>, i: nat, k: nat)
    requires i < k < |e| && forall j :: 0 <= j < |e| ==> e[j] == (j == i || j == k)
    ensures Register(t, 0, e) == 0 <==> (k - i) % Period(t) == 0
    decreases |e|
  {
    if i > 0 {
      assert Shift(t, 0, false) == 0;
      TwoErrorsZero(t, e[1..], i - 1, k - 1);
    } else {
      assert Idle(t, 1, 1) == Shift(t, 1, false) == Shift(t, 0, true) by { assert Idle(t, 1, 0) == 1; }
      SecondError(t, 1, k - 1, e[1..]);
    }
  }

  /** Two wrong bits go undetected exactly when their distance is a multiple of 31 (USB) or 15 (CCITT). */
  lemma TwoErrorsDetected(t: Table, a: seq<bv8>, b: seq<bv8>, i: nat, k: nat)
    requires |a| == |b| && i < k < 8 * |a|
    requires forall j :: 0 <= j < 8 * |a| ==> (MessageBits(a)[j] != MessageBits(b)[j] <==> j == i || j == k)
    ensures ChecksumOf(a, t) == ChecksumOf(b, t) <==> (k - i) % Period(t) == 0
  {
    hide Register, MessageBits;
    var x, y := MessageBits(a), MessageBits(b);
    TwoErrorsZero(t, Diff(x, y), i, k);
    CollisionIffZero(t, 0x1f, x, y);
    ChecksumsCompare(Register(t, 0x1f, x), Register(t, 0x1f, y));
  }

  // ------------------------------------------------------------- divisibility

  /** The generator polynomial, highest power first: x^5+x^2+1 and x^5+x^3+x+1. */
  function Generator(t: Table): (g: seq<bool>)
    ensures |g| == 6
  {
    if t.Usb? then [true, false, false, true, false, true] else [true, false, true, false, true, true]
  }

  /** The product of the polynomial `q` and the generator over the two-element field. */
  function Times(t: Table, q: seq<bool>): (p: seq<bool>)
    ensures |p| == |q| + 5
  {
    if |q| == 0 then Zeros(5)
    else
      var rest := [false] + Times(t, q[1..]);
      if q[0] then Diff(Generator(t) + Zeros(|q| - 1), rest) else rest
  }

  lemma {:induction false} RegisterConcat(t: Table, reg: bv8, a: seq<bool>, b: seq<bool>)
    ensures Register(t, reg, a + b) == Register(t, Register(t, reg, a), b)
    decreases |a|
  {
    if |a| == 0 {
      assert a + b == b;
    } else {
      assert (a + b)[1..] == a[1..] + b;
      RegisterConcat(t, Shift(t, reg, a[0]), a[1..], b);
    }
  }

  lemma GeneratorVanishes(t: Table, n: nat)
    ensures Register(t, 0, Generator(t) + Zeros(n)) == 0
  {
    var g := Generator(t);
    var r1 := Shift(t, 0, g[0]);
    var r2 := Shift(t, r1, g[1]);
    var r3 := Shift(t, r2, g[2]);
    var r4 := Shift(t, r3, g[3]);
    var r5 := Shift(t, r4, g[4]);
    assert Shift(t, r5, g[5]) == 0;
    assert g == [g[0]] + ([g[1]] + ([g[2]] + ([g[3]] + ([g[4]] + ([g[5]] + [])))));
    RegisterCons(t, 0, g[0], [g[1]] + ([g[2]] + ([g[3]] + ([g[4]] + ([g[5]] + [])))));
    RegisterCons(t, r1, g[1], [g[2]] + ([g[3]] + ([g[4]] + ([g[5]] + []))));
    RegisterCons(t, r2, g[2], [g[3]] + ([g[4]] + ([g[5]] + [])));
    RegisterCons(t, r3, g[3], [g[4]] + ([g[5]] + []));
    RegisterCons(t, r4, g[4], [g[5]] + []);
    RegisterCons(t, r5, g[5], []);
    RegisterConcat(t, 0, g, Zeros(n));
    ZerosKeep(t, 0, Zeros(n));
  }

  lemma {:induction false} MultiplesVanish(t: Table, q: seq<bool>)
    ensures Register(t, 0, Times(t, q)) == 0
  {
    if |q| == 0 {
      ZerosKeep(t, 0, Zeros(5));
    } else {
      var rest := [false] + Times(t, q[1..]);
      MultiplesVanish(t, q[1..]);
      RegisterCons(t, 0, false, Times(t, q[1..]));
      GeneratorVanishes(t, |q| - 1);
      RegisterLinear(t, 0, 0, Generator(t) + Zeros(|q| - 1), rest);
    }
  }

  /** One step of long division: the leading bit is cleared by a multiple of the generator. */
  function Cleared(t: Table, e: seq<bool>): (d: seq<bool>)
    requires |e| >= 6
    ensures |d| == |e|
  {
    if e[0] then Diff(e, Generator(t) + Zeros(|e| - 6)) else e
  }

  lemma ClearedVanishes(t: Table, e: seq<bool>)
    requires |e| >= 6 && Register(t, 0, e) == 0
    ensures !Cleared(t, e)[0] && Register(t, 0, Cleared(t, e)[1..]) == 0
  {
    hide Register, Xor;
    var g, d := Generator(t) + Zeros(|e| - 6), Cleared(t, e);
    GeneratorVanishes(t, |e| - 6);
    RegisterLinear(t, 0, 0, e, g);
    XorCancels(0, 0);
    assert d == [false] + d[1..];
    RegisterCons(t, 0, false, d[1..]);
    assert Shift(t, 0, false) == 0 by { FoldNothing(0, Poly(t)); }
  }

  lemma TimesCons(t: Table, e: seq<bool>, q: seq<bool>)
    requires |e| >= 6 && !Cleared(t, e)[0] && |q| == |e| - 6 && Times(t, q) == Cleared(t, e)[1..]
    ensures Times(t, [e[0]] + q) == e
  {
    var g, d := Generator(t) + Zeros(|e| - 6), Cleared(t, e);
    assert ([e[0]] + q)[1..] == q && [false] + d[1..] == d;
    if e[0] { assert Diff(g, d) == e; }
  }

  /** Long division: a difference that leaves no register is a multiple of the generator. */
  lemma {:induction false} Divide(t: Table, e: seq<bool>) returns (q: seq<bool>)
    requires |e| >= 5 && Register(t, 0, e) == 0
    ensures |q| == |e| - 5 && Times(t, q) == e
    decreases |e|
  {
    if |e| == 5 {
      if exists j :: 0 <= j < |e| && e[j] { BurstNonzero(t, e, 0); }
      q := [];
      assert e == Zeros(5);
    } else {
      hide Register, Times;
      ClearedVanishes(t, e);
      q := Divide(t, Cleared(t, e)[1..]);
      TimesCons(t, e, q);
      q := [e[0]] + q;
    }
  }

  /** Exactly which errors go undetected: those whose bits, as a polynomial, the generator divides. */
  lemma UndetectedIffDivisible(t: Table, a: seq<bv8>, b: seq<bv8>)
    requires |a| == |b| > 0
    ensures ChecksumOf(a, t) == ChecksumOf(b, t)
            <==> exists q: seq<bool> :: |q| == 8 * |a| - 5 && Times(t, q) == Diff(MessageBits(a), MessageBits(b))
  {
    hide Register, MessageBits, Times;
    var x, y := MessageBits(a), MessageBits(b);
    CollisionIffZero(t, 0x1f, x, y);
    ChecksumsCompare(Register(t, 0x1f, x), Register(t, 0x1f, y));
    if Register(t, 0, Diff(x, y)) == 0 {
      var q := Divide(t, Diff(x, y));
    } else {
      forall q: seq<bool> | |q| == 8 * |a| - 5 ensures Times(t, q) != Diff(x, y) { MultiplesVanish(t, q); }
    }
  }
}
