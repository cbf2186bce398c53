/** CRC-16/XMODEM: polynomial 0x1021, initial value 0, no reflection, no final XOR. */
module Crc16 {
  const POLY: bv16 := 0x1021

  /** One iteration of the shift loop of the byte-wise update. */
  function ShiftStep(c: bv16): bv16 {
    if c & 0x8000 != 0 then (c << 1) ^ POLY else c << 1
  }

  /** `ShiftStep` applied `n` times. */
  function Shifts(c: bv16, n: nat): bv16
    decreases n
  {
    if n == 0 then c else Shifts(ShiftStep(c), n - 1)
  }

  /** The byte-wise update performed by updateCRC: XOR the byte into the high half, then eight shifts. */
  function Update(crc: bv16, data: bv8): bv16 {
    Shifts(crc ^ ((data as bv16) << 8), 8)
  }

  /** The running CRC after feeding `s` into a register holding `crc`. */
  function Crc(crc: bv16, s: seq<bv8>): bv16
    decreases |s|
  {
    if s == [] then crc else Crc(Update(crc, s[0]), s[1..])
  }

  /** Reference definition: the serial shift register clocked with one message bit. */
  function LfsrBit(c: bv16, bit: bool): bv16 {
    if (c & 0x8000 != 0) != bit then (c << 1) ^ POLY else c << 1
  }

  function Lfsr(c: bv16, bits: seq<bool>): bv16
    decreases |bits|
  {
    if bits == [] then c else Lfsr(LfsrBit(c, bits[0]), bits[1..])
  }

  /** The top `n` bits of a byte, most significant first. */
  function BitsOf(b: bv8, n: nat): (r: seq<bool>)
    ensures |r| == n
    decreases n
  {
    if n == 0 then [] else [b & 0x80 != 0] + BitsOf(b << 1, n - 1)
  }

  /** The eight bits of a byte, most significant first. */
  function ByteBits(b: bv8): (r: seq<bool>)
    ensures |r| == 8
  {
    BitsOf(b, 8)
  }

  /** The bits of a message, most significant bit of each byte first. */
  function MessageBits(s: seq<bv8>): (r: seq<bool>)
    ensures |r| == 8 * |s|
    decreases |s|
  {
    if s == [] then [] else ByteBits(s[0]) + MessageBits(s[1..])
  }

  lemma {:induction false} LfsrAppend(c: bv16, a: seq<bool>, b: seq<bool>)
    ensures Lfsr(c, a + b) == Lfsr(Lfsr(c, a), b)
    decreases |a|
  {
    if a == [] {
      assert a + b == b;
    } else {
      assert (a + b)[1..] == a[1..] + b;
      LfsrAppend(LfsrBit(c, a[0]), a[1..], b);
    }
  }

  /** The top bits of `t` as they are shifted out one by one, `n` times. */
  function TopBits(t: bv16, n: nat): (r: seq<bool>)
    ensures |r| == n
    decreases n
  {
    if n == 0 then [] else [t & 0x8000 != 0] + TopBits(t << 1, n - 1)
  }

  /** `t` shifted left `n` times. */
  function ShiftedBy(t: bv16, n: nat): bv16
    decreases n
  {
    if n == 0 then t else ShiftedBy(t << 1, n - 1)
  }

  lemma ShiftXorHighHigh(l: bv16, t: bv16)
    requires l & 0x8000 != 0 && t & 0x8000 != 0
    ensures ShiftStep(l ^ t) == LfsrBit(l, t & 0x8000 != 0) ^ (t << 1)
  {
  }

  lemma ShiftXorHighLow(l: bv16, t: bv16)
    requires l & 0x8000 != 0 && t & 0x8000 == 0
    ensures ShiftStep(l ^ t) == LfsrBit(l, t & 0x8000 != 0) ^ (t << 1)
  {
  }

  lemma ShiftXorLowHigh(l: bv16, t: bv16)
    requires l & 0x8000 == 0 && t & 0x8000 != 0
    ensures ShiftStep(l ^ t) == LfsrBit(l, t & 0x8000 != 0) ^ (t << 1)
  {
  }

  lemma ShiftXorLowLow(l: bv16, t: bv16)
    requires l & 0x8000 == 0 && t & 0x8000 == 0
    ensures ShiftStep(l ^ t) == LfsrBit(l, t & 0x8000 != 0) ^ (t << 1)
  {
  }

  /** One shift of a register holding `l ^ t` is one serial clock of `l` with the top bit of `t`. */
  lemma ShiftXor(l: bv16, t: bv16)
    ensures ShiftStep(l ^ t) == LfsrBit(l, t & 0x8000 != 0) ^ (t << 1)
  {
    if l & 0x8000 != 0 {
      if t & 0x8000 != 0 { ShiftXorHighHigh(l, t); } else { ShiftXorHighLow(l, t); }
    } else {
      if t & 0x8000 != 0 { ShiftXorLowHigh(l, t); } else { ShiftXorLowLow(l, t); }
    }
  }

  /** `n` shifts of a register holding `l ^ t` clock the top `n` bits of `t` serially into `l`. */
  lemma ShiftsOnce(l: bv16, t: bv16, n: nat)
    requires n > 0
    ensures Shifts(l ^ t, n) == Shifts(LfsrBit(l, t & 0x8000 != 0) ^ (t << 1), n - 1)
  {
    ShiftXor(l, t);
  }

  lemma LfsrOnce(l: bv16, t: bv16, n: nat)
    requires n > 0
    ensures Lfsr(l, TopBits(t, n)) == Lfsr(LfsrBit(l, t & 0x8000 != 0), TopBits(t << 1, n - 1))
  {
    var bits := TopBits(t, n);
    assert bits[0] == (t & 0x8000 != 0) && bits[1..] == TopBits(t << 1, n - 1);
  }

  lemma ShiftedOnce(t: bv16, n: nat)
    requires n > 0
    ensures ShiftedBy(t, n) == ShiftedBy(t << 1, n - 1)
  {
  }

  /** `n` shifts of a register holding `l ^ t`, where `t` is shifted out completely, clock the top `n` bits of `t` serially into `l`. */
  lemma {:induction false} ShiftsSerial(l: bv16, t: bv16, n: nat)
    requires ShiftedBy(t, n) == 0
    ensures Shifts(l ^ t, n) == Lfsr(l, TopBits(t, n))
    decreases n
  {
    if n > 0 {
      ShiftsOnce(l, t, n);
      LfsrOnce(l, t, n);
      ShiftedOnce(t, n);
      ShiftsSerial(LfsrBit(l, t & 0x8000 != 0), t << 1, n - 1);
    }
  }

  lemma ShiftedOutByte(d: bv8)
    ensures ShiftedBy((d as bv16) << 8, 8) == 0
  {
    var t0 := (d as bv16) << 8;
    var t1, t2, t3, t4 := t0 << 1, t0 << 2, t0 << 3, t0 << 4;
    var t5, t6, t7, t8 := t0 << 5, t0 << 6, t0 << 7, t0 << 8;
    assert t8 == 0;
    assert ShiftedBy(t8, 0) == 0;
    assert t7 << 1 == t8 && ShiftedBy(t7, 1) == 0;
    assert t6 << 1 == t7 && ShiftedBy(t6, 2) == 0;
    assert t5 << 1 == t6 && ShiftedBy(t5, 3) == 0;
    assert t4 << 1 == t5 && ShiftedBy(t4, 4) == 0;
    assert t3 << 1 == t4 && ShiftedBy(t3, 5) == 0;
    assert t2 << 1 == t3 && ShiftedBy(t2, 6) == 0;
    assert t1 << 1 == t2 && ShiftedBy(t1, 7) == 0;
    assert t0 << 1 == t1;
  }

  lemma WidenByte(d: bv8)
    ensures (((d as bv16) << 8) & 0x8000 != 0) == (d & 0x80 != 0)
    ensures ((d as bv16) << 8) << 1 == ((d << 1) as bv16) << 8
  {
  }

  /** The top bits of a byte placed in the high half of the register are the byte's own bits. */
  lemma {:induction false} TopBitsOfByte(d: bv8, n: nat)
    ensures TopBits((d as bv16) << 8, n) == BitsOf(d, n)
    decreases n
  {
    if n > 0 {
      WidenByte(d);
      TopBitsOfByte(d << 1, n - 1);
    }
  }

  /** One byte: the byte-wise update equals clocking its eight bits through the shift register. */
  lemma UpdateIsSerial(c: bv16, d: bv8)
    ensures Update(c, d) == Lfsr(c, ByteBits(d))
  {
    ShiftedOutByte(d);
    ShiftsSerial(c, (d as bv16) << 8, 8);
    TopBitsOfByte(d, 8);
  }

  /** The CRC over any message equals clocking its bits, MSB first, through the shift register. */
  lemma {:induction false} CrcIsSerial(c: bv16, s: seq<bv8>)
    ensures Crc(c, s) == Lfsr(c, MessageBits(s))
    decreases |s|
  {
    if s != [] {
      UpdateIsSerial(c, s[0]);
      LfsrAppend(c, ByteBits(s[0]), MessageBits(s[1..]));
      CrcIsSerial(Update(c, s[0]), s[1..]);
    }
  }

  lemma {:induction false} CrcAppend(c: bv16, a: seq<bv8>, b: seq<bv8>)
    ensures Crc(c, a + b) == Crc(Crc(c, a), b)
    decreases |a|
  {
    if a == [] {
      assert a + b == b;
    } else {
      assert (a + b)[1..] == a[1..] + b;
      CrcAppend(Update(c, a[0]), a[1..], b);
    }
  }

  /** Feeding one more byte is one more byte-wise update: the running CRC of updateCRC. */
  lemma CrcSnoc(c: bv16, a: seq<bv8>, d: bv8)
    ensures Crc(c, a + [d]) == Update(Crc(c, a), d)
  {
    CrcAppend(c, a, [d]);
    assert [d][1..] == [];
  }

  /** The published check value of CRC-16/XMODEM: the CRC of ASCII "123456789" is 0x31C3. */
  lemma CheckValue()
    ensures Crc(0, [0x31, 0x32, 0x33, 0x34, 0x35, 0x36, 0x37, 0x38, 0x39]) == 0x31C3
  {
    var s: seq<bv8> := [0x31, 0x32, 0x33, 0x34, 0x35, 0x36, 0x37, 0x38, 0x39];
    var c1 := Update(0, 0x31);
    var c2 := Update(c1, 0x32);
    var c3 := Update(c2, 0x33);
    var c4 := Update(c3, 0x34);
    var c5 := Update(c4, 0x35);
    var c6 := Update(c5, 0x36);
    var c7 := Update(c6, 0x37);
    var c8 := Update(c7, 0x38);
    var c9 := Update(c8, 0x39);
    assert Crc(0, s) == c9 by {
      assert Crc(c9, s[9..]) == c9;
      assert Crc(c8, s[8..]) == c9;
      assert Crc(c7, s[7..]) == c9;
      assert Crc(c6, s[6..]) == c9;
      assert Crc(c5, s[5..]) == c9;
      assert Crc(c4, s[4..]) == c9;
      assert Crc(c3, s[3..]) == c9;
      assert Crc(c2, s[2..]) == c9;
      assert Crc(c1, s[1..]) == c9;
      assert s[0..] == s;
    }
  }
}
