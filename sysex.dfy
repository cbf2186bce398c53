/**
 * The byte-level codecs of the firmware-update SysEx frame: the 6850 ACIA
 * status test of getMidiByte, the 14-bit size and index fields, the
 * 5-for-4 high-bit packing of page data and the 3-byte CRC field.
 */
module Sysex {
  /** What getMidiByte returns: a received byte, or (as the int16_t value -1) an error reported by the ACIA. */
  datatype Rx = Rx(data: bv8) | RxError

  /** The 6850 ACIA status-register bits tested by getMidiByte. */
  const IRQ: bv8 := 0x80
  const OVRN: bv8 := 0x20
  const FE: bv8 := 0x10
  const RDRF: bv8 := 0x01

  /** The status test of getMidiByte: under the mask 0xB1 only IRQ and RDRF may be set. */
  predicate StatusOk(status: bv8) {
    status & 0xB1 == 0x81
  }

  /** A status passes exactly when an interrupt is pending, a byte has been received, and there is neither an overrun nor a framing error. */
  lemma StatusOkMeaning(status: bv8)
    ensures StatusOk(status) <==>
      (status & IRQ != 0 && status & RDRF != 0 && status & OVRN == 0 && status & FE == 0)
  {
  }

  /** getMidiByte after the /NMI wait: the status register decides whether the data register is delivered. */
  function GetMidiByte(status: bv8, data: bv8): (r: Rx)
    ensures r.RxError? <==> !StatusOk(status)
    ensures r.Rx? ==> r.data == data
  {
    if (status & 0xB1) != 0x81 then RxError else Rx(data)
  }

  /** Low seven bits of a data byte, widened to 16 bits. */
  function Low7(b: bv8): bv16 {
    (b & 0x7f) as bv16
  }

  /** The first byte of a 14-bit field, as the loop assigns it: `(b & 0x7f) << 7`. */
  function FieldHigh(b: bv8): bv16 {
    Low7(b) << 7
  }

  /** A 14-bit size or page-index field, assembled as the loop does: high byte first, then `|= b & 0x7f`. */
  function Field14(hi: bv8, lo: bv8): (r: bv16)
    ensures r < 0x4000
    ensures (r >> 7) as bv8 == hi & 0x7f && (r & 0x7f) as bv8 == lo & 0x7f
  {
    FieldHigh(hi) | Low7(lo)
  }

  /** The sender's side: a 14-bit value as two 7-bit data bytes, most significant first. */
  function Split14(v: bv16): (r: (bv8, bv8))
    requires v < 0x4000
    ensures r.0 < 0x80 && r.1 < 0x80
    ensures ((r.0 as bv16) << 7) | (r.1 as bv16) == v
  {
    (((v >> 7) & 0x7f) as bv8, (v & 0x7f) as bv8)
  }

  lemma Field14Split(v: bv16)
    requires v < 0x4000
    ensures Field14(Split14(v).0, Split14(v).1) == v
  {
  }

  lemma SplitField14(hi: bv8, lo: bv8)
    ensures Split14(Field14(hi, lo)) == (hi & 0x7f, lo & 0x7f)
  {
  }

  /** Bit 7 of unpacked byte `k`, taken from bit `k` of the MSB byte as the loop does it: `(b & 1) << 7`, `(b & 2) << 6`, `(b & 4) << 5`, `(b & 8) << 4`. */
  function MsbOf(msbs: bv8, k: nat): bv8
    requires k < 4
  {
    if k == 0 then (msbs & 1) << 7
    else if k == 1 then (msbs & 2) << 6
    else if k == 2 then (msbs & 4) << 5
    else (msbs & 8) << 4
  }

  /** One 5-byte group of page data: four bytes carrying the low seven bits, then one byte whose bit k is bit 7 of byte k. */
  function Unpack(g: seq<bv8>): (r: seq<bv8>)
    requires |g| == 5
    ensures |r| == 4
  {
    [ (g[0] & 0x7f) | MsbOf(g[4], 0),
      (g[1] & 0x7f) | MsbOf(g[4], 1),
      (g[2] & 0x7f) | MsbOf(g[4], 2),
      (g[3] & 0x7f) | MsbOf(g[4], 3) ]
  }

  /** Output byte k of a group is the low seven bits of input byte k with bit k of the MSB byte on top. */
  lemma UnpackBit(g: seq<bv8>, k: nat)
    requires |g| == 5 && k < 4
    ensures Unpack(g)[k] == (g[k] & 0x7f) | (((g[4] >> k) & 1) << 7)
  {
    if k == 0 {} else if k == 1 {} else if k == 2 {} else {}
  }

  /** The bits of a byte that the MSB byte of a group carries: bit 7 of each data byte, byte k at bit k. */
  function Msbs(d: seq<bv8>): (r: bv8)
    requires |d| == 4
    ensures r < 0x10
  {
    (d[0] >> 7) | ((d[1] >> 7) << 1) | ((d[2] >> 7) << 2) | ((d[3] >> 7) << 3)
  }

  /** The sender's side of one group: four bytes as five 7-bit data bytes. */
  function Pack(d: seq<bv8>): (r: seq<bv8>)
    requires |d| == 4
    ensures |r| == 5
    ensures forall k :: 0 <= k < 5 ==> r[k] < 0x80
  {
    [d[0] & 0x7f, d[1] & 0x7f, d[2] & 0x7f, d[3] & 0x7f, Msbs(d)]
  }

  lemma UnpackPackAt(d: seq<bv8>, k: nat)
    requires |d| == 4 && k < 4
    ensures Unpack(Pack(d))[k] == d[k]
  {
    if k == 0 {} else if k == 1 {} else if k == 2 {} else {}
  }

  /** Unpacking a packed group gives the four bytes back. */
  lemma UnpackPack(d: seq<bv8>)
    requires |d| == 4
    ensures Unpack(Pack(d)) == d
  {
    UnpackPackAt(d, 0);
    UnpackPackAt(d, 1);
    UnpackPackAt(d, 2);
    UnpackPackAt(d, 3);
  }

  lemma MsbsOfUnpacked(g: seq<bv8>)
    requires |g| == 5 && g[4] < 0x10
    ensures Msbs(Unpack(g)) == g[4]
  {
  }

  lemma PackUnpackAt(g: seq<bv8>, k: nat)
    requires |g| == 5 && k < 5
    requires k < 4 ==> g[k] < 0x80
    requires g[4] < 0x10
    ensures Pack(Unpack(g))[k] == g[k]
  {
    if k == 0 {} else if k == 1 {} else if k == 2 {} else if k == 3 {} else { MsbsOfUnpacked(g); }
  }

  /** Packing an unpacked group of 7-bit bytes, whose MSB byte uses only its four low bits, gives the group back. */
  lemma PackUnpack(g: seq<bv8>)
    requires |g| == 5
    requires forall k :: 0 <= k < 4 ==> g[k] < 0x80
    requires g[4] < 0x10
    ensures Pack(Unpack(g)) == g
  {
    PackUnpackAt(g, 0);
    PackUnpackAt(g, 1);
    PackUnpackAt(g, 2);
    PackUnpackAt(g, 3);
    PackUnpackAt(g, 4);
  }

  /** A whole page as groups of five 7-bit bytes. */
  function PackAll(d: seq<bv8>): (r: seq<bv8>)
    requires |d| % 4 == 0
    ensures |r| == |d| / 4 * 5
    decreases |d|
  {
    if d == [] then [] else Pack(d[..4]) + PackAll(d[4..])
  }

  /** What the receive loop makes of a sequence of groups. */
  function UnpackAll(g: seq<bv8>): (r: seq<bv8>)
    requires |g| % 5 == 0
    ensures |r| == |g| / 5 * 4
    decreases |g|
  {
    if g == [] then [] else Unpack(g[..5]) + UnpackAll(g[5..])
  }

  lemma {:induction false} UnpackAllPackAll(d: seq<bv8>)
    requires |d| % 4 == 0
    ensures UnpackAll(PackAll(d)) == d
    decreases |d|
  {
    if d != [] {
      var p := PackAll(d);
      assert p[..5] == Pack(d[..4]) && p[5..] == PackAll(d[4..]);
      UnpackPack(d[..4]);
      UnpackAllPackAll(d[4..]);
      assert d == d[..4] + d[4..];
    }
  }

  /** The first CRC byte's part: `(b & 0x7f) << 9`, bits 15..9. */
  function CrcHigh(b: bv8): bv16 {
    Low7(b) << 9
  }

  /** The second CRC byte's part: `(b & 0x7f) << 2`, bits 8..2. */
  function CrcMiddle(b: bv8): bv16 {
    Low7(b) << 2
  }

  /** The third CRC byte's part: `b & 0x03`, bits 1..0. */
  function CrcLow(b: bv8): bv16 {
    (b & 3) as bv16
  }

  /** The CRC field as the loop assembles it: the first part, then `|=` the second, then `|=` the third. */
  function CrcField(b0: bv8, b1: bv8, b2: bv8): bv16 {
    CrcHigh(b0) | CrcMiddle(b1) | CrcLow(b2)
  }

  /** The sender's side: a 16-bit CRC as three 7-bit data bytes carrying bits 15..9, 8..2 and 1..0. */
  function SplitCrc(c: bv16): (r: seq<bv8>)
    ensures |r| == 3 && r[0] < 0x80 && r[1] < 0x80 && r[2] < 4
  {
    [((c >> 9) & 0x7f) as bv8, ((c >> 2) & 0x7f) as bv8, (c & 3) as bv8]
  }

  /** Every 16-bit CRC survives the 3-byte encoding. */
  lemma CrcFieldSplit(c: bv16)
    ensures CrcField(SplitCrc(c)[0], SplitCrc(c)[1], SplitCrc(c)[2]) == c
  {
  }

  /** The field keeps exactly seven, seven and two bits of the three bytes. */
  lemma SplitCrcField(b0: bv8, b1: bv8, b2: bv8)
    ensures SplitCrc(CrcField(b0, b1, b2)) == [b0 & 0x7f, b1 & 0x7f, b2 & 3]
  {
  }
}
