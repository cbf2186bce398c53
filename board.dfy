/** Pin assignments, opcodes and sizes of the Z80P600 board and its F-RAM chip. */
module Board {
  /** Bit positions on the signal port (PORTE). */
  const Z80_IORQ: nat := 7
  const Z80_MREQ: nat := 6
  const Z80_RFSH: nat := 5
  const Z80_NMI: nat := 4

  /** Bit positions on the strobe port (PORTG). */
  const Z80_RD: nat := 1
  const Z80_WR: nat := 0

  /** Chip-select bit of the SPI port (PORTB). */
  const CS: nat := 0

  /** FM25V05 opcodes. */
  const WRITE_CMD: byte := 2
  const READ_CMD: byte := 3
  const WREN_CMD: byte := 6

  /** Bytes in one F-RAM storage page, and in the whole FM25V05 (64 KiB, 16-bit addresses). */
  const STORAGE_PAGE_SIZE: nat := 256
  const FRAM_SIZE: nat := 0x1_0000

  /** The C integer types, where the model computes on their values. */
  type byte = x: int | 0 <= x < 0x100
  type uint16 = x: int | 0 <= x < 0x1_0000
  type int8 = x: int | -128 <= x < 128
  type uint32 = x: int | 0 <= x < 0x1_0000_0000

  /** The mask `1 << n` of an 8-bit port, as a literal. */
  function Bit(n: nat): bv8
    requires n < 8
  {
    if n == 0 then 0x01 else if n == 1 then 0x02 else if n == 2 then 0x04 else if n == 3 then 0x08
    else if n == 4 then 0x10 else if n == 5 then 0x20 else if n == 6 then 0x40 else 0x80
  }

  lemma BitIsShift(n: nat)
    requires n < 8
    ensures Bit(n) == (1 as bv8) << n
  {
  }

  /** Bit `n` of `v` is set. */
  predicate BitSet(v: bv8, n: nat)
    requires n < 8
  {
    v & Bit(n) != 0
  }
}
