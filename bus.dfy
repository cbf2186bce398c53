/**
 * The Z80 bus as the AVR drives it in hardware_write and hardware_read:
 * address on PORTC (high byte) and PORTA (low byte), data on PORTF with its
 * direction in DDRF, /IORQ /MREQ /RFSH on PORTE and /RD /WR on PORTG.
 */
module Bus {
  import opened Board

  /** The two address spaces selected by the `io` argument. */
  const MEMZONE: int8 := 0
  const IOZONE: int8 := 1

  /** A snapshot of the port registers that take part in a bus transaction. */
  datatype Lines = Lines(portE: bv8, portG: bv8, portC: bv8, portA: bv8, portF: bv8, ddrF: bv8)

  /** The address the ports put on the bus. */
  function Address(l: Lines): bv16 {
    ((l.portC as bv16) << 8) | (l.portA as bv16)
  }

  /** A bus cycle as a device decodes it from the lines. */
  datatype Access =
    | MemWrite(addr: bv16, data: bv8)
    | IoWrite(addr: bv16, data: bv8)
    | MemRead(addr: bv16)
    | IoRead(addr: bv16)
    | NoAccess

  /** Device-side decoding: a strobe (/WR or /RD low, the other high) with /RFSH high, in the space whose select line is low. */
  function Observed(l: Lines): (a: Access)
    ensures a.MemWrite? || a.IoWrite? ==> l.ddrF == 0xFF
  {
    var wr := BitSet(l.portG, Z80_WR);
    var rd := BitSet(l.portG, Z80_RD);
    var mreq := BitSet(l.portE, Z80_MREQ);
    var iorq := BitSet(l.portE, Z80_IORQ);
    if !BitSet(l.portE, Z80_RFSH) || wr == rd || mreq == iorq then NoAccess
    else if !wr && l.ddrF == 0xFF then
      (if !mreq then MemWrite(Address(l), l.portF) else IoWrite(Address(l), l.portF))
    else if !rd && l.ddrF == 0 then
      (if !mreq then MemRead(Address(l)) else IoRead(Address(l)))
    else NoAccess
  }

  /** PORTE after the zone switch shared by both transactions; any other `io` leaves it alone. */
  function Zone(e: bv8, io: int8): bv8 {
    if io == MEMZONE then (e | 0x80) & 0xBF
    else if io == IOZONE then (e | 0x40) & 0x7F
    else e
  }

  /** "setIdle(1)" and the data direction: /WR and /RD high, /MREQ high, /RFSH low, /IORQ untouched, DDRF set to `ddr`. */
  function Idle(l: Lines, ddr: bv8): Lines {
    l.(portG := l.portG | 0x03, portE := (l.portE | 0x40) & 0xDF, ddrF := ddr)
  }

  /** The `switch (io)` on the select lines. */
  function Select(l: Lines, io: int8): Lines {
    l.(portE := Zone(l.portE, io))
  }

  /** High address byte on PORTC, low byte on PORTA. */
  function Drive(l: Lines, addr: bv16): Lines {
    l.(portC := ((addr & 0xFF00) >> 8) as bv8, portA := (addr & 0x00FF) as bv8)
  }

  /** /RFSH high, then the strobe on PORTG bit `line` low. */
  function Strobe(l: Lines, line: nat): Lines
    requires line < 8
  {
    l.(portE := l.portE | 0x20, portG := l.portG & !Bit(line))
  }

  /** "setIdle(0)" and the data port driven again: /WR and /RD high, /IORQ high, /RFSH low, /MREQ untouched, DDRF = 0xFF. */
  function Release(l: Lines): Lines {
    l.(portG := l.portG | 0x03, portE := (l.portE | 0x80) & 0xDF, ddrF := 0xFF)
  }

  /** The lines at the end of hardware_write, which leaves the /WR strobe low. */
  function WriteStrobe(l: Lines, io: int8, addr: bv16, data: bv8): (r: Lines)
    ensures !BitSet(r.portG, Z80_WR) && BitSet(r.portG, Z80_RD) && BitSet(r.portE, Z80_RFSH)
    ensures r.ddrF == 0xFF && r.portF == data && Address(r) == addr
    ensures io == MEMZONE ==> !BitSet(r.portE, Z80_MREQ) && BitSet(r.portE, Z80_IORQ)
    ensures io == IOZONE ==> BitSet(r.portE, Z80_MREQ) && !BitSet(r.portE, Z80_IORQ)
    ensures io != MEMZONE && io != IOZONE ==>
      BitSet(r.portE, Z80_MREQ) && BitSet(r.portE, Z80_IORQ) == BitSet(l.portE, Z80_IORQ)
    ensures r.portE & 0x1F == l.portE & 0x1F && r.portG & 0xFC == l.portG & 0xFC
  {
    Strobe(Drive(Select(Idle(l, 0xFF), io).(portF := data), addr), Z80_WR)
  }

  /** A write to either zone is decoded by the device as that write. */
  lemma WriteObserved(l: Lines, io: int8, addr: bv16, data: bv8)
    requires io == MEMZONE || io == IOZONE
    ensures Observed(WriteStrobe(l, io, addr, data))
         == if io == MEMZONE then MemWrite(addr, data) else IoWrite(addr, data)
  {
  }

  /** The lines at the moment hardware_read samples DATA_PINS. */
  function ReadSample(l: Lines, io: int8, addr: bv16): (r: Lines)
    ensures BitSet(r.portG, Z80_WR) && !BitSet(r.portG, Z80_RD) && BitSet(r.portE, Z80_RFSH)
    ensures r.ddrF == 0 && r.portF == l.portF && Address(r) == addr
    ensures io == MEMZONE ==> !BitSet(r.portE, Z80_MREQ) && BitSet(r.portE, Z80_IORQ)
    ensures io == IOZONE ==> BitSet(r.portE, Z80_MREQ) && !BitSet(r.portE, Z80_IORQ)
    ensures io != MEMZONE && io != IOZONE ==>
      BitSet(r.portE, Z80_MREQ) && BitSet(r.portE, Z80_IORQ) == BitSet(l.portE, Z80_IORQ)
    ensures r.portE & 0x1F == l.portE & 0x1F && r.portG & 0xFC == l.portG & 0xFC
  {
    Strobe(Drive(Select(Idle(l, 0), io), addr), Z80_RD)
  }

  /** A read from either zone is decoded by the device as that read while the data is sampled. */
  lemma ReadObserved(l: Lines, io: int8, addr: bv16)
    requires io == MEMZONE || io == IOZONE
    ensures Observed(ReadSample(l, io, addr))
         == if io == MEMZONE then MemRead(addr) else IoRead(addr)
  {
  }

  /** The lines when hardware_read returns. */
  function ReadEnd(l: Lines, io: int8, addr: bv16): Lines {
    Release(ReadSample(l, io, addr))
  }

  /** After a read both strobes are high, /RFSH is low, /IORQ is high and the data port is driven again. */
  lemma ReadEndStrobes(l: Lines, io: int8, addr: bv16)
    ensures var r := ReadEnd(l, io, addr);
      BitSet(r.portG, Z80_WR) && BitSet(r.portG, Z80_RD) &&
      !BitSet(r.portE, Z80_RFSH) && BitSet(r.portE, Z80_IORQ) && r.ddrF == 0xFF
  {
  }

  /** /MREQ keeps the value the zone switch gave it: low exactly for a memory read. */
  lemma ReadEndZone(l: Lines, io: int8, addr: bv16)
    ensures BitSet(ReadEnd(l, io, addr).portE, Z80_MREQ) == (io != MEMZONE)
  {
  }

  /** The address stays on the bus, PORTF is untouched, and the bits of PORTE and PORTG outside the bus lines keep their values. */
  lemma ReadEndKeeps(l: Lines, io: int8, addr: bv16)
    ensures var r := ReadEnd(l, io, addr);
      r.portF == l.portF && Address(r) == addr &&
      r.portE & 0x1F == l.portE & 0x1F && r.portG & 0xFC == l.portG & 0xFC
  {
  }

  /** After a read no device sees a bus cycle. */
  lemma ReadEndIdle(l: Lines, io: int8, addr: bv16)
    ensures Observed(ReadEnd(l, io, addr)) == NoAccess
  {
  }

  /** hardware_getNMIState: 1 while the /NMI input (bit 4 of PINE) is low. */
  function NmiState(pinE: bv8): (r: int8)
    ensures r == 0 || r == 1
    ensures r == 1 <==> !BitSet(pinE, Z80_NMI)
  {
    if pinE & Bit(Z80_NMI) != 0 then 0 else 1
  }

  /** The six port registers of the AVR that drive the Z80 bus. */
  class Ports {
    var portE: bv8
    var portG: bv8
    var portC: bv8
    var portA: bv8
    var portF: bv8
    var ddrF: bv8

    function Snapshot(): Lines
      reads this
    {
      Lines(portE, portG, portC, portA, portF, ddrF)
    }

    constructor (init: Lines)
      ensures Snapshot() == init
    {
      portE, portG, portC, portA, portF, ddrF :=
        init.portE, init.portG, init.portC, init.portA, init.portF, init.ddrF;
    }

    /** `setIdle(1)` followed by the data-direction assignment. */
    method SetIdle(ddr: bv8)
      modifies this
      ensures Snapshot() == Idle(old(Snapshot()), ddr)
    {
      portG := portG | Bit(Z80_WR) | Bit(Z80_RD);
      portE := (portE | Bit(Z80_MREQ)) & !Bit(Z80_RFSH);
      ddrF := ddr;
    }

    method SelectZone(io: int8)
      modifies this
      ensures Snapshot() == Select(old(Snapshot()), io)
    {
      if io == MEMZONE {
        portE := (portE | Bit(Z80_IORQ)) & !Bit(Z80_MREQ);
      } else if io == IOZONE {
        portE := (portE | Bit(Z80_MREQ)) & !Bit(Z80_IORQ);
      }
    }

    method DriveAddress(addr: bv16)
      modifies this
      ensures Snapshot() == Drive(old(Snapshot()), addr)
    {
      portC := ((addr & 0xFF00) >> 8) as bv8;
      portA := (addr & 0x00FF) as bv8;
    }

    method StrobeLow(line: nat)
      requires line < 8
      modifies this
      ensures Snapshot() == Strobe(old(Snapshot()), line)
    {
      portE := portE | Bit(Z80_RFSH);
      portG := portG & !Bit(line);
    }

    /** `setIdle(0)` followed by `DATA_DDR = 0xFF`. */
    method SetRelease()
      modifies this
      ensures Snapshot() == Release(old(Snapshot()))
    {
      portG := portG | Bit(Z80_WR) | Bit(Z80_RD);
      portE := (portE | Bit(Z80_IORQ)) & !Bit(Z80_RFSH);
      ddrF := 0xFF;
    }

    /** hardware_write: the cycle ends with /WR held low. */
    method HardwareWrite(io: int8, addr: bv16, data: bv8)
      modifies this
      ensures Snapshot() == WriteStrobe(old(Snapshot()), io, addr, data)
      ensures io == MEMZONE || io == IOZONE ==>
        Observed(Snapshot()) == if io == MEMZONE then MemWrite(addr, data) else IoWrite(addr, data)
    {
      SetIdle(0xFF);
      SelectZone(io);
      portF := data;
      DriveAddress(addr);
      StrobeLow(Z80_WR);
      if io == MEMZONE || io == IOZONE {
        WriteObserved(old(Snapshot()), io, addr, data);
      }
    }

    /** hardware_read: `pins` gives the value on PINF for the lines driven at the moment of sampling. */
    method HardwareRead(io: int8, addr: bv16, pins: Lines -> bv8) returns (value: bv8)
      modifies this
      ensures value == pins(ReadSample(old(Snapshot()), io, addr))
      ensures Snapshot() == ReadEnd(old(Snapshot()), io, addr)
    {
      SetIdle(0x00);
      SelectZone(io);
      DriveAddress(addr);
      StrobeLow(Z80_RD);
      value := pins(Snapshot());
      SetRelease();
    }
  }
}
