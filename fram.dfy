/**
 * The SPI driver for the FM25V05 F-RAM (spi_fram.c) and the part of the
 * F-RAM it talks to.
 *
 * The F-RAM is a 64 KiB byte array with a write-enable latch, driven as a
 * state machine by the bytes clocked in while CS (PORTB bit 0) is low: an
 * opcode, for READ and WRITE two address bytes (high byte first), then data.
 * The address counter increments after every data byte and wraps at the top.
 * WREN sets the latch when CS rises, a WRITE clears it when CS rises, and a
 * WRITE stores data bytes only while the latch is set. During a READ the
 * F-RAM shifts out the addressed cell while the next byte is shifted in.
 *
 * The driver side keeps a log of the chip-select-framed transactions it has
 * sent, so that each routine's contract can name the bytes on the wire.
 */
module SpiFram {
  import opened Board

  /** Where the F-RAM is in a transaction. */
  datatype Phase = Standby | Opcode | AddrHigh | AddrLow | Data | Ignored

  /** The F-RAM: its cells, the write-enable latch and the state of the serial interface. */
  datatype Fram = Fram(mem: seq<byte>, wel: bool, phase: Phase, op: byte, addr: nat) {
    predicate Valid() {
      |mem| == FRAM_SIZE && addr < FRAM_SIZE && (phase == AddrLow ==> addr < 256)
    }
  }

  /** The high and low address bytes, as `(uint8_t) ((address & 0xFF00) >> 8)` and `(uint8_t) (address & 0x00FF)`. */
  function Hi(a: uint16): byte {
    a / 256
  }

  function Lo(a: uint16): byte {
    a % 256
  }

  /** The address the F-RAM assembles from the two address bytes the driver sends is the address it was given. */
  lemma AddressOf(a: uint16)
    ensures Hi(a) * 256 + Lo(a) == a
  {
  }

  /** The address counter after one data byte. */
  function Next(a: nat): (r: nat)
    requires a < FRAM_SIZE
    ensures r < FRAM_SIZE && r == (a + 1) % FRAM_SIZE
  {
    if a + 1 == FRAM_SIZE then 0 else a + 1
  }

  /** CS falls: the F-RAM waits for an opcode. */
  function Selected(d: Fram): (r: Fram)
    requires d.Valid()
    ensures r.Valid() && r.mem == d.mem && r.wel == d.wel && r.phase == Opcode
  {
    d.(phase := Opcode)
  }

  /** The byte the F-RAM drives back while the next byte is shifted in; a line nobody drives reads 0xFF. */
  function Out(d: Fram): byte
    requires d.Valid()
  {
    if d.phase == Data && d.op == READ_CMD then d.mem[d.addr] else 0xFF
  }

  /** The F-RAM after byte `b` is shifted in. */
  function Clock(d: Fram, b: byte): (r: Fram)
    requires d.Valid()
    ensures r.Valid() && r.wel == d.wel
  {
    match d.phase
    case Standby => d
    case Opcode =>
      if b == READ_CMD || b == WRITE_CMD then d.(op := b, phase := AddrHigh)
      else d.(op := b, phase := Ignored)
    case AddrHigh => d.(addr := b, phase := AddrLow)
    case AddrLow => d.(addr := d.addr * 256 + b, phase := Data)
    case Data =>
      d.(mem := if d.op == WRITE_CMD && d.wel then d.mem[d.addr := b] else d.mem, addr := Next(d.addr))
    case Ignored => d
  }

  /** CS rises: after WREN the latch is set, after WRITE it is cleared. */
  function Deselected(d: Fram): (r: Fram)
    requires d.Valid()
    ensures r.Valid() && r.mem == d.mem && r.phase == Standby
  {
    if d.phase == Standby || d.phase == Opcode then d.(phase := Standby)
    else if d.op == WREN_CMD then d.(phase := Standby, wel := true)
    else if d.op == WRITE_CMD then d.(phase := Standby, wel := false)
    else d.(phase := Standby)
  }

  /** The F-RAM after the bytes of `t` have been shifted in. */
  function Run(d: Fram, t: seq<byte>): (r: Fram)
    requires d.Valid()
    ensures r.Valid() && r.wel == d.wel
    decreases |t|
  {
    if t == [] then d else Run(Clock(d, t[0]), t[1..])
  }

  /** The bytes the F-RAM shifts back during `t`, one per byte sent. */
  function Replies(d: Fram, t: seq<byte>): (r: seq<byte>)
    requires d.Valid()
    ensures |r| == |t|
    decreases |t|
  {
    if t == [] then [] else [Out(d)] + Replies(Clock(d, t[0]), t[1..])
  }

  /** The F-RAM after a whole transaction framed by CS. */
  function After(d: Fram, t: seq<byte>): (r: Fram)
    requires d.Valid()
    ensures r.Valid() && r.phase == Standby
  {
    Deselected(Run(Selected(d), t))
  }

  lemma {:induction false} RunAppend(d: Fram, a: seq<byte>, b: seq<byte>)
    requires d.Valid()
    ensures Run(d, a + b) == Run(Run(d, a), b)
    decreases |a|
  {
    if a == [] {
      assert a + b == b;
    } else {
      assert (a + b)[1..] == a[1..] + b;
      RunAppend(Clock(d, a[0]), a[1..], b);
    }
  }

  lemma {:induction false} RepliesAppend(d: Fram, a: seq<byte>, b: seq<byte>)
    requires d.Valid()
    ensures Replies(d, a + b) == Replies(d, a) + Replies(Run(d, a), b)
    decreases |a|
  {
    if a == [] {
      assert a + b == b;
    } else {
      assert (a + b)[1..] == a[1..] + b;
      RepliesAppend(Clock(d, a[0]), a[1..], b);
    }
  }

  /** Shifting in one more byte: the F-RAM clocks it, and it answers with its output in the state reached so far. */
  lemma RunSnoc(d: Fram, t: seq<byte>, b: byte)
    requires d.Valid()
    ensures Run(d, t + [b]) == Clock(Run(d, t), b)
    ensures Replies(d, t + [b]) == Replies(d, t) + [Out(Run(d, t))]
  {
    RunAppend(d, t, [b]);
    RepliesAppend(d, t, [b]);
  }

  /** The transactions of the driver routines. */
  function WrenTx(): seq<byte> {
    [WREN_CMD]
  }

  function WriteTx(a: uint16, v: byte): seq<byte> {
    [WRITE_CMD, Hi(a), Lo(a), v]
  }

  function ReadTx(a: uint16): seq<byte> {
    [READ_CMD, Hi(a), Lo(a), 0xFF]
  }

  /** SPI_write_page sends the page number as the address high byte (SPDR takes the low byte of `address`) and 0x00 as the low byte. */
  function WritePageTx(page: byte, data: seq<byte>): seq<byte> {
    [WRITE_CMD, page, 0x00] + data
  }

  function Dummies(n: nat): (r: seq<byte>)
    ensures |r| == n && forall k :: 0 <= k < n ==> r[k] == 0xFF
  {
    seq(n, _ => 0xFF)
  }

  function ReadPageTx(page: byte): seq<byte> {
    [READ_CMD, page, 0x00] + Dummies(STORAGE_PAGE_SIZE)
  }

  /** The first cell of an F-RAM page. */
  function PageBase(page: byte): (b: nat)
    ensures b + STORAGE_PAGE_SIZE <= FRAM_SIZE
  {
    page * STORAGE_PAGE_SIZE
  }

  /** `m` with the cells from `base` on replaced by `d`. */
  function Overwrite(m: seq<byte>, base: nat, d: seq<byte>): (r: seq<byte>)
    requires base + |d| <= |m|
    ensures |r| == |m|
  {
    m[..base] + d + m[base + |d|..]
  }

  /** WREN sets the write-enable latch and changes no cell. */
  lemma WrenEffect(d: Fram)
    requires d.Valid()
    ensures After(d, WrenTx()).mem == d.mem && After(d, WrenTx()).wel
  {
    assert WrenTx()[1..] == [];
  }

  /** The opcode and a 16-bit address put a READ or WRITE into its data phase at that address. */
  lemma HeaderEffect(d: Fram, cmd: byte, hi: byte, lo: byte)
    requires d.Valid() && (cmd == READ_CMD || cmd == WRITE_CMD)
    ensures Run(Selected(d), [cmd, hi, lo])
         == Selected(d).(op := cmd, phase := Data, addr := hi * 256 + lo)
  {
    var s0 := Selected(d);
    var s1 := s0.(op := cmd, phase := AddrHigh);
    var s2 := s1.(addr := hi, phase := AddrLow);
    var s3 := s2.(addr := hi * 256 + lo, phase := Data);
    assert Clock(s0, cmd) == s1 && Clock(s1, hi) == s2 && Clock(s2, lo) == s3;
    assert Run(s2, [lo]) == s3 by { assert [lo][1..] == []; }
    assert Run(s1, [hi, lo]) == s3 by { assert [hi, lo][1..] == [lo]; }
    assert [cmd, hi, lo][1..] == [hi, lo];
  }

  /** A header followed by data bytes: the data are shifted in from the data phase at that address. */
  lemma RunFrame(d: Fram, cmd: byte, hi: byte, lo: byte, data: seq<byte>)
    requires d.Valid() && (cmd == READ_CMD || cmd == WRITE_CMD)
    ensures var s := Selected(d).(op := cmd, phase := Data, addr := hi * 256 + lo);
      Run(Selected(d), [cmd, hi, lo] + data) == Run(s, data) &&
      Replies(Selected(d), [cmd, hi, lo] + data) == Replies(Selected(d), [cmd, hi, lo]) + Replies(s, data)
  {
    HeaderEffect(d, cmd, hi, lo);
    RunAppend(Selected(d), [cmd, hi, lo], data);
    RepliesAppend(Selected(d), [cmd, hi, lo], data);
  }

  lemma OverwriteCons(m: seq<byte>, base: nat, d: seq<byte>)
    requires |d| > 0 && base + |d| <= |m|
    ensures Overwrite(m[base := d[0]], base + 1, d[1..]) == Overwrite(m, base, d)
  {
    assert Overwrite(m[base := d[0]], base + 1, d[1..]) == m[..base] + [d[0]] + d[1..] + m[base + |d|..];
    assert [d[0]] + d[1..] == d;
  }

  /** A write-enabled WRITE in its data phase stores its data bytes at consecutive cells. */
  lemma {:induction false} RunWriteData(d: Fram, data: seq<byte>)
    requires d.Valid() && d.phase == Data && d.op == WRITE_CMD && d.wel
    requires d.addr + |data| <= FRAM_SIZE
    ensures var r := Run(d, data);
      r.mem == Overwrite(d.mem, d.addr, data) && r.phase == Data && r.op == WRITE_CMD
    decreases |data|
  {
    if data == [] {
      assert d.mem[..d.addr] + [] + d.mem[d.addr..] == d.mem;
    } else {
      var c := Clock(d, data[0]);
      assert c.mem == d.mem[d.addr := data[0]];
      if |data| > 1 {
        assert c.addr == d.addr + 1;
        RunWriteData(c, data[1..]);
        OverwriteCons(d.mem, d.addr, data);
      } else {
        assert data[1..] == [];
        assert Overwrite(d.mem, d.addr, data) == d.mem[d.addr := data[0]];
      }
    }
  }

  /** A WRITE of one byte, with the latch set, stores it at the address and leaves the latch cleared. */
  lemma WriteEffect(d: Fram, a: uint16, v: byte)
    requires d.Valid() && d.wel
    ensures After(d, WriteTx(a, v)).mem == d.mem[a := v] && !After(d, WriteTx(a, v)).wel
  {
    AddressOf(a);
    assert WriteTx(a, v) == [WRITE_CMD, Hi(a), Lo(a)] + [v];
    RunFrame(d, WRITE_CMD, Hi(a), Lo(a), [v]);
    var s := Selected(d).(op := WRITE_CMD, phase := Data, addr := a);
    assert [v][1..] == [];
    assert Run(s, [v]) == Clock(s, v);
  }

  /** Without the latch the F-RAM changes no cell, whatever is shifted in. */
  lemma {:induction false} WriteProtected(d: Fram, t: seq<byte>)
    requires d.Valid() && !d.wel
    ensures Run(d, t).mem == d.mem
    decreases |t|
  {
    if t != [] {
      WriteProtected(Clock(d, t[0]), t[1..]);
    }
  }

  /** A READ in its data phase changes no cell and returns consecutive cells. */
  lemma {:induction false} RunReadData(d: Fram, n: nat)
    requires d.Valid() && d.phase == Data && d.op == READ_CMD && d.addr + n <= FRAM_SIZE
    ensures Run(d, Dummies(n)).mem == d.mem && Run(d, Dummies(n)).phase == Data && Run(d, Dummies(n)).op == READ_CMD
    ensures Replies(d, Dummies(n)) == d.mem[d.addr..d.addr + n]
    decreases n
  {
    if n > 0 {
      var c := Clock(d, 0xFF);
      assert Dummies(n)[0] == 0xFF && Dummies(n)[1..] == Dummies(n - 1);
      if n > 1 {
        assert c.addr == d.addr + 1;
        RunReadData(c, n - 1);
        assert d.mem[d.addr..d.addr + n] == [d.mem[d.addr]] + d.mem[d.addr + 1..d.addr + n];
      } else {
        assert Dummies(0) == [];
      }
    }
  }

  /** A READ of one byte changes no cell and returns the addressed cell during its fourth byte. */
  lemma ReadEffect(d: Fram, a: uint16)
    requires d.Valid()
    ensures After(d, ReadTx(a)).mem == d.mem && After(d, ReadTx(a)).wel == d.wel
    ensures Replies(Selected(d), ReadTx(a))[3] == d.mem[a]
  {
    AddressOf(a);
    assert ReadTx(a) == [READ_CMD, Hi(a), Lo(a)] + Dummies(1);
    RunFrame(d, READ_CMD, Hi(a), Lo(a), Dummies(1));
    RunReadData(Selected(d).(op := READ_CMD, phase := Data, addr := a), 1);
  }

  /** Write then read at the same address returns the value written: the property SPI_test checks cell by cell. */
  lemma ReadAfterWrite(d: Fram, a: uint16, v: byte)
    requires d.Valid()
    ensures var w := After(After(d, WrenTx()), WriteTx(a, v));
      Replies(Selected(w), ReadTx(a))[3] == v && w.mem == d.mem[a := v]
  {
    WrenEffect(d);
    WriteEffect(After(d, WrenTx()), a, v);
    ReadEffect(After(After(d, WrenTx()), WriteTx(a, v)), a);
  }

  /** SPI_write_page after SPI_wren stores the page and clears the latch; every other cell keeps its value. */
  lemma WritePageEffect(d: Fram, page: byte, data: seq<byte>)
    requires d.Valid() && |data| == STORAGE_PAGE_SIZE
    ensures var w := After(After(d, WrenTx()), WritePageTx(page, data));
      w.mem == Overwrite(d.mem, PageBase(page), data) && !w.wel &&
      w.mem[PageBase(page)..PageBase(page) + STORAGE_PAGE_SIZE] == data &&
      forall a :: 0 <= a < FRAM_SIZE && !(PageBase(page) <= a < PageBase(page) + STORAGE_PAGE_SIZE) ==>
        w.mem[a] == d.mem[a]
  {
    var e := After(d, WrenTx());
    WrenEffect(d);
    RunFrame(e, WRITE_CMD, page, 0x00, data);
    RunWriteData(Selected(e).(op := WRITE_CMD, phase := Data, addr := PageBase(page)), data);
  }

  /** SPI_read_page changes no cell and returns the page. */
  lemma ReadPageEffect(d: Fram, page: byte)
    requires d.Valid()
    ensures After(d, ReadPageTx(page)).mem == d.mem && After(d, ReadPageTx(page)).wel == d.wel
    ensures Replies(Selected(d), ReadPageTx(page))[3..] == d.mem[PageBase(page)..PageBase(page) + STORAGE_PAGE_SIZE]
  {
    var s := Selected(d).(op := READ_CMD, phase := Data, addr := PageBase(page));
    RunFrame(d, READ_CMD, page, 0x00, Dummies(STORAGE_PAGE_SIZE));
    RunReadData(s, STORAGE_PAGE_SIZE);
    var h := Replies(Selected(d), [READ_CMD, page, 0x00]);
    assert (h + Replies(s, Dummies(STORAGE_PAGE_SIZE)))[3..] == Replies(s, Dummies(STORAGE_PAGE_SIZE));
  }

  /** Page round trip: a page written with SPI_write_page reads back unchanged with SPI_read_page, the check SPI_test_page performs. */
  lemma PageReadAfterWrite(d: Fram, page: byte, data: seq<byte>)
    requires d.Valid() && |data| == STORAGE_PAGE_SIZE
    ensures var w := After(After(d, WrenTx()), WritePageTx(page, data));
      Replies(Selected(w), ReadPageTx(page))[3..] == data
  {
    WritePageEffect(d, page, data);
    ReadPageEffect(After(After(d, WrenTx()), WritePageTx(page, data)), page);
  }

  /** The driver's view of the SPI port and the F-RAM behind it. */
  class Spi {
    var portB: bv8
    var spdr: byte
    var frame: seq<byte>
    var log: seq<seq<byte>>
    var fram: Fram

    /** CS high: no transaction in progress. */
    ghost predicate Idle()
      reads this
    {
      fram.Valid() && fram.phase == Standby && BitSet(portB, CS) && frame == []
    }

    /** CS low: a transaction is in progress and the F-RAM has seen `frame` since CS fell. */
    ghost predicate Busy(start: Fram)
      reads this
    {
      start.Valid() && !BitSet(portB, CS) && fram == Run(Selected(start), frame)
    }

    constructor (port: bv8, f: Fram)
      requires f.Valid() && f.phase == Standby && BitSet(port, CS)
      ensures Idle() && portB == port && fram == f && log == []
    {
      portB, spdr, frame, log, fram := port, 0, [], [], f;
    }

    /** `SPI_PORT &= ~(1 << CS)`: a transaction starts. */
    method Select()
      requires Idle()
      modifies this
      ensures Busy(old(fram)) && frame == [] && fram == Selected(old(fram))
      ensures portB == old(portB) & !Bit(CS) && log == old(log)
    {
      portB := portB & !Bit(CS);
      fram := Selected(fram);
    }

    /** `SPDR = b` and the wait for SPIF: one byte out, one byte back in SPDR. */
    method Transfer(ghost start: Fram, b: byte)
      requires Busy(start)
      modifies this
      ensures Busy(start) && frame == old(frame) + [b]
      ensures spdr == Out(old(fram)) && fram == Clock(old(fram), b)
      ensures portB == old(portB) && log == old(log)
    {
      RunSnoc(Selected(start), frame, b);
      spdr := Out(fram);
      fram := Clock(fram, b);
      frame := frame + [b];
    }

    /** `SPI_PORT |= (1 << CS)`: the transaction ends and is logged. */
    method Deselect(ghost start: Fram)
      requires Busy(start)
      modifies this
      ensures Idle() && log == old(log) + [old(frame)] && fram == After(start, old(frame))
      ensures portB == old(portB) | Bit(CS) && spdr == old(spdr)
    {
      portB := portB | Bit(CS);
      log := log + [frame];
      fram := Deselected(fram);
      frame := [];
    }

    /** SPI_wren: exactly one transaction, the WREN opcode alone. */
    method SpiWren()
      requires Idle()
      modifies this
      ensures Idle() && portB == old(portB)
      ensures log == old(log) + [WrenTx()] && fram == After(old(fram), WrenTx())
      ensures fram.mem == old(fram).mem && fram.wel
    {
      ghost var start := fram;
      Select();
      Transfer(start, WREN_CMD);
      assert frame == WrenTx();
      Deselect(start);
      WrenEffect(start);
    }

    /** SPI_write: WREN, then WRITE with the address high byte first and the data byte. */
    method SpiWrite(address: uint16, data: byte)
      requires Idle()
      modifies this
      ensures Idle() && portB == old(portB)
      ensures log == old(log) + [WrenTx(), WriteTx(address, data)]
      ensures fram == After(After(old(fram), WrenTx()), WriteTx(address, data))
      ensures fram.mem == old(fram).mem[address := data] && !fram.wel
    {
      SpiWren();
      var hi := Hi(address);
      var lo := Lo(address);
      ghost var start := fram;
      Select();
      Transfer(start, WRITE_CMD);
      Transfer(start, hi);
      Transfer(start, lo);
      Transfer(start, data);
      assert frame == WriteTx(address, data);
      Deselect(start);
      WriteEffect(start, address, data);
    }

    /** SPI_read: READ, the address and a dummy byte; the value is what SPDR holds after the dummy byte. */
    method SpiRead(address: uint16) returns (value: byte)
      requires Idle()
      modifies this
      ensures Idle() && portB == old(portB)
      ensures log == old(log) + [ReadTx(address)] && fram == After(old(fram), ReadTx(address))
      ensures fram.mem == old(fram).mem && fram.wel == old(fram).wel
      ensures value == Replies(Selected(old(fram)), ReadTx(address))[3] && value == fram.mem[address]
    {
      var hi := Hi(address);
      var lo := Lo(address);
      ghost var start := fram;
      Select();
      Transfer(start, READ_CMD);
      Transfer(start, hi);
      Transfer(start, lo);
      ghost var sent := frame;
      Transfer(start, 0xFF);
      assert frame == ReadTx(address);
      Deselect(start);
      value := spdr;
      RunSnoc(Selected(start), sent, 0xFF);
      ReadEffect(start, address);
    }

    /** SPI_write_page: WREN, then WRITE, the page number, 0x00 and the STORAGE_PAGE_SIZE bytes of `data`. */
    method SpiWritePage(address: uint16, data: array<byte>)
      requires Idle() && data.Length >= STORAGE_PAGE_SIZE
      modifies this
      ensures Idle() && portB == old(portB)
      ensures log == old(log) + [WrenTx(), WritePageTx(Lo(address), data[..STORAGE_PAGE_SIZE])]
      ensures fram == After(After(old(fram), WrenTx()), WritePageTx(Lo(address), data[..STORAGE_PAGE_SIZE]))
      ensures fram.mem == Overwrite(old(fram).mem, PageBase(Lo(address)), data[..STORAGE_PAGE_SIZE]) && !fram.wel
    {
      SpiWren();
      WritePageFrame(Lo(address), data);
      WritePageEffect(old(fram), Lo(address), data[..STORAGE_PAGE_SIZE]);
    }

    /** The WRITE transaction of SPI_write_page. */
    method WritePageFrame(page: byte, data: array<byte>)
      requires Idle() && data.Length >= STORAGE_PAGE_SIZE
      modifies this
      ensures Idle() && portB == old(portB)
      ensures log == old(log) + [WritePageTx(page, data[..STORAGE_PAGE_SIZE])]
      ensures fram == After(old(fram), WritePageTx(page, data[..STORAGE_PAGE_SIZE]))
    {
      ghost var start := fram;
      Header(WRITE_CMD, page, 0x00);
      var i := 0;
      while i < STORAGE_PAGE_SIZE
        invariant 0 <= i <= STORAGE_PAGE_SIZE
        invariant Busy(start) && portB == old(portB) & !Bit(CS) && log == old(log)
        invariant frame == WritePageTx(page, data[..i])
      {
        WriteStep(start, page, i, data);
        i := i + 1;
      }
      assert data[..i] == data[..STORAGE_PAGE_SIZE];
      Deselect(start);
    }

    /** CS low, then the opcode and the two address bytes. */
    method Header(cmd: byte, hi: byte, lo: byte)
      requires Idle()
      modifies this
      ensures Busy(old(fram)) && frame == [cmd, hi, lo]
      ensures portB == old(portB) & !Bit(CS) && log == old(log)
    {
      ghost var start := fram;
      Select();
      Transfer(start, cmd);
      Transfer(start, hi);
      Transfer(start, lo);
    }

    /** SPI_read_page: READ, the page number, 0x00, then one dummy byte per page byte; `data[i]` is the byte received during dummy byte i. */
    method SpiReadPage(address: uint16, data: array<byte>)
      requires Idle() && data.Length >= STORAGE_PAGE_SIZE
      modifies this, data
      ensures Idle() && portB == old(portB)
      ensures log == old(log) + [ReadPageTx(Lo(address))] && fram == After(old(fram), ReadPageTx(Lo(address)))
      ensures fram.mem == old(fram).mem && fram.wel == old(fram).wel
      ensures data[..STORAGE_PAGE_SIZE] == Replies(Selected(old(fram)), ReadPageTx(Lo(address)))[3..]
      ensures data[..STORAGE_PAGE_SIZE] == fram.mem[PageBase(Lo(address))..PageBase(Lo(address)) + STORAGE_PAGE_SIZE]
      ensures data[STORAGE_PAGE_SIZE..] == old(data[STORAGE_PAGE_SIZE..])
    {
      ghost var start := fram;
      var page := Lo(address);
      Header(READ_CMD, page, 0x00);
      var i := 0;
      while i < STORAGE_PAGE_SIZE
        invariant 0 <= i <= STORAGE_PAGE_SIZE
        invariant Busy(start) && portB == old(portB) & !Bit(CS) && log == old(log)
        invariant frame == [READ_CMD, page, 0x00] + Dummies(i)
        invariant data[..i] == Replies(Selected(start), frame)[3..]
        invariant data[STORAGE_PAGE_SIZE..] == old(data[STORAGE_PAGE_SIZE..])
      {
        ReadStep(start, page, i, data);
        i := i + 1;
      }
      Deselect(start);
      ReadPageEffect(start, page);
    }

    /** One data byte of SPI_write_page. */
    method WriteStep(ghost start: Fram, page: byte, i: nat, data: array<byte>)
      requires i < STORAGE_PAGE_SIZE <= data.Length
      requires Busy(start) && frame == WritePageTx(page, data[..i])
      modifies this
      ensures Busy(start) && frame == WritePageTx(page, data[..i + 1])
      ensures portB == old(portB) && log == old(log)
    {
      Transfer(start, data[i]);
      assert data[..i + 1] == data[..i] + [data[i]];
    }

    /** One dummy byte of SPI_read_page and its store into `data[i]`. */
    method ReadStep(ghost start: Fram, page: byte, i: nat, data: array<byte>)
      requires i < STORAGE_PAGE_SIZE <= data.Length
      requires Busy(start) && frame == [READ_CMD, page, 0x00] + Dummies(i)
      requires data[..i] == Replies(Selected(start), frame)[3..]
      modifies this, data
      ensures Busy(start) && frame == [READ_CMD, page, 0x00] + Dummies(i + 1)
      ensures data[..i + 1] == Replies(Selected(start), frame)[3..]
      ensures data[STORAGE_PAGE_SIZE..] == old(data[STORAGE_PAGE_SIZE..])
      ensures portB == old(portB) && log == old(log)
    {
      ghost var sent := frame;
      RunSnoc(Selected(start), sent, 0xFF);
      Transfer(start, 0xFF);
      data[i] := spdr;
      assert frame == [READ_CMD, page, 0x00] + Dummies(i + 1);
      assert data[..i + 1] == data[..i] + [data[i]];
    }
  }
}
