/**
 * The F-RAM self-tests of spi_fram.c: SPI_test_page writes a ramp into one
 * page and counts the bytes that do not read back, SPI_test writes the low
 * address byte into every cell and flags any cell that does not read back.
 * The LED blinking that reports the result is represented by its verdict.
 */
module FramTest {
  import opened Board
  import opened SpiFram

  /** Slow blinking (the test passed) or fast blinking (an error was found). */
  datatype Verdict = Passed | Failed

  /** The page SPI_test_page uses. */
  const TEST_PAGE: byte := 0x10

  /** The ramp SPI_test_page writes: byte i of the page holds i. */
  function Ramp(): (r: seq<byte>)
    ensures |r| == STORAGE_PAGE_SIZE && forall i :: 0 <= i < STORAGE_PAGE_SIZE ==> r[i] == i
  {
    seq(STORAGE_PAGE_SIZE, i requires 0 <= i < STORAGE_PAGE_SIZE => i as byte)
  }

  /** The number of positions i where `s[i] != i`. */
  function Mismatches(s: seq<byte>): nat
    decreases |s|
  {
    if s == [] then 0
    else Mismatches(s[..|s| - 1]) + (if s[|s| - 1] != |s| - 1 then 1 else 0)
  }

  /** No mismatch exactly when the buffer is the ramp. */
  lemma {:induction false} MismatchesZero(s: seq<byte>)
    ensures Mismatches(s) == 0 <==> forall i :: 0 <= i < |s| ==> s[i] == i
    decreases |s|
  {
    if s != [] {
      var t := s[..|s| - 1];
      MismatchesZero(t);
      assert forall i :: 0 <= i < |t| ==> t[i] == s[i];
    }
  }

  /** The count never exceeds the length of the buffer. */
  lemma {:induction false} MismatchesBound(s: seq<byte>)
    ensures Mismatches(s) <= |s|
    decreases |s|
  {
    if s != [] {
      MismatchesBound(s[..|s| - 1]);
    }
  }

  /** A buffer that is wrong everywhere has as many mismatches as bytes. */
  lemma {:induction false} MismatchesAll(s: seq<byte>)
    requires forall i :: 0 <= i < |s| ==> s[i] != i
    ensures Mismatches(s) == |s|
    decreases |s|
  {
    if s != [] {
      var t := s[..|s| - 1];
      assert forall i :: 0 <= i < |t| ==> t[i] == s[i];
      MismatchesAll(t);
    }
  }

  /**
   * The check loop of SPI_test_page as written: `error` is a uint8_t, so
   * `error++` counts modulo 256.
   */
  method CountErrorsAsWritten(buf: array<byte>) returns (error: byte)
    requires buf.Length >= STORAGE_PAGE_SIZE
    ensures error == Mismatches(buf[..STORAGE_PAGE_SIZE]) % 256
  {
    error := 0;
    var i := 0;
    while i < STORAGE_PAGE_SIZE
      invariant 0 <= i <= STORAGE_PAGE_SIZE
      invariant error == Mismatches(buf[..i]) % 256
    {
      assert buf[..i + 1][..i] == buf[..i];
      if buf[i] != i {
        error := (error + 1) % 256;
      }
      i := i + 1;
    }
    assert buf[..i] == buf[..STORAGE_PAGE_SIZE];
  }

  /** The page read back from an F-RAM whose data are one cell off: every byte is wrong. */
  function OffByOne(): (r: seq<byte>)
    ensures |r| == STORAGE_PAGE_SIZE && forall i :: 0 <= i < STORAGE_PAGE_SIZE ==> r[i] == (i + 1) % 256
  {
    seq(STORAGE_PAGE_SIZE, i requires 0 <= i < STORAGE_PAGE_SIZE => ((i + 1) % 256) as byte)
  }

  /** With all 256 bytes wrong the 8-bit count wraps to 0, which SPI_test_page reports as a pass. */
  lemma WrapHidesFailure()
    ensures Mismatches(OffByOne()) == STORAGE_PAGE_SIZE
    ensures Mismatches(OffByOne()) % 256 == 0
  {
    MismatchesAll(OffByOne());
  }

  /** The check loop with a counter wide enough for a whole page. */
  method CountErrors(buf: array<byte>) returns (errors: uint16)
    requires buf.Length >= STORAGE_PAGE_SIZE
    ensures errors == Mismatches(buf[..STORAGE_PAGE_SIZE])
    ensures errors == 0 <==> buf[..STORAGE_PAGE_SIZE] == Ramp()
  {
    errors := 0;
    var i := 0;
    while i < STORAGE_PAGE_SIZE
      invariant 0 <= i <= STORAGE_PAGE_SIZE
      invariant errors == Mismatches(buf[..i])
    {
      assert buf[..i + 1][..i] == buf[..i];
      MismatchesBound(buf[..i]);
      if buf[i] != i {
        errors := errors + 1;
      }
      i := i + 1;
    }
    assert buf[..i] == buf[..STORAGE_PAGE_SIZE];
    MismatchesZero(buf[..STORAGE_PAGE_SIZE]);
  }

  /** The first loop of SPI_test_page: `buf[i] = i`, the uint16_t index truncated to a byte. */
  method FillRamp(buf: array<byte>)
    requires buf.Length == STORAGE_PAGE_SIZE
    modifies buf
    ensures buf[..] == Ramp()
  {
    var i := 0;
    while i < STORAGE_PAGE_SIZE
      invariant 0 <= i <= STORAGE_PAGE_SIZE
      invariant buf[..i] == Ramp()[..i]
    {
      buf[i] := i % 256;
      assert buf[..i + 1] == buf[..i] + [buf[i]];
      i := i + 1;
    }
  }

  /**
   * SPI_test_page: the ramp is written to page 0x10, the buffer cleared, the
   * page read back and checked with the 8-bit counter of the code as written.
   */
  method SpiTestPage(spi: Spi) returns (verdict: Verdict)
    requires spi.Idle()
    modifies spi
    ensures spi.Idle() && spi.portB == old(spi.portB)
    ensures spi.log == old(spi.log) + [WrenTx(), WritePageTx(TEST_PAGE, Ramp()), ReadPageTx(TEST_PAGE)]
    ensures spi.fram.mem == Overwrite(old(spi.fram.mem), PageBase(TEST_PAGE), Ramp()) && !spi.fram.wel
    ensures verdict == Passed
  {
    var buf := new byte[STORAGE_PAGE_SIZE];
    FillRamp(buf);
    assert buf[..STORAGE_PAGE_SIZE] == Ramp();
    spi.SpiWritePage(TEST_PAGE, buf);
    forall k | 0 <= k < buf.Length {
      buf[k] := 0;
    }
    spi.SpiReadPage(TEST_PAGE, buf);
    WritePageSlice(old(spi.fram.mem), TEST_PAGE, Ramp());
    var error := CountErrorsAsWritten(buf);
    MismatchesZero(buf[..STORAGE_PAGE_SIZE]);
    verdict := if error > 0 then Failed else Passed;
  }

  /** The page just written is the data written. */
  lemma WritePageSlice(m: seq<byte>, page: byte, data: seq<byte>)
    requires |m| == FRAM_SIZE && |data| == STORAGE_PAGE_SIZE
    ensures Overwrite(m, PageBase(page), data)[PageBase(page)..PageBase(page) + STORAGE_PAGE_SIZE] == data
  {
  }

  /** The content SPI_test leaves in the F-RAM: every cell holds the low byte of its address. */
  function Pattern(a: nat): byte {
    a % 256
  }

  /** The transactions of the fill loop of SPI_test for the addresses below `n`. */
  function FillLog(n: nat): (r: seq<seq<byte>>)
    requires n <= FRAM_SIZE
    ensures |r| == 2 * n
  {
    if n == 0 then [] else FillLog(n - 1) + [WrenTx(), WriteTx(n - 1, Pattern(n - 1))]
  }

  /** The transactions of the check loop of SPI_test for the addresses below `n`. */
  function CheckLog(n: nat): (r: seq<seq<byte>>)
    requires n <= FRAM_SIZE
    ensures |r| == n
  {
    if n == 0 then [] else CheckLog(n - 1) + [ReadTx(n - 1)]
  }

  /** The fill loop of SPI_test: `SPI_write(i, (uint8_t) (i & 0x00FF))` for every address. */
  method FillAll(spi: Spi)
    requires spi.Idle()
    modifies spi
    ensures spi.Idle() && spi.portB == old(spi.portB) && !spi.fram.wel
    ensures spi.log == old(spi.log) + FillLog(FRAM_SIZE)
    ensures forall a :: 0 <= a < FRAM_SIZE ==> spi.fram.mem[a] == Pattern(a)
  {
    var i := 0;
    while i < FRAM_SIZE
      invariant 0 <= i <= FRAM_SIZE
      invariant spi.Idle() && spi.portB == old(spi.portB) && (i > 0 ==> !spi.fram.wel)
      invariant spi.log == old(spi.log) + FillLog(i)
      invariant forall a :: 0 <= a < i ==> spi.fram.mem[a] == Pattern(a)
    {
      spi.SpiWrite(i, Pattern(i));
      i := i + 1;
    }
  }

  /** The check loop of SPI_test: `error` becomes 1 when a cell does not hold the low byte of its address. */
  method CheckAll(spi: Spi) returns (error: byte)
    requires spi.Idle()
    modifies spi
    ensures spi.Idle() && spi.portB == old(spi.portB) && spi.fram.mem == old(spi.fram.mem)
    ensures spi.fram.wel == old(spi.fram.wel)
    ensures spi.log == old(spi.log) + CheckLog(FRAM_SIZE)
    ensures error == 0 || error == 1
    ensures error == 0 <==> forall a :: 0 <= a < FRAM_SIZE ==> spi.fram.mem[a] == Pattern(a)
  {
    error := 0;
    var i := 0;
    while i < FRAM_SIZE
      invariant 0 <= i <= FRAM_SIZE
      invariant spi.Idle() && spi.portB == old(spi.portB) && spi.fram.mem == old(spi.fram.mem)
      invariant spi.fram.wel == old(spi.fram.wel)
      invariant spi.log == old(spi.log) + CheckLog(i)
      invariant error == 0 || error == 1
      invariant error == 0 <==> forall a :: 0 <= a < i ==> spi.fram.mem[a] == Pattern(a)
    {
      var red := spi.SpiRead(i);
      if red != Pattern(i) {
        error := 1;
      }
      i := i + 1;
    }
  }

  /** SPI_test: fill every cell, read every cell back; on the F-RAM model the check always passes. */
  method SpiTest(spi: Spi) returns (verdict: Verdict)
    requires spi.Idle()
    modifies spi
    ensures spi.Idle() && spi.portB == old(spi.portB) && !spi.fram.wel
    ensures spi.log == old(spi.log) + FillLog(FRAM_SIZE) + CheckLog(FRAM_SIZE)
    ensures forall a :: 0 <= a < FRAM_SIZE ==> spi.fram.mem[a] == Pattern(a)
    ensures verdict == Passed
  {
    FillAll(spi);
    var error := CheckAll(spi);
    verdict := if error == 1 then Failed else Passed;
  }
}
