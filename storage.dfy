/**
 * storage_write and storage_read: the page routines of the F-RAM driver
 * behind a bounds check on the page index. STORAGE_SIZE is not fixed by the
 * firmware shown, so it is a parameter `storageSize` of every member.
 */
module Storage {
  import opened Board
  import opened SpiFram

  /** STORAGE_SIZE / STORAGE_PAGE_SIZE: the number of pages the wrappers accept. */
  function PageCount(storageSize: nat): nat {
    storageSize / STORAGE_PAGE_SIZE
  }

  /** The wrappers act exactly when the page index is below the page count. */
  predicate InRange(storageSize: nat, pageIdx: uint32) {
    pageIdx < PageCount(storageSize)
  }

  /** The uint16_t address the uint32_t page index becomes when it is passed to the page routines. */
  function Address(pageIdx: uint32): uint16 {
    pageIdx % 0x1_0000
  }

  /** The page byte on the wire: the page routines assign their 16-bit address to the 8-bit SPDR. */
  function PageByte(pageIdx: uint32): byte {
    Lo(Address(pageIdx))
  }

  /** The page byte is the page index modulo 256, so any page index of a storage that fits the F-RAM goes out unchanged. */
  lemma PageByteOf(storageSize: nat, pageIdx: uint32)
    ensures PageByte(pageIdx) == pageIdx % 256
    ensures storageSize <= FRAM_SIZE && InRange(storageSize, pageIdx) ==> PageByte(pageIdx) == pageIdx
  {
    var q := pageIdx / 0x1_0000;
    assert pageIdx == q * 0x1_0000 + Address(pageIdx);
    assert pageIdx == (q * 256 + Address(pageIdx) / 256) * 256 + Address(pageIdx) % 256;
  }

  /** The transactions storage_write puts on the SPI bus. */
  function WriteLog(storageSize: nat, pageIdx: uint32, data: seq<byte>): (r: seq<seq<byte>>)
    ensures |r| == if InRange(storageSize, pageIdx) then 2 else 0
  {
    if InRange(storageSize, pageIdx) then [WrenTx(), WritePageTx(PageByte(pageIdx), data)] else []
  }

  /** The transactions storage_read puts on the SPI bus. */
  function ReadLog(storageSize: nat, pageIdx: uint32): (r: seq<seq<byte>>)
    ensures |r| == if InRange(storageSize, pageIdx) then 1 else 0
  {
    if InRange(storageSize, pageIdx) then [ReadPageTx(PageByte(pageIdx))] else []
  }

  /** The F-RAM after storage_write. */
  function Stored(d: Fram, storageSize: nat, pageIdx: uint32, data: seq<byte>): (r: Fram)
    requires d.Valid()
    ensures r.Valid()
  {
    if InRange(storageSize, pageIdx) then After(After(d, WrenTx()), WritePageTx(PageByte(pageIdx), data)) else d
  }

  /** The F-RAM after storage_read. */
  function Fetched(d: Fram, storageSize: nat, pageIdx: uint32): (r: Fram)
    requires d.Valid()
    ensures r.Valid()
  {
    if InRange(storageSize, pageIdx) then After(d, ReadPageTx(PageByte(pageIdx))) else d
  }

  /** The caller's buffer `out` after storage_read: the first page-size bytes are the replies to the dummies. */
  function Loaded(d: Fram, storageSize: nat, pageIdx: uint32, out: seq<byte>): (r: seq<byte>)
    requires d.Valid() && |out| >= STORAGE_PAGE_SIZE
    ensures |r| == |out|
  {
    if InRange(storageSize, pageIdx) then
      Replies(Selected(d), ReadPageTx(PageByte(pageIdx)))[3..] + out[STORAGE_PAGE_SIZE..]
    else out
  }

  /** A read changes no cell and leaves the write latch alone. */
  lemma FetchedKeeps(d: Fram, storageSize: nat, pageIdx: uint32)
    requires d.Valid()
    ensures Fetched(d, storageSize, pageIdx).mem == d.mem && Fetched(d, storageSize, pageIdx).wel == d.wel
  {
    if InRange(storageSize, pageIdx) {
      ReadPageEffect(d, PageByte(pageIdx));
    }
  }

  /** The page storage_read delivers is the content of that page of the F-RAM. */
  lemma LoadedPage(d: Fram, storageSize: nat, pageIdx: uint32, out: seq<byte>)
    requires d.Valid() && |out| >= STORAGE_PAGE_SIZE
    ensures var p := PageBase(PageByte(pageIdx));
      Loaded(d, storageSize, pageIdx, out)[..STORAGE_PAGE_SIZE] ==
        if InRange(storageSize, pageIdx) then d.mem[p..p + STORAGE_PAGE_SIZE] else out[..STORAGE_PAGE_SIZE]
    ensures Loaded(d, storageSize, pageIdx, out)[STORAGE_PAGE_SIZE..] == out[STORAGE_PAGE_SIZE..]
  {
    if InRange(storageSize, pageIdx) {
      ReadPageEffect(d, PageByte(pageIdx));
    }
  }

  /** Round trip: a page stored in range reads back as written; out of range both calls are no-ops. */
  lemma StoreLoad(d: Fram, storageSize: nat, pageIdx: uint32, data: seq<byte>, out: seq<byte>)
    requires d.Valid() && |data| == STORAGE_PAGE_SIZE && |out| >= STORAGE_PAGE_SIZE
    ensures InRange(storageSize, pageIdx) ==>
      Loaded(Stored(d, storageSize, pageIdx, data), storageSize, pageIdx, out)[..STORAGE_PAGE_SIZE] == data
    ensures !InRange(storageSize, pageIdx) ==>
      Stored(d, storageSize, pageIdx, data) == d && Loaded(d, storageSize, pageIdx, out) == out
  {
    if InRange(storageSize, pageIdx) {
      PageReadAfterWrite(d, PageByte(pageIdx), data);
    }
  }

  /** Two different page indexes of a storage that fits the F-RAM cover disjoint cells. */
  lemma PagesDisjoint(storageSize: nat, p: uint32, q: uint32, a: nat)
    requires storageSize <= FRAM_SIZE && InRange(storageSize, p) && InRange(storageSize, q) && p != q
    requires PageBase(PageByte(q)) <= a < PageBase(PageByte(q)) + STORAGE_PAGE_SIZE
    ensures !(PageBase(PageByte(p)) <= a < PageBase(PageByte(p)) + STORAGE_PAGE_SIZE)
  {
    PageByteOf(storageSize, p);
    PageByteOf(storageSize, q);
    if p < q {
      assert (p + 1) * 256 <= q * 256;
    } else {
      assert (q + 1) * 256 <= p * 256;
    }
  }

  /** Storing one page of a storage that fits the F-RAM leaves what every other page reads back unchanged. */
  lemma StoreOtherPage(d: Fram, storageSize: nat, p: uint32, q: uint32, data: seq<byte>, out: seq<byte>)
    requires d.Valid() && |data| == STORAGE_PAGE_SIZE && |out| >= STORAGE_PAGE_SIZE
    requires storageSize <= FRAM_SIZE && p != q
    ensures Loaded(Stored(d, storageSize, p, data), storageSize, q, out) == Loaded(d, storageSize, q, out)
  {
    if InRange(storageSize, p) && InRange(storageSize, q) {
      var w := Stored(d, storageSize, p, data);
      WritePageEffect(d, PageByte(p), data);
      ReadPageEffect(w, PageByte(q));
      ReadPageEffect(d, PageByte(q));
      var b := PageBase(PageByte(q));
      forall a | b <= a < b + STORAGE_PAGE_SIZE
        ensures w.mem[a] == d.mem[a]
      {
        PagesDisjoint(storageSize, p, q, a);
      }
      assert w.mem[b..b + STORAGE_PAGE_SIZE] == d.mem[b..b + STORAGE_PAGE_SIZE];
    }
  }

  /** storage_write: SPI_write_page for an index below the page count; otherwise nothing happens. */
  method StorageWrite(spi: Spi, storageSize: nat, pageIdx: uint32, buf: array<byte>)
    requires spi.Idle() && buf.Length >= STORAGE_PAGE_SIZE
    modifies spi
    ensures spi.Idle() && spi.portB == old(spi.portB)
    ensures spi.log == old(spi.log) + WriteLog(storageSize, pageIdx, buf[..STORAGE_PAGE_SIZE])
    ensures spi.fram == Stored(old(spi.fram), storageSize, pageIdx, buf[..STORAGE_PAGE_SIZE])
    ensures !InRange(storageSize, pageIdx) ==> unchanged(spi)
  {
    if pageIdx < storageSize / STORAGE_PAGE_SIZE {
      spi.SpiWritePage(Address(pageIdx), buf);
    }
  }

  /** storage_read: SPI_read_page for an index below the page count; otherwise neither the F-RAM nor the buffer changes. */
  method StorageRead(spi: Spi, storageSize: nat, pageIdx: uint32, buf: array<byte>)
    requires spi.Idle() && buf.Length >= STORAGE_PAGE_SIZE
    modifies spi, buf
    ensures spi.Idle() && spi.portB == old(spi.portB)
    ensures spi.log == old(spi.log) + ReadLog(storageSize, pageIdx)
    ensures spi.fram == Fetched(old(spi.fram), storageSize, pageIdx)
    ensures buf[..] == Loaded(old(spi.fram), storageSize, pageIdx, old(buf[..]))
    ensures !InRange(storageSize, pageIdx) ==> unchanged(spi) && unchanged(buf)
  {
    if pageIdx < storageSize / STORAGE_PAGE_SIZE {
      spi.SpiReadPage(Address(pageIdx), buf);
      assert buf[..] == buf[..STORAGE_PAGE_SIZE] + buf[STORAGE_PAGE_SIZE..];
    }
  }
}
