/**
 * Self-programming of the AVR flash as boot_program_page uses it: erase the
 * page, fill the temporary page buffer with little-endian words, write the
 * buffer into the page, re-enable the RWW section, restore SREG.
 *
 * The flash is a sequence of 16-bit words indexed by word address. The
 * avr-libc primitives are modelled by their documented effect: the page
 * buffer slot of a fill is given by the low address bits, a page operation
 * acts on the page that holds its address, and programming can only clear
 * bits (so the page must have been erased first).
 */
module Flash {
  import opened Board

  /** SPM_PAGESIZE and the size of the flash, in bytes. */
  datatype Geometry = Geometry(pageBytes: nat, flashBytes: nat) {
    predicate Valid() {
      pageBytes >= 2 && pageBytes % 2 == 0 && flashBytes > 0 &&
      0x1_0000_0000 % pageBytes == 0
    }
  }

  /** The value of the erased flash and of an untouched page-buffer word. */
  const ERASED: bv16 := 0xFFFF

  /** The word boot_program_page builds from bytes i and i+1: `w = *buf++; w += (*buf++) << 8`. */
  function Word(b: seq<bv8>, i: nat): (r: bv16)
    requires i + 1 < |b|
    ensures (r & 0xFF) as bv8 == b[i] && (r >> 8) as bv8 == b[i + 1]
  {
    (b[i] as bv16) + ((b[i + 1] as bv16) << 8)
  }

  /** The page-buffer slot a fill at byte address `addr` goes to. */
  function Slot(g: Geometry, addr: nat): (s: nat)
    requires g.Valid()
    ensures s < g.pageBytes / 2
  {
    (addr % g.pageBytes) / 2
  }

  /** Word `k` of the flash lies in the page that a page operation at byte address `addr` acts on. */
  predicate InPage(g: Geometry, addr: nat, k: nat)
    requires g.Valid()
  {
    (2 * k) / g.pageBytes == (addr % g.flashBytes) / g.pageBytes
  }

  /** The slot of the page buffer that page word `k` is programmed from. */
  function WordSlot(g: Geometry, k: nat): nat
    requires g.Valid()
  {
    Slot(g, 2 * k)
  }

  /** The byte offset into the caller's buffer whose word a fill loop starting at `page` puts into slot `s`. */
  function Source(g: Geometry, page: nat, s: nat): (i: nat)
    requires g.Valid() && s < g.pageBytes / 2
    ensures i % 2 == 0 && i < g.pageBytes
  {
    var o := page % g.pageBytes;
    var d := 2 * s - (o - o % 2);
    if d >= 0 then d else d + g.pageBytes
  }

  function Blank(n: nat): (r: seq<bv16>)
    ensures |r| == n && forall s :: 0 <= s < n ==> r[s] == ERASED
  {
    seq(n, _ => ERASED)
  }

  /** The flash after erasing the page that holds `addr`. */
  function Erased(g: Geometry, w: seq<bv16>, addr: nat): (r: seq<bv16>)
    requires g.Valid()
    ensures |r| == |w|
  {
    seq(|w|, k requires 0 <= k < |w| => if InPage(g, addr, k) then ERASED else w[k])
  }

  /** The flash after writing the page buffer into the page that holds `addr`: programming only clears bits. */
  function Written(g: Geometry, w: seq<bv16>, buffer: seq<bv16>, addr: nat): (r: seq<bv16>)
    requires g.Valid() && |buffer| == g.pageBytes / 2
    ensures |r| == |w|
  {
    seq(|w|, k requires 0 <= k < |w| =>
      if InPage(g, addr, k) then w[k] & buffer[WordSlot(g, k)] else w[k])
  }

  /** The flash after boot_program_page(page, b): every word of the target page holds the word of `b` filled into its slot. */
  function Programmed(g: Geometry, w: seq<bv16>, page: nat, b: seq<bv8>): (r: seq<bv16>)
    requires g.Valid() && |b| >= g.pageBytes
    ensures |r| == |w|
  {
    seq(|w|, k requires 0 <= k < |w| =>
      if InPage(g, page, k) then Word(b, Source(g, page, WordSlot(g, k))) else w[k])
  }

  lemma {:induction false} MulAtLeast(a: int, p: int)
    requires a >= 1 && p > 0
    ensures a * p >= p
    decreases a
  {
    if a > 1 {
      MulAtLeast(a - 1, p);
      assert a * p == (a - 1) * p + p;
    }
  }

  /** Quotient and remainder are unique. */
  lemma DivModUnique(x: int, q: int, r: int, p: int)
    requires p > 0 && 0 <= r < p && x == q * p + r
    ensures x % p == r && x / p == q
  {
    var q0, r0 := x / p, x % p;
    assert (q - q0) * p == r0 - r;
    if q > q0 {
      MulAtLeast(q - q0, p);
    } else if q < q0 {
      MulAtLeast(q0 - q, p);
    }
  }

  /** Reducing modulo 2^32 first does not change the remainder by a page size that divides 2^32. */
  lemma ModWrap(g: Geometry, x: nat)
    requires g.Valid()
    ensures (x % 0x1_0000_0000) % g.pageBytes == x % g.pageBytes
  {
    var p := g.pageBytes;
    var m := 0x1_0000_0000 / p;
    assert m * p == 0x1_0000_0000;
    var a, r := x / 0x1_0000_0000, x % 0x1_0000_0000;
    assert x == a * (m * p) + r;
    assert a * (m * p) == (a * m) * p;
    assert r == (r / p) * p + r % p;
    assert x == (a * m + r / p) * p + r % p;
    DivModUnique(x, a * m + r / p, r % p, p);
  }

  /** Adding less than `p` moves the remainder by that much, wrapping at most once. */
  lemma ModAdd(x: nat, i: nat, p: nat)
    requires p > 0 && i < p
    ensures (x + i) % p == if x % p + i < p then x % p + i else x % p + i - p
  {
    var q, o := x / p, x % p;
    assert x == q * p + o;
    if o + i < p {
      DivModUnique(x + i, q, o + i, p);
    } else {
      assert x + i == (q + 1) * p + (o + i - p);
      DivModUnique(x + i, q + 1, o + i - p, p);
    }
  }

  /** The fill of byte offset `Source(s)` goes into slot `s`. */
  lemma SlotOfSource(g: Geometry, page: nat, s: nat)
    requires g.Valid() && s < g.pageBytes / 2
    ensures Slot(g, page + Source(g, page, s)) == s
  {
    ModAdd(page, Source(g, page, s), g.pageBytes);
  }

  /** Slot `Slot(page + i)` is filled from byte offset `i`: the fill loop hits every slot exactly once. */
  lemma SourceOfSlot(g: Geometry, page: nat, i: nat)
    requires g.Valid() && i % 2 == 0 && i < g.pageBytes
    ensures Source(g, page, Slot(g, page + i)) == i
  {
    var p, o := g.pageBytes, page % g.pageBytes;
    ModAdd(page, i, p);
    HalfOffset(o, i, p);
  }

  lemma HalfOffset(o: nat, i: nat, p: nat)
    requires o < p && p % 2 == 0 && i % 2 == 0 && i < p
    ensures var d := 2 * ((if o + i < p then o + i else o + i - p) / 2) - (o - o % 2);
      (if d >= 0 then d else d + p) == i
  {
  }

  /** For a page-aligned address inside the flash, word `(page + i) / 2` holds bytes i and i+1 of the buffer. */
  lemma ProgrammedAligned(g: Geometry, w: seq<bv16>, page: nat, b: seq<bv8>, i: nat)
    requires g.Valid() && |b| >= g.pageBytes && |w| == g.flashBytes / 2
    requires page % g.pageBytes == 0 && page + g.pageBytes <= g.flashBytes
    requires i % 2 == 0 && i < g.pageBytes
    ensures (page + i) / 2 < |w|
    ensures Programmed(g, w, page, b)[(page + i) / 2] == Word(b, i)
  {
    var p := g.pageBytes;
    var q := page / p;
    assert page == q * p;
    assert page % 2 == 0 by {
      assert page == (q * (p / 2)) * 2;
    }
    var k := (page + i) / 2;
    assert 2 * k == page + i;
    DivModUnique(page, 0, page, g.flashBytes);
    DivModUnique(page + i, q, i, p);
    assert InPage(g, page, k);
    assert WordSlot(g, k) == i / 2;
  }

  /** Every slot whose source offset is below `i` already holds its word. */
  predicate FilledBelow(g: Geometry, page: nat, b: seq<bv8>, buffer: seq<bv16>, i: nat)
    requires g.Valid() && |b| >= g.pageBytes && |buffer| == g.pageBytes / 2
  {
    forall s :: 0 <= s < |buffer| && Source(g, page, s) < i ==> buffer[s] == Word(b, Source(g, page, s))
  }

  /** One iteration of the fill loop extends the filled part by the word at offset `i`. */
  lemma FillStep(g: Geometry, page: nat, b: seq<bv8>, buffer: seq<bv16>, i: nat)
    requires g.Valid() && |b| >= g.pageBytes && |buffer| == g.pageBytes / 2
    requires i % 2 == 0 && i < g.pageBytes
    requires FilledBelow(g, page, b, buffer, i)
    ensures FilledBelow(g, page, b, buffer[Slot(g, page + i) := Word(b, i)], i + 2)
  {
    var t := Slot(g, page + i);
    var after := buffer[t := Word(b, i)];
    SourceOfSlot(g, page, i);
    forall s | 0 <= s < |after| && Source(g, page, s) < i + 2
      ensures after[s] == Word(b, Source(g, page, s))
    {
      if s != t {
        SlotOfSource(g, page, s);
      }
    }
  }

  /** boot_program_page only writes the page that holds its address. */
  lemma ProgrammedOtherPages(g: Geometry, w: seq<bv16>, page: nat, b: seq<bv8>, k: nat)
    requires g.Valid() && |b| >= g.pageBytes && k < |w|
    requires !InPage(g, page, k)
    ensures Programmed(g, w, page, b)[k] == w[k]
  {
  }

  /** Writing a fully filled buffer into an erased page gives the programmed page. */
  lemma EraseFillWrite(g: Geometry, w: seq<bv16>, page: nat, b: seq<bv8>, buffer: seq<bv16>)
    requires g.Valid() && |b| >= g.pageBytes && |buffer| == g.pageBytes / 2
    requires FilledBelow(g, page, b, buffer, g.pageBytes)
    ensures Written(g, Erased(g, w, page), buffer, page) == Programmed(g, w, page, b)
  {
  }

  /** The SPM registers and the state boot_program_page touches. */
  class Chip {
    const geom: Geometry
    var words: seq<bv16>
    var buffer: seq<bv16>
    var sreg: bv8
    var rwwBusy: bool

    ghost predicate Valid()
      reads this
    {
      geom.Valid() && |words| == geom.flashBytes / 2 && |buffer| == geom.pageBytes / 2
    }

    constructor (g: Geometry, flash: seq<bv16>, status: bv8)
      requires g.Valid() && |flash| == g.flashBytes / 2
      ensures Valid() && geom == g && words == flash && buffer == Blank(g.pageBytes / 2)
      ensures sreg == status && !rwwBusy
    {
      geom := g;
      words := flash;
      buffer := Blank(g.pageBytes / 2);
      sreg := status;
      rwwBusy := false;
    }

    /** boot_page_erase: the page holding `addr` reads as erased; the RWW section is busy. */
    method PageErase(addr: uint32)
      requires Valid()
      modifies this
      ensures Valid() && words == Erased(geom, old(words), addr)
      ensures buffer == old(buffer) && sreg == old(sreg) && rwwBusy
    {
      words := Erased(geom, words, addr);
      rwwBusy := true;
    }

    /** boot_page_fill: one word into the page-buffer slot selected by the low address bits. */
    method PageFill(addr: uint32, w: bv16)
      requires Valid()
      modifies this
      ensures Valid() && buffer == old(buffer)[Slot(geom, addr) := w]
      ensures words == old(words) && sreg == old(sreg) && rwwBusy == old(rwwBusy)
    {
      buffer := buffer[Slot(geom, addr) := w];
    }

    /** boot_page_write: the buffer is programmed into the page holding `addr`, then reads as blank again. */
    method PageWrite(addr: uint32)
      requires Valid()
      modifies this
      ensures Valid() && words == Written(geom, old(words), old(buffer), addr)
      ensures buffer == Blank(geom.pageBytes / 2) && sreg == old(sreg) && rwwBusy
    {
      words := Written(geom, words, buffer, addr);
      buffer := Blank(geom.pageBytes / 2);
      rwwBusy := true;
    }

    /** boot_rww_enable: the application section can be read again; writing RWWSRE also clears the page buffer. */
    method RwwEnable()
      requires Valid()
      modifies this
      ensures Valid() && !rwwBusy
      ensures words == old(words) && buffer == Blank(geom.pageBytes / 2) && sreg == old(sreg)
    {
      rwwBusy := false;
      buffer := Blank(geom.pageBytes / 2);
    }

    /** One pass of the fill loop: the little-endian word at offset `i` goes to the buffer slot of `page + i`. */
    method FillWord(page: uint32, buf: array<bv8>, i: nat)
      requires Valid() && buf.Length >= geom.pageBytes
      requires i % 2 == 0 && i < geom.pageBytes
      requires FilledBelow(geom, page, buf[..], buffer, i)
      modifies this
      ensures Valid() && FilledBelow(geom, page, buf[..], buffer, i + 2)
      ensures words == old(words) && sreg == old(sreg) && rwwBusy == old(rwwBusy)
    {
      var w: bv16 := buf[i] as bv16;
      w := w + ((buf[i + 1] as bv16) << 8);
      ModWrap(geom, page + i);
      FillStep(geom, page, buf[..], buffer, i);
      PageFill((page + i) % 0x1_0000_0000, w);
    }

    /** boot_program_page: SREG is saved, interrupts are disabled (bit 7 cleared), the page is erased, filled, written, RWW is re-enabled and SREG restored. */
    method ProgramPage(page: uint32, buf: array<bv8>)
      requires Valid() && buf.Length >= geom.pageBytes
      modifies this
      ensures Valid()
      ensures words == Programmed(geom, old(words), page, buf[..])
      ensures buffer == Blank(geom.pageBytes / 2)
      ensures sreg == old(sreg) && !rwwBusy
    {
      var saved := sreg;
      sreg := sreg & 0x7F;
      PageErase(page);
      ghost var erased := words;
      var i: nat := 0;
      while i < geom.pageBytes
        invariant Valid() && words == erased
        invariant i % 2 == 0 && i <= geom.pageBytes
        invariant FilledBelow(geom, page, buf[..], buffer, i)
      {
        FillWord(page, buf, i);
        i := i + 2;
      }
      EraseFillWrite(geom, old(words), page, buf[..], buffer);
      PageWrite(page);
      RwwEnable();
      sreg := saved;
    }
  }
}
