/**
 * What a whole update session does. The frames a sender produces are built
 * from the encoders of Sysex (Split14, Pack, SplitCrc) and the CRC of Crc16;
 * the lemmas run the updater machine of Updater over them.
 */
module UpdaterProofs {
  import opened Board
  import opened Crc16
  import opened Sysex
  import opened Updater
  import Flash

  /** A byte stream as getMidiByte results without errors. */
  function AsRx(s: seq<bv8>): (r: seq<Rx>)
    ensures |r| == |s|
    decreases |s|
  {
    if s == [] then [] else [Rx(s[0])] + AsRx(s[1..])
  }

  lemma {:induction false} AsRxAppend(a: seq<bv8>, b: seq<bv8>)
    ensures AsRx(a + b) == AsRx(a) + AsRx(b)
    decreases |a|
  {
    if a == [] {
      assert a + b == b;
    } else {
      assert (a + b)[1..] == a[1..] + b;
      AsRxAppend(a[1..], b);
    }
  }

  /** Running the machine over two streams in turn is running it over their concatenation. */
  lemma {:induction false} RunAppend(cfg: Config, m: Machine, a: seq<Rx>, b: seq<Rx>)
    requires cfg.Valid() && m.Valid(cfg)
    ensures Run(cfg, m, a + b) == Run(cfg, Run(cfg, m, a), b)
    decreases |a|
  {
    if a == [] {
      assert a + b == b;
    } else {
      assert (a + b)[1..] == a[1..] + b;
      RunAppend(cfg, Step(cfg, m, a[0]), a[1..], b);
    }
  }

  /** One getMidiByte result, then the rest of the stream. */
  lemma RunCons(cfg: Config, m: Machine, b: bv8, s: seq<bv8>)
    requires cfg.Valid() && m.Valid(cfg)
    ensures Run(cfg, m, AsRx([b] + s)) == Run(cfg, Step(cfg, m, Rx(b)), AsRx(s))
  {
    assert ([b] + s)[1..] == s;
  }

  /** Two bytes are two steps. */
  lemma RunPair(cfg: Config, m: Machine, a: bv8, b: bv8)
    requires cfg.Valid() && m.Valid(cfg)
    ensures Run(cfg, m, AsRx([a, b])) == Step(cfg, Step(cfg, m, Rx(a)), Rx(b))
  {
    assert [a, b] == [a] + [b] && [b] == [b] + [];
    RunCons(cfg, m, a, [b]);
    RunCons(cfg, Step(cfg, m, Rx(a)), b, []);
  }

  /** Three bytes are three steps. */
  lemma RunTriple(cfg: Config, m: Machine, a: bv8, b: bv8, c: bv8)
    requires cfg.Valid() && m.Valid(cfg)
    ensures Run(cfg, m, AsRx([a, b, c])) == Step(cfg, Step(cfg, Step(cfg, m, Rx(a)), Rx(b)), Rx(c))
  {
    assert [a, b, c] == [a] + [b, c];
    RunCons(cfg, m, a, [b, c]);
    RunPair(cfg, Step(cfg, m, Rx(a)), b, c);
  }

  /** Running over the bytes of `a + b` is running over those of `a`, then those of `b`. */
  lemma RunBytes(cfg: Config, m: Machine, a: seq<bv8>, b: seq<bv8>)
    requires cfg.Valid() && m.Valid(cfg)
    ensures Run(cfg, m, AsRx(a + b)) == Run(cfg, Run(cfg, m, AsRx(a)), AsRx(b))
  {
    AsRxAppend(a, b);
    RunAppend(cfg, m, AsRx(a), AsRx(b));
  }

  lemma Assoc<T>(a: seq<T>, b: seq<T>, c: seq<T>)
    ensures a + b + c == a + (b + c)
  {
  }

  /** A 14-bit value as the two bytes the sender puts on the wire. */
  function FieldBytes(v: bv16): (r: seq<bv8>)
    requires v < 0x4000
    ensures |r| == 2 && Field14(r[0], r[1]) == v
  {
    Field14Split(v);
    [Split14(v).0, Split14(v).1]
  }

  /** The identifier and command bytes from the k-th on. */
  function Ids(cfg: Config, k: nat): (r: seq<bv8>)
    requires k <= 4
    ensures |r| == 4 - k
    decreases 4 - k
  {
    if k == 4 then [] else [cfg.Expected(k)] + Ids(cfg, k + 1)
  }

  /** F0, the identifier and the update command. */
  function HeaderBytes(cfg: Config): seq<bv8> {
    [SYSEX_START] + Ids(cfg, 0)
  }

  lemma HeaderBytesAre(cfg: Config)
    ensures HeaderBytes(cfg) == [SYSEX_START, cfg.id0, cfg.id1, cfg.id2, cfg.command]
  {
    assert Ids(cfg, 3) == [cfg.command];
    assert Ids(cfg, 2) == [cfg.id2, cfg.command];
    assert Ids(cfg, 1) == [cfg.id1, cfg.id2, cfg.command];
  }

  /** The bytes a frame's CRC is taken over: the size, the page index and the packed data. */
  function Covered(cfg: Config, idx: bv16, data: seq<bv8>): seq<bv8>
    requires cfg.Valid() && idx < 0x4000 && |data| % 4 == 0
  {
    FieldBytes(cfg.PageSize()) + FieldBytes(idx) + PackAll(data)
  }

  /** The SysEx frame that carries one page: header, covered bytes, CRC field, F7. */
  function Frame(cfg: Config, idx: bv16, data: seq<bv8>): seq<bv8>
    requires cfg.Valid() && idx < 0x4000 && |data| == cfg.PageBytes()
  {
    var c := Covered(cfg, idx, data);
    HeaderBytes(cfg) + c + SplitCrc(Crc(0, c)) + [SYSEX_END]
  }

  /** The frame that ends the stream: a size field of 0. */
  function EndFrame(cfg: Config): seq<bv8> {
    HeaderBytes(cfg) + FieldBytes(0)
  }

  /** An expected identifier or command byte moves on to the next one, after the command to the size field. */
  lemma HeaderByte(cfg: Config, m: Machine)
    requires cfg.Valid() && m.Valid(cfg) && m.phase.Header?
    ensures Step(cfg, m, Rx(cfg.Expected(m.phase.k))) ==
      m.(phase := if m.phase.k < 3 then Header(m.phase.k + 1) else SizeHi)
  {
    assert Step(cfg, m, Rx(cfg.Expected(m.phase.k))) == HeaderStep(cfg, m, Rx(cfg.Expected(m.phase.k)));
  }

  /** The expected identifier and command bytes from the k-th on bring the machine to the size field. */
  lemma {:induction false} RunIds(cfg: Config, m: Machine, k: nat)
    requires cfg.Valid() && m.Valid(cfg) && m.phase == Header(k)
    ensures Run(cfg, m, AsRx(Ids(cfg, k))) == m.(phase := SizeHi)
    decreases 4 - k
  {
    var b := cfg.Expected(k);
    RunCons(cfg, m, b, Ids(cfg, k + 1));
    HeaderByte(cfg, m);
    var m1 := Step(cfg, m, Rx(b));
    if k < 3 {
      RunIds(cfg, m1, k + 1);
    } else {
      assert Ids(cfg, k + 1) == [];
    }
  }

  /** From the wait for F0, the header brings the machine to the size field with the CRC cleared. */
  lemma RunHeader(cfg: Config, m: Machine)
    requires cfg.Valid() && m.Valid(cfg) && m.phase.Seek?
    ensures Run(cfg, m, AsRx(HeaderBytes(cfg))) == m.(phase := SizeHi, covered := [])
  {
    RunCons(cfg, m, SYSEX_START, Ids(cfg, 0));
    SeekByte(cfg, m, Rx(SYSEX_START));
    RunIds(cfg, Step(cfg, m, Rx(SYSEX_START)), 0);
  }

  /** The size field: a size other than SPM_PAGESIZE leaves the loop, with success exactly for size 0. */
  lemma RunSize(cfg: Config, m: Machine, v: bv16)
    requires cfg.Valid() && m.Valid(cfg) && m.phase.SizeHi? && v < 0x4000
    ensures Run(cfg, m, AsRx(FieldBytes(v))) ==
      m.(phase := if v != cfg.PageSize() then Done(v == 0) else IndexHi, covered := FieldBytes(v))
  {
    var f := FieldBytes(v);
    RunPair(cfg, m, f[0], f[1]);
    FieldByte(cfg, m, f[0]);
    var m1 := Step(cfg, m, Rx(f[0]));
    assert m1.phase.SizeLo? && m1.covered == [f[0]];
    FieldByte(cfg, m1, f[1]);
  }

  /** The page-index field: the machine enters the data loop with the index recorded and under the CRC. */
  lemma RunIndex(cfg: Config, m: Machine, idx: bv16)
    requires cfg.Valid() && m.Valid(cfg) && m.phase.IndexHi? && idx < 0x4000
    ensures Run(cfg, m, AsRx(FieldBytes(idx))) ==
      m.(phase := Payload, covered := m.covered + FieldBytes(idx), index := FieldBytes(idx), group := [], groups := 0)
  {
    var f := FieldBytes(idx);
    RunPair(cfg, m, f[0], f[1]);
    FieldByte(cfg, m, f[0]);
    var m1 := Step(cfg, m, Rx(f[0]));
    assert m1.phase.IndexLo? && m1.index == [f[0]] && m1.covered == m.covered + [f[0]];
    FieldByte(cfg, m1, f[1]);
    Assoc(m.covered, [f[0]], [f[1]]);
  }

  /** The first four bytes of a packed group are only recorded. */
  lemma {:induction false} RunLows(cfg: Config, m: Machine, s: seq<bv8>)
    requires cfg.Valid() && m.Valid(cfg) && m.phase.Payload? && |m.group| + |s| <= 4
    ensures Run(cfg, m, AsRx(s)) == m.(covered := m.covered + s, group := m.group + s)
    decreases |s|
  {
    if s == [] {
      assert m.covered + s == m.covered && m.group + s == m.group;
    } else {
      assert s == [s[0]] + s[1..];
      RunCons(cfg, m, s[0], s[1..]);
      var m1 := Step(cfg, m, Rx(s[0]));
      PayloadLow(cfg, m, s[0]);
      Assoc(m.covered, [s[0]], s[1..]);
      Assoc(m.group, [s[0]], s[1..]);
      assert m1.covered + s[1..] == m.covered + s;
      assert m1.group + s[1..] == m.group + s;
      RunLows(cfg, m1, s[1..]);
    }
  }

  /** A whole packed group: the four bytes it carries go into the page at the group's offset. */
  function GroupDone(cfg: Config, m: Machine, d: seq<bv8>): (r: Machine)
    requires cfg.Valid() && m.Valid(cfg) && m.phase.Payload? && |d| == 4
    ensures r.Valid(cfg) && r.groups == m.groups + 1 && r.group == []
    ensures r.phase == if 4 * m.groups + 4 < cfg.PageBytes() then Payload else CrcHi
  {
    m.(covered := m.covered + Pack(d), group := [], groups := m.groups + 1,
       page := Store4(m.page, 4 * m.groups, d),
       phase := if m.groups + 1 < cfg.Groups() then Payload else CrcHi)
  }

  /** Five bytes of the data loop: the four unpacked bytes go into the page at the group's offset. */
  lemma RunFive(cfg: Config, m: Machine, g: seq<bv8>)
    requires cfg.Valid() && m.Valid(cfg) && m.phase.Payload? && m.group == [] && |g| == 5
    ensures Run(cfg, m, AsRx(g)) ==
      m.(covered := m.covered + g, group := [], groups := m.groups + 1,
         page := Store4(m.page, 4 * m.groups, Unpack(g)),
         phase := if m.groups + 1 < cfg.Groups() then Payload else CrcHi)
  {
    var lows := g[..4];
    assert g == lows + [g[4]];
    RunBytes(cfg, m, lows, [g[4]]);
    RunLows(cfg, m, lows);
    assert [] + lows == lows;
    var m4 := m.(covered := m.covered + lows, group := lows);
    RunCons(cfg, m4, g[4], []);
    PayloadHigh(cfg, m4, g[4]);
    Assoc(m.covered, lows, [g[4]]);
  }

  lemma RunGroup(cfg: Config, m: Machine, d: seq<bv8>)
    requires cfg.Valid() && m.Valid(cfg) && m.phase.Payload? && m.group == [] && |d| == 4
    ensures Run(cfg, m, AsRx(Pack(d))) == GroupDone(cfg, m, d)
  {
    RunFive(cfg, m, Pack(d));
    UnpackPack(d);
  }

  /** `page` with the bytes from `at` on replaced by `d`. */
  function Spliced(page: seq<bv8>, at: nat, d: seq<bv8>): (r: seq<bv8>)
    requires at + |d| <= |page|
    ensures |r| == |page|
  {
    page[..at] + d + page[at + |d|..]
  }

  lemma SplicedFront(page: seq<bv8>, d: seq<bv8>)
    requires |d| <= |page|
    ensures Spliced(page, 0, d) == d + page[|d|..]
  {
    assert page[..0] == [];
  }

  /** Four bytes stored by Store4, then more after them, are one splice. */
  lemma Store4Spliced(page: seq<bv8>, at: nat, d: seq<bv8>, rest: seq<bv8>)
    requires at + 4 + |rest| <= |page| && |d| == 4
    ensures Spliced(Store4(page, at, d), at + 4, rest) == Spliced(page, at, d + rest)
  {
    var s := Store4(page, at, d);
    assert s[..at + 4] == page[..at] + d;
    assert s[at + 4 + |rest|..] == page[at + 4 + |rest|..];
    Assoc(page[..at], d, rest);
  }

  lemma PackAllCons(d: seq<bv8>)
    requires |d| % 4 == 0 && |d| >= 4
    ensures PackAll(d) == Pack(d[..4]) + PackAll(d[4..])
  {
  }

  /** The first group of the data, then the rest. */
  lemma RunDataCons(cfg: Config, m: Machine, d: seq<bv8>)
    requires cfg.Valid() && m.Valid(cfg) && m.phase.Payload? && m.group == [] && |d| % 4 == 0 && |d| >= 4
    ensures PackAll(d) == Pack(d[..4]) + PackAll(d[4..])
    ensures Run(cfg, m, AsRx(PackAll(d))) == Run(cfg, GroupDone(cfg, m, d[..4]), AsRx(PackAll(d[4..])))
  {
    PackAllCons(d);
    RunBytes(cfg, m, Pack(d[..4]), PackAll(d[4..]));
    RunGroup(cfg, m, d[..4]);
  }

  /**
   * The data loop over whole groups `d` from group `m.groups`: the bytes go into page[] from offset
   * `4*m.groups` and under the CRC; after the last group of the page the machine waits for the CRC field.
   */
  lemma {:induction false} RunData(cfg: Config, m: Machine, d: seq<bv8>)
    requires cfg.Valid() && m.Valid(cfg) && m.phase.Payload? && m.group == []
    requires |d| % 4 == 0 && 4 * m.groups + |d| <= cfg.PageBytes()
    ensures Run(cfg, m, AsRx(PackAll(d))) ==
      m.(covered := m.covered + PackAll(d), groups := m.groups + |d| / 4,
         page := Spliced(m.page, 4 * m.groups, d),
         phase := if 4 * m.groups + |d| < cfg.PageBytes() then Payload else CrcHi)
    decreases |d|, 1
  {
    if d == [] {
      assert m.covered + PackAll(d) == m.covered;
      assert Spliced(m.page, 4 * m.groups, d) == m.page;
    } else {
      RunDataMore(cfg, m, d);
    }
  }

  /** The data loop with at least one group to go: the first group, then the rest by RunData. */
  lemma {:induction false} RunDataMore(cfg: Config, m: Machine, d: seq<bv8>)
    requires cfg.Valid() && m.Valid(cfg) && m.phase.Payload? && m.group == []
    requires |d| % 4 == 0 && 4 * m.groups + |d| <= cfg.PageBytes() && |d| >= 4
    ensures Run(cfg, m, AsRx(PackAll(d))) ==
      m.(covered := m.covered + PackAll(d), groups := m.groups + |d| / 4,
         page := Spliced(m.page, 4 * m.groups, d),
         phase := if 4 * m.groups + |d| < cfg.PageBytes() then Payload else CrcHi)
    decreases |d|, 0
  {
    var first, rest := d[..4], d[4..];
    assert d == first + rest;
    RunDataCons(cfg, m, d);
    var n := GroupDone(cfg, m, first);
    Assoc(m.covered, Pack(first), PackAll(rest));
    assert n.covered + PackAll(rest) == m.covered + PackAll(d);
    Store4Spliced(m.page, 4 * m.groups, first, rest);
    assert Spliced(n.page, 4 * n.groups, rest) == Spliced(m.page, 4 * m.groups, d);
    if rest == [] {
      assert PackAll(rest) == [];
    } else {
      RunData(cfg, n, rest);
    }
  }

  /** The CRC field carrying `c`: the frame goes on to F7 exactly when `c` is the running CRC. */
  lemma RunCrc(cfg: Config, m: Machine, c: bv16)
    requires cfg.Valid() && m.Valid(cfg) && m.phase.CrcHi?
    ensures Run(cfg, m, AsRx(SplitCrc(c))) ==
      m.(phase := if c != RunningCrc(m) then Done(false) else Terminator, trailer := SplitCrc(c))
  {
    var t := SplitCrc(c);
    RunTriple(cfg, m, t[0], t[1], t[2]);
    TrailerStep(cfg, m, Rx(t[0]));
    var m1 := Step(cfg, m, Rx(t[0]));
    assert m1 == m.(phase := CrcMid, trailer := [t[0]]);
    TrailerStep(cfg, m1, Rx(t[1]));
    var m2 := Step(cfg, m1, Rx(t[1]));
    assert m2 == m.(phase := CrcLo, trailer := [t[0], t[1]]);
    TrailerLast(cfg, m2, Rx(t[2]));
    CrcFieldSplit(c);
  }

  /** The header, the size SPM_PAGESIZE and a page index bring the machine into the data loop. */
  lemma RunFields(cfg: Config, m: Machine, idx: bv16)
    requires cfg.Valid() && m.Valid(cfg) && m.phase.Seek? && idx < 0x4000
    ensures Run(cfg, m, AsRx(HeaderBytes(cfg) + FieldBytes(cfg.PageSize()) + FieldBytes(idx))) ==
      m.(phase := Payload, covered := FieldBytes(cfg.PageSize()) + FieldBytes(idx), index := FieldBytes(idx), group := [], groups := 0)
  {
    var h, s, i := HeaderBytes(cfg), FieldBytes(cfg.PageSize()), FieldBytes(idx);
    RunBytes(cfg, m, h + s, i);
    RunBytes(cfg, m, h, s);
    RunHeader(cfg, m);
    var m1 := m.(phase := SizeHi, covered := []);
    RunSize(cfg, m1, cfg.PageSize());
    RunIndex(cfg, m1.(phase := IndexHi, covered := s), idx);
  }

  /** The CRC field carrying the running CRC, then F7: the page is committed at the index received. */
  lemma RunTrailer(cfg: Config, m: Machine)
    requires cfg.Valid() && m.Valid(cfg) && m.phase.CrcHi?
    ensures Run(cfg, m, AsRx(SplitCrc(RunningCrc(m)) + [SYSEX_END])) ==
      m.(phase := Seek, covered := [], trailer := SplitCrc(RunningCrc(m)),
         commits := m.commits + [Commit(CommitAddress(cfg, PageIndex(m)), m.page)])
  {
    var t := SplitCrc(RunningCrc(m));
    RunBytes(cfg, m, t, [SYSEX_END]);
    RunCrc(cfg, m, RunningCrc(m));
    var n := Run(cfg, m, AsRx(t));
    assert n == m.(phase := Terminator, trailer := t);
    RunCons(cfg, n, SYSEX_END, []);
    TerminatorEnd(cfg, n);
  }

  /** Up to the CRC field, a frame leaves the running CRC over exactly its size, index and data bytes. */
  lemma FrameCovered(cfg: Config, m: Machine, idx: bv16, data: seq<bv8>)
    requires cfg.Valid() && m.Valid(cfg) && m.phase.Seek? && idx < 0x4000
    requires |data| % 4 == 0 && |data| <= cfg.PageBytes()
    ensures var n := Run(cfg, m, AsRx(HeaderBytes(cfg) + Covered(cfg, idx, data)));
      n.phase == (if |data| < cfg.PageBytes() then Payload else CrcHi) &&
      n.covered == Covered(cfg, idx, data) && n.page == data + m.page[|data|..] &&
      |n.index| == 2 && PageIndex(n) == idx && n.commits == m.commits
  {
    var h, sz, ix, p := HeaderBytes(cfg), FieldBytes(cfg.PageSize()), FieldBytes(idx), PackAll(data);
    Assoc(h, sz + ix, p);
    Assoc(h, sz, ix);
    assert HeaderBytes(cfg) + Covered(cfg, idx, data) == (h + sz + ix) + p;
    RunBytes(cfg, m, h + sz + ix, p);
    RunFields(cfg, m, idx);
    var m3 := Run(cfg, m, AsRx(h + sz + ix));
    assert m3.phase.Payload? && m3.group == [] && m3.groups == 0 && m3.covered == sz + ix;
    RunData(cfg, m3, data);
    SplicedFront(m.page, data);
  }

  /** A well-formed frame commits its data at `pageIdx*STORAGE_PAGE_SIZE` and returns to the wait for F0. */
  lemma FrameCommits(cfg: Config, m: Machine, idx: bv16, data: seq<bv8>)
    requires cfg.Valid() && m.Valid(cfg) && m.phase.Seek? && idx < 0x4000 && |data| == cfg.PageBytes()
    ensures var n := Run(cfg, m, AsRx(Frame(cfg, idx, data)));
      n.phase.Seek? && n.page == data && n.commits == m.commits + [Commit(CommitAddress(cfg, idx), data)]
  {
    var c := Covered(cfg, idx, data);
    var front := HeaderBytes(cfg) + c;
    Assoc(front, SplitCrc(Crc(0, c)), [SYSEX_END]);
    RunBytes(cfg, m, front, SplitCrc(Crc(0, c)) + [SYSEX_END]);
    FrameCovered(cfg, m, idx, data);
    assert data + m.page[|data|..] == data;
    RunTrailer(cfg, Run(cfg, m, AsRx(front)));
  }

  /** A frame whose CRC field carries any value but the CRC of its covered bytes ends the session with 'E'. */
  lemma FrameBadCrc(cfg: Config, m: Machine, idx: bv16, data: seq<bv8>, c: bv16)
    requires cfg.Valid() && m.Valid(cfg) && m.phase.Seek? && idx < 0x4000 && |data| == cfg.PageBytes()
    requires c != Crc(0, Covered(cfg, idx, data))
    ensures var n := Run(cfg, m, AsRx(HeaderBytes(cfg) + Covered(cfg, idx, data) + SplitCrc(c)));
      n.phase == Done(false) && n.commits == m.commits && Verdict(n) == Finished(SHOW_E)
  {
    var front := HeaderBytes(cfg) + Covered(cfg, idx, data);
    RunBytes(cfg, m, front, SplitCrc(c));
    FrameCovered(cfg, m, idx, data);
    RunCrc(cfg, Run(cfg, m, AsRx(front)), c);
  }

  /**
   * A frame whose data loop is cut short by a getMidiByte error after whole groups `part`, with a CRC
   * field that matches the bytes received, is committed: page[] then holds `part` followed by what
   * it held before, the tail of the previous page.
   */
  lemma CutShortFrame(cfg: Config, m: Machine, idx: bv16, part: seq<bv8>)
    requires cfg.Valid() && m.Valid(cfg) && m.phase.Seek? && idx < 0x4000
    requires |part| % 4 == 0 && |part| < cfg.PageBytes()
    ensures var c := Covered(cfg, idx, part);
      var n := Run(cfg, m, AsRx(HeaderBytes(cfg) + c) + [RxError] + AsRx(SplitCrc(Crc(0, c)) + [SYSEX_END]));
      n.phase.Seek? && n.commits == m.commits + [Commit(CommitAddress(cfg, idx), part + m.page[|part|..])]
  {
    var c := Covered(cfg, idx, part);
    var a, b := AsRx(HeaderBytes(cfg) + c), AsRx(SplitCrc(Crc(0, c)) + [SYSEX_END]);
    RunAppend(cfg, m, a + [RxError], b);
    RunAppend(cfg, m, a, [RxError]);
    FrameCovered(cfg, m, idx, part);
    var n := Run(cfg, m, a);
    PayloadError(cfg, n);
    assert Run(cfg, n, [RxError]) == Step(cfg, n, RxError);
    RunTrailer(cfg, n.(phase := CrcHi));
  }

  /** A stream of page frames, one after another. */
  function Frames(cfg: Config, pages: seq<(bv16, seq<bv8>)>): seq<bv8>
    requires cfg.Valid() && forall k :: 0 <= k < |pages| ==> pages[k].0 < 0x4000 && |pages[k].1| == cfg.PageBytes()
    decreases |pages|
  {
    if pages == [] then [] else Frame(cfg, pages[0].0, pages[0].1) + Frames(cfg, pages[1..])
  }

  /** The boot_program_page calls those frames ask for, in order. */
  function Commits(cfg: Config, pages: seq<(bv16, seq<bv8>)>): (r: seq<Commit>)
    ensures |r| == |pages|
    ensures forall k :: 0 <= k < |pages| ==> r[k] == Commit(CommitAddress(cfg, pages[k].0), pages[k].1)
    decreases |pages|
  {
    if pages == [] then [] else [Commit(CommitAddress(cfg, pages[0].0), pages[0].1)] + Commits(cfg, pages[1..])
  }

  /** Frames in turn: one commit per frame, in stream order, and the machine back waiting for F0. */
  lemma {:induction false} RunFrames(cfg: Config, m: Machine, pages: seq<(bv16, seq<bv8>)>)
    requires cfg.Valid() && m.Valid(cfg) && m.phase.Seek?
    requires forall k :: 0 <= k < |pages| ==> pages[k].0 < 0x4000 && |pages[k].1| == cfg.PageBytes()
    ensures var n := Run(cfg, m, AsRx(Frames(cfg, pages)));
      n.phase.Seek? && n.commits == m.commits + Commits(cfg, pages)
    decreases |pages|
  {
    if pages == [] {
      assert m.commits + [] == m.commits;
    } else {
      var f := Frame(cfg, pages[0].0, pages[0].1);
      RunBytes(cfg, m, f, Frames(cfg, pages[1..]));
      FrameCommits(cfg, m, pages[0].0, pages[0].1);
      RunFrames(cfg, Run(cfg, m, AsRx(f)), pages[1..]);
      Assoc(m.commits, [Commit(CommitAddress(cfg, pages[0].0), pages[0].1)], Commits(cfg, pages[1..]));
    }
  }

  /** The size-0 frame ends the session with success. */
  lemma RunEndFrame(cfg: Config, m: Machine)
    requires cfg.Valid() && m.Valid(cfg) && m.phase.Seek?
    ensures var n := Run(cfg, m, AsRx(EndFrame(cfg)));
      n.phase == Done(true) && n.commits == m.commits && n.page == m.page
  {
    RunBytes(cfg, m, HeaderBytes(cfg), FieldBytes(0));
    RunHeader(cfg, m);
    RunSize(cfg, m.(phase := SizeHi, covered := []), 0);
  }

  /**
   * A whole session: well-formed page frames followed by the size-0 frame commit every page, in
   * order, at `pageIdx*STORAGE_PAGE_SIZE`, and show 'S'; whatever follows is never read.
   */
  lemma Session(cfg: Config, page: seq<bv8>, pages: seq<(bv16, seq<bv8>)>, tail: seq<Rx>)
    requires cfg.Valid() && |page| == cfg.PageBytes()
    requires forall k :: 0 <= k < |pages| ==> pages[k].0 < 0x4000 && |pages[k].1| == cfg.PageBytes()
    ensures var n := Run(cfg, Start(page), AsRx(Frames(cfg, pages) + EndFrame(cfg)) + tail);
      n.commits == Commits(cfg, pages) && Verdict(n) == Finished(SHOW_S)
  {
    var m := Start(page);
    var fs := Frames(cfg, pages);
    AsRxAppend(fs, EndFrame(cfg));
    RunAppend(cfg, m, AsRx(fs + EndFrame(cfg)), tail);
    RunBytes(cfg, m, fs, EndFrame(cfg));
    RunFrames(cfg, m, pages);
    var n := Run(cfg, m, AsRx(fs));
    RunEndFrame(cfg, n);
    var e := Run(cfg, n, AsRx(EndFrame(cfg)));
    RunDone(cfg, e, tail);
    assert [] + Commits(cfg, pages) == Commits(cfg, pages);
  }

  /** A frame announcing a nonzero size other than SPM_PAGESIZE ends the session with 'E'. */
  lemma BadSize(cfg: Config, m: Machine, v: bv16)
    requires cfg.Valid() && m.Valid(cfg) && m.phase.Seek? && v < 0x4000 && v != 0 && v != cfg.PageSize()
    ensures var n := Run(cfg, m, AsRx(HeaderBytes(cfg) + FieldBytes(v)));
      n.phase == Done(false) && n.commits == m.commits && Verdict(n) == Finished(SHOW_E)
  {
    RunBytes(cfg, m, HeaderBytes(cfg), FieldBytes(v));
    RunHeader(cfg, m);
    RunSize(cfg, m.(phase := SizeHi, covered := []), v);
  }

  /** A getMidiByte error anywhere but in the data loop ends the session with 'E'; in the data loop it skips to the CRC field. */
  lemma ErrorEnds(cfg: Config, m: Machine)
    requires cfg.Valid() && m.Valid(cfg) && !m.phase.Done?
    ensures m.phase.Payload? ==> Step(cfg, m, RxError) == m.(phase := CrcHi)
    ensures !m.phase.Payload? ==> Step(cfg, m, RxError) == m.(phase := Done(false))
  {
    if m.phase.Payload? {
      PayloadError(cfg, m);
    } else if m.phase.Seek? {
      SeekByte(cfg, m, RxError);
    } else if m.phase.Field() {
      assert Step(cfg, m, RxError) == FieldStep(cfg, m, RxError);
    } else if m.phase.Trailer() {
      if m.phase.CrcLo? {
        TrailerLast(cfg, m, RxError);
      } else {
        TrailerStep(cfg, m, RxError);
      }
    }
  }

  /**
   * A page is committed only from the wait for F7, on F7; that wait is reached only from the third
   * CRC byte, when the sent CRC equals the running CRC.
   */
  lemma CommitOnlyAfterCheck(cfg: Config, m: Machine, r: Rx)
    requires cfg.Valid() && m.Valid(cfg)
    ensures Step(cfg, m, r).commits != m.commits ==>
      m.phase.Terminator? && r == Rx(SYSEX_END) &&
      Step(cfg, m, r).commits == m.commits + [Commit(CommitAddress(cfg, PageIndex(m)), m.page)]
    ensures Step(cfg, m, r).phase.Terminator? ==>
      m.phase.CrcLo? && r.Rx? && CrcField(m.trailer[0], m.trailer[1], r.data) == RunningCrc(m)
  {
    match m.phase
    case Terminator =>
      if r == Rx(SYSEX_END) {
        TerminatorEnd(cfg, m);
      } else {
        assert Step(cfg, m, r) == TerminatorStep(cfg, m, r);
      }
    case CrcLo => TrailerLast(cfg, m, r);
    case CrcHi => TrailerStep(cfg, m, r);
    case CrcMid => TrailerStep(cfg, m, r);
    case Payload =>
      if r.RxError? {
        PayloadError(cfg, m);
      } else if |m.group| < 4 {
        PayloadLow(cfg, m, r.data);
      } else {
        PayloadHigh(cfg, m, r.data);
      }
    case Seek => SeekByte(cfg, m, r);
    case _ =>
  }

  /**
   * The address of a commit: with a 16-bit product only the low eight bits of the page index
   * matter, so indexes 256 apart collide; with a 32-bit product every 14-bit index has its own page.
   */
  lemma CommitAddressOf(cfg: Config, idx: bv16)
    ensures cfg.width == Bits16 ==> CommitAddress(cfg, idx) == (idx as int % 256) * STORAGE_PAGE_SIZE
    ensures cfg.width == Bits32 ==> CommitAddress(cfg, idx) == idx as int * STORAGE_PAGE_SIZE
  {
    var x := idx as int;
    if cfg.width == Bits16 {
      assert x == (x / 256) * 256 + x % 256;
      assert x * 256 == (x / 256) * 0x1_0000 + (x % 256) * 256;
      Flash.DivModUnique(x * 256, x / 256, (x % 256) * 256, 0x1_0000);
    } else {
      Flash.DivModUnique(x * 256, 0, x * 256, 0x1_0000_0000);
    }
  }

  /** With a 16-bit product, page indexes that agree modulo 256 are programmed at the same address. */
  lemma NarrowAddressesCollide(cfg: Config, p: bv16, q: bv16)
    requires cfg.width == Bits16 && p as int % 256 == q as int % 256
    ensures CommitAddress(cfg, p) == CommitAddress(cfg, q) < 0x1_0000
  {
    CommitAddressOf(cfg, p);
    CommitAddressOf(cfg, q);
  }

  /** With a 32-bit product, different page indexes are programmed at different addresses. */
  lemma WideAddressesDistinct(cfg: Config, p: bv16, q: bv16)
    requires cfg.width == Bits32
    ensures CommitAddress(cfg, p) == CommitAddress(cfg, q) <==> p as int == q as int
  {
    CommitAddressOf(cfg, p);
    CommitAddressOf(cfg, q);
  }
}
