/**
 * updater_main: the boot trigger and the SysEx firmware-update loop.
 *
 * The specification is a machine that takes one getMidiByte result per
 * step (`Step`, folded over the stream by `Run`). Its phases are the
 * places in updater_main where getMidiByte is called; it records the bytes
 * it has received, and the values the C code computes from them (the
 * running CRC, the size, the page index, the sent CRC) are functions of
 * those bytes. `UpdaterMain` follows the C loops literally and is proved
 * to end where `Run` ends over the whole stream.
 */
module Updater {
  import opened Board
  import opened Crc16
  import opened Sysex
  import Flash

  const SYSEX_START: bv8 := 0xF0
  const SYSEX_END: bv8 := 0xF7

  /** The bits of CSI1 that are set while "from tape" and "to tape" are held. */
  const TRIGGER_MASK: bv8 := 0xC0

  /** The 7-segment patterns of the final write: 'S' and 'E'. */
  const SHOW_S: bv8 := 0x6d
  const SHOW_E: bv8 := 0x79

  /** The width in which `pageIdx*STORAGE_PAGE_SIZE` is computed: 16 bits if the constant is an `int` on the AVR, 32 if it is a long. */
  datatype Width = Bits16 | Bits32

  /**
   * The constants updater_main takes from headers not shown: the SysEx
   * identifier, the update command, SPM_PAGESIZE (the flash geometry) and
   * the width of the commit-address product.
   */
  datatype Config = Config(id0: bv8, id1: bv8, id2: bv8, command: bv8, geom: Flash.Geometry, width: Width) {
    /** A page is a whole number of 4-byte groups, and the group counter, an int8_t, does not overflow. */
    predicate Valid() {
      geom.Valid() && geom.pageBytes % 4 == 0 && geom.pageBytes <= 508
    }

    function PageBytes(): nat {
      geom.pageBytes
    }

    /** SPM_PAGESIZE as the uint16_t `pageSize` is compared with it. */
    function PageSize(): (r: bv16)
      requires Valid()
      ensures r < 0x4000
    {
      geom.pageBytes as bv16
    }

    /** SPM_PAGESIZE/sizeof(awaiting): the payload groups of one page. */
    function Groups(): nat {
      geom.pageBytes / 4
    }

    /** The four bytes after F0: the three identifier bytes, then the command. */
    function Expected(k: nat): bv8
      requires k < 4
    {
      if k == 0 then id0 else if k == 1 then id1 else if k == 2 then id2 else command
    }
  }

  function Modulus(w: Width): nat {
    if w == Bits16 then 0x1_0000 else 0x1_0000_0000
  }

  /** The byte address boot_program_page is called with: `pageIdx*STORAGE_PAGE_SIZE` in the configured width. */
  function CommitAddress(cfg: Config, pageIdx: bv16): uint32 {
    (pageIdx as int * STORAGE_PAGE_SIZE) % Modulus(cfg.width)
  }

  /** One call of boot_program_page: the address and the content of page[]. */
  datatype Commit = Commit(address: uint32, data: seq<bv8>)

  /** Where updater_main next calls getMidiByte, or that it has left its main loop. */
  datatype Phase =
    | Seek            // waiting for F0
    | Header(k: nat)  // identifier byte k (0..2), or the command (3)
    | SizeHi | SizeLo
    | IndexHi | IndexLo
    | Payload         // inside the data loop
    | CrcHi | CrcMid | CrcLo
    | Terminator      // waiting for F7
    | Done(success: bool)
  {
    /** The size and index fields, read with UPDATER_CRC_BYTE. */
    predicate Field() {
      SizeHi? || SizeLo? || IndexHi? || IndexLo?
    }

    /** The CRC field, read with UPDATER_GET_BYTE. */
    predicate Trailer() {
      CrcHi? || CrcMid? || CrcLo?
    }

    /** The phases after both index bytes have been read. */
    predicate Indexed() {
      Payload? || Trailer() || Terminator?
    }
  }

  /**
   * What updater_main has received in the current frame attempt and what
   * outlives it: `covered` are the bytes passed to updateCRC since `crc` was
   * last cleared, `index` the page-index bytes, `trailer` the CRC-field
   * bytes, `group` the bytes of the data group being received and `groups`
   * the number of whole groups (`i`, with `byteIdx == 4 * i`); `page` is the
   * static page[] and `commits` the pages programmed so far.
   */
  datatype Machine = Machine(
    phase: Phase, covered: seq<bv8>, index: seq<bv8>, trailer: seq<bv8>,
    group: seq<bv8>, groups: nat, page: seq<bv8>, commits: seq<Commit>)
  {
    predicate Valid(cfg: Config) {
      |page| == cfg.PageBytes() && Sized(cfg, commits) &&
      (phase.Header? ==> phase.k < 4) &&
      (phase.Header? || phase.SizeHi? ==> covered == []) &&
      (phase.SizeLo? ==> |covered| == 1) &&
      (phase.IndexLo? ==> |index| == 1) &&
      (phase.Indexed() ==> |index| == 2) &&
      (phase.Payload? ==> groups < cfg.Groups() && |group| < 5) &&
      (phase.CrcMid? ==> |trailer| == 1) &&
      (phase.CrcLo? ==> |trailer| == 2)
    }
  }

  /** Every commit carries a whole page. */
  predicate Sized(cfg: Config, commits: seq<Commit>) {
    forall k :: 0 <= k < |commits| ==> |commits[k].data| == cfg.PageBytes()
  }

  /** The value of `crc`: the CRC of the bytes fed to updateCRC since it was cleared. */
  function RunningCrc(m: Machine): bv16 {
    Crc(0, m.covered)
  }

  /** The value of `pageIdx` once both index bytes are in. */
  function PageIndex(m: Machine): bv16
    requires |m.index| == 2
  {
    Field14(m.index[0], m.index[1])
  }

  /** The machine when the main loop is first entered; page[] holds whatever the static array holds. */
  function Start(page: seq<bv8>): Machine {
    Machine(Seek, [], [], [], [], 0, page, [])
  }

  /** Four bytes stored at `at`, as `page[byteIdx++] = awaiting[k]` does four times. */
  function Store4(page: seq<bv8>, at: nat, out: seq<bv8>): (r: seq<bv8>)
    requires at + 4 <= |page| && |out| == 4
    ensures |r| == |page|
  {
    page[at := out[0]][at + 1 := out[1]][at + 2 := out[2]][at + 3 := out[3]]
  }

  /** Waiting for F0: any other byte restarts the loop (`continue`), which clears the CRC again. */
  function SeekStep(cfg: Config, m: Machine, r: Rx): (n: Machine)
    requires cfg.Valid() && m.Valid(cfg) && m.phase.Seek?
    ensures n.Valid(cfg)
  {
    if r.RxError? then m.(phase := Done(false))
    else if r.data == SYSEX_START then m.(phase := Header(0), covered := [])
    else m.(covered := [])
  }

  /** UPDATER_WAIT_BYTE for the identifier and the command: any other byte ends the session. */
  function HeaderStep(cfg: Config, m: Machine, r: Rx): (n: Machine)
    requires cfg.Valid() && m.Valid(cfg) && m.phase.Header?
    ensures n.Valid(cfg)
  {
    var k := m.phase.k;
    if r.RxError? || r.data != cfg.Expected(k) then m.(phase := Done(false))
    else if k < 3 then m.(phase := Header(k + 1))
    else m.(phase := SizeHi)
  }

  /** UPDATER_CRC_BYTE for the size and index fields; the size check follows the low size byte. */
  function FieldStep(cfg: Config, m: Machine, r: Rx): (n: Machine)
    requires cfg.Valid() && m.Valid(cfg) && m.phase.Field()
    ensures n.Valid(cfg)
  {
    if r.RxError? then m.(phase := Done(false))
    else
      var covered := m.covered + [r.data];
      match m.phase
      case SizeHi => m.(phase := SizeLo, covered := covered)
      case SizeLo =>
        var size := Field14(m.covered[0], r.data);
        m.(phase := if size != cfg.PageSize() then Done(size == 0) else IndexHi, covered := covered)
      case IndexHi => m.(phase := IndexLo, covered := covered, index := [r.data])
      case IndexLo => m.(phase := Payload, covered := covered, index := m.index + [r.data], group := [], groups := 0)
  }

  /** A step in the data loop: an error leaves the loop for the CRC field, every fifth byte completes a group. */
  function PayloadStep(cfg: Config, m: Machine, r: Rx): (n: Machine)
    requires cfg.Valid() && m.Valid(cfg) && m.phase.Payload?
    ensures n.Valid(cfg)
  {
    if r.RxError? then m.(phase := CrcHi)
    else if |m.group| < 4 then m.(covered := m.covered + [r.data], group := m.group + [r.data])
    else
      var groups := m.groups + 1;
      m.(covered := m.covered + [r.data], group := [], groups := groups,
         page := Store4(m.page, 4 * m.groups, Unpack(m.group + [r.data])),
         phase := if groups < cfg.Groups() then Payload else CrcHi)
  }

  /** UPDATER_GET_BYTE for the CRC field, not covered by the CRC; the comparison follows the third byte. */
  function CrcStep(cfg: Config, m: Machine, r: Rx): (n: Machine)
    requires cfg.Valid() && m.Valid(cfg) && m.phase.Trailer()
    ensures n.Valid(cfg)
  {
    if r.RxError? then m.(phase := Done(false))
    else
      match m.phase
      case CrcHi => m.(phase := CrcMid, trailer := [r.data])
      case CrcMid => m.(phase := CrcLo, trailer := m.trailer + [r.data])
      case CrcLo =>
        var sent := CrcField(m.trailer[0], m.trailer[1], r.data);
        m.(phase := if sent != RunningCrc(m) then Done(false) else Terminator, trailer := m.trailer + [r.data])
  }

  /** UPDATER_WAIT_BYTE(0xf7), then boot_program_page(pageIdx*STORAGE_PAGE_SIZE, page) and the next loop iteration. */
  function TerminatorStep(cfg: Config, m: Machine, r: Rx): (n: Machine)
    requires cfg.Valid() && m.Valid(cfg) && m.phase.Terminator?
    ensures n.Valid(cfg)
  {
    if r.RxError? || r.data != SYSEX_END then m.(phase := Done(false))
    else m.(phase := Seek, covered := [], commits := m.commits + [Commit(CommitAddress(cfg, PageIndex(m)), m.page)])
  }

  /** One getMidiByte result. Outside the data loop an error (-1) ends the session with 'E'. */
  function Step(cfg: Config, m: Machine, r: Rx): (n: Machine)
    requires cfg.Valid() && m.Valid(cfg)
    ensures n.Valid(cfg)
  {
    match m.phase
    case Done(_) => m
    case Seek => SeekStep(cfg, m, r)
    case Header(_) => HeaderStep(cfg, m, r)
    case SizeHi => FieldStep(cfg, m, r)
    case SizeLo => FieldStep(cfg, m, r)
    case IndexHi => FieldStep(cfg, m, r)
    case IndexLo => FieldStep(cfg, m, r)
    case Payload => PayloadStep(cfg, m, r)
    case CrcHi => CrcStep(cfg, m, r)
    case CrcMid => CrcStep(cfg, m, r)
    case CrcLo => CrcStep(cfg, m, r)
    case Terminator => TerminatorStep(cfg, m, r)
  }

  /** The machine after a stream of getMidiByte results. */
  function Run(cfg: Config, m: Machine, t: seq<Rx>): (n: Machine)
    requires cfg.Valid() && m.Valid(cfg)
    ensures n.Valid(cfg)
    decreases |t|
  {
    if t == [] then m else Run(cfg, Step(cfg, m, t[0]), t[1..])
  }

  /** Once the main loop is left, nothing more is read. */
  lemma {:induction false} RunDone(cfg: Config, m: Machine, t: seq<Rx>)
    requires cfg.Valid() && m.Valid(cfg) && m.phase.Done?
    ensures Run(cfg, m, t) == m
    decreases |t|
  {
    if t != [] {
      RunDone(cfg, Step(cfg, m, t[0]), t[1..]);
    }
  }

  /** What the session shows: nothing if update mode was not entered, the final 7-segment pattern, or nothing yet while getMidiByte waits for a byte that never comes. */
  datatype Outcome = NotEntered | Finished(display: bv8) | Stalled

  function Verdict(m: Machine): (o: Outcome)
    ensures o.Finished? <==> m.phase.Done?
    ensures o.Finished? ==> (o.display == SHOW_S <==> m.phase.success)
  {
    if m.phase.Done? then Finished(if m.phase.success then SHOW_S else SHOW_E) else Stalled
  }

  /** The update trigger: both samples of CSI1 have bits 0xC0 set. */
  predicate Triggered(sample1: bv8, sample2: bv8) {
    sample1 & TRIGGER_MASK == TRIGGER_MASK && sample2 & TRIGGER_MASK == TRIGGER_MASK
  }

  /** The flash after boot_program_page has been called for each commit in order. */
  function Flashed(g: Flash.Geometry, w: seq<bv16>, commits: seq<Commit>): (r: seq<bv16>)
    requires g.Valid() && forall k :: 0 <= k < |commits| ==> |commits[k].data| >= g.pageBytes
    ensures |r| == |w|
    decreases |commits|
  {
    if commits == [] then w
    else
      var last := commits[|commits| - 1];
      Flash.Programmed(g, Flashed(g, w, commits[..|commits| - 1]), last.address, last.data)
  }

  /** How a part of the loop body ends: on to the next part, out of the enclosing loop, or blocked in getMidiByte. */
  datatype Flow = Proceed | Exit | Stall

  /** The cursor `pos` into the stream agrees with the machine `m`: running the rest of the stream from `m` gives `final`. */
  ghost predicate Tracks(cfg: Config, input: seq<Rx>, pos: nat, m: Machine, final: Machine) {
    cfg.Valid() && m.Valid(cfg) && pos <= |input| && Run(cfg, m, input[pos..]) == final
  }

  /** Blocked in getMidiByte with the machine outside the terminal phase: the session ends in that machine. */
  ghost predicate Blocked(input: seq<Rx>, pos: nat, n: Machine, final: Machine) {
    pos == |input| && n == final && !n.phase.Done?
  }

  /** n differs from m at most in the frame being received: page[] and the commits are the same. */
  ghost predicate SameStore(n: Machine, m: Machine) {
    n.page == m.page && n.commits == m.commits
  }

  /** The stream is exhausted: the machine is where the session ends. */
  lemma Exhausted(cfg: Config, input: seq<Rx>, pos: nat, m: Machine, final: Machine)
    requires Tracks(cfg, input, pos, m, final) && pos == |input|
    ensures m == final
  {
    assert input[pos..] == [];
  }

  /** getMidiByte: the next element of the stream, and one step of the machine. */
  method Receive(ghost cfg: Config, input: seq<Rx>, pos: nat, ghost m: Machine, ghost final: Machine)
    returns (r: Rx, next: nat, ghost n: Machine)
    requires Tracks(cfg, input, pos, m, final) && pos < |input|
    ensures r == input[pos] && next == pos + 1
    ensures n == Step(cfg, m, r) && Tracks(cfg, input, next, n, final)
  {
    r := input[pos];
    next := pos + 1;
    n := Step(cfg, m, r);
    assert input[pos..][1..] == input[next..];
  }

  /** UPDATER_GET_BYTE: a byte, an error (the enclosing loop is left), or no byte ever. */
  method GetByte(ghost cfg: Config, input: seq<Rx>, pos: nat, ghost m: Machine, ghost final: Machine)
    returns (flow: Flow, b: bv8, next: nat, ghost n: Machine)
    requires Tracks(cfg, input, pos, m, final) && !m.phase.Done?
    ensures Tracks(cfg, input, next, n, final) && pos <= next
    ensures flow != Stall ==> pos < |input| && next == pos + 1 && n == Step(cfg, m, input[pos])
    ensures flow == Proceed ==> input[pos] == Rx(b)
    ensures flow == Exit ==> input[pos] == RxError
    ensures flow == Stall ==> Blocked(input, next, n, final) && n == m
  {
    b := 0;
    if pos == |input| {
      Exhausted(cfg, input, pos, m, final);
      return Stall, b, pos, m;
    }
    var r;
    r, next, n := Receive(cfg, input, pos, m, final);
    if r.RxError? {
      return Exit, b, next, n;
    }
    return Proceed, r.data, next, n;
  }

  /** UPDATER_WAIT_BYTE: the next byte must be `waited`. */
  method WaitByte(ghost cfg: Config, input: seq<Rx>, pos: nat, ghost m: Machine, ghost final: Machine, waited: bv8)
    returns (flow: Flow, next: nat, ghost n: Machine)
    requires Tracks(cfg, input, pos, m, final) && !m.phase.Done?
    ensures Tracks(cfg, input, next, n, final) && pos <= next
    ensures flow != Stall ==> pos < |input| && next == pos + 1 && n == Step(cfg, m, input[pos])
    ensures flow == Proceed <==> flow != Stall && input[pos] == Rx(waited)
    ensures flow == Stall ==> Blocked(input, next, n, final) && n == m
  {
    var b;
    flow, b, next, n := GetByte(cfg, input, pos, m, final);
    if flow == Proceed && b != waited {
      flow := Exit;
    }
  }

  /** The four UPDATER_WAIT_BYTE after F0: the identifier and the update command. */
  method ReceiveIds(cfg: Config, input: seq<Rx>, pos: nat, ghost m: Machine, ghost final: Machine)
    returns (flow: Flow, next: nat, ghost n: Machine)
    requires Tracks(cfg, input, pos, m, final) && m.phase == Header(0)
    ensures Tracks(cfg, input, next, n, final) && pos <= next
    ensures flow == Proceed ==> n == m.(phase := SizeHi)
    ensures flow == Exit ==> n == m.(phase := Done(false))
    ensures flow == Stall ==> Blocked(input, next, n, final) && SameStore(n, m)
  {
    next, n := pos, m;
    var k := 0;
    while k < 4
      invariant 0 <= k <= 4 && Tracks(cfg, input, next, n, final) && pos <= next
      invariant n == m.(phase := if k < 4 then Header(k) else SizeHi)
    {
      flow, next, n := WaitByte(cfg, input, next, n, final, cfg.Expected(k));
      if flow != Proceed {
        return;
      }
      k := k + 1;
    }
    flow := Proceed;
  }

  /** In the fields and the data loop every byte received is covered by the CRC. */
  lemma StepCovers(cfg: Config, m: Machine, b: bv8)
    requires cfg.Valid() && m.Valid(cfg) && (m.phase.Field() || m.phase.Payload?)
    ensures Step(cfg, m, Rx(b)).covered == m.covered + [b]
  {
    if m.phase.Payload? {
      assert Step(cfg, m, Rx(b)) == PayloadStep(cfg, m, Rx(b));
    } else {
      assert Step(cfg, m, Rx(b)) == FieldStep(cfg, m, Rx(b));
    }
  }

  /** In the size and index fields a byte is handled by FieldStep. */
  lemma FieldByte(cfg: Config, m: Machine, b: bv8)
    requires cfg.Valid() && m.Valid(cfg) && m.phase.Field()
    ensures Step(cfg, m, Rx(b)) == FieldStep(cfg, m, Rx(b))
  {
  }

  /** UPDATER_CRC_BYTE: the byte goes into the running CRC. */
  method CrcByte(ghost cfg: Config, input: seq<Rx>, pos: nat, ghost m: Machine, ghost final: Machine, crc: bv16)
    returns (flow: Flow, b: bv8, crc': bv16, next: nat, ghost n: Machine)
    requires Tracks(cfg, input, pos, m, final) && crc == RunningCrc(m) && (m.phase.Field() || m.phase.Payload?)
    ensures Tracks(cfg, input, next, n, final) && pos <= next
    ensures flow == Proceed ==> n == Step(cfg, m, Rx(b)) && n.covered == m.covered + [b] && crc' == RunningCrc(n)
    ensures flow == Exit ==> n == Step(cfg, m, RxError) && crc' == crc
    ensures flow == Stall ==> Blocked(input, next, n, final) && n == m
  {
    flow, b, next, n := GetByte(cfg, input, pos, m, final);
    crc' := crc;
    if flow == Proceed {
      crc' := Update(crc, b);
      CrcSnoc(0, m.covered, b);
      StepCovers(cfg, m, b);
    }
  }

  /** The size field: `pageSize = (b & 0x7f) << 7`, then `pageSize |= b & 0x7f`, both bytes under the CRC; the machine holds the size check. */
  method ReceiveSize(cfg: Config, input: seq<Rx>, pos: nat, ghost m: Machine, ghost final: Machine, crc: bv16)
    returns (flow: Flow, pageSize: bv16, crc': bv16, next: nat, ghost n: Machine)
    requires Tracks(cfg, input, pos, m, final) && m.phase.SizeHi? && crc == RunningCrc(m)
    ensures Tracks(cfg, input, next, n, final) && pos <= next && SameStore(n, m)
    ensures flow == Proceed ==>
      n.phase == (if pageSize != cfg.PageSize() then Done(pageSize == 0) else IndexHi) && crc' == RunningCrc(n)
    ensures flow == Exit ==> n.phase == Done(false)
    ensures flow == Stall ==> Blocked(input, next, n, final)
  {
    var b;
    flow, b, crc', next, n := CrcByte(cfg, input, pos, m, final, crc);
    if flow != Proceed {
      return flow, 0, crc', next, n;
    }
    FieldByte(cfg, m, b);
    pageSize := FieldHigh(b);
    ghost var n1 := n;
    assert n1.phase.SizeLo? && n1.covered == [b];
    flow, b, crc', next, n := CrcByte(cfg, input, next, n, final, crc');
    if flow != Proceed {
      return flow, pageSize, crc', next, n;
    }
    FieldByte(cfg, n1, b);
    pageSize := pageSize | Low7(b);
  }

  /** The page-index field: `pageIdx = (b & 0x7f) << 7`, then `pageIdx |= b & 0x7f`, both bytes under the CRC. */
  method ReceiveIndex(cfg: Config, input: seq<Rx>, pos: nat, ghost m: Machine, ghost final: Machine, crc: bv16)
    returns (flow: Flow, pageIdx: bv16, crc': bv16, next: nat, ghost n: Machine)
    requires Tracks(cfg, input, pos, m, final) && m.phase.IndexHi? && crc == RunningCrc(m)
    ensures Tracks(cfg, input, next, n, final) && pos <= next && SameStore(n, m)
    ensures flow == Proceed ==>
      n.phase.Payload? && n.groups == 0 && n.group == [] && crc' == RunningCrc(n) && pageIdx == PageIndex(n)
    ensures flow == Exit ==> n.phase == Done(false)
    ensures flow == Stall ==> Blocked(input, next, n, final)
  {
    var b;
    flow, b, crc', next, n := CrcByte(cfg, input, pos, m, final, crc);
    if flow != Proceed {
      return flow, 0, crc', next, n;
    }
    FieldByte(cfg, m, b);
    pageIdx := FieldHigh(b);
    ghost var n1 := n;
    assert n1.phase.IndexLo? && n1.index == [b];
    flow, b, crc', next, n := CrcByte(cfg, input, next, n, final, crc');
    if flow != Proceed {
      return flow, pageIdx, crc', next, n;
    }
    FieldByte(cfg, n1, b);
    pageIdx := pageIdx | Low7(b);
    assert n.index == [n1.index[0], b];
  }

  /** An error in the data loop leaves it for the CRC field with nothing else changed. */
  lemma PayloadError(cfg: Config, m: Machine)
    requires cfg.Valid() && m.Valid(cfg) && m.phase.Payload?
    ensures Step(cfg, m, RxError) == m.(phase := CrcHi)
  {
  }

  /** One of the first four bytes of a group is only recorded. */
  lemma PayloadLow(cfg: Config, m: Machine, b: bv8)
    requires cfg.Valid() && m.Valid(cfg) && m.phase.Payload? && |m.group| < 4
    ensures Step(cfg, m, Rx(b)) == m.(covered := m.covered + [b], group := m.group + [b])
  {
  }

  /** The fifth byte of a group completes it: four unpacked bytes go into the page. */
  lemma PayloadHigh(cfg: Config, m: Machine, b: bv8)
    requires cfg.Valid() && m.Valid(cfg) && m.phase.Payload? && |m.group| == 4
    ensures Step(cfg, m, Rx(b)) == m.(covered := m.covered + [b], group := [], groups := m.groups + 1,
      page := Store4(m.page, 4 * m.groups, Unpack(m.group + [b])),
      phase := if m.groups + 1 < cfg.Groups() then Payload else CrcHi)
  {
  }

  /** The low seven bits of a group byte, as `awaiting[k] = b & 0x7f` stores them. */
  function LowBits(b: bv8): bv8 {
    b & 0x7f
  }

  /** Each of the first four bytes of a data group: `awaiting[k] = b & 0x7f`. */
  method GroupLow(ghost cfg: Config, input: seq<Rx>, pos: nat, ghost m: Machine, ghost final: Machine, crc: bv16,
                  awaiting: array<bv8>, k: nat)
    returns (flow: Flow, crc': bv16, next: nat, ghost n: Machine)
    requires Tracks(cfg, input, pos, m, final) && m.phase.Payload? && |m.group| == k < 4 && crc == RunningCrc(m)
    requires awaiting.Length == 4
    modifies awaiting
    ensures Tracks(cfg, input, next, n, final) && pos <= next && SameStore(n, m) && n.index == m.index && n.groups == m.groups
    ensures flow == Proceed ==> n.phase.Payload? && |n.group| == k + 1 && n.group[..k] == m.group && crc' == RunningCrc(n)
    ensures flow == Proceed ==> awaiting[k] == LowBits(n.group[k])
    ensures forall j :: 0 <= j < 4 && j != k ==> awaiting[j] == old(awaiting[j])
    ensures flow == Exit ==> n.phase.CrcHi? && crc' == RunningCrc(n)
    ensures flow == Stall ==> Blocked(input, next, n, final)
  {
    var b;
    flow, b, crc', next, n := CrcByte(cfg, input, pos, m, final, crc);
    if flow == Proceed {
      PayloadLow(cfg, m, b);
      awaiting[k] := LowBits(b);
      assert n.group == m.group + [b];
    } else if flow == Exit {
      PayloadError(cfg, m);
    }
  }

  /** The first four bytes of a data group, each stored as `awaiting[k] = b & 0x7f`. */
  method ReceiveLows(cfg: Config, input: seq<Rx>, pos: nat, ghost m: Machine, ghost final: Machine, crc: bv16,
                     awaiting: array<bv8>)
    returns (flow: Flow, crc': bv16, next: nat, ghost n: Machine)
    requires Tracks(cfg, input, pos, m, final) && m.phase.Payload? && m.group == [] && crc == RunningCrc(m)
    requires awaiting.Length == 4
    modifies awaiting
    ensures Tracks(cfg, input, next, n, final) && pos <= next && SameStore(n, m) && n.index == m.index && n.groups == m.groups
    ensures flow == Proceed ==> n.phase.Payload? && |n.group| == 4 && crc' == RunningCrc(n)
    ensures flow == Proceed ==>
      awaiting[0] == LowBits(n.group[0]) && awaiting[1] == LowBits(n.group[1]) &&
      awaiting[2] == LowBits(n.group[2]) && awaiting[3] == LowBits(n.group[3])
    ensures flow == Exit ==> n.phase.CrcHi? && crc' == RunningCrc(n)
    ensures flow == Stall ==> Blocked(input, next, n, final)
  {
    flow, crc', next, n := GroupLow(cfg, input, pos, m, final, crc, awaiting, 0);
    if flow != Proceed { return; }
    ghost var n1 := n;
    flow, crc', next, n := GroupLow(cfg, input, next, n, final, crc', awaiting, 1);
    if flow != Proceed { return; }
    ghost var n2 := n;
    flow, crc', next, n := GroupLow(cfg, input, next, n, final, crc', awaiting, 2);
    if flow != Proceed { return; }
    ghost var n3 := n;
    flow, crc', next, n := GroupLow(cfg, input, next, n, final, crc', awaiting, 3);
    if flow != Proceed { return; }
    assert n.group[..3] == n3.group && n3.group[..2] == n2.group && n2.group[..1] == n1.group;
    assert n.group[0] == n1.group[0] && n.group[1] == n2.group[1] && n.group[2] == n3.group[2];
  }

  /** `a | ((b & 1) << 7)`, `a | ((b & 2) << 6)` and so on: bit k of the MSB byte or-ed into byte k. */
  function WithMsb(a: bv8, msbs: bv8, k: nat): bv8
    requires k < 4
  {
    a | MsbOf(msbs, k)
  }

  /** Unpack in the order the data loop works: the low bits first, the MSB of each byte or-ed in afterwards. */
  lemma UnpackByMsbs(g: seq<bv8>)
    requires |g| == 5
    ensures Unpack(g) == [WithMsb(LowBits(g[0]), g[4], 0), WithMsb(LowBits(g[1]), g[4], 1),
                          WithMsb(LowBits(g[2]), g[4], 2), WithMsb(LowBits(g[3]), g[4], 3)]
  {
  }

  /** The MSB byte of a group: `awaiting[k] |= MsbOf(b, k)` for each k, which completes the unpacking. */
  method ApplyMsbs(awaiting: array<bv8>, b: bv8, ghost g: seq<bv8>)
    requires awaiting.Length == 4 && |g| == 4
    requires awaiting[0] == LowBits(g[0]) && awaiting[1] == LowBits(g[1]) &&
      awaiting[2] == LowBits(g[2]) && awaiting[3] == LowBits(g[3])
    modifies awaiting
    ensures awaiting[..] == Unpack(g + [b])
  {
    ghost var g5 := g + [b];
    assert g5[0] == g[0] && g5[1] == g[1] && g5[2] == g[2] && g5[3] == g[3] && g5[4] == b;
    UnpackByMsbs(g5);
    awaiting[0] := WithMsb(awaiting[0], b, 0);
    awaiting[1] := WithMsb(awaiting[1], b, 1);
    awaiting[2] := WithMsb(awaiting[2], b, 2);
    awaiting[3] := WithMsb(awaiting[3], b, 3);
  }

  /** `page[byteIdx++] = awaiting[k]` for k from 0 to 3. */
  method CopyOut(page: array<bv8>, byteIdx: nat, awaiting: array<bv8>) returns (byteIdx': nat)
    requires awaiting.Length == 4 && awaiting != page && byteIdx + 4 <= page.Length
    modifies page
    ensures page[..] == Store4(old(page[..]), byteIdx, awaiting[..]) && byteIdx' == byteIdx + 4
  {
    byteIdx' := byteIdx;
    page[byteIdx'] := awaiting[0];
    byteIdx' := byteIdx' + 1;
    page[byteIdx'] := awaiting[1];
    byteIdx' := byteIdx' + 1;
    page[byteIdx'] := awaiting[2];
    byteIdx' := byteIdx' + 1;
    page[byteIdx'] := awaiting[3];
    byteIdx' := byteIdx' + 1;
  }

  /** The fifth byte of a group: its bits complete the four bytes, which are copied to the page. */
  method GroupEnd(cfg: Config, input: seq<Rx>, pos: nat, ghost m: Machine, ghost final: Machine, crc: bv16,
                  awaiting: array<bv8>, page: array<bv8>, byteIdx: nat)
    returns (flow: Flow, crc': bv16, next: nat, ghost n: Machine, byteIdx': nat)
    requires Tracks(cfg, input, pos, m, final) && m.phase.Payload? && |m.group| == 4 && crc == RunningCrc(m)
    requires awaiting.Length == 4 && awaiting != page && page[..] == m.page && byteIdx == 4 * m.groups
    requires awaiting[0] == LowBits(m.group[0]) && awaiting[1] == LowBits(m.group[1]) &&
      awaiting[2] == LowBits(m.group[2]) && awaiting[3] == LowBits(m.group[3])
    modifies awaiting, page
    ensures Tracks(cfg, input, next, n, final) && pos <= next && n.commits == m.commits && n.index == m.index && page[..] == n.page
    ensures flow == Proceed ==>
      n.group == [] && n.groups == m.groups + 1 && byteIdx' == 4 * n.groups && crc' == RunningCrc(n) &&
      n.phase == (if n.groups < cfg.Groups() then Payload else CrcHi)
    ensures flow == Exit ==> n.phase.CrcHi? && crc' == RunningCrc(n)
    ensures flow == Stall ==> Blocked(input, next, n, final)
  {
    byteIdx' := byteIdx;
    var b;
    flow, b, crc', next, n := CrcByte(cfg, input, pos, m, final, crc);
    if flow == Exit {
      PayloadError(cfg, m);
    }
    if flow != Proceed { return; }
    PayloadHigh(cfg, m, b);
    ApplyMsbs(awaiting, b, m.group);
    byteIdx' := CopyOut(page, byteIdx, awaiting);
  }

  /** One pass of the data loop: four low-bit bytes, the MSB byte, then the four bytes copied to the page. */
  method ReceiveGroup(cfg: Config, input: seq<Rx>, pos: nat, ghost m: Machine, ghost final: Machine, crc: bv16,
                      awaiting: array<bv8>, page: array<bv8>, byteIdx: nat)
    returns (flow: Flow, crc': bv16, next: nat, ghost n: Machine, byteIdx': nat)
    requires Tracks(cfg, input, pos, m, final) && m.phase.Payload? && m.group == [] && crc == RunningCrc(m)
    requires awaiting.Length == 4 && awaiting != page && page[..] == m.page && byteIdx == 4 * m.groups
    modifies awaiting, page
    ensures Tracks(cfg, input, next, n, final) && pos <= next && n.commits == m.commits && n.index == m.index && page[..] == n.page
    ensures flow == Proceed ==>
      n.group == [] && n.groups == m.groups + 1 && byteIdx' == 4 * n.groups && crc' == RunningCrc(n) &&
      n.phase == (if n.groups < cfg.Groups() then Payload else CrcHi)
    ensures flow == Exit ==> n.phase.CrcHi? && crc' == RunningCrc(n)
    ensures flow == Stall ==> Blocked(input, next, n, final)
  {
    byteIdx' := byteIdx;
    flow, crc', next, n := ReceiveLows(cfg, input, pos, m, final, crc, awaiting);
    if flow != Proceed { return; }
    flow, crc', next, n, byteIdx' := GroupEnd(cfg, input, next, n, final, crc', awaiting, page, byteIdx);
  }

  /**
   * The data loop `for(i = 0; i < SPM_PAGESIZE/sizeof(awaiting); ++i)`: a getMidiByte error leaves
   * it early (the `break` of UPDATER_GET_BYTE ends only this loop), and either way the CRC field follows.
   */
  method ReceivePayload(cfg: Config, input: seq<Rx>, pos: nat, ghost m: Machine, ghost final: Machine, crc: bv16,
                        awaiting: array<bv8>, page: array<bv8>)
    returns (flow: Flow, crc': bv16, next: nat, ghost n: Machine)
    requires Tracks(cfg, input, pos, m, final) && m.phase.Payload? && m.group == [] && m.groups == 0
    requires crc == RunningCrc(m) && awaiting.Length == 4 && awaiting != page && page[..] == m.page
    modifies awaiting, page
    ensures Tracks(cfg, input, next, n, final) && pos <= next && page[..] == n.page && n.commits == m.commits && n.index == m.index
    ensures flow != Stall ==> flow == Proceed && n.phase.CrcHi? && crc' == RunningCrc(n)
    ensures flow == Stall ==> Blocked(input, next, n, final)
  {
    var byteIdx := 0;
    var i := 0;
    next, n, crc' := pos, m, crc;
    while i < cfg.Groups()
      invariant Tracks(cfg, input, next, n, final) && pos <= next && page[..] == n.page && n.commits == m.commits && n.index == m.index
      invariant i == n.groups <= cfg.Groups() && byteIdx == 4 * i && n.group == [] && crc' == RunningCrc(n)
      invariant n.phase == if i < cfg.Groups() then Payload else CrcHi
      decreases cfg.Groups() - i
    {
      flow, crc', next, n, byteIdx := ReceiveGroup(cfg, input, next, n, final, crc', awaiting, page, byteIdx);
      if flow == Stall {
        return;
      }
      if flow == Exit {
        return Proceed, crc', next, n;
      }
      i := i + 1;
    }
    flow := Proceed;
  }

  /** The first two bytes of the CRC field are only recorded; an error there ends the session. */
  lemma TrailerStep(cfg: Config, m: Machine, r: Rx)
    requires cfg.Valid() && m.Valid(cfg) && (m.phase.CrcHi? || m.phase.CrcMid?)
    ensures Step(cfg, m, r) ==
      if r.RxError? then m.(phase := Done(false))
      else if m.phase.CrcHi? then m.(phase := CrcMid, trailer := [r.data])
      else m.(phase := CrcLo, trailer := m.trailer + [r.data])
  {
  }

  /** The third byte of the CRC field completes `crcSent`, which is compared with `crc`. */
  lemma TrailerLast(cfg: Config, m: Machine, r: Rx)
    requires cfg.Valid() && m.Valid(cfg) && m.phase.CrcLo?
    ensures Step(cfg, m, r) ==
      if r.RxError? then m.(phase := Done(false))
      else m.(phase := if CrcField(m.trailer[0], m.trailer[1], r.data) != RunningCrc(m) then Done(false) else Terminator,
              trailer := m.trailer + [r.data])
  {
  }

  /** UPDATER_GET_BYTE for the first two bytes of the CRC field. */
  method TrailerByte(ghost cfg: Config, input: seq<Rx>, pos: nat, ghost m: Machine, ghost final: Machine)
    returns (flow: Flow, b: bv8, next: nat, ghost n: Machine)
    requires Tracks(cfg, input, pos, m, final) && (m.phase.CrcHi? || m.phase.CrcMid?)
    ensures Tracks(cfg, input, next, n, final) && pos <= next && SameStore(n, m) && n.index == m.index && n.covered == m.covered
    ensures flow == Proceed ==>
      n.phase == (if m.phase.CrcHi? then CrcMid else CrcLo) &&
      n.trailer == (if m.phase.CrcHi? then [b] else m.trailer + [b])
    ensures flow == Exit ==> n.phase == Done(false)
    ensures flow == Stall ==> Blocked(input, next, n, final)
  {
    flow, b, next, n := GetByte(cfg, input, pos, m, final);
    if flow != Stall {
      TrailerStep(cfg, m, input[pos]);
    }
  }

  /** The third byte of the CRC field: `crcSent |= b & 0x03` completes the sent CRC. */
  method TrailerLastByte(ghost cfg: Config, input: seq<Rx>, pos: nat, ghost m: Machine, ghost final: Machine, crcSent: bv16)
    returns (flow: Flow, crcSent': bv16, next: nat, ghost n: Machine)
    requires Tracks(cfg, input, pos, m, final) && m.phase.CrcLo?
    requires crcSent == CrcHigh(m.trailer[0]) | CrcMiddle(m.trailer[1])
    ensures Tracks(cfg, input, next, n, final) && pos <= next && SameStore(n, m) && n.index == m.index && n.covered == m.covered
    ensures flow == Proceed ==> n.phase == if crcSent' != RunningCrc(m) then Done(false) else Terminator
    ensures flow == Exit ==> n.phase == Done(false)
    ensures flow == Stall ==> Blocked(input, next, n, final)
  {
    var b;
    crcSent' := crcSent;
    flow, b, next, n := GetByte(cfg, input, pos, m, final);
    if flow == Stall { return; }
    TrailerLast(cfg, m, input[pos]);
    if flow == Exit { return; }
    crcSent' := crcSent | CrcLow(b);
  }

  /** `crcSent = (b & 0x7f) << 9`, `crcSent |= (b & 0x7f) << 2`, `crcSent |= b & 0x03`, none of it under the CRC. */
  method ReceiveCrc(cfg: Config, input: seq<Rx>, pos: nat, ghost m: Machine, ghost final: Machine)
    returns (flow: Flow, crcSent: bv16, next: nat, ghost n: Machine)
    requires Tracks(cfg, input, pos, m, final) && m.phase.CrcHi?
    ensures Tracks(cfg, input, next, n, final) && pos <= next && SameStore(n, m) && n.index == m.index && n.covered == m.covered
    ensures flow == Proceed ==> n.phase == if crcSent != RunningCrc(m) then Done(false) else Terminator
    ensures flow == Exit ==> n.phase == Done(false)
    ensures flow == Stall ==> Blocked(input, next, n, final)
  {
    crcSent := 0;
    var b0, b1;
    flow, b0, next, n := TrailerByte(cfg, input, pos, m, final);
    if flow != Proceed { return; }
    crcSent := CrcHigh(b0);
    flow, b1, next, n := TrailerByte(cfg, input, next, n, final);
    if flow != Proceed { return; }
    crcSent := crcSent | CrcMiddle(b1);
    flow, crcSent, next, n := TrailerLastByte(cfg, input, next, n, final, crcSent);
  }

  /** The terminating F7: the frame is complete and the page is committed. */
  lemma TerminatorEnd(cfg: Config, m: Machine)
    requires cfg.Valid() && m.Valid(cfg) && m.phase.Terminator?
    ensures Step(cfg, m, Rx(SYSEX_END)) ==
      m.(phase := Seek, covered := [], commits := m.commits + [Commit(CommitAddress(cfg, PageIndex(m)), m.page)])
  {
  }

  /** The header of a frame after F0: identifier and command, size (with the size check) and page index. */
  method ReceiveHead(cfg: Config, input: seq<Rx>, pos: nat, ghost m: Machine, ghost final: Machine, crc: bv16)
    returns (flow: Flow, success: bool, pageIdx: bv16, crc': bv16, next: nat, ghost n: Machine)
    requires Tracks(cfg, input, pos, m, final) && m.phase == Header(0) && crc == RunningCrc(m)
    ensures Tracks(cfg, input, next, n, final) && pos <= next && SameStore(n, m)
    ensures flow == Proceed ==>
      n.phase.Payload? && n.groups == 0 && n.group == [] && crc' == RunningCrc(n) && pageIdx == PageIndex(n)
    ensures flow == Exit ==> n.phase == Done(success)
    ensures flow != Exit ==> !success
    ensures flow == Stall ==> Blocked(input, next, n, final)
  {
    success, pageIdx, crc' := false, 0, crc;
    flow, next, n := ReceiveIds(cfg, input, pos, m, final);
    if flow != Proceed { return; }
    var pageSize;
    flow, pageSize, crc', next, n := ReceiveSize(cfg, input, next, n, final, crc);
    if flow != Proceed { return; }
    if pageSize != cfg.PageSize() {
      success := pageSize == 0;
      return Exit, success, pageIdx, crc', next, n;
    }
    flow, pageIdx, crc', next, n := ReceiveIndex(cfg, input, next, n, final, crc');
  }

  /** The rest of a frame: data, CRC check and F7. */
  method ReceiveBody(cfg: Config, input: seq<Rx>, pos: nat, ghost m: Machine, ghost final: Machine, crc: bv16,
                     pageIdx: bv16, awaiting: array<bv8>, page: array<bv8>)
    returns (flow: Flow, next: nat, ghost n: Machine)
    requires Tracks(cfg, input, pos, m, final) && m.phase.Payload? && m.groups == 0 && m.group == []
    requires crc == RunningCrc(m) && pageIdx == PageIndex(m)
    requires awaiting.Length == 4 && awaiting != page && page[..] == m.page
    modifies awaiting, page
    ensures Tracks(cfg, input, next, n, final) && pos <= next && page[..] == n.page
    ensures flow == Proceed ==> n.phase.Seek? && n.commits == m.commits + [Commit(CommitAddress(cfg, pageIdx), n.page)]
    ensures flow == Exit ==> n.phase == Done(false) && n.commits == m.commits
    ensures flow == Stall ==> Blocked(input, next, n, final) && n.commits == m.commits
  {
    var crc';
    flow, crc', next, n := ReceivePayload(cfg, input, pos, m, final, crc, awaiting, page);
    if flow != Proceed { return; }
    var crcSent;
    flow, crcSent, next, n := ReceiveCrc(cfg, input, next, n, final);
    if flow != Proceed { return; }
    if crcSent != crc' {
      return Exit, next, n;
    }
    ghost var checked := n;
    flow, next, n := WaitByte(cfg, input, next, n, final, SYSEX_END);
    if flow == Proceed {
      TerminatorEnd(cfg, checked);
    }
  }

  /** Waiting for F0, which restarts the frame; an error ends the session. */
  lemma SeekByte(cfg: Config, m: Machine, r: Rx)
    requires cfg.Valid() && m.Valid(cfg) && m.phase.Seek?
    ensures Step(cfg, m, r) ==
      if r.RxError? then m.(phase := Done(false))
      else if r.data == SYSEX_START then m.(phase := Header(0), covered := [])
      else m.(covered := [])
  {
  }

  /**
   * One pass of the main loop: `crc = 0`, wait for F0 (any other byte: `continue`), receive the frame,
   * then boot_program_page(pageIdx*STORAGE_PAGE_SIZE, page). `w0` is the flash before the session.
   */
  method MainPass(cfg: Config, input: seq<Rx>, pos: nat, ghost m: Machine, ghost final: Machine,
                  awaiting: array<bv8>, page: array<bv8>, chip: Flash.Chip, ghost w0: seq<bv16>)
    returns (flow: Flow, success: bool, next: nat, ghost n: Machine)
    requires Tracks(cfg, input, pos, m, final) && m.phase.Seek? && page[..] == m.page
    requires awaiting.Length == 4 && awaiting != page
    requires chip.Valid() && chip.geom == cfg.geom && |w0| == |chip.words| && chip.words == Flashed(cfg.geom, w0, m.commits)
    modifies awaiting, page, chip
    ensures Tracks(cfg, input, next, n, final) && pos <= next && page[..] == n.page
    ensures chip.Valid() && chip.geom == cfg.geom && chip.sreg == old(chip.sreg)
    ensures chip.words == Flashed(cfg.geom, w0, n.commits)
    ensures flow == Proceed ==> n.phase.Seek? && pos < next
    ensures flow == Exit ==> n.phase == Done(success)
    ensures flow == Stall ==> Blocked(input, next, n, final)
  {
    success := false;
    var crc: bv16 := 0;
    var b;
    flow, b, next, n := GetByte(cfg, input, pos, m, final);
    if flow != Stall {
      SeekByte(cfg, m, input[pos]);
    }
    if flow != Proceed { return; }
    if b != SYSEX_START {
      return;
    }
    var pageIdx;
    flow, success, pageIdx, crc, next, n := ReceiveHead(cfg, input, next, n, final, crc);
    if flow != Proceed { return; }
    flow, next, n := ReceiveBody(cfg, input, next, n, final, crc, pageIdx, awaiting, page);
    if flow != Proceed { return; }
    ProgramCommit(cfg, CommitAddress(cfg, pageIdx), page, chip, w0, m.commits);
  }

  /** boot_program_page for one more commit: the flash is programmed with the commits so far and this one. */
  method ProgramCommit(cfg: Config, address: uint32, page: array<bv8>, chip: Flash.Chip,
                       ghost w0: seq<bv16>, ghost commits: seq<Commit>)
    requires cfg.Valid() && page.Length == cfg.PageBytes() && Sized(cfg, commits)
    requires chip.Valid() && chip.geom == cfg.geom && chip.words == Flashed(cfg.geom, w0, commits)
    modifies chip
    ensures chip.Valid() && chip.geom == cfg.geom && chip.sreg == old(chip.sreg)
    ensures Sized(cfg, commits + [Commit(address, page[..])])
    ensures chip.words == Flashed(cfg.geom, w0, commits + [Commit(address, page[..])])
  {
    chip.ProgramPage(address, page);
    ghost var all := commits + [Commit(address, page[..])];
    assert all[..|all| - 1] == commits;
  }

  /**
   * updater_main from the trigger on. `sample1` and `sample2` are the two reads of CSI1, `input` the
   * results of the successive getMidiByte calls, `page` the static page buffer and `chip` the flash.
   * Not entering update mode changes nothing; otherwise the session ends where the machine ends over
   * the whole stream, and the flash holds what programming its commits in order gives.
   */
  method UpdaterMain(cfg: Config, sample1: bv8, sample2: bv8, input: seq<Rx>, page: array<bv8>, chip: Flash.Chip)
    returns (outcome: Outcome, ghost commits: seq<Commit>)
    requires cfg.Valid() && page.Length == cfg.PageBytes() && chip.Valid() && chip.geom == cfg.geom
    modifies page, chip
    ensures chip.Valid() && chip.sreg == old(chip.sreg)
    ensures !Triggered(sample1, sample2) ==>
      outcome == NotEntered && commits == [] && page[..] == old(page[..]) && chip.words == old(chip.words)
    ensures Triggered(sample1, sample2) ==>
      var final := Run(cfg, Start(old(page[..])), input);
      outcome == Verdict(final) && commits == final.commits && page[..] == final.page &&
      Sized(cfg, commits) && chip.words == Flashed(cfg.geom, old(chip.words), commits)
  {
    outcome, commits := NotEntered, [];
    var needUpdate := sample1 & TRIGGER_MASK == TRIGGER_MASK;
    needUpdate := needUpdate && sample2 & TRIGGER_MASK == TRIGGER_MASK;
    if !needUpdate {
      return;
    }
    var awaiting := new bv8[4];
    ghost var m := Start(page[..]);
    ghost var final := Run(cfg, m, input);
    var pos := 0;
    var success := false;
    assert input[0..] == input;
    while true
      invariant Tracks(cfg, input, pos, m, final) && m.phase.Seek? && page[..] == m.page
      invariant chip.Valid() && chip.geom == cfg.geom && chip.sreg == old(chip.sreg)
      invariant chip.words == Flashed(cfg.geom, old(chip.words), m.commits)
      decreases |input| - pos
    {
      var flow;
      ghost var n;
      flow, success, pos, n := MainPass(cfg, input, pos, m, final, awaiting, page, chip, old(chip.words));
      m := n;
      if flow == Stall {
        return Stalled, m.commits;
      }
      if flow == Exit {
        break;
      }
    }
    RunDone(cfg, m, input[pos..]);
    outcome, commits := Finished(if success then SHOW_S else SHOW_E), m.commits;
  }
}
