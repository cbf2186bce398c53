# Z80P600 firmware core in Dafny

The Z80P600 board replaces the Z80 of a Prophet-600 synthesizer with an AVR
microcontroller. This project models the AVR firmware's own low-level core
and proves properties of the model:

- **Bus transaction engine** (`hardware_write`, `hardware_read`,
  `hardware_getNMIState`). The AVR drives the Z80 bus through six port
  registers. Each C statement becomes one masked assignment on a `bv8` field
  of the class `Bus.Ports`. A device-side decoder (`Bus.Observed`) says which
  bus cycle the lines express.
- **F-RAM driver** (`spi_fram.c`), talking to an FM25V05 64 KiB F-RAM over
  SPI. The driver side keeps a log of chip-select-framed transactions. The
  chip is a per-byte state machine: opcode, two address bytes, data, an
  auto-incrementing address and a write-enable latch. Also modelled: the
  bounds-checked wrappers `storage_write`/`storage_read`, and the read-back
  checks of `SPI_test_page`/`SPI_test`.
- **Flash self-programming** (`boot_program_page`). The flash is a sequence
  of 16-bit words. The page buffer is filled with little-endian words. Erase,
  fill, write and RWW-enable follow their documented effects.
- **SysEx firmware updater** (`updater_main`, `getMidiByte`, `updateCRC` and
  the three `UPDATER_*` macros). The specification is a small-step machine
  `Updater.Step`, fed one `getMidiByte` result per step; `Updater.Run` folds
  it over the stream. `Updater.UpdaterMain` follows the C loops literally
  (the `for(;;)`, the `break`s of the macros, the `continue` and the inner
  data `for`). It is proved to end where `Run` ends over the whole stream,
  and to leave the flash programmed with the commits in order. Then
  `UpdaterProofs` states what complete sessions do. A stream of well-formed
  page frames followed by the size-0 frame commits every page, in order, at
  `pageIdx*STORAGE_PAGE_SIZE`, and shows 'S'. A bad size, a bad CRC and an
  error outside the data loop end with 'E'.
- **Codecs** (`Sysex`, `Crc16`). These are the 14-bit fields, the 5-for-4
  high-bit packing, the 3-byte CRC field, the 6850 ACIA status test, and
  CRC-16/XMODEM (polynomial 0x1021, initial value 0, no reflection, no final
  XOR). The byte-wise CRC update is proved equal to the bit-serial shift
  register, and the published check value 0x31C3 of "123456789" is proved.

Files:

| file | contents |
|---|---|
| `board.dfy` | module `Board`: pin numbers, opcodes, sizes, C integer types |
| `bus.dfy` | module `Bus` |
| `crc16.dfy` | module `Crc16` |
| `sysex.dfy` | module `Sysex` |
| `flash.dfy` | module `Flash` |
| `fram.dfy` | module `SpiFram` |
| `framtest.dfy` | module `FramTest` |
| `storage.dfy` | module `Storage` |
| `updater.dfy` | module `Updater` |
| `updater_proofs.dfy` | module `UpdaterProofs` |

Parameters and environment:

- `getMidiByte` is the next element of an input sequence of `Sysex.Rx`
  values: a byte, or `RxError` for the `int16_t` -1.
  `Sysex.GetMidiByte` models the status test that decides between the two.
- `DATA_PINS` during `hardware_read` is a function of the lines then driven.
- The two CSI1 samples of the boot trigger are parameters.
- The following constants are `Updater.Config` fields, because their
  definitions are not part of this model:
  - the SysEx identifier and command;
  - `SPM_PAGESIZE` and the flash size (`Flash.Geometry`);
  - the width in which `pageIdx*STORAGE_PAGE_SIZE` is computed
    (`Updater.Width`: 16 bits if the constant is an `int`, 32 if it is a
    long).
- `STORAGE_SIZE` is a parameter of the storage wrappers.
- `STORAGE_PAGE_SIZE` is 256, as the comments of `SPI_write_page` and
  `SPI_read_page` state.

Behaviour worth knowing:

- **Trigger samples.** The boot trigger samples CSI1 twice
  (firmware/p600firmware.c:316-318). Both samples must have bits 6 and 7 set
  (`Updater.Triggered`).
- **Wrong ID or command.** An identifier or command byte other than the
  awaited one leaves the main loop, and the display shows 'E' (:365-370,
  `Updater.HeaderStep`).
- **Read error in page data.** A read error while the page data is received
  leaves only the inner `for` (:392-416). Parsing continues at the CRC field.
  - `UpdaterProofs.CutShortFrame` shows the consequence. If the bytes that
    follow form the CRC of what was received, and then F7, the page is
    committed. Its tail still holds the previous page's bytes.
- **Byte source that never signals data.** `getMidiByte` waits on /NMI
  forever (:266-267). The model reports this as the outcome `Stalled`.

## Model

| member | source | states |
|---|---|---|
| Board.BitIsShift | firmware/Z80P600.h:26-32 | the port mask literal for bit n is `1 << n` |
| Bus.Observed | firmware/p600firmware.c:27-28 | the device decoding of the lines; a write is decoded only while the data port drives (DDRF = 0xFF) |
| Bus.WriteStrobe | firmware/p600firmware.c:32-61 | at the end of a write /WR is low, /RD and /RFSH are high, DDRF is 0xFF, the data port holds the data and the address lines the address; MEMZONE gives /MREQ low and /IORQ high, IOZONE the reverse, any other `io` leaves /IORQ as it was with /MREQ high; no other bit of PORTE or PORTG changes |
| Bus.WriteObserved | firmware/p600firmware.c:32-61 | in either zone the device sees exactly that write of `data` at `addr` |
| Bus.ReadSample | firmware/p600firmware.c:65-96 | at the moment of sampling /RD is low, /WR and /RFSH are high, DDRF is 0, the address is on the bus, the zone lines are as in a write |
| Bus.ReadObserved | firmware/p600firmware.c:65-96 | in either zone the device sees exactly that read at `addr` while DATA_PINS is sampled |
| Bus.ReadEndStrobes | firmware/p600firmware.c:98-104 | after a read /WR and /RD are high, /RFSH is low, /IORQ is high and DDRF is 0xFF |
| Bus.ReadEndZone | firmware/p600firmware.c:76-101 | after a read /MREQ keeps its zone value: low exactly for a memory read |
| Bus.ReadEndKeeps | firmware/p600firmware.c:86-104 | after a read the address stays on the bus, PORTF is untouched, and the non-bus bits of PORTE/PORTG keep their values |
| Bus.ReadEndIdle | firmware/p600firmware.c:98-104 | after a read no device sees a bus cycle |
| Bus.NmiState | firmware/p600firmware.c:129-132 | the result is 0 or 1, and 1 exactly when /NMI (PINE bit 4) is low |
| Bus.Ports.SetIdle | firmware/p600firmware.c:34-39 | /WR, /RD, /MREQ set, /RFSH cleared, /IORQ untouched, DDRF assigned; nothing else changes |
| Bus.Ports.SelectZone | firmware/p600firmware.c:41-49 | the `switch (io)`: only the select lines change, and only for the two zones |
| Bus.Ports.DriveAddress | firmware/p600firmware.c:54-56 | PORTC gets the high address byte and PORTA the low one; nothing else changes |
| Bus.Ports.StrobeLow | firmware/p600firmware.c:58-60 | /RFSH is set and the strobe bit cleared; nothing else changes |
| Bus.Ports.SetRelease | firmware/p600firmware.c:98-104 | /WR, /RD, /IORQ set, /RFSH cleared, /MREQ untouched, DDRF = 0xFF |
| Bus.Ports.HardwareWrite | firmware/p600firmware.c:32-61 | the registers end as `WriteStrobe` says, and in either zone the device observes the write |
| Bus.Ports.HardwareRead | firmware/p600firmware.c:65-107 | the value returned is DATA_PINS for the lines of `ReadSample`; the registers end as `ReadEnd` |
| Sysex.StatusOkMeaning | firmware/p600firmware.c:273 | the mask test passes exactly when IRQ and RDRF are set and OVRN and FE are clear |
| Sysex.StatusOk | firmware/p600firmware.c:273 | the status test of getMidiByte: the status masked with 0xB1 equals 0x81; `StatusOkMeaning` states which flags that means |
| Sysex.GetMidiByte | firmware/p600firmware.c:259-280 | an error exactly when the status test fails, otherwise the data register |
| Sysex.Field14 | firmware/p600firmware.c:374-376 | a size or index field is below 16384 and carries the low seven bits of both bytes, high byte first |
| Sysex.Split14 | firmware/p600firmware.c:374-376 | the sender's side: two 7-bit bytes that reassemble to the value |
| Sysex.Field14Split | firmware/p600firmware.c:374-376 | every 14-bit value survives the 2-byte encoding |
| Sysex.SplitField14 | firmware/p600firmware.c:374-376 | the field keeps exactly the low seven bits of each byte |
| Sysex.UnpackBit | firmware/p600firmware.c:395-409 | unpacked byte k is `(b_k & 0x7f) \| (((b4 >> k) & 1) << 7)` |
| Sysex.Unpack | firmware/p600firmware.c:396-409 | the four data bytes of a 5-byte group: the low seven bits of bytes 0..3, each completed with its MSB from bit k of the fifth byte (`UnpackBit`); `UnpackPack` and `PackUnpack` give its inverse |
| Sysex.Pack | firmware/p600firmware.c:395-409 | the sender's side of a group: five bytes, each below 0x80 |
| Sysex.UnpackPack | firmware/p600firmware.c:395-409 | unpacking a packed group gives the four bytes back |
| Sysex.PackUnpack | firmware/p600firmware.c:395-409 | packing an unpacked group of 7-bit bytes with a 4-bit MSB byte gives the group back |
| Sysex.UnpackAllPackAll | firmware/p600firmware.c:392-416 | a whole page survives packing and the group-by-group unpacking |
| Sysex.SplitCrc | firmware/p600firmware.c:419-424 | the sender's side of the CRC field: bytes below 0x80, 0x80 and 4 |
| Sysex.CrcField | firmware/p600firmware.c:419-424 | `crcSent`: bits 15..9 from the first byte, bits 8..2 from the second, bits 1..0 from the third; `CrcFieldSplit` and `SplitCrcField` give its inverse |
| Sysex.CrcFieldSplit | firmware/p600firmware.c:419-424 | every 16-bit CRC survives the 3-byte encoding of `(b0&0x7f)<<9 \| (b1&0x7f)<<2 \| (b2&3)` |
| Sysex.SplitCrcField | firmware/p600firmware.c:419-424 | the field keeps exactly seven, seven and two bits of the three bytes |
| Crc16.ShiftsSerial | firmware/p600firmware.c:282-285 | n shifts of `l ^ t` with `t` shifted out clock the top n bits of `t` serially into `l` |
| Crc16.Update | firmware/p600firmware.c:282-285 | updateCRC, i.e. `_crc_xmodem_update`: the byte is XORed into the high half, then eight shifts with polynomial 0x1021; `UpdateIsSerial` proves this is eight serial clocks |
| Crc16.UpdateIsSerial | firmware/p600firmware.c:282-285 | the byte-wise update equals clocking the byte's eight bits, MSB first, through the 0x1021 shift register |
| Crc16.CrcIsSerial | firmware/p600firmware.c:282-285 | the CRC of any message is the bit-serial CRC-16/XMODEM of its bits |
| Crc16.CrcAppend | firmware/p600firmware.c:289 | the running CRC over a concatenation continues from the CRC of the first part |
| Crc16.CrcSnoc | firmware/p600firmware.c:289 | one more `crc=updateCRC(crc,b)` is one more byte at the end of the covered bytes |
| Crc16.CheckValue | firmware/p600firmware.c:284 | the CRC of "123456789" from 0 is 0x31C3, the published check value of CRC-16/XMODEM |
| Flash.Word | firmware/p600firmware.c:236-237 | the low byte of the word is `buf[i]`, the high byte `buf[i+1]` |
| Flash.Slot | firmware/p600firmware.c:239 | a fill lands in one of the SPM_PAGESIZE/2 buffer slots |
| Flash.ModWrap | firmware/p600firmware.c:239 | the uint32_t `page + i` selects the same slot as the unbounded sum |
| Flash.SlotOfSource | firmware/p600firmware.c:232-241 | the word the loop fills from offset `Source(s)` lands in slot s |
| Flash.SourceOfSlot | firmware/p600firmware.c:232-241 | slot `Slot(page+i)` is filled from offset i: every slot is filled exactly once |
| Flash.FillStep | firmware/p600firmware.c:232-241 | one loop pass extends the filled part of the buffer by the word at offset i |
| Flash.EraseFillWrite | firmware/p600firmware.c:229-244 | erase, a full fill and the page write give the programmed page |
| Flash.ProgrammedAligned | firmware/p600firmware.c:216-256 | for a page-aligned address, word `(page+i)/2` holds `buf[i] + (buf[i+1] << 8)` |
| Flash.ProgrammedOtherPages | firmware/p600firmware.c:216-256 | no word outside the addressed page changes |
| Flash.Chip.PageErase | firmware/p600firmware.c:229 | the addressed page reads as erased; the buffer and SREG are unchanged |
| Flash.Chip.PageFill | firmware/p600firmware.c:239 | exactly one buffer slot changes |
| Flash.Chip.PageWrite | firmware/p600firmware.c:244 | the buffer is ANDed into the addressed page (programming clears bits) and the buffer reads blank again |
| Flash.Chip.RwwEnable | firmware/p600firmware.c:251 | the RWW section is readable and the page buffer reads blank; the flash words and SREG do not change |
| Flash.Chip.FillWord | firmware/p600firmware.c:236-239 | one loop pass: the filled part grows by the little-endian word at offset i |
| Flash.Chip.ProgramPage | firmware/p600firmware.c:216-256 | the flash is the programmed page over the old contents, the buffer is blank, SREG has its entry value, RWW is enabled |
| SpiFram.AddressOf | firmware/spi_fram.c:50-51 | the high and low address bytes reassemble to the address |
| SpiFram.WrenEffect | firmware/spi_fram.c:31-40 | WREN sets the write latch and changes no cell |
| SpiFram.HeaderEffect | firmware/spi_fram.c:54-66 | opcode and two address bytes bring the F-RAM to the data phase at `hi*256+lo` |
| SpiFram.RunFrame | firmware/spi_fram.c:116-130 | a frame is its 3-byte header, then its data from the addressed cell |
| SpiFram.RunWriteData | firmware/spi_fram.c:132-137 | with the latch set, data bytes overwrite consecutive cells from the address |
| SpiFram.WriteEffect | firmware/spi_fram.c:43-73 | SPI_write stores the byte at the address and clears the latch |
| SpiFram.WriteProtected | firmware/spi_fram.c:28-40 | without a preceding WREN no frame changes any cell |
| SpiFram.RunReadData | firmware/spi_fram.c:165-171 | n dummy bytes read back the n consecutive cells from the address and change none |
| SpiFram.ReadEffect | firmware/spi_fram.c:76-104 | SPI_read returns the addressed cell and changes nothing |
| SpiFram.ReadAfterWrite | firmware/spi_fram.c:43-104 | `SPI_write(a, v)` then `SPI_read(a)` returns v, and only cell a changed |
| SpiFram.WritePageEffect | firmware/spi_fram.c:108-140 | the page holds the data, the latch is clear, and every other cell is unchanged |
| SpiFram.ReadPageEffect | firmware/spi_fram.c:144-174 | the replies after the header are the page's cells, and nothing changes |
| SpiFram.PageReadAfterWrite | firmware/spi_fram.c:108-174 | a page written with SPI_write_page reads back unchanged with SPI_read_page |
| SpiFram.Spi.SpiWren | firmware/spi_fram.c:31-40 | exactly one transaction `[6]`, CS high again afterwards, the latch set |
| SpiFram.Spi.Select | firmware/spi_fram.c:33 | `SPI_PORT &= ~(1 << CS)`: only the CS bit of port B is cleared, a new frame starts and the chip starts a transaction |
| SpiFram.Spi.Transfer | firmware/spi_fram.c:35-37 | `SPDR = b` and the wait for SPIF: the byte is appended to the frame and clocked into the chip, and SPDR holds the chip's reply |
| SpiFram.Spi.Deselect | firmware/spi_fram.c:38 | `SPI_PORT \|= (1 << CS)`: only the CS bit is set, the frame is logged as one transaction and the chip ends it |
| SpiFram.Spi.Header | firmware/spi_fram.c:54-66 | CS low and the three header bytes sent |
| SpiFram.Spi.WriteStep | firmware/spi_fram.c:133-137 | one pass of the page-write loop sends `data[i]` |
| SpiFram.Spi.WritePageFrame | firmware/spi_fram.c:115-139 | one transaction `[2, page, 0, data[0..256)]` |
| SpiFram.Spi.SpiWrite | firmware/spi_fram.c:43-73 | transactions `[6]` then `[2, a>>8, a&0xFF, d]`; the cell holds d, the latch is clear |
| SpiFram.Spi.SpiRead | firmware/spi_fram.c:76-104 | one transaction `[3, a>>8, a&0xFF, 0xFF]`; returns the reply to the dummy, which is the cell; nothing changes |
| SpiFram.Spi.SpiWritePage | firmware/spi_fram.c:108-140 | transactions `[6]` then `[2, address mod 256, 0, data[0..256)]`; the page holds the data, every other cell is unchanged |
| SpiFram.Spi.ReadStep | firmware/spi_fram.c:166-171 | one pass of the page-read loop sends a dummy and stores the reply in `data[i]` |
| SpiFram.Spi.SpiReadPage | firmware/spi_fram.c:144-174 | one transaction `[3, address mod 256, 0]` and 256 dummies; `data[i]` is the i-th reply, which is the page's cell; the rest of the buffer and the F-RAM are unchanged |
| FramTest.Ramp | firmware/spi_fram.c:188-190 | byte i of the test page is i |
| FramTest.MismatchesZero | firmware/spi_fram.c:201-207 | no mismatch exactly when every `buf[i] == i` |
| FramTest.MismatchesBound | firmware/spi_fram.c:201-207 | the count never exceeds the number of bytes |
| FramTest.MismatchesAll | firmware/spi_fram.c:201-207 | if every byte is wrong the count is the length |
| FramTest.CountErrorsAsWritten | firmware/spi_fram.c:201-207 | the `uint8_t error` loop yields the mismatch count modulo 256 |
| FramTest.OffByOne | firmware/spi_fram.c:203-205 | a page read back shifted by one cell: every byte differs from its index |
| FramTest.WrapHidesFailure | firmware/spi_fram.c:201-210 | that page has 256 mismatches, which the 8-bit counter reports as 0, a pass |
| FramTest.CountErrors | firmware/spi_fram.c:201-207 | a wide counter equals the mismatch count, and is 0 exactly when the buffer is the ramp |
| FramTest.FillRamp | firmware/spi_fram.c:188-190 | the buffer becomes the ramp |
| FramTest.WritePageSlice | firmware/spi_fram.c:193-199 | the page just written is the data written |
| FramTest.SpiTestPage | firmware/spi_fram.c:180-223 | with the 8-bit `error` counter as written: the transactions are WREN, the page write and the page read of page 0x10; the page holds the ramp; the verdict is a pass |
| FramTest.FillAll | firmware/spi_fram.c:233-236 | every cell holds the low byte of its address, one WREN/WRITE pair per address in order |
| FramTest.CheckAll | firmware/spi_fram.c:238-245 | one READ per address in order, nothing changes, and `error` is 0 exactly when every cell holds the low byte of its address |
| FramTest.SpiTest | firmware/spi_fram.c:226-260 | fill then check; the F-RAM holds the pattern and the verdict is a pass |
| Storage.PageByteOf | firmware/p600firmware.c:201-204 | the page byte on the wire is the index modulo 256, and the index itself for a storage that fits the F-RAM |
| Storage.FetchedKeeps | firmware/p600firmware.c:207-212 | a read changes no cell and not the latch |
| Storage.LoadedPage | firmware/p600firmware.c:207-212 | in range the buffer's first 256 bytes are that F-RAM page, out of range they are unchanged; the rest of the buffer never changes |
| Storage.StoreLoad | firmware/p600firmware.c:200-212 | in range a stored page reads back as written; out of range both calls are no-ops |
| Storage.PagesDisjoint | firmware/p600firmware.c:200-204 | two different in-range page indexes cover disjoint cells |
| Storage.StoreOtherPage | firmware/p600firmware.c:200-212 | storing one page leaves what every other page reads back unchanged |
| Storage.StorageWrite | firmware/p600firmware.c:200-205 | SPI_write_page only when `pageIdx < STORAGE_SIZE/STORAGE_PAGE_SIZE`; otherwise nothing changes |
| Storage.StorageRead | firmware/p600firmware.c:207-212 | SPI_read_page only in range; otherwise neither the F-RAM nor the buffer changes |
| Updater.SeekStep | firmware/p600firmware.c:357-362 | the wait for F0 keeps the machine invariant |
| Updater.HeaderStep | firmware/p600firmware.c:365-370 | the identifier and command checks keep the machine invariant |
| Updater.FieldStep | firmware/p600firmware.c:373-388 | the size and index fields keep the machine invariant |
| Updater.PayloadStep | firmware/p600firmware.c:392-416 | the data loop keeps the machine invariant, including the page size and the group counter bound |
| Updater.CrcStep | firmware/p600firmware.c:419-427 | the CRC field keeps the machine invariant |
| Updater.TerminatorStep | firmware/p600firmware.c:430-443 | F7 and the commit keep the machine invariant: every commit carries a whole page |
| Updater.Step | firmware/p600firmware.c:354-444 | one getMidiByte result keeps the machine invariant |
| Updater.Run | firmware/p600firmware.c:354-444 | a whole stream keeps the machine invariant |
| Updater.RunDone | firmware/p600firmware.c:444-450 | once the main loop is left nothing more is read |
| Updater.Verdict | firmware/p600firmware.c:446-447 | a pattern is shown exactly when the loop was left, and it is 'S' exactly on success |
| Updater.Triggered | firmware/p600firmware.c:314-322 | update mode is entered only when both CSI1 samples have bits 6 and 7 set |
| Updater.CommitAddress | firmware/p600firmware.c:443 | the address `pageIdx*STORAGE_PAGE_SIZE`, reduced modulo 2^16 or 2^32 by the width of the product; `UpdaterProofs.CommitAddressOf` states both cases |
| Updater.Receive | firmware/p600firmware.c:259-280 | getMidiByte takes the next stream element and the machine takes one step |
| Updater.GetByte | firmware/p600firmware.c:287 | a byte proceeds, -1 leaves the enclosing loop, no byte stalls |
| Updater.WaitByte | firmware/p600firmware.c:288 | proceeds exactly when the byte is the awaited one |
| Updater.CrcByte | firmware/p600firmware.c:289 | a byte is added to the covered bytes and `crc` is their CRC |
| Updater.StepCovers | firmware/p600firmware.c:373-405 | in the fields and the data loop every byte received is covered by the CRC |
| Updater.ReceiveIds | firmware/p600firmware.c:365-370 | the four awaited bytes reach the size field; any other byte ends the session |
| Updater.ReceiveSize | firmware/p600firmware.c:373-382 | the size field is read under the CRC; a size other than SPM_PAGESIZE ends the loop |
| Updater.ReceiveIndex | firmware/p600firmware.c:385-388 | the index field is read under the CRC and `pageIdx` is its value |
| Updater.GroupLow | firmware/p600firmware.c:395-402 | `awaiting[k] = b & 0x7f`, no other slot changes |
| Updater.ReceiveLows | firmware/p600firmware.c:395-402 | the four low-bit bytes of a group are in `awaiting` |
| Updater.UnpackByMsbs | firmware/p600firmware.c:396-409 | low bits first, then the MSBs or-ed in, is the unpacking |
| Updater.ApplyMsbs | firmware/p600firmware.c:405-409 | the four or-assignments of the MSBs complete the unpacked group |
| Updater.CopyOut | firmware/p600firmware.c:412-415 | the four bytes go to `page[byteIdx..byteIdx+4)` and `byteIdx` advances by 4 |
| Updater.GroupEnd | firmware/p600firmware.c:405-415 | the fifth byte completes a group and the page gets it |
| Updater.ReceiveGroup | firmware/p600firmware.c:394-415 | one loop pass: a whole group received, unpacked and stored |
| Updater.ReceivePayload | firmware/p600firmware.c:391-416 | the data loop ends at the CRC field, by completing the page or by an error |
| Updater.TrailerByte | firmware/p600firmware.c:419-422 | UPDATER_GET_BYTE for the first two CRC bytes |
| Updater.TrailerLastByte | firmware/p600firmware.c:423-427 | the wait for F7 is reached exactly when `crcSent == crc` |
| Updater.ReceiveCrc | firmware/p600firmware.c:419-427 | the CRC field reaches the wait for F7 exactly when the sent CRC equals the running CRC |
| Updater.ReceiveHead | firmware/p600firmware.c:365-388 | the header of a frame: identifier, command, size check, index |
| Updater.ReceiveBody | firmware/p600firmware.c:391-443 | data, CRC check and F7: one commit exactly when the frame completes |
| Updater.MainPass | firmware/p600firmware.c:355-443 | one pass of the main loop keeps the flash equal to the commits so far, programmed in order |
| Updater.ProgramCommit | firmware/p600firmware.c:443 | boot_program_page adds one commit to the flash |
| Updater.UpdaterMain | firmware/p600firmware.c:291-451 | without the trigger nothing changes; with it, the outcome, commits and page[] are those of `Run` over the stream, and the flash is the commits programmed in order |
| UpdaterProofs.FieldBytes | firmware/p600firmware.c:374-376 | the two bytes a sender puts on the wire for a 14-bit value decode to that value |
| UpdaterProofs.HeaderBytesAre | firmware/p600firmware.c:361-370 | a frame header is F0, the three identifier bytes and the command |
| UpdaterProofs.RunIds | firmware/p600firmware.c:365-370 | the awaited identifier and command bytes reach the size field |
| UpdaterProofs.RunHeader | firmware/p600firmware.c:357-370 | from the wait for F0 a header reaches the size field with the CRC cleared |
| UpdaterProofs.RunSize | firmware/p600firmware.c:373-382 | a size other than SPM_PAGESIZE leaves the loop, with success exactly for 0; both bytes are covered |
| UpdaterProofs.RunIndex | firmware/p600firmware.c:385-391 | the index field enters the data loop with the index recorded and covered |
| UpdaterProofs.RunLows | firmware/p600firmware.c:395-402 | the first bytes of a group are only recorded and covered |
| UpdaterProofs.GroupDone | firmware/p600firmware.c:392-416 | after a whole group the group counter is one more, and the loop ends after the last group |
| UpdaterProofs.RunFive | firmware/p600firmware.c:395-415 | five bytes store their unpacked group at the group's offset |
| UpdaterProofs.RunGroup | firmware/p600firmware.c:395-415 | a packed group stores exactly its four bytes at the group's offset |
| UpdaterProofs.RunData | firmware/p600firmware.c:392-416 | packed data is stored at offset `4*i` in page[], covered, and counted; the loop ends when the page is full |
| UpdaterProofs.RunCrc | firmware/p600firmware.c:419-427 | a CRC field carrying c reaches the wait for F7 exactly when c is the running CRC |
| UpdaterProofs.RunFields | firmware/p600firmware.c:361-391 | header, size SPM_PAGESIZE and an index enter the data loop with both fields covered |
| UpdaterProofs.RunTrailer | firmware/p600firmware.c:419-443 | the correct CRC field and F7 commit page[] at the index received and restart |
| UpdaterProofs.FrameCovered | firmware/p600firmware.c:357-416 | up to the CRC field the running CRC covers exactly the size, index and data bytes (not F0, ID, command); page[] starts with the data |
| UpdaterProofs.FrameCommits | firmware/p600firmware.c:354-444 | a well-formed frame commits its data at `pageIdx*STORAGE_PAGE_SIZE` and returns to the wait for F0 |
| UpdaterProofs.FrameBadCrc | firmware/p600firmware.c:419-427 | any CRC but the CRC of the covered bytes ends the session with 'E' and no commit |
| UpdaterProofs.CutShortFrame | firmware/p600firmware.c:392-443 | after an error in the data loop a matching CRC and F7 commit page[] with the previous page's tail |
| UpdaterProofs.Commits | firmware/p600firmware.c:443 | the reference list of commits: one per page frame, in order, at `pageIdx*STORAGE_PAGE_SIZE` |
| UpdaterProofs.RunFrames | firmware/p600firmware.c:354-444 | frames in turn give one commit per frame, in stream order |
| UpdaterProofs.RunEndFrame | firmware/p600firmware.c:373-382 | the size-0 frame ends the loop with success and no commit |
| UpdaterProofs.Session | firmware/p600firmware.c:354-447 | well-formed frames then the size-0 frame commit every page in order and show 'S'; nothing after is read |
| UpdaterProofs.BadSize | firmware/p600firmware.c:378-382 | a nonzero size other than SPM_PAGESIZE ends the session with 'E' and no commit |
| UpdaterProofs.ErrorEnds | firmware/p600firmware.c:287-289 | an error outside the data loop ends the session with 'E'; inside it skips to the CRC field |
| UpdaterProofs.CommitOnlyAfterCheck | firmware/p600firmware.c:426-443 | a commit happens only on F7 after the CRC check, and the check is passed only when the sent CRC equals the running CRC |
| UpdaterProofs.CommitAddressOf | firmware/p600firmware.c:443 | the commit address is `(pageIdx mod 256) * 256` with a 16-bit product and `pageIdx * 256` with a 32-bit one |
| UpdaterProofs.NarrowAddressesCollide | firmware/p600firmware.c:443 | with a 16-bit product, indexes equal modulo 256 are programmed at the same address |
| UpdaterProofs.WideAddressesDistinct | firmware/p600firmware.c:443 | with a 32-bit product, two indexes give the same address exactly when they are equal |

## Left out

- Timing is not modelled: `CYCLE_WAIT`, `_delay_ms`, `MDELAY`, the SPIF, SPM and EEPROM busy-waits, and the /NMI wait of `getMidiByte`. The model has no notion of time; the stream and the flash primitives deliver at once.
- Interrupts are not modelled: `cli()`, the ISRs and the timer and INT4 setup. The model is single-threaded. `Flash.Chip.ProgramPage` keeps SREG only as saved, bit 7 cleared, then restored.
- `hardware_init`, `SPI_init`, the 6850 reset and the UART priming writes are left out. They are register configuration with no behaviour to state. The port state is an input of `Bus.Ports`.
- The 7-segment writes are left out: 'U', the `seg` progress cycle (p600firmware.c:434-438) and the final 'S'/'E' write. Only the final pattern is kept, as `Updater.Outcome`. The LED blinking of the F-RAM tests is kept only as `FramTest.Verdict`.
- The trigger and the UART set-up are bus writes, kept as parameters: the CSO0 write before the trigger reads, and the two CSI1 reads, whose values are `sample1` and `sample2`.
- `__init`, `main`, the linker sections and the synth code are not part of this model.
- The avr-libc internals are modelled by their documented effects only: `boot_page_erase`/`fill`/`write`, `boot_rww_enable` and `_crc_xmodem_update`.
- The F-RAM chip is an assumed model of an FM25V05, not code of this repository.
- Updater.Config.Valid: assumes `SPM_PAGESIZE` is a multiple of 4 and at most 508, so that the `int8_t i` of the data loop never overflows. It also assumes that it divides 2^32 (`Flash.Geometry.Valid`).
- Updater.UpdaterMain: a stream that ends is reported as `Stalled`. The C code would wait in `getMidiByte` forever.
- Updater.UpdaterMain: `byteIdx` and `i` are natural numbers, and the group counter is `Machine.groups`. `Config.Valid` keeps them in range.
- Updater.CommitAddress: with a 16-bit product, the `unsigned int` multiplication wraps modulo 2^16, as C defines it; with a 32-bit product it cannot overflow for a 14-bit index.
- Flash.Word, Sysex.CrcField: the shifts `(*buf++) << 8` (firmware/p600firmware.c:237) and `(b & 0x7f) << 9` (:420) overflow a 16-bit signed `int`, which ISO C leaves undefined. The model follows GCC's defined result: the bits are kept in the 16-bit value.
- Updater.Config.PageSize: states only that the value is below 16384. It does not state that it equals `SPM_PAGESIZE` as a natural number; that is its definition.
- Sysex.GetMidiByte: the `int16_t` result is the datatype `Rx`. The two `hardware_read` calls it makes are not modelled as bus cycles; their values are parameters.
- Storage.StorageWrite: `STORAGE_SIZE` is a parameter. The page byte on the wire is the uint16_t address reduced to SPDR's 8 bits, so two in-range pages are disjoint only for a storage that fits the F-RAM.

## Findings

| source | as written | input that shows it | evidently intended | confidence | as-written member | corrected member |
|---|---|---|---|---|---|---|
| firmware/spi_fram.c:201-210 | the mismatch counter `error` is a `uint8_t`, so `error++` wraps at 256 and `error > 0` is false after exactly 256 mismatches | a page read back one cell off: `buf[i] == (i+1) % 256` for all 256 bytes, so every byte is wrong and `error` ends at 0; the test reports a pass | a failure whenever any byte is wrong, i.e. a counter wide enough for a whole page (or a flag) | not executed; the input follows from the code | FramTest.CountErrorsAsWritten, FramTest.WrapHidesFailure | FramTest.CountErrors |
