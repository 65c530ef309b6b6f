# AVC-LAN CD-changer emulator, modelled in Dafny

The repository teaches an AVR microcontroller to pretend to be a Toyota CD
changer on the head unit's AVC-LAN bus (the Toyota variant of IEBus mode 1).
It holds three iterations of the bus driver. Each one is modelled as its own
module, and none is merged into another:

- `Slonicki` — the first AVR driver, derived from Slonicki's (avclandrv.c). It
  reads and writes a field at a time and counts parity in the global
  `parity_bit`. It has separate unicast and broadcast senders and raw
  `{type, length, payload…}` answer templates.
- `Mockingboard` — the refactored frame-struct driver (src/avclandrv.c). It
  has the `AVCLAN_sendbits`/`readbits` helpers, the TCB0 capture interrupt
  and one `AVCLAN_sendframe`.
- `AuxEnabler` — Frigon's AUX enabler (AVCLanDriver.c/.h). It listens as CD
  changer 0x360 and toggles the head unit's AUX input when the head unit asks
  to eject a CD.

Around them:

- `Bits` holds the shared bit vocabulary:
  - bytes and words as bounded naturals;
  - most-significant-first bit strings, their value and their even parity;
  - the chunked serialiser `ChunkBits`;
  - the generic mask-and-shift word sender `SendWord`.
- `Bus` is the pulse codec of the two AVR drivers. A transmission is the
  `seq<bool>` of logical bits after the start bit. A reception consumes a
  `seq<nat>` of measured high times. Acknowledgements come from an oracle.
- `Timing` models the timing profile of src/timing.h with exact reals.
- `PlayTime` covers `incBCD` and the 1 Hz RTC tick.
- `SnifferLoop` models the sniffers' main-loop priority and the `Event` flag.
- `HexInput` models the console's hex-pair sequence recorder.
- `SendTest` covers the alternative serialisers of src/send-test.c and the
  comparisons its `main` prints.

Hardware timing is turned into data:

- The two AVR drivers count in 125 ns ticks:
  - a `1` is driven for 164 ticks, a `0` for 272 and the start bit for 1328;
  - a high time below 208 reads as `1`.
- The AUX enabler counts Timer 0 at two counts per microsecond:
  - a `1` is held 40 counts and a `0` 64;
  - a high time that leaves the 8-bit `TCNT0` below 52 is a `1`, and one
    that leaves it above 52 is an acknowledgement;
  - Timer 0 is an 8-bit counter, so the 336-count start bit is a duration it
    cannot reach (see "Behaviour reproduced as written").

## Model

| member | source | states |
|---|---|---|
| Bits.ChunkBits | src/avclandrv.c:344-369 | A chunked send of `len` bits is exactly `len` bits long: the low `len mod 8` bits of the addressed element come first (all eight when `len` is a multiple of 8), then whole lower elements |
| Bits.FirstChunk | src/avclandrv.c:346-352 | The first chunk is between 1 and 8 bits and leaves a multiple of 8 behind |
| Bits.ShiftOutChunk | src/avclandrv.c:354-366 | The inner loop of the chunked sender shifts out the aligned chunk, most significant first, and keeps the count of `1`s sent |
| Bits.SendWord | AVCLanDriver.c:452-486 | A mask-and-shift sender on a `width`-bit register emits the low `n` bits most significant first, and its parity flag ends as the XOR of the bits emitted |
| Bits.ParitySnoc | AVCLanDriver.c:593-615 | Sending one more bit toggles the parity flag exactly when that bit is a `1` |
| Bits.FromToBits | src/avclandrv.c:414-429 | Reading back the `n` bits of a value gives the value modulo `2^n` |
| Bits.ToFromBits | avclandrv.c:204-220 | The bits of a read-back value are the bits that were read |
| Bits.ParityAppend | src/avclandrv.c:432-442 | The parities of two halves add up to the parity of the whole field |
| Bus.BitCodecSeparates | src/avclandrv.c:296-311 | A driven `1` (164 ticks) reads back as `1`, a driven `0` (272) as `0`, and the start bit (1328) reads as `0` |
| Bus.ClassifyPulses | src/avclandrv.c:398 | Classifying the pulses of any transmission gives back its bits |
| Bus.ClassifyWindow | src/avclandrv.c:398 | Any window of a transmission's bits is recovered from the matching window of pulses, one place after the start bit |
| Bus.PulsesHeard | avclandrv.c:204-220 | A listener hears a whole transmission right after its start bit |
| Bus.HearsAppend | avclandrv.c:366-435 | Hearing two fields back to back is hearing the first, then the second |
| Bus.FirstNak | src/avclandrv.c:691-741 | The first unacknowledged slot: every earlier slot was acknowledged and this one was not, or there is none |
| Bus.WaitForFreeLine | src/avclandrv.c:669-680 | The wait before a frame ends at a count between 865 and 900; the line was idle from 865 up to it, and busy at it unless the 900 limit was hit; a line that is never idle still ends the wait at 865 |
| Timing.CpuCycle | src/timing.h:24-30 | One CPU cycle is built exactly for 20 MHz and 16 MHz; it is positive, and the cycle times the frequency is 1e9 ns times the prescaler factor |
| Timing.TcbTick | src/timing.h:44-50 | A timer tick is built exactly for a supported frequency and a CPU-derived clock; it is the cycle scaled by the clock divider |
| Timing.ProfileFor | src/timing.h:53-64 | Every configuration that builds gives a profile in ticks whose bits are still separable, and whose read threshold times the tick is 26 µs |
| Timing.ScalingKeepsSeparation | src/timing.h:24-50 | Dividing every duration by the same positive tick keeps every ordering the profile relies on |
| Timing.NanosecondsSeparable | src/timing.h:53-64 | 19.7 µs < 26 µs < 32.85 µs < 169 µs, and both data bits (37.8 µs and 39.05 µs) fit in the 39.1 µs maximum |
| Timing.DriverThreshold | src/avclandrv.c:296-311 | At 16 MHz with CLKDIV2 a tick is 125 ns, the read threshold is the drivers' 208, and their 164/272/1328 counts straddle it the same way |
| Mockingboard.SendBitsI | src/avclandrv.c:344-369 | `AVCLAN_sendbitsi` emits exactly the chunked bits of its argument and returns their even parity |
| Mockingboard.SendChunk | src/avclandrv.c:346-366 | Each turn of the outer loop emits the next chunk and moves to the byte below, keeping the parity count |
| Mockingboard.SendBitsL | src/avclandrv.c:372-374 | A 12-bit address goes out as its 12 bits, most significant first (the high byte's low nibble, then the low byte), with their parity |
| Mockingboard.SendByte | src/avclandrv.c:376-390 | A byte goes out as its 8 bits, most significant first, with their parity |
| Mockingboard.IsrShiftsOnceTooFar | src/avclandrv.c:396-404 | The capture interrupt adds each bit and then shifts, so `n` bits read back as twice their value modulo 256; the parity register keeps counting from where it stood |
| Mockingboard.ReadBitsI | src/avclandrv.c:414-429 | A read of `len` bits succeeds iff the pulses are there; it yields the shifted value (always even) and the parity of the bits |
| Mockingboard.ReadBitsL | src/avclandrv.c:432-442 | A 12-bit read puts the first `len - 8` bits in the low byte and the last 8 in the high byte, each shifted, with the parity of all of them |
| Mockingboard.ReadByte | src/avclandrv.c:445-459 | A byte read does not clear the parity register, so the parity it returns includes the count left from before |
| Mockingboard.AckSlot | src/avclandrv.c:540-545 | A frame for this device answers the slot without consuming a classified bit; any other listener consumes one pulse per slot |
| Mockingboard.Code | src/avclandrv.h:54-77 | The command codes, with `cm_Null` the only zero |
| Mockingboard.CodeInjective | src/avclandrv.h:54-77 | Distinct commands have distinct codes |
| Mockingboard.TablesWellFormed | src/avclandrv.c:136-158 | Every pattern's length byte fits the pattern and the receive buffer |
| Mockingboard.CheckCmd | src/avclandrv.c:481-489 | The match holds iff the first `l` received bytes equal pattern bytes `1..l`; the frame's length is ignored |
| Mockingboard.FirstMatch | src/avclandrv.c:593-659 | The if-chain picks the first matching entry: no earlier entry matches, and the chosen one does |
| Mockingboard.ParityChecked | src/avclandrv.c:525-529 | The parity bit is read shifted (as 0 or 2), so a field passes only when its parity is 0 and its parity bit reads `0` |
| Mockingboard.ReadOneBit | src/avclandrv.c:526 | A one-bit read returns 2 for a `1` and 0 for a `0` |
| Mockingboard.ReadHeader | src/avclandrv.c:519-566 | A header read decides `for_me` by comparing the read-back peripheral address with CD_ID, and `for_me` never holds; every read value is even |
| Mockingboard.ReadData | src/avclandrv.c:574-586 | The payload loop stores byte `i` before checking its parity, so a failing byte is kept; bytes outside `i .. length - 1` are left alone |
| Mockingboard.ReadFrame | src/avclandrv.c:491-660 | An accepted frame has length at most MAXMSGLEN, its data as stored by the payload loop, `for_me` false (the read-back peripheral is never CD_ID), and `answerReq` set by the broadcast chain; a dropped frame leaves `answerReq` and CMD_CHECK alone; the play state is untouched |
| Mockingboard.SendSegments | src/avclandrv.c:691-741 | Without reading acknowledgements every segment goes out and 0 is returned; with them, all acknowledged returns 0 with every segment and slot sent, and the first NAK returns its code (1..4) |
| Mockingboard.SegmentsNakWire | src/avclandrv.c:691-741 | After the first NAK nothing more is sent: the wire is the earlier segments with their acknowledged slots, the refused segment, and the sender's own `1` in its slot |
| Mockingboard.SendFrame | src/avclandrv.c:662-742 | A UNICAST frame reads no slot and always returns 0; a BROADCAST (0) frame returns 0 iff every one of its `3 + length` slots is acknowledged, and then the whole frame went out; otherwise it returns the code of the first NAKed slot and sends nothing after that slot |
| Mockingboard.Send | src/avclandrv.c:825-930 | One template goes out as one logged frame; a UNICAST template always reports success |
| Mockingboard.SendAll | src/avclandrv.c:744-803 | A chain of templates is sent in order and stops at the first failure; success means all were sent |
| Mockingboard.SendFrom | src/avclandrv.c:744-803 | The rest of a chain after `k` successful sends keeps the log in template order and stops at the first failure |
| Mockingboard.LoggedInOrder | src/avclandrv.c:744-803 | Logging the next attempt keeps the log in template order |
| Mockingboard.SendInitCommands | src/avclandrv.c:744-803 | The ten initialisation broadcasts are sent in order until one fails; 0 is returned iff all ten went through |
| Mockingboard.StatusData | src/avclandrv.c:805-821 | The status payload carries track, minutes and seconds after six fixed bytes |
| Mockingboard.SendStatus | src/avclandrv.c:805-821 | The status goes out as one UNICAST frame of 11 bytes carrying the play position |
| Mockingboard.PatchPosition | src/avclandrv.c:901-903 | Patching writes track, minutes and seconds into bytes 8..10 and keeps bytes 0..7 |
| Mockingboard.AfterAnswer | src/avclandrv.c:823-937 | Every answer leaves `answerReq == cm_Null` and the play position alone; an unanswered request changes nothing else |
| Mockingboard.AnswerSession | src/avclandrv.c:831-934 | An unanswered request sends nothing and reports 0 |
| Mockingboard.SendAnswer | src/avclandrv.c:823-937 | The answer clears `answerReq`, keeps the play position, and returns a code of at most 4 |
| Mockingboard.SingleReply | src/avclandrv.c:832-878 | The status, register and first play requests each have one UNICAST reply template |
| Mockingboard.AnswerSingleFrame | src/avclandrv.c:832-878 | Those requests send exactly their one reply frame, which always reports success |
| Mockingboard.AnswerModes | src/avclandrv.c:873-913 | PlayReq1 sets `playMode` 0; PlayReq2/3 set `playMode` 0 and `CD_Mode` stPlay; PlayIt sets 1 and stPlay; Stop sets stStop and 0; the rest change neither |
| Mockingboard.AnswerPlayItPatch | src/avclandrv.c:895-908 | PlayIt patches PLAY_OK4 bytes 8..10 with track/min/sec and broadcasts the patched template first |
| Mockingboard.AnswerStopPatch | src/avclandrv.c:910-926 | The stop requests send STOP1, then the STOP2 patched with the play position, and report STOP2's code |
| Mockingboard.AnswerCheckCounter | src/avclandrv.c:865-871 | Check sends CMD_CHECK as it stood, then increments its byte 6 |
| Mockingboard.AnswerTemplatesUnchanged | src/avclandrv.c:823-937 | Only PlayIt, the stop requests and Check change the writable templates |
| Mockingboard.PlayOkSession | src/avclandrv.c:880-893 | PLAY_OK2 is sent, and PLAY_OK3 only after it, stopping at the first failure |
| Mockingboard.PlayItSession | src/avclandrv.c:895-908 | The patched PLAY_OK4 goes first and the status follows only if it succeeded |
| Mockingboard.StopSession | src/avclandrv.c:910-926 | STOP1 and then the patched STOP2 are both sent, and STOP2's code is the result |
| Mockingboard.ParityBitOneRejects | src/avclandrv.c:525-529 | Any frame whose controller-address parity bit reads `1` is dropped with a parity error |
| Mockingboard.OddControllerRejected | src/avclandrv.c:525-529 | A correctly sent frame from an address with odd parity is dropped at the controller address, with or without ack slots |
| Mockingboard.HeadUnitAddressOnes | src/sniffer.c:212-213 | HU_ID 0x190 has three `1` bits |
| Mockingboard.OwnAddressOnes | src/sniffer.c:212 | CD_ID 0x360 has four `1` bits |
| Mockingboard.HeadUnitFramesRejected | src/avclandrv.c:525-529 | Every frame the head unit (0x190) sends is dropped by this reader |
| Mockingboard.ReadBitsOfPulses | src/avclandrv.c:414-429 | Reading any window of a transmission gives twice its value modulo 256 and its parity |
| Mockingboard.FieldReadBackShifted | src/avclandrv.c:396-404 | A field of up to 8 bits reads back as twice its value modulo 256 |
| Mockingboard.AddressReadBack | src/avclandrv.c:432-442 | A 12-bit address reads back with its two bytes swapped and each shifted one place |
| Mockingboard.WordReadBack | src/avclandrv.c:432-442 | A 12-bit read splits the wire into 4 low and 8 high bits |
| Mockingboard.OwnAddressReadBack | src/avclandrv.c:532-540 | This device's own address 0x360 reads back as 0xC006, not as CD_ID |
| Mockingboard.OwnAddressBytes | src/avclandrv.c:540 | The swapped, shifted form of 0x360 is 0xC006 |
| Mockingboard.NeverOwnAddress | src/avclandrv.c:532-540 | No 12-bit read yields CD_ID: its low byte is the first four bits shifted once, at most 30, where CD_ID's is 0x60 |
| Mockingboard.UnicastIgnoresNak | src/avclandrv.c:691-695 | A UNICAST frame with no acknowledgement at all still returns 0 |
| Mockingboard.BroadcastNeedsAck | src/avclandrv.c:691-695 | A BROADCAST frame with no acknowledgement returns 1 |
| Mockingboard.CheckCounterOutsidePayload | src/avclandrv.c:213-214 | The Check counter lies outside the 6-byte payload: what goes out and the first six bytes stay the same |
| Mockingboard.PlayItOverwritesTrailer | src/avclandrv.c:232-235 | The PlayIt patch overwrites the template's trailing 0x80 with the seconds |
| Slonicki.ReadLoop | avclandrv.c:207-218 | The bit loop adds each `1` to both the value and `parity_bit`, and shifts between bits |
| Slonicki.ReadByte | avclandrv.c:204-220 | `n` bits read most significant first into a value below `2^n`; every `1` also increments `parity_bit`; it fails only when the pulses run out |
| Slonicki.CheckParity | avclandrv.c:373-376 | The parity bit passes iff it matches the low bit of the count since the last clear |
| Slonicki.ReadChecked | avclandrv.c:395-400 | A cleared counter, an `n`-bit field and its parity bit |
| Slonicki.ReadAddress | avclandrv.c:370-384 | An address reads as its 4-bit and 8-bit halves under one parity bit |
| Slonicki.AckSlot | avclandrv.c:390-393 | A frame for this device answers the slot; any other listener reads one bit |
| Slonicki.ReadRoute | avclandrv.c:346-388 | Direction and both addresses; `for_me` iff the slave halves equal CD_ID_1/CD_ID_2 |
| Slonicki.ReadControl | avclandrv.c:395-414 | Control and length, each with its parity check and slot |
| Slonicki.ReadHeader | avclandrv.c:346-415 | The whole header up to the length's slot, with `for_me` decided by the slave address |
| Slonicki.WindowBound | avclandrv.c:204-220 | `n` pulses read as a number below `2^n` |
| Slonicki.ReadData | avclandrv.c:423-437 | The payload loop stores each byte before checking its parity; a failing byte stays in the buffer |
| Slonicki.Code | avclandrv.h:59-84 | The `answerReq` codes, with `cmNull` the only zero |
| Slonicki.CodeInjective | avclandrv.h:59-84 | Distinct commands have distinct codes |
| Slonicki.TablesWellFormed | avclandrv.c:92-114 | Every pattern's length byte fits the pattern and the message buffer |
| Slonicki.CheckCmd | avclandrv.c:323-337 | A prefix match on `message[]` against pattern bytes `1..l`, whatever the frame's length |
| Slonicki.FirstMatch | avclandrv.c:442-508 | The first entry of the if-chain that matches, or none |
| Slonicki.PayloadOf | avclandrv.c:646-658 | `AVCLan_SendAnswerFrame` copies `cmd[1]` bytes from `cmd[2..]` |
| Slonicki.Template | avclandrv.c:646-658 | A template is its type byte, its length byte and its payload, and reads back as that payload |
| Slonicki.TakeRequest | avclandrv.c:442-508 | A complete frame sets `answerReq` by the right chain, `cmNull` otherwise; `lan_check` also stores `message[3]` in CMD_CHECK[6] |
| Slonicki.ReadMessage | avclandrv.c:339-509 | Any parity error or a length above MAXMSGLEN drops the frame and keeps `answerReq`; an accepted frame has its payload at the head of `message` |
| Slonicki.SendByte | avclandrv.c:288-310 | The low `len` bits of a byte, most significant first; their popcount is added to `parity_bit` |
| Slonicki.SendParityBit | avclandrv.c:312-321 | The bit sent makes the number of `1`s since the last clear even, so a field counted into `parity_bit` goes out as its even-parity form; the counter is cleared |
| Slonicki.SendAddress | avclandrv.c:535-540 | An address goes out as its 12 bits and their even parity bit |
| Slonicki.SendChecked | avclandrv.c:550-560 | A 4- or 8-bit field goes out with its parity bit |
| Slonicki.AddressBits | avclandrv.c:535-540 | The 12 bits of an address are its 4-bit and 8-bit halves |
| Slonicki.HeaderBits | avclandrv.c:532-544 | Direction, master address with parity, slave address with parity |
| Slonicki.DataBits | avclandrv.c:570-585 | Ten bits per data byte: eight, parity, slot |
| Slonicki.FrameBits | avclandrv.c:511-590 | The layout of a whole frame after the start bit |
| Slonicki.SendBytes | avclandrv.c:570-587 | The data loop returns 0 with every byte sent iff every data slot is acknowledged, and 4 otherwise |
| Slonicki.SendBytesNakWire | avclandrv.c:570-587 | After a NAK the loop sends nothing more: the wire is the payload's bits up to the first unacknowledged byte's slot, which holds the sender's `1`, and the acknowledgements are consumed up to that slot |
| Slonicki.SendFrame | avclandrv.c:532-589 | Each slot is read; all acknowledged returns 0 with the whole frame sent; otherwise the code of the first NAKed slot, 1, 2, 3 or 4 |
| Slonicki.SendFrameNakWire | avclandrv.c:532-589 | After a NAK the wire is the frame up to that slot (bit 27, 33, 43, or 53 + 10i for data byte i) followed by the sender's own `1`, and nothing after it |
| Slonicki.SendData | avclandrv.c:511-590 | The payload goes from this device to the head unit with control 0xF, whole when every slot is acknowledged |
| Slonicki.SendDataNakWire | avclandrv.c:511-590 | A refused `AVCLan_SendData` is the unicast frame cut after the first NAKed slot |
| Slonicki.FirstNakFrom | avclandrv.c:545-573 | With the header acknowledged, the first NAK is a data slot's |
| Slonicki.SendDataBroadcast | avclandrv.c:592-644 | Direction 0, receiver 0x1FF, a `1` driven in every slot, and 0 returned |
| Slonicki.BroadcastSlots | avclandrv.c:616-637 | Where the slots of a frame lie and what they hold |
| Slonicki.DataSlots | avclandrv.c:633-637 | Every data byte's slot holds the slot value |
| Slonicki.FrameOf | avclandrv.c:646-663 | `cmd[0] != 0` selects the unicast frame, `cmd[0] == 0` the broadcast |
| Slonicki.SendAnswerFrame | avclandrv.c:646-663 | A unicast template reports the first NAK; a broadcast one always reports success |
| Slonicki.Send | avclandrv.c:646-663 | One template goes out as one logged attempt |
| Slonicki.SendFrom | avclandrv.c:693-741 | The `if (!r)` chain keeps the log in order and stops at the first failure |
| Slonicki.LoggedInOrder | avclandrv.c:693-741 | Logging the next attempt keeps the log in template order |
| Slonicki.BroadcastsComplete | avclandrv.c:693-741 | A chain of broadcast templates never stops early |
| Slonicki.InitTemplates | avclandrv.c:693-741 | The ten initialisation templates are well-formed broadcasts |
| Slonicki.SendBroadcasts | avclandrv.c:693-741 | Every broadcast template of a chain is sent, and the result is 0 |
| Slonicki.SendInitCommands | avclandrv.c:693-741 | All ten initialisation broadcasts are always sent, and 0 is returned |
| Slonicki.StatusTemplate | avclandrv.c:743-757 | The status template carries disc, track, minutes and seconds at 7..10 and a zero at 11 |
| Slonicki.SendStatus | avclandrv.c:743-757 | The status goes out as one broadcast frame carrying the play position |
| Slonicki.PatchPosition | avclandrv.c:801-805 | Indices 7..10 of a 13-byte template set to disc/track/min/sec, the rest kept |
| Slonicki.AfterAnswer | avclandrv.c:759-830 | The state changes of each case, independent of the transmissions; `answerReq` ends as `cmNull` |
| Slonicki.PlanFor | avclandrv.c:762-826 | What each request sends, and in which chaining |
| Slonicki.SendThen | avclandrv.c:793-796 | The second frame only if the first succeeded; the last frame's code |
| Slonicki.SendThenQuietly | avclandrv.c:805-808 | The status only if PLAY_OK4 succeeded; PLAY_OK4's code |
| Slonicki.SendBoth | avclandrv.c:815-821 | Both frames whatever the first returned; the second's code |
| Slonicki.Run | avclandrv.c:762-826 | The transmissions of a plan |
| Slonicki.AnswerSession | avclandrv.c:762-826 | The transmissions `AVCLan_SendAnswer` makes for `answerReq` |
| Slonicki.SendAnswer | avclandrv.c:759-830 | The answer clears `answerReq` and keeps the play position |
| Slonicki.AnswerSingleFrame | avclandrv.c:763-789 | Status, register and PlayReq1 send one unicast frame, whose code is the answer's |
| Slonicki.AnswerBeepIgnoresFailure | avclandrv.c:822-825 | The beep's failure is not reported |
| Slonicki.AnswerPlaysOn | avclandrv.c:790-797 | PlayReq2/3 send PLAY_OK2, then PLAY_OK3 only if it went through |
| Slonicki.AnswerModes | avclandrv.c:786-814 | The play and stop requests set `playMode` and `CD_Mode`; the others leave them alone |
| Slonicki.AnswerPlayItPatch | avclandrv.c:799-806 | PlayIt writes disc/track/min/sec into indices 7..10 of PLAY_OK4 |
| Slonicki.AnswerPlayItFrames | avclandrv.c:799-809 | PlayIt broadcasts the patched PLAY_OK4, then the status |
| Slonicki.AnswerStopPatch | avclandrv.c:811-820 | The stop requests write the play position into STOP2 |
| Slonicki.AnswerStopFrames | avclandrv.c:811-821 | STOP1 and then the patched STOP2, whatever STOP1 returned |
| Slonicki.AnswerCheckCounter | avclandrv.c:781-785 | Check clears `check_timeout` and increments CMD_CHECK[6], payload byte 4 |
| Slonicki.AnswerCheckFrame | avclandrv.c:781-785 | Check sends CMD_CHECK as it stood before the increment |
| Slonicki.AnswerTemplatesUnchanged | avclandrv.c:759-830 | Only PlayIt, the stop requests and Check touch the writable templates |
| Slonicki.ReadCheckedOf | avclandrv.c:395-400 | A field sent with its parity bit reads back as its value |
| Slonicki.ReadAddressOf | avclandrv.c:370-384 | An address sent as two halves and one parity bit reads back as those halves |
| Slonicki.FramePulses | avclandrv.c:511-590 | The pulses a listener measures for a frame |
| Slonicki.HeaderParts | avclandrv.c:532-544 | The direction bit at pulse 1, the addresses at 2 and 15 |
| Slonicki.FrameParts | avclandrv.c:532-587 | Control at 29, length at 35, the payload from 45 |
| Slonicki.RouteOf | avclandrv.c:346-388 | The direction and both addresses read back as sent |
| Slonicki.ControlHeard | avclandrv.c:395-414 | Control and length read back with their slots |
| Slonicki.ControlOf | avclandrv.c:395-414 | Control and length read back as sent, whoever the frame is for |
| Slonicki.HeaderOf | avclandrv.c:346-415 | The header of a sent frame reads back as sent |
| Slonicki.DataParts | avclandrv.c:570-585 | Where a listener hears each payload byte, its parity bit and its slot |
| Slonicki.DataStep | avclandrv.c:423-437 | One payload byte, its parity and its slot read back |
| Slonicki.DataEnd | avclandrv.c:423-437 | The payload reader stops cleanly ten pulses per byte further on |
| Slonicki.DataOf | avclandrv.c:423-437 | The heard payload is what the reader writes to `message` |
| Slonicki.ReadMessageAccepts | avclandrv.c:417-441 | A header and payload that read cleanly make an accepted frame |
| Slonicki.PayloadLands | avclandrv.c:423-437 | A whole payload lands at the head of `message` |
| Slonicki.MessageRoundTrip | avclandrv.c:366-435 | Whatever the senders write, `AVCLan_Read_Message` accepts with the same direction, addresses, control, length and payload |
| Slonicki.SendDataRoundTrip | avclandrv.c:532-580 | A successful `AVCLan_SendData` reads back as a frame from this device to the head unit with the same payload |
| Slonicki.BroadcastRoundTrip | avclandrv.c:592-644 | A broadcast reads back as a frame to 0x1FF with the same payload |
| AuxEnabler.ModeOf | AVCLanDriver.h:44-49 | MSG_BCAST is the direction bit 0 and MSG_NORMAL is 1 |
| AuxEnabler.TimingOrder | AVCLanDriver.h:36-42 | 40 < 52 < 64 < 74 < 336 < 372, with the threshold derived as 64 - (64 - 40)/2 |
| AuxEnabler.AddressesFit | AVCLanDriver.h:13-19 | 0x190, 0x360 and 0x1FF fit in 12 bits, and the control flags in 4 |
| AuxEnabler.Tcnt0 | AVCLanDriver.c:628-644 | Timer 0 is 8 bits wide: `TCNT0` never exceeds 255 and equals the elapsed count below 256 |
| AuxEnabler.Tcnt0Mod | AVCLanDriver.c:628-644 | After `TCNT0 = 0` the counter shows the elapsed count modulo 256 |
| AuxEnabler.WaitEnds | AVCLanDriver.c:593-615 | `while ( TCNT0 < limit );` after a reset ends after exactly `limit` counts when the limit is below 256 |
| AuxEnabler.WaitSpins | AVCLanDriver.c:628-644 | With a limit of 256 or more that wait never ends |
| AuxEnabler.StartBitNeverEnds | AVCLanDriver.c:628-644 | The waits for 40, 64 and 74 counts end, but both waits of `SendStartBit` (336 and 372) spin for ever |
| AuxEnabler.StartBitReadsAsZero | AVCLanDriver.c:663-699 | A 336-count start bit shows as 80 on the wrapping counter and still reads as `0` |
| AuxEnabler.Pow2Table | AVCLanDriver.c:452-580 | The masks 0x8, 0x80 and 0x800 are the top bits of 4, 8 and 12 |
| AuxEnabler.PulsesRead | AVCLanDriver.c:663-699 | A transmission reads back bit for bit, after a start bit that reads as `0` |
| AuxEnabler.ShiftInBit | AVCLanDriver.c:680-690 | `data <<= 1` and `data |= 1` on a 16-bit word |
| AuxEnabler.ReadStep | AVCLanDriver.c:676-695 | Extending the read by one level |
| AuxEnabler.ReadBits | AVCLanDriver.c:663-699 | `n` bits most significant first, each a `1` when the 8-bit `TCNT0` left by its high time is below 52; `ParityBit` is cleared on entry and is the XOR of the bits read |
| AuxEnabler.ShortReadExact | AVCLanDriver.c:663-699 | Reads of at most 12 bits do not wrap the 16-bit word |
| AuxEnabler.Send12BitWord | AVCLanDriver.c:452-486 | The 12 bits of an address under mask 0x800, with `ParityBit` their XOR |
| AuxEnabler.Send8BitWord | AVCLanDriver.c:499-533 | The 8 bits of a byte under mask 0x80, with their parity |
| AuxEnabler.Send4BitWord | AVCLanDriver.c:546-580 | The 4 bits of a nibble under mask 0x8, with their parity |
| AuxEnabler.TableFacts | AVCLanDriver.c:108-136 | The table has 15 entries, all fitting `Data[11]`, ending with the zero-size sentinel |
| AuxEnabler.PingAndCheck | AVCLanDriver.c:123-133 | "Ping" and "LAN Check" have the same three bytes, and Ping comes first |
| AuxEnabler.FirstMatch | AVCLanDriver.c:416-435 | The first entry from `k` on whose bytes `Data` matches, or the end |
| AuxEnabler.ActionIn | AVCLanDriver.c:408-439 | The action of the first matching entry of a well-formed table |
| AuxEnabler.ActionFor | AVCLanDriver.c:408-439 | What `GetActionID` returns for `Data` |
| AuxEnabler.ShadowedEntry | AVCLanDriver.c:416-435 | An entry repeating an earlier entry's pattern is never the first match |
| AuxEnabler.CheckIsShadowed | AVCLanDriver.c:123-133 | `GetActionID` never returns ACT_CHECK |
| AuxEnabler.FirstMatchUnique | AVCLanDriver.c:416-435 | The first match is unique |
| AuxEnabler.EntryMatches | AVCLanDriver.c:420-430 | The inner loop finds a match iff the first `DataSize` bytes agree |
| AuxEnabler.ScanTable | AVCLanDriver.c:416-435 | The outer loop returns the action of the first matching entry |
| AuxEnabler.GetActionID | AVCLanDriver.c:408-439 | `GetActionID` agrees with the first-match reference definition |
| AuxEnabler.Field | AVCLanDriver.c:663-699 | The value of an `n`-bit field fits the register |
| AuxEnabler.ReadAddresses | AVCLanDriver.c:187-207 | The start bit, direction and addresses; each register is written before its parity is checked |
| AuxEnabler.ReadControl | AVCLanDriver.c:209-231 | The first slot, then the control nibble and its parity |
| AuxEnabler.ReadSize | AVCLanDriver.c:233-259 | The second slot, the data size with parity, the third slot |
| AuxEnabler.ReadPayload | AVCLanDriver.c:263-288 | Each `Data[i]` is written before its parity check; a complete payload is looked up in the table |
| AuxEnabler.ReadAfterAddresses | AVCLanDriver.c:209-288 | The rest of the header, then the payload |
| AuxEnabler.ReadFrame | AVCLanDriver.c:185-298 | Any parity error yields ACT_NONE; registers written so far keep their new values, and `Data` beyond the size keeps its old bytes |
| AuxEnabler.AvcReadMessage | AVCLanDriver.c:185-298 | `AvcReadMessage` on measured high times, each classified by the wrapped `TCNT0` it leaves; a completed frame's action is the table's and never Check |
| AuxEnabler.FirstNak | AVCLanDriver.c:795-850 | The first slot not acknowledged: none in broadcast, and otherwise one whose high time leaves the 8-bit `TCNT0` at 52 or below |
| AuxEnabler.LongPulsesWrap | AVCLanDriver.c:688 | A high time of 256 counts or more is classified by its remainder: 300 counts read as a `1` and as no acknowledgement (a one-slot unicast frame stops at slot 0), 320 as a `0` and as one; below 256 the raw width decides |
| AuxEnabler.SendFrom | AVCLanDriver.c:720-780 | Each field and its slot; the first missing acknowledgement ends the frame with FALSE |
| AuxEnabler.SendMessage | AVCLanDriver.c:712-782 | TRUE iff every slot was acknowledged, and then the whole frame went out; a broadcast cannot fail |
| AuxEnabler.AckedRunSnoc | AVCLanDriver.c:720-780 | An acknowledged run grows one field and one slot at a time |
| AuxEnabler.SendSplit | AVCLanDriver.c:720-780 | Sending from field `i` is the acknowledged fields up to `k`, then sending from `k` |
| AuxEnabler.SendField | AVCLanDriver.c:839-850 | A broadcast sends a `0` in the slot; otherwise the acknowledgement is measured |
| AuxEnabler.SendStep | AVCLanDriver.c:720-780 | Either the run grows by one field or the frame ends as `SendMessage` says |
| AuxEnabler.HeaderField | AVCLanDriver.c:724-750 | Header fields as the word senders produce them, each with its parity |
| AuxEnabler.SendHeader | AVCLanDriver.c:724-757 | The three header fields and their acknowledgements |
| AuxEnabler.SendPayload | AVCLanDriver.c:759-772 | The payload loop stops at the first missing acknowledgement |
| AuxEnabler.SendDataByte | AVCLanDriver.c:761-770 | One data byte, its parity and its acknowledgement |
| AuxEnabler.Transmit | AVCLanDriver.c:712-782 | The statements of `SendMessage` produce exactly what the reference `SendMessage` says |
| AuxEnabler.FieldsLaid | AVCLanDriver.c:712-782 | The fields of a frame start where the layout puts them |
| AuxEnabler.RunFields | AVCLanDriver.c:712-782 | Every field of an acknowledged run sits at its offset, followed by its slot |
| AuxEnabler.FieldReads | AVCLanDriver.c:663-699 | A field sent with parity reads back as its low `n` bits and passes its parity check |
| AuxEnabler.ModeRoundTrip | AVCLanDriver.h:44-49 | The direction bit reads back as the mode it came from |
| AuxEnabler.AddressesRead | AVCLanDriver.c:187-207 | The addresses read back, cut to 12 bits |
| AuxEnabler.ControlRead | AVCLanDriver.c:225-231 | The control nibble reads back, cut to 4 bits |
| AuxEnabler.SizeRead | AVCLanDriver.c:243-249 | The data size reads back |
| AuxEnabler.PayloadComplete | AVCLanDriver.c:263-284 | Reading a sent payload completes |
| AuxEnabler.PayloadByteRead | AVCLanDriver.c:265-272 | Each payload byte reads back as sent |
| AuxEnabler.FrameLaidOut | AVCLanDriver.c:712-782 | Where a listener finds each field of a fully acknowledged frame |
| AuxEnabler.HeaderRead | AVCLanDriver.c:187-259 | The header of a sent frame reads back into the registers |
| AuxEnabler.FrameRoundTrip | AVCLanDriver.c:185-298 | A listener reads back a fully acknowledged frame completely, with the sender's registers (addresses cut to 12 bits, control to 4) |
| AuxEnabler.Load | AVCLanDriver.c:376-395 | Master is MY_ADDRESS; slave is BROADCAST_ADDRESS iff broadcast, else HU_ADDRESS; `DataSize` bytes copied; `Control` and the rest of `Data` kept |
| AuxEnabler.OutMessagesValid | AVCLanDriver.c:143-149 | The outgoing messages fit their 11-byte arrays |
| AuxEnabler.ProcessAction | AVCLanDriver.c:311-363 | Only "Eject CD" with no CD player active transmits, and then returns what `SendMessage` returns; other actions return FALSE and keep the registers |
| AuxEnabler.AuxFlag | AVCLanDriver.c:311-363 | AUX_IN_USE sets AUX; TUNER/TAPE/CD clear it; Eject toggles it unless the CD is active; the rest change nothing |
| AuxEnabler.EjectTwiceRestores | AVCLanDriver.c:336-355 | Two Eject presses restore AUX, whatever was acknowledged |
| AuxEnabler.EjectRegisters | AVCLanDriver.c:336-355 | Eject loads the disable or enable message with the last received control nibble |
| AuxEnabler.EjectSends | AVCLanDriver.c:336-355 | Eject succeeds iff all eight slots are acknowledged |
| AuxEnabler.SentFrameHeard | AVCLanDriver.c:185-298 | A listener reads a sent frame's mode, addresses, payload and control back |
| AuxEnabler.EjectCommandHeard | AVCLanDriver.c:336-355 | The head unit reads the Eject command as from 0x360 to 0x190 with the enable or disable payload |
| AuxEnabler.RegisterMe | AVCLanDriver.c:162-172 | Registering sends nothing, because ACT_REGISTER is not handled, yet it reports TRUE |
| AuxEnabler.RegisteredControl | AVCLanDriver.c:162-172 | After registering, the next Eject command goes out with control 0xF |
| AuxEnabler.IsAvcBusFree | AVCLanDriver.c:863-878 | TRUE iff the line stayed clear for every count up to 74 |
| SendTest.SendBits | src/send-test.c:32-59 | `AVCLAN_sendbits` emits the chunked bits of the `uint32_t` cells (nothing for `len <= 0`) and returns their parity |
| SendTest.SendByte | src/send-test.c:60-86 | The low `len` bits, most significant first, and the result 1 |
| SendTest.Send4BitWord | src/send-test.c:147-173 | The 4 bits of the value under mask 0x8 |
| SendTest.Send8BitWord | src/send-test.c:120-145 | The 8 bits under mask 0x80 |
| SendTest.Send12BitWord | src/send-test.c:88-118 | The 12 bits under mask 0x800 |
| SendTest.RegisterStep | src/send-test.c:44-52 | One shift of the 32-bit register brings the next bit under bit 7 |
| SendTest.FourBits | src/send-test.c:181-187 | The three 4-bit senders print the same bits, `0011` |
| SendTest.SendAcross | src/send-test.c:195-202 | Sending 9 to 16 bits from `&n[2]` sends the low bits of the word `n[2]`,`n[1]` form |
| SendTest.EightBits | src/send-test.c:189-205 | The "8 bits" lines print the bits of 0x61 (7 and 8) and of 0x361 (9 to 12) |
| SendTest.TwelveBits | src/send-test.c:207-215 | The chunked and the two-byte sends agree (the bits of 0x361); `Send12BitWord(0x360)` differs from them in the last bit only |
| PlayTime.Packed | avclandrv.c:853-860 | The packed BCD byte of a number below 100 is BCD and stands for it |
| PlayTime.NineTest | src/sniffer.c:289 | In packed BCD, `(data & 0x9) == 0x9` holds exactly for a low digit 9 |
| PlayTime.IncBcdSuccessor | avclandrv.c:853-860 | Below 0x99 `incBCD` is the BCD successor; 0x99 becomes 0xA0 |
| PlayTime.IncBcdPacked | src/sniffer.c:286-293 | `incBCD` of the packing of `n` is the packing of `n + 1`, for `n` below 99 |
| PlayTime.DecimalInjective | src/sniffer.c:286-293 | Two BCD bytes for the same number are equal |
| PlayTime.Tick | src/sniffer.c:296-309 | Every tick raises EV_STATUS; when stopped the clock is kept; when playing a valid clock stays valid and advances one second modulo 100 minutes |
| PlayTime.AdvanceStep | sniffer.c:228-238 | The play branch reaches the next second from any valid clock, and 99:59 wraps to 00:00 |
| PlayTime.SecondStep | sniffer.c:230-231 | Below 59 seconds only the seconds advance |
| PlayTime.MinuteStep | sniffer.c:232-233 | At 59 seconds the seconds become 0 and the minutes advance |
| PlayTime.HourWrap | src/sniffer.c:302-304 | 99:59 ticks over to 00:00 through the 0xA0 reset |
| PlayTime.TicksCoalesce | src/sniffer.c:307 | Two ticks before the main loop looks leave the same `Event` as one |
| SnifferLoop.BusWorkFor | src/sniffer.c:63-70 | A busy line means a frame is read; otherwise a nonzero `answerReq` is answered |
| SnifferLoop.LoopPass | sniffer.c:73-78 | A status frame goes out iff `Event` is exactly EV_STATUS, and then `Event` is cleared |
| SnifferLoop.StatusPerServedPass | src/sniffer.c:63-78 | From a reachable `Event`, one status frame goes out per pass that follows at least one tick |
| SnifferLoop.ClockCountsTicks | src/sniffer.c:296-307 | While playing, the clock advances one second per tick, whatever the loop does in between |
| SnifferLoop.PlayClockFollowsTicks | src/sniffer.c:63-78 | While playing, the main loop never touches the clock: after a run it has advanced once per tick |
| SnifferLoop.AdvanceByCounts | src/sniffer.c:296-305 | `n` ticks from a valid clock land `n` seconds on, modulo 100 minutes, and keep it valid |
| SnifferLoop.StoppedClockStill | sniffer.c:228-239 | While stopped, ticks leave the clock alone |
| HexInput.HexDigit | src/sniffer.c:182-185 | Every nibble has an upper-case digit that stands for it |
| HexInput.DigitDecodes | src/sniffer.c:182-185 | Subtracting 48 below ':' and 55 otherwise gives the digit's value |
| HexInput.PairDecodes | src/sniffer.c:181-192 | Two digits decode to `16*hi + lo` |
| HexInput.PairRoundTrip | sniffer.c:169-180 | Every byte is typed back by its two digits |
| HexInput.LowerCaseDigits | src/sniffer.c:182-190 | A lower-case first digit decodes like its upper-case form; a lower-case second digit adds 0x20 |
| HexInput.Start | src/sniffer.c:92-98 | 'S' starts an empty sequence and keeps the buffer |
| HexInput.Type | src/sniffer.c:88-205 | 'S' starts a sequence, 'W' and 'Q' stop reading and keep the bytes, 'B' loads the beep bytes, every other command key changes nothing; a command key or an idle recorder never overruns; a non-command key while idle changes nothing |
| HexInput.Digit | src/sniffer.c:176-195 | The first digit is remembered; the second writes the decoded byte at `s_len` and nothing else; a 33rd byte overruns `data_tmp` |
| HexInput.TypeAll | sniffer.c:164-193 | A run of keys keeps the recorder valid |
| HexInput.HexKeys | sniffer.c:164-193 | Two keys per byte |
| HexInput.TypedBytesRecorded | src/sniffer.c:176-195 | Typing the digits of bytes that avoid the digit B appends exactly those bytes |
| HexInput.TypePair | src/sniffer.c:176-195 | Typing one byte's two digits appends it |
| HexInput.NotCommand | src/sniffer.c:88-176 | Every hex digit except B reaches the default case |
| HexInput.DigitBIsBeep | src/sniffer.c:144-154 | The digit B is the beep command, never a digit |
| HexInput.SequenceRecorded | sniffer.c:90-193 | 'S' followed by the digits of up to 32 bytes records exactly those bytes |

## Left out

- Peripheral and clock setup is left out, because it is hardware configuration with no statable behaviour. This covers `AVCLAN_init`, `AVCLan_Init`, `Setup`, `general_GPIO_init`, `InitMCU`, and the RTC, TCB, AC and EVSYS register writes. The addresses `Setup` assigns appear as constants.
- Real-time pulse generation and polling are replaced by the pulse-width and acknowledgement-oracle model. This covers `set_AVC_logic_for`, `SendStartBit`, `Send1BitWord` timing, `INPUT_IS_SET` polling, and the wait loops in `AVCLAN_readbit_ACK`, `AVCLan_Read_ACK`, `AVCLan_Send_ACK` and `ReadAcknowledge`.
- `STOPEvent`/`STARTEvent` and `cli`/`sei` are left out. Each tick and each frame transaction is atomic in the model.
- Console output, UART and diagnostics are left out, because the protocol never consumes them:
  - com232.c, src/com232.c and USART.c;
  - `AVCLAN_printframe`, `ShowInMessage`, `ShowOutMessage` and `DumpRawMessage`;
  - `print_help`;
  - the echo in the sequence recorder.
- Sniffer keyboard commands other than the sequence recorder's are left out. Those are the register, log, echo and help keys, and `AVCLan_SendMyData`/`AVCLan_SendMyDataBroadcast` behind 'W' and 'Q'.
- Debug-build keys ('1', 'E', 'M') are left out; `HexInput.IsCommand` models a build without HARDWARE_DEBUG and SOFTWARE_DEBUG.
- Hardware-debug code, the LED and watchdog main loop, and the build check are left out, because none of them has protocol behaviour. This covers `AVCLan_Measure`, `SetHighLow`, ToyotaAuxEnabler.c, the GlobalDef.h macros and cmake/libc-version-test.cpp.
- src/read_bits.c is not part of this model. It is an experimental reader built on inline assembly.
- The `Description` strings of the AUX enabler's message tables are left out, because they are only printed.
- C floating-point evaluation of the src/timing.h expressions is replaced by exact reals.
- Mockingboard.ReadFrame, Slonicki.ReadMessage and AuxEnabler.ReadFrame: a reception whose pulses run out ends in a `Starved` outcome. The source instead waits forever for the next edge.
- Mockingboard.ReadFrame: the source stores the payload through `frame.data`, and that pointer is null. `AVCLAN_frame_t frame = {}` at src/avclandrv.c:496 zero-initialises it, and nothing sets it before the payload loop at line 576. The same pointer is read by `CheckCmd` and by `CMD_CHECK.data[4] = frame.data[3]` at line 642. C leaves all of this undefined; on the target it writes and reads the I/O registers at addresses 0 to 31. The model stores the payload in `Device.rxData`, a MAXMSGLEN-byte memory that keeps what was written, and matches the patterns against it. What those register writes do to the microcontroller is not modelled.
- Mockingboard.ReadData: it writes the same `rxData` stand-in for the null `frame.data`, for the reason given above.
- A build with `__AVENSIS__` defined is left out. In that build `play_req2` has 5 bytes, but its length byte says 6, so `CheckCmd` would read past the array. Both driver modules use the other build's 7-byte pattern.
- AuxEnabler.SendMessage: it describes the frame a sender whose start bit completes would send. On the ATmega328P, `SendStartBit` waits for the 8-bit `TCNT0` to reach 336, and it never does (`AuxEnabler.StartBitNeverEnds`). So on the target `SendMessage` never returns, and the watchdog resets the device with the line driven. The model's counts are unbounded.
- AuxEnabler.ProcessAction: for Eject it returns what `SendMessage` returns, which holds only for a start bit that completes; on the target the call never returns, as the line above says.
- AuxEnabler.EjectSends: "succeeds iff all eight slots are acknowledged" holds only for a start bit that completes; on the target the Eject command hangs in `SendStartBit`.
- AuxEnabler.EjectCommandHeard: what the head unit would hear from a completed transmission; on the target the start bit never ends, so it hears no command.
- AuxEnabler.Transmit: like `AuxEnabler.SendMessage`, it describes the frame after a start bit that completes. So do `AuxEnabler.FrameRoundTrip` and `AuxEnabler.SentFrameHeard`.
- AuxEnabler.ReadBits: it requires the `n` pulses to be present, because the source waits without a timeout for each rising edge.
- AuxEnabler.SendMessage: it models the frame after the bus-free wait. The unbounded spin on `IsAvcBusFree` is left out; `AuxEnabler.IsAvcBusFree` models one check.
- SendTest.SendBits: it requires `len <= 8 * (p + 1)`. The source reads past the start of the array otherwise. This includes the final `*--byte` of the source's loop, which is performed after the last chunk and whose value is never used; the model does not perform it.
- SendTest.SendByte: it requires `1 <= len <= 8`. A length of 0 would shift out 2^32 bits, and above 8 the `uint32_t` difference `8 - len` wraps to 2^32 + 8 - len (2^32 - 4 for a length of 12), a shift count far above 31, which C leaves undefined. `main` makes that call once, `AVCLan_Send_Byte(n[2], 12)` at src/send-test.c:204, and the model leaves it out.
- HexInput.Digit: a 33rd byte writes past `data_tmp[32]`, which C leaves undefined; the model reports `Overrun` there.
- SnifferLoop.Run: the CD mode is a fixed parameter of a run. The answers that change the mode are modelled in the driver modules (`AnswerModes`).

## Behaviour reproduced as written

These are behaviours of the code that the model keeps rather than fixes. Each
is exhibited by the lemma named.

- src/avclandrv.c reads the acknowledgement only when `!frame->broadcast`, and BROADCAST is 0. So a UNICAST frame never notices a missing acknowledgement, and a BROADCAST frame fails without one (`Mockingboard.UnicastIgnoresNak`, `Mockingboard.BroadcastNeedsAck`).
- The TCB0 interrupt adds the bit and then shifts, so every field reads back doubled modulo 256 (`Mockingboard.IsrShiftsOnceTooFar`, `Mockingboard.AddressReadBack`). Two consequences follow:
  - A parity bit of `1` reads as 2, so every field with odd parity is rejected. This includes every frame from the head unit at 0x190 (`Mockingboard.HeadUnitFramesRejected`).
  - The device's own address reads as 0xC006 (`Mockingboard.OwnAddressReadBack`).
- As a consequence, `for_me` never holds in src/avclandrv.c. A 12-bit read's low byte is at most 30, and CD_ID's is 0x60. So the ACK branch and the unicast command chain are dead, and the device never answers a request addressed to it (`Mockingboard.NeverOwnAddress`, `Mockingboard.ReadHeader`).
- `TCB1.CNT` is cleared once before the bus-free wait and keeps running. So a line that is busy throughout does not hold the sender back: the wait ends at count 865 anyway (`Bus.WaitForFreeLine`).
- In AVCLanDriver.c, `SendStartBit` waits for the 8-bit `TCNT0` to reach 336 and then 372, which it never does. So the AUX enabler can never finish a transmission, while the 40, 64 and 74-count bit waits do end (`AuxEnabler.StartBitNeverEnds`). Receiving also reads the wrapped counter. A head-unit start bit of 336 counts shows as 80 and still reads as `0` (`AuxEnabler.StartBitReadsAsZero`). But any high time of 256 counts or more is classified by its remainder modulo 256: 300 counts read as a `1` and as a missing acknowledgement (`AuxEnabler.LongPulsesWrap`).
- `AVCLAN_readbyte` keeps the parity accumulated before it (`Mockingboard.ReadByte`).
- `CMD_CHECK.data[6]++` increments a byte outside the 6-byte payload (`Mockingboard.CheckCounterOutsidePayload`).
- The PlayIt and Stop patches write indices 8..10 and overwrite the trailing 0x80 (`Mockingboard.PlayItOverwritesTrailer`).
- In AVCLanDriver.c the "Ping" entry shadows "LAN Check", so ACT_CHECK never comes back (`AuxEnabler.CheckIsShadowed`).
- `AvcRegisterMe` reports TRUE without sending anything (`AuxEnabler.RegisterMe`).
- A reply reuses the control nibble of the last frame received (`AuxEnabler.EjectRegisters`).
- Data bytes beyond a received frame's size stay from earlier frames and take part in `GetActionID` (`AuxEnabler.ReadFrame`).
- `AvcReadMessage` does not check `DataSize` against the buffer; the model's `Data` has the source's 256 entries.
- The legacy parity test `(parity_bit & 1) != AVCLan_Read_Byte(1)` reads `parity_bit` before the call. C leaves the order unspecified; the model takes left to right (`Slonicki.CheckParity`).
- In both sniffers, the command key 'B' shadows the hex digit B, so no byte with a B nibble can be typed (`HexInput.DigitBIsBeep`).
- Lower-case second digits decode 0x20 too high (`HexInput.LowerCaseDigits`).
- `switch (Event)` compares the whole byte, so a status frame goes out only when EV_STATUS is the one flag raised (`SnifferLoop.LoopPass`).
- `incBCD(0x99)` is 0xA0, as the source's own warning says. The tick resets 0xA0 minutes to 0 (`PlayTime.IncBcdSuccessor`, `PlayTime.HourWrap`).
- The labels `main` in src/send-test.c prints do not match the data it sends:
  - The "8 bits" lines are labelled 0x63 but send 0x61 and 0x361.
  - The "12 bits" lines are labelled 0x360, but `n[2]`, `n[1]` form 0x361, so `Send12BitWord(0x360)` differs from the other two in its last bit (`SendTest.EightBits`, `SendTest.TwelveBits`).
