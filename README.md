# libosdp control-panel link layer, modelled in Dafny

This project models `src/cp-phy.c` of libosdp. That file is the control panel's link layer for the
Open Supervised Device Protocol (OSDP v2, the SIA standard for access-control readers,
keypads and output modules). It holds four pieces, and each is a module here:

- **Command encoder** (`Commands`, commands.dfy). `cp_build_command` turns a logical command
  into the payload bytes of one OSDP command, or refuses it. `BuildCommand` fills a caller's
  array with `buf[len++]` steps and is proved to write exactly `Encode(cmd)`. `ParseCommand`
  is a peripheral-side reader of those bytes, used to state what the layouts preserve.
- **Reply decoder** (`Replies`, replies.dfy). `cp_decode_response` classifies a reply as
  0 (accepted), 2 (busy: retry) or -1 (error) and applies it to the peripheral record. The
  record is the class `Peripheral`, whose `DecodeResponse` is proved to match the pure
  `Decode`. The capability table is a map keyed by capability code. The status bits are
  named booleans. Calls to the keypad and card-read callbacks become `Event`s appended to
  `events`.
- **Command queue** (`CommandQueue`, queue.dfy). `cp_enqueue_command` and `cp_dequeue_command`
  work on a 128-byte ring with `head` and `tail` indices. Each record is written one byte past
  `head`, so a gap byte precedes every record. A record's first byte is its own length. The
  class `Queue` keeps the ring in an array and holds the stored records as a ghost list.
  Its invariant `RingHolds` says that the bytes from `tail` to `head` are exactly a gap byte
  plus a record for each stored record in turn.
- **Link state machine** (`PhyLink`, phy.dfy). `cp_phy_state_update` moves through IDLE,
  SEND_CMD, RESP_WAIT and ERR. The pure `Transition` function is its specification. The class
  `Link` owns a `Queue` and the scratch array. Its `Step` calls `Queue.Dequeue` in IDLE and
  is proved to agree with `Transition`.

`Bytes` (bytes.dfy) holds the byte type and the little- and big-endian packings, with their
round-trip lemmas.

Where the code and its own comments differ, the model follows the code. `cp_phy_state_update`
documents 0 as "no command in queue" and 1 as "command in progress". Yet a poll that starts
in SEND_CMD (the resend after a busy reply) returns 0 when the send succeeds, because `ret`
starts at 0 and only the IDLE path sets it to 1. `Transition`, `ReturnCodes` and
`BusyRetryResends` state this value as the code produces it.

Constants that come from headers outside this file take these values: `OSDP_PD_CMD_QUEUE_SIZE`
128, `OSDP_PD_SCRATCH_SIZE` 64, `OSDP_RESP_TOUT_MS` 400, and `sizeof(struct cmd)` 2 (a length
byte and a code byte). The command and reply codes are those of the OSDP standard.

## Model

| member | source | states |
|---|---|---|
| Bytes.LeBytes | src/cp-phy.c:44-45 | the `byte_0`, `byte_1`, ... split of a value: its `n` low-order bytes, least significant first, always exactly `n` of them |
| Bytes.FromLe | src/cp-phy.c:163-173 | the shift-or assembly `b0`, `b1 << 8`, ... of a little-endian run; the value is below 256 to the power of the run's length |
| Bytes.BeBytes | src/cp-phy.c:175-177 | the `n` low-order bytes of a value, most significant first, always exactly `n` of them |
| Bytes.FromBe | src/cp-phy.c:175-177 | the most-significant-first assembly of the firmware version; the value is below 256 to the power of the run's length |
| Bytes.FromLeOfLeBytes | src/cp-phy.c:163-173 | reading back the `n` little-endian bytes of any value below 256^n gives that value |
| Bytes.LeBytesOfFromLe | src/cp-phy.c:203-206 | every little-endian byte run is the encoding of the value it denotes |
| Bytes.FromBeOfBeBytes | src/cp-phy.c:175-177 | reading back the `n` most-significant-first bytes of any value below 256^n gives that value |
| Bytes.BeBytesOfFromBe | src/cp-phy.c:175-177 | every most-significant-first byte run is the encoding of the value it denotes |
| Bytes.LeBytes2 | src/cp-phy.c:44-45 | two little-endian bytes are `byte_0` and `byte_1` of a 16-bit value |
| Bytes.LeBytes4 | src/cp-phy.c:104-107 | four little-endian bytes are `byte_0` to `byte_3` of a 32-bit value |
| Commands.Layout | src/cp-phy.c:37-109 | the field order of each payload-bearing command; it starts with the command code, and a TEXT layout is the 7-byte header followed by exactly the first `length` characters |
| Commands.Encode | src/cp-phy.c:16-129 | a command is encoded exactly when it is accepted; the encoding has the command's wire length, at most 39 bytes, and starts with its code |
| Commands.RefusedCommands | src/cp-phy.c:110-125 | obsolete codes, unknown codes and payload commands whose declared size is not header plus 4/16/5/38/5 are refused |
| Commands.EncodedLayouts | src/cp-phy.c:21-109 | each accepted layout byte by byte: `[id]`, `[id, 0]`, OUT with the timer low byte first, LED with the temporary timer low byte first and no permanent timer, BUZ, TEXT with `length` characters, COMSET with the baud rate low byte first |
| Commands.EncodeThenParse | src/cp-phy.c:21-109 | a peripheral reading an accepted command's bytes recovers every field that is sent |
| Commands.ParseThenEncode | src/cp-phy.c:21-109 | every payload a peripheral accepts is the encoding of some well-formed command |
| Commands.BuildCommand | src/cp-phy.c:16-129 | a refused command returns -1 with the buffer unchanged; otherwise the buffer starts with exactly `Encode(cmd)`, the return value is its length, and the bytes after it are unchanged |
| Commands.Put | src/cp-phy.c:27 | `buf[len++] = b` appends `b` after the first `len` bytes and leaves the rest alone |
| Commands.WriteOutput | src/cp-phy.c:37-47 | writes the OUT layout and nothing past it |
| Commands.WriteLed | src/cp-phy.c:48-70 | writes the 15-byte LED layout and nothing past it |
| Commands.PutLedTemporary | src/cp-phy.c:56-62 | appends the five temporary settings and the timer, low byte first |
| Commands.PutLedPermanent | src/cp-phy.c:64-68 | appends the five permanent settings, without a timer |
| Commands.WriteBuzzer | src/cp-phy.c:71-82 | writes the BUZ layout and nothing past it |
| Commands.WriteText | src/cp-phy.c:83-97 | writes the TEXT header and the first `length` characters, and nothing past them |
| Commands.WriteComSet | src/cp-phy.c:98-109 | writes the COMSET layout and nothing past it |
| Replies.DecodeOutcome | src/cp-phy.c:137-283 | the result is 0, 2 or -1; 2 exactly for BUSY; -1 exactly for an unknown code, a PDID payload other than 12 bytes or a PDCAP payload not divisible by 3; -1 and 2 change nothing; ACK, NAK, unsupported and deprecated replies change nothing |
| Replies.PdIdRoundTrip | src/cp-phy.c:163-177 | the identification payload of any identity that fits its fields is 12 bytes and parses back to that identity |
| Replies.PdIdBytesOfParse | src/cp-phy.c:163-177 | every 12-byte identification payload is the encoding of the identity parsed from it |
| Replies.PdIdReply | src/cp-phy.c:158-179 | a PDID reply carrying an identity returns 0 and installs exactly that identity, changing nothing else |
| Replies.CapsLastWins | src/cp-phy.c:185-189 | after applying capability triples in order, a code's entry comes from the last triple that names it |
| Replies.CapsUntouched | src/cp-phy.c:185-189 | a code no triple names keeps its entry, or stays absent |
| Replies.CapsReplyLastWins | src/cp-phy.c:180-191 | a PDCAP reply returns 0, changes only the capability table, and sets each named code from its last triple |
| Replies.CapsReplyUntouched | src/cp-phy.c:180-191 | a PDCAP reply leaves the entries of codes it does not name as they were |
| Replies.StatusReplies | src/cp-phy.c:192-200 | LSTATR sets tamper iff byte 1 is non-zero and power iff byte 2 is; RSTATR sets remote tamper iff byte 1 is; both return 0 and change nothing else |
| Replies.ComReply | src/cp-phy.c:201-211 | a COM reply stores the little-endian baud rate it carries, sets the COMSET-in-progress flag, returns 0 and changes nothing else |
| Replies.KeypadReply | src/cp-phy.c:212-230 | a KEYPPAD, CCRYPT or RMAC_I reply returns 0 and, when a keypad handler is installed, reports the keys its count byte covers, in order, with the peripheral's address; bytes after them are ignored and nothing else changes |
| Replies.RawReply | src/cp-phy.c:231-238 | a RAW reply's bytes: the format code at offset 2, a little-endian 16-bit bit count at offsets 3-4 that reads back as given, and the card data from offset 5 |
| Replies.CardReadReplies | src/cp-phy.c:231-258 | a RAW reply with any 16-bit count returns 0 and, with a card handler, appends exactly one card read carrying its format code, that count and the bytes after the header; a FMT reply appends one carrying the ASCII format, its count byte and the characters it covers, ignoring trailing bytes; without a handler nothing changes |
| Replies.WiegandRead | src/cp-phy.c:231-244 | a 26-bit Wiegand read (count 26, four data bytes) is accepted and reported with count 26 and its four bytes |
| Replies.Decode | src/cp-phy.c:137-283 | the reference decoder; its contract: the result is 0, 2 or -1, a non-zero result leaves the record as it was, events are only ever appended, and only key-press and card-read replies append them |
| Replies.ParsePdId | src/cp-phy.c:163-177 | the identification parse yields fields that fit their wire widths, with the model and version bytes taken as they come |
| Replies.ApplyCaps | src/cp-phy.c:185-189 | the capability table after the triples of a PDCAP payload, applied in order (properties in `CapsDomain`, `CapsLastWins`, `CapsUntouched`) |
| Replies.CapsDomain | src/cp-phy.c:185-189 | afterwards the table has an entry for exactly the codes it had plus the codes the triples name |
| Replies.Peripheral.DecodeResponse | src/cp-phy.c:137-283 | the return code and the new record are those `Decode` gives for the old record |
| Replies.Peripheral.DecodeEventReply | src/cp-phy.c:212-258 | the keypad, raw-card and formatted-card replies update the record as `Decode` says |
| Replies.Peripheral.StoreCapabilities | src/cp-phy.c:185-189 | the capability loop leaves the table equal to the triples applied in order, and changes nothing else |
| Replies.Peripheral.ReportKeys | src/cp-phy.c:222-227 | the handler loop appends one key-press event per key, in order |
| CommandQueue.FreeSpace | src/cp-phy.c:339-341 | the free space `fs` is between 1 and 128, is what the used bytes leave of the ring, and is the whole ring exactly when `head == tail` |
| CommandQueue.RingHolds | src/cp-phy.c:334-397 | the queue invariant: the bytes from `tail` up to `head` are a gap byte and a record for each stored record in turn, and each record starts with its own length |
| CommandQueue.HeadAfter | src/cp-phy.c:347-356 | the index an accepted enqueue leaves in `head` (and a dequeue in `tail`): one past the old index, wrapped, plus the record length, wrapped |
| CommandQueue.EnqueueFits | src/cp-phy.c:339-352 | the corrected acceptance test: the record and its gap byte fit strictly inside the free space |
| CommandQueue.Wrap | src/cp-phy.c:354-356 | an index below twice the capacity, brought back into the ring, is that index modulo 128 |
| CommandQueue.HoldsAppend | src/cp-phy.c:354-365 | adding a gap byte and a record after the used bytes adds that record at the back of the contents |
| CommandQueue.UnrollShift | src/cp-phy.c:377-395 | reading the ring from `d` bytes past `from` gives the rest of the longer read from `from` |
| CommandQueue.UnrollAfterWrite | src/cp-phy.c:354-365 | writing a record one past `head` keeps the used bytes and appends the gap byte and the record to them |
| CommandQueue.RingEmpty | src/cp-phy.c:374-375 | the queue reads as empty (`head == tail`) exactly when it holds no record |
| CommandQueue.RingPush | src/cp-phy.c:334-367 | an accepted enqueue keeps the queue invariant and adds the record at the back |
| CommandQueue.RingFront | src/cp-phy.c:369-397 | the oldest record starts one past `tail` with its own length byte; moving `tail` past it keeps the invariant for the rest |
| CommandQueue.EnqueueFitsNarrowsAsWritten | src/cp-phy.c:339-352 | the corrected space test refuses exactly what the written test refuses, plus the lengths `fs - 1` and `fs` |
| CommandQueue.EnqueueFitsAsWritten | src/cp-phy.c:339-352 | the as-written acceptance test: refuse when `len > fs` or when the start index is `tail` |
| CommandQueue.EnqueueAsWrittenLosesRecord | src/cp-phy.c:339-365 | as written, with 121 bytes in use (`head` 121, `tail` 0) a 6-byte OUT record passes the test and `head` lands on `tail`, so every queued record is lost; the corrected test refuses it |
| CommandQueue.DequeueStartAsWritten | src/cp-phy.c:377 | the as-written dequeue start, `tail + 1`, never wrapped |
| CommandQueue.PassThrough | src/cp-phy.c:354-356 | where `head` and `tail` stand after `n` OUT records each pass through the empty queue; the index stays inside the ring |
| CommandQueue.PassThroughShifts | src/cp-phy.c:354-356 | each record passed through moves both indices on by 7 (the record and its gap byte), modulo 128 |
| CommandQueue.LastSlotAfterSeventyThree | src/cp-phy.c:354-356 | among the first 73 OUT records passed through one at a time, only the 73rd leaves `tail` at 127, so up to then the unwrapped dequeue start stays inside the buffer |
| CommandQueue.DequeueAsWrittenOverruns | src/cp-phy.c:377-378 | with `tail` at 127 the next record is written from index 0, but the dequeue as written reads index 128, outside the buffer; the corrected start wraps to 0, where the record is |
| CommandQueue.Memcpy | src/cp-phy.c:359-362 | copies `n` bytes to `dst + dstOff` and leaves every other byte of `dst` unchanged |
| CommandQueue.Queue.WriteAt | src/cp-phy.c:354-363 | the one- or two-piece copy writes the record around the ring from `start`, and returns the wrapped end index |
| CommandQueue.Queue.ReadAt | src/cp-phy.c:383-392 | the one- or two-piece copy reads `len` ring bytes from `start` into `dst`, leaves the rest of `dst` alone, and returns the wrapped end index |
| CommandQueue.Queue.Enqueue | src/cp-phy.c:334-367 | returns 0 exactly when the record and its gap byte fit; then the record is added at the back and `head` moves past it, otherwise nothing changes; `tail` never changes; the invariant holds |
| CommandQueue.Queue.Dequeue | src/cp-phy.c:369-397 | empty: returns 0, nothing changes; oldest record longer than `maxlen`: returns -1, nothing changes; otherwise copies the oldest record into `dst` and returns its length, and only without `readonly` removes it and moves `tail` past it |
| CommandQueue.Queue.TakeFront | src/cp-phy.c:380-396 | copies the oldest record into `dst` and returns its length; without `readonly` it also moves `tail` past it and drops it from the contents, keeping the invariant |
| CommandQueue.RoundTripAcrossEnd | src/cp-phy.c:334-397 | two records enqueued next to the physical end come back byte-identical, in order, and the queue is then empty |
| PhyLink.DequeueResult | src/cp-phy.c:369-397 | what the dequeue returns for a queue holding given records: 0 when empty, -1 when the oldest record is longer than `maxlen`, otherwise that record's length |
| PhyLink.AfterSend | src/cp-phy.c:432-441 | the send step: a successful send waits for the reply from `now`, a failed one moves to ERR returning -1 |
| PhyLink.Transition | src/cp-phy.c:415-469 | the reference state machine; its contract: ERR stays in ERR returning -1, the stamp changes only to `now` on a successful send into RESP_WAIT, and IDLE is reached only returning 0 or 2 |
| PhyLink.ReturnCodes | src/cp-phy.c:406-469 | a poll returns -1, 0, 1 or 2; -1 only in ERR; ERR is reached with -1 or by a timeout returning 1; 2 exactly for a reply or a busy reply in RESP_WAIT; 0 exactly for an empty queue or a resend from SEND_CMD |
| PhyLink.StampOnSend | src/cp-phy.c:432-441 | the send time stamp changes exactly when a send succeeds, and becomes the current time |
| PhyLink.ErrIsTerminal | src/cp-phy.c:463-465 | from ERR every poll stays in ERR and returns -1 |
| PhyLink.TimeoutReportedOnce | src/cp-phy.c:457-461 | a poll past the deadline with no reply moves to ERR returning 1, and every later poll returns -1 |
| PhyLink.BusyThenResend | src/cp-phy.c:432-456 | a busy reply moves to SEND_CMD returning 2; the next poll resends, waits again from a fresh stamp and returns 0, whatever the queue holds |
| PhyLink.Link.Step | src/cp-phy.c:415-469 | the new state, stamp and return value are those of `Transition`; only IDLE dequeues; a dequeued record is what is sent and stays staged; a resend from SEND_CMD sends the staged command again; RESP_WAIT sends nothing and leaves the scratch area alone; the queue's `head` and bytes never change, and `tail` moves past a dequeued record and stays put otherwise |
| PhyLink.Link.Send | src/cp-phy.c:432-441 | a successful send waits for the reply from `now`; a failed one moves to ERR and returns -1 |
| PhyLink.BusyRetryResends | src/cp-phy.c:415-469 | a queued command is sent, a busy reply makes the next poll send the identical bytes again, and the returns are 1, 2, 0, 2, 0 |

## Left out

- Framing and transport: `cp_send_command` and `cp_process_response` (src/cp-phy.c:285-332) call packet helpers and transport functions that are not part of this model. `Link.Step` takes their results as inputs: `sendOk` for the send, and `response` for the receive (1 no data, -1 framing rejected, or the decoder's 0, 2 or -1).
- `Link.Step` hands the dequeued record bytes to the send as `sent`. It does not re-encode them through `BuildCommand`, because the `struct cmd` layout (cp-private.h) is not part of this model.
- `millis_now` and `millis_since`: the time is the parameter `now`, and elapsed time is `now - tstamp` on unbounded integers. Wrap-around of a 32-bit millisecond clock is not modelled.
- Logging (`osdp_log`, `get_nac_reason`) is left out. It has no effect on state or results.
- The bodies of the keypad and card-read callbacks are application code. Only their calls are recorded, as events.
- Secure channel: the CCRYPT and RMAC_I replies are parsed only as key-press reports, as the file does.
- pytest/pyosdp/control_panel.py is a Python wrapper that polls the C extension from a thread. It has no link-layer logic of its own.
- Commands.BuildCommand: `maxlen` is not modelled, because the source never reads it. The method instead requires a buffer of at least 39 bytes, the longest payload.
- Commands.BuildCommand: a TEXT command must keep `text.length` within its 32-byte character array (`DataAgrees`). The source copies `text.length` bytes unchecked.
- Commands.WriteLed: the LED check uses a 16-byte payload member while 15 bytes are written, because the permanent settings carry no timer on the wire. The model follows the code, and `WireView` drops the permanent timer.
- Replies.Peripheral.DecodeResponse: requires `WellSized`, meaning the bytes read at fixed offsets exist. The source checks only the PDID and PDCAP lengths before reading NAK, LSTATR, RSTATR, COM, key-press, RAW and FMT payloads. For RAW only the five header bytes are required: the count is a number of bits, and the handler receives the bytes after the header as they are.
- Replies.Peripheral.DecodeResponse: keys are reported as bytes. The source passes them as `char`, whose signedness depends on the platform.
- Replies.Peripheral.DecodeResponse: the capability table is a map, so the bound of the C array `p->cap` is not modelled.
- Replies.Peripheral.DecodeResponse: the baud rate is assembled as an unbounded number. The source shifts a byte left by 24 in `int`, which gives the same value only where that shift does not overflow.
- Replies.ParsePdId: the serial number is assembled as an unbounded number. The source builds it with the same `<< 24` shift in `int` (src/cp-phy.c:173), so values with the top bit set are not modelled as the C code computes them.
- CommandQueue.Queue.Enqueue: follows the corrected space test. The source's `start == tail` refusal is covered by that test and does not appear separately.
- CommandQueue.Queue.Dequeue: requires `dst` to be a different array from the ring, as the scratch area is.

## Findings

| source | as written | input that shows it | evidently intended | confidence | as-written member | corrected member |
|---|---|---|---|---|---|---|
| src/cp-phy.c:339-345 | the enqueue refuses only `len > fs`, though the record also needs its gap byte and must not reach `tail` | 121 bytes in use (`head` 121, `tail` 0) and a 6-byte OUT record (`sizeof(struct cmd) + 4`): `fs` is 7, so it is accepted, `head` moves to 0 and the queue reads as empty, losing every queued record | accept only when `len + 1 < fs` | not executed | CommandQueue.EnqueueAsWrittenLosesRecord | CommandQueue.Queue.Enqueue |
| src/cp-phy.c:377-378 | the dequeue starts at `tail + 1` without wrapping | pass 73 OUT records (6 bytes each) through the queue one at a time: `tail` becomes 7 · 73 mod 128 = 127, and the next dequeue reads its length from `q->buffer[128]` | wrap the start to 0, as the enqueue does | not executed | CommandQueue.LastSlotAfterSeventyThree, CommandQueue.DequeueAsWrittenOverruns | CommandQueue.Queue.Dequeue |
