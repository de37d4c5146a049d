# ESC32 serial protocol, calibration loops and parameter table in Dafny

This project models three pieces of the ESC32 brushless motor controller.

- **The ground calibration tool** (`trunk/ground/esc32Cal.cc`). It talks to the controller over a serial link in a binary protocol.
  - Every frame starts with `'A','q'` and ends with two check bytes. The check bytes come from two 8-bit accumulators fed with the checked bytes of the frame.
  - Requests carry a length byte, a command byte, a 16-bit sequence id and either zero to two floats or a 16-byte parameter name.
  - The tool's reader thread resynchronises on `'A','q'`. It decodes control replies (ACK, NACK, the answer to a parameter-id request) and telemetry frames. Telemetry frames update the running averages, the maxima and an in-memory log.
  - The sender retries each request up to five times, each time with a fresh sequence id, and polls up to 500 times for the answer.
  - Two calibration sweeps drive the motor through duty values until an overcurrent limit is seen.
- **The firmware parameter table** (`tags/1.4.1/onboard/config.c`).
  - 32 named `float` parameters are looked up by case-insensitive prefix.
  - They are set by index or by name.
  - They are initialised from defaults or from a flash page, depending on the stored version word.
  - They are written back to flash word by word.
- **The code tables shared by both sides** (`ground/esc32.h`). These are the command codes, the telemetry value ids and the parameter ids.

## Files and modules

| file | module | contents |
|---|---|---|
| `bytes.dfy` | `Bytes` | byte, `unsigned short` and `short` widths, little-endian layout, C strings |
| `checksum.dfy` | `Checksum` | the two-accumulator check, its closed form and single-byte error detection |
| `codes.dfy` | `Esc32Codes` | the three enums of the header as datatypes with their numeric codes |
| `frames.dfy` | `Frames` | request frames as byte sequences; what the reader takes from reply frames in the byte stream |
| `retry.dfy` | `Retry` | the reader's verdict on a control reply and the poll and retry loops, as functions |
| `link.dfy` | `Esc32Cal` | class `Link`, holding the tool's globals, with the sending, reading and retry routines as methods |
| `calibration.dfy` | `Calibration` | the sweep loops of `rpmToVoltage` and `currentLimiter` |
| `config.dfy` | `Config` | the name table, `configGetId`, and class `Store`, holding `p` and the flash page |

### How the ground tool is modelled

- The globals of `esc32Cal.cc` are the fields of class `Link`:
  - the check accumulators;
  - `sendBuf` and `sendBufPtr`;
  - `commandSeqId`, `lastSeqId`, `lastAck` and `paramId`;
  - the telemetry arrays and `telemStorageNum`.
- The serial port is two things:
  - the stream of bytes `serialRead` returns (`input: nat -> Byte`, with the cursor `pos`);
  - the list of frames handed to `serialWrite` (`wire`).
- The reader's endless loop is modelled one pass at a time (`ReadOnce`). Each pass is the stretch from the `thread_read_start` label to the next jump back to it.
- The retry loops run in the sender's thread while the reader thread updates `lastSeqId`, `lastAck` and `paramId`. The sender sees the reader's work as one reply per poll, given as an argument: `replies(k)(i)` is the reply handled during poll `i` of attempt `k`. It is applied with the reader's own rules (`Retry.Apply`, which `Link.ReadControl` is proved to perform, and `Esc32Cal.ReplyOfControlReply` gives the reply for a well-formed frame in the stream).

### How the parameter table is modelled

- `p` and the flash page at `FLASH_WRITE_ADDR` are arrays of a `Float` that is either NaN or a number.
- The flash controller's status is given as arguments: whether the erase succeeds, and which word programs succeed.

### Where the header and the firmware differ

The parameter table of `config.c` has 32 names, so `Config.CONFIG_NUM_PARAMS` is 32. The ground header's `CONFIG_NUM_PARAMS` is 50: its enum continues past the firmware's table with parameters of a later firmware. The first 32 ids agree name for name (`Config.HeaderOrder`).

## Model

| member | source | states |
|---|---|---|
| Bytes.NextU16Wraps | trunk/ground/esc32Cal.cc:251 | `commandSeqId++` on an `unsigned short` is +1 modulo 2^16 |
| Bytes.LittleEndian16 | trunk/ground/esc32Cal.cc:98-104 | the two bytes of a short in memory order are its low byte then its high byte |
| Bytes.U16Of | trunk/ground/esc32Cal.cc:114-123 | reassembling two bytes gives the short whose low byte is the first and high byte the second |
| Bytes.LittleEndian16RoundTrip | trunk/ground/esc32Cal.cc:98-123 | reading back the bytes of a sent short gives the short |
| Bytes.ToI16 | trunk/ground/esc32Cal.cc:163 | storing an `unsigned short` into the `short` `paramId` keeps it modulo 2^16 |
| Bytes.I16Of | trunk/ground/esc32Cal.cc:163 | the received `paramId` is negative exactly when the high byte has its top bit set |
| Bytes.Literal | trunk/ground/esc32Cal.cc:726 | a C string literal is its bytes plus a closing NUL |
| Bytes.CText | trunk/ground/esc32Cal.cc:373 | the C string at a buffer is the NUL-free prefix before the first NUL |
| Bytes.CTextOf | trunk/ground/esc32Cal.cc:373 | a NUL-free text followed by a NUL reads back as that text |
| Bytes.AsciiChars | trunk/ground/esc32Cal.cc:726 | the bytes of a one-byte-per-character text spell that text |
| Checksum.Step | trunk/ground/esc32Cal.cc:74-82 | one step adds the byte to A and the new A to B, modulo 256 |
| Checksum.ClosedForm | trunk/ground/esc32Cal.cc:74-82 | from A=B=0, A is the byte sum and B the weighted sum (k+1)·b0+…+1·bk, both modulo 256 |
| Checksum.FoldAppend | trunk/ground/esc32Cal.cc:74-82 | accumulating x then y equals accumulating x+y |
| Checksum.SingleByteChangeDetected | trunk/ground/esc32Cal.cc:74-82 | two equal-length inputs that differ in exactly one byte have different A |
| Esc32Codes.CommandCode | ground/esc32.h:22-41 | request codes are 0..15 in declaration order; ACK is 250 and NACK 251; no code is 'C' or 'T' |
| Esc32Codes.CommandOfCode | ground/esc32.h:22-41 | a byte names a command exactly when it is below 16 or is 250 or 251, and then that command's code is the byte |
| Esc32Codes.RequestCodesConsecutive | ground/esc32.h:22-40 | the 16 requests have codes 0..15, pairwise distinct; ACK=250 and NACK=251 |
| Esc32Codes.CommandCodeRoundTrip | ground/esc32.h:22-41 | decoding the code of a command gives the command back |
| Esc32Codes.NoCommandIsFrameType | ground/esc32.h:22-41 | 'C' and 'T' name no command, so only undefined command bytes reach the reader's fall-through into the telemetry branch |
| Esc32Codes.ValueId | ground/esc32.h:43-61 | every value id is below `BINARY_VALUE_NUM` = 16 and names that value |
| Esc32Codes.ValueIdsConsecutive | ground/esc32.h:43-61 | the value ids are 0..15 in declaration order, 16 of them |
| Esc32Codes.ParameterOfId | ground/esc32.h:63-115 | an id names a parameter exactly when 0 <= id < 50 |
| Esc32Codes.ParamId | ground/esc32.h:63-115 | every parameter id is below 50 and names that parameter back |
| Esc32Codes.ParamIdsConsecutive | ground/esc32.h:63-115 | each of 0..49 is the id of exactly the parameter it names |
| Esc32Codes.MaxCurrentId | ground/esc32.h:84 | MAX_CURRENT is parameter 20 |
| Frames.Sealed | trunk/ground/esc32Cal.cc:247-258 | a frame is 'A','q', the checked bytes, then A and B of those bytes; the preamble is not checked |
| Frames.CommandLength | trunk/ground/esc32Cal.cc:249 | the length byte is 3+4n for n in 0..2 |
| Frames.ParamCount | trunk/ground/esc32Cal.cc:252-255 | at most two floats are sent, n of them for n in 0..2 |
| Frames.ParamBytes | trunk/ground/esc32Cal.cc:252-255 | `param1` is sent when n > 0, then `param2` when n > 1 |
| Frames.CommandFrameLayout | trunk/ground/esc32Cal.cc:240-264 | a command frame is 8+4n bytes: 'A','q', length 3+4n, command, sequence id low and high, the parameters, then the check of length byte through last parameter |
| Frames.NameField | trunk/ground/esc32Cal.cc:372-373 | the name field is 16 bytes; a name of 16 or more bytes is cut to its first 16 |
| Frames.NameFieldText | trunk/ground/esc32Cal.cc:372-373 | read as a C string, the NUL-padded field gives back the name, or its first 16 bytes |
| Frames.ParamIdFrameLayout | trunk/ground/esc32Cal.cc:360-377 | a parameter-id request is 24 bytes: length 19, command 15, sequence id, exactly 16 name bytes, then the check |
| Frames.RequestCorruptionDetected | trunk/ground/esc32Cal.cc:256-257 | corrupting one checked byte of a request changes its A check byte |
| Frames.Slice | trunk/ground/esc32Cal.cc:114-134 | the bytes read are consecutive bytes of the stream |
| Frames.HoldsPart | trunk/ground/esc32Cal.cc:136-238 | a frame present in the stream is present byte by byte |
| Frames.ControlAt | trunk/ground/esc32Cal.cc:157-169 | the check bytes of a control frame follow count, command, sequence id and, when count > 3, the parameter id; the check covers exactly those bytes |
| Frames.ShortBytes | trunk/ground/esc32Cal.cc:163 | the two bytes of a `short` reassemble to it |
| Frames.Framed | trunk/ground/esc32Cal.cc:154-155 | a reply frame is 'A','q', its type byte, the checked bytes and their A and B; the type byte is not checked |
| Frames.ControlBody | trunk/ground/esc32Cal.cc:158-163 | a control reply carries 4 checked bytes, or 6 with a parameter id |
| Frames.ControlReplyAccepted | trunk/ground/esc32Cal.cc:154-169 | a well-formed control reply is accepted and read back with its command, sequence id and parameter id |
| Frames.TelemetryAt | trunk/ground/esc32Cal.cc:193-204 | the check bytes of a telemetry frame follow rows, cols and rows·cols floats; the check continues over exactly those bytes |
| Frames.Flatten | trunk/ground/esc32Cal.cc:196-198 | the samples take four bytes each |
| Frames.FlattenAt | trunk/ground/esc32Cal.cc:196-198 | sample m occupies bytes 4m..4m+3 of the samples |
| Frames.RowMajorBound | trunk/ground/esc32Cal.cc:196-198 | row i, column j is within the rows·cols samples |
| Frames.TelemetryReplyAccepted | trunk/ground/esc32Cal.cc:192-204 | a well-formed telemetry reply is accepted with its rows and columns |
| Frames.SampleInFrame | trunk/ground/esc32Cal.cc:196-198 | sample m of a telemetry reply is the four bytes at offset 5+4m of the frame |
| Frames.TelemetrySampleAccepted | trunk/ground/esc32Cal.cc:196-198 | sample (i, j) read back is the sample sent at i·cols+j |
| Retry.RecordAnswers | trunk/ground/esc32Cal.cc:171-190 | an accepted frame answers its sequence id exactly for ACK, NACK and GET_PARAM_ID, ACK sets lastAck 1, NACK 0, and `paramId` is untouched |
| Retry.RejectedFrameKeepsAnswer | trunk/ground/esc32Cal.cc:162-169 | a frame with a bad check leaves lastSeqId and lastAck, but has already stored paramId when count > 3 |
| Retry.Poll | trunk/ground/esc32Cal.cc:340-344 | between 1 and 500 polls, fewer than 500 only when the sequence id was answered |
| Retry.PollStopsAtFirstAnswer | trunk/ground/esc32Cal.cc:340-344 | the poll loop ends with the status after its polls, and no poll before the last had answered the sequence id, so it stops at the first answer |
| Retry.SeqIdOfSucc | trunk/ground/esc32Cal.cc:362 | the id of attempt k+1 is the `unsigned short` after that of attempt k, 0xFFFF wrapping to 0 |
| Retry.Run | trunk/ground/esc32Cal.cc:336-347 | between 1 and 5 attempts, the last sent with the id of its attempt; fewer than 5 only when that id was answered (that no earlier attempt was answered is `Retry.RunStopsAtFirstAnswer`) |
| Retry.Continue | trunk/ground/esc32Cal.cc:346-347 | after the polls of attempt j: between j+1 and 5 attempts in all, fewer than 5 only when the last id was answered |
| Retry.ContinueStops | trunk/ground/esc32Cal.cc:346-347 | attempt j is the last exactly when its own id was answered or it is the fifth, and then the outcome keeps the status its polls left |
| Retry.RunStopsAtFirstAnswer | trunk/ground/esc32Cal.cc:336-347 | the retry loop ends with the status after all its attempts, and every attempt before the last left its own id unanswered, so it stops at the first answered attempt |
| Retry.AckAfterSilence | trunk/ground/esc32Cal.cc:336-350 | when attempts before k get no reply and the first poll of attempt k gets an accepted ACK with its id, the loop makes exactly k+1 attempts and returns 1 |
| Retry.ReliableResultMeaning | trunk/ground/esc32Cal.cc:349-352 | the result is 1 exactly when the last id was answered and the last recorded verdict `lastAck` is ACK; it is 0 exactly when the last id was not answered or `lastAck` is NACK (a GET_PARAM_ID reply answers an id without setting `lastAck`) |
| Retry.SilentPoll | trunk/ground/esc32Cal.cc:340-344 | with no replies a poll loop changes nothing and runs all 500 polls unless already answered |
| Retry.SilentDeviceExhausts | trunk/ground/esc32Cal.cc:386-393 | a device that never answers gets 5 frames; the result is 0, and -1 for a parameter-id request |
| Retry.FirstAckSucceeds | trunk/ground/esc32Cal.cc:344-350 | an ACK to the first frame in the first poll stops after one frame with result 1 |
| Retry.FirstNackStops | trunk/ground/esc32Cal.cc:344-350 | a NACK to the first frame also stops after one frame, with result 0 |
| Retry.FreshSeqIds | trunk/ground/esc32Cal.cc:337-347 | the five sequence ids of one request are pairwise distinct |
| Esc32Cal.SmoothedBounded | trunk/ground/esc32Cal.cc:206-209 | the running average stays between the least and greatest of the old average and the samples |
| Esc32Cal.SmoothedSnoc | trunk/ground/esc32Cal.cc:209 | one more sample is one more averaging step |
| Esc32Cal.RunningMaxBounds | trunk/ground/esc32Cal.cc:211-215 | the new maximum is at least the old one and every sample, and is one of them |
| Esc32Cal.RunningMaxSnoc | trunk/ground/esc32Cal.cc:214-215 | one more sample raises the maximum to it if larger |
| Esc32Cal.SlotInjective | trunk/ground/esc32Cal.cc:220 | distinct (column, row) pairs of the log use distinct slots |
| Esc32Cal.ReplyOfControlReply | trunk/ground/esc32Cal.cc:154-190 | a control reply in the stream is the accepted reply with its command, sequence id and parameter id |
| Esc32Cal.Link.constructor | trunk/ground/esc32Cal.cc:47-65 | globals start zeroed, with `commandSeqId` 1 and `lastSeqId` 0xFFFF (-1 as unsigned short) |
| Esc32Cal.Link.Send | trunk/ground/esc32Cal.cc:70-72 | the buffered bytes are handed to the port |
| Esc32Cal.Link.OutChecksum | trunk/ground/esc32Cal.cc:74-77 | one accumulation step on the outgoing check |
| Esc32Cal.Link.SendChar | trunk/ground/esc32Cal.cc:93-96 | buffers the byte at `sendBufPtr`, advances it, and checks the byte |
| Esc32Cal.Link.SendShort | trunk/ground/esc32Cal.cc:98-104 | buffers and checks the short's two bytes in memory order |
| Esc32Cal.Link.SendFloat | trunk/ground/esc32Cal.cc:106-112 | buffers and checks the float's four bytes |
| Esc32Cal.Link.StartFrame | trunk/ground/esc32Cal.cc:241-248 | checks reset, buffer holds 'A','q' unchecked |
| Esc32Cal.Link.Seal | trunk/ground/esc32Cal.cc:256-258 | appends A and B of the checked bytes and sends the frame |
| Esc32Cal.Link.SendHeader | trunk/ground/esc32Cal.cc:249-251 | buffers and checks length, command and sequence id |
| Esc32Cal.Link.SendParams | trunk/ground/esc32Cal.cc:252-255 | buffers and checks the parameters `n` selects |
| Esc32Cal.Link.SendCommand | trunk/ground/esc32Cal.cc:240-264 | sends the command frame with the old `commandSeqId`, returns that id, and advances `commandSeqId` by one with wrap-around |
| Esc32Cal.Link.SendParamIdRequest | trunk/ground/esc32Cal.cc:364-377 | sends the parameter-id request carrying the 16 name bytes |
| Esc32Cal.Link.SendName | trunk/ground/esc32Cal.cc:372-373 | buffers and checks exactly the 16 name bytes, in order, after the header |
| Esc32Cal.Link.InChecksum | trunk/ground/esc32Cal.cc:79-82 | one accumulation step on the incoming check |
| Esc32Cal.Link.SerialRead | trunk/ground/esc32Cal.cc:165 | the next byte of the stream, unchecked |
| Esc32Cal.Link.GetChar | trunk/ground/esc32Cal.cc:84-91 | the next byte, checked |
| Esc32Cal.Link.GetShort | trunk/ground/esc32Cal.cc:114-123 | the next two bytes as a short in memory order, both checked |
| Esc32Cal.Link.GetFloat | trunk/ground/esc32Cal.cc:125-134 | the next four bytes as a float, all checked |
| Esc32Cal.Link.RecordControl | trunk/ground/esc32Cal.cc:171-190 | the verdict on an accepted frame is `Retry.Record` |
| Esc32Cal.Link.ReadControlHead | trunk/ground/esc32Cal.cc:158-160 | count, command and sequence id are the next four bytes, all four checked |
| Esc32Cal.Link.GetTwoChars | trunk/ground/esc32Cal.cc:158-159 | the next two bytes, both checked in order |
| Esc32Cal.Link.ReadParamIdField | trunk/ground/esc32Cal.cc:162-163 | `paramId` takes the short in bytes 4 and 5 of the fields, and the check covers all six |
| Esc32Cal.Link.ReadControlFields | trunk/ground/esc32Cal.cc:158-163 | reads the fields at the stream position, storing paramId when count > 3 before any check byte is read |
| Esc32Cal.Link.ReadCheckBytes | trunk/ground/esc32Cal.cc:165-169 | accepts exactly when both bytes match; a bad A byte is the last byte read |
| Esc32Cal.Link.ReadControl | trunk/ground/esc32Cal.cc:157-191 | the reader's status after a control frame is `Retry.Apply` of the reply in the stream; the check covers the fields only |
| Esc32Cal.Link.ReadSample | trunk/ground/esc32Cal.cc:198 | cell (i, j) of `telemData` takes the sample at i·cols+j, the check continues over its four bytes; other cells unchanged |
| Esc32Cal.Link.ReadRow | trunk/ground/esc32Cal.cc:197-198 | row i of `telemData` takes the row's decoded samples, the check continues over the row; other cells unchanged |
| Esc32Cal.Link.ReadSamples | trunk/ground/esc32Cal.cc:196-198 | the first rows×cols cells of `telemData` take the decoded samples; other cells unchanged |
| Esc32Cal.Link.UpdateAverages | trunk/ground/esc32Cal.cc:206-209 | each of the first cols averages moves 1% towards each new sample of its column, row by row; the rest unchanged |
| Esc32Cal.Link.UpdateMaxima | trunk/ground/esc32Cal.cc:211-215 | each of the first cols maxima becomes the running maximum over its column; the rest unchanged |
| Esc32Cal.Link.StoreRows | trunk/ground/esc32Cal.cc:217-222 | row i of column j lands at slot MAX_TELEM_STORAGE·j + old count + i, the count grows by rows, nothing else changes |
| Esc32Cal.Link.Snapshot | trunk/ground/esc32Cal.cc:51-55 | the telemetry globals have their declared sizes |
| Esc32Cal.Link.ReadTelemetryFrame | trunk/ground/esc32Cal.cc:193-198 | reads rows, cols and the samples into `telemData`, continuing the check |
| Esc32Cal.Link.RecordTelemetry | trunk/ground/esc32Cal.cc:206-222 | an accepted frame updates averages, maxima and the log from its decoded samples |
| Esc32Cal.Link.ReadTelemetry | trunk/ground/esc32Cal.cc:192-222 | accepted exactly when both check bytes match; a rejected frame leaves averages, maxima, log and count unchanged; an accepted one updates them as stated |
| Esc32Cal.Link.ReadTelemetryTail | trunk/ground/esc32Cal.cc:193-222 | the same, from the frame's rows byte on, given the telemetry state before the frame |
| Esc32Cal.Link.ReadControlFrame | trunk/ground/esc32Cal.cc:157-236 | after 'C': the control verdict, then the telemetry branch only for an accepted frame whose command byte is 'T', continuing its check |
| Esc32Cal.Link.ReadFrame | trunk/ground/esc32Cal.cc:154-236 | the type byte resets the check and selects the control or the telemetry branch; any other type changes nothing else |
| Esc32Cal.Link.ReadControlBranch | trunk/ground/esc32Cal.cc:157-191 | after a 'C' type byte, the pass does what `ReadFrame` states for 'C' |
| Esc32Cal.Link.ReadTelemetryBranch | trunk/ground/esc32Cal.cc:192-223 | after a 'T' type byte, the pass does what `ReadFrame` states for 'T', leaving the sender's status alone |
| Esc32Cal.Link.ReadOnce | trunk/ground/esc32Cal.cc:143-237 | each pass consumes at least one byte; a frame starts only at 'A' directly followed by 'q'; a non-'q' after 'A' is consumed, so "AAq" is not synchronised on its second 'A'; after "Aq" the frame is handled as `ReadFrame` states |
| Esc32Cal.Link.HandleReply | trunk/ground/esc32Cal.cc:157-190 | the reader's effect of one reply on the status is `Retry.Apply` |
| Esc32Cal.Link.Wait | trunk/ground/esc32Cal.cc:340-344 | the poll loop computes `Retry.Poll` |
| Esc32Cal.Link.CommandAttempt | trunk/ground/esc32Cal.cc:337-346 | one attempt sends one frame with the next id, polls, and takes one `Retry.Run` step |
| Esc32Cal.Link.SendReliably | trunk/ground/esc32Cal.cc:331-353 | returns `ReliableResult` of `Retry.Run`; the frames sent are that many attempts with consecutive ids; `commandSeqId` advances by the number of attempts; with `Retry.RunStopsAtFirstAnswer` it stops at the first answered attempt |
| Esc32Cal.Link.SendParamIdAttempt | trunk/ground/esc32Cal.cc:362-377 | takes the id of attempt j, advances `commandSeqId` to the next, and sends one more request with that id and the 16 name bytes |
| Esc32Cal.Link.ParamIdAttempt | trunk/ground/esc32Cal.cc:361-385 | one attempt sends one parameter-id request with the next id, polls, and takes one `Retry.Run` step |
| Esc32Cal.Link.GetParamId | trunk/ground/esc32Cal.cc:355-394 | as written: returns the answered `paramId`, or -1 after five unanswered attempts; each request carries the first 16 bytes at `name` |
| Esc32Cal.Link.SetParamByName | trunk/ground/esc32Cal.cc:396-406 | a failed lookup gives -1 and sends no SET; otherwise SET with the id and the value is sent reliably and its result returned; the name goes out as its 16-byte field |
| Esc32Cal.MaxCurrentLiteralTooShort | trunk/ground/esc32Cal.cc:726 | the literal "MAX_CURRENT" occupies 12 bytes, fewer than the 16 read from it |
| Esc32Cal.MaxCurrentFieldResolves | trunk/ground/esc32Cal.cc:726 | sent as its NUL-padded field, "MAX_CURRENT" is resolved by the firmware to parameter 20, the header's MAX_CURRENT |
| Calibration.RecordRow | trunk/ground/esc32Cal.cc:496-498 | row j of `data` takes the three averages; other rows unchanged |
| Calibration.RpmToVoltage | trunk/ground/esc32Cal.cc:493-505 | duties 4, 6, … in order, at most 49 rows of the 100; every duty but the last stayed within the limit; the last went over or is 100; each row holds its duty's averages, the overcurrent row included |
| Calibration.InnerStepsInRange | trunk/ground/esc32Cal.cc:627-634 | every step of the inner loop starts at i and ends at a multiple of 5 in i+5..100 |
| Calibration.OuterStepsInRange | trunk/ground/esc32Cal.cc:623-640 | every `stepUp(i, j)` has 10 <= i < j <= 100, both multiples of 5 |
| Calibration.OuterStopsOnFirstStep | trunk/ground/esc32Cal.cc:637-639 | the outer loop goes past i exactly when the first step from i stayed within the limit |
| Calibration.StepUpFrom | trunk/ground/esc32Cal.cc:627-634 | the inner loop makes the steps `InnerSteps` lists and ends at its first step with an overcurrent exactly when that step went over |
| Calibration.CurrentLimiter | trunk/ground/esc32Cal.cc:623-640 | the nested loops make exactly the steps `OuterSteps` lists |
| Config.ParameterString | tags/1.4.1/onboard/config.c:32-65 | the 32 names, each at least 5 characters |
| Config.Lower | tags/1.4.1/onboard/config.c:258 | `tolower` maps A..Z to a..z and keeps every other character |
| Config.MatchesItself | tags/1.4.1/onboard/config.c:258 | every name prefixes itself |
| Config.GetIdFrom | tags/1.4.1/onboard/config.c:257-261 | the first matching index at or after i, or -1, and then no index from i on matches |
| Config.GetId | tags/1.4.1/onboard/config.c:254-262 | the smallest index whose name is a case-insensitive prefix of `param`, -1 exactly when there is none |
| Config.AtMostOneMatch | tags/1.4.1/onboard/config.c:32-65 | at most one table name prefixes any query |
| Config.PrefixFree | tags/1.4.1/onboard/config.c:32-65 | no table name is a case-insensitive prefix of another |
| Config.GetIdUnique | tags/1.4.1/onboard/config.c:254-262 | any matching index is the one returned |
| Config.RecognisedQuery | tags/1.4.1/onboard/config.c:32-65 | any string that starts with table name i, in either case, is told apart as entry i by its leading characters |
| Config.GetIdOfName | tags/1.4.1/onboard/config.c:254-262 | looking up an exact table name returns its own index |
| Config.HeaderOrder | ground/esc32.h:63-95 | ids 0..31 of the header name the table's entries in order, and looking them up returns the id |
| Config.MaxCurrentIs20 | tags/1.4.1/onboard/config.c:53 | MAX_CURRENT is 20 in both the table and the header |
| Config.InitDecisionCases | tags/1.4.1/onboard/config.c:209-214 | flash is read iff the stored version is a number at least the default, otherwise written when the default is a number |
| Config.ProgrammedFrom | tags/1.4.1/onboard/config.c:331-336 | the words programmed are those before the first failure |
| Config.Offsets | tags/1.4.1/onboard/config.c:331-335 | the offsets are 0, 4, 8, … |
| Config.FlashAfterWrite | tags/1.4.1/onboard/config.c:329-336 | after an erase and w programmed words, the page holds the first w words of `p` and erased words after |
| Config.FlashAfterWriteStep | tags/1.4.1/onboard/config.c:332 | programming word w writes exactly that word |
| Config.Store.constructor | tags/1.4.1/onboard/config.c:30 | `p` and the flash page hold 32 words |
| Config.Store.GetParam | tags/1.4.1/onboard/config.c:264-273 | the value of the parameter whose name prefixes `param`, NaN when none does |
| Config.Store.SetParamByID | tags/1.4.1/onboard/config.c:226-237 | for 0 <= i < 32 sets `p[i]` alone and returns 1; otherwise returns 0 and `p` is unchanged |
| Config.Store.SetMatched | tags/1.4.1/onboard/config.c:244-247 | once entry i matches, i is the id `configGetId` returns, exactly `p[i]` changes, and `GetParam` then gives the value |
| Config.Store.SetParam | tags/1.4.1/onboard/config.c:239-252 | returns 1 iff `GetId(param)` >= 0, and then updates exactly that entry, so `GetParam` returns the value; else `p` is unchanged |
| Config.Store.LoadDefault | tags/1.4.1/onboard/config.c:275-310 | `p` equals the defaults |
| Config.Store.ReadFlash | tags/1.4.1/onboard/config.c:355-359 | `p` equals the flash page word for word |
| Config.Store.WriteFlash | tags/1.4.1/onboard/config.c:312-353 | returns 1 exactly when the erase succeeded; words are programmed at offsets 0, 4, … below `sizeof(p)` in order and stop at the first failure |
| Config.Store.ProgramWords | tags/1.4.1/onboard/config.c:330-336 | on an erased page, programs `p` word by word at offsets 0, 4, … and stops after the first failed word, leaving the page as `FlashAfterWrite` of the words programmed |
| Config.Store.ErasePage | tags/1.4.1/onboard/config.c:329 | every flash word reads erased |
| Config.Store.Init | tags/1.4.1/onboard/config.c:202-215 | defaults first, then the action is `InitDecision` of the stored and default versions: reading flash copies it into the parameters; writing flash leaves the defaults in the parameters, programs them up to the first word that fails after a good erase, and leaves flash as it was after a failed erase; keeping the defaults (a number stored while the default is NaN, where neither comparison holds) changes no flash |

## Left out

- Serial port setup, threads and the race between them are not modelled. The reader's effect on the sender is one reply per poll, given as an argument, and the unused mutex is left out.
- Every `sleep`/`usleep` is left out, including the settle time computed from the duty. A poll is one step.
- Float numerics are left out. Received floats become reals through an uninterpreted `decode`, and sent floats are four opaque bytes. The running average is computed over reals with no rounding and no NaN.
- The normal-equation sums, the square roots and the Eigen matrix inversion in `rpmToVoltage` and `currentLimiter` are left out. So are the graphs, the command-line options, the signal handler and the telemetry text output of the reader (trunk/ground/esc32Cal.cc:224-235).
- The firmware's start-up (`main.c`) and clock set-up (`rcc.c`) are not part of this model.
- Config.Store.RecalcConst: a no-op with no contract. The adc, fet, run, pwm and serial state it updates is not part of this model.
- The `DEFAULT_*` values come from a header that is not part of this model. They are an argument of `Config.Store.constructor`.
- The watchdog, clock and lock/unlock sequence around the flash write is left out. The flash status is given as arguments.
- Config.Store.WriteFlash: a failed erase or a failed word program is modelled as leaving the affected words as they were.
- Esc32Cal.Link.ReadOnce: the reader's endless loop is modelled one pass at a time; the loop itself never returns.
- Esc32Cal.Link.ReadOnce: the reader stores telemetry with no bounds checks. Its precondition asks what the code assumes: at most 16 columns for `telemData`; for an accepted frame at most 3 columns and room for the rows in the 3 × 200000 log (`FrameFits`, `TelemetryFits`).
- Esc32Cal.ReplyAt: a control frame without a parameter id is given parameter id 0 as a reply. `Retry.Apply` never reads it for such a frame.
- Esc32Cal.Link.GetParamId: as written it reads 16 bytes at `name`, so the model requires 16 bytes to be there (see Findings).
- Calibration.RpmToVoltage: only the sweep loop is modelled, with each DUTY command recorded as the duty value it carries. The START, TELEM_RATE and STOP commands around the loop are left out.
- Calibration.RpmToVoltage: the overcurrent comparison `telemValueMaxs[2] > maxAmps` and the averages are arguments, because they depend on the device.
- Calibration.CurrentLimiter: each `stepUp(i, j)` is recorded as the pair (i, j), not as its four commands.
- Calibration.CurrentLimiter: the overcurrent reading after each step is an argument.

## Findings

| source | as written | input that shows it | evidently intended | confidence | as-written member | corrected member |
|---|---|---|---|---|---|---|
| trunk/ground/esc32Cal.cc:372-373 | `esc32GetParamId` always sends 16 bytes read from `name`, whatever the length of the string | `esc32SetParamByName("MAX_CURRENT", 0.0)` at trunk/ground/esc32Cal.cc:726: the literal occupies 12 bytes, so the loop reads 4 bytes past its end | send the name as a 16-byte field: its bytes, then NUL padding | not executed | Esc32Cal.MaxCurrentLiteralTooShort | Esc32Cal.MaxCurrentFieldResolves |

- **The as-written half.** `Esc32Cal.Link.GetParamId` models the code as written, so it requires 16 readable bytes at `name`. `Esc32Cal.MaxCurrentLiteralTooShort` shows that the only name the tool passes (trunk/ground/esc32Cal.cc:726) is shorter than that.
- **The corrected half.** `Esc32Cal.Link.SetParamByName` sends `Frames.NameField(name)`.
  - `Frames.NameFieldText` proves that the firmware, reading the field as a C string, gets the name back.
  - `Esc32Cal.MaxCurrentFieldResolves` proves that for "MAX_CURRENT" this name resolves to parameter 20, which is MAX_CURRENT in the ground header as well.
