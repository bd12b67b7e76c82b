# A verified model of sio's transfers and port sharing

`sio` talks to devices over a serial port. This project models, in Dafny 4.11, the
parts of it where something can go wrong between two ends or between two threads, and
proves what they promise. `dafny verify dfyconfig.toml` checks all of it.

**The ZMODEM engine** follows Forsberg's *The ZMODEM Inter Application File Transfer
Protocol* (1988): link escape encoding (section 7.2), headers (7.3), data subpackets
(7.4), file transmission (8.2), session abort (8.4), full streaming with a sliding
window (9.3).

| files | what they hold |
|---|---|
| `Crc.dfy`, `CrcDivision.dfy`, `Proto.dfy`, `Unescape.dfy`, `Wire.dfy` | checksum, and that it is polynomial division; escaper, header and subpacket printers, the two unescapers; ordinary bytes written out |
| `Scan.dfy`, `Splits.dfy`, `Resync.dfy`, `Fakes.dfy` | the incremental header scanner: any split into reads, any cut of the stream, and exactly when data passes for a header |
| `Subpackets.dfy`, `Damage.dfy`, `Cancels.dfy`, `Link.dfy` | the subpacket reader, what is refused, what ends the session, and the link object as a queue of the stream's events |
| `Sender.dfy`, `SenderSafety.dfy`, `SenderRuns.dfy`, `SenderEnds.dfy`, `SenderRules.dfy`, `SenderLoop.dfy` | the sender as a machine, its invariant, its theorems, its termination, what every event leads to, and the program that follows it |
| `Receiver.dfy`, `ReceiverRuns.dfy`, `ReceiverLoop.dfy` | the receiver as a machine, with its ZRPOS bounds, what every input leads to, and the program that follows it |
| `Transfer.dfy`, `TransferRuns.dfy`, `TransferTrust.dfy`, `TransferLive.dfy`, `TransferRecovery.dfy` | the two with a faulty line between them: safety in every run, when a sender's success can be believed, completion of every run on a clean line and on one that damages subpackets |
| `Resume.dfy`, `ResumePolicy.dfy` | what happens on disk over any number of cut sessions, and which files change |

**The session server** lends its port out and takes claims (`Lease.dfy`,
`LeaseSafety.dfy`, `LeaseTruth.dfy`, `LeaseRuns.dfy`, `LeaseEnd.dfy`, `LeaseProgram.dfy`), recognises
requests (`Requests.dfy`) and caches output (`TimedChunks.dfy`). **The shell** finds
transfers in what a device prints (`Detector.dfy`) and edits lines (`LineEditor.dfy`,
`Editing.dfy`, `EditorRules.dfy`, `ShellInput.dfy`).

Loops and objects that change in place are methods and classes proved against
functions; the theorems are about those functions and about whole runs of them. Time is
never a number: a wait either ends with something or runs out, whenever it likes.

## Faults of the line

Between sender and receiver, headers may be lost or damaged in both directions. Damage
inside a frame shows at the receiver as a subpacket error and may swallow any run of
what follows. A whole subpacket does not vanish unnoticed inside a frame (subpackets
carry no offset, so no receiver could notice), and what passes its CRC is what was sent;
what the CRC-16 itself catches is proved in `Crc.dfy` and `Damage.dfy`. Files are shorter than 2^32 bytes,
as positions are cast to 32 bits.

## Where the code does less than one would like

Each is a lemma with the input that shows it, beside the theorem that says exactly when
it happens.

- The acknowledged offset can pass the position: by a ZRPOS beyond it
  (`AckedCanPassPos`), by one before what is acknowledged (`PosCanFallBehind`), or by the
  wait's own echo rewind (`EchoCanGoBack`). It stays behind in exactly the runs in which
  none of the three overstep (`BehindExactly`, `AlwaysBehindExactly`).
- A ZCRC or ZCHALLENGE during data is answered inside the open frame
  (`ZcrcInterruptsAFrame`), and nothing else goes out there
  (`IntrusionsAreInterruptions`); the receiver of this repository sends neither there
  (`FramesUninterrupted`).
- With every control character escaped, data can look like a header to a scanner that
  joins in the middle (`EscapedControlFakesAHeader`): exactly if a pad goes out right
  before 0x01 to 0x03 (`FakedExactly`, `PlainIsSafe`).
- A ZRINIT left over from before the file is taken for the answer to ZEOF
  (`StaleRinitFoolsSender`): exactly if all that is left to send fits into what may go out
  unanswered (`FooledExactly`).
- When the sender cannot read its file it ends it early, and the receiver, which does not
  compare the length with the offer, takes it for whole (`FailedReadLooksWhole`); it is
  whole exactly if the sender did not cut it there (`CompleteIsWhole`).
- The append option, honoured when no local policy is set, adds a second copy to a file
  already received (`AppendAdds`); otherwise a completed file is the source
  (`CompletedIsSource`).
- The ZACK that answers a ZSINIT names position 1 (`SinitAckIsNoPosition`); every other
  names a position reached (`RepliesHonest`, `StepSays`).
- After a release that timed out, the next one answers OK with the port open
  (`SecondReleaseLies`), a claim can be granted while the port is still to be closed
  (`ClosedUnderAClaim`), and an acquire leaves the old handle open for good
  (`OldHandleIsLost`). If the old handle is closed only after the port was reopened, the
  close finishes the new idle channel, so that a later release, which does not time out,
  answers OK too early (`LateCloseFoolsNextRelease`). Exactly when there is such a doubt,
  and when the marker is wrong: `ReleasedIsFree`, `MarkerAgrees`, `ReleaseAgainstClaim`.
- Digits with a high bit make header detection depend on how reads split
  (`HighBitDependsOnSplit`), and nothing else does (`FoundInEverySplit`).
- An escape sequence pending when a transfer ends goes to a port that is lent out
  (`LapseIsHeard`), and nothing else does (`SendsExactly`, `LentOutIsSilent`).

## Model

| member | source | states |
|---|---|---|
| Crc.XModem | internal/serialcmd/zmodem_proto.go:137-143 | the byte-wise loop computes the CRC-16 of the whole message |
| Crc.UpdateLoop | internal/serialcmd/zmodem_proto.go:145-155 | eight conditional shift-and-xor rounds of the loop are one linear update of the register |
| CrcDivision.ChecksumIsRemainder | internal/serialcmd/zmodem_proto.go:137-155 | the checksum of any message is the remainder, by long division on bits, of the message times x^16 by x^16 + x^12 + x^5 + 1 |
| Crc.ExtendConcat | internal/serialcmd/zmodem_proto.go:137-155 | the checksum of a message continues from the checksum of any first part of it |
| Crc.ExtendInjective | internal/serialcmd/zmodem_proto.go:137-155 | equal data keep two different registers apart: a difference, once there, is only lost to later differences |
| Crc.SelfCheck | internal/serialcmd/zmodem_proto.go:137-155 | a message followed by two bytes has checksum 0 if and only if the two bytes are its checksum, for every length |
| Crc.BurstDetected | internal/serialcmd/zmodem_proto.go:137-155 | two messages of equal length that differ only within two adjacent bytes have different checksums, for every length and place |
| Proto.Escaper.PutAll | internal/serialcmd/zmodem_proto.go:195-211 | the stateful escaper writes the escaping of the data after the last byte it remembers, and remembers the new last byte |
| Proto.Escaper.EncodeBinHeader | internal/serialcmd/zmodem_proto.go:213-232 | a binary header is escaped as if nothing had gone before, whatever the escaper remembered |
| Proto.Escaper.EncodeSubpacket | internal/serialcmd/zmodem_proto.go:234-251 | a subpacket carries the checksum of data and frame end, each part escaped after what went before it |
| Proto.EscapeConcat | internal/serialcmd/zmodem_proto.go:180-211 | escaping in pieces is escaping at once, if the last byte is carried over |
| Proto.EncodeHexHeader | internal/serialcmd/zmodem_proto.go:161-178 | the printed hex header is pads, digits of header and checksum, line end and, but for ZACK and ZFIN, XON |
| Proto.DecodeHexHeaderDigits | internal/serialcmd/zmodem_proto.go:267-286 | the digit loop accepts exactly fourteen digits that carry their own checksum |
| Proto.HexHeaderRoundTrip | internal/serialcmd/zmodem_proto.go:161-178 | every header that is printed in hex is read back the same |
| Proto.DamagedHexHeaderRefused | internal/serialcmd/zmodem_proto.go:267-286 | a hex header damaged within two adjacent decoded bytes is never accepted |
| Wire.ZrinitBytes | internal/serialcmd/zmodem_proto.go:161-178 | the ordinary ZRINIT header, byte for byte |
| Wire.ZfinBytes | internal/serialcmd/zmodem_proto.go:161-178 | ZFIN, which ends without the XON |
| Wire.ZdataBytes | internal/serialcmd/zmodem_proto.go:213-232 | a binary ZDATA with its CRC-16, byte for byte |
| Wire.PacketBytes | internal/serialcmd/zmodem_proto.go:234-251 | a subpacket with its frame end, CRC-16 and XON, byte for byte |
| Wire.EscapedExactly | internal/serialcmd/zmodem_proto.go:185-211 | exactly which bytes go out as pairs: flow control, DLE, ZDLE, CR after @, their high-bit forms, and with control escaping every control character |
| Wire.RuboutBytes | internal/serialcmd/zmodem_link.go:408-464 | both unescapers read the rubout pairs as 0x7f and 0xff |
| Wire.CancelBytes | internal/serialcmd/zmodem_link.go:408-464 | in both unescapers five CAN cancel and four are damage |
| Wire.FlowInSubpacket | internal/serialcmd/zmodem_proto.go:185-251 | no flow control byte is in a subpacket, whatever its data and checksum, but for the XON after one that waits |
| Wire.FlowInHexHeader | internal/serialcmd/zmodem_proto.go:161-178 | a hex header ends with XON, but for ZACK and ZFIN, and has no other |
| Wire.NoPadNoHeader | internal/serialcmd/zmodem_link.go:319-404 | a stream without a pad has no header, good or bad |
| Cancels.FiveCancel | internal/serialcmd/zmodem_link.go:319-404 | after noise five CAN end the session, whatever follows |
| Cancels.FewDoNot | internal/serialcmd/zmodem_link.go:319-404 | fewer are noise themselves |
| Cancels.FiveInHeader | internal/serialcmd/zmodem_link.go:408-464 | a binary header that breaks off in five CAN is no damaged header but the end of the session |
| Cancels.BadPairInHeader | internal/serialcmd/zmodem_link.go:408-464 | a frame end or an impossible pair makes a binary header a damaged one |
| Damage.HexTakenExactly | internal/serialcmd/zmodem_proto.go:267-286 | a hex header is taken if and only if its digits are those of a header and its checksum |
| Damage.CaseDoesNotMatter | internal/serialcmd/zmodem_proto.go:253-286 | digits may be upper case, any of them |
| Damage.BinTakenExactly | internal/serialcmd/zmodem_link.go:376-398 | a binary header is taken if and only if the values read are a header and its checksum |
| Damage.DamagedBinHeaderRefused | internal/serialcmd/zmodem_link.go:376-398 | a binary header damaged within two adjacent values is reported as damaged |
| Damage.PairsExactly | internal/serialcmd/zmodem_link.go:533-581 | what ZDLE and each other byte stand for in a subpacket |
| Damage.FewCansAreDamage | internal/serialcmd/zmodem_link.go:550-566 | two to four CAN and then anything else are damage |
| Damage.SubTakenExactly | internal/serialcmd/zmodem_link.go:585-629 | a subpacket is taken if and only if it is not too long and carries the checksum of its data and frame end |
| Damage.DataBreaksOff | internal/serialcmd/zmodem_link.go:585-600 | how reading ends where the data breaks off: a byte too many, five CAN, an impossible pair |
| Damage.CheckBreaksOff | internal/serialcmd/zmodem_link.go:601-627 | and where the checksum does, or is a wrong one |
| Damage.DamagedSubpacketRefused | internal/serialcmd/zmodem_link.go:585-629 | a subpacket damaged within two adjacent bytes of data, frame end and CRC-16 is refused |
| Unescape.UnescapeLoop | internal/serialcmd/zmodem_link.go:408-464 | the header unescaper: values and bytes consumed, or more needed, or malformed, or cancelled after five CAN |
| Unescape.UnescapersAgree | internal/serialcmd/zmodem_link.go:408-464 | whenever the header unescaper succeeds, the subpacket reader returns the same values and consumes the same bytes |
| Unescape.ValuesDecode | internal/serialcmd/zmodem_proto.go:180-211 | any data, escaped after any byte, decode to the data and leave exactly what follows, with raw XON and XOFF put in anywhere |
| Scan.ScanLoop | internal/serialcmd/zmodem_link.go:319-404 | the scanning loop finds the first header, damaged header or cancel sequence, or says from where more is needed |
| Scan.LookAt | internal/serialcmd/zmodem_link.go:319-404 | what one position of the buffer holds: something to skip, to wait for, a header, junk, or a cancel |
| Splits.ScanPrefix | internal/serialcmd/zmodem_link.go:319-404 | a scan of what has arrived is right about the whole stream, whatever is still to come |
| Splits.FedIsEvents | internal/serialcmd/zmodem_link.go:471-530 | every partition of a stream into reads yields the events of the stream, up to the first cancel |
| Splits.StrippedReads | internal/serialcmd/zmodem_link.go:182-196 | the same with XON and XOFF stripped from every read |
| Splits.ScanExhausts | internal/serialcmd/zmodem_link.go:319-404 | when a scan asks for more there is no event left in what it has |
| Resync.ResyncAnywhere | internal/serialcmd/zmodem_link.go:319-404 | cut any stream of encoded headers and subpackets in which nothing passes for a header at any byte: scanning the rest finds exactly the headers that still have a pad, with no damaged header and no cancel |
| Fakes.PlainIsSafe | internal/serialcmd/zmodem_proto.go:185-211 | unless all control characters are escaped, nothing ever does |
| Fakes.FakedExactly | internal/serialcmd/zmodem_proto.go:185-211 | if they are, something does if and only if a pad goes out right before 0x01 to 0x03, in a frame or from one to the next |
| Fakes.OpensIsTaken | internal/serialcmd/zmodem_link.go:319-404 | where something does, a scanner that joins there takes what follows for a header and judges it or waits for more |
| Fakes.EscapedControlFakesAHeader | internal/serialcmd/zmodem_proto.go:185-211 | and it can be taken for a good one |
| Subpackets.SubpacketRoundTrip | internal/serialcmd/zmodem_link.go:585-629 | for all data, frame ends, checksum modes and escaper states, decoding the encoding gives data and end back, with raw XON and XOFF put in anywhere |
| Link.ZLink.Write | internal/serialcmd/zmodem_link.go:138-154 | nothing is written once the peer has given up |
| Link.ZLink.FlowControl | internal/serialcmd/zmodem_link.go:182-196 | strips raw XON and XOFF; the last of them decides whether output is held |
| Link.LastFlowDecides | internal/serialcmd/zmodem_link.go:182-196 | XON and XOFF, with or without high bit: the last decides whether output is held |
| Link.ZLink.Take | internal/serialcmd/zmodem_link.go:156-196 | one more read arrives: no byte of the stream is lost or reordered |
| Link.ZLink.PollHeader | internal/serialcmd/zmodem_link.go:471-500 | without waiting: takes the next header of the stream past damaged ones, reports a cancel, or leaves the queue of events as it is |
| Link.SkipBadIs | internal/serialcmd/zmodem_link.go:471-500 | what is passed over are the damaged headers at the front, and nothing else |
| Link.ZLink.ReadHeader | internal/serialcmd/zmodem_link.go:503-530 | takes exactly the next event of the stream, however it is cut into reads, or times out with the queue unchanged |
| Link.ZLink.ReadByte | internal/serialcmd/zmodem_link.go:247-261 | one byte of what can arrive in time |
| Link.ZLink.Zdlread | internal/serialcmd/zmodem_link.go:533-581 | one value of a subpacket, read byte by byte, is the one the pure decoder gives |
| Link.ZLink.ReadSubpacket | internal/serialcmd/zmodem_link.go:585-629 | one subpacket out of what arrives in time; consumes exactly that subpacket |
| Sender.UseReceiverInit | internal/serialcmd/zmodem.go:830-850 | the window is the smaller of option and buffer, the block limit is clamped to 32..1024 and to the buffer |
| Sender.RunConcat | internal/serialcmd/zmodem.go:1128-1225 | a run continues from where an earlier one stopped |
| SenderLoop.Stream.RewindTo | internal/serialcmd/zmodem.go:1300-1320 | a rewind: data thrown away halves the block, an open frame is closed in any case |
| SenderLoop.Stream.HandleAsked | internal/serialcmd/zmodem.go:1234-1265 | a ZRPOS: counted, taken for an echo, or a restart |
| SenderLoop.Stream.HandleReverse | internal/serialcmd/zmodem.go:1228-1280 | one header from the receiver changes the variables as the machine says |
| SenderLoop.Stream.WaitXon | internal/serialcmd/zmodem.go:1325-1351 | the XOFF wait follows the machine to its end |
| SenderLoop.Stream.WaitAck | internal/serialcmd/zmodem.go:1355-1399 | the wait for an acknowledgement follows the machine to its end, pokes, echo rewind and deadline included |
| SenderLoop.Stream.WaitEof | internal/serialcmd/zmodem.go:1402-1425 | the ZEOF retries follow the machine to their end |
| SenderLoop.Stream.Turn | internal/serialcmd/zmodem.go:1147-1223 | one turn of the main loop: finish, wait, ZEOF, or the next block with its frame end |
| SenderLoop.Stream.StreamFile | internal/serialcmd/zmodem.go:1128-1225 | the whole program is where the machine is after every event it took, so the theorems on runs are about it |
| SenderSafety.HandleKeeps | internal/serialcmd/zmodem.go:1228-1280 | a header keeps the invariant, and what it may do to acknowledged offset, frame and position |
| SenderSafety.RestartKeeps | internal/serialcmd/zmodem.go:1259-1265 | a rewind settles everything before the new position and leaves no frame open |
| SenderSafety.ActKeeps | internal/serialcmd/zmodem.go:1147-1223 | a turn of the main loop keeps the invariant and acknowledges nothing |
| SenderSafety.AckTimeoutKeeps | internal/serialcmd/zmodem.go:1368-1388 | the rewind a wait makes itself, and its pokes, keep the invariant |
| SenderSafety.RunKeeps | internal/serialcmd/zmodem.go:1128-1425 | the invariant (bracketed frames, window and block arithmetic, checkpoint distance, what each wait knows) holds in every state of every run |
| SenderRuns.WindowRespected | internal/serialcmd/zmodem.go:1130-1216 | positions stay inside the file, blocks between 32 and the limit, and in full duplex pos - acked <= window - 1 + block limit |
| SenderRuns.AckedNeverShrinks | internal/serialcmd/zmodem.go:1228-1279 | what counts as acknowledged never shrinks |
| SenderRuns.AckedFrom | internal/serialcmd/zmodem.go:1230-1265 | and grows only to an offset that a ZACK or ZRPOS names |
| SenderRuns.BehindExactly | internal/serialcmd/zmodem.go:1234-1388 | from acked <= pos, one exchange keeps it if and only if it is no restart outside acked..pos and no echo rewind to before acked |
| SenderRuns.AlwaysBehindExactly | internal/serialcmd/zmodem.go:1128-1425 | acked <= pos holds throughout a run if and only if no exchange of it oversteps in that way |
| SenderRuns.AckedCanPassPos | internal/serialcmd/zmodem.go:1234-1265 | a ZRPOS beyond the position moves only acked |
| SenderRuns.PosCanFallBehind | internal/serialcmd/zmodem.go:1259-1320 | a ZRPOS before what is acknowledged moves only the position |
| SenderRuns.EchoCanGoBack | internal/serialcmd/zmodem.go:1368-1388 | the wait goes back by itself to the start of a frame of which a part is acknowledged |
| SenderRuns.NeverStuck | internal/serialcmd/zmodem.go:1161-1216 | a full-duplex sender that waits has a frame open with a checkpoint beyond everything acknowledged: it never deadlocks itself |
| SenderRuns.TakenFrom | internal/serialcmd/zmodem.go:1266-1271 | a file is counted as taken only on a ZRINIT that comes while the answer to ZEOF is awaited |
| SenderRuns.FramesBracketed | internal/serialcmd/zmodem.go:1131-1224 | ZDATA and ZEOF go out only between frames, and the subpackets of a frame are the file from where its ZDATA points, without a gap |
| SenderRuns.StaysWhole | internal/serialcmd/zmodem.go:1087-1100 | the file is cut short only by a read that fails |
| SenderRuns.SentGrows | internal/serialcmd/zmodem.go:1128-1425 | what was sent stays sent, and only ZCRC and ZCHALLENGE make it anything but data |
| SenderRuns.IntrusionsAreInterruptions | internal/serialcmd/zmodem.go:1272-1275 | headers of another kind inside a frame are exactly the answers to ZCRC and ZCHALLENGE handled while one was open |
| SenderRuns.ZcrcInterruptsAFrame | internal/serialcmd/zmodem.go:1272-1275 | and that happens |
| SenderEnds.SilenceSpends | internal/serialcmd/zmodem.go:1132-1425 | silence always uses up bytes to send, a pending echo, or a retry |
| SenderEnds.SenderAlwaysEnds | internal/serialcmd/zmodem.go:1132-1425 | every run ends, within a bound computed from the file size and the number of headers, flow changes and deadlines |
| SenderRules.PastIs | internal/serialcmd/zmodem.go:1128-1425 | the counters and flags are what the events amount to: how often an offset was asked for again, how long a wait has lasted, how long blocks may be, an XOFF, an echo, a refusal |
| SenderRules.SkipEnds | internal/serialcmd/zmodem.go:1266-1267 | after a ZSKIP nothing more goes out and at the next turn at the latest the sender has ended, skipped; with a cut file it has failed |
| SenderRules.EndsExactly | internal/serialcmd/zmodem.go:1128-1425 | each way of ending, success or failure, happens if and only if its cause does: ZFIN or ZABORT, the twenty-first repeat of one offset, four pokes without an answer, twenty ZEOF, a refusal, the answer to ZEOF |
| SenderRules.GoesExactly | internal/serialcmd/zmodem.go:1128-1425 | exactly what goes out on each event, told from the file, the window and the past |
| SenderRules.MovesExactly | internal/serialcmd/zmodem.go:1147-1425 | exactly how position and acknowledged offset move |
| SenderRules.WaitsExactly | internal/serialcmd/zmodem.go:1132-1425 | exactly when it waits for XON, for an acknowledgement, for the answer to ZEOF, and how it leaves |
| ReceiverLoop.Receiving.AskAgain | internal/serialcmd/zmodem.go:2120-2129 | a ZRPOS for the last good offset, or giving up after twenty |
| ReceiverLoop.Receiving.ReadFrame | internal/serialcmd/zmodem.go:2168-2204 | the loop over the subpackets of one frame follows the machine |
| ReceiverLoop.Receiving.ReceiveData | internal/serialcmd/zmodem.go:2109-2230 | the whole program is where the machine is after everything it took |
| Receiver.OutOnlyGrows | internal/serialcmd/zmodem.go:2183-2190 | nothing written is taken back, and the position is the start plus what was written |
| Receiver.CompleteOnlyAtEof | internal/serialcmd/zmodem.go:2205-2209 | it ends well only on a ZEOF for exactly its position |
| Receiver.RepliesHonest | internal/serialcmd/zmodem.go:2120-2203 | in every run every ZRPOS, and every ZACK but an answer to a ZSINIT, names a position reached, and they never go back |
| Receiver.StepSays | internal/serialcmd/zmodem.go:2155-2227 | an input is answered with one header at most, and with that ZACK exactly if it is a ZSINIT outside a frame |
| Receiver.SinitAckIsNoPosition | internal/serialcmd/zmodem.go:2223-2227 | the ZACK that answers a ZSINIT names position 1 |
| Receiver.NoStorm | internal/serialcmd/zmodem.go:2110-2222 | ZRPOS number at most 1 plus accepted ZDATA, header timeouts and answered repeated offers |
| Receiver.AsksBounded | internal/serialcmd/zmodem.go:2120-2192 | and at most 1 + 20 * (k + 1) for k subpackets that brought data |
| Receiver.SilenceEnds | internal/serialcmd/zmodem.go:2120-2149 | from any state twenty-one waits that run out end it |
| ReceiverRuns.ErrorsAnswered | internal/serialcmd/zmodem.go:2120-2218 | every error since the last data, counted from the inputs, is answered by one ZRPOS for the position reached and nothing else is; the twenty-first ends it instead |
| ReceiverRuns.AcknowledgedWhereAsked | internal/serialcmd/zmodem.go:2191-2203 | a ZACK goes out if and only if a subpacket whose data was stored asks for it, and names the position after it |
| ReceiverRuns.StoredWhatCame | internal/serialcmd/zmodem.go:2183-2190 | each input adds to what is written exactly the data of a subpacket inside a frame |
| ReceiverRuns.PlaceExactly | internal/serialcmd/zmodem.go:2137-2230 | each way of ending, and being inside a frame, happens if and only if its cause does |
| ReceiverRuns.OverForGood | internal/serialcmd/zmodem.go:2137-2230 | once it is over nothing changes any more |
| Transfer.TokenStep | internal/serialcmd/zmodem.go:1128-1225 | each token of the sender continues the stream of frames of those before it |
| Transfer.ArrivesKeeps | internal/serialcmd/zmodem.go:2155-2209 | a token that arrives keeps the joint invariant, in and outside a frame |
| Transfer.DamageKeeps | internal/serialcmd/zmodem.go:2170-2182 | damage that swallows any run of tokens keeps it |
| Transfer.SenderKeeps | internal/serialcmd/zmodem.go:1128-1425 | any move of the sender keeps it |
| Transfer.RunKeeps | internal/serialcmd/zmodem.go:1128-1425 | the joint invariant holds in every state of every transfer over the faulty line |
| TransferRuns.EndToEnd | internal/serialcmd/zmodem.go:2109-2230 | what the receiver has written is always src[start..rx], and the sender counts nothing as acknowledged that the receiver does not have |
| TransferRuns.CompleteIsWhole | internal/serialcmd/zmodem.go:2205-2209 | a receiver that ends well has the whole file if and only if the sender did not cut it where the receiver stands, and a sender that cut it does not call it a success |
| TransferRuns.ReadableIsWhole | internal/serialcmd/zmodem.go:1087-1100 | while the sender can read its file, a receiver that ends well has all of it |
| TransferRuns.FailedReadLooksWhole | internal/serialcmd/zmodem.go:1087-1100 | when reading fails the receiver takes the cut file for whole |
| TransferRuns.NeverBack | internal/serialcmd/zmodem.go:2183-2190 | the receiver's position and data never go back |
| TransferRuns.FramesUninterrupted | internal/serialcmd/zmodem.go:1272-1275 | against this receiver no header of another kind is ever sent inside a frame |
| TransferTrust.FinishedIsReceived | internal/serialcmd/zmodem.go:1266-1271 | with no ZRINIT left over from before, or in full duplex with more to send than a window and a block, a sender that ends well is right: the receiver has the file, or could not write it |
| TransferTrust.StaleRinitFoolsSender | internal/serialcmd/zmodem.go:1268-1271 | in every other case there is a run in which it is wrong |
| TransferTrust.FooledExactly | internal/serialcmd/zmodem.go:1128-1425 | so it can be wrong if and only if a ZRINIT is left over and the rest of the file fits into window - 1 + block, or the line is half duplex |
| TransferLive.FairStep | internal/serialcmd/zmodem.go:1131-1224 | on a line without faults every step brings the end nearer: a block sent while earlier ones and their answers are still on the line, a token or an answer that arrives, the main loop stopping at a full window |
| TransferLive.FairStepExists | internal/serialcmd/zmodem.go:1161-1216 | and until then there is one to take: a sender that waits is owed an answer that is on the line or asked for by a token that is |
| TransferLive.CleanLineCompletes | internal/serialcmd/zmodem.go:1128-1225 | so on such a line every run, whole or resumed, full or half duplex, in whatever order things happen and however far the sender streams ahead, ends within 5 steps for each byte and 4 more, and it stops if and only if the sender has ended well and the receiver has the whole file |
| TransferRecovery.HarmHurts | internal/serialcmd/zmodem.go:2170-2182 | damage inside a frame, swallowing any run of tokens, leaves a receiver that has asked for the data again and a line with nothing on it that it would take |
| TransferRecovery.LostAsk | internal/serialcmd/zmodem.go:1259-1320 | and the sender, once it reads that, starts over from there |
| TransferRecovery.DamagedLineCompletes | internal/serialcmd/zmodem.go:1128-1225 | so, with any number of damaged subpackets, as long as each time fewer than twenty errors have come since the last data, every run ends within a bound and stops if and only if the sender has ended well and the receiver has the whole file |
| Resume.RenamedPath | internal/serialcmd/zmodem.go:1827-1837 | the first numbered name that is free; the search ends |
| Resume.Folder.Choose | internal/serialcmd/zmodem.go:1857-1931 | what to do about an existing target, over all management options and local policies |
| Resume.Folder.CommitPart | internal/serialcmd/zmodem.go:2069-2091 | the partial file becomes the file, or its bytes go to the end of it |
| Resume.Folder.ReceiveFile | internal/serialcmd/zmodem.go:1934-2062 | one offer changes files and partial files as the specification says, however the session ends |
| Resume.ReceivedIsSource | internal/serialcmd/zmodem.go:1988-2021 | a kept prefix plus what the transfer brings is a prefix of the source, and all of it when complete |
| Resume.ResumeIsSound | internal/serialcmd/zmodem.go:1986-2061 | over any number of sessions cut anywhere, every file is the source or untouched, every partial file a prefix of it or untouched |
| Resume.TargetIsWhole | internal/serialcmd/zmodem.go:2045-2061 | a target that was not there is absent until it equals the source |
| Resume.WhenItAppends | internal/serialcmd/zmodem.go:1893-1894 | appending happens if and only if the sender asks for it, no local policy is set and the file exists |
| Resume.AppendAdds | internal/serialcmd/zmodem.go:2069-2091 | and then the source follows what was there |
| Resume.CompletedIsSource | internal/serialcmd/zmodem.go:2045-2061 | a completed session leaves the file equal to the source if and only if it did not append to one with bytes in it |
| Resume.CutKeepsPrefix | internal/serialcmd/zmodem.go:1990-2047 | a resumed session keeps at least what the partial file was worth, unless a write failed on a disk that is not full |
| ResumePolicy.ExistingChangesExactly | internal/serialcmd/zmodem.go:1857-1931 | an existing file changes if and only if policy, or without one the option, wants it replaced or added to, the data arrives whole and is committed, and differs; and what it becomes |
| ResumePolicy.KeptFilesStay | internal/serialcmd/zmodem.go:1914-1921 | under every policy but Overwrite its bytes stay |
| ResumePolicy.NewFileExactly | internal/serialcmd/zmodem.go:1868-1931 | a file appears if and only if it is wanted: the target if absent, or a second one under the first free number; whole |
| ResumePolicy.OthersStay | internal/serialcmd/zmodem.go:1857-2091 | no other file is touched |
| ResumePolicy.ResumesExactly | internal/serialcmd/zmodem.go:1988-2010 | when a transfer starts after a partial file: the offer resumes, the file is shorter, and the sender's CRC finds it a first part |
| ResumePolicy.CutLeavesPart | internal/serialcmd/zmodem.go:2019-2047 | a session that cannot finish leaves as much of the source as reached the disk, or nothing after a failed write with room left |
| ResumePolicy.FinishedPart | internal/serialcmd/zmodem.go:2049-2091 | a finished one leaves no partial file, or all of it if it could not be committed |
| LeaseProgram.LeaseObject.WaitPort | internal/serialcmd/portlease.go:86-110 | one turn of the read loop's wait, under the mutex |
| LeaseProgram.LeaseObject.RetirePort | internal/serialcmd/portlease.go:125-141 | a returned read takes the port back only if a release asked for that very port |
| LeaseProgram.LeaseObject.StartRelease | internal/serialcmd/portlease.go:159-173 | a release begins, is a no-op, or is refused |
| LeaseProgram.LeaseObject.TakePort | internal/serialcmd/portlease.go:203-216 | a reopened port and a new idle channel are installed, unless the session closed |
| LeaseProgram.LeaseObject.Close | internal/serialcmd/portlease.go:220-235 | shutdown hands out the handle to close once |
| LeaseProgram.ClaimObject.Take | internal/serialcmd/transfer_claim.go:32-40 | a claim is granted to one connection at a time |
| LeaseSafety.ClosedAtMostOnce | internal/serialcmd/portlease.go:86-235 | over every interleaving, timeouts and shutdown included, no handle is closed twice and none the lease still has is closed |
| LeaseSafety.WriteIsUndisturbed | internal/serialcmd/serial.go:998-1018 | while a chunk is written its handle is the lease's and the release path does not close it |
| LeaseTruth.ReleaseAgainstClaim | internal/serialcmd/serial.go:1062-1125 | the read loop closes the port only for a waiting release, while no other connection holds the claim, unless an earlier release gave up; and a claim is granted in the middle of a release exactly if one did and the port is still released or being closed |
| LeaseSafety.AtMostOneLateChunk | internal/serialcmd/serial.go:1033-1058 | after a claim is granted each other connection gets at most one more chunk to the port while it is held |
| LeaseRuns.OneLateChunkHappens | internal/serialcmd/serial.go:1033-1058 | and one does get through in some run |
| LeaseTruth.ReleasedIsFree | internal/serialcmd/portlease.go:159-216 | with no release waiting and the session open, a released port has no open handle if and only if no release is in doubt, or the read loop has closed it and has only to say so |
| LeaseTruth.FreeWithoutTimeouts | internal/serialcmd/portlease.go:159-216 | so it has none while no release has timed out, whatever else happens |
| LeaseTruth.MarkerAgrees | internal/cli/cli.go:3272-3286 | whenever writeMu is free the marker file says what the lease says if and only if no release has given up since the port was last opened |
| LeaseTruth.ReleaseIsAnswered | internal/serialcmd/portlease.go:86-157 | a waiting release is answered after at most four steps of the read loop |
| LeaseRuns.SecondReleaseLies | internal/serialcmd/portlease.go:159-182 | after a timeout the next release answers OK with the handle open and no marker |
| LeaseRuns.ClosedUnderAClaim | internal/serialcmd/portlease.go:86-157 | after a timeout a claim is granted, and then the port is closed under it |
| LeaseRuns.OldHandleIsLost | internal/serialcmd/portlease.go:203-216 | after a timeout an acquire puts a new port in place of one that nothing closes |
| LeaseRuns.LateCloseFoolsNextRelease | internal/serialcmd/portlease.go:143-157 | a late close finishes the wrong idle channel: a later release answers OK while the new handle is open |
| LeaseEnd.ReleaseAlone | internal/serialcmd/portlease.go:125-181 | a release with nothing in its way: the read returns, the handle is closed, the client is answered and the marker set |
| LeaseEnd.AcquireAlone | internal/serialcmd/portlease.go:186-216 | an acquire after it: a new handle is the port, the marker is gone, releases wait on a new channel |
| LeaseEnd.AcquireFails | internal/serialcmd/portlease.go:186-202 | an acquire whose opening fails leaves everything as it was |
| LeaseEnd.ReaderEndsByShutdown | internal/serialcmd/portlease.go:86-141 | while no read fails the read loop runs until shutdown |
| LeaseEnd.FailedRead | internal/serialcmd/portlease.go:125-140 | a read that fails ends it unless that was asked for |
| LeaseEnd.ShutdownEndsReader | internal/serialcmd/portlease.go:86-157 | after shutdown the read loop ends within three steps |
| LeaseEnd.ShutdownCloses | internal/serialcmd/portlease.go:220-235 | shutdown takes the handle and closes it |
| LeaseEnd.ShutdownIsFinal | internal/serialcmd/portlease.go:159-235 | nothing is released or opened afterwards, and a waiting release is answered |
| LeaseEnd.ShutdownFrees | internal/serialcmd/portlease.go:143-235 | when all threads have ended nothing is open but handles lost before |
| LeaseEnd.ClaimExactly | internal/serialcmd/transfer_claim.go:32-63 | the claim changes only by a grant to who asks while it is free and by being dropped, and chunks are let through only by its rule |
| Requests.SessionPrefixFree | internal/serialcmd/portlease.go:258-262 | no preamble of the session server begins another |
| Requests.ClassifiedOnce | internal/serialcmd/portlease.go:268-287 | a stream asks for one thing only |
| Requests.RequestsMean | internal/serialcmd/portlease.go:258-262 | each preamble asks for its own request, whatever follows |
| Requests.ReadRequest | internal/serialcmd/portlease.go:268-287 | however the bytes come in pieces, the request is the one the whole stream starts with and what is forwarded is the stream without it |
| Requests.SplitsAgree | internal/serialcmd/portlease.go:268-287 | two splits of one stream are classified the same way |
| Requests.ReadClaim | internal/serialcmd/transfer_claim.go:69-81 | the same for the form that knows the claim only |
| Requests.ReadLeaseAnswer | internal/serialcmd/portlease.go:338-371 | the sliding window finds what a plain search for the first token finds |
| Requests.AnswerRoundTrip | internal/serialcmd/portlease.go:290-300 | whatever serial output without a NUL comes first, the answer that arrives is the one that was given |
| Requests.AnswerTexts | internal/serialcmd/portlease.go:290-300 | the bytes of the answers |
| Requests.CutAnswer | internal/serialcmd/portlease.go:338-371 | an answer that breaks off is never taken for one, wherever it does |
| Detector.ZDetector.Feed | internal/serialcmd/zmodem_shell.go:82-116 | one piece of output: what to show, what to hold, and the type of a header found |
| Detector.ZDetector.Flush | internal/serialcmd/zmodem_shell.go:136-140 | an idle output shows what was held |
| Detector.Conserved | internal/serialcmd/zmodem_shell.go:82-140 | while nothing is found, shown and held bytes are together exactly what was printed, over any split and flushes |
| Detector.FoundIsThere | internal/serialcmd/zmodem_shell.go:82-116 | a type reported is that of a printed ZRQINIT or ZRINIT with a good checksum, and all before it was shown but for a command name |
| Detector.HeaderIsFound | internal/serialcmd/zmodem_shell.go:82-132 | with no flush in between, a stream with a complete ZRQINIT or ZRINIT, one pad or two, either case, has been reported, for every split, unless a digit before the last has its high bit set |
| Detector.FoundInEverySplit | internal/serialcmd/zmodem_shell.go:118-132 | a header is found in every split if and only if no digit before the last has its high bit set |
| Detector.EncodedIsFound | internal/serialcmd/zmodem_shell.go:82-132 | so every header as the printer writes it is found |
| Detector.HighBitDependsOnSplit | internal/serialcmd/zmodem_shell.go:118-132 | with a high bit on any other digit the same bytes are a header in one piece and none in two |
| Detector.CommandIsHidden | internal/serialcmd/zmodem_shell.go:100-116 | what comes before a header in one piece is shown but for the command name |
| Detector.HeldExactly | internal/serialcmd/zmodem_shell.go:82-132 | output is held from the first place where it may still become a header, and only there |
| TimedChunks.TimedCacheWriter.WriteChunk | internal/serialcmd/timed_chunks.go:68-94 | a chunk is appended and the index records exactly where it went |
| TimedChunks.ReadTimedChunks | internal/serialcmd/timed_chunks.go:127-165 | the chunks of a range join to it if and only if the index entries that touch it are in order and disjoint |
| TimedChunks.WrittenIsRead | internal/serialcmd/timed_chunks.go:68-165 | what was written through the index is read back chunk by chunk with its time, source and bytes |
| TimedChunks.ReadTimes | internal/serialcmd/timed_chunks.go:127-165 | every byte read of an ordered range has the time of the first entry that ends behind it, or else of the last |
| TimedChunks.LastLinesStart | internal/serialcmd/timed_chunks.go:267-282 | the start is after a newline with exactly that many newlines behind it, or there are no more lines |
| TimedChunks.NewlinesCount | internal/serialcmd/timed_chunks.go:267-282 | the lines counted are line ends, piece by piece |
| TimedChunks.SliceChunks | internal/serialcmd/timed_chunks.go:284-304 | cut chunks join to the slice of the joined bytes, each byte with the time of the chunk it came from |
| TimedChunks.LastLineChunks | internal/serialcmd/timed_chunks.go:198-208 | on chunks as on bytes: what is left is the tail that holds the last lines, with its times |
| LineEditor.RunValid | internal/cli/cli.go:1562-1738 | for every sequence of keys, timers, transfers and lease answers the cursor, the history place and the menu choice are in range |
| LineEditor.SendsExactly | internal/cli/cli.go:1562-1738 | while the port is lent out and no transfer runs, an event sends the device something if and only if a sequence is pending and its own timer fires or a control key breaks it off |
| LineEditor.LentOutIsSilent | internal/cli/cli.go:1562-1738 | after any history, nothing that can come next sends it anything if and only if no transfer has ended with a sequence pending that nothing has mended since |
| LineEditor.LapseIsHeard | internal/cli/cli.go:2186-2213 | one does, and the pending sequence goes out |
| LineEditor.TypedLineIsSent | internal/cli/cli.go:1660-1716 | typed text and Enter send exactly that text and a newline |
| ShellInput.InputState.Write | internal/cli/cli.go:1562-1738 | the loop over the bytes of one read follows the editor's steps, so the theorems on runs are about it |
| ShellInput.InputState.KeyTyped | internal/cli/cli.go:1576-1716 | one byte: raw, dropped, part of a sequence, or a key |
| ShellInput.InputState.HandleArrow | internal/cli/cli.go:2230-2262 | which keys move in the menu, the history and the line, and which sequences are not keys |
| ShellInput.InputState.EscapeFlush | internal/cli/cli.go:2186-2213 | a pending sequence goes out when its own timer fires, unless it only closes a menu |
| ShellInput.InputState.FinishLease | internal/cli/cli.go:1899-1918 | the released flag follows the worker's answer |
| LineEditor.EraseUndoes | internal/cli/cli.go:1672-1680 | backspace undoes a key anywhere in the line |
| LineEditor.SuggestionIsNewest | internal/cli/cli.go:2476-2491 | the suggestion is the newest entry that extends the line, if there is one |
| Editing.UpGoesBack | internal/cli/cli.go:2429-2439 | each press of Up shows the entry before, and stays at the oldest |
| Editing.DownGoesForward | internal/cli/cli.go:2441-2454 | each press of Down shows the entry after, and past the newest an empty line |
| Editing.ThereAndBack | internal/cli/cli.go:2230-2262 | from an idle editor k times Up and j times Down show the entry k - j from the newest, cursor at its end |
| Editing.NothingToShow | internal/cli/cli.go:2429-2454 | with no history Up and Down do nothing |
| Editing.LeftMoves | internal/cli/cli.go:2409-2417 | Left goes one place back in the line |
| Editing.RightMoves | internal/cli/cli.go:2250-2256 | Right goes one place forward, or at the end takes the suggestion |
| Editing.RightUndoesLeft | internal/cli/cli.go:2230-2262 | inside the line Right undoes Left |
| Editing.MenuCycles | internal/cli/cli.go:2235-2245 | in an open menu the forward keys go through all items and once around |
| Editing.BackUndoesForward | internal/cli/cli.go:2235-2245 | a backward key undoes a forward one |
| Editing.MenuKeys | internal/cli/cli.go:1656-1659 | Enter takes the chosen item and sends nothing, Tab goes to the next |
| EditorRules.PrintableGoesIn | internal/cli/cli.go:1709-1716 | a printable key goes in at the cursor and closes the menu |
| EditorRules.BackspaceTakesOut | internal/cli/cli.go:1672-1680 | backspace takes out the key before the cursor |
| EditorRules.EnterKeeps | internal/cli/cli.go:1660-1671 | Enter sends the line; the history keeps the five hundred newest that are neither blank nor a repeat |
| EditorRules.UnknownIsPassed | internal/cli/cli.go:1580-1594 | a sequence that is no key goes to the device whole, after the line so far |
| EditorRules.EscapedKeyIsPassed | internal/cli/cli.go:1580-1594 | and so does Escape with any other key |
| EditorRules.EscapeAlone | internal/cli/cli.go:2186-2213 | Escape alone goes out when its own timer fires, or closes the menu |
| EditorRules.EndedTimerIsVoid | internal/cli/cli.go:2186-2221 | the timer of a sequence that has ended does nothing, even to the next |
| EditorRules.ControlIsPassed | internal/cli/cli.go:1705-1708 | other control keys go out at once, after the line so far |
| EditorRules.RawIsPassed | internal/cli/cli.go:1562-1570 | with raw keys on every byte goes out and nothing else happens |
| EditorRules.ClosesExactly | internal/cli/cli.go:1635-1655 | the shell is left by a Ctrl+C soon after another, outside transfers, and by nothing else |
| EditorRules.InterruptIsSent | internal/cli/cli.go:1635-1704 | any other Ctrl+C goes to the device unless the port is lent out, and the line stays |
| EditorRules.LendingExactly | internal/cli/cli.go:1604-1634 | the port is lent from Ctrl+S until a taking back succeeds, one request at a time, and nothing else changes that |
| EditorRules.DroppedKeys | internal/cli/cli.go:1849-1857 | keys for a lent port change neither line nor output, and the hint is given once |
| EditorRules.TransferClears | internal/cli/cli.go:1742-1763 | a transfer ends completion, and after it the line starts empty |
| EditorRules.CandidatesExactly | internal/cli/cli.go:2393-2407 | the history offers every entry that goes on from the line, each once |
| EditorRules.OfferedExactly | internal/cli/cli.go:2376-2389 | after the device has answered all that it or the history knows to go on from the line is offered, each once |
| EditorRules.TabCompletes | internal/cli/cli.go:1681-1696 | Tab asks the device about a first word and the history about the rest; one item is taken, several make a menu |
| EditorRules.LateAnswerIsVoid | internal/cli/cli.go:1998-2017 | an answer to an earlier Tab does nothing |
| ShellInput.InputState.InsertKey | internal/cli/cli.go:1709-1716 | a key goes in at the cursor, in place |
| ShellInput.InputState.EraseKey | internal/cli/cli.go:1672-1680 | the key before the cursor goes out, in place |
| ShellInput.InputState.Up | internal/cli/cli.go:2429-2439 | the history, one entry up |
| ShellInput.InputState.Down | internal/cli/cli.go:2441-2454 | the history, one entry down, and past its end an empty line |
| ShellInput.InputState.Suggest | internal/cli/cli.go:2476-2491 | the search from the newest entry down |

## Left out

- Transfer.RunKeeps: does not cover data that is wrong but passes its CRC, nor a whole subpacket lost without trace inside a frame, because the protocol gives a receiver no way to notice either.
- TransferLive.CleanLineCompletes: speaks of lines without faults, where no wait runs out and no XOFF comes.
- TransferRecovery.DamagedLineCompletes: speaks of faults inside frames, and of answers that come after the echo time; a header lost between frames is asked for again only when a wait runs out, and after that it depends on the order of the waits of both ends which retry limit is reached first.
- Fakes.FakedExactly: says when a scanner takes data for a header, not when its events then differ: one that the end of the stream cuts short is waited for and yields nothing.
- SenderEnds.SenderAlwaysEnds: bounds the number of exchanges, not the time they take; an `Expired` event stands for the overall deadline of one wait.
- SenderRuns.WindowRespected: gives the in-flight bound for full duplex only, as the code has none in half duplex.
- Resume.ResumeIsSound: takes a CRC-32 match as equality of the bytes, a source that does not change and can be read, and an offer that carries the file's size.
- Resume.CutKeepsPrefix: speaks of sessions whose CRC request is answered, because without an answer the code starts over.
- LeaseTruth.ReleasedIsFree: for a session that is not shutting down, where the lease makes no promise; that no release is in doubt is a fact of the history, not a field of the program.
- LeaseTruth.ReleaseIsAnswered: says the read loop needs four steps, not that a blocked driver read returns.
- LeaseSafety.AtMostOneLateChunk: counts chunks as the connection handlers read them; a chunk is one call of the write path.
- Requests.AnswerRoundTrip: for serial output without a NUL before the answer and an answer within the 64 KiB limit; the flattening of error text to one line is not part of this model.
- Requests.ReadRequest: reads end with an error or end of stream; a connection that stays silent keeps the code waiting.
- TimedChunks.TimedCacheWriter.WriteChunk: local writes succeed whole.
- LineEditor.SendsExactly: the bytes one read of the keyboard produces are counted as sent at once; on a second quick Ctrl+C the code closes the pipe without the rest of them.
- Sender, receiver and lease machines are values stepped by events; the classes `Stream`, `Receiving`, `Folder`, `LeaseObject`, `ClaimObject`, `ZDetector`, `TimedCacheWriter` and `InputState` hold the fields that change in place. The threads of the session server are interleaved on values, so two handles to one lease object (aliasing) are not modelled.
- EditorRules.EnterKeeps: a line of spaces from outside ASCII counts as text here, and as blank in the code; the history file is not part of this model.
- The line editor's screen: prompts, menus as drawn, colours and timers' durations are not part of this model, nor is the goroutine that writes Ctrl+C straight to the pipe.
- CRC-32 is a library function: any function of the bytes stands for it.
- Session opening and closing (ZRQINIT, ZRINIT, ZSINIT, ZFILE offers, ZFIN, "OO"), batches of files, file name cleaning, progress reports.
- The attention string, the pauses in it, and the queue of repeated offers that is dropped before data.
- The hidden "rz" line before a header split across reads; keyboard hand-back after a transfer; the transfer panel.
- Serial, TCP and console input and output, virtual port drivers, registry and elevation: a port is a handle that is open or closed, a connection a sequence of reads.
- The share bridge's copy of the session server's loops, payload parsing, worker retry and session state, which would only add easy members.
