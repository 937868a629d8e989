# defib, verified

defib revives HiSilicon cameras over a serial line. A small agent runs on the device
and speaks a packet protocol with the host; the host also drives the boot ROM directly,
serves files over TFTP and repairs dumps. This project models the parts that move and
store bytes, and proves what they promise.

- **Framing** (`Bits`, `Differences`, `Crc32`, `Crc32Errors`, `Cobs`, `Framing`, `Deframer`, `SoftRing`): COBS, the
  CRC-32 packet and the errors its checksum catches, the host's two receive paths, the agent's receive ring.
- **Flash streaming** (`Nor`, `Stream*`): `write_flash` and `handle_flash_stream` as two step machines
  joined by a byte wire and a reply queue, over NOR cells where erasing sets 0xFF and programming is a bitwise
  AND. Timeouts, failed erases, lost and damaged bytes, framing errors, a full ring and lost replies are steps
  like any other, so the safety results hold for disturbed runs too; a run ends where the agent would write outside
  its buffers. Host and agent are given the same sector size unless a result says otherwise.
- **Memory access** (`Tiling`, `ReadMemory`, `WriteAgent`, `WriteLink`, `WriteBlocks`, `WriteMemory`,
  `WriteSwallowed`): READ over a channel that loses, repeats and reorders; windowed WRITE over one that loses and
  pauses, with an agent that can be caught in the middle of a block.
- **TFTP** (`TftpServer`, `TftpTimers`, `TftpTheorems`, `TftpEndToEnd`, `TftpCompletion`, `TftpRetries`): the server
  object, its timers and retransmissions, and the server against an RFC 1350 client (with the option acknowledgement of RFC 2347 and the block size
  of RFC 2348) over an adversarial network shared with other clients.
- **Flash drivers** (`Hisfc350`, `Nand`): as refinements of linear memory.
- **Boot ROM and recovery** (`BigEndian`, `Crc16`, `Crc16Table`, `V500Frames`, `V500Line`, `V500`, `Ubi`, `UbiImage`,
  `DumpRepair`).

Imperative code is modelled as methods over arrays and objects and proved against functions on values; the laws
are then proved about those functions. Bytes are integers from 0 to 255, and bitwise operations are defined by
recursion on halves, so that no proof needs bit-vectors.

Some promises turned out to hold only under a condition. Where the condition can be told beforehand the result is an
equivalence; the concrete failing input stands beside it.

- `page_is_ff` looks at whole words only, so an image whose last page ends in a partial word behind nothing but
  0xFF loses those bytes: `StreamOutcome.FlashHoldsImage` (equivalence), `StreamOutcome.LostTail` (a failing run).
- A TFTP block number above 65535 raises after it was counted, which leaves the transfer live and without a timer:
  `TftpTheorems.TimedExactlyWhenNumbered` and `TftpCompletion.CompletesIff` (equivalences),
  `TftpTheorems.TooLongStrands` (every such file, acknowledged block by block).
- HISFC350 banking has two banks, although `detect_size` accepts 64 MiB chips: from 32 MiB on, addresses fold back:
  `Hisfc350.AliasExact` (equivalence), `Hisfc350.FoldsBack` (an address).
- HISFC350 page programming sends 64 bytes a command and selects the bank once: a command that runs across a page end
  wraps, and data that runs across the bank end stays behind: `Hisfc350.StraightExact` (equivalence),
  `Hisfc350.MissesBankEnd` (an address).
- The agent decodes frames of up to 1056 bytes into 1040: `Cobs.FitsExactly` and `StreamLocal.BuffersApart`
  (equivalences), `StreamOverrun.OverrunReached` (a run), `StreamTheorems.NeverOverruns` (not without damage).
- `handle_read` ignores the result of `flash_read`: `ReadMemory.StallsDecide` (equivalence), `ReadMemory.StalledRead`
  (an input).
- The agent ignores commands while it receives a block, so a retry of `write_memory` can be swallowed:
  `WriteMemory.Write` with `WriteLink.IdleAfterReading` (equivalences, for one disturbed exchange),
  `WriteSwallowed.TwoLost` (an input).
- A V500 frame that is sent twice because of noise leaves an ACK behind, and nothing flushes it:
  `V500Line.UnreadDecides` (equivalence, over the unread bytes), `V500.SuccessWithoutDelivery` (a failing run for
  every image). `V500.FirmwareDelivered` states delivery under the condition, one way only.
- Host and agent must agree on the sector size, which the host guesses until it has asked:
  `StreamMismatch.SectorSizesMustAgree` (a failing run); all other streaming results are for equal sizes.
- An empty payload does not survive `append_crc` and `verify_crc`: `Crc16.AppendVerifies` (equivalence).

The comment above `handle_flash_stream` announces a final ACK_CRC_ERROR; the code never uses the expected CRC and
never sends it. The model follows the code: the image is vouched for by the packets' own CRC-32. The answer to the
eleventh and last transmission of a V500 frame is never read (`V500Line.FrameAcked`). A NAND page write of no bytes,
which no caller makes, would commit whatever the chip's cache last held (`Nand.EmptyWriteClears`).

## Model

| member | source | states |
|---|---|---|
| Cobs.RoundTrip | agent/cobs.c:8-51 | decoding the encoding of any byte string gives it back |
| Cobs.EncodeShape | agent/cobs.h:13-13 | no encoding contains a zero byte, and n bytes take at least n + 1 and at most n + n/254 + 1 |
| Cobs.EncodesByBlocks | src/defib/agent/cobs.py:13-41 | the format, as equations that give the encoding of every byte string: up to 253 non-zero bytes stand behind their number plus one and the zero after them is left out, 254 stand behind 255 |
| Cobs.EncodeInto | agent/cobs.c:8-31 | the C encoder, patching its code byte backwards in an array, computes the encoding within n + n/254 + 1 bytes of output |
| Cobs.DecodeInto | agent/cobs.c:33-51 | the C decoder puts the decoding in its array and returns its length, or 0 for malformed input; it needs room for Reach bytes, which malformed input has too, and changes nothing behind them |
| Cobs.ReachBound | agent/cobs.c:33-51 | the decoder writes fewer bytes than it reads, on every input, and exactly the decoded bytes of a well-formed one |
| Cobs.FitsExactly | agent/protocol.c:57-60 | a buffer of a given size holds whatever n bytes decode to if and only if n is at most one more |
| Cobs.EncodeGrowing | src/defib/agent/cobs.py:13-41 | the Python encoder, with placeholder bytes patched later, computes the same encoding |
| Cobs.DecodeGrowing | src/defib/agent/cobs.py:44-61 | the Python decoder computes the same decoding and raises exactly where the C decoder refuses |
| Crc32.Compose | agent/protocol.c:48-54 | checksumming b from the checksum of a is checksumming a + b |
| Crc32.Compute | agent/protocol.c:48-54 | the byte loop computes the checksum from any earlier one |
| Crc32.Fits | agent/protocol.c:48-54 | the checksum fits the four bytes it travels in |
| Crc32.Le32Order | agent/protocol.c:48-54 | little-endian words have their least significant byte first |
| Crc32Errors.CheckValue | agent/protocol.c:10-54 | the checksum of the digits 1 to 9 is 0xCBF43926, which fixes the polynomial, the bit order and the final complement |
| Crc32Errors.FoldDivides | agent/protocol.c:48-54 | the table loop over a message is the bitwise division of the message as one number, byte order included |
| Crc32Errors.FoldLinear | agent/protocol.c:48-54 | the register of a difference of two messages of equal length is the difference of their registers |
| Crc32Errors.DetectsBursts | agent/protocol.c:48-54 | two messages of equal length that differ only within four adjacent bytes have different checksums |
| Bits.AndBit | agent/main.c:855-862 | bit k of an AND, which is what programming does to a cell, is set exactly when it is set in both |
| Framing.ParseFrame | src/defib/agent/protocol.py:78-96 | parsing a built packet gives the packet back, for every command byte and payload |
| Framing.ParseSound | src/defib/agent/protocol.py:86-96 | whatever parses carries a matching CRC-32 over its command and data |
| Framing.OnWire | src/defib/agent/protocol.py:78-83 | a built packet has one zero, at its end; what stands before it decodes to command, data and the little-endian CRC-32 of both |
| Deframer.PacketsByStretch | src/defib/agent/protocol.py:119-187 | the packets of a byte stream are those of its stretches between zero bytes, each taken by itself and an over-long one less its whole pieces of 1101 bytes: damage in one stretch does not reach the next |
| Deframer.WireRoundTrip | src/defib/agent/protocol.py:78-187 | a concatenation of built packets of at most 1100 encoded bytes comes back as exactly those packets, in order |
| Deframer.Resynchronises | src/defib/agent/protocol.py:119-187 | after any garbage that ends in a delimiter the packets that follow are all delivered |
| Deframer.ScanSplit | src/defib/agent/protocol.py:119-187 | scanning in two pieces, carrying the partial frame over, is scanning in one |
| Deframer.Consume | src/defib/agent/protocol.py:119-187 | one chunk through the byte loop: the first packet in it, the partial frame, and the bytes stashed behind a delimiter |
| Deframer.Link.RecvSync | src/defib/agent/protocol.py:119-187 | returns the next packet of the remaining stream and leaves exactly the stream behind it, however it was cut into reads |
| Deframer.Link.RecvAsync | src/defib/agent/protocol.py:207-264 | the same for the async path with its leftover buffer |
| Deframer.ReceiveAll | src/defib/agent/protocol.py:119-264 | repeated receives return the packets of the whole stream, the same for every chunking and for both paths |
| SoftRing.Ring.Put | agent/protocol.c:68-81 | a byte is appended to the FIFO, or dropped exactly when the ring holds its size less one |
| SoftRing.Ring.Get | agent/protocol.c:83-91 | takes the oldest byte, or -1 from an empty ring |
| SoftRing.Ring.Drain | agent/protocol.c:68-81 | a burst is appended up to the free space: the ring is an unbounded FIFO as long as the burst fits |
| SoftRing.QueuePut | agent/protocol.c:62-81 | writing at head appends to the queue that head and tail stand for, also across the wrap |
| SoftRing.QueueGet | agent/protocol.c:83-91 | advancing tail removes its first byte, also across the wrap |
| Nor.PageIsFf | agent/main.c:841-846 | true exactly when every whole 32-bit word is 0xFFFFFFFF; bytes behind the last word are not looked at |
| Nor.EraseAndProgram | agent/main.c:850-864 | after an erase, the sector holds the page-wise stored data, then 0xFF, and no other cell changed; after a failed erase the sector holds whatever the erase left, nothing is programmed, and no other cell changed |
| Nor.ProgramPages | agent/main.c:855-862 | the page loop over an erased sector, with programming as bitwise AND and erased-looking pages skipped |
| Nor.StoredPagesExact | agent/main.c:841-864 | the stored bytes are the data if and only if the last page does not end in a partial word behind nothing but 0xFF words |
| StreamInvariant.BitmapExact | src/defib/agent/client.py:657-670 | bit s of the bitmap is set exactly when sector s holds a byte other than 0xFF, as both sides test it |
| StreamProgress.BuildBitmap | src/defib/agent/client.py:657-670 | the bitmap loop computes that bitmap |
| StreamInvariant.PacketOnWire | src/defib/agent/client.py:688-703 | each packet carries its place in the image counted in 512 bytes, in two bytes with the low one first, and the image's bytes from there on, 512 or up to the end |
| StreamTheorems.StepKeeps | agent/main.c:866-1012 | every step of host, agent and wire that loses and damages nothing keeps the joint invariant, for any ring, timeouts and failed erases included |
| StreamTheorems.ReachableInv | agent/main.c:866-1012 | the invariant holds in every state reached without loss or damage |
| StreamLossy.StepHolds | agent/protocol.c:117-180 | with a wire that loses and damages bytes, framing errors that drop a partial frame, a ring that drops bytes and replies that get lost, every step keeps what the agent has taken genuine and in order, unless a stretch that is not the bytes of a packet passes its CRC-32: a sector short of bytes can only time out, and the agent never passes a sector with data that the host has not sent |
| StreamOutcome.FlashWritten | agent/main.c:866-1012 | when the host reports success, over any wire, any ring and any loss of replies, the covered sectors are the stored image, then 0xFF, in the flash as it was otherwise, unless a damaged stretch passed its CRC-32 |
| StreamOutcome.FlashHoldsImage | src/defib/agent/client.py:631-736 | then the image is in flash byte for byte if and only if no tail is lost; the rest of the last sector is 0xFF and nothing outside changed |
| StreamOutcome.WordSizedImagesExact | src/defib/agent/client.py:631-736 | for image lengths that are a multiple of 4 success means the exact image |
| StreamOutcome.LostTail | agent/main.c:841-846 | a whole run: five bytes, four of 0xFF and a zero, are sent undisturbed, the host reports success, and the zero is not in flash |
| StreamOutcome.DoubleBuffer | agent/main.c:897-1009 | a pending sector sits complete in the buffer not being filled, at the right address, and exactly the sectors before it are final in flash: 128 KiB sectors and the 72 KiB ring included, for every run that no damaged stretch deceived |
| StreamOutcome.UndamagedUndeceived | agent/protocol.c:117-180 | a run that loses and damages nothing is one that no damaged stretch deceived |
| StreamOutcome.RingIsEnough | agent/protocol.c:62-91 | a ring that holds one sector of packets, on a wire that loses and damages nothing, gives such a run |
| StreamLocal.StepLocal | agent/main.c:897-1009 | every step whatever, loss, damage and dropped bytes included, keeps the agent's buffers apart, its addresses right and its writes inside the covered sectors |
| StreamLocal.OutsideNeverTouched | agent/main.c:897-1009 | in every reachable state, whatever arrived or was lost, no byte outside the covered sectors differs from before |
| StreamLocal.BuffersApart | agent/main.c:897-1009 | in every reachable state the pending sector is in the buffer that is not being filled, with its right length and address, and no step of receiving changes it; the agent can go on inside its buffers and the flash if and only if it neither waits for bytes nor is about to decode a frame that the decode buffer does not hold |
| StreamOverrun.OverrunsAreLong | agent/protocol.c:124-157 | only a stretch of more than 1041 bytes overruns the decode buffer |
| StreamOverrun.OverrunReached | agent/protocol.c:124-157 | a run to it: bytes that all arrive as 1 fill the 1056-byte frame buffer and decode to 1055 bytes |
| StreamTheorems.NeverOverruns | agent/protocol.c:117-157 | without loss and damage every frame is at most 522 bytes and never overruns |
| StreamTheorems.OneSectorInFlight | src/defib/agent/client.py:688-736 | at most one sector of packets, 523 wire bytes each, is ever in flight |
| StreamTheorems.RingNeverDrops | agent/protocol.c:62-91 | so a ring that holds one sector of packets drops no arriving byte in any run |
| StreamTheorems.NorSectorFits | agent/protocol.c:62-66 | 64 KiB sectors, at most 66944 wire bytes, fit the 72 KiB ring |
| StreamTheorems.NandSectorOverflows | agent/protocol.c:62-66 | a full 128 KiB sector of packets is longer than the ring |
| StreamMismatch.SectorSizesMustAgree | src/defib/agent/client.py:285-285 | with a host that still assumes 64 KiB sectors and an agent with 128 KiB sectors: 64 KiB of 0xFF and then any 64 KiB with data have a run that the host reports as a success and that leaves the flash erased |
| StreamProgress.NeverStuck | agent/main.c:916-1011 | unless the host has finished, some side can move: host and agent never both wait |
| StreamProgress.StepDrops | agent/main.c:916-1011 | every step, disturbed or not, lowers a bounded measure of the work left |
| StreamProgress.RunsAreFinite | src/defib/agent/client.py:688-736 | no run is longer than the measure of its first state, with any ring and whatever is lost |
| StreamProgress.UndisturbedRunsSucceed | src/defib/agent/client.py:688-736 | for every non-empty image that ends within the flash: a run without loss, damage, timeouts or erase failures that can go no further ended in True, with one start ACK, progress packets 1 to n of n in order and one final ACK, all read |
| StreamProgress.SuccessReachable | src/defib/agent/client.py:631-736 | every transfer of a non-empty image that ends within the flash has a run that ends in success, with any ring |
| StreamProgress.AcceptedExactly | agent/main.c:880-895 | with the host's bitmap, the agent accepts exactly the non-empty images that end within the flash |
| StreamOutcome.RefusedFails | agent/main.c:880-895 | for all others, in every run: no cell changes, the host never reports success, and a run that can go no further ended in False |
| ReadMemory.HandleRead | agent/main.c:210-298 | a rejected request gets one error status; otherwise numbered pieces of the region as the fetches show it, in order, then OK exactly when no eMMC block failed |
| ReadMemory.StreamRegion | agent/main.c:249-297 | the packet loop, with its 16-bit number, sends the pieces of the region; a flash fetch that stalls puts what it left in place of its piece |
| ReadMemory.ReadOnWire | agent/main.c:249-297 | packet i carries i modulo 65536, low byte first, and the bytes from 1022 * i on, 1022 or what is left, from eMMC 512; the last is a status |
| ReadMemory.ReadReplies | src/defib/agent/client.py:407-450 | the receive loop computes what Collect says of the replies |
| ReadMemory.CollectSound | src/defib/agent/client.py:407-450 | whatever subset of the packets arrives, repeated and reordered in any way, the host raises or has exactly the region, while at most 65536 packets make it up |
| ReadMemory.CollectComplete | src/defib/agent/client.py:407-450 | packets that all arrive in order give the region, of any length |
| ReadMemory.CapKeepsNumbersDistinct | agent/main.c:217-256 | within 32 MiB the packet numbers are distinct, at 1022 bytes a packet and at 512 |
| ReadMemory.CapNeeded | agent/main.c:217-217 | beyond 65536 packets a packet can pass for the one a full cycle later: right length, wrong bytes, no error |
| ReadMemory.Transfer | src/defib/agent/client.py:387-450 | a READ over a lossy, duplicating, reordering channel raises or returns what the fetches showed, which is the requested bytes when no flash fetch stalls |
| ReadMemory.StallsDecide | agent/main.c:279-286 | whatever a stalled fetch leaves behind, the region is shown right if and only if none of the region's fetches stalls |
| ReadMemory.StalledRead | agent/main.c:279-286 | one stalled fetch of erased flash: the host returns zeros as a success |
| ReadMemory.Undisturbed | src/defib/agent/client.py:387-450 | undisturbed, every READ of 1 byte to 32 MiB of readable blocks (from eMMC, of whole 512-byte blocks) returns what the fetches showed: without stalls the requested bytes, with stalls other bytes and no error |
| WriteAgent.CommandRoundTrip | agent/main.c:542-552 | the command's three little-endian words come back as sent |
| WriteAgent.CommandAnswered | agent/main.c:541-561 | what an idle agent answers to a write command: error 1 if it is cut short, OK and an open block exactly for 1 byte to 32 MiB that start and end in RAM, else error 2 |
| WriteAgent.Agent.HandleWrite | agent/main.c:539-597 | the handler refuses, or answers OK and goes on to receive |
| WriteAgent.Agent.Receive | agent/main.c:564-583 | the receive loop, resumed where it stood: it takes data, ignores other packets, commands included, and gives up when a wait runs out |
| WriteAgent.Agent.TakeData | agent/main.c:568-597 | data up to the size; with the last byte, OK exactly on a matching CRC-32 |
| WriteAgent.Agent.Listen | agent/main.c:1638-1697 | the command loop over whatever arrives, with a block left open when it is short of bytes |
| WriteAgent.OksBounded | agent/main.c:552-596 | at most two OKs for every write command that arrived and one for the block that was open, less one for a block left open |
| WriteAgent.ServeConfined | agent/main.c:560-576 | RAM changes only inside the regions of the open block and of the commands that arrived |
| WriteAgent.AllOkMeansHeld | agent/main.c:552-596 | when the OKs reach that bound, every such region has its CRC-32 at the end and no block is open |
| WriteLink.DeliverSub | src/defib/agent/client.py:493-515 | losing packets and pausing never adds a command; if as many arrive as were sent they are the ones sent |
| WriteLink.Session.Exchange | src/defib/agent/client.py:488-530 | packets go out, the agent works through what arrives from where it stood, and what the host hears of its replies joins the queue |
| WriteLink.Session.ReadAcks | src/defib/agent/client.py:517-535 | reads two ACKs for every block up to the first that is not OK, as ReadAll says |
| WriteLink.CommandsExchanged | src/defib/agent/client.py:488-530 | packets with a command in front, at an agent idle or not: at most two OKs a command sent, and with all of them every region's CRC-32 matches and no block is open |
| WriteLink.AcksRead | src/defib/agent/client.py:517-535 | all ACKs OK means two OKs for every block were there |
| WriteLink.IdleAfterReading | src/defib/agent/client.py:517-535 | no block is open when the host stops reading if and only if none was, or every reply was OK until they gave out and the host's wait outlasted the agent's: its 60 seconds behind a first ACK do, its 10 before one may |
| WriteBlocks.BlockPackets | src/defib/agent/client.py:495-515 | the packets of the block at an offset: its command with its CRC-32, then its bytes in numbered 512-byte pieces |
| WriteBlocks.BlockOnWire | src/defib/agent/client.py:495-515 | block k on the wire: command 3 with address, size and CRC-32 of the bytes from 16384 * k on, then those bytes in numbered packets of 512 |
| WriteBlocks.ReceiveStream | agent/main.c:563-597 | the rest of a block's packets fill the rest of its region and draw the verdict on it |
| WriteBlocks.ServeWindow | agent/main.c:552-596 | a window that arrives whole at an idle agent leaves its bytes in RAM, changes nothing else, is acknowledged with OKs only, and leaves the agent idle |
| WriteMemory.BlockTried | src/defib/agent/client.py:574-600 | True for a block means that its region has its CRC-32 and that the agent is idle; nothing outside the region changes; with nothing lost it is True if and only if no block was open before |
| WriteMemory.NoDataBeforeAck | src/defib/agent/client.py:574-584 | data follows only a command whose ACK was heard: while the host hears no answer to the command, whatever arrives at the agent, RAM stays as it was and the block has failed |
| WriteMemory.WriteBlock | src/defib/agent/client.py:574-600 | the command, its ACK, only then the data, and the second ACK, as TryBlock says |
| WriteMemory.WindowTried | src/defib/agent/client.py:488-535 | all ACKs OK means that every block of the window matches and that the agent is idle; RAM changes only in the window and in a block open before |
| WriteMemory.SendWindow | src/defib/agent/client.py:488-535 | the packets of up to a window of blocks, then their ACKs, as TryWindow says |
| WriteMemory.WindowSize | src/defib/agent/client.py:486-486 | a window is 16 blocks, or as many as are left |
| WriteMemory.RetryBlocks | src/defib/agent/client.py:556-567 | a failed window repeated block by block covers the same blocks again, or fails; with nothing lost it succeeds if and only if the agent was idle |
| WriteMemory.Write | src/defib/agent/client.py:464-572 | terminates; True means the blocks tile the data, each one's last transmission got both OKs, and every region's CRC-32 matches; RAM changes only in the data's region and in a block open before; undisturbed from an idle agent on the data is in RAM exactly; when one exchange is disturbed it is True if and only if no block is open once the host has read that window's ACKs |
| WriteSwallowed.TwoLost | agent/main.c:566-583 | for all data of two blocks: the first command and the last data packet are lost, the retry meets an open block, and the outcome is not True |
| TftpServer.Protocol.DatagramReceived | src/defib/network/tftp_server.py:140-153 | the dispatch by opcode, short and unknown datagrams included |
| TftpServer.Protocol.HandleRrq | src/defib/network/tftp_server.py:155-224 | the new state is OnRrq of the old: limit, missing file, clamped block size, replaced transfer, first packet |
| TftpServer.Protocol.HandleAck | src/defib/network/tftp_server.py:226-268 | the new state is OnAck of the old: stale acknowledgements do nothing, the last one completes |
| TftpServer.Protocol.HandleError | src/defib/network/tftp_server.py:291-301 | the new state is OnError of the old |
| TftpServer.Protocol.SendDataBlock | src/defib/network/tftp_server.py:303-313 | sends the next block; raises, after counting it, exactly when its number does not fit 16 bits |
| TftpServer.Protocol.SendWithTimer | src/defib/network/tftp_server.py:315-329 | sends and remembers a packet, replacing the transfer's timer |
| TftpServer.Protocol.CancelTimer | src/defib/network/tftp_server.py:331-335 | disarms the transfer's timer and nothing else |
| TftpServer.Protocol.Retransmit | src/defib/network/tftp_server.py:337-358 | the new state is OnTimer of the old, which TftpRetries.TimeoutResends and TimeoutGivesUp describe |
| TftpTheorems.EveryRun | src/defib/network/tftp_server.py:155-358 | in every run the server invariant holds, no packet is sent more than 1 + max_retries times, and at most MAX_TRANSFERS transfers live |
| TftpTheorems.RequestServed | src/defib/network/tftp_server.py:155-224 | in every run a request for a file there is, from a client being served or while fewer than eight are, gets one packet, the option acknowledgement or the first 512 bytes, and a timer; no other transfer changes |
| TftpTheorems.NegotiatedRange | src/defib/network/tftp_server.py:193-205 | the block size is the one asked for, brought into the range from 8 to the server's largest; 512 if none was asked for |
| TftpTheorems.OthersTurnedAway | src/defib/network/tftp_server.py:140-180 | every other request gets one error, 0, 1 or 4, or, from a ninth client, silence, and disturbs no transfer |
| TftpTheorems.ErrorEnds | src/defib/network/tftp_server.py:291-301 | a client's error ends its transfer and its timer and nothing else |
| TftpTheorems.OtherAckSilent | src/defib/network/tftp_server.py:226-268 | an acknowledgement of any block but the one last sent changes nothing |
| TftpRetries.TimeoutResends | src/defib/network/tftp_server.py:337-358 | in every run: a timer belongs to a live transfer, and while its packet has been sent at most max_retries times a timeout sends the very packet it sent last once more, to the same client, and leaves the transfer live with a timer |
| TftpRetries.TimeoutGivesUp | src/defib/network/tftp_server.py:337-350 | once it has been sent more often, a timeout drops the transfer, sends nothing and counts nothing |
| TftpRetries.RunRemembers | src/defib/network/tftp_server.py:315-319 | in every run the packet a live transfer would send again is the one it sent last, to its own client |
| TftpTheorems.TimedExactlyWhenNumbered | src/defib/network/tftp_server.py:303-335 | a live transfer has an armed timer exactly while its block number fits 16 bits, no address has two, and files of at most 65535 blocks never lose theirs |
| TftpTheorems.DuplicateAckSilent | src/defib/network/tftp_server.py:226-268 | once acted on, a copy of an acknowledgement changes nothing and sends nothing for the rest of the transfer |
| TftpTheorems.BudgetSpent | src/defib/network/tftp_server.py:226-358 | whatever touches a live transfer lowers its budget of acknowledgements and timeouts |
| TftpTheorems.TouchesBounded | src/defib/network/tftp_server.py:226-358 | in a run of any length a transfer is touched no more often than its budget |
| TftpTheorems.TooLongStrands | src/defib/network/tftp_server.py:303-313 | a file of more than 65535 blocks, acknowledged block by block, ends live, incomplete and without a timer |
| TftpTheorems.StrandedForGood | src/defib/network/tftp_server.py:226-301 | through every run without a new request or an error from the same client such a transfer stays exactly as it is |
| TftpEndToEnd.StepKeeps | src/defib/network/tftp_server.py:140-358 | every step of server, RFC 1350 client, network and other clients keeps the joint invariant |
| TftpEndToEnd.ClientHasPrefix | src/defib/network/tftp_server.py:207-313 | over loss, duplication and reordering the client's bytes are always a prefix of the file, in whole blocks |
| TftpEndToEnd.ServerOneAhead | src/defib/network/tftp_server.py:226-313 | the server's block, and every block it ever sent, is at most one ahead of the client |
| TftpEndToEnd.CompleteMeansDelivered | src/defib/network/tftp_server.py:246-268 | a transfer counted complete has been received whole, also for exact multiples of the block size; longer than 65535 blocks it is never counted |
| TftpCompletion.CompletesIff | src/defib/network/tftp_server.py:155-313 | some run from the start ends with the server counting the transfer if and only if the file, with its closing short block, has at most 65535 blocks |
| TftpCompletion.Completes | src/defib/network/tftp_server.py:155-313 | every such download has a run to completion, with the client holding the whole file |
| TftpRetries.CompletesDespiteLosses | src/defib/network/tftp_server.py:155-358 | however often each packet of a download is lost, up to max_retries times each and the option acknowledgement included, there is a run on which it is sent exactly that often more, the server counts the transfer and the client has the file |
| TftpRetries.SurvivesLosses | src/defib/network/tftp_server.py:226-358 | from any state of any run with the due block out, the block may be lost as often as retries are left, and there is still a run to the end |
| Hisfc350.Driver.SelectBank | agent/spi_flash_hisfc350.c:183-199 | keeps the cached bank equal to the chip's register, and selects the bank asked for |
| Hisfc350.Driver.FlashRead | agent/spi_flash_hisfc350.c:280-318 | the buffer holds what Seen says of the range, across bank boundaries, and nothing behind it changes |
| Hisfc350.Driver.FlashCrc32 | agent/spi_flash_hisfc350.c:320-335 | the checksum composed bank by bank is the one-shot checksum of the range |
| Hisfc350.Driver.VerifyErased | agent/spi_flash_hisfc350.c:341-351 | 0 exactly when the first and last 16 bytes read back as 0xFF |
| Hisfc350.Driver.EraseSector | agent/spi_flash_hisfc350.c:353-373 | changes the sector around the aliased address and nothing else, for any address; 0 exactly when the samples read back as 0xFF, whatever the erase left in the sector; a real erase of an aligned sector gives 0 |
| Hisfc350.Driver.WritePage | agent/spi_flash_hisfc350.c:375-414 | at most 256 bytes in commands of 64, each wrapping at the end of its page, for any address; where no command runs across a page end it is one AND over the linear range |
| Hisfc350.StraightExact | agent/spi_flash_hisfc350.c:375-414 | a call programs the linear range, whatever the cells and the data, if and only if it stays within a page or starts on a multiple of 64, and ends in the bank it starts in, below 32 MiB |
| Hisfc350.MissesBankEnd | agent/spi_flash_hisfc350.c:378-401 | on a 32 MiB chip, 128 bytes from 64 bytes before the bank end miss the cell at 16 MiB |
| Hisfc350.AliasExact | agent/spi_flash_hisfc350.c:286-289 | an access reaches the linear address it was given if and only if the chip has one bank or the address is below 32 MiB |
| Hisfc350.FoldsBack | agent/spi_flash_hisfc350.c:91-94 | on a 64 MiB chip the address 32 MiB is served by the cell at 16 MiB |
| Hisfc350.SizeDetected | agent/spi_flash_hisfc350.c:91-94 | identity bytes 0x14 to 0x1A stand for 1 to 64 MiB, doubling, and all others for 16 MiB |
| Hisfc350.SeenLinear | agent/spi_flash_hisfc350.c:280-318 | up to 32 MiB a read sees the linear range |
| Hisfc350.PerformAll | agent/spi_flash_hisfc350.c:280-414 | any sequence of reads, checksums, erases and page programs on chips up to 32 MiB gives the cells and the answers of linear memory |
| Nand.Chip.NandRead | agent/spi_flash.c:612-653 | 255-byte fetches that skip the dummy byte give exactly the page's bytes, unless the status says it never finished |
| Nand.Chip.FlashRead | agent/spi_flash.c:655-673 | a return of 0 means the buffer holds the linear range; without stalls it returns 0 |
| Nand.Chip.FlashCrc32 | agent/spi_flash.c:867-884 | without stalls the page-by-page checksum is that of the linear range |
| Nand.Chip.NandProgramPage | agent/spi_flash.c:559-597 | when no command stalls, one resetting load plus random loads leave the cache as the data padded with 0xFF, and the page becomes its AND with the cache; other pages never change |
| Nand.Chip.FlashWritePage | agent/spi_flash.c:787-798 | data up to the end of the page is ANDed into the linear range; no data commits what the cache held; other pages never change, also on failure |
| Nand.LoadedPrograms | agent/spi_flash.c:559-597 | programming the padded cache is programming the data alone |
| Nand.EmptyWriteClears | agent/spi_flash.c:559-597 | a concrete page and cache that a write of no bytes damages |
| Crc16Table.TableIsPolynomial | src/defib/protocol/crc.py:9-42 | each of the 256 literal table entries is the polynomial's |
| Crc16Table.CalcCrc | src/defib/protocol/crc.py:50-57 | the loop over the literal table, with its growing accumulator, computes the 16-bit register's checksum |
| Crc16.PyStepAgrees | src/defib/protocol/crc.py:52-56 | after every byte the unmasked accumulator agrees with the 16-bit register modulo 65536 |
| Crc16.AppendVerifies | src/defib/protocol/crc.py:60-78 | an appended frame verifies if and only if the data is not empty |
| Crc16.ValidIffZero | src/defib/protocol/crc.py:72-78 | a frame verifies exactly when all of it takes the register from zero to zero |
| Crc16.DetectsAdjacent | src/defib/protocol/crc.py:72-78 | any change within one byte or two adjacent bytes of a valid frame, checksum included, is rejected |
| Crc16.FoldLinear | src/defib/protocol/crc.py:50-57 | the register of a difference is the difference of the registers |
| V500Frames.DecodeHead | src/defib/protocol/frames.py:42-66 | a HEAD frame decodes to its length and address |
| V500Frames.DecodeData | src/defib/protocol/frames.py:69-95 | a DATA frame decodes to its number modulo 256 and its payload |
| V500Frames.DecodeTail | src/defib/protocol/frames.py:98-118 | a TAIL frame decodes to its number modulo 256 |
| V500Frames.HeadOnWire | src/defib/protocol/frames.py:42-54 | HEAD is its magic, length, address and the checksum of those twelve bytes, each with the most significant byte first |
| V500Frames.NumberedOnWire | src/defib/protocol/frames.py:69-118 | DATA and TAIL are their magic, the number modulo 256, its complement, the payload and the checksum of all that |
| BigEndian.Be32Order | src/defib/protocol/frames.py:45-50 | big-endian words have their most significant byte first |
| V500.SendFrameWaitAck | src/defib/protocol/hisilicon_v500.py:197-222 | the waiting loop does what SendFrame says of the line, for every noise, every leftover byte and every clock |
| V500Line.FrameSends | src/defib/protocol/hisilicon_v500.py:205-219 | 1 to 11 transmissions of the one frame and nothing else |
| V500Line.FrameDelivered | src/defib/protocol/hisilicon_v500.py:205-222 | True means the boot ROM has the frame, for every pattern of ACK, NAK, silence and noise without 0xAA, if the bytes left unread when the frame was first written do not mislead |
| V500Line.UnreadDecides | src/defib/protocol/hisilicon_v500.py:205-222 | those unread bytes decide: True is to be believed on every such line if and only if no ACK stands among them behind fewer than ten NAKs |
| V500Line.FrameAcked | src/defib/protocol/hisilicon_v500.py:205-222 | in time and with noise that passes for no answer, True exactly when one of the first ten transmissions is acknowledged after nothing but NAKs |
| V500Line.FramesSend | src/defib/protocol/hisilicon_v500.py:224-281 | the transmissions of a sequence are its frames in order, each 1 to 11 times, up to the first that fails |
| V500.SendDataToBootrom | src/defib/protocol/hisilicon_v500.py:224-281 | sends HEAD, the DATA frames and TAIL in order up to the first failure |
| V500.AreaTaken | src/defib/protocol/hisilicon_v500.py:235-275 | the frames of an area, arriving in order, put together exactly that area |
| V500.AreaDelivered | src/defib/protocol/hisilicon_v500.py:224-281 | True means the boot ROM has the area, if nothing unread misled at the first writing of a frame and no noise byte was 0xAA |
| V500.TailFollowsData | src/defib/protocol/hisilicon_v500.py:267-272 | the TAIL number is the last DATA number plus one, modulo 256 |
| V500.SendFirmware | src/defib/protocol/hisilicon_v500.py:283-340 | sends the frames of the three areas, or fails after the first for an image without its length field; success, under the same condition, means the boot ROM has all three |
| V500.FirmwareDelivered | src/defib/protocol/hisilicon_v500.py:283-340 | the same of the frames: the key area, the aux area of the length the image names, and the whole image |
| V500.AreasCover | src/defib/protocol/hisilicon_v500.py:283-340 | the first two areas are a prefix of the image, at 0 and 0x2000 without a gap, of at most 0x2000 bytes and as many as the field at 0x400 says; the third is the image at 0x41000000 |
| V500.HarmlessDelivered | src/defib/protocol/hisilicon_v500.py:283-340 | with noise that passes for no answer, success means delivered without a condition |
| V500.ClearSucceeds | src/defib/protocol/hisilicon_v500.py:283-340 | a line on which every first transmission goes through makes it succeed |
| V500.SuccessWithoutDelivery | src/defib/protocol/hisilicon_v500.py:208-220 | for every image, one noise byte 0x55 ahead of the first ACK and a damaged last TAIL: success is reported, and the boot image was never closed |
| V500.WrapPayload | src/defib/protocol/hisilicon_v500.py:81-108 | accepts exactly the plausible donors; the image is the donor but for the two length fields, then the padded payload and a zero tail, and the fields read back the new lengths |
| V500.PadLength | src/defib/protocol/hisilicon_v500.py:103-104 | padding reaches the next multiple of 1024 |
| V500.Recover | src/defib/protocol/hisilicon_v500.py:81-340 | a wrapped payload that was sent, under the same condition: the aux area received is the donor's verbatim |
| Ubi.ExtractUbifs | src/defib/ubi.py:43-133 | the loops compute Extraction for every block size: the three errors, the exceptions of a zero block size or a cut-off header, or the mapping assembled and trimmed by the length of the block found first |
| Ubi.CollectLebs | src/defib/ubi.py:68-108 | the block loop computes the mapping and which logical block came first, or raises exactly when a UBI block's header runs past the end of the image |
| Ubi.Assemble | src/defib/ubi.py:113-122 | logical order with 0xFF for holes |
| Ubi.Trim | src/defib/ubi.py:124-126 | the trim loop removes trailing erased blocks, keeping one |
| Ubi.TrimmedIs | src/defib/ubi.py:113-126 | trimming an assembly of equal blocks keeps exactly the blocks up to the last one that is not erased, or one |
| Ubi.AssembledAt | src/defib/ubi.py:113-122 | logical block i of the result is the mapped block, or 0xFF |
| Ubi.MappedIs | src/defib/ubi.py:68-108 | with distinct logical numbers the mapping is exactly the blocks that occur |
| Ubi.Local | src/defib/ubi.py:78-107 | what a self-contained block contributes depends on that block alone |
| Ubi.PermutedSame | src/defib/ubi.py:65-108 | a permuted image is well-formed again and has the same logical blocks |
| Ubi.PermutedExtracts | src/defib/ubi.py:65-133 | any permutation of the physical blocks that keeps a UBI block first extracts to the same bytes or the same error |
| Ubi.OrderIgnored | src/defib/ubi.py:65-133 | two images with the same logical blocks extract alike, whatever their physical order and whatever foreign or unmapped blocks lie between |
| Ubi.WellFormedVolume | src/defib/ubi.py:65-133 | a well-formed image gives the volume in logical order up to the last block that is not erased |
| UbiImage.ExtractsPayloads | src/defib/ubi.py:20-133 | for images built from the header layouts, in any physical order, with blocks of other volumes and foreign blocks between and a partial block behind: the payloads of the volume's blocks in logical order, 0xFF for holes, without trailing erased blocks, or the error that fits |
| UbiImage.BlockSeen | src/defib/ubi.py:20-107 | volume, logical number and payload of a block so built are the ones put into it |
| DumpRepair.VerifyAndRepair | src/defib/flashdump.py:478-556 | however it ends, only differing chunks were rewritten, each with bytes of the device's CRC-32; a normal return has the device's whole-image CRC-32, rewrote exactly the differing chunks of differing blocks, and counts them; where equal CRC-32s mean equal bytes in the old file and in the rewritten chunks, every normal return, disturbed or not, leaves the device's bytes in the file; where the same holds of what is read and no three crc32 commands in a row go unanswered, it returns normally if and only if nothing differs or every differing chunk in turn meets a good reading within its max_retries + 1 tries |
| DumpRepair.Dump.RepairBlock | src/defib/flashdump.py:531-552 | the chunk loop of one block keeps file and buffer in step and repairs every differing chunk of it, or raises |
| DumpRepair.Dump.RepairChunk | src/defib/flashdump.py:532-552 | one chunk: left alone when its CRC-32 matches, otherwise rewritten once |
| DumpRepair.Dump.Reread | src/defib/flashdump.py:536-550 | the first reading among max_retries + 1 that has the right length and CRC-32 is taken, and the later ones are left; it fails exactly when none has |
| DumpRepair.Dump.DeviceCrc | src/defib/flashdump.py:502-509 | the first of three tries that is answered gives the CRC-32 of the device's range, and the later ones are left; it raises exactly when none is |
| DumpRepair.Exactly | src/defib/flashdump.py:526-552 | at the end the rewritten offsets are exactly the bad ones |
| DumpRepair.AllRight | src/defib/flashdump.py:526-555 | rewriting exactly the bad chunks with bytes that their CRC-32s stand for makes the whole file the device's, without trusting the whole-image CRC-32 |

## Left out

- The I/O-register path of `handle_read`: volatile device registers.
- Controller register sequences, write-protect bits, eMMC bring-up, pins, clocks, UART divisors and baud switching: they appear as read, erase, program and bank-select steps.
- Wall-clock time: a timeout is a step or an oracle's answer, so how long a wait lasts is not modelled.
- READY packets that `recv_response` skips: replies are the ones that belong to the command.
- Agent replies in flash streaming and in WRITE travel as values, not as framed bytes; framing is proved separately.
- `handle_scan`, `scan_flash`, `handle_crc32_cmd`, erase and self-update commands: the same loops with less state.
- The parsing of read requests and file names, statistics and callbacks of the TFTP server: a request arrives parsed, and file lookup is a map.
- Little-endian CRC-16 frames and the CV6xx protocol: the same functions again.
- The V500 handshake: string search in a byte stream.
- Out-of-band bytes and bad-block marks of NAND; ECC verdicts.
- CRC values inside UBI headers: the code does not look at them either.
- Installer, CLI, TUI, power control, downloads and console scraping.
- Crc32.Compute: the table entries are computed from the polynomial, which the check value fixes; the 256 literals of `agent/protocol.c` are not compared with them one by one.
- StreamOutcome.FlashWritten: says nothing of runs in which a damaged stretch passes its CRC-32, and assumes that an erase that reports success and the page writes after it succeeded, because the agent looks at 32 bytes of the one and at no result of the others.
- StreamOutcome.FlashHoldsImage: assumes that host and agent use the same sector size (`StreamMismatch.SectorSizesMustAgree` shows why), that the address and the flash size are multiples of it, and an image of at most 32 MiB, as the packets' 16-bit numbers demand.
- StreamOutcome.RefusedFails: assumes that address plus length stay below 4 GiB; the agent's 32-bit sum beyond that is not modelled.
- StreamLocal.OutsideNeverTouched: a run ends where a frame overruns the decode buffer; what the agent does after that is not modelled, and READ and WRITE take packets as they come, without that buffer.
- Nor.EraseAndProgram: an erase that reports success has set the whole sector to 0xFF, where the driver looks at 32 bytes of it (`Hisfc350.Driver.EraseSector`).
- StreamLossy.StepHolds: bytes that nobody sent, and replies that arrive damaged, are not modelled.
- WriteMemory.Write: assumes that the data lies in RAM, writes routed to flash are not modelled; and that a reply reaches the host before it clears its buffers, or never.
- WriteAgent.Agent.HandleWrite: error replies are their status byte; the detail words behind it are not modelled.
- V500.SendFrameWaitAck: assumes that the boot ROM notices a damaged frame and that what a transmission brings back is there before the next one; bytes that arrive later than that are not modelled.
- V500.FirmwareDelivered: one way only; a misled frame may by chance have arrived all the same.
- Nand.Chip.NandProgramPage: says of a page written while commands stall only that no other page changed, because the code ignores the wait result of its loads.
- Nand.Chip.FlashCrc32: says nothing after a stalled read, because the code ignores the result of its reads.
- Ubi.OrderIgnored: assumes volume headers inside their own block and equal, non-empty logical blocks.
- UbiImage.ExtractsPayloads: assumes each logical number once and equal, non-empty payloads in the volume extracted; of two blocks with one number the later wins (`Ubi.CollectLebs`).
- WriteAgent.Agent.Listen: every command other than a write is answered as unknown.
- TftpServer.Protocol.HandleRrq: a request arrives parsed, and file lookup is a map.
- Hisfc350.Driver.EraseSector: the 64 KiB from the address on lie on the chip, as the command handlers check.
- DumpRepair.Dump.DeviceCrc: a device answer is truthful or missing; a misread number is not modelled.
