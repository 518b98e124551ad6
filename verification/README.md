# cloudFPGA shell: models and proofs

This project models four parts of the cloudFPGA shell and one small helper, and proves what they promise.

- **Packet classes** (`AxisChunks`, `SimPackets`). Ethernet, IPv4, UDP and TCP packets are queues of 64-bit chunks. The
  encapsulating loops shift a byte stream across chunk boundaries (6/2 lanes for Ethernet, 4/4 lanes for IPv4); the
  extracting loops undo it.
- **Internet checksums** (`InternetChecksum`, `PacketChecksums`). The checksum code of section 2 of RFC 1071 exists twice
  for TCP: big-endian with two folds per chunk, and little-endian with a deferred fold and a final swap. Both are proved
  against one reference definition.
- **FPGA Management Core** (`HwicapWords`, `TcpHwicap`, `TcpStream`, `XmemPath`, `XmemTransfer`, `XmemUncleared`,
  `FmcPlan`, `FmcSafety`, `FmcTransfer`, `NumberText`). Configuration bytes reach the HWICAP over TCP (overflow buffer,
  bounded FIFO, hangover FIFO) or over pages in extended memory (page counter, wrapping buffer). A plan interpreter drives
  the latter.
- **Network Abstraction Layer** (`NalLink`, `NalStatus`, `NalHandover`, `NalLookups`, `NalBroadcast`, `NalSettles`,
  `NalProgress`, `NalRank`, `NalNotices`, `NalPorts`, `SessionTable`, `SessionRuns`, `PortBits`, `PortVectors`, `PortLogic`,
  `PortRuns`, `PortConverges`, `PortReports`, `PortRefused`, `PortCloses`). Processes joined by streams hand over the
  routing table and the rank, answer lookups, replicate status words, keep the TCP session table and open and close ports.

An entity whose code updates fields in place is a class with those fields. Its methods are proved against a specification
function on a value view of the state, and the properties over runs are lemmas about those functions. Ghost fields record
histories only. One call of a hardware process is one call of its `Step` or `Call` method; an interleaving is a sequence of
such calls.

## Where the code does less than it promises

The model keeps the code as it is. Each of these is a lemma with the exact condition or a counterexample.

- The newline counter of the TCP path has two bits: the fourth CR LF CR LF in the buffered bytes wraps it, and bytes are
  dropped (`TcpStream.ForwardsAfterHeader`, `TcpStream.FourNewlinesLoseAByte`).
- A header that ends after the buffered bytes is never found (`TcpStream.LateHeaderLost`, `TcpStream.ForwardsAfterHeader`).
- Compacting the overflow buffer on a full FIFO would drop its first byte; only the test before it prevents that
  (`TcpHwicap.TcpHwicapPath.FlushOverflow`).
- A last page that puts exactly four bytes into a fresh buffer is not written (`XmemTransfer.LastPageWrites`).
- A comment says that a newline pattern in the buffer never happens; when it does, the word is skipped
  (`XmemTransfer.BytesConserved`).
- A page poll that is overtaken by the host between its first and last line accepts a torn page
  (`XmemTransfer.TornPageAccepted`); polls that see the memory at one instant do not (`XmemTransfer.AcceptedIsPrefix`).
- A transfer that starts while the abort flag of the HWICAP is high never clears the buffer (`FmcSafety.TransferIsClean`).
  It conserves its bytes if and only if nothing was left to write and its first wrap comes after whole words
  (`XmemUncleared.KeptIff`, `XmemUncleared.FullPageWrites`).
- The decoupling port is written at the end of a call, after the words of the first page (`FmcSafety.WordsBeforePort`);
  if that page is the last, the port is never raised (`FmcSafety.FirstPagePrecedesPort`).
- A routing table that changes under a running update is published mixed (`NalHandover.ChangeDuringUpdateMixes`), for
  example when the end of a reconfiguration clears it (`NalHandover.ClearDuringUpdateMixes`).
- A routing-table row equal to the marker value 1 is served if and only if it was announced before
  (`NalHandover.ReadBackMeansHandedOver`), which a row that was always 1 is not (`NalHandover.MarkerRowNotServed`).
- Deleting a marked session leaves a free row marked, which hides the next session stored there
  (`SessionRuns.DeleteKeepsFree`, `SessionRuns.MarkedFreeRowHidesNewSession`); the duplicate check looks past marked rows
  (`SessionRuns.AddKeepsUnique`).
- Ports that the role no longer asks for leave the record without a close request (`PortConverges.SurplusDropped`),
  although the process is documented to close them.
- The status memory is not told of ports that are restored, dropped as a surplus, or cleared by a layer-4 reset that ends
  while its stream is full; the last notification is right if and only if none of these changed the record since
  (`PortReports.NotificationsTell`).
- A computed UDP checksum of zero is stored as zero, while RFC 768 asks for all ones (`PacketChecksums.UdpChecksumMayBeZero`,
  `PacketChecksums.ReCalculateUdpChecksum`).
- Clearing the routing table leaves the row of the highest node id (`NalLink.ClearLeavesLastRow`).

## Model

| member | source | states |
|---|---|---|
| `AxisChunks.KeepToLen` | `SRA/LIB/SHELL/LIB/hls/NTS/AxisRaw.hpp:451-463` | a chunk has a nonzero length exactly for the eight contiguous keep patterns, and it determines the pattern |
| `AxisChunks.PackedByteAt` | `SRA/LIB/SHELL/LIB/hls/NTS/SimIp4Packet.hpp:593-664` | in a packed queue byte i of the stream sits in lane i % 8 of chunk i / 8 |
| `AxisChunks.MoveLanesPacks` | `SRA/LIB/SHELL/LIB/hls/NTS/SimEthFrame.hpp:445-468` | moving the valid lanes of one chunk behind the bytes of another appends exactly those bytes and keeps the keep mask contiguous |
| `SimPackets.SimPacket.PushChunk` | `SRA/LIB/SHELL/LIB/hls/NTS/SimIp4Packet.hpp:241-248` | the bytes are appended, the previous final chunk loses its last flag, and len grows by the chunk length |
| `SimPackets.SimPacket.PullChunk` | `SRA/LIB/SHELL/LIB/hls/NTS/SimIp4Packet.hpp:251-256` | the front chunk leaves the queue and len shrinks by its length |
| `SimPackets.SimPacket.EthFillChunk` | `SRA/LIB/SHELL/LIB/hls/NTS/SimEthFrame.hpp:422-441` | the first two lanes of a packet chunk complete the open frame chunk; ends the packet exactly when no further lane is valid |
| `SimPackets.SimPacket.EthOpenChunk` | `SRA/LIB/SHELL/LIB/hls/NTS/SimEthFrame.hpp:442-484` | lanes 2 to 7 of a packet chunk open a new frame chunk |
| `SimPackets.SimPacket.AddEthPayload` | `SRA/LIB/SHELL/LIB/hls/NTS/SimEthFrame.hpp:408-487` | on a 14-byte frame the stream becomes header ++ packet, well-formed, with correct len, for every well-formed packet |
| `SimPackets.SimPacket.Realign` | `SRA/LIB/SHELL/LIB/hls/NTS/SimEthFrame.hpp:162-231` | the re-aligning read from lane 8-h of a chunk returns exactly the remaining bytes, well-formed, or nothing |
| `SimPackets.SimPacket.GetIpPacket` | `SRA/LIB/SHELL/LIB/hls/NTS/SimEthFrame.hpp:162-231` | extraction returns the bytes from offset 14 |
| `SimPackets.SimPacket.GetL4Payload` | `SRA/LIB/SHELL/LIB/hls/NTS/SimIp4Packet.hpp:593-664` | extraction returns the bytes after 4*IHL, for odd and even IHL |
| `SimPackets.SimPacket.AppendUnaligned` | `SRA/LIB/SHELL/LIB/hls/NTS/SimIp4Packet.hpp:786-844` | appends whole chunks until the wanted count is reached, at any residue, and leaves the unread rest in the datagram |
| `SimPackets.SimPacket.AddIpPayload` | `SRA/LIB/SHELL/LIB/hls/NTS/SimIp4Packet.hpp:763-847` | the refused cases change nothing; otherwise the datagram bytes follow the header, protocol 17 is set, len is the sum of the chunk lengths |
| `SimPackets.SimPacket.SetIpProtocol` | `SRA/LIB/SHELL/LIB/hls/NTS/SimIp4Packet.hpp:345-345` | only byte 9 of the packet changes |
| `SimPackets.HiIntoLoPacks` | `SRA/LIB/SHELL/LIB/hls/NTS/SimIp4Packet.hpp:807-820` | the 4/4 lane copy of the first half appends exactly the valid lanes |
| `SimPackets.LoIntoHiPacks` | `SRA/LIB/SHELL/LIB/hls/NTS/SimIp4Packet.hpp:821-842` | the 4/4 lane copy of the second half holds exactly the valid lanes |
| `SimPackets.EthernetRoundTrip` | `SRA/LIB/SHELL/LIB/hls/NTS/SimEthFrame.hpp:162-231` | extraction after encapsulation returns the packet bytes, for all residues of the length |
| `SimPackets.UdpRoundTrip` | `SRA/LIB/SHELL/LIB/hls/NTS/SimIp4Packet.hpp:593-664` | extraction after encapsulation returns the datagram bytes, for headers of 5, 7, ..., 15 words |
| `InternetChecksum.OnesSumIsFold` | `SRA/LIB/SHELL/LIB/hls/NTS/SimIp4Packet.hpp:136-162` | the reference sum of section 2 of RFC 1071 is the fold modulo 65535 of the unfolded sum |
| `InternetChecksum.LittleEndianChecksum` | `SRA/LIB/SHELL/LIB/hls/NTS/SimTcpSegment.hpp:326-336` | summing byte-swapped half-words, folding, complementing and swapping gives the big-endian checksum |
| `InternetChecksum.StoredChecksumVerifies` | `SRA/LIB/SHELL/LIB/hls/NTS/SimTcpSegment.hpp:349-355` | a checksum stored in a zero word makes the data sum to all ones |
| `InternetChecksum.FoldOnceKeeps` | `SRA/LIB/SHELL/LIB/hls/NTS/SimIp4Packet.hpp:156-157` | one fold keeps the value modulo 65535 and shrinks anything above 16 bits |
| `PacketChecksums.CalculateL4Checksum` | `SRA/LIB/SHELL/LIB/hls/NTS/SimTcpSegment.hpp:300-337` | the result is the Internet checksum of pseudo-header ++ segment, odd lengths included, and the 32-bit accumulator never overflows |
| `PacketChecksums.PseudoHeaderLayout` | `SRA/LIB/SHELL/LIB/hls/NTS/SimTcpSegment.hpp:300-316` | the twelve bytes of the pseudo-header on an example |
| `PacketChecksums.FoldDown` | `SRA/LIB/SHELL/LIB/hls/NTS/SimTcpSegment.hpp:330-332` | the deferred fold loop returns the fold of the accumulator |
| `PacketChecksums.ChecksumCalculation` | `SRA/LIB/SHELL/LIB/hls/NTS/SimIp4Packet.hpp:136-162` | folding twice per chunk computes the Internet checksum of the chunk bytes |
| `PacketChecksums.MaskedSums` | `SRA/LIB/SHELL/LIB/hls/NTS/SimIp4Packet.hpp:148-152` | lanes whose keep bit is clear add nothing |
| `PacketChecksums.ReCalculateTcpChecksum` | `SRA/LIB/SHELL/LIB/hls/NTS/SimTcpSegment.hpp:349-355` | only the checksum field changes, to the checksum with the field zero; afterwards the covered data sums to all ones |
| `PacketChecksums.ReCalculateUdpChecksum` | `SRA/LIB/SHELL/LIB/hls/NTS/SimUdpDatagram.hpp:240-295` | the same for UDP, with the length from the UDP length field; the stored value is zero if and only if the covered words add up to a multiple of 65535 |
| `PacketChecksums.UdpChecksumMayBeZero` | `SRA/LIB/SHELL/LIB/hls/NTS/SimUdpDatagram.hpp:273-276` | a datagram whose stored checksum is zero, which RFC 768 reserves |
| `InternetChecksum.ZeroChecksum` | `SRA/LIB/SHELL/LIB/hls/NTS/SimUdpDatagram.hpp:273-276` | the checksum of any bytes is zero if and only if the plain sum of their 16-bit words is a positive multiple of 65535 |
| `PacketChecksums.ZeroUdpChecksum` | `SRA/LIB/SHELL/LIB/hls/NTS/SimUdpDatagram.hpp:258-276` | with the UDP pseudo-header the sum is never zero, so divisibility by 65535 alone decides |
| `PacketChecksums.CalculateIpHeaderChecksum` | `SRA/LIB/SHELL/LIB/hls/NTS/SimIp4Packet.hpp:88-128` | for every IHL from 5 to 15 the result is the checksum of the header with the field read as zero |
| `PacketChecksums.ReCalculateIpHeaderChecksum` | `SRA/LIB/SHELL/LIB/hls/NTS/SimIp4Packet.hpp:1326-1331` | only the checksum field changes; afterwards the header sums to all ones |
| `PacketChecksums.TcpAssemblePseudoPacket` | `SRA/LIB/SHELL/LIB/hls/NTS/SimIp4Packet.hpp:172-201` | the buffer holds pseudo-header ++ segment with a zero checksum field, well-formed; the packet keeps all other bytes |
| `PacketChecksums.TcpRecalculateChecksum` | `SRA/LIB/SHELL/LIB/hls/NTS/SimIp4Packet.hpp:1340-1350` | the stored value is the checksum over the pseudo-packet, and the packet verifies afterwards |
| `PacketChecksums.TcpChecksumsAgree` | `SRA/LIB/SHELL/LIB/hls/NTS/SimIp4Packet.hpp:136-201` | the big-endian and the little-endian implementation give the same value for every IPv4 packet with IHL 5 |
| `HwicapWords.UnpackPack` | `SRA/LIB/SHELL/LIB/hls/FMC/src/fmc.cpp:2246-2259` | packing and unpacking four bytes are inverse, in both byte orders |
| `HwicapWords.UnpackWords` | `SRA/LIB/SHELL/LIB/hls/FMC/src/fmc.cpp:2246-2259` | unpacking the words of a byte string gives back its whole groups of four |
| `HwicapWords.NewlinePacks` | `SRA/LIB/SHELL/LIB/hls/FMC/src/fmc.cpp:2261-2261` | the terminator CR LF CR LF is recognised in both byte orders |
| `HwicapWords.StopBytes` | `SRA/LIB/SHELL/LIB/hls/FMC/src/fmc.cpp:2261-2275` | exactly four byte groups end a transfer, in either byte order |
| `TcpHwicap.LaneTaken` | `SRA/LIB/SHELL/LIB/hls/FMC/src/fmc.cpp:1984-1987` | the receive loop takes the lanes up to the highest set keep bit |
| `TcpHwicap.TcpHwicapPath.constructor` | `SRA/LIB/SHELL/LIB/hls/FMC/src/fmc.cpp:218-251` | after the opening program everything is empty and nothing is detected |
| `TcpHwicap.TcpHwicapPath.FlushOverflow` | `SRA/LIB/SHELL/LIB/hls/FMC/src/fmc.cpp:1942-1967` | the exact new FIFO and overflow buffer: order is kept if and only if there is room for one byte on entry or nothing waits |
| `TcpHwicap.TcpHwicapPath.DetectNewline` | `SRA/LIB/SHELL/LIB/hls/FMC/src/fmc.cpp:2005-2047` | reports exactly CR LF CR LF at the end of the buffered bytes; the comparison across a wrap never fires with a cleared buffer |
| `TcpHwicap.TcpHwicapPath.Forward` | `SRA/LIB/SHELL/LIB/hls/FMC/src/fmc.cpp:1993-2002` | FIFO ++ overflow grows by the byte |
| `TcpHwicap.TcpHwicapPath.ReceiveByte` | `SRA/LIB/SHELL/LIB/hls/FMC/src/fmc.cpp:1981-2051` | one lane is one step of the reference receiver |
| `TcpHwicap.TcpHwicapPath.EndWord` | `SRA/LIB/SHELL/LIB/hls/FMC/src/fmc.cpp:2054-2069` | a nearly full buffer switches to forwarding only |
| `TcpHwicap.TcpHwicapPath.ReceiveWord` | `SRA/LIB/SHELL/LIB/hls/FMC/src/fmc.cpp:1980-2069` | one network word is one step of the reference receiver, for any keep pattern |
| `TcpHwicap.TcpHwicapPath.ProcessData` | `SRA/LIB/SHELL/LIB/hls/FMC/src/fmc.cpp:1934-2079` | a call processes a prefix of the input exactly as the reference; when it stops early, why; when it reports done, the stop condition holds |
| `TcpHwicap.TcpHwicapPath.ReceiveTcp` | `SRA/LIB/SHELL/LIB/hls/FMC/src/fmc.cpp:1934-2079` | every call keeps the conservation invariant |
| `TcpHwicap.TcpHwicapPath.StartHwicap` | `SRA/LIB/SHELL/LIB/hls/FMC/src/fmc.cpp:2824-2830` | the transfer starts without touching a byte |
| `TcpHwicap.TcpHwicapPath.ReadGroup` | `SRA/LIB/SHELL/LIB/hls/FMC/src/fmc.cpp:2211-2234` | up to four bytes leave the FIFOs, hangover first; fewer only if both are empty |
| `TcpHwicap.TcpHwicapPath.WriteWord` | `SRA/LIB/SHELL/LIB/hls/FMC/src/fmc.cpp:2276-2300` | a full group that is no stop word is written as one word |
| `TcpHwicap.TcpHwicapPath.EndTransfer` | `SRA/LIB/SHELL/LIB/hls/FMC/src/fmc.cpp:2261-2275` | the first stop word ends the transfer and is not written; a newline group is counted exactly if the receiver only forwards |
| `TcpHwicap.TcpHwicapPath.WriteGroup` | `SRA/LIB/SHELL/LIB/hls/FMC/src/fmc.cpp:2211-2301` | one turn keeps the invariant and writes one word or none; an incomplete group goes back |
| `TcpHwicap.TcpHwicapPath.WriteHwicap` | `SRA/LIB/SHELL/LIB/hls/FMC/src/fmc.cpp:2165-2301` | for every vacancy schedule no byte is lost, duplicated or reordered; the words written never outnumber the vacancies read, a further reading is taken only when the earlier ones are used up, and a reading of zero ends the call; otherwise the FIFO is drained, the transfer ends, or 4096 words are written; an inaccessible HWICAP changes nothing |
| `TcpHwicap.TcpHwicapPath.WriteTurn` | `SRA/LIB/SHELL/LIB/hls/FMC/src/fmc.cpp:2184-2297` | one turn of the loop within the vacancy, which is read again exactly when it is used up |
| `TcpHwicap.FirstVacancy` | `SRA/LIB/SHELL/LIB/hls/FMC/src/fmc.cpp:2180-2208` | with no vacancy after the first reading, no more words are written than that reading allows |
| `TcpHwicap.RxWordsShift` | `SRA/LIB/SHELL/LIB/hls/FMC/src/fmc.cpp:1993-2002` | bytes already taken out do not influence the receiver |
| `TcpStream.ReceiverSelects` | `SRA/LIB/SHELL/LIB/hls/FMC/src/fmc.cpp:1980-2069` | over every split into words, the forwarded bytes are the selected bytes of the stream |
| `TcpStream.ForwardsAfterHeader` | `SRA/LIB/SHELL/LIB/hls/FMC/src/fmc.cpp:1993-2014` | for every stream that starts with a header: the forwarded bytes are exactly those after it if and only if there are none, or the header ends within the buffered bytes and at most three newlines are counted before the last byte |
| `TcpStream.FourNewlinesLoseAByte` | `SRA/LIB/SHELL/LIB/hls/FMC/src/fmc.cpp:146-146` | five CR LF pairs wrap the two-bit counter and the next byte is lost |
| `TcpStream.LateHeaderLost` | `SRA/LIB/SHELL/LIB/hls/FMC/src/fmc.cpp:2056-2069` | a header that ends after the buffered bytes is never found and nothing is forwarded |
| `TcpStream.NothingForwarded` | `SRA/LIB/SHELL/LIB/hls/FMC/src/fmc.cpp:1993-2002` | nothing is forwarded as long as no newline was counted |
| `TcpStream.NothingLost` | `SRA/LIB/SHELL/LIB/hls/FMC/src/fmc.cpp:1934-2301` | written words unpacked ++ hangover ++ FIFO ++ overflow are the forwarded bytes at every moment of a transfer |
| `TcpStream.PayloadWritten` | `SRA/LIB/SHELL/LIB/hls/FMC/src/fmc.cpp:2261-2276` | the words before the first stop word are the payload if and only if the payload is whole words without a stop word |
| `TcpStream.TransferWritesPayload` | `SRA/LIB/SHELL/LIB/hls/FMC/src/fmc.cpp:1934-2301` | when the transfer has ended, the HWICAP holds exactly the payload, under that same condition, for every schedule |
| `TcpStream.RunningWaits` | `SRA/LIB/SHELL/LIB/hls/FMC/src/fmc.cpp:2211-2301` | once header, payload and terminator are received, a transfer that still runs has bytes waiting |
| `TcpStream.FinishTransfer` | `SRA/LIB/SHELL/LIB/hls/FMC/src/fmc.cpp:1934-2301` | then calls with an accessible HWICAP end the transfer, with exactly the payload written if and only if it holds no aligned stop word |
| `XmemPath.XmemBuffer.Clear` | `SRA/LIB/SHELL/LIB/hls/FMC/src/fmc.cpp:218-226` | the buffer is zero and all pointers are 0 |
| `XmemPath.XmemBuffer.PutByte` | `SRA/LIB/SHELL/LIB/hls/FMC/src/fmc.cpp:480-498` | one payload byte overlays the buffer |
| `XmemPath.XmemBuffer.CopyLines` | `SRA/LIB/SHELL/LIB/hls/FMC/src/fmc.cpp:473-499` | the 126 payload bytes overlay the buffer at the write pointer and nothing else changes; header and footer are the outer bytes |
| `XmemPath.XmemBuffer.CopyAndCheckBurst` | `SRA/LIB/SHELL/LIB/hls/FMC/src/fmc.cpp:464-560` | the verdict on the page, and the complete new state for each verdict and every 7-bit last-page count |
| `XmemPath.CheckReads` | `SRA/LIB/SHELL/LIB/hls/FMC/src/fmc.cpp:480-516` | each of the five verdicts, in both directions, from the lowest byte of line 0, the highest byte of line 31 and the expected count |
| `XmemPath.XmemBuffer.AdvancePointers` | `SRA/LIB/SHELL/LIB/hls/FMC/src/fmc.cpp:522-535` | the pointers after an accepted page for every 7-bit last-page count, with both wraps |
| `XmemPath.XmemBuffer.WriteBuffer` | `SRA/LIB/SHELL/LIB/hls/FMC/src/fmc.cpp:2628-2778` | the words of the available bytes are appended, newline patterns excepted, and the read pointer moves with its wrap |
| `XmemTransfer.FullPageConserves` | `SRA/LIB/SHELL/LIB/hls/FMC/src/fmc.cpp:2628-2778` | each full page keeps, from any origin whose wraps come after whole words: all whole words of the accepted bytes are written, each in the byte order of its call, and the rest is in the buffer |
| `XmemTransfer.LastPageWrites` | `SRA/LIB/SHELL/LIB/hls/FMC/src/fmc.cpp:2628-2632` | for every 7-bit last-page count: all whole words are written if and only if the page does not put exactly four bytes into a fresh buffer |
| `XmemTransfer.BytesConserved` | `SRA/LIB/SHELL/LIB/hls/FMC/src/fmc.cpp:2699-2718` | written words unpacked, each in its byte order, ++ buffered bytes equal the accepted payload if and only if no aligned word has a newline pattern |
| `HwicapWords.UnpackMixedWords` | `SRA/LIB/SHELL/LIB/hls/FMC/src/fmc.cpp:2683-2697` | unpacking words packed in different byte orders gives back the whole groups of four |
| `XmemTransfer.AcceptedIsPrefix` | `SRA/LIB/SHELL/LIB/hls/FMC/src/fmc.cpp:473-535` | for every schedule of writes and polls the accepted pages are whole, a prefix of the sent pages, each once |
| `XmemTransfer.FailsIff` | `SRA/LIB/SHELL/LIB/hls/FMC/src/fmc.cpp:501-516` | over every schedule a poll reports a mismatch if and only if one sees the memory before the host has written a line, and the page left there has equal header and footer with a count other than 15 |
| `XmemTransfer.PollKeeps` | `SRA/LIB/SHELL/LIB/hls/FMC/src/fmc.cpp:501-516` | a poll accepts exactly a complete new page |
| `XmemTransfer.InterleavedPoll` | `SRA/LIB/SHELL/LIB/hls/FMC/src/fmc.cpp:473-504` | a poll whose line reads interleave with the writes judges by first and last line; what it read is the page if and only if no changed line was read too early |
| `XmemTransfer.TornPageAccepted` | `SRA/LIB/SHELL/LIB/hls/FMC/src/fmc.cpp:473-504` | a schedule in which such a poll accepts a torn page |
| `FmcPlan.ManagementCore.ExecuteClear` | `SRA/LIB/SHELL/LIB/hls/FMC/src/fmc.cpp:3121-3124` | clearing resets the path and nothing else |
| `FmcPlan.ManagementCore.ExecuteCopy` | `SRA/LIB/SHELL/LIB/hls/FMC/src/fmc.cpp:2402-2443` | the page verdict becomes the one-hot return value |
| `FmcPlan.ManagementCore.ExecuteWrite` | `SRA/LIB/SHELL/LIB/hls/FMC/src/fmc.cpp:2620-2820` | the write fails without EOS, passes done on, and otherwise says whether the read pointer moved |
| `FmcPlan.ManagementCore.ExecuteClearTable` | `SRA/LIB/SHELL/LIB/hls/FMC/src/fmc.cpp:2989-2997` | the rows below the highest node id become zero, the version moves on, and a hand-over is requested |
| `FmcPlan.ManagementCore.Execute` | `SRA/LIB/SHELL/LIB/hls/FMC/src/fmc.cpp:2369-3171` | every opcode of the plan has the effect of its specification |
| `FmcPlan.ManagementCore.RunPlan` | `SRA/LIB/SHELL/LIB/hls/FMC/src/fmc.cpp:2339-2366` | the program loop with masks and silent skipping is the reference interpreter |
| `FmcPlan.ManagementCore.MakePlan` | `SRA/LIB/SHELL/LIB/hls/FMC/src/fmc.cpp:882-1134` | which program a call runs |
| `FmcPlan.ManagementCore.FinishCall` | `SRA/LIB/SHELL/LIB/hls/FMC/src/fmc.cpp:3197-3207` | the return value decides done and error; the port follows |
| `FmcPlan.ManagementCore.Step` | `SRA/LIB/SHELL/LIB/hls/FMC/src/fmc.cpp:819-3306` | one call, with the byte order and the last-page count of that call, is the specified transition, whenever the write loop stays in the buffer |
| `FmcSafety.PlanOutcome` | `SRA/LIB/SHELL/LIB/hls/FMC/src/fmc.cpp:1095-1132` | the net effect of the twelve-instruction plan for every page verdict |
| `FmcSafety.FirstPlan` | `SRA/LIB/SHELL/LIB/hls/FMC/src/fmc.cpp:965-974` | the first call clears the buffer and then runs the same plan |
| `FmcSafety.WritesAreDecoupled` | `SRA/LIB/SHELL/LIB/hls/FMC/src/fmc.cpp:1095-1106` | no call writes a word while decoupling is inactive |
| `FmcSafety.WriteReturnTells` | `SRA/LIB/SHELL/LIB/hls/FMC/src/fmc.cpp:2628-2778` | the return value of a write says not complete if and only if no whole word was there, or the whole buffer was taken in one turn |
| `FmcSafety.DecouplingDrops` | `SRA/LIB/SHELL/LIB/hls/FMC/src/fmc.cpp:1111-1120` | decoupling drops if and only if the call accepted the last page and wrote it |
| `FmcSafety.FinishClearsTable` | `SRA/LIB/SHELL/LIB/hls/FMC/src/fmc.cpp:1111-1120` | the routing table is cleared, under a new version, by exactly the call that finishes a transfer |
| `FmcSafety.FailureAborts` | `SRA/LIB/SHELL/LIB/hls/FMC/src/fmc.cpp:3146-3155` | a failing call issues one abort, writes nothing and keeps the role decoupled; no other call aborts |
| `FmcSafety.FailedUntilReset` | `SRA/LIB/SHELL/LIB/hls/FMC/src/fmc.cpp:1087-1093` | over every run of calls without reset a failed transfer writes nothing more and stays decoupled |
| `FmcSafety.InvAlways` | `SRA/LIB/SHELL/LIB/hls/FMC/src/fmc.cpp:882-3306` | the invariant over every sequence of calls, with the byte order and the last-page count of each call: decoupling, failure, and conservation of the accepted bytes in every transfer that cleared the buffer or continued one from which nothing was left and whose first wrap comes after whole words |
| `FmcSafety.CleanIsSound` | `SRA/LIB/SHELL/LIB/hls/FMC/src/fmc.cpp:965-974` | a transfer that cleared the buffer needs no further condition |
| `FmcSafety.PageStep` | `SRA/LIB/SHELL/LIB/hls/FMC/src/fmc.cpp:2402-2820` | one page in such a transfer: conservation, or completion with its exact exception |
| `FmcSafety.TransferIsClean` | `SRA/LIB/SHELL/LIB/hls/FMC/src/fmc.cpp:1080-1086` | a transfer clears the buffer if and only if the abort flag is low in its first call; otherwise it continues with the pointers where they are |
| `XmemUncleared.FullPageWrites` | `SRA/LIB/SHELL/LIB/hls/FMC/src/fmc.cpp:2628-2778` | what a full page writes for every position of the two pointers: bytes left in the buffer lead, and bytes before the read pointer are dropped |
| `XmemUncleared.KeptIff` | `SRA/LIB/SHELL/LIB/hls/FMC/src/fmc.cpp:2628-2778` | m full pages from given pointers are conserved, whatever they and the buffer hold, if and only if nothing is left to write and, once the buffer wraps, the pages up to the first wrap are whole words |
| `XmemUncleared.KeptPlainIff` | `SRA/LIB/SHELL/LIB/hls/FMC/src/fmc.cpp:2628-2778` | with the read pointer not behind the write pointer, the same equivalence for every content without newline patterns |
| `XmemUncleared.SoundConserves` | `SRA/LIB/SHELL/LIB/hls/FMC/src/fmc.cpp:2628-2778` | the sufficient half for all contents, with the byte order of each call |
| `FmcSafety.CallDefined` | `SRA/LIB/SHELL/LIB/hls/FMC/src/fmc.cpp:2628-2655` | a call stays in the buffer if and only if it does not accept a last page without bytes at the start of the buffer |
| `FmcSafety.PortMeans` | `SRA/LIB/SHELL/LIB/hls/FMC/src/fmc.cpp:3299-3306` | after every sequence of calls the port is high if and only if the latest plan did not finish its transfer or the HWICAP aborted in the last call |
| `FmcSafety.WordsBeforePort` | `SRA/LIB/SHELL/LIB/hls/FMC/src/fmc.cpp:3299-3306` | in every run: a call writes words while the port is low if and only if it has words to write, no unfinished plan ran before it, and the call before saw no abort |
| `FmcSafety.FirstPagePrecedesPort` | `SRA/LIB/SHELL/LIB/hls/FMC/src/fmc.cpp:1095-1120` | what the first call of a transfer writes before the port is raised; if its page is already the last, the port is never raised |
| `FmcTransfer.PollInStep` | `SRA/LIB/SHELL/LIB/hls/FMC/src/fmc.cpp:2402-2443` | the page verdict of a call is the one of the host protocol: count and accepted bytes stay those of the pages the host counts as accepted, in every transfer |
| `FmcTransfer.AlwaysInStep` | `SRA/LIB/SHELL/LIB/hls/FMC/src/fmc.cpp:464-535` | over every schedule of line writes and calls, host protocol and core agree on the page count and on the accepted bytes |
| `FmcTransfer.TransferDeliversPrefix` | `SRA/LIB/SHELL/LIB/hls/FMC/src/fmc.cpp:464-2820` | end to end, over every schedule, byte order and last-page count: the accepted bytes are those of a prefix of the pages sent; in a sound transfer the words written plus the buffered rest are those bytes, and after completion every word without a newline pattern is written unless the last page put exactly four bytes into a fresh buffer |
| `NalLink.LinkController.Step` | `SRA/LIB/SHELL/LIB/hls/FMC/src/fmc.cpp:3335-3413` | one call of the link FSM is the specified transition of FSM and link memory |
| `NalLink.LinkController.WriteMrtRow` | `SRA/LIB/SHELL/LIB/hls/FMC/src/fmc.cpp:3373-3384` | one row per call, the version after the last row |
| `NalLink.LinkController.ReadStatusWord` | `SRA/LIB/SHELL/LIB/hls/FMC/src/fmc.cpp:3386-3405` | one status word per call, compared after the last |
| `NalLink.A4lProcess.CopyConfigWord` | `SRA/LIB/SHELL/LIB/hls/NAL/src/hss.cpp:187-223` | one configuration word per call: a changed word is broadcast and only then stored (what is told and stored: NalBroadcast.BroadcastsAreStored) |
| `NalLink.A4lProcess.CopyMrtRow` | `SRA/LIB/SHELL/LIB/hls/NAL/src/hss.cpp:224-242` | a changed row is announced twice and stored |
| `NalLink.A4lProcess.CopyStatusWord` | `SRA/LIB/SHELL/LIB/hls/NAL/src/hss.cpp:243-251` | one status word per call reaches the link |
| `NalLink.A4lProcess.ApplyStatus` | `SRA/LIB/SHELL/LIB/hls/NAL/src/hss.cpp:176-186` | one queued status update per call |
| `NalLink.A4lProcess.FinishCopy` | `SRA/LIB/SHELL/LIB/hls/NAL/src/hss.cpp:252-271` | the version is acknowledged after the copy |
| `NalLink.A4lProcess.Broadcast` | `SRA/LIB/SHELL/LIB/hls/NAL/src/hss.cpp:276-337` | the configuration broadcast, with full streams |
| `NalLink.A4lProcess.BroadcastVersion` | `SRA/LIB/SHELL/LIB/hls/NAL/src/hss.cpp:341-364` | the version broadcast, with full streams |
| `NalBroadcast.CarriesAlways` | `SRA/LIB/SHELL/LIB/hls/NAL/src/hss.cpp:187-327` | in every run a running broadcast carries the word that is being stored, on the way that its address asks for |
| `NalBroadcast.RunTells` | `SRA/LIB/SHELL/LIB/hls/NAL/src/hss.cpp:187-337` | in every run: what a listener was told is what was stored for it, then at most the word about to be stored |
| `NalBroadcast.BroadcastsAreStored` | `SRA/LIB/SHELL/LIB/hls/NAL/src/hss.cpp:187-337` | in every run: the UDP receiver, the TCP receiver and the status memory are told exactly the stored ranks, the port process exactly the stored port words, once and in order, and the stored words make up the configuration |
| `NalBroadcast.VersionsAreSent` | `SRA/LIB/SHELL/LIB/hls/NAL/src/hss.cpp:252-364` | in every run the cache invalidation and the status memory are each sent exactly the acknowledged versions, once and in order |
| `NalBroadcast.FullStreamsUnwritten` | `SRA/LIB/SHELL/LIB/hls/NAL/src/hss.cpp:303-364` | neither the copier nor the status memory adds to a stream without room |
| `NalLink.A4lProcess.Step` | `SRA/LIB/SHELL/LIB/hls/NAL/src/hss.cpp:156-366` | the three switches of one call are the specified transition |
| `NalStatus.StatusMemory.CheckDifference` | `SRA/LIB/SHELL/LIB/hls/NAL/src/nal.cpp:348-402` | the scan refreshes the computed words and announces the word at the index if it changed and there is room |
| `NalStatus.StatusMemory.Step` | `SRA/LIB/SHELL/LIB/hls/NAL/src/nal.cpp:249-404` | one call is the specified transition, with the priorities of its inputs |
| `NalStatus.MrtAgency.FindNodeId` | `SRA/LIB/SHELL/LIB/hls/NAL/src/hss.cpp:476-491` | the first row with the address, or the invalid value |
| `NalStatus.MrtAgency.FindIp` | `SRA/LIB/SHELL/LIB/hls/NAL/src/hss.cpp:446-459` | the row of the rank, or zero for a rank outside the table |
| `NalStatus.NodeIdUnique` | `SRA/LIB/SHELL/LIB/hls/NAL/src/hss.cpp:476-491` | an address has one such node id |
| `NalStatus.MrtAgency.Step` | `SRA/LIB/SHELL/LIB/hls/NAL/src/hss.cpp:440-508` | an update is applied first; otherwise one request is taken from its stream and its reply written to the reply stream of the same stream |
| `NalLookups.FirstReadyAnswered` | `SRA/LIB/SHELL/LIB/hls/NAL/src/hss.cpp:440-508` | a call without an update answers exactly the first of the four streams that has a request and room |
| `NalLookups.RepliesServe` | `SRA/LIB/SHELL/LIB/hls/NAL/src/hss.cpp:440-508` | in every run that keeps a handed-over table, each of the four streams gets the right replies to its own requests, in order |
| `NalLookups.RepliesAfterReadBack` | `SRA/LIB/SHELL/LIB/hls/NAL/src/hss.cpp:440-508` | the same after any run from power-up in which the core has read back its version: a rank gets its row, an address the first row that holds it |
| `NalLink.ClearLeavesLastRow` | `SRA/LIB/SHELL/LIB/hls/FMC/src/fmc.cpp:2992-2995` | a clear leaves the known rows all zero if and only if the row of the highest node id was zero already |
| `NalHandover.FmcKeepsHandover` | `SRA/LIB/SHELL/LIB/hls/FMC/src/fmc.cpp:3335-3413` | the core keeps the hand-over invariant |
| `NalHandover.A4lKeepsHandover` | `SRA/LIB/SHELL/LIB/hls/NAL/src/hss.cpp:187-272` | the copier keeps the hand-over invariant |
| `NalHandover.ChangeKeepsHandover` | `SRA/LIB/SHELL/LIB/hls/FMC/src/fmc.cpp:2911-2975` | a table change with a fresh version that leaves the rows already copied alone keeps it |
| `NalHandover.RunKeeps` | `SRA/LIB/SHELL/LIB/hls/NAL/src/hss.cpp:156-366` | every interleaving keeps hand-over, agency and status invariants |
| `NalHandover.ReadBackMeansHandedOver` | `SRA/LIB/SHELL/LIB/hls/FMC/src/fmc.cpp:3386-3405` | if the core reads back its own version, the table copied by the other side is the core's; with no queued update a rank lookup gives the core's row if and only if the row is not the marker value or was announced, and zero otherwise |
| `NalHandover.ReverseServed` | `SRA/LIB/SHELL/LIB/hls/NAL/src/hss.cpp:470-508` | a reverse lookup gives the first row of the core's table with the address; for an address that the core does not have, the invalid value or a row above the highest node id; zero and the marker value need every row announced |
| `NalHandover.ReadBackMeansFound` | `SRA/LIB/SHELL/LIB/hls/NAL/src/hss.cpp:470-508` | the same in every run once the core has read back its own version |
| `NalHandover.MarkerRowNotServed` | `SRA/LIB/SHELL/LIB/hls/NAL/src/hss.cpp:224-242` | a concrete start after which row 0 with the marker value is never announced, in every run that keeps it |
| `NalHandover.NeverAnnounced` | `SRA/LIB/SHELL/LIB/hls/NAL/src/hss.cpp:224-242` | any row that holds the marker value everywhere stays unannounced |
| `NalHandover.MissingRowHides` | `SRA/LIB/SHELL/LIB/hls/NAL/src/hss.cpp:440-508` | the address of such a row is not found, and zero is found there |
| `NalHandover.BroadcastMeansHandedOver` | `SRA/LIB/SHELL/LIB/hls/NAL/src/hss.cpp:252-271` | the same from the moment the version is broadcast |
| `NalHandover.ChangeDuringUpdateMixes` | `SRA/LIB/SHELL/LIB/hls/FMC/src/fmc.cpp:3373-3384` | a table changed at any point of a running update is published under its new version, and the published rows are its rows if and only if the change kept every row already copied |
| `NalHandover.ClearDuringUpdateMixes` | `SRA/LIB/SHELL/LIB/hls/FMC/src/fmc.cpp:2989-2997` | the clear at the end of a reconfiguration is published mixed if and only if a row already copied was not zero |
| `NalHandover.FreshFromPowerUp` | `SRA/LIB/SHELL/LIB/hls/FMC/src/fmc.cpp:2911-2917` | from cleared registers and with fewer than 2^32 table changes, versions are fresh and every such run is allowed |
| `NalProgress.PublishesInTime` | `SRA/LIB/SHELL/LIB/hls/FMC/src/fmc.cpp:3335-3384` | at most 88 calls of the core publish the version, under every interleaving |
| `NalProgress.AcknowledgesInTime` | `SRA/LIB/SHELL/LIB/hls/NAL/src/hss.cpp:156-366` | then boundedly many calls of the copier with room bring it through a copy pass and broadcast it |
| `NalProgress.ConsumesInTime` | `SRA/LIB/SHELL/LIB/hls/NAL/src/nal.cpp:249-404` | then the status memory takes every queued input |
| `NalProgress.ReadsInTime` | `SRA/LIB/SHELL/LIB/hls/FMC/src/fmc.cpp:3386-3405` | once the link shows the version, at most 115 calls of the core with the check interval passed read it back |
| `NalProgress.HandoverReturns` | `SRA/LIB/SHELL/LIB/hls/FMC/src/fmc.cpp:3335-3413` | progress of the hand-over: after any run, such schedules end with the core reading back its own version |
| `NalRank.PublishesRank` | `SRA/LIB/SHELL/LIB/hls/FMC/src/fmc.cpp:3347-3371` | at most 88 calls of the core publish the rank, under every interleaving |
| `NalRank.StoresRank` | `SRA/LIB/SHELL/LIB/hls/NAL/src/hss.cpp:156-337` | then boundedly many calls of the copier with room broadcast and store it |
| `NalRank.TakesRank` | `SRA/LIB/SHELL/LIB/hls/NAL/src/nal.cpp:266-279` | then the status memory takes every queued update |
| `NalRank.ReadsRank` | `SRA/LIB/SHELL/LIB/hls/FMC/src/fmc.cpp:3386-3405` | once the link shows the rank, at most 115 calls of the core with the check interval passed read it back |
| `NalRank.RankReturns` | `SRA/LIB/SHELL/LIB/hls/FMC/src/fmc.cpp:3347-3405` | after any run and a change of the rank, the schedules of the hand-over end with the new rank in status word 13 at the core |
| `NalNotices.VersionNoticed` | `SRA/LIB/SHELL/LIB/hls/FMC/src/fmc.cpp:3386-3395` | while the link shows another version, boundedly many calls of the core make table and configuration due again, whatever the other processes do |
| `NalNotices.RankNoticed` | `SRA/LIB/SHELL/LIB/hls/FMC/src/fmc.cpp:3386-3402` | while the link shows another rank, they make the configuration due again |
| `NalNotices.PortsSaved` | `SRA/LIB/SHELL/LIB/hls/FMC/src/fmc.cpp:3386-3412` | while the link shows the core's version and rank, they lead to the saving of the port words |
| `NalNotices.RestsBetweenChecks` | `SRA/LIB/SHELL/LIB/hls/FMC/src/fmc.cpp:3347-3361` | with nothing to hand over, the core leaves the link alone until the check interval has passed, in every schedule |
| `NalPorts.NoticeStored` | `SRA/LIB/SHELL/LIB/hls/NAL/src/nal.cpp:279-294` | a port notification sets the status word of its kind and no other |
| `NalPorts.StatusReadWhole` | `SRA/LIB/SHELL/LIB/hls/FMC/src/fmc.cpp:3386-3405` | sixteen calls read the whole status region; the port words are then saved if and only if version and rank are the core's, and otherwise what differs is due again |
| `NalPorts.SavedWordsPublished` | `SRA/LIB/SHELL/LIB/hls/FMC/src/fmc.cpp:3363-3412` | the core saves status words 1, 2 and 3 and publishes them as configuration words 2, 3 and 4, beside the rank, and changes no other word |
| `NalPorts.ConfigWordRestores` | `SRA/LIB/SHELL/LIB/hls/NAL/src/hss.cpp:607-636` | such a word becomes the record of its kind if that is zero, whatever the other inputs, and changes no other record |
| `NalHandover.StatusReplicated` | `SRA/LIB/SHELL/LIB/hls/NAL/src/hss.cpp:243-251` | queued updates applied to the copied status give the last announced status; after a copy with nothing pending the link shows the status memory |
| `NalHandover.SixteenScansSettle` | `SRA/LIB/SHELL/LIB/hls/NAL/src/nal.cpp:383-401` | sixteen idle scans announce every change |
| `NalSettles.CountersAnnounced` | `SRA/LIB/SHELL/LIB/hls/NAL/src/nal.cpp:251-401` | after an event or a reset, sixteen scans announce the computed words at their nine addresses and leave the other words |
| `NalSettles.SubsAdvance` | `SRA/LIB/SHELL/LIB/hls/NAL/src/hss.cpp:276-365` | each broadcast state machine comes strictly closer to its waiting state in a call with room |
| `NalSettles.PassAdvances` | `SRA/LIB/SHELL/LIB/hls/NAL/src/hss.cpp:156-366` | a call never lengthens the current copy pass, and with room shortens it |
| `NalSettles.StepAdvances` | `SRA/LIB/SHELL/LIB/hls/NAL/src/hss.cpp:156-366` | no step of any process that leaves the status words alone moves the link away from showing them |
| `NalSettles.CalmSettles` | `SRA/LIB/SHELL/LIB/hls/NAL/src/hss.cpp:176-251` | progress: with every change announced, at most 397 calls with room plus one per queued update make the link show the status memory, under every interleaving |
| `NalSettles.ScansInterleave` | `SRA/LIB/SHELL/LIB/hls/NAL/src/nal.cpp:383-401` | scans work on the status memory as consecutive ones do, whatever other calls lie between them |
| `NalSettles.StatusConverges` | `SRA/LIB/SHELL/LIB/hls/NAL/src/nal.cpp:383-401` | the same from power-up: after any run, sixteen scans anywhere in a schedule, a drain and a copy pass make the link status region equal the status words |
| `SessionTable.First` | `SRA/LIB/SHELL/LIB/hls/NAL/src/hss.cpp:1083-1093` | the search loops stop at the first matching row |
| `SessionTable.TcpAgency.GetTripleFromSid` | `SRA/LIB/SHELL/LIB/hls/NAL/src/hss.cpp:1076-1099` | the triple of the first live row with the id, or the unused value |
| `SessionTable.TcpAgency.GetSidFromTriple` | `SRA/LIB/SHELL/LIB/hls/NAL/src/hss.cpp:1100-1123` | the id of the first live row with the triple, or the unused value |
| `SessionTable.TcpAgency.AddNewTriple` | `SRA/LIB/SHELL/LIB/hls/NAL/src/hss.cpp:1127-1182` | a live id is skipped, otherwise the first unused row is filled; fails only on a full table |
| `SessionTable.TcpAgency.DeleteEntryBySid` | `SRA/LIB/SHELL/LIB/hls/NAL/src/hss.cpp:1183-1200` | the first used row with the id is freed, its mark is left |
| `SessionTable.TcpAgency.MarkAsPriv` | `SRA/LIB/SHELL/LIB/hls/NAL/src/hss.cpp:1201-1215` | the first used row with the id becomes privileged and unmarked, marked before or not (SessionRuns.PrivilegeHolds) |
| `SessionTable.TcpAgency.MarkToDelUnpriv` | `SRA/LIB/SHELL/LIB/hls/NAL/src/hss.cpp:1216-1230` | every row without privilege takes its mark from its used flag |
| `SessionTable.TcpAgency.GetNextDelRow` | `SRA/LIB/SHELL/LIB/hls/NAL/src/hss.cpp:1231-1262` | the first marked row is freed, unmarked and returned |
| `SessionRuns.FlagsAlways` | `SRA/LIB/SHELL/LIB/hls/NAL/src/hss.cpp:1127-1262` | in every reachable state no row is privileged and marked, and privileged rows are used |
| `SessionRuns.SessionDrain` | `SRA/LIB/SHELL/LIB/hls/NAL/src/hss.cpp:1216-1262` | after a mark, next-delete requests return exactly the used unprivileged ids in row order, then 0xFFFE; lookups do not change meanwhile |
| `SessionRuns.SessionDrainInterleaved` | `SRA/LIB/SHELL/LIB/hls/NAL/src/hss.cpp:1076-1262` | the same with adds, deletes, lookups and privilege requests between them: sessions made privileged before their turn are left out |
| `SessionRuns.PrivilegeSurvivesMark` | `SRA/LIB/SHELL/LIB/hls/NAL/src/hss.cpp:1201-1230` | a mark request right after a privilege request keeps that session and marks every other used one without privilege |
| `SessionRuns.PrivilegeHolds` | `SRA/LIB/SHELL/LIB/hls/NAL/src/hss.cpp:1127-1262` | from a privilege request for a stored session until its deletion, through all requests and any number of mark requests: it resolves to its triple, is never marked, and no next-delete request returns it |
| `SessionRuns.DrainReturnsMarked` | `SRA/LIB/SHELL/LIB/hls/NAL/src/hss.cpp:1231-1262` | from any table, draining returns the marked ids in row order, each once |
| `SessionRuns.AddKeepsUnique` | `SRA/LIB/SHELL/LIB/hls/NAL/src/hss.cpp:1144-1182` | adding keeps ids unique if and only if the id is live, the table is full, or no marked row holds it |
| `SessionRuns.DeleteKeepsFree` | `SRA/LIB/SHELL/LIB/hls/NAL/src/hss.cpp:1183-1200` | deleting leaves free rows unmarked if and only if the freed row was unmarked |
| `SessionRuns.MarkedFreeRowHidesNewSession` | `SRA/LIB/SHELL/LIB/hls/NAL/src/hss.cpp:1160-1177` | a free row that stayed marked hides the next session stored in it and the next drain closes it |
| `SessionRuns.NewSessionUnprivileged` | `SRA/LIB/SHELL/LIB/hls/NAL/src/hss.cpp:1160-1177` | a stored session has no privilege, whatever its row held before: the next mark request marks it |
| `SessionRuns.RefinesMap` | `SRA/LIB/SHELL/LIB/hls/NAL/src/hss.cpp:1076-1262` | every request is the corresponding operation on a bounded partial map; a privilege request brings a marked session back into it |
| `SessionRuns.LookupReadsMap` | `SRA/LIB/SHELL/LIB/hls/NAL/src/hss.cpp:1076-1099` | lookups read the map |
| `SessionRuns.IdFromTriple` | `SRA/LIB/SHELL/LIB/hls/NAL/src/hss.cpp:1100-1123` | from the id to the triple and back |
| `SessionRuns.TripleFromId` | `SRA/LIB/SHELL/LIB/hls/NAL/src/hss.cpp:1100-1123` | from the triple to the id and back; a triple on no live row has no id |
| `SessionRuns.TableAlways` | `SRA/LIB/SHELL/LIB/hls/NAL/src/hss.cpp:1076-1262` | the representation invariant over every run of such requests |
| `PortBits.GetRightmostBitPos` | `SRA/LIB/SHELL/LIB/hls/NAL/src/nal.cpp:43-60` | the position of the lowest set bit for every nonzero vector, 0 for zero |
| `PortBits.Lowest` | `SRA/LIB/SHELL/LIB/hls/NAL/src/nal.cpp:43-60` | bit p is set and no lower bit is |
| `PortBits.IsolatesLowest` | `SRA/LIB/SHELL/LIB/hls/NAL/src/nal.cpp:46-46` | num & -num keeps the lowest set bit alone |
| `PortBits.PortsAreBits` | `SRA/LIB/SHELL/LIB/hls/NAL/src/hss.cpp:788-807` | the listed positions are exactly the set bits |
| `PortBits.PortsAscend` | `SRA/LIB/SHELL/LIB/hls/NAL/src/hss.cpp:788-807` | they are listed in strictly ascending order |
| `PortVectors.MissingComputed` | `SRA/LIB/SHELL/LIB/hls/NAL/src/hss.cpp:791-792` | the FSM's difference is the set of bits in the target and not in the record |
| `PortVectors.Low16Is` | `SRA/LIB/SHELL/LIB/hls/NAL/src/hss.cpp:618-618` | a saved management port is cut to 16 bits |
| `PortLogic.PortOfIs` | `SRA/LIB/SHELL/LIB/hls/NAL/src/hss.cpp:797-800` | port 2718 + p is requested for bit p |
| `PortLogic.PortProcess.RestoreSaved` | `SRA/LIB/SHELL/LIB/hls/NAL/src/hss.cpp:607-636` | a saved word is restored only into a zero record |
| `PortLogic.PortProcess.LeaveIdle` | `SRA/LIB/SHELL/LIB/hls/NAL/src/hss.cpp:606-658` | the priorities of the idle state |
| `PortLogic.PortProcess.ResetLayer4` | `SRA/LIB/SHELL/LIB/hls/NAL/src/hss.cpp:659-690` | one notification per nonzero record, then all records zero |
| `PortLogic.PortProcess.CloseUdpPort` | `SRA/LIB/SHELL/LIB/hls/NAL/src/hss.cpp:708-730` | the lowest recorded port is closed |
| `PortLogic.PortProcess.CloseTcp` | `SRA/LIB/SHELL/LIB/hls/NAL/src/hss.cpp:735-761` | marking, waiting for the reconfiguration, starting to close |
| `PortLogic.PortProcess.RequestUdp` | `SRA/LIB/SHELL/LIB/hls/NAL/src/hss.cpp:788-807` | the lowest missing bit is requested, or the record becomes the target |
| `PortLogic.PortProcess.RequestTcp` | `SRA/LIB/SHELL/LIB/hls/NAL/src/hss.cpp:825-844` | the same for TCP |
| `PortLogic.PortProcess.Answer` | `SRA/LIB/SHELL/LIB/hls/NAL/src/hss.cpp:772-861` | a confirmed bit enters the record, a refused one does not, and the record after it is what will be notified (PortReports.NotificationsTell) |
| `PortLogic.PortProcess.Call` | `SRA/LIB/SHELL/LIB/hls/NAL/src/hss.cpp:595-869` | one call is the specified transition |
| `PortRuns.InvFromPowerUp` | `SRA/LIB/SHELL/LIB/hls/NAL/src/hss.cpp:595-869` | for all inputs: one outstanding request exactly in the reply states, every UDP bit confirmed or restored, marks and start-closes balanced |
| `PortRuns.MarksAlternate` | `SRA/LIB/SHELL/LIB/hls/NAL/src/hss.cpp:735-761` | each call keeps the alternation of mark and start-close signals |
| `PortRuns.SignalsAlternate` | `SRA/LIB/SHELL/LIB/hls/NAL/src/hss.cpp:735-761` | in every run the mark and start-close signals alternate, beginning with a mark |
| `PortRuns.ReconfigurationFirst` | `SRA/LIB/SHELL/LIB/hls/NAL/src/hss.cpp:735-761` | in every run a start-close signal whose mark was sent while the role was decoupled comes after a call that found it released |
| `PortRuns.FullStreamsUnwritten` | `SRA/LIB/SHELL/LIB/hls/NAL/src/hss.cpp:595-869` | no call writes to an output stream without room |
| `PortRuns.L4ResetClears` | `SRA/LIB/SHELL/LIB/hls/NAL/src/hss.cpp:659-690` | leaving the layer-4 reset all records are zero |
| `PortRuns.ClosingSweep` | `SRA/LIB/SHELL/LIB/hls/NAL/src/hss.cpp:708-730` | over every schedule each recorded UDP port is closed once, ascending |
| `PortRuns.RequestsAnswered` | `SRA/LIB/SHELL/LIB/hls/NAL/src/hss.cpp:763-861` | in every run the open requests sent outnumber the replies read by one exactly while a reply is awaited, and are equal otherwise |
| `PortRuns.CallTallied` | `SRA/LIB/SHELL/LIB/hls/NAL/src/hss.cpp:763-861` | a request is sent only when none is outstanding |
| `PortRuns.StabilizesFirst` | `SRA/LIB/SHELL/LIB/hls/NAL/src/hss.cpp:598-605` | after power-up nothing is sent for as many calls as the counter says, whatever the inputs |
| `PortReports.UpdateTellsRecord` | `SRA/LIB/SHELL/LIB/hls/NAL/src/hss.cpp:708-868` | in every run a pending notification carries the record of its kind |
| `PortReports.NotificationsTell` | `SRA/LIB/SHELL/LIB/hls/NAL/src/hss.cpp:595-869` | in every run the record of each kind is what was last notified if and only if no value was set silently since, or the same one: a restored word, a dropped surplus, the end of a layer-4 reset with a full stream |
| `PortRefused.RefusedKeepsRecords` | `SRA/LIB/SHELL/LIB/hls/NAL/src/hss.cpp:772-861` | a refused request leaves all three records and is reported with the unchanged one |
| `PortRefused.RefusedRetries` | `SRA/LIB/SHELL/LIB/hls/NAL/src/hss.cpp:606-868` | over every schedule of refusals the records stay and every request is the one for the first missing port |
| `PortCloses.CallLeaves` | `SRA/LIB/SHELL/LIB/hls/NAL/src/hss.cpp:691-761` | one call of the closing sequence: closes and marks to come are used up in order, nothing is opened or set silently |
| `PortCloses.RoleLeft` | `SRA/LIB/SHELL/LIB/hls/NAL/src/hss.cpp:642-761` | over every schedule with the role disabled or decoupled: each recorded UDP port is closed once, one mark and one start-close are sent if TCP ports were recorded, nothing is opened, and both records end up zero and reported |
| `PortCloses.NetworkLost` | `SRA/LIB/SHELL/LIB/hls/NAL/src/hss.cpp:638-690` | over every schedule without the network: nothing is requested or closed, and the three records end up zero and reported |
| `PortConverges.CallAdvances` | `SRA/LIB/SHELL/LIB/hls/NAL/src/hss.cpp:606-868` | one call of the opening sequence, whether it waits or not: requests sent and still to send are unchanged together, nothing is closed, a call that does not wait brings the end one call closer |
| `PortConverges.OpeningSweep` | `SRA/LIB/SHELL/LIB/hls/NAL/src/hss.cpp:606-868` | the same over every schedule of late replies and full streams |
| `PortConverges.PortsConverge` | `SRA/LIB/SHELL/LIB/hls/NAL/src/hss.cpp:606-868` | after enough calls that do not wait: the management port, exactly the missing UDP bits and then the missing TCP bits were requested, ascending, once each, and the records are the targets |
| `PortConverges.SurplusDropped` | `SRA/LIB/SHELL/LIB/hls/NAL/src/hss.cpp:802-806` | with bits missing or not, the ports closed on the way to a new target are those of the surplus if and only if there is none |
| `PortConverges.ManagementFirst` | `SRA/LIB/SHELL/LIB/hls/NAL/src/hss.cpp:638-645` | whether or not the role is enabled, the management port is open after three calls that do not wait, and stays open |
| `NumberText.StrRev` | `SRA/LIB/SHELL/LIB/hls/FMC/src/http.cpp:93-115` | the characters before the terminator are reversed in place, the rest is unchanged |
| `NumberText.OutBuffer.FillDigits` | `SRA/LIB/SHELL/LIB/hls/FMC/src/http.cpp:121-134` | the digit loop produces the digits, least significant first, within 64 rounds |
| `NumberText.OutBuffer.WriteUnsignedLong` | `SRA/LIB/SHELL/LIB/hls/FMC/src/http.cpp:119-150` | the digits of the number are appended to the output |
| `NumberText.DigitsMean` | `SRA/LIB/SHELL/LIB/hls/FMC/src/http.cpp:119-150` | the digits evaluate to the number in every base from 2 to 36 |
| `NumberText.DigitCount` | `SRA/LIB/SHELL/LIB/hls/FMC/src/http.cpp:130-130` | a number of k bits has at most k digits |
| `NumberText.MyAtoi` | `SRA/LIB/SHELL/LIB/hls/FMC/src/http.cpp:177-187` | the parse loop returns the decimal reading |
| `NumberText.ParsedDigits` | `SRA/LIB/SHELL/LIB/hls/FMC/src/http.cpp:177-187` | parsing the decimal digits gives back the number, with all intermediate values between 0 and it |
| `NumberText.WriteThenParse` | `SRA/LIB/SHELL/LIB/hls/FMC/src/http.cpp:119-187` | what was written below 2^31 is read back |

## Left out

- Code that the repository does not hold: the TOE and the UOE; open requests are answered by an environment.
- HLS pragmas, printing, file readers and writers, the display registers and the status text page.
- HWICAP registers other than data writes, the abort write, EOS, the abort flag and the vacancy value; the fake-HWICAP flag.
- The HTTP modes of `OP_BUFFER_TO_HWICAP`, the check-pattern mode, Pyrolink and manual decoupling; `parseHTTP` is 0 throughout a transfer.
- The HTTP header parser and the opcodes that answer requests; the TCP path is modelled from the opening program to the end of one transfer.
- Reading from a FIFO that reports data never fails, and the unbounded stream writes of the AXI process never block.
- The arithmetic of the event counters: the nine status words computed from them change arbitrarily.
- The consumers of configuration updates other than the port FSM and the status memory.
- The cache invalidation itself; what it is sent is part of the model (`NalBroadcast.VersionsAreSent`).
- Tables that change without a version change (partial or rejected routing tables).
- The priority among the request streams of the session table: runs are arbitrary sequences of requests, which covers it.
- The quadword-aligned branch of `addIpPayload`, `addTcpPayload`, `addUdpPayload` and the ICMP checksum, whose code does not meet the round-trip or checksum claims.
- ARP and ICMP payloads, header field setters and getters other than those the checksums use, `Cam8`, `Cam16`, the keep tables and byte swaps as members of their own.
- NumberText.MyAtoi: requires intermediate values in the range of `int`, because C leaves the result undefined outside it.
- NumberText.OutBuffer.WriteUnsignedLong: requires room in the output buffer, which the source asserts.
- SimPackets.SimPacket.AddIpPayload: requires a packet that ends in the middle of a chunk, as every header with an odd number of words does; the quadword-aligned branch never pulls a second chunk.
- FmcPlan.ManagementCore.Step: requires that the write loop stays in the buffer, because C leaves it undefined outside; `FmcSafety.CallDefined` is the exact condition.
- XmemPath.XmemBuffer.WriteBuffer: requires an end pointer inside the buffer, for the same reason.
- A routing table shared by the plan interpreter and the link FSM: each has its own copy in its state, and `NalHandover.ClearDuringUpdateMixes` applies the clear of the first to the second.
