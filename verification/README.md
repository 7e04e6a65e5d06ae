# A verified model of the Cubesat Space Protocol stack

This project models the protocol logic of a small-satellite network stack (the Cubesat Space
Protocol on an MSP430) and proves what that logic is for: that a byte stream on a serial link
delivers exactly the packets that were sent, that no packet buffer is lost and none is in two
places, that applications are given exactly what the router delivered to them, in order, that
connections cannot be confused, that packets go where the forwarding rule says, that fragments
come together again or not at all, and that the checksum, the hash and the authentication code
are those of their standards.

`dafny verify dfyconfig.toml` checks everything.

## How the model is laid out

One module per component, and inside it the form the C code has. Code that changes memory step
by step is a class with methods and loops; each method is tied to a function on values, and the
laws are proved about that function.

| module | models | main result |
|---|---|---|
| `Crc32` | the table-driven CRC-32C | the loop is bitwise polynomial division; the value is a remainder; bursts are detected |
| `CspId`, `Packet` | header formats, packet buffer, trailing checksum | headers are bijections on fields that fit, and each field has its place in them; no operation disturbs the payload |
| `Kiss` | the serial link | what arrives of every packet, chunking, conservation of buffers, self-stabilisation |
| `Sha1`, `Hmac` | hash and authentication code | the buffered, unrolled code is FIPS 180-4 and RFC 2104 |
| `Sha1Rows`, `KnownAnswers` | the same, for given messages | the known answers of the standards, proved round by round |
| `Sfp` | fragmentation | over a channel that loses, repeats and reorders: the data or an error, and every buffer read is released |
| `StaticQueue` | the byte-array queue | first in, first out |
| `BufferPool` | reference-counted buffers | balanced books, one reference a buffer unless a second one is asked for |
| `RouteTable`, `IfList`, `Forward`, `Outgoing` | routes, subnets, `csp_send_direct` | the forwarding rule, also in terms of address prefixes instead of masks |
| `Dedup` | duplicate suppression | exactly when the early exit agrees with a plain history, for every clock |
| `Port`, `Conn`, `Router` | ports, connections, the router's decisions | unique match, one outcome for every packet |
| `Runs`, `Node` | runs of a node on values, and the node itself | conservation, accept exactly once, queues in order, over all runs |
| `Deliveries` | buffers and packets over runs of a node | no buffer in two places; the application is given exactly what the router delivered, in order |
| `EndToEnd` | sender, link and receiver together | exactly which packets arrive as they were sent |

`Node.Node` is the composition: the router's queue, the pool, the connection table, the ports,
the routing table and the duplicate ring in one object, with methods for every step the router,
the application and the drivers can take. Its field `app` counts the references the application
holds, `drivers` those the drivers hold, `handles` the connections the application may use, and
`sent` lists every packet ever given to a driver.

`Runs` says on values what a state of a node is (`Runs.Snapshot`), what each step does to it and
tells (`Runs.Transition`), and what a run is (`Runs.Follows`). A transition is about the whole
state: queues, connections, who holds which buffer, packets, bound ports and the duplicate
history; it leaves open which free buffer or slot is taken, what the drivers answer, and what
the buffers say that a sending used and gave back. `Node.Node.Run` shows that the node, whatever it is asked in whatever order, goes through
such a run and returns its events; the theorems about runs are lemmas of `Runs` and `Deliveries`.

## Where the code differs from its comments and names

Each of these is measured against what the source itself says: its comments, the names of its
functions and constants, or the limits it checks elsewhere.

- KISS (src/interfaces/csp_if_kiss.c:81): the overflow test runs before the closing FEND is
  looked at. Of the payloads the transmitter accepts, those of at most `CSP_BUFFER_SIZE - 5`
  bytes get through, and no others (`Kiss.LinkDeliversExactly`). `CSP_BUFFER_SIZE - 4` and
  `CSP_BUFFER_SIZE` bytes are lost (`Kiss.FullBufferIsLost`). In between the transmitter finds no
  room for a checksum and sends none (src/interfaces/csp_if_kiss.c:32 ignores the failure), and
  the receiver takes the last four bytes for one: a payload that ends in its own checksum arrives
  four bytes short (`Kiss.LongPayloadArrivesShort`), any other not at all (`Kiss.ArrivesByLength`).
- So a packet with a checksum of its own arrives as it was sent exactly if data and checksum
  leave five bytes free (`EndToEnd.GetsWhatWasSent`); a little longer, the link consumes its
  checksum and the receiving node then misses it (`EndToEnd.OwnChecksumConsumed`).
- The header codec packs without masking: the round trip holds exactly for ids whose fields fit
  their widths (`CspId.ParseHeader`).
- Following a route backward compares stored addresses including their host bits. It visits all
  best routes exactly when they are stored under the same address (`RouteTable.VisitsAllMaximal`);
  `RouteTable.HostBitsHideRoutes` is a table where one is missed.
- The duplicate window is `CSP_DEDUP_WINDOW_MS` (src/csp_dedup.c:11), but stamps and window are
  added up in 32 bits, and the scan stops at the first entry that looks too old. It misses a recent
  packet if the clock runs backward (`Dedup.EarlyExitMisses`) and if the clock is about to wrap
  (`Dedup.EarlyExitMissesAtWrap`). After a wrap it takes an entry from before the wrap for recent
  (`Dedup.StaleTakenForRecent`), and since what is dropped is not recorded, the same packet is
  dropped again and again for as long as no other packets push that entry out
  (`Dedup.DroppedAgainAndAgain`). Against a plain list that counts ages modulo 2^32, every question
  is answered correctly exactly if each recent entry behind the first one that looks too old recurs
  in front of it, and each entry in front of it is recent or recurs as one that is
  (`Dedup.EarlyExitExact`); clocks that neither run backward nor wrap see to that
  (`Dedup.EarlyExitSound`).
- `csp_rtable_set` stores a new key into a full table behind the array; it does so exactly if the
  table is full and has no entry for the key (`RouteTable.RoutingTable.Set`).
- A fragmented block that the receiver has no memory for is sent all the same and answered with an
  error when its first packet arrives (`Sfp.NoRoomForBlock`).
- A packet that arrives on an interface without a prefix is never forwarded
  (`Forward.UnmaskedArrivalStops`): every address counts as being in that interface's subnet.
- A packet of our own without a source keeps the address of the first interface it leaves by, on
  routes (`Forward.FirstAddressSticks`) and on default interfaces
  (`Forward.FirstDefaultAddressSticks`), and the connection keeps it for later packets
  (`Node.Node.Send`). On local subnets each copy gets its own interface's address.
- `csp_hmac_verify` with the header included shortens the frame but not `length`
  (src/crypto/csp_hmac.c:154-190), as `Hmac.Verify` states.
- Comments say that the checksum covers the header since version 2.1, but `CSP_21` is defined
  nowhere: appending covers the data, verifying tries header and data first, then data alone.
  `Packet.DamageAcceptedOnlyByHeader` says exactly when a damaged packet still passes, and
  `Packet.DamagedPacketPasses` is one that does.

## Assumptions

- The configuration is that of include/csp/autoconfig.h: the routing table is on; RDP, HMAC in
  the router, and promiscuous mode are off. `CSP_BUFFER_SIZE`, `CSP_QFIFO_LEN`,
  `CSP_CONN_RXQUEUE_LEN`, `CSP_PORT_MAX_BIND` and the numbers of buffers, connections, sockets
  and interfaces are arbitrary. There are at most `63 - CSP_PORT_MAX_BIND` connections; the
  preprocessor guard in src/csp_conn.c:14-17 compares the other way round and does not enforce it.
- Every step (one call of the router, the application or a driver) is atomic.
- The application and the drivers use what they were given: they free, send or close only what
  they hold. A close by somebody without the handle is not part of the model.
- Interfaces and routes are set up before traffic starts; interface prefixes are no longer than
  an address; sockets have their queue (`csp_listen`) before they are bound.
- A driver's `nexthop` takes the packet on success and leaves it on error; which of the two
  happens is left open. The clock is a parameter.

## Model

| member | source | states |
|---|---|---|
| `Crc32.TableEntry` | src/csp_crc32.c:12-45 | every table entry is its index shifted through eight steps of division by the generator |
| `Crc32.ByteStepDivides` | src/csp_crc32.c:54-66 | one table look-up equals dividing by eight bits, for every register and byte |
| `Crc32.Update` | src/csp_crc32.c:54-66 | the loop over bytes is bit-by-bit reflected polynomial division of the whole string |
| `Crc32.Memory` | src/csp_crc32.c:78-86 | the value of `csp_crc32_memory` is the specified CRC-32C |
| `Crc32.UpdateSplit` | src/csp_crc32.c:54-66 | updating over any split equals updating over the concatenation |
| `Crc32.RegisterIsRemainder` | src/csp_crc32.c:54-66 | the register is the remainder of textbook long division by 0x1EDC6F41, most significant coefficient first |
| `Crc32.ChecksumIsRemainder` | src/csp_crc32.c:69-86 | the checksum is the one section 12.1 of RFC 3720 defines: complemented start, remainder, complemented end |
| `Crc32.WindowDetermines` | src/csp_crc32.c:54-66 | two registers that meet after at most 32 bits differed before exactly by the difference of the bits |
| `Crc32.SuffixInjective` | src/csp_crc32.c:54-66 | common input never makes different registers equal: every step is a bijection |
| `Crc32.DetectsBurst` | src/csp_crc32.c:54-86 | messages of any equal length that differ only inside 32 consecutive bits have different checksums |
| `Crc32.DetectsByteBurst` | src/csp_crc32.c:54-86 | the same for damage inside four consecutive bytes |
| `Packet.CheckValue` | src/csp_crc32.c:12-86 | the checksum of the digits 1 to 9 is 0xE3069283, the catalogued check value of CRC-32C |
| `CspId.ParseHeader` | src/csp_id.c:40-176 | stripping what was prepended gives the id back if and only if every field fits its width, in both versions |
| `CspId.HeaderParse` | src/csp_id.c:40-176 | prepending what was stripped gives back every possible header, 4 or 6 bytes |
| `CspId.FixupRoundTrip` | src/csp_id.c:209-226 | both directions for the little-endian version 1 header |
| `CspId.HeaderNumber` | src/csp_id.c:40-150 | the header as one number in network byte order: priority, addresses, ports and flags each times their power of two, for both versions |
| `Words.Be32Number` | src/csp_crc32.c:88-112 | the four bytes of a word spell it in network byte order |
| `Packet.PacketBuffer.SetupRx` | src/csp_id.c:228-236 | reception starts directly in front of the data, with an empty frame |
| `Packet.PacketBuffer.Prepend` | src/csp_id.c:191-197 | header bytes directly in front of the data; the frame is header and data; no other byte changes; which bytes these are is `CspId.HeaderNumber` |
| `Packet.PacketBuffer.Strip` | src/csp_id.c:199-207 | refused exactly if shorter than the header; else id and payload are what the frame says |
| `Packet.PacketBuffer.CrcAppend` | src/csp_crc32.c:88-112 | fails without effect exactly when there is no room for four bytes |
| `Packet.PacketBuffer.CrcVerify` | src/csp_crc32.c:114-143 | accepts by header and data or by data alone; on success only the checksum goes; the data bytes never change |
| `Packet.WithCrcMatches` | src/csp_crc32.c:88-143 | what was appended verifies under any id, and removing it restores the data |
| `Packet.DamageAcceptedOnlyByHeader` | src/csp_crc32.c:114-143 | damage within four payload bytes is accepted if and only if the header-and-data checksum happens to equal the sent one |
| `Packet.DamagedPacketPasses` | src/csp_crc32.c:114-143 | a packet whose four payload bytes all arrived damaged, and which is accepted |
| `Kiss.Transmit` | src/interfaces/csp_if_kiss.c:23-66 | the bytes handed to the line are the stuffed frame of header, payload and checksum between markers |
| `Kiss.NoEndInside` | src/interfaces/csp_if_kiss.c:40-58 | no byte between the markers is a marker |
| `Kiss.KnownLine` | src/interfaces/csp_if_kiss.c:23-66 | one packet byte by byte as it is on the line: markers, command, header, both escapes and the checksum |
| `Kiss.RunSplit` | src/interfaces/csp_if_kiss.c:71-188 | any division of the input into calls gives the same state and the same delivered packets |
| `Kiss.RunConservesBuffers` | src/interfaces/csp_if_kiss.c:71-188 | free, held and queued buffers add up to the same number over every byte stream |
| `Kiss.Unstuff` | src/interfaces/csp_if_kiss.c:115-177 | inside a frame the receiver stores exactly the bytes that were stuffed |
| `Kiss.DecodeFrame` | src/interfaces/csp_if_kiss.c:124-148 | stripping and verifying a transmitted frame gives the packet, with the id its header can carry |
| `Kiss.LinkRoundTrip` | src/interfaces/csp_if_kiss.c:23-188 | up to `CSP_BUFFER_SIZE - 5` bytes are delivered exactly once; the packet is the one sent if and only if its id fits |
| `Kiss.LinkOutcome` | src/interfaces/csp_if_kiss.c:23-188 | for every packet a buffer can hold: what the frame makes of receiver and router queue, full or not |
| `Kiss.ArrivesByLength` | src/interfaces/csp_if_kiss.c:28-148 | by length of the payload: whole, lost, or without its last four bytes if these are its checksum |
| `Kiss.LinkDeliversExactly` | src/interfaces/csp_if_kiss.c:23-188 | the packet sent is delivered if and only if it leaves five bytes of the buffer free and its id fits |
| `Kiss.FullBufferIsLost` | src/interfaces/csp_if_kiss.c:80-94 | `CSP_BUFFER_SIZE - 4` and `CSP_BUFFER_SIZE` bytes, which the transmitter accepts, are never delivered, and an error is counted |
| `Kiss.LongPayloadArrivesShort` | src/interfaces/csp_if_kiss.c:28-148 | a payload without room for the link's checksum that ends in its own is delivered four bytes short |
| `Kiss.InStepAfterOneFrame` | src/interfaces/csp_if_kiss.c:71-188 | after one frame of any content, from any receiver state, the receiver is between frames and at most one packet was delivered |
| `Kiss.SelfStabilises` | src/interfaces/csp_if_kiss.c:71-188 | of two consecutive frames the second is delivered exactly, whatever state the receiver was in |
| `Kiss.Unpack` | src/interfaces/csp_if_kiss.c:124-148 | in the buffer: accepted exactly if the frame decodes, and then the buffer holds the decoded packet |
| `Kiss.KissInterface.RxByte` | src/interfaces/csp_if_kiss.c:75-187 | one turn of the loop over buffer memory is one step of the automaton, and stays inside the buffer |
| `Kiss.KissInterface.Rx` | src/interfaces/csp_if_kiss.c:71-188 | a call with any number of bytes is a run of the automaton |
| `Sha1.RoundIsMix` | src/crypto/csp_sha1.c:44-70 | the rewritten round functions and constants are those of section 6.1.2 of FIPS 180-4 |
| `Sha1.Rotations` | src/crypto/csp_sha1.c:10-70 | the three rotations are circular left shifts by 1, 5 and 30 |
| `Sha1.Expand` | src/crypto/csp_sha1.c:76-89 | the message schedule of the standard |
| `Sha1.Unrolled` | src/crypto/csp_sha1.c:91-128 | four loops, five rounds unrolled with renamed variables, equal eighty plain rounds |
| `Sha1.Sha1State.CompressBlock` | src/crypto/csp_sha1.c:72-136 | one block is absorbed as the standard says |
| `Sha1.Sha1State.Process` | src/crypto/csp_sha1.c:149-172 | the state after any calls depends only on the concatenation of their data |
| `Sha1.PaddingAbsorbed` | src/crypto/csp_sha1.c:174-206 | the one or two final blocks absorb exactly the padding of section 5.1.1 of FIPS 180-4 |
| `Sha1.Sha1State.Done` | src/crypto/csp_sha1.c:174-206 | the digest is the hash of everything processed |
| `Sha1.Memory` | src/crypto/csp_sha1.c:208-214 | `csp_sha1_memory` is SHA-1 |
| `Sha1.InPieces` | src/crypto/csp_sha1.c:149-206 | any pieces of any sizes give the digest of their concatenation |
| `Sha1Rows.BlockByRows` | src/crypto/csp_sha1.c:72-136 | a block can be absorbed in five rows of sixteen rounds, each row of schedule words following from the one before |
| `KnownAnswers.AbcDigest` | src/crypto/csp_sha1.c:208-214 | the hash of "abc" is a9993e36 4706816a ba3e2571 7850c26c 9cd0d89d, as FIPS 180 says |
| `Hmac.HmacState.Init` | src/crypto/csp_hmac.c:23-52 | an empty key is refused; otherwise the key block is the padded or hashed key and the inner pad has been absorbed |
| `Hmac.KeyBlocks` | src/crypto/csp_hmac.c:32-41 | keys of up to 64 bytes are filled up with zeros, longer ones stand for their hash |
| `Hmac.HmacState.Done` | src/crypto/csp_hmac.c:66-91 | the outer hash over outer pad and inner digest |
| `Hmac.Memory` | src/crypto/csp_hmac.c:93-113 | the code of section 2 of RFC 2104, for keys of every length but zero |
| `KnownAnswers.JefeCode` | src/crypto/csp_hmac.c:93-113 | test case 2 of RFC 2202: the code of "what do ya want for nothing?" under the key "Jefe" |
| `Hmac.Append` | src/crypto/csp_hmac.c:127-152 | fails without effect exactly if the code does not fit; header variant over the frame |
| `Hmac.Verify` | src/crypto/csp_hmac.c:154-190 | accepts exactly matching codes; what each variant shortens |
| `Hmac.WithCodeMatches` | src/crypto/csp_hmac.c:127-190 | an appended code verifies and comes off without a trace |
| `Hmac.AppendThenVerify` | src/crypto/csp_hmac.c:127-190 | in the packet buffer: append then verify succeeds and restores length and data whenever the code fits |
| `Sfp.BytesRoundTrip` | src/csp_sfp.c:15-44 | offset and size survive the conversion to network byte order |
| `Sfp.UntrailedTrailed` | src/csp_sfp.c:22-44 | a fragment header that was added is read back, unless its offset exceeds its total |
| `Sfp.TrailerSpells` | src/csp_sfp.c:22-86 | behind the payload, offset and total as numbers in network byte order, in this order |
| `Sfp.PacketsAre` | src/csp_sfp.c:51-96 | fragment number i starts i times the fragment size on, and there are as many as that allows |
| `Sfp.Send` | src/csp_sfp.c:51-96 | all fragments in order, or as many as there are buffers, or none for an impossible size; the connection keeps the flag |
| `Sfp.Assembly.RemoveHeader` | src/csp_sfp.c:29-49 | the fragment header as read, and the packet shorter by it even if it is rejected |
| `Sfp.Assembly.TakePacket` | src/csp_sfp.c:118-186 | one packet is refused or extends what has been received; on each of the seven ways out its buffer is released once; nothing is written outside the block |
| `Sfp.Receive` | src/csp_sfp.c:98-191 | whatever the outcome, the books of the pool balance without exactly the buffers read, one reference each; the result is that of reassembling what they say |
| `Sfp.DistinctBuffers` | src/csp_sfp.c:98-191 | if no buffer is read twice, shortening packets in place does not matter |
| `Sfp.ReassembleSound` | src/csp_sfp.c:98-191 | of arbitrary packets, data is returned only if they fill a block from start to end, and it is what they carry |
| `Sfp.ReassembleComplete` | src/csp_sfp.c:98-191 | packets that fill a block which fits the heap are accepted, whatever follows |
| `Sfp.TransferFrom` | src/csp_sfp.c:51-191 | at any point of a transfer, success if and only if the remaining fragments come next in order and, at its start, the block fits the heap |
| `Sfp.NoRoomForBlock` | src/csp_sfp.c:140-150 | the first fragment of a block larger than the heap ends the transfer with no memory, and nothing else is read |
| `Sfp.TransferOverFaultyChannel` | src/csp_sfp.c:51-191 | from any lost, repeated or reordered fragments of one transfer of a block of any size: the bytes sent if and only if the stream begins with all of them in order, at least one, and the block fits the heap; else an error and no data |
| `Sfp.TransferOutOfPool` | src/csp_sfp.c:51-191 | the same for the buffers of a pool that `Sfp.Receive` reads |
| `StaticQueue.ItemsApart` | src/arch/baremetal/mpmp_queue.c:46-48 | item slots do not overlap |
| `StaticQueue.Queue.Send` | src/arch/baremetal/mpmp_queue.c:34-61 | refused exactly when full; otherwise the contents grow at the end by the copied item; storage behind the items stays untouched |
| `StaticQueue.Queue.Receive` | src/arch/baremetal/mpmp_queue.c:64-91 | the oldest item, or nothing exactly when empty |
| `StaticQueue.Create` | src/arch/baremetal/mpmp_queue.c:8-31 | no queue for zero sizes or missing storage; else an empty one |
| `StaticQueue.Queue.Waiting` | src/arch/baremetal/mpmp_queue.c:94-119 | items waiting and spaces left add up to the length |
| `StaticQueue.WindowPush` | src/arch/baremetal/mpmp_queue.c:46-51 | writing at `(tail + count) mod length` appends to the abstract queue, wrap-around included |
| `StaticQueue.WindowPop` | src/arch/baremetal/mpmp_queue.c:76-81 | advancing the tail removes the first item of the abstract queue |
| `StaticQueue.FirstInFirstOut` | src/arch/baremetal/mpmp_queue.c:34-91 | over every interleaving: received items, then waiting ones, are the accepted ones in order |
| `StaticQueue.Drive` | src/arch/baremetal/mpmp_queue.c:34-91 | the queue in byte memory goes through exactly such a run |
| `BufferPool.Pool.Get` | src/csp_buffer.c:62-99 | fails exactly below the reserve; a buffer handed out was held by nobody |
| `BufferPool.Pool.Free` | src/csp_buffer.c:129-154 | one reference less; the last one returns the buffer, for which the free list always has room |
| `BufferPool.Pool.Clone` | src/csp_buffer.c:156-170 | a buffer of its own with the same contents, exactly if two are free |
| `BufferPool.Pool.RefcInc` | src/csp_buffer.c:172-186 | one reference more: the only way for a buffer to get into two places |
| `BufferPool.FewerThan` | src/csp_buffer.c:153 | while a buffer is held, the free list cannot be full |
| `BufferPool.NothingLost` | src/csp_buffer.c:21-154 | free and held buffers together are all buffers |
| `RouteTable.BestIsLastMaximal` | src/csp_rtable_cidr.c:44-74 | no route exactly when none matches; otherwise the last-stored of the longest matches |
| `RouteTable.CoversIsSamePrefix` | src/csp_rtable_cidr.c:53-58 | a route covers an address if and only if its first bits, as many as the prefix says, are those of the stored address |
| `RouteTable.DefaultAndHostRoute` | src/csp_rtable_cidr.c:53-58 | a route with prefix 0 covers every address there is, one with the longest prefix its own alone |
| `RouteTable.RoutingTable.FindRoute` | src/csp_rtable_cidr.c:44-74 | the scan over the array finds that route |
| `RouteTable.RoutingTable.SearchBackward` | src/csp_rtable_cidr.c:27-42 | the nearest earlier entry for the same network, or none |
| `RouteTable.VisitedIsNetwork` | src/csp_rtable_cidr.c:27-42 | the enumeration is strictly decreasing and is all earlier entries with the same stored network |
| `RouteTable.VisitsAllMaximal` | src/csp_rtable_cidr.c:27-74 | it visits only best matches, and all of them if and only if they store the same address |
| `RouteTable.NormalizedVisitsAll` | src/csp_rtable_cidr.c:27-74 | with host bits zero in the table it visits exactly the best matches |
| `RouteTable.HostBitsHideRoutes` | src/csp_rtable_cidr.c:27-74 | a table with host bits where a best match is missed |
| `RouteTable.StoreKeepsOthers` | src/csp_rtable_cidr.c:76-96 | storing writes one place and moves no other route |
| `RouteTable.StoreGrows` | src/csp_rtable_cidr.c:15-94 | the table grows exactly if it has no route for this address and prefix by this interface |
| `RouteTable.StoreKeepsKeysDistinct` | src/csp_rtable_cidr.c:76-96 | there are never two entries for one address, prefix and interface |
| `RouteTable.RoutingTable.Set` | src/csp_rtable_cidr.c:76-120 | for any table, key and prefix: refused exactly without an interface, overrun exactly if the table is full and the key new, and then the table itself stays; otherwise it becomes the stored one, with out-of-range prefixes as host routes |
| `RouteTable.ClampKeeps` | src/csp_rtable_cidr.c:107-120 | a prefix in range is stored as it is, any other as 5 or 14 by version |
| `IfList.WithinIsSamePrefix` | src/csp_iflist.c:15-31 | an address is in an interface's subnet if and only if its first bits, as many as the prefix says, are the interface's |
| `IfList.BroadcastIsHighest` | src/csp_id.c:262-273 | broadcast addresses are exactly the highest address of the interface's subnet and the highest of all |
| `IfList.HighestOfSubnet` | src/csp_id.c:262-273 | that address is in the subnet, and none there is higher |
| `Dedup.DedupRing.IsDuplicate` | src/csp_dedup.c:22-48 | the ring answers as the scan with early exit over the history, and records exactly what it has not seen |
| `Dedup.RepeatedWithin100ms` | src/csp_dedup.c:22-48 | whatever was recorded before, a packet that comes again is a duplicate if and only if at most 100 ms have passed |
| `Dedup.ForgottenAfter15` | src/csp_dedup.c:13-48 | among other packets of the same moment it is forgotten exactly when 15 of them have been recorded |
| `Dedup.EarlyExitSound` | src/csp_dedup.c:29-40 | stamps in order and no wrap: the answer is yes exactly if one of the 15 last entries has the checksum and is at most 100 ms old |
| `Dedup.EarlyExitMisses` | src/csp_dedup.c:31-33 | a clock that goes back makes the scan miss a recent entry |
| `Dedup.EarlyExitMissesAtWrap` | src/csp_dedup.c:31-33 | the sum of stamp and window wraps: a packet seen 16 ms ago is missed |
| `Dedup.StaleTakenForRecent` | src/csp_dedup.c:29-40 | an entry stamped just before the clock wraps is taken for a duplicate at every time after the wrap until the clock is back at its stamp, though it is not recent |
| `Dedup.DroppedAgainAndAgain` | src/csp_dedup.c:29-48 | any run of that packet at such times is dropped throughout |
| `Dedup.ScanSees` | src/csp_dedup.c:29-40 | the scan finds exactly the checksums in front of the first entry that looks too old, recent or not |
| `Dedup.WrongIfHiddenOrStale` | src/csp_dedup.c:29-40 | a question is answered wrongly exactly if its checksum is on a recent entry out of reach and on none in reach, or on an entry in reach and on no recent one |
| `Dedup.EarlyExitExact` | src/csp_dedup.c:22-40 | every question is answered as the plain list does, with ages modulo 2^32, if and only if no recent entry is hidden behind one that looks too old and no entry in front of it is stale |
| `Dedup.EarlyExitExactForDistinct` | src/csp_dedup.c:22-40 | for 15 different packets: if and only if the recent entries are exactly those with nothing that looks too old at or in front of them |
| `Dedup.RunAgreesExactly` | src/csp_dedup.c:22-48 | over any run with any clock, backward or wrapping, the ring agrees with the plain list if and only if no packet meets a hidden or a stale entry |
| `Dedup.RunAgrees` | src/csp_dedup.c:22-48 | over any run with such a clock the answers are those of the plain list |
| `Dedup.AnswerRun` | src/csp_dedup.c:22-48 | the ring itself, from its initial zeros, gives those answers |
| `Port.PortTable.Bind` | src/csp_port.c:82-104 | success exactly for a free port in range or the free catch-all; which ports then reach the socket, and that other bindings stay |
| `Port.PortTable.BindCallback` | src/csp_port.c:106-131 | the same for callbacks |
| `Conn.Slots` | src/csp_conn.c:49-63 | connections start closed, empty, with distinct outgoing ports above the bound ones |
| `Conn.UniqueMatch` | src/csp_conn.c:89-143 | at most one open connection matches an id, so the order of the search does not matter |
| `Conn.ServerKeepsSeparated` | src/csp_route.c:213-250 | opening a server for an id nobody matches keeps connections apart |
| `Conn.ClientKeepsSeparated` | src/csp_conn.c:304-313 | so does opening a client on the slot's own port, whatever it was used for before |
| `Conn.CloseKeepsSeparated` | src/csp_conn.c:213-247 | so does closing |
| `Conn.ConnTable.FindExisting` | src/csp_conn.c:89-143 | a matching connection, or none exactly if there is none |
| `Conn.ConnTable.Flush` | src/csp_conn.c:145-157 | the receive queue ends empty and every packet in it is released |
| `Conn.ConnTable.Allocate` | src/csp_conn.c:159-187 | fails exactly if all are open; changes one closed slot |
| `Conn.ConnTable.New` | src/csp_conn.c:189-207 | the slot carries the two ids; no buffer moves |
| `Conn.ConnTable.Close` | src/csp_conn.c:213-247 | closed, empty, its packets released; a second close changes nothing |
| `Conn.ConnTable.Connect` | src/csp_conn.c:249-332 | refused exactly for options not compiled in or no slot; otherwise a client on the slot's outgoing port, connections still apart |
| `Conn.ConnectOptionsMean` | src/csp_conn.c:251-301 | RDP and authentication are refused; the checksum flag is set exactly if required and not prohibited; the options kept are those asked for |
| `Forward.LocalHopsMembers` | src/csp_io.c:106-139 | first tier: exactly the local interfaces split horizon allows, each once, in list order |
| `Forward.LocalHopsContent` | src/csp_io.c:121-128 | source per interface; the destination becomes the link broadcast from the first broadcast interface on |
| `Forward.RouteHopsMembers` | src/csp_io.c:147-176 | second tier: one copy per visited route split horizon allows, with its next hop, in the order of the visit |
| `Forward.DefaultHopsMembers` | src/csp_io.c:186-213 | third tier: exactly the allowed default interfaces, each once |
| `Forward.ForwardedByPrefix` | src/csp_io.c:106-139 | in terms of prefixes: with the destination in any interface's subnet, copies go exactly to those interfaces, but not to the one of arrival nor to any with an address in its subnet |
| `Forward.SourceKept` | src/csp_io.c:121-213 | a packet with a source, and any packet of somebody else, keeps its source on all its copies |
| `Forward.ForwardingRule` | src/csp_io.c:87-217 | exactly the candidates of the first non-empty tier minus the excluded, each interface once; only source and destination may change, the destination only locally |
| `Forward.FirstAddressSticks` | src/csp_io.c:166-174 | a packet of our own leaves by all its routes with the first interface's address |
| `Forward.FirstDefaultAddressSticks` | src/csp_io.c:187-213 | likewise by all its default interfaces |
| `Forward.UnmaskedArrivalStops` | src/csp_io.c:116-119 | what arrives on an interface without a prefix is not forwarded |
| `Router.OpenedHasOwner` | src/csp_route.c:281-290 | a connection opened and handed to one owner leaves each open connection with exactly one |
| `Router.CheckedIsPayload` | src/csp_route.c:59-100 | whatever the options, what passes is delivered with the same id and without its verified checksum |
| `Router.SentPasses` | src/csp_route.c:59-100 | what a node sends, a node that gets it unchanged accepts unless it demands a missing checksum, and delivers the original payload |
| `Router.ClientChecksums` | src/csp_conn.c:275-301 | a client's packets carry a checksum of their own exactly if its options require one and do not prohibit it |
| `Router.SupportedFlags` | src/csp_route.c:29-50 | refused are exactly packets flagged for RDP or authentication |
| `Router.ModesAsk` | src/csp_route.c:141-151 | which packets each mode of duplicate suppression asks about |
| `Router.OutcomeIsUnique` | src/csp_route.c:167-293 | for a packet to this node the rules leave no choice but that of a free slot |
| `Router.SomeOutcome` | src/csp_route.c:167-293 | and there is always an outcome |
| `Router.WhoComesFirst` | src/csp_route.c:173-293 | callback, connection-less socket, matching connection, new connection, in this order; callbacks only get packets with a matching checksum of their own |
| `Router.Conversation` | src/csp_route.c:230-250 | a server opened by a client's packet matches packets of that client and port alone, its replies keep priority and flags and match that client's connection and no other, and that connection takes answers from any source |
| `Outgoing.SendingMore` | src/csp_io.c:134-137 | copies compose: each fares by its own id, none is missed while buffers last, no other buffer changes |
| `Outgoing.LocalStep` | src/csp_io.c:106-139 | one turn of the first loop does what the forwarding rule's first tier says from there on |
| `Outgoing.RouteStep` | src/csp_io.c:150-175 | one turn of the second loop, with the source that stays |
| `Outgoing.DefaultStep` | src/csp_io.c:187-213 | one turn of the third loop |
| `Outgoing.RelayedUnchanged` | src/csp_io.c:225-283 | what is passed on for others is neither given a checksum nor refused |
| `Outgoing.SendToIdMeans` | src/csp_io.c:375-407 | what `csp_sendto` puts into the id, and when it refuses |
| `Outgoing.OwnAddressStaysInside` | src/csp_io.c:97-101 | what goes to the loopback address is one copy with its id unchanged, and no driver is given anything |
| `Outgoing.OnlySourceAfter` | src/csp_io.c:166-213 | sending changes at most the source of the sender's id, only if it had none, and to that of the last copy |
| `Node.Node.constructor` | src/csp_init.c:24-45 | the node starts with every buffer free and nothing open or queued |
| `Node.Node.QfifoWrite` | src/csp_qfifo.c:31-68 | the packet waits, or is released exactly if there is no room or no interface |
| `Outgoing.OutMore` | src/csp_io.c:270-277 | what left a node adds up copy by copy: the drivers were given exactly the handed-over copies in order and hold exactly those they took, loopback copies are in the router's queue in order as far as there was room |
| `Node.Node.Transmit` | src/interfaces/csp_if_lo.c:11-17 | loopback queues the packet for the router; any other driver is given it once, and it is the driver's or released |
| `Node.Node.SendIface` | src/csp_io.c:225-283 | the packet goes out once with the id and checksum it should have, or is refused and released; no other buffer changes |
| `Node.Node.SendLocal` | src/csp_io.c:91-139 | the first loop sends exactly the copies of the first tier, and reports any local interface, even a skipped one |
| `Node.Node.SendRouted` | src/csp_io.c:147-176 | the second loop sends exactly the copies of the second tier |
| `Node.Node.SendDefault` | src/csp_io.c:186-213 | the third loop sends exactly the copies of the third tier |
| `Node.Node.SendDirect` | src/csp_io.c:87-217 | the copies of the forwarding rule, each faring as its id and data say, and exactly those handed over have gone out; all are made if buffers suffice; the original is released exactly once; nobody else's buffer changes |
| `Node.Node.SecurityCheck` | src/csp_route.c:59-100 | computing the two checksums and comparing: the packet passes exactly if one matches, or none is needed; only a matching one is taken off, and nothing else changes |
| `Node.Node.Admit` | src/csp_route.c:230-292 | a new connection is in its socket's accept queue once, waiting for no socket, or closed with its packet released, or there was no slot |
| `Node.Node.Deliver` | src/csp_route.c:173-293 | the verdict is one the rules allow, and the packet is in exactly the place the verdict says, without its checksum |
| `Node.Node.Route` | src/csp_route.c:126-293 | duplicates dropped and only new packets recorded; forwarded exactly if not for this node; unsupported packets dropped; the rest delivered; whatever happens, packets that others hold stay as they are |
| `Runs.ToMeExactly` | src/csp_route.c:137-139 | a packet is for this node if and only if its destination is an interface's address, the highest of the subnet it came in by, or the highest of all |
| `Runs.FootprintsDiffer` | src/csp_dedup.c:24-25 | packets that differ only inside four consecutive bytes of header and data have different footprints |
| `Runs.IdsToldApart` | src/csp_dedup.c:24-25 | the same data under different ids has different footprints, in version 2 if the ids agree in priority and destination or in ports and flags |
| `Runs.NotForTheOther` | src/csp_dedup.c:24-40 | so such a packet is never dropped because of the other, but only for an earlier entry with its own footprint |
| `Node.Node.RouteWork` | src/csp_route.c:109-293 | one packet leaves the router's queue and ends as its verdict says, with the books of the whole node balanced and the packets of all other holders as they were |
| `Node.Node.Connect` | src/csp_conn.c:249-332 | in the node: the application gets the only handle of a new client |
| `Node.Node.CloseConn` | src/csp_conn.c:213-247 | in the node: the handle is gone, the packets are released |
| `Node.Node.Read` | src/csp_io.c:39-66 | the oldest packet of an open connection passes to the application |
| `Node.Node.Accept` | src/csp_io.c:24-37 | the connection that waited longest, open, and with a handle nobody else has |
| `Node.Node.ReceiveFrom` | src/csp_io.c:364-373 | the oldest packet of a connection-less socket passes to the application |
| `Node.Node.Send` | src/csp_io.c:285-307 | released if the connection is closed; else sent by the forwarding rule, and nobody else's packet changes; the connection keeps the source a route gave it |
| `Node.Node.SendTo` | src/csp_io.c:375-407 | sent under the given id, and nobody else's packet changes, or released if it asks for something not compiled in |
| `Node.Node.BetweenSteps` | src/csp_route.c:109-293 | between any two steps: no buffer lost, and none in two places unless a second reference was asked for; connections apart and quiet; one owner per open connection |
| `Node.Node.Step` | src/csp_route.c:109-293 | every step of router, application or driver is a transition, which fixes every part of the state, and its event is what that step really returned |
| `Node.Node.Run` | src/csp_route.c:109-293 | any steps in any order are a run: each event and state follows from the state before, queues, packets, bindings and history included, and the node is accounted for in all of them |
| `Runs.StepEffects` | src/csp_conn.c:159-247 | per step: a slot opens by dialling or acceptance only and was closed, closes by closing only and was open; handles come with dialling and accepting what waits, and go with closing |
| `Runs.PostedOnce` | src/csp_route.c:239-290 | a server connection is posted to its socket in the step that opens it, or is closed in that step and posted nowhere |
| `Runs.OneMoreEvent` | src/csp_route.c:196-290 | one more event keeps the account of every socket's queue |
| `Runs.RunHandsOut` | src/csp_io.c:24-37 | over every run: what came out of each socket, then what waits, is what was there, then what the router put in, in order and once each |
| `Runs.StaysOpen` | src/csp_conn.c:213-247 | while nothing closes it, a connection stays open and its slot is not used again |
| `Runs.ClosedInBetween` | src/csp_conn.c:159-247 | between two openings of a slot there is a closing of it |
| `Runs.WaitsAlone` | src/csp_route.c:281-290 | a connection that waits to be accepted has no handle and waits at one socket only |
| `Runs.ServerLifetime` | src/csp_route.c:239-290 | over every run: an accepted server connection waits at its socket until it is handed out, is handed out at most once, and exactly once before it is closed; its slot serves nothing else meanwhile |
| `Deliveries.NeverInTwoPlaces` | src/csp_buffer.c:62-186 | over every run that asks for no second reference: no buffer is ever held twice, by queues, application or drivers |
| `Deliveries.InOrderThere` | src/csp_io.c:39-66 | over every run: what is taken from a connection while it is not closed, or from a connection-less socket, then what waits there, is what waited and what the router put in, in order and once each |
| `Deliveries.WaitingUnchanged` | src/csp_route.c:109-293 | no step of anybody writes into a buffer that waits for the application, unless a second reference was asked for |
| `Deliveries.GivenAsDelivered` | src/csp_route.c:173-293 | over every run that asks for no second reference: the packets read or received say exactly what the router delivered, without their checksums, in order and once each, and those that wait do so too |
| `EndToEnd.ReceivedFromLink` | src/interfaces/csp_if_kiss.c:71-188 | what a socket is given is what the link put into the router's queue, checked |
| `EndToEnd.GetsWhatWasSent` | src/csp_io.c:225-283 | the other node gets the packet sent if and only if payload and own checksum leave five bytes free, the id fits, and no missing checksum is demanded |
| `EndToEnd.OwnChecksumConsumed` | src/csp_route.c:59-72 | with no room for the link's checksum the packet's own is taken off by the link, and the node drops the packet unless its last four data bytes match as well |

## Left out

- RDP, promiscuous mode, and authentication inside the router: compiled out here. The authentication code itself is modelled in `Hmac`.
- Drivers (UART, CAN, Ethernet, USART), interrupts, tasks and timeouts: drivers appear as steps that take, deliver and release buffers; queues never block in this port.
- Service handler, ping, management protocol, transactions, `csp_sendto_reply`, `csp_send_prio`, memory peek and poke, printing, statistics counters of the router and interfaces.
- `csp_socket_close`, `csp_bridge`, unbinding: no harder property.
- Interface list maintenance (add, remove, lookup by name, default selection): the list is a sequence fixed at the start.
- `Node.Node.RouteWork`: a callback runs as a later step of the application, not inside the router's call, because the callback's own code is not part of this model; what it may do is what the application's steps may do.
- `Node.Node.SendIface`: packets in the pool are values, so the layout of `frame_begin` inside a pooled buffer is not captured here; the same operations on buffer memory are in `Packet` and `Kiss`.
- `Node.Node.Run`: a step whose actor does not hold what it names changes nothing, because a free or close by a non-owner breaks the books by design.
- `Deliveries.NeverInTwoPlaces`: a run with `csp_buffer_refc_inc` is outside, and of `Deliveries.GivenAsDelivered` as well, because two holders of one buffer may both change it; nothing in this configuration calls it.
- `BufferPool.Pool.Get`: `csp_buffer_get_always` without a free buffer panics and hangs; here it returns nothing. The checks of a buffer's own address are left out, since buffers are named by position.
- `Kiss.KissInterface.Rx`: the pool is a counter and the router's queue a list of packets; the router's own view of both is in `Node`. Locking and the driver's `tx_func` are left out; the bytes are returned.
- `Kiss.Transmit`: what becomes of the packet after sending (it is freed) is not shown, as the buffer belongs to no pool there.
- `Sfp.Send`: sending is appending to a list, and buffers are a number; the copy function is the identity.
- `Sfp.Receive`: the connection is a list of buffers, and memory allocation succeeds up to a given size below 2^31; allocation of zero bytes is taken to succeed, and freeing the block after an error is not shown.
- `RouteTable.RoutingTable.Set`: what the write behind a full array does to other memory is not part of this model; the result says that it happens.
- `IfList.WithinIsSamePrefix`: about addresses the header has room for, here and in the other statements by prefixes except `RouteTable.CoversIsSamePrefix`; no other destination can arrive, and interfaces are assumed to have such addresses.
- `Dedup.RunAgrees`: needs a clock that neither runs backward nor wraps; the exact condition is in `Dedup.RunAgreesExactly`.
- `StaticQueue.Queue.Waiting`: null handles are left out here and in the other queue operations.
- `Conn.ConnTable.Connect`: the time stamp, used by RDP alone, and the timeout are left out.
- Widths of `int` and `size_t` on the target, packed structures and pointer arithmetic: offsets are counted from the start of a buffer, ids and checksums have their exact widths, lengths stay below their bounds by invariant.
