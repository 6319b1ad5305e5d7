# SpaceWire bridge: verified cores

A Dafny model of the parts of the SpaceWire bridge that compute or coordinate something: the two
checksums, the bit copy, the RMAP packet codec, packet framing on TCP connections, the GRESB wrapper,
sequence-count tracking, the UDP peer registry, and the ownership of SpaceWire transfer operations
during shutdown.  `dafny verify dfyconfig.toml` checks everything.

| file | content |
|---|---|
| `BitStrings.dfy` | C integer types as bit strings, most significant bit first; 24-bit length fields |
| `Lfsr.dfy` | division by a polynomial over GF(2) in a shift register, for any divisor and width |
| `Crc16.dfy` | CRC-16 as bit-serial division; what the PUS packet check guarantees |
| `Crc16Engine.dfy` | the table, byte-loop and sliced programs of `ecss/crc16.c` |
| `Crc16Period.dfy` | the order of x modulo the CRC-16 polynomial, and two-bit errors |
| `Bitman.dfy` | `putbits8()` and `bitcpy()` |
| `RmapCrc8.dfy` | the RMAP CRC-8 table loop and its guarantees |
| `RmapCrc8Limits.dfy` | what the CRC-8 does not detect: nine-bit bursts and two-bit errors |
| `RmapCodec.dfy` | RMAP packet record, setters, header builder and parser |
| `Framing.dfy` | the packets of an octet stream, as a function of the stream |
| `Net.dfy` | receiving and sending on TCP connections |
| `Gresb.dfy` | the GRESB host protocol, and its delivery end to end |
| `SeqTracker.dfy` | CCSDS sequence counts per APID: the program as it is, and with its entries counted |
| `Peers.dfy` | the registry of UDP peers |
| `SpwOps.dfy` | transfer operations, polling threads, senders and shutdown as a step system |

How the model is built:

- An octet is a string of eight bits, a 16-bit word one of sixteen.  Shifts, masks and exclusive or act
  on these strings in the width of the operand, so truncation is part of every operation.  Machine
  integers appear as bit vectors only to evaluate constants.
- Code that works in place is imperative: the CRC tables are one two-dimensional array filled by nested
  loops, `bitcpy()` writes into the destination array, the RMAP setters, parser and builder update a
  packet object and a header array, sockets and registries are objects.  Each method is proved against
  a function of its inputs or of the old state, and the properties are proved of these functions.
- What the kernel, the peer and the clock decide is a nondeterministic choice in `Net.Socket.Recv`,
  `Net.Socket.DeadlineExpired` and `Net.Outlet.Send`; the theorems hold for all choices.  These methods
  record every reason they give for giving up, so that the contracts of the program's own methods say
  exactly when they fail.
- Formats are stated twice: through named functions that the programs are proved against, and on plain
  octets, bits and numbers (`FitsOnOctets`, `HeaderOnOctets`, `PusPacket`, `SentOnOctets`, `SecondPacket`,
  `StartValue` and their like), with lemmas that tie the two together.
- Threads are a step system: what runs under the operation lock is one step, the second reading of
  `shutdown` is a step of its own, network threads may die at any point once they have been cancelled.
- All error-detection theorems are stated for messages of any length.  For both checksums the burst
  bound is shown to be sharp, and two-bit errors are characterised by their distance.

Six places where the code behaves differently from what one expects, each with its exact condition:

- `check_pus_sequence()` stores an entry for an untracked APID but never counts it (`net.c:507-519`; the
  counters of `net.c:91-93` start at zero and nothing increments them).  Every packet is therefore
  untracked: no run of any length reports a mismatch, the block holds the last packet's entry only,
  and the verdicts are the ones the packets deserve iff the run has no gap (`SeqTracker.Run`,
  `RepetitionMissed`, `HeldIff`).  Beside it, `SeqTracker.RepairedCheck` and `RepairedRun` are the same
  call followed by counting the entry; for that version every verdict is the deserved one, and
  `ApidsIndependent` and `InterleavingIrrelevant` show that deserved verdicts do not depend on how
  APIDs are interleaved.
- `putbits8()` is right for fewer than eight bits only within one destination octet.  Across two, it
  shifts the bits into the first octet, and masks the second one, as if there were eight of them
  (`ecss/bitman.c:63-71`).  `Bitcpy` copies exactly for the offsets described by `Good`; for all others
  the bit after the last whole octet always becomes zero (`PutLosesBit`, `StraddledLosesBit`), and
  `StraddlingPut` gives every bit of the result.
- `rmap_pkt_from_buffer()` takes the header CRC from offset 11 whatever the header looks like
  (`rmap.c:916-917`); `HdrCrcComesBack` says for which packets that is the header CRC.
- `spw_dispose_ops()` does not reset the slots (`spw.c:734-755`).  `SlotUndisposedIff` says for every
  reachable state which slots name a disposed operation: after the teardown, all that are neither empty
  nor name a cancelled operation; before it, none (`SlotsDangleAfterTeardown` reaches such a slot in every
  configuration).
- The comment in `spw.c` says that cancelled operations are freed by the API.  If cancelling also turned
  finished operations into cancelled ones, a polling thread that is between two receptions could
  dispose of one; `CancelledNeverDisposedIff` proves that this is the only condition.
- `spw_send_packet_chan()` stores the result of its wait in a status that all senders share without a
  lock, and then tests it (`spw.c:495-499`).  A sender whose time is up can read another sender's
  "complete" and dispose of an operation that is still live; `StatusReliableIff` proves that this is
  excluded iff at most one thread transmits.

## Model

| member | source | states |
|---|---|---|
| Lfsr.RunLinear | ecss/crc16.c:120 | the register of the exclusive or of two messages is the exclusive or of the registers |
| Lfsr.TableStep | ecss/crc16.c:48-56 | feeding as many bits as the front of the register holds is one table lookup and one shift, for any divisor |
| Lfsr.BurstChangesRegister | spw_bridge.c:686-698 | two messages that differ only within as many consecutive bits as the register has never leave the same register |
| Lfsr.TwoBitError | spw_bridge.c:686-698 | two flips d apart go unnoticed iff d steps take the divisor back to itself |
| Crc16.CrcIsDivision | ecss/crc16.c:97-117 | the octet loop is bit-serial division of the whole message by 0x1021, from any start value |
| Crc16.EntryLinear | ecss/crc16.c:120 | LUT[i ^ j] == LUT[i] ^ LUT[j] |
| Crc16.StartValue | ecss/crc16.c:97-117 | the only two-octet message with checksum zero is 0xff 0xff, which fixes the start value |
| Crc16.AcceptedIffResidueZero | spw_bridge.c:686-698 | a packet is accepted iff it has more than two octets and its checksum, checksum field included, is zero |
| Crc16.BurstRejected | spw_bridge.c:686-698 | a change confined to 16 consecutive bits of an accepted packet, anywhere, is rejected |
| Crc16.SeventeenBitBurstAccepted | spw_bridge.c:686-698 | 16 is the limit: the 17-bit pattern of the polynomial passes at every position |
| Crc16.OddFlipsRejected | spw_bridge.c:686-698 | any odd number of flipped bits is rejected |
| Crc16Period.Order | ecss/crc16.c:59-94 | the powers of x modulo the polynomial repeat exactly every 32767 steps |
| Crc16Period.TwoFlipsAccepted | spw_bridge.c:686-698 | two flipped bits pass the check iff their distance is a multiple of 32767 |
| Crc16Engine.TableConstants | ecss/crc16.c:66-88 | the eight constants are the entries of the single-bit indices, the divisor after 0 to 7 steps |
| Crc16Engine.LoadedOctet | ecss/crc16.c:169-177 | the shift-and-mask of a loaded machine word yields the k-th octet in memory, in both byte orders |
| Crc16Engine.BlockIsCrc | ecss/crc16.c:319-326 | the exclusive or of one lookup per octet, each in its own row, is the octet loop over the block |
| Crc16Engine.Tables.Crc16IsStep | ecss/crc16.c:48-56 | one lookup step is eight division steps |
| Crc16Engine.Tables.TableValue | ecss/crc16.c:64-91 | the conditional constants add up to the division of the index |
| Crc16Engine.Tables.InitLookupTable | ecss/crc16.c:59-94 | afterwards row 0 holds the division of every index |
| Crc16Engine.Tables.InitSlicedLookupTable | ecss/crc16.c:121-143 | afterwards row k holds row 0 advanced by k zero octets |
| Crc16Engine.Tables.FillColumn | ecss/crc16.c:136-142 | fills one index in all rows and leaves the others alone |
| Crc16Engine.Tables.Crc16Buf | ecss/crc16.c:97-117 | the checksum of the buffer; 0xffff for a missing or empty one |
| Crc16Engine.Tables.PusPktCrcValid | spw_bridge.c:686-698 | true iff the packet is accepted |
| Crc16Engine.Tables.AlignHead | ecss/crc16.c:157-161 | the head loop stops at the end or at an 8-octet boundary, with the checksum so far |
| Crc16Engine.Tables.Tail | ecss/crc16.c:187-190 | the tail loop completes the checksum |
| Crc16Engine.Tables.Block2 | ecss/crc16.c:165-184 | one two-octet block |
| Crc16Engine.Tables.Block4 | ecss/crc16.c:214-241 | one four-octet block |
| Crc16Engine.Tables.Block8 | ecss/crc16.c:286-330 | one eight-octet block |
| Crc16Engine.Tables.Crc16Slice2 | ecss/crc16.c:146-193 | equals the plain checksum for every buffer, length, start address and byte order |
| Crc16Engine.Tables.Crc16Slice4 | ecss/crc16.c:196-250 | the same |
| Crc16Engine.Tables.Crc16Slice8 | ecss/crc16.c:264-341 | the same |
| Bitman.FetchBits | ecss/bitman.c:35-52 | the source bits in order at the low end, zeros in front of them |
| Bitman.PutBits8 | ecss/bitman.c:22-72 | the destination afterwards is the function Put of the one before |
| Bitman.PutCopies | ecss/bitman.c:22-72 | bits that fit one octet, and whole octets at any offset, are copied and no other bit changes |
| Bitman.PutLosesBit | ecss/bitman.c:63-71 | fewer than eight bits across an octet boundary always clear their first bit |
| Bitman.StraddlingPut | ecss/bitman.c:63-71 | every bit of the array after a write of fewer than eight bits across an octet boundary |
| Bitman.StraddledLosesBit | ecss/bitman.c:63-71 | so outside the good offsets the result is not a copy for any source with that bit set |
| Bitman.LeadIn | ecss/bitman.c:122-132 | the lead-in loop copies its bits exactly if the last piece does not straddle; otherwise all but that piece |
| Bitman.MemCpy | ecss/bitman.c:135-141 | whole octets, as bits |
| Bitman.MainBlock | ecss/bitman.c:135-147 | memcpy and tail copy the rest |
| Bitman.Bitcpy | ecss/bitman.c:81-153 | for good offsets, bits d..d+n become source bits s..s+n and nothing else changes, whichever path runs; for others the whole octets are copied and one straddling write follows; -1 for missing arrays |
| RmapCrc8.EntryIsEightSteps | rmap.c:440-473 | each of the 256 table constants is its index after eight reflected division steps |
| RmapCrc8.Crc8 | rmap.c:433-484 | the table loop is bit-serial division by x^8 + x^2 + x + 1, low bits first; 0 for no buffer |
| RmapCrc8.ResidueZero | rmap.c:433-484 | buffer plus octet has checksum 0 iff the octet is the checksum |
| RmapCrc8.BurstDetected | rmap.c:433-484 | any change within eight consecutive bits changes the checksum |
| RmapCrc8.OddFlipsDetected | rmap.c:433-484 | any odd number of flips changes the checksum |
| RmapCrc8Limits.NineBitBurstUnnoticed | rmap.c:433-484 | eight is the limit: the nine-bit pattern of the polynomial leaves the checksum as it is, at every position |
| RmapCrc8Limits.TwoFlipsUnnoticed | rmap.c:433-484 | two flipped bits leave the checksum as it is iff their distance is a multiple of 127 |
| RmapCodec.RmapPkt.constructor | rmap.c:496-506 | protocol identifier 1, everything else zero |
| RmapCodec.RmapPkt.SetCmd | rmap.c:675-693 | accepts exactly the valid codes and sets command bit and code bits at their places in the octet; otherwise nothing changes |
| RmapCodec.RmapPkt.SetReplyPath | rmap.c:596-628 | accepts exactly 0, 4, 8 or 12 octets and sets the length field with the path; otherwise nothing changes |
| RmapCodec.RmapPkt.SetDestPath | rmap.c:643-663 | accepts up to 15 octets |
| RmapCodec.RmapPkt.SetDataLen | rmap.c:741-752 | accepts up to 2^24-1 |
| RmapCodec.RmapPkt.CommandIsConsistent | rmap.c:596-752 | after any setter calls, a packet with a command is one the round trip applies to |
| RmapCodec.SizeQuery | rmap.c:774-779 | the size query equals the size written iff the command code is valid |
| RmapCodec.RmapPkt.BuildHdr | rmap.c:764-816 | writes exactly the header and touches nothing behind it; without a buffer, the size |
| RmapCodec.RmapPkt.ReadFront | rmap.c:854-894 | succeeds iff command code, header and reply path fit |
| RmapCodec.RmapPkt.ReadBack | rmap.c:896-917 | source address to header CRC, shifted by the reply path |
| RmapCodec.RmapPkt.ReadData | rmap.c:919-950 | succeeds iff the announced data fit, then data and data CRC |
| RmapCodec.PktFromBuffer | rmap.c:830-963 | a packet iff the buffer fits, with the decoded fields, all accesses in bounds; counts foreign protocols only |
| RmapCodec.InstructionOnOctet | rmap.h:148-164 | command/reply, write, command code and reply address length as digits of the octet's value; the valid codes by their write, verify, reply and increment bits |
| RmapCodec.FitsOnOctets | rmap.c:839-931 | which buffers are accepted, in octets and bits |
| RmapCodec.DecodedOnOctets | rmap.c:854-917 | at which octets the parser finds each header field |
| RmapCodec.DataOnOctets | rmap.c:911-950 | data length, data and data CRC in octets |
| RmapCodec.HeaderOnOctets | rmap.c:782-815 | at which octets the builder puts each field, and that the reserved octet is zero |
| RmapCodec.ReadsBack | rmap.c:782-815 | a built header is read field by field whatever follows it |
| RmapCodec.AcceptedIffDataFollow | rmap.c:919-931 | a built header is accepted iff the data it announces follow the header CRC |
| RmapCodec.RoundTrip | rmap.c:764-963 | header, header CRC, data and data CRC of a consistent packet parse back to the packet |
| RmapCodec.HdrCrcComesBack | rmap.c:916-917 | the header CRC comes back for every value iff the packet is a read or read-modify-write reply |
| RmapCodec.Canonical | rmap.c:764-963 | rebuilding the header of any accepted buffer gives its header octets, the extended address octet set to zero |
| Framing.FramesOfFlatten | net.c:537-586 | packets concatenated on a stream are cut apart again, whatever follows |
| Framing.FramesDecompose | net.c:537-586 | the framing decomposes every stream into complete packets and a remainder without one |
| Framing.FramingUnique | net.c:537-586 | and is the only such decomposition |
| Framing.FramesMonotone | net.c:537-586 | more octets only append packets |
| Framing.PusPacket | net.c:545-558 | six header octets, the last two holding the number of data octets minus one, and the data: cut off as one packet whatever follows, and no beginning of it is |
| Framing.GresbPacket | net.c:757-771 | one octet, a 24-bit size and the data: likewise |
| Framing.PrefixReceived | net.c:537-586 | what was handed on is a prefix of what was sent, and all of it iff the stream was read to its end |
| Net.Socket.RecvExact | net.c:193-221 | all octets in order exactly if no receive fails and the deadline is not over after any piece; the deadline is looked at after every piece |
| Net.Socket.RecvPacket | net.c:537-586 | the next packet of the stream, whole and as long as its length octets say, exactly if nothing goes wrong; otherwise a dropped connection |
| Net.Socket.Serve | net.c:896-948 | one packet per round until something goes wrong; what is handed on is the beginning of the framing, and its concatenation is what was consumed |
| Net.Outlet.SendAll | net.c:112-132 | 0 exactly if the kernel refused nothing, whatever was taken at once and however often it was interrupted, and exactly if all octets were sent, once and in order; otherwise a proper beginning was |
| Gresb.SetProtocol | gresb.c:26-44 | only the four known protocols are written |
| Gresb.SetDataSize | gresb.c:47-62 | 24-bit big-endian size, data packets only |
| Gresb.CreateHostDataPkt | gresb.c:101-117 | protocol, size and data |
| Gresb.WrapRoundTrip | gresb.c:101-188 | unwrapping returns the data iff 24 bits hold their size, else a proper beginning |
| Gresb.SentIsFrame | gresb.c:134-146 | what is sent is one frame even then, so the stream stays in step |
| Gresb.SentOnOctets | gresb.c:101-146 | what goes out: a zero octet, the size most significant octet first, the data |
| Gresb.SizeOnOctets | gresb.c:65-89 | the sizes and the data read from a buffer, in octets |
| Gresb.SendPacket | net.c:1158-1188 | wraps and sends: success exactly if the kernel refuses nothing, and then the whole frame went out; otherwise a proper beginning of it |
| Gresb.EndToEnd | net.c:746-799 | whatever is lost at either end, the receiver's packets are a prefix of the sender's |
| Gresb.Deliver | net.c:746-799 | wrap, send, frame and unwrap as one run: the packets that come out are the first of those that went in, one per round, and all of them if the kernel refuses nothing, nothing goes wrong in receiving and nothing is left to read |
| SeqTracker.Tracker.Check | net.c:477-534 | an APID without a counted entry is stored and not reported, one with an entry is compared and updated; the number of counted entries does not change |
| SeqTracker.Run | net.c:477-534 | no packet of any run is reported, the block holds the last packet's entry, and these verdicts are the deserved ones iff every packet follows its APID's previous one modulo 2^14 |
| SeqTracker.SecondPacket | net.c:499-533 | the verdict a second packet deserves, in the octets of both headers |
| SeqTracker.EntryOnOctets | net.c:515-517 | the entry a packet leaves, in the octets of its header; packets under six octets leave none |
| SeqTracker.RepetitionMissed | net.c:507-519 | a packet that comes twice deserves a report, which Run shows it does not get |
| SeqTracker.HeldIff | net.c:515-518 | the count held for an APID after an interleaved run is that of its packets alone iff it has none or no other APID came last |
| Peers.Registry.Grow | net.c:671-680 | growth keeps the entries |
| Peers.Registry.AddClient | net.c:655-688 | a new peer is appended, a known one changes nothing; the capacity doubles from 4 when full |
| Peers.Run | net.c:655-688 | after any datagrams: the distinct peers in first-seen order, within capacity |
| Peers.FirstSeenDistinct | net.c:664-669 | first-seen lists every peer of the history once |
| Peers.FirstSeenInOrder | net.c:664-683 | one peer precedes another iff its first datagram came first |
| Peers.FirstSeenGrows | net.c:671-683 | earlier entries never move |
| SpwOps.NoDisposedOperationInUse | spw.c:76-167 | in every reachable state no thread holds a disposed operation, and before the teardown no slot names one |
| SpwOps.SlotUndisposedIff | spw.c:734-755 | in every reachable state, a receive slot names no disposed operation iff the teardown has not run, it is empty or its operation is cancelled; a transmit slot iff the teardown has not run or it is empty |
| SpwOps.DisposedAtMostOnce | spw.c:734-755 | in every reachable state, no operation has been disposed of twice |
| SpwOps.NoLostWakeup | spw.c:703-723 | after the cancel loop nobody waits on a live operation, in any reachable state |
| SpwOps.PollersWindDown | spw.c:125-147 | after the cancel loop each step of a polling thread brings it nearer its end, and no other step sets it back |
| SpwOps.PollersNotBlocked | spw.c:703-723 | and it has a step to take unless it ends the process over the status of its own transmission |
| SpwOps.ReceiveOperationsSettled | spw.c:734-755 | after the teardown every receive operation was disposed of exactly once, or cancelled and never |
| SpwOps.TransmitOperationsSettled | spw.c:734-755 | after the teardown every transmit operation was disposed of exactly once, except those whose thread was cancelled while holding them and that no slot names |
| SpwOps.TransmissionLeakedIff | spw.c:462-514 | with one transmitting thread: except one cancelled between creating and registering, or between deregistering and disposing |
| SpwOps.TransmitSlotNamesOperation | spw.c:485-507 | with one transmitting thread, the slot names its operation from registration to deregistration, in every reachable state |
| SpwOps.SlotChanges | spw.c:485-509 | in every configuration and state, what each step does to the slots: registering sets, deregistering clears its own, nothing else changes them |
| SpwOps.CancelledNeverDisposedIff | spw.c:76-100 | no cancelled operation is ever disposed of iff cancelling leaves finished operations alone |
| SpwOps.StatusReliableIff | spw.c:495-499 | in every run senders go on only with their own operation complete iff at most one thread transmits |
| SpwOps.StepKeepsOwned | spw_bridge.c:741-746 | every step of every thread, in the order main imposes, keeps the ownership invariant |

## Left out

- RmapCodec.RmapPkt: a failed allocation, a missing packet argument and the setters that store one field (`rmap_set_dst` and its like) are not modelled.
- RmapCodec.RoundTrip: the target path is stripped on the way, the address of a reply and the data CRC of a packet without data are not on the wire.
- Gresb.CreateHostDataPkt: without a data pointer the payload is what the allocator left, so only the header is stated.
- Net.Socket.RecvPacket: one method for the PUS and the GRESB variant, which differ in header size and length field; the size limit of the GRESB variant cannot be exceeded by a 24-bit length and has no branch.  The sequence and CRC checks after reception only print.
- Net.Socket.Serve: polling over several connections, client mode's exit after a lost link and forwarding to SpaceWire are not modelled.
- Net.Outlet.SendAll: interruptions by signals are finitely many, in any number; with endless ones the loop does not return.
- Bitman.Bitcpy: source and destination are different arrays.  The shift by a wrapped count (undefined in C for counts of 32 and more) is taken modulo 32.
- SpwOps.PollersNotBlocked: that the wait for a transmission returns when its time-out is over is the API's promise.
- SpwOps.TransmissionLeakedIff: a thread may be cancelled at any point; which points are cancellation points in the C library and the foreign API is not modelled.
- SpwOps: steps that end the process, device and link setup, and the contents of packets.
- SeqTracker.Tracker.Check: the block is a sequence; a failed reallocation, which would leave it as it was, is not modelled.  The printed message is the returned verdict.
- Peers.Registry.AddClient: a failed reallocation, which would drop the new peer, is not modelled.
- Socket setup, accepting, `select`, signals, keyboard, terminal and option parsing: no result to specify.
- Raw and FEE framing: one `recv` defines a packet there.
- `rmap_reply_to_clients`, `rmap_parse_pkt` and the debug printers: output formatting.
- The other CCSDS and PUS field accessors: single masks and shifts.
- Wall-clock time: a deadline may expire at any check, also right after the last octet.
