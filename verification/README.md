# Verification of the Ostinato traffic generator's core

This project models, in Dafny, the parts of Ostinato that other parts trust without
looking: how a frame is packed and checksummed, when its variable fields repeat, the
CRC32c of SCTP, and the protocol by which a controller and an agent keep the streams and
device groups of a port in step. Every model follows the branches, constants and widths of
the code; each is then proved to mean what the code is for.

**Frames.** `framebuilder.dfy` has the loops of `protocolFrameValue`, over byte sequences
that grow as they do in the source. `packing.dfy` and `packingexact.dfy` give their meaning,
the concatenation of bit strings, and prove that the two agree for all field contents
exactly for the layouts `LayoutOk`. `combo.dfy`, `ip4.dfy` and `ip6.dfy` put this to use.
`variablefields.dfy` overwrites masked counters in a byte array in place, and
`variablefieldswidget.dfy` computes the templates the editor offers for a standard field.

**Checksums.** `checksum.dfy` has the little-endian loop of RFC 1071 with its 32-bit
accumulator; `payloadchecksum.dfy` the combination over the protocols that follow in a
chain and in the chains above it; `protocolchain.dfy` the linked objects that the real
methods walk (`prev`, `next`, `parent`), with the offsets and sizes they add up.
`cksumfield.dfy`, `receiver.dfy`, `icmp.dfy`, `udp.dfy` and `ipcksum.dfy` end at the receiver:
what is sent is accepted, and exactly when. `pseudoinframe.dfy`, `icmpinframe.dfy` and
`udpinframe.dfy` say so for a message in its place in a nested chain, `innercksum.dfy` for
payloads with checksums of their own, and `cksumslots.dfy` where those are in a frame. `headers.dfy` reads the
packed headers back as their RFCs lay them out.

**CRC32c.** `crc32c.dfy` holds the table and the loop, `crcdivision.dfy` the long division
over GF(2) of RFC 4960 Appendix B, and `crcbursts.dfy` which corruptions are always seen.

**Repetition.** `gcd.dfy` and `lcm.dfy` verify Stein's algorithm and the lcm in 64-bit
arithmetic; `variablecount.dfy` the cached count; `framesrepeat.dfy` that IPv4 headers
repeat after that count; `addresses.dfy` that stepped addresses stay in their subnet.

**Controller and agent.** `entries.dfy` and `agent.dfy` are the lists, and what requests do
to the agent. `portedits.dfy` says what each edit of a port makes of its lists and proves
what holds over every run; `port.dfy` is the `Port` object method by method. `apply.dfy`
proves that applying edits converges. `sessionopen.dfy` follows one port through the opening
of a session, `portgroup.dfy` is the `PortGroup` object whose handlers interleave all ports
in one queue of requests. After the last answer every port is in step with its agent, so the
theorems about edits and applies take over from there (`SessionOpen.OpenedThenApplied`).

`options.dfy` and `unsigned.dfy` hold the types the other modules share.

**Smaller pieces.** `rates.dfy` (rate redistribution, exact reals), `streamstats.dfy`
(statistics tables, 64-bit wrap-around), `igmp.dfy` (IGMPv3 group records).

Where the code does less than one would expect, the exact condition is a theorem:

- The packer is right exactly for layouts where whole-byte fields start at bit 0 or 4 and
  the last chunk of every other field fits the current byte (`PackingExact.PacksExactlyIff`).
- Checksums of the payload combine exactly when the lengths keep to `ShapeOk`: the first
  protocol of a chain is never swapped, the others are swapped by their offset in the frame,
  and a protocol that is last in its chain ignores what follows its parent
  (`PayloadChecksum.PayloadCksumIff`, `Icmp.AcceptedIff`, `Udp.AcceptedIff`).
- A payload protocol with a checksum of its own enters the outer checksum with that field as
  zero; the receiver accepts exactly when the checksums left out, their octets swapped at odd
  places, add up to zero modulo 65535 (`InnerCksum.IcmpAcceptedIff`, `InnerCksum.UdpAcceptedIff`).
  For a single one this means all zeros or all ones, so the usual tunnel is refused.
- A protocol that finds its IP header only through the combination it belongs to takes length and
  number of that; its receiver accepts exactly when these add up to its own, modulo 65535
  (`IcmpInFrame.Icmp6AcceptedIff`, `UdpInFrame.Udp6AcceptedIff`, `UdpInFrame.Udp4AcceptedIff`).
- Offset, size and payload size of a protocol make up the frame exactly when, on every level
  above it, the halves of a combination round up to bytes as they do together; left halves of
  whole bytes do (`ProtocolChain.LengthConservedIff`).
- The lcm is one exactly while the product fits 64 bits (`Lcm.CodeLcmIff`). From a primed count
  every append of a variable field is safe, from an invalidated one not every
  (`VariableCount.AppendKeepsValidIff`; `UnprimedAppendFails` is a failing append). One append to
  an unprimed count is safe for every list exactly when it leaves the count unprimed, and
  `VariableCount.InvalidatedAppendIff` says for which counts it does.
- Statistics cells show everything exactly when no guid and port come twice
  (`StreamStats.CellsCompleteIff`).
- The agent overrides a zero MAC step and a missing IPv6 step, so its device groups equal the
  controller's exactly when those are set (`Apply.ApplyEqualIff`, `SessionOpen.ContentKeptIff`).
- A statistics record under the reserved guid counts four times, so the grand total is right only
  if it received nothing (`StreamStats.StreamStatsModel.AppendRecord`).

`dafny verify dfyconfig.toml` checks the whole project.

## Model

| member | source | states |
|---|---|---|
| FrameBuilder.PackFields | common/abstractprotocol.cpp:599-692 | the loops over fields, bytes and the bit position leave exactly the packed buffer |
| FrameBuilder.AppendWhole | common/abstractprotocol.cpp:628-644 | a whole-byte field appended at a bit position, byte by byte |
| FrameBuilder.AppendPartial | common/abstractprotocol.cpp:645-685 | a field that ends inside a byte, shifted and OR-ed in |
| Packing.PackedRepresents | common/abstractprotocol.cpp:599-692 | for every accepted layout the buffer is the low bits of each field in order, zero-padded to a byte |
| Packing.ProtocolFrameSize | common/abstractprotocol.cpp:526-542 | the reported size is the bits of the frame fields rounded up to bytes |
| Packing.FrameSizeIsLength | common/abstractprotocol.cpp:526-542 | that size is the length of what is packed, for a checksum or not |
| PackingExact.PacksExactlyIff | common/abstractprotocol.cpp:628-685 | packing equals bit concatenation for all contents if and only if the layout keeps to the alignment rule |
| Combo.ComboPacks | common/comboprotocol.h:108-125 | a combined protocol's frame is its halves' frames one after the other when the left half is whole bytes |
| Ip4.LayoutPacks | common/ip4.cpp:145-540 | the IPv4 layout meets the alignment rule whatever the options |
| Ip4.FieldsLaidOut | common/ip4.cpp:145-540 | the thirteen fields of the header, their sizes, and the checksum at byte 10 |
| Ip6.LayoutPacks | common/ip6.cpp:136-461 | the IPv6 layout meets the alignment rule |
| Ip6.AddressesAtEnd | common/ip6.cpp:136-461 | the packed header is 40 bytes and ends with the two addresses |
| Headers.PackedNumber | common/abstractprotocol.cpp:599-692 | whole bytes of packed fields read as one big-endian number are the fields' values side by side |
| Headers.Ip4Packed | common/ip4.cpp:145-540 | the packed IPv4 header byte by byte, as section 3.1 of RFC 791 lays it out |
| Headers.Ip4Read | common/ip4.cpp:145-515 | what a receiver reads off the packed header for both values of every override: version, header length, total length modulo 65536, protocol, and the addresses where their host is fixed |
| Headers.Ip4LengthIff | common/ip4.cpp:209-246 | the total length field is header plus payload exactly while that fits 16 bits |
| Headers.Ip4HeaderLengthIff | common/ip4.cpp:168-208 | the header length in the packed first byte is that of the packed header exactly when the options are at most ten whole words |
| Headers.Ip6Packed | common/ip6.cpp:136-461 | the packed IPv6 header from the configuration alone, as section 3 of RFC 8200 lays it out |
| Headers.IcmpPacked | common/icmp.cpp:138-270 | the packed ICMP header, with identifier and sequence number for types 0, 8, 15 and 16, of ICMPv6 for 128 and 129 |
| Headers.UdpConfigured | common/udp.cpp:120-290 | the packed UDP header of RFC 768, ports, length and checksum for both values of their overrides |
| VariableFields.VaryCounter | common/abstractprotocol.cpp:1104-1151 | the masked counter written into the buffer in place, or the buffer left alone when it would run past the end |
| VariableFields.ProtocolFrameValue | common/abstractprotocol.cpp:599-702 | the packed frame with every variable field written over it in order |
| VariableFields.VariedBit | common/abstractprotocol.cpp:1112-1149 | a bit under the mask comes from the counter, every other bit stays |
| VariableFields.CounterSteps | common/abstractprotocol.cpp:1112-1137 | the counter starts at the field's value each cycle and goes up or down by the step, modulo 2^32; a random one is the random number away from the value |
| VariableFields.VariedAllRepeats | common/abstractprotocol.cpp:1112-1137 | without random modes, frames whose indices agree modulo every count vary alike |
| VariableFieldsWidget.OffsetCache.FieldFrameBitOffset | common/abstractprotocol.cpp:362-389 | the cached or computed bit offset of a frame field, with the cache kept right |
| VariableFieldsWidget.LoadProtocolFields | client/variablefieldswidget.cpp:362-401 | one item for each frame field, in order, and none for a meta field |
| VariableFieldsWidget.ItemReaches | client/variablefieldswidget.cpp:362-401 | an item reaches the bits of its field in the packed frame that lie within the counter, and no others; the counter starts in the field's first byte and is the smallest the field fits |
| VariableFieldsWidget.OffsetIsPositionIff | common/abstractprotocol.cpp:376-384 | the offset is the field's place in the packed frame if and only if no meta field with bits comes before it |
| VariableFieldsWidget.TemplateStaysInsideIff | client/variablefieldswidget.cpp:378-399 | the mask keeps inside its field if and only if the field has at most 32 bits or starts on a byte |
| VariableFieldsWidget.TemplateCoversIff | client/variablefieldswidget.cpp:378-399 | the mask covers its field if and only if the field ends before the counter does |
| VariableFieldsWidget.TemplateVaried | client/variablefieldswidget.cpp:362-401 | of any frame, varying changes exactly the bits the template reaches, if the counter lies within the frame |
| VariableFieldsWidget.StandardFieldVaried | client/variablefieldswidget.cpp:362-401 | in the packed frame, the counter of any item that is offered leaves every bit of every other field as that field's value has it, and puts its own bits into the item's field |
| Checksum.CksumIp | common/abstractprotocol.cpp:863-890 | the little-endian loop with a 32-bit accumulator returns the RFC 1071 checksum of the bytes |
| Checksum.FoldCarries | common/abstractprotocol.cpp:885-886 | folding the carries gives the one's complement sum |
| Checksum.SwapFold | common/bswap.h:33-37 | swapping a one's complement sum is multiplying by 256, RFC 1071 section 2(B) |
| Checksum.OctetSumConcat | common/abstractprotocol.cpp:1002-1013 | the sum of joined bytes, the second part shifted when the first has odd length |
| PayloadChecksum.PayloadCksumIff | common/abstractprotocol.cpp:985-1028 | the combined checksum is that of the joined bytes, for all bytes, if and only if the lengths allow it |
| PayloadChecksum.EvenStartCombines | common/abstractprotocol.cpp:985-1028 | one chain with no parent combines from every even offset |
| ProtocolChain.Protocol.Combo | common/comboprotocol.h:33-43 | the two halves are linked to each other and to their parent, which has their fields, the number of the left and the pseudo checksum of the right |
| ProtocolChain.Protocol.ProtocolFrameOffset | common/abstractprotocol.cpp:551-566 | walking back through the chain and its parents gives the bytes before the protocol |
| ProtocolChain.Protocol.ProtocolFramePayloadSize | common/abstractprotocol.cpp:574-589 | walking forward gives the bytes after it |
| ProtocolChain.Protocol.ProtocolFramePayloadCksum | common/abstractprotocol.cpp:985-1028 | the walk over the following protocols returns the combined checksum |
| ProtocolChain.Protocol.ProtocolFrameHeaderCksum | common/abstractprotocol.cpp:930-970 | the pseudo-header checksum of the nearest IP header, with length and protocol number |
| ProtocolChain.NearestIpIs | common/abstractprotocol.cpp:936-960 | the pseudo checksum taken is that of the last protocol before it that has one |
| ProtocolChain.LengthConservedIff | common/abstractprotocol.cpp:551-589 | for any protocol at any depth, offset, size and payload size make up the frame if and only if the halves of every combination above it round up to bytes as they do together, and otherwise more than the frame |
| ProtocolChain.LengthConserved | common/abstractprotocol.cpp:551-589 | so they make up the frame whenever left halves are whole bytes |
| ProtocolChain.HexDumpFrameSize | common/hexdump.cpp:196-212 | a hex dump is its content, or, when it is last and pads, as much more as makes the frame with its FCS reach the frame length |
| ProtocolChain.PaddingFillsIff | common/hexdump.cpp:196-221 | the padded frame with its FCS is as long as the stream asks exactly when it was not too long already |
| CksumField.CksumSpliced | common/abstractprotocol.cpp:616-622 | the frame with its checksum is the zeroed frame with the two bytes written over it |
| Receiver.CombineCksums | common/icmp.cpp:196-218 | the parts are complemented, added and folded into the checksum |
| Receiver.InsertedAcceptsIff | common/abstractprotocol.cpp:892-908 | a receiver accepts an inserted checksum exactly when the payload sum was right modulo 65535 |
| Icmp.BuildMessage | common/icmp.cpp:185-223 | the ICMP header as it is sent, checksum computed or overridden |
| Icmp.ChecksumSent | common/icmp.cpp:185-223 | bytes 2 and 3 are the user's checksum, or the RFC 1071 checksum of pseudo header, zeroed message and payload where the payload checksum is that of the payload |
| Icmp.AcceptedIff | common/icmp.cpp:185-223 | every payload of given lengths is accepted, with the pseudo header for ICMPv6, if and only if the lengths let the checksums combine |
| Receiver.PseudoAcceptsIff | common/abstractprotocol.cpp:892-908 | over a payload summed rightly, a message is accepted exactly when its pseudo-header checksum stands for the pseudo header of the receiver |
| PseudoInFrame.HeaderCksumIs | common/abstractprotocol.cpp:930-970 | the checksum found is that of the nearest IP header's addresses with the length and number of the level that header is on |
| IcmpInFrame.Icmp6AcceptedIff | common/abstractprotocol.cpp:930-970 | an ICMPv6 message anywhere in a nested chain, its IP header on whatever level, is accepted if and only if that length and number add up to its own modulo 65535 |
| IcmpInFrame.Icmp6Accepted | common/icmp.cpp:196-218 | so it is accepted whenever the IP header is in its own chain (RFC 4443 section 2.3) |
| UdpInFrame.Udp6AcceptedIff | common/udp.cpp:243-287 | the same for a UDP datagram over IPv6 |
| UdpInFrame.Udp4AcceptedIff | common/udp.cpp:243-287 | and over IPv4 |
| IpCksum.BuildHeader | common/ip4.cpp:362-409 | the IPv4 header with its checksum computed or overridden |
| IpCksum.HeaderAcceptedIff | common/ip4.cpp:362-409 | a router accepts every header built, and an overridden checksum exactly when it is right |
| IpCksum.ChecksumSent | common/ip4.cpp:362-409 | bytes 10 and 11 are the user's checksum, or the RFC 1071 checksum of the header with zeros in their place |
| IpCksum.Ip4PseudoCksum | common/ip4.cpp:847-880 | the four loads over the IPv4 addresses give their checksum |
| IpCksum.Ip6PseudoCksum | common/ip6.cpp:772-798 | the loop over the IPv6 header gives the checksum of its addresses |
| IpCksum.Pseudo6Covers | common/abstractprotocol.cpp:939-958 | adding length and protocol number as integers stands for the pseudo header of RFC 8200 section 8.1 |
| IpCksum.Pseudo4Covers | common/abstractprotocol.cpp:939-958 | and for that of IPv4 |
| Udp.AcceptedIff | common/udp.cpp:243-287 | every payload of given lengths is accepted if and only if the lengths let the checksums combine |
| Udp.ChecksumSent | common/udp.cpp:254-260 | bytes 6 and 7 are never both zero, and all ones exactly when pseudo header, zeroed datagram and believed payload add up to a multiple of 65535; with a right payload checksum they are the checksum of RFC 768 |
| Udp.SentAcceptedIff | common/udp.cpp:243-287 | whatever follows the header is accepted exactly when the payload checksum stands for it |
| CksumSlots.FrameIsWritten | common/abstractprotocol.cpp:616-622 | a protocol with any number of checksum fields is sent as its zeroed frame with every checksum written into its slot |
| CksumSlots.JoinedSlotted | common/comboprotocol.h:91-125 | a combination has the checksum slots of both its halves when the left one is whole bytes |
| InnerCksum.IcmpAcceptedIff | common/abstractprotocol.cpp:985-1028 | an ICMP message over protocols with checksums of their own is accepted if and only if these, weighted by parity, add up to zero modulo 65535 |
| InnerCksum.UdpAcceptedIff | common/abstractprotocol.cpp:985-1028 | and so is a UDP datagram |
| InnerCksum.OneChecksumIff | common/abstractprotocol.cpp:985-1028 | for a single inner checksum, only if it is all zeros or all ones |
| Crc32c.ChecksumCrc32C | common/crc32c.cpp:98-134 | the loop runs the table over the buffer, then complements and swaps |
| Crc32c.EntryIsEightSteps | common/crc32c.cpp:30-96 | each of the 256 table entries is eight steps of the shift register |
| Crc32c.TableStepIsEightSteps | common/crc32c.cpp:28 | one table step is eight bit steps for every state and byte |
| CrcDivision.CrcIsRemainder | common/crc32c.cpp:98-134 | the result is the complemented remainder of the long division of RFC 4960 Appendix B |
| CrcBursts.BurstChangesCrc | common/crc32c.cpp:98-134 | messages that differ within 32 consecutive bits have different CRCs |
| CrcBursts.FourBytesChangeCrc | common/crc32c.cpp:98-134 | so do messages that differ within four consecutive bytes |
| Gcd.BinaryGcd | common/abstractprotocol.cpp:1042-1078 | Stein's loops return the greatest common divisor of all 64-bit arguments, no bit lost in the last shift |
| Lcm.BinaryLcm | common/abstractprotocol.cpp:1080-1097 | the quotient of the wrapped product by the gcd |
| Lcm.CodeLcmIff | common/abstractprotocol.cpp:1080-1097 | that is the least common multiple, zeros read as one, if and only if the product fits 64 bits |
| VariableCount.LcmAllIsLeast | common/abstractprotocol.cpp:728-751 | the count is a multiple of every variable field's count and divides every other such number |
| VariableCount.Protocol.AppendVariableField | common/abstractprotocol.cpp:402-408 | the list grows and a primed cache follows |
| VariableCount.Protocol.RemoveVariableField | common/abstractprotocol.cpp:413-439 | the field is removed and the cache counted afresh |
| VariableCount.Protocol.MutateVariableField | common/abstractprotocol.cpp:456-465 | the cache is invalidated before a field is handed out |
| VariableCount.Protocol.ProtocolFrameVariableCount | common/abstractprotocol.cpp:740-751 | the query returns the lcm of all counts and primes the cache |
| VariableCount.AppendKeepsValidIff | common/abstractprotocol.cpp:402-408 | of a primed and an invalidated cache, every append keeps the primed one right and not every append the other |
| VariableCount.UnprimedAppendIff | common/abstractprotocol.cpp:402-408 | an append to any unprimed cache is right for every list if and only if it leaves the cache unprimed |
| VariableCount.InvalidatedAppendIff | common/abstractprotocol.cpp:402-408 | for an invalidated cache, that is so exactly for the counts up to 2^31 coprime to 2^64 - 1, and the others whose quotient has bit 31 set or is zero in its low word |
| VariableCount.UnprimedAppendFails | common/abstractprotocol.cpp:407 | appending a count of five to an unprimed cache leaves a wrong count, whatever the list |
| FramesRepeat.Ip4VariableCount | common/ip4.cpp:834-845 | the lcm of the variable fields' counts and those of the stepped addresses |
| FramesRepeat.CountIsLeast | common/ip4.cpp:834-845 | that count divides every common multiple of the counts |
| FramesRepeat.HeaderRepeats | common/ip4.cpp:410-515 | header i and header i plus that count are the same bytes, checksum and variable fields included |
| Addresses.SubnetKept | common/ip4.cpp:410-442 | every mode, mask and frame keeps the network bits of the base address; a fixed host stays, a random one has the random number's host bits |
| Addresses.HostSteps | common/ip4.cpp:410-442 | a cycle starts at the base host and goes to the next host up or down, around the subnet |
| Addresses.HostsVisited | common/ip4.cpp:463-495 | any count consecutive frames visit min(count, 2^k) hosts of a subnet with k host bits |
| Agent.AddedStreams | server/myservice.cpp:249-311 | adding ids makes exactly the missing streams |
| Agent.DeletedStreams | server/myservice.cpp:313-360 | deleting ids removes exactly those streams |
| Agent.ModifiedStreams | server/myservice.cpp:362-416 | modifying existing streams writes their values over the map |
| Agent.KnownStreamsModified | server/myservice.cpp:362-416 | modifying any streams writes the values of those that exist and leaves the others out |
| Agent.PlacesKept | server/myservice.cpp:249-416 | new streams go to the end of the agent's list, and modified ones stay where they are |
| Agent.AddedGroups | server/devicemanager.cpp:136-158 | adding ids keeps the device groups that exist |
| Agent.DeletedGroups | server/devicemanager.cpp:160-179 | deleting ids removes exactly those groups |
| Agent.ModifiedGroups | server/devicemanager.cpp:181-206 | modifying stores the groups with their steps normalised |
| Agent.KnownGroupsModified | server/devicemanager.cpp:181-206 | likewise for device groups |
| Agent.GroupStored | server/devicemanager.cpp:193-202 | a step of one is stored for a zero MAC step and for a missing IPv6 step, everything else as sent |
| Agent.Built | server/abstractport.cpp:246-247 | after a build the agent has the same streams, in the order of their ordinals as soon as the port is sequential or a stream enabled; in exactly the sent order where ordinals are indices |
| Agent.OrderedByIndex | server/abstractport.cpp:456-457 | a list in the order of its ordinals is the one whose ordinals are its indices, if both hold the same streams |
| Agent.GroupsSteady | server/devicemanager.cpp:136-206 | adding, deleting and modifying device groups keeps all steps set on the agent |
| ClientPort.Port.NewStreamAt | client/port.cpp:306-323 | a stream with the next id is inserted and all ordinals renumbered |
| PortEdits.StreamAdded | client/port.cpp:306-323 | the new stream is at the index with the source's settings, those before it are in place and the rest shifted by one |
| ClientPort.Port.DeleteStreamAt | client/port.cpp:325-336 | a stream is removed and all ordinals renumbered |
| PortEdits.StreamDeleted | client/port.cpp:325-336 | those before the index are in place and the rest closed up |
| PortEdits.StreamSet | client/port.h:120-126 | a stream changed through its pointer keeps id and ordinal, and no other changes |
| ClientPort.Port.InsertStream | client/port.cpp:338-353 | an id from the agent is appended and the allocator moved past it |
| ClientPort.Port.UpdateStream | client/port.cpp:355-375 | the stream with the id is replaced and the list put in order |
| PortEdits.AgentUpdates | client/port.cpp:338-375 | what comes from the agent goes to the end, or in place of what has its id, and nothing else changes; updated streams are in the order of their ordinals |
| ClientPort.Port.DuplicateStreams | client/port.cpp:543-567 | the loops over rounds and sources make the copies of the specification |
| PortEdits.StreamsCopied | client/port.cpp:543-567 | copy j of round r is r times the number of sources plus j behind the old streams, with the next id, its source's settings, and the name followed by the decimal number of the round |
| PortEdits.DecimalReads | client/port.cpp:543-567 | the number in the name is written in decimal digits without leading zeros, and reads back as the round |
| ClientPort.Port.NewDeviceGroupAt | client/port.cpp:782-803 | a group with the next id is inserted and marked modified |
| PortEdits.GroupAdded | client/port.cpp:782-803 | the new group is at the index, the others keep their order |
| ClientPort.Port.DeleteDeviceGroupAt | client/port.cpp:805-816 | a group and its mark are removed |
| PortEdits.GroupDeleted | client/port.cpp:805-816 | the group at the index is gone and the others keep their order |
| ClientPort.Port.SetDeviceGroupAt | client/port.cpp:754-769 | a group handed out for change is marked modified |
| PortEdits.GroupSet | client/port.cpp:754-769 | the group at the index has the new body and its old id, no other changes |
| ClientPort.Port.InsertDeviceGroup | client/port.cpp:818-838 | an id from the agent is appended unless it exists |
| ClientPort.Port.UpdateDeviceGroup | client/port.cpp:840-859 | the group with the id is replaced, unmarked |
| ClientPort.Port.GetDeletedStreamsSinceLastSync | client/port.cpp:377-405 | the ids of the last synchronisation that are gone |
| ClientPort.Port.GetNewStreamsSinceLastSync | client/port.cpp:407-427 | the ids that were not there then |
| ClientPort.Port.GetDeletedDeviceGroupsSinceLastSync | client/port.cpp:445-453 | likewise for device groups |
| ClientPort.Port.GetNewDeviceGroupsSinceLastSync | client/port.cpp:455-464 | likewise for device groups |
| PortEdits.MissingJoined | client/port.cpp:377-464 | the ids are tested one by one and those missing stay in order |
| ClientPort.Port.GetModifiedDeviceGroupsSinceLastSync | client/port.cpp:466-473 | the configurations of exactly the marked groups |
| ClientPort.Port.WhenSyncComplete | client/port.cpp:509-525 | the lists of the last synchronisation are those of now and no group is marked |
| PortEdits.Synchronised | client/port.cpp:509-525 | right after a synchronisation nothing is new, deleted, modified or dirty |
| PortEdits.RunSound | client/port.cpp:306-353 | over every run ids stay distinct and below the allocator, and only live groups are marked modified |
| PortEdits.NewIdsAreNew | client/port.cpp:39-51 | an id given out after any run was never on the port before |
| PortEdits.EditNumbers | client/port.cpp:93-97 | a local add, delete or copy leaves every ordinal equal to its index |
| PortEdits.RunNumbers | client/port.cpp:306-336 | and runs of local edits keep it so |
| ClientPort.ConfigApply | client/portgroup.cpp:501-651 | deleted, new and modified are sent in that order, empty lists left out, then the port is synchronised; an agent in step before then has the controller's streams, in order, and its groups |
| Apply.ApplyConverges | client/portgroup.cpp:526-651 | the agent ends with the controller's streams, in the order they are to be sent, and its normalised groups, and the two are in step |
| Apply.EditKeepsSynced | client/port.cpp:754-816 | local edits keep the unmarked groups equal to the agent's copies |
| Apply.RunThenApply | client/portgroup.cpp:501-651 | after any run of edits and applies, an apply converges, order of sending included |
| Apply.ApplyEqualIff | server/devicemanager.cpp:193-202 | the agent's groups equal the controller's if and only if none of these has a zero MAC step or an IPv6 configuration without a step |
| Apply.AppliedSteady | client/portgroup.cpp:526-651 | an apply keeps the agent's steps set |
| SessionOpen.OrdersExist | server/devicemanager.h:79 | there are orders in which an agent may list its device groups, as the theorems about opening a session suppose |
| SessionOpen.Fetches | client/portgroup.cpp:1246-1305 | in at most six requests the controller holds the agent's streams in order and its groups |
| SessionOpen.ReconfigurationLeaves | client/portgroup.cpp:1076-1203 | the inserted sequence of requests leaves exactly the session's content on the agent, streams in the order they are to be sent, and the transmit mode the session asks for |
| SessionOpen.Reconfigures | client/portgroup.cpp:1048-1244 | a port with content to send ends with it on both sides, sent exactly once, the agent's streams in order |
| SessionOpen.LeavesAlone | client/portgroup.cpp:1228-1244 | a port without is fetched as it is |
| SessionOpen.FetchedIsSynced | client/port.cpp:509-525 | a port fetched from an agent with all steps set is one from which edits and applies go on |
| SessionOpen.RunsSteady | server/devicemanager.cpp:136-206 | an agent with all steps set stays so over any run of requests |
| SessionOpen.OpensInStep | client/portgroup.cpp:1048-1244 | after the opening of a session, reconfigured or not, controller and agent are in step |
| SessionOpen.OpenedThenApplied | client/portgroup.cpp:501-651 | from there, after any run of edits and applies, an apply converges |
| SessionOpen.ContentKeptIff | server/devicemanager.cpp:193-202 | after the exchange the agent's groups are those of the session exactly when none of these has a zero MAC step or an IPv6 configuration without a step |
| PortGroup.PortGroup.ProcessDeviceGroupIdList | client/portgroup.cpp:1339-1403 | the handler deletes what is there, or inserts the ids and asks for configurations |
| PortGroup.PortGroup.ProcessStreamIdList | client/portgroup.cpp:1048-1244 | the handler sends the reconfiguration and starts over, or inserts the ids, synchronises and asks for configurations |
| PortGroup.PortGroup.ProcessDeviceGroupConfigList | client/portgroup.cpp:1438-1470 | the handler updates the groups and asks for the devices |
| PortGroup.PortGroup.ProcessStreamConfigList | client/portgroup.cpp:1271-1305 | the handler updates the streams |
| PortGroup.PortGroup.ChooseContents | client/portgroup.cpp:456-492 | the loops give every content to a port as the specification does |
| PortGroup.ChosenFrom | client/portgroup.cpp:462-492 | a port gets the last content of its name for which it is the first port that nobody else reserved, and none if there is no such content |
| PortGroup.PortGroup.AnswerAll | rpc/pbrpcchannel.cpp:112-140 | whatever the interleaving of the ports in the queue, each ends where it would have ended alone |
| PortGroup.PortGroup.InsertGroupIds | client/port.cpp:818-838 | the ids are inserted and the allocator moves past them all |
| PortGroup.PortGroup.OpenSession | client/portgroup.cpp:447-492 | every port is fetched; chosen ports end with their content on both sides, sent once, the others with the agent untouched; all ids are below the allocator and every port is in step |
| Rates.Port.RecalculateAverageRates | client/port.cpp:113-159 | the averages are the mean of the active streams or their sum, by transmit mode |
| Rates.AveragesAre | client/port.cpp:37-159 | these are the totals of packets, and of bits with twenty bytes more for each packet, over the streams that are sent, divided by the number of the enabled ones in sequential mode |
| Rates.Port.SetAverageRate | client/port.cpp:161-304 | the active streams get their shares, the others keep theirs, and the asked rate is the average afterwards |
| Rates.GoalMet | client/port.cpp:161-304 | for packets or bits, in both modes, the redistributed streams average the goal |
| Rates.RatiosKept | client/port.cpp:161-304 | asking for packets, or sequentially for bits, keeps all proportions of the active streams; interleaved, bits are added in proportion to packets |
| StreamStats.StreamStatsModel.AppendRecord | client/streamstatsmodel.cpp:190-221 | one record is counted in its cell and totals and listed; one under the reserved guid is counted four times |
| StreamStats.StreamStatsModel.AppendStreamStatsList | client/streamstatsmodel.cpp:180-234 | the tables hold what all records so far add up to, and the lists name their guids and ports, each once, with aggregate rows in between |
| StreamStats.GrandTotal | client/streamstatsmodel.cpp:203-214 | the grand total is the sum of the guids' totals and of the ports' totals |
| StreamStats.CellTotals | client/streamstatsmodel.cpp:198-214 | without repeated keys each total is the sum of its cells, and each loss, that of the grand total included, is sent less received |
| StreamStats.ShownConserves | client/streamstatsmodel.cpp:203-224 | so the table that is shown conserves, over the rows and columns it lists |
| StreamStats.CellsCompleteIff | client/streamstatsmodel.cpp:198-201 | the cells show all that is counted, whatever the counters, if and only if no guid and port come twice |
| Igmp.GmpRecord | common/gmp.cpp:414-442 | type, auxiliary length, source count and auxiliary data of a record |
| Igmp.IgmpRecord | common/igmp.cpp:212-235 | room is made after the fourth byte and the addresses are written there |
| Igmp.IgmpRecords | common/igmp.cpp:212-235 | all records one after the other |
| Igmp.RoundTripIff | common/gmp.cpp:414-442 | a receiver following RFC 3376 section 4.2 reads back exactly the records if and only if all length fields are true |
| Igmp.EnteredRoundTripIff | common/gmp.cpp:647-676 | records entered without overrides and padded come back if and only if their counts fit |

## Left out

- Random modes of addresses and variable fields: the model takes the random numbers as parameters, and periodicity and acceptance are stated without these modes.
- Big-endian hosts: 16-bit loads are little-endian.
- IPv6 address stepping: both halves of the address step together under masks built from the low bits; the model takes the addresses as given.
- `protocolFramePayloadVariableCount` computes a count and then returns a constant; nothing rests on it.
- The cached `protoSize` is never invalidated in the source; sizes are those of one fixed configuration.
- The bookkeeping of a pointer from `mutableVariableField` or `mutableDeviceGroupByIndex` that is kept and written through later: the model writes at once.
- Setting TCP fields, ARP, MLD, SCTP headers, and the meta fields of each protocol, which are not emitted.
- ProtocolChain.Protocol.Combo: the bytes a combination enters a checksum with are given to it, and that every protocol has as many bytes as its size is a condition of the theorems; `Combo.ComboPacks` and `Packing.FrameSizeIsLength` are why.
- VariableCount.AppendKeepsValidIff: of unprimed caches it takes the invalidated one only; the others are for `UnprimedAppendIff`, append by append.
- PortGroup.PortGroup.OpenSession: the question to the user about a reserved port is answered at once; in the source answers may arrive while it is open, before content is chosen for later ports.
- Streams and device groups beyond their id, ordinal and steps are opaque text; the random MAC address of a fresh device group is the body it starts with.
- Agent.Built: among equal ordinals the model keeps the order of insertion, the library's sort need not.
- Of the port settings that `modifyPort` changes, the transmit mode is modelled and no other; whether it is sent is a flag of the session content.
- Failed requests, ports that are transmitting, disconnects, notifications, ids that wrap around, and more than one controller.
- Rates.Port.SetAverageRate: one method stands for the packet form and the bit form, which differ only in the share; rounding of doubles is not modelled.
- Igmp.RoundTripIff: auxiliary data is ASCII; other bytes pass through a text conversion that is not part of this model.
- The loops of the agent over a request are recursive functions, because the agent is seen through its effect only.
- User interface, files, timers, and protocol buffers.
