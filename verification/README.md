# IPNC protocol models

Dafny models of the parts of an IP camera's firmware where a wrong step is hard to see: packet and
option codecs, the DHCP lease machine, the field-bus server, the request/reply protocol over one
message queue, an intrusive list, a table-driven scanner and two condition-variable protocols. Each
model follows the branches, constants and error returns of the C code; the target is little endian
with an unsigned `char` and a 32-bit `int`.

Run `dafny verify dfyconfig.toml` to check everything. The modules:

- `Bytes`: bytes, words and in-place copies used by the others.
- `InternetChecksum`, `UdpIp`: the checksum, the packet builder and the packet checker of dhcpcd.
- `DhcpOptions`, `DhcpBuild`: the option parser with its table, and the eight message builders.
- `DhcpLease`: the lease machine as steps over a clock and one armed alarm.
- `TokenRing`: the two frame converters.
- `Crc16`, `ModbusFrames`, `PollOrder`, `RsPort`: checksum, reassembly and polling of the serial ports.
- `Iec104`: one client of the IEC 60870-5-104 station, with an observer that sees only the wire.
- `MsgQueue`: processes, threads and the server over one queue and one shared segment.
- `LinuxList`: list.h over heap nodes, a ring described by the sequence of its nodes.
- `FlexTables`, `FlexScanner`: the automaton behind the compressed tables, and the scanner's buffer.
- `Monitor`, `Rendezvous`, `Pause`: one mutex and one condition variable, and its two users.

## What the code does differently from its promises

Each of these is stated exactly by a lemma of the table.

- The message type reported by the option parser survives from an earlier message, so a reply without
  option 53 renews a lease (`DhcpLease.RenewedIff`).
- The lease deadline rests on T1 and T2 of the last ACK ending within its lease, which the client does
  not check, and a reply that is no ACK can still move it (`DhcpLease.InTimeIff`,
  `DhcpLease.StrayLeaseIff`).
- The entry count `num` drifts when a time option has a length other than 4 (`DhcpOptions.CountDrift`).
- udpipchk leaves the header overwritten when a packet has IP options and no UDP checksum
  (`UdpIp.HeaderRestoredIff`), and accepts header lengths below 20, for which it writes in front of the
  packet (`UdpIp.ShortHeaderWritesInFront`).
- client_id has 48 bytes and clientIDsetup fits an id of 45, while dhcpcd.c:245 admits 48; classIDsetup
  takes the untruncated length of the description (`DhcpBuild.ClientIdSetupValidIff`,
  `DhcpBuild.ClassIdSentIff`).
- tr2eth clears the top bit of the source address (`TokenRing.RoundTripIff`).
- A Modbus reply of 256 bytes or more in several pieces fills the buffer for good, and a first piece of
  more than 256 bytes leaves it (`ModbusFrames.DeliveredIff`, `ModbusFrames.FullForever`,
  `ModbusFrames.PrefixOverflowsIff`).
- Sequence numbers lose bit 7, the length octet of an I-frame is fixed at 4, an acknowledgement too far
  back unlocks the window, t1 is never stopped, and every accepted frame starts t2 anew
  (`Iec104.PackRoundTripIff`, `Iec104.LengthOctetIff`, `Iec104.BelowZeroUnblocked`, `Iec104.ClosesIff`,
  `Iec104.UnacknowledgedIff`).
- SysDrvInit accepts ids whose memory slot lies outside the segment (`MsgQueue.SlotInsideIff`), and no
  call checks that its data fits the slot (`MsgQueue.OwnAnswersIff`, `MsgQueue.RequestsIntactIff`).
- Rendezvous_meet and Pause_test wait without repeating their test (`Rendezvous.LeavesEarlyIff`,
  `Pause.LeavesPausedIff`).

## Model

| member | source | states |
|---|---|---|
| InternetChecksum.InCksum | ipnc/ipnc_app/network/dhcpcd/udpipgen.c:27-48 | the loop over words, the odd byte and two folds give the complement of the one's complement sum (section 1 of RFC 1071), with the running total never leaving a 32-bit int |
| InternetChecksum.SumFitsIff | ipnc/ipnc_app/network/dhcpcd/udpipgen.c:27-48 | the int total overflows on no buffer of n bytes if and only if n <= 65537 |
| InternetChecksum.TwoFolds | ipnc/ipnc_app/network/dhcpcd/udpipgen.c:27-48 | two folds are enough for every non-negative int total |
| InternetChecksum.StoredChecksumVerifies | ipnc/ipnc_app/network/dhcpcd/udpipgen.c:27-48 | the checksum, or 0xFFFF for a computed 0, stored in a zeroed aligned word makes the whole buffer check to 0 |
| InternetChecksum.WordChangeUndetectedIff | ipnc/ipnc_app/network/dhcpcd/udpipgen.c:27-48 | replacing one aligned word goes unnoticed exactly when nothing changes or 0x0000 and 0xFFFF trade places among other bytes not all zero |
| InternetChecksum.ByteOrderIndependent | ipnc/ipnc_app/network/dhcpcd/udpipgen.c:27-48 | the little-endian computation stores on the wire what RFC 1071 defines in network order, odd lengths included |
| UdpIp.PacketLayer.UdpIpGen | ipnc/ipnc_app/network/dhcpcd/udpipgen.c:50-94 | in place in front of the payload: complete IP and UDP headers with both checksums, nothing else touched, ip_id advanced modulo 2^16 |
| UdpIp.UdpIpChk | ipnc/ipnc_app/network/dhcpcd/udpipgen.c:96-126 | return value and final buffer for every packet: 0 iff accepted, -1 iff the IP header is bad, and which bytes the overlay leaves changed |
| UdpIp.HeaderOkIffRfc | ipnc/ipnc_app/network/dhcpcd/udpipgen.c:96-104 | the header passes exactly when it sums to all ones in network order (RFC 791) |
| UdpIp.AcceptsIffRfc | ipnc/ipnc_app/network/dhcpcd/udpipgen.c:96-126 | behind a good header a packet is accepted exactly when its UDP sum is 0 or the sum of RFC 768, with the pseudo header in the RFC's order, is all ones |
| UdpIp.GeneratedPacketAccepted | ipnc/ipnc_app/network/dhcpcd/udpipgen.c:50-126 | every packet udpipgen builds, for all addresses, ports and payloads, passes udpipchk, also when the computed UDP sum is 0 |
| UdpIp.GeneratedFields | ipnc/ipnc_app/network/dhcpcd/udpipgen.c:50-94 | every header field lies where RFC 791 and RFC 768 put it, type of service, fragment field and lifetime included; payload and surroundings are untouched |
| UdpIp.AcceptedPacketUnchanged | ipnc/ipnc_app/network/dhcpcd/udpipgen.c:96-126 | a successful check of a packet without IP options leaves every byte as it was |
| UdpIp.HeaderRestoredIff | ipnc/ipnc_app/network/dhcpcd/udpipgen.c:96-126 | a successful check gives the twenty header bytes back if and only if the sender sent a UDP checksum or the header repeats itself over the distance it was moved |
| UdpIp.OptionsOverwriteHeader | ipnc/ipnc_app/network/dhcpcd/client.c:627-663 | a concrete frame that dhcpSendAndRecv hands over and udpipchk accepts, with a 24-byte header and no UDP checksum, whose header does not come back |
| UdpIp.ShortHeaderWritesInFront | ipnc/ipnc_app/network/dhcpcd/udpipgen.c:96-126 | with a header length below 20 a successful check writes 20 - length bytes in front of the packet: which, and nothing else outside the header |
| UdpIp.FrontOverwritten | ipnc/ipnc_app/network/dhcpcd/client.c:627-663 | a concrete frame that is handed over and accepted, with a header length of 8, of whose Ethernet header twelve bytes do not survive |
| UdpIp.MarkedUnchanged | ipnc/ipnc_app/network/dhcpcd/client.c:627-634 | a packet found by its first two bytes 0x45 and 0 comes back byte for byte |
| UdpIp.HandedInBuffer | ipnc/ipnc_app/network/dhcpcd/client.c:625-660 | for a packet without options the tests of dhcpSendAndRecv keep udpipchk inside the receive buffer |
| UdpIp.AcceptedPacketFrame | ipnc/ipnc_app/network/dhcpcd/udpipgen.c:96-126 | with a header length of 20 or more a successful check changes no byte outside the header, and inside it only option bytes and those the moved copy overlaps |
| UdpIp.RejectedPacketFrame | ipnc/ipnc_app/network/dhcpcd/udpipgen.c:96-126 | a bad IP header leaves the buffer alone, a bad datagram leaves the pseudo header, octet by octet, in the twenty bytes in front of the UDP header and all else alone |
| UdpIp.PayloadCorruptionAcceptedIff | ipnc/ipnc_app/network/dhcpcd/udpipgen.c:50-126 | after a good check, replacing a payload word passes exactly when nothing changes or 0x0000 and 0xFFFF trade places |
| DhcpOptions.DecodeEncode | ipnc/ipnc_app/network/dhcpcd/client.c:118-150 | a list of options written tag, length, value with any padding and closed by 255 scans back to itself |
| DhcpOptions.OptionOctets | ipnc/ipnc_app/network/dhcpcd/client.c:127-150 | in octets: a pad is 0, an option its tag, length and value, and 255 ends the list (section 2 of RFC 2132) |
| DhcpOptions.EncodeDecode | ipnc/ipnc_app/network/dhcpcd/client.c:118-150 | every option field the scan can walk is the encoding of what it reads, padding aside |
| DhcpOptions.ApplyGivesLast | ipnc/ipnc_app/network/dhcpcd/client.c:118-150 | a tag holds the last value the message brings and otherwise keeps its old one |
| DhcpOptions.OptionTable.ScanOptions | ipnc/ipnc_app/network/dhcpcd/client.c:118-150 | the pointer walk stores exactly the decoded options over the old table |
| DhcpOptions.OptionTable.ParseDhcpMsgRecv | ipnc/ipnc_app/network/dhcpcd/client.c:113-402 | the whole parser against its specification: table afterwards and reported message type |
| DhcpOptions.TimersNeverStale | ipnc/ipnc_app/network/dhcpcd/client.c:331-398 | after every message lease, T1 and T2 are set with 4 bytes, and a timer the message did not bring is floor(lease/2) or floor(7 lease/8), never an earlier value |
| DhcpOptions.DefaultedTimersOrdered | ipnc/ipnc_app/network/dhcpcd/client.c:331-398 | T1 <= T2 <= lease when both timers are defaulted |
| DhcpOptions.CountDrift | ipnc/ipnc_app/network/dhcpcd/client.c:123-398 | each message moves num away from the number of set entries by the number of time options of a wrong length |
| DhcpOptions.CountExactIff | ipnc/ipnc_app/network/dhcpcd/client.c:123-398 | num stays exact across a message if and only if its options 51, 58 and 59 have length 4 or are absent |
| DhcpOptions.RunKeepsTable | ipnc/ipnc_app/network/dhcpcd/client.c:113-402 | over any sequence of well-formed messages num is exact and the three times are defined |
| DhcpOptions.ReportedType | ipnc/ipnc_app/network/dhcpcd/client.c:399-401 | the reported type is the message's own, or, if it has none, the one an earlier message left behind |
| DhcpOptions.BroughtOrKept | ipnc/ipnc_app/network/dhcpcd/client.c:113-303 | of every option but the times a value the message brought stays, else the older one, and only server id, DNS, mask and broadcast address are ever made up |
| DhcpOptions.MadeUpAddresses | ipnc/ipnc_app/network/dhcpcd/client.c:222-303 | in octets: the sender as server, the server as name server, the mask of the address class by the first octet of yiaddr, or of ciaddr if that is 0, and the broadcast address from address and mask |
| DhcpOptions.BroadcastOctet | ipnc/ipnc_app/network/dhcpcd/client.c:297-303 | the broadcast octet in numbers for each of the nine octets a mask can have |
| DhcpOptions.FirstFour | ipnc/ipnc_app/network/dhcpcd/client.c:138-145 | a stored value read as an address: its first four bytes, a shorter one continued by its terminating zero |
| DhcpOptions.OrNotBit | ipnc/ipnc_app/network/dhcpcd/client.c:297-303 | and bit by bit for any mask: set where the address or the complement of the mask is |
| DhcpBuild.Builder.BuildDhcpDiscover | ipnc/ipnc_app/network/dhcpcd/buildmsg.c:47-128 | inside the 312 option bytes, an IP packet that udpipchk accepts, with the Ethernet, IP and port addresses, hardware type, secs, flags, ciaddr and chaddr of this kind of message octet by octet and zeros elsewhere, whose option field decodes to exactly this list: size, wanted address unless RFC 1541, lease time, parameter list, host name, class and client id |
| DhcpBuild.Builder.BuildDhcpRequest | ipnc/ipnc_app/network/dhcpcd/buildmsg.c:130-215 | inside the 312 option bytes, an IP packet that udpipchk accepts, with the Ethernet, IP and port addresses, hardware type, secs, flags, ciaddr and chaddr of this kind of message octet by octet and zeros elsewhere, whose option field decodes to exactly this list: size, server id, wanted address unless RFC 1541, stored lease, then the common tail |
| DhcpBuild.Builder.BuildDhcpRenew | ipnc/ipnc_app/network/dhcpcd/buildmsg.c:217-290 | inside the 312 option bytes, an IP packet that udpipchk accepts, with the Ethernet, IP and port addresses, hardware type, secs, flags, ciaddr and chaddr of this kind of message octet by octet and zeros elsewhere, whose option field decodes to exactly this list: size and the common tail, ciaddr set |
| DhcpBuild.Builder.BuildDhcpRebind | ipnc/ipnc_app/network/dhcpcd/buildmsg.c:292-363 | inside the 312 option bytes, an IP packet that udpipchk accepts, with the Ethernet, IP and port addresses, hardware type, secs, flags, ciaddr and chaddr of this kind of message octet by octet and zeros elsewhere, whose option field decodes to exactly this list: size, stored lease, the common tail, ciaddr set |
| DhcpBuild.Builder.BuildDhcpReboot | ipnc/ipnc_app/network/dhcpcd/buildmsg.c:365-443 | inside the 312 option bytes, an IP packet that udpipchk accepts, with the Ethernet, IP and port addresses, hardware type, secs, flags, ciaddr and chaddr of this kind of message octet by octet and zeros elsewhere, whose option field decodes to exactly this list: size, wanted address unless RFC 1541, lease time, the common tail |
| DhcpBuild.Builder.BuildDhcpRelease | ipnc/ipnc_app/network/dhcpcd/buildmsg.c:445-479 | inside the 312 option bytes, an IP packet that udpipchk accepts, with the Ethernet, IP and port addresses, hardware type, secs, flags, ciaddr and chaddr of this kind of message octet by octet and zeros elsewhere, whose option field decodes to exactly this list: server id and client id only, ciaddr set |
| DhcpBuild.Builder.BuildDhcpDecline | ipnc/ipnc_app/network/dhcpcd/buildmsg.c:482-524 | inside the 312 option bytes, an IP packet that udpipchk accepts, with the Ethernet, IP and port addresses, hardware type, secs, flags, ciaddr and chaddr of this kind of message octet by octet and zeros elsewhere, whose option field decodes to exactly this list: server id, declined address unless RFC 1541, client id |
| DhcpBuild.Builder.BuildDhcpInform | ipnc/ipnc_app/network/dhcpcd/buildmsg.c:527-591 | inside the 312 option bytes, an IP packet that udpipchk accepts, with the Ethernet, IP and port addresses, hardware type, secs, flags, ciaddr and chaddr of this kind of message octet by octet and zeros elsewhere, whose option field decodes to exactly this list: size and the common tail, ciaddr set |
| DhcpBuild.ClientIdSetupValidIff | ipnc/ipnc_app/network/dhcpcd/client.c:412-432 | clientIDsetup stays inside the 48 bytes of client_id, and so within the limits of the builders, if and only if no id was given or one of at most 45 bytes |
| DhcpBuild.Interface.ClientIdSetup | ipnc/ipnc_app/network/dhcpcd/client.c:412-432 | one whole option at the front of client_id, its length in client_len, the rest untouched |
| DhcpBuild.Interface.constructor | ipnc/ipnc_app/network/dhcpcd/client.h:137-151 | an empty client_id of 48 bytes |
| DhcpBuild.ClassIdSentIff | ipnc/ipnc_app/network/dhcpcd/client.c:404-410 | the class sent is the system description, from inside class_id, if and only if that has at most 47 bytes |
| DhcpBuild.CarriedIff | ipnc/ipnc_app/network/dhcpcd/buildmsg.c:47-591 | for every tag and message, exactly when the message carries the option |
| DhcpBuild.ItemsSay | ipnc/ipnc_app/network/dhcpcd/buildmsg.c:47-591 | every option of every message has the value it stands for, message type included, and none comes twice |
| DhcpBuild.Table5Iff | ipnc/ipnc_app/network/dhcpcd/buildmsg.c:47-591 | the messages meet every MUST and MUST NOT of table 5 of RFC 2131, the row for all other options included, exactly unless the client runs in RFC 1541 mode and the message names a wanted address |
| DhcpLease.NextValid | ipnc/ipnc_app/network/dhcpcd/client.c:571-711 | every state that reads lease, T1 or T2 finds them in the table |
| DhcpLease.AcquiredOnlyByAck | ipnc/ipnc_app/network/dhcpcd/client.c:953-1004 | on every run a first lease starts only at a BOOTREPLY with the xid sent that itself carries DHCP_ACK |
| DhcpLease.RenewedIff | ipnc/ipnc_app/network/dhcpcd/client.c:1020-1081 | Renew and Rebind go back to Bound exactly on such a reply, or on one without a type while an earlier ACK type lies in the table |
| DhcpLease.BoundEntered | ipnc/ipnc_app/network/dhcpcd/client.c:953-1081 | a step leads to Bound if and only if it configures an acknowledged address or brings the ACK to Renew or Rebind |
| DhcpLease.RenewEntered | ipnc/ipnc_app/network/dhcpcd/signals.c:93-94 | a step leads to Renew if and only if the alarm or the sleep of Bound ends, or Bound finds T1 past |
| DhcpLease.RebindEntered | ipnc/ipnc_app/network/dhcpcd/signals.c:97-98 | a step leads to Rebind if and only if the alarm of Renew rings, its socket fails or a NAK comes, or Renew finds T2 past |
| DhcpLease.StopEntered | ipnc/ipnc_app/network/dhcpcd/signals.c:101-102 | likewise Stop from Rebind and the end of the lease |
| DhcpLease.InitEntered | ipnc/ipnc_app/network/dhcpcd/client.c:867-966 | a step leads to Init if and only if a request fails or is refused, the cached address times out or is not there, the address is in use, or everything was stopped |
| DhcpLease.ExitedEntered | ipnc/ipnc_app/network/dhcpcd/signals.c:83-127 | a step ends the program if and only if it is a signal, a failed configuration, or the failure, refusal or timeout of a first lease |
| DhcpLease.WaitsEntered | ipnc/ipnc_app/network/dhcpcd/client.c:1006-1081 | Bound, Renew and Rebind begin to wait if and only if they find time left |
| DhcpLease.AcquiringEntered | ipnc/ipnc_app/network/dhcpcd/client.c:867-933 | Discover follows exactly a call of Init, Start exactly one of Stop, and Reboot comes once |
| DhcpLease.RequestingEntered | ipnc/ipnc_app/network/dhcpcd/client.c:908-949 | an address is requested exactly after an offer, or a cached one at the start |
| DhcpLease.ConfiguringEntered | ipnc/ipnc_app/network/dhcpcd/client.c:953-1000 | and configured exactly after an ACK to that request |
| DhcpLease.AlarmLaw | ipnc/ipnc_app/network/dhcpcd/client.c:1006-1081 | the alarm after every step: what is left of T1, T2 or lease in the calls that wait, the timeout anew for a cached address given up, off once it rang or the first lease is configured |
| DhcpLease.DataLaw | ipnc/ipnc_app/network/dhcpcd/client.c:867-1081 | clock, time and lease of the last ACK, xid and table after every step |
| DhcpLease.CutKeepsBits | ipnc/ipnc_app/network/dhcpcd/client.c:1010 | the time left is the one int with the low 32 bits of the difference |
| DhcpLease.Timetable | ipnc/ipnc_app/network/dhcpcd/client.c:1006-1081 | with nobody answering, on every run and to the second: idle to T1, asking its server to T2, asking everybody to the end of the lease, and without it from then on (section 4.4.5 of RFC 2131) |
| DhcpLease.QuietRun | ipnc/ipnc_app/network/dhcpcd/client.c:1006-1081 | such runs there are up to every second of the lease |
| DhcpLease.FirstLeaseInTime | ipnc/ipnc_app/network/dhcpcd/client.c:867-875 | on every run of the program the first lease is configured within the timeout, or twice the timeout if a cached address was asked for first, or the program has ended |
| DhcpLease.InvKept | ipnc/ipnc_app/network/dhcpcd/client.c:1006-1081 | every step keeps the bound on the armed alarm that the deadline follows from |
| DhcpLease.LeaseNeverOutlived | ipnc/ipnc_app/network/dhcpcd/signals.c:83-127 | on every fair run with prompt alarms the client is in Bound, Renew or Rebind only while now <= last ACK + lease (section 4.4.5 of RFC 2131) |
| DhcpLease.BoundInTimeIff | ipnc/ipnc_app/network/dhcpcd/client.c:1006-1081 | from Bound, for all times and however long ago the ACK was sent for, that deadline holds on all continuations if and only if no wait that Bound, Renew and Rebind can arm, at any moment they can be called, reaches beyond it |
| DhcpLease.InTimeIff | ipnc/ipnc_app/network/dhcpcd/client.c:1006-1081 | right after an ACK that is: the wait for T1 and the wait for T2, so far as they fit the int and take place, end within the lease |
| DhcpLease.StrayLeaseIff | ipnc/ipnc_app/network/dhcpcd/client.c:1020-1081 | in Renew, a reply that is neither ACK nor NAK leaves the deadline intact exactly when the lease time it stores ends within the lease of the last ACK or overflows the int that Rebind computes |
| DhcpLease.Overstays | ipnc/ipnc_app/network/dhcpcd/client.c:1006-1081 | otherwise waiting, with a sleep that ends early or a socket that fails at the wrong moment, is enough to outlive the lease |
| DhcpLease.OverstaysFromStart | ipnc/ipnc_app/network/dhcpcd/client.c:571-1081 | from every start of the program a run outlives a lease: an ACK with a lease of one second and T1 of two |
| DhcpLease.RenewedWithoutType | ipnc/ipnc_app/network/dhcpcd/client.c:571-1081 | from every start of the program a run reaches Renew and is renewed by a reply without any option |
| TokenRing.Eth2Tr | ipnc/ipnc_app/network/dhcpcd/client.c:460-500 | the overlapping move up and the Token Ring header, broadcast and unicast layout, inside the buffer |
| TokenRing.TrOctets | ipnc/ipnc_app/network/dhcpcd/client.c:460-500 | the converted frame octet by octet, for broadcasts and unicasts |
| TokenRing.Tr2Eth | ipnc/ipnc_app/network/dhcpcd/client.c:502-542 | the moves down and the Ethernet header, with the fake routing field step taken at most once |
| TokenRing.TakenIff | ipnc/ipnc_app/network/dhcpcd/client.c:502-530 | a frame is taken if and only if its LLC header follows the addresses, or a routing field of even length |
| TokenRing.RoutedFrame | ipnc/ipnc_app/network/dhcpcd/client.c:502-542 | a frame with a routing field of any length comes out with its addresses, type and payload |
| TokenRing.RoundTripIff | ipnc/ipnc_app/network/dhcpcd/client.c:460-542 | eth2tr followed by tr2eth restores addresses, ethertype and payload if and only if the source address has its top bit clear |
| Crc16.TableCorrect | ipnc/ipnc_app/iec104/plcserver.c:263-310 | each pair of table entries is the register after eight bit steps from that byte |
| Crc16.GetCRC16 | ipnc/ipnc_app/iec104/plcserver.c:312-326 | equals the bit-serial CRC with polynomial 0xA001 and initial value 0xFFFF (section 6.2.2 of MODBUS over Serial Line V1.02), its bytes swapped |
| Crc16.RegisterIsBits | ipnc/ipnc_app/iec104/plcserver.c:312-326 | the byte-wise register equals shifting in the bits of the message one by one |
| Crc16.CheckValue | ipnc/ipnc_app/iec104/plcserver.c:312-326 | the check value of this CRC for the digits 123456789 is 0x4B37 |
| Crc16.StepsInjective | ipnc/ipnc_app/iec104/plcserver.c:312-326 | shifting is a bijection of the register |
| Crc16.BurstDetected | ipnc/ipnc_app/iec104/plcserver.c:312-326 | two messages that differ inside at most sixteen consecutive bits have different checksums |
| Crc16.TwoBytesDetected | ipnc/ipnc_app/iec104/plcserver.c:312-326 | the same for any difference inside two adjacent bytes |
| Crc16.SeventeenBitsMissed | ipnc/ipnc_app/iec104/plcserver.c:312-326 | sixteen is exact: the seventeen-bit generator pattern is invisible in every message |
| Crc16.ResidueIff | ipnc/ipnc_app/iec104/plcserver.c:1600-1609 | a message with two bytes appended has CRC 0 exactly when they are its CRC in the order send_rs_frame writes it |
| ModbusFrames.FitsIff | ipnc/ipnc_app/iec104/plcserver.c:1409-1455 | the copies of one call stay inside asyn_buf if and only if bytes are stored already, the piece completes a reply, or it has at most 256 bytes |
| ModbusFrames.PrefixOverflowsIff | ipnc/ipnc_app/iec104/plcserver.c:1409-1455 | a first piece of a reply overflows asyn_buf exactly when it has more than 256 bytes and lacks some |
| ModbusFrames.OverflowingReply | ipnc/ipnc_app/iec104/plcserver.c:2311 | a concrete such piece, of 259 bytes |
| ModbusFrames.SplitFitsIff | ipnc/ipnc_app/iec104/plcserver.c:1409-1503 | a split of a reply stays inside asyn_buf exactly when its first piece is the whole reply or has at most 256 bytes |
| ModbusFrames.DeliveredIff | ipnc/ipnc_app/iec104/plcserver.c:1409-1503 | every split of a reply into non-empty pieces stays inside the buffer, delivers exactly that reply once and leaves the buffer empty if and only if the reply is at most 255 bytes or comes in one piece |
| ModbusFrames.RestDelivers | ipnc/ipnc_app/iec104/plcserver.c:1409-1503 | nothing is delivered before the last piece |
| ModbusFrames.ConversationDelivers | ipnc/ipnc_app/iec104/plcserver.c:1409-1503 | any conversation of such replies, each split in any way, comes out complete and in order |
| ModbusFrames.ExceptionDelivered | ipnc/ipnc_app/iec104/plcserver.c:1409-1503 | an exception reply, spelled out, comes out of any split as its five bytes |
| ModbusFrames.DataDelivered | ipnc/ipnc_app/iec104/plcserver.c:1409-1503 | a data reply of up to 250 bytes of data, spelled out, comes out of any split whole |
| ModbusFrames.FullForever | ipnc/ipnc_app/iec104/plcserver.c:1453-1471 | a full buffer is never emptied: each later piece hands over the same 256 bytes |
| RsPort.Port.CheckModbusFrame | ipnc/ipnc_app/iec104/plcserver.c:1409-1503 | branch by branch on the 256-byte array: stored bytes and delivered frames are those of the specification |
| RsPort.Port.SendRsFrame | ipnc/ipnc_app/iec104/plcserver.c:1569-1642 | the next channel in cyclic order on RS485, none on RS232, its address, type, start and count in that order, and eight bytes whose CRC is 0 |
| RsPort.Port.constructor | ipnc/ipnc_app/iec104/plcserver.c:1259-1279 | an empty buffer and sub_id -1 |
| PollOrder.PollRotates | ipnc/ipnc_app/iec104/plcserver.c:1576-1588 | one poll takes the first enabled channel of the cyclic order and puts it at the end |
| PollOrder.PollsCycle | ipnc/ipnc_app/iec104/plcserver.c:1576-1588 | consecutive polls run through the enabled channels in cyclic order from any sub_id |
| PollOrder.EachPolledOnce | ipnc/ipnc_app/iec104/plcserver.c:1576-1588 | as many polls as there are enabled channels poll each of them exactly once and no other, from any sub_id including -1 |
| PollOrder.NoneEnabled | ipnc/ipnc_app/iec104/plcserver.c:1576-1588 | with nothing enabled the loop goes once around |
| Iec104.AlwaysLinked | ipnc/ipnc_app/iec104/plcserver.c:419-485 | on every run win_k is 12 less what is unacknowledged, transfer is on between STARTDT and STOPDT, accepted frames are acknowledged or t2 runs, and t1 counts from the last I-frame sent |
| Iec104.WindowIff | ipnc/ipnc_app/iec104/plcserver.c:419-485 | never more than 12 and never fewer than 0 I-frames are outstanding if and only if every S-frame acknowledges a number from V(S)-12 to V(S) (section 5.5 of IEC 60870-5-104) |
| Iec104.BelowZeroUnblocked | ipnc/ipnc_app/iec104/plcserver.c:442-457 | once below zero the window blocks nothing: until the next acknowledgement every frame offered goes out, on any run |
| Iec104.ActiveIsTransferring | ipnc/ipnc_app/iec104/plcserver.c:545-588 | the client state says whether a STARTDT was received with no STOPDT after it |
| Iec104.DataOnlyWhileTransferring | ipnc/ipnc_app/iec104/plcserver.c:428-431 | no I-frame is sent or accepted outside transfer |
| Iec104.AcknowledgedInTime | ipnc/ipnc_app/iec104/plcserver.c:1867-1880 | on a connection nobody has closed, six seconds after the last accepted I-frame the peer has been told of it |
| Iec104.AcknowledgesIff | ipnc/ipnc_app/iec104/plcserver.c:1867-1880 | an S-frame with the count of accepted frames goes out exactly at the sixth second since the last acceptance, if the peer was not told |
| Iec104.UnacknowledgedIff | ipnc/ipnc_app/iec104/plcserver.c:590-668 | while the station sends no data, an accepted frame stays unacknowledged if and only if no second is the sixth since the latest acceptance |
| Iec104.AcceptedAtMost128 | ipnc/ipnc_app/iec104/plcserver.c:590-668 | no run accepts more than 128 I-frames, because of the numbers |
| Iec104.Postponed | ipnc/ipnc_app/iec104/plcserver.c:623 | a run on which 128 accepted frames stay unacknowledged for 640 seconds |
| Iec104.ClosesIff | ipnc/ipnc_app/iec104/plcserver.c:1853-1866 | on a connection nobody has closed, a second closes it exactly when it is the fifteenth since the last I-frame sent, acknowledged or not |
| Iec104.ClosesAgainIff | ipnc/ipnc_app/iec104/plcserver.c:1853-1866 | a connection closed for a frame out of sequence is closed once more by the timer, at that same second |
| Iec104.WireNumbers | ipnc/ipnc_app/iec104/plcserver.c:433-438 | every I-frame carries the counts of frames sent and accepted and the unchanged ASDU, every S-frame the count accepted |
| Iec104.OfferLaw | ipnc/ipnc_app/iec104/plcserver.c:419-459 | on every run an offered ASDU goes out if and only if transfer is on and not exactly 12 frames are unacknowledged, then as one I-frame given octet by octet |
| Iec104.AnswerLaw | ipnc/ipnc_app/iec104/plcserver.c:545-668 | on every run a received frame is answered by the confirmation of an activation, octet by octet, by closing if it is an I-frame out of sequence, and otherwise by nothing |
| Iec104.SecondLaw | ipnc/ipnc_app/iec104/plcserver.c:1846-1892 | on every run what a second brings: closing at the end of t1, then an S-frame, octet by octet, at the end of t2 |
| Iec104.Confirmed | ipnc/ipnc_app/iec104/plcserver.c:545-588 | each activation is answered by the whole frame with its confirmation bit, other U-frames by nothing |
| Iec104.PackRoundTripIff | ipnc/ipnc_app/iec104/plcserver.c:434-437 | a sequence number survives writing and reading exactly when it is below 65536 and its bit 7 is clear |
| Iec104.StandardPackIff | ipnc/ipnc_app/iec104/plcserver.c:434-437 | the written number is the standard's encoding exactly below 128 |
| Iec104.ReadsStandardIff | ipnc/ipnc_app/iec104/plcserver.c:601-603 | a number encoded by the standard is read right exactly below 128 |
| Iec104.StandardPeerKeptIff | ipnc/ipnc_app/iec104/plcserver.c:590-660 | an in-sequence I-frame numbered by the standard keeps the connection exactly while both counts are below 128 |
| Iec104.LengthOctetIff | ipnc/ipnc_app/iec104/plcserver.c:433-438 | the length octet of an I-frame is right exactly when there is no ASDU |
| Iec104.Client.SendIFrame | ipnc/ipnc_app/iec104/plcserver.c:419-459 | one step of the specification, frame on the wire included |
| Iec104.Client.ProcessS | ipnc/ipnc_app/iec104/plcserver.c:470-485 | the window after an acknowledgement |
| Iec104.Client.ProcessU | ipnc/ipnc_app/iec104/plcserver.c:545-588 | test, start and stop and their confirmations |
| Iec104.Client.ProcessI | ipnc/ipnc_app/iec104/plcserver.c:590-668 | acceptance in sequence, closing otherwise |
| Iec104.Client.GetFrame | ipnc/ipnc_app/iec104/plcserver.c:874-902 | dispatch by format, I-frames only after STARTDT |
| Iec104.Client.Timer | ipnc/ipnc_app/iec104/plcserver.c:1846-1892 | t1 closes, t2 acknowledges, each at its last second |
| Iec104.Client.constructor | ipnc/ipnc_app/iec104/plcserver.c:1957-1973 | the initial entry |
| MsgQueue.SlotInsideIff | ipnc/ipnc_app/interface/src/share_mem.c:35-44 | the slot of an id lies in the segment exactly for MSG2 to MSG10, so SysDrvInit lets in four ids whose slot does not |
| MsgQueue.StepKeeps | ipnc/ipnc_app/interface/src/sys_msg_drv.c:3880-3901 | every step of every call and of the server keeps mutexes, messages and slots in order |
| MsgQueue.OneInFlight | ipnc/ipnc_app/interface/src/sys_msg_drv.c:3762-3782 | in every interleaving, with calls of any size, an id has exactly one message queued or in service while a thread of it waits, and none otherwise |
| MsgQueue.EveryCallOwnReply | ipnc/ipnc_app/interface/src/sys_msg_drv.c:3762-3782 | in every interleaving, with calls of any size, each finished call got the reply to its own request, under the command it sent, and returned its length or whether that is the length asked for |
| MsgQueue.OneInside | ipnc/ipnc_app/interface/src/sys_msg_drv.c:3892-3899 | in every interleaving, with whatever ids, at most one thread of a process is between taking and giving up its mutex |
| MsgQueue.EveryCallOwnAnswer | ipnc/ipnc_app/interface/src/sys_msg_drv.c:3762-3782 | when no call brings more than a slot holds, it also returned exactly the bytes the server wrote for it |
| MsgQueue.RequestOwn | ipnc/ipnc_app/interface/src/sys_msg_drv.c:3880-3901 | a request in service is that of a waiting call, whatever its size |
| MsgQueue.RequestFields | ipnc/ipnc_app/interface/src/sys_msg_drv.c:3880-3890 | and field by field what the server reads in it: the command of the call, the length and the place of its data |
| MsgQueue.RequestIntact | ipnc/ipnc_app/interface/src/sys_msg_drv.c:3880-3901 | when no call brings more than a slot holds, a request in service finds in the segment what its caller wrote |
| MsgQueue.OversizeOverwrites | ipnc/ipnc_app/interface/src/sys_msg_drv.c:3880-3901 | that condition is needed: a call of more than 12288 bytes overwrites the request of the next id while it is served |
| MsgQueue.OversizeCorrupts | ipnc/ipnc_app/interface/src/sys_msg_drv.c:3762-3782 | such a call can overwrite an answer before its caller reads it, which then returns other bytes than the server wrote for it |
| MsgQueue.OwnAnswersIff | ipnc/ipnc_app/interface/src/sys_msg_drv.c:3762-3782 | with calls of up to max bytes all finished calls of all runs returned what the server wrote for them if and only if max is at most the size of a slot |
| MsgQueue.RequestsIntactIff | ipnc/ipnc_app/interface/src/sys_msg_drv.c:3880-3901 | and the segment holds every request in service under the same condition |
| MsgQueue.SharedIdMixes | ipnc/ipnc_app/interface/src/sys_msg_drv.c:49-77 | distinct ids are needed: two processes under one id can swap replies |
| MsgQueue.SharedSegment.ShareMemWrite | ipnc/ipnc_app/interface/src/share_mem.c:90-101 | the copy into the segment, as in the steps |
| MsgQueue.SharedSegment.ShareMemRead | ipnc/ipnc_app/interface/src/share_mem.c:72-83 | the copy out of it |
| LinuxList.InitListHead | ipnc/ipnc_app/network/esmtp-1.0/list.h:26-28 | a ring of one |
| LinuxList.AddBetween | ipnc/ipnc_app/network/esmtp-1.0/list.h:36-44 | the entry joins the ring between two neighbours |
| LinuxList.ListAdd | ipnc/ipnc_app/network/esmtp-1.0/list.h:55-58 | cons after any node |
| LinuxList.ListAddTail | ipnc/ipnc_app/network/esmtp-1.0/list.h:69-72 | append before any node |
| LinuxList.Unlink | ipnc/ipnc_app/network/esmtp-1.0/list.h:81-86 | the ring without the entry |
| LinuxList.ListDel | ipnc/ipnc_app/network/esmtp-1.0/list.h:94-99 | removal that leaves the entry without neighbours |
| LinuxList.ListDelInit | ipnc/ipnc_app/network/esmtp-1.0/list.h:106-110 | removal that leaves the entry a list of its own |
| LinuxList.ListMove | ipnc/ipnc_app/network/esmtp-1.0/list.h:118-122 | removal and cons within one ring |
| LinuxList.ListMoveAcross | ipnc/ipnc_app/network/esmtp-1.0/list.h:118-122 | removal from one list and cons onto another |
| LinuxList.ListMoveTail | ipnc/ipnc_app/network/esmtp-1.0/list.h:130-135 | removal and append within one ring |
| LinuxList.ListEmpty | ipnc/ipnc_app/network/esmtp-1.0/list.h:142-145 | true exactly for a list without entries |
| LinuxList.SpliceAfter | ipnc/ipnc_app/network/esmtp-1.0/list.h:147-159 | two rings become one, in order |
| LinuxList.ListSplice | ipnc/ipnc_app/network/esmtp-1.0/list.h:167-171 | concatenation in front, the old head left pointing in |
| LinuxList.ListSpliceInit | ipnc/ipnc_app/network/esmtp-1.0/list.h:181-188 | concatenation with every node kept and both heads lists again |
| LinuxList.ForEachSafe | ipnc/ipnc_app/network/esmtp-1.0/list.h:226-228 | every original entry is visited once and in order while the body deletes any of them |
| LinuxList.Rotate | ipnc/ipnc_app/network/esmtp-1.0/list.h:36-44 | a ring read from any of its nodes is the same ring |
| LinuxList.FromAnyNode | ipnc/ipnc_app/network/esmtp-1.0/list.h:36-44 | and can be read from any of them |
| FlexTables.Lookup | ipnc/ipnc_app/network/esmtp-1.0/lexer.c:998-1004 | the chained lookup through yy_chk, yy_def and yy_meta ends and yields the plain transition |
| FlexTables.StuckForGood | ipnc/ipnc_app/network/esmtp-1.0/lexer.c:1007 | after a state the loop stops in nothing is ever accepted |
| FlexTables.FindLongest | ipnc/ipnc_app/network/esmtp-1.0/lexer.c:990-1017 | every non-empty input has a longest accepted prefix, found by searching downward |
| FlexTables.LongestUnique | ipnc/ipnc_app/network/esmtp-1.0/lexer.c:990-1017 | and only one |
| FlexTables.SmallestWellFormed | ipnc/ipnc_app/network/esmtp-1.0/lexer.c:366-820 | what is asked of the tables can be met: a smallest scanner does |
| FlexScanner.ActionIsLongest | ipnc/ipnc_app/network/esmtp-1.0/lexer.c:1009-1017 | backing up picks the longest accepted prefix |
| FlexScanner.Scanner.Match | ipnc/ipnc_app/network/esmtp-1.0/lexer.c:990-1007 | the loop ends, with the remembered state that of the longest accepted prefix so far |
| FlexScanner.Scanner.FindAction | ipnc/ipnc_app/network/esmtp-1.0/lexer.c:1009-1019 | action, token end and saved character |
| FlexScanner.Scanner.MoveDown | ipnc/ipnc_app/network/esmtp-1.0/lexer.c:1379-1383 | the kept text moves to the front unharmed |
| FlexScanner.Scanner.Grow | ipnc/ipnc_app/network/esmtp-1.0/lexer.c:1397-1431 | growth ends and keeps the text |
| FlexScanner.Scanner.GetNextBuffer | ipnc/ipnc_app/network/esmtp-1.0/lexer.c:1349-1479 | kept text, buffer and unread file always spell the input, two end marks follow the data, and the outcome depends only on what is left |
| FlexScanner.Scanner.GetPreviousState | ipnc/ipnc_app/network/esmtp-1.0/lexer.c:1483-1508 | re-reading the kept text gives the state the scanner was in, NULs included |
| FlexScanner.Scanner.TryNulTrans | ipnc/ipnc_app/network/esmtp-1.0/lexer.c:1515-1536 | the transition on a NUL, 0 if it jams |
| FlexScanner.Scanner.EndOfBuffer | ipnc/ipnc_app/network/esmtp-1.0/lexer.c:1214-1333 | a real NUL goes on as text; otherwise refill, last match or end of file |
| FlexScanner.Scanner.Restart | ipnc/ipnc_app/network/esmtp-1.0/lexer.c:1654-1665 | an empty, new buffer |
| FlexScanner.Scanner.constructor | ipnc/ipnc_app/network/esmtp-1.0/lexer.c:1716-1738 | a new scanner has the whole file ahead |
| FlexScanner.Scanner.NextToken | ipnc/ipnc_app/network/esmtp-1.0/lexer.c:976-1333 | for every input, buffer size and way the reads cut it: the token is the longest accepted prefix of all remaining input, yytext holds it with a NUL behind, and exactly that is used up |
| FlexScanner.Scanner.GiveBack | ipnc/ipnc_app/network/esmtp-1.0/lexer.c:1181-1183 | the last character of a match with trailing context is ahead again, and yytext ends before it |
| FlexScanner.Scanner.Lex | ipnc/ipnc_app/network/esmtp-1.0/lexer.c:976-1206 | the next token is a function of the input that is left: its longest match, less one character for the rule with trailing context |
| FlexScanner.Scanner.ScanFile | ipnc/ipnc_app/network/esmtp-1.0/lexer.c:976-1333 | the whole file, with the start condition set by any actions: the tokens are the recursive longest-match split of the file, whatever the buffer size and the reads |
| FlexScanner.SplitSpellsInput | ipnc/ipnc_app/network/esmtp-1.0/lexer.c:976-1333 | the texts of those tokens, one after the other, are the file |
| Rendezvous.AlwaysNoLostWakeup | ipnc/ipnc_app/interface/inc/rendezvous.h:71-110 | in every interleaving of meet, force and reset a thread sleeps only while count > 0 or its wake-up is under way |
| Rendezvous.SleepsOnlyWhileCounting | ipnc/ipnc_app/interface/inc/rendezvous.h:71-84 | with the mutex free, whoever sleeps does so while count > 0 |
| Rendezvous.NobodyLeavesEarly | ipnc/ipnc_app/interface/inc/rendezvous.h:71-110 | with meet and reset in any interleaving nobody leaves before as many entered as set at open |
| Rendezvous.AllSleepBefore | ipnc/ipnc_app/interface/inc/rendezvous.h:71-110 | and until then all who came sleep |
| Rendezvous.ForceLeavesEarly | ipnc/ipnc_app/interface/inc/rendezvous.h:91-97 | one force is enough to let a thread leave a meeting alone |
| Rendezvous.AllSleepOrNone | ipnc/ipnc_app/interface/inc/rendezvous.h:54-84 | with meet alone and the mutex free all who entered sleep until the last arrival, and then nobody does |
| Rendezvous.NextRound | ipnc/ipnc_app/interface/inc/rendezvous.h:104-109 | after a reset with nobody in a meeting as many have to enter again before anybody leaves, and until then all who came sleep |
| Rendezvous.IdleResets | ipnc/ipnc_app/interface/inc/rendezvous.h:104-109 | as after every reset called when all threads are idle |
| Rendezvous.SpuriousLeavesEarly | ipnc/ipnc_app/interface/inc/rendezvous.h:71-84 | one spurious wake-up lets a thread leave alone |
| Rendezvous.LeavesEarlyIff | ipnc/ipnc_app/interface/inc/rendezvous.h:71-110 | after any run of meet and reset, while fewer than n entered, a step opens the way to leaving early if and only if it is a spurious wake-up or a call of force and the last thread is not inside already |
| Pause.SleepsOnlyWhilePaused | ipnc/ipnc_app/interface/inc/pause.h:70-108 | with the mutex free, whoever sleeps does so under a pause |
| Pause.LeavesOnlyUnpaused | ipnc/ipnc_app/interface/inc/pause.h:70-108 | without spurious wake-ups, and as long as no Pause_on overtakes a resumed thread, nobody leaves Pause_test under the pause |
| Pause.LeavesPausedIff | ipnc/ipnc_app/interface/inc/pause.h:70-108 | after such a run a step opens the way to leaving under the pause if and only if it is a Pause_on that overtakes a resumed thread |
| Pause.OvertakenLeavesPaused | ipnc/ipnc_app/interface/inc/pause.h:70-80 | then that very thread leaves under the pause |
| Pause.ResumedLeavesPaused | ipnc/ipnc_app/interface/inc/pause.h:70-108 | from any sleeping thread and any idle one a run without spurious wake-ups leads there |
| Monitor.KeptOnRun | ipnc/ipnc_app/interface/inc/rendezvous.h:71-110 | what every step keeps holds in every interleaving |
| Monitor.ExclusiveKept | ipnc/ipnc_app/interface/inc/pause.h:70-108 | the mutex is held by exactly the thread inside, through waits and wake-ups |

## Left out

- Sockets, ioctl, select, signals as such, files, syslog, serial setup and the /proc GPIO: inputs are parameters or events, output is a value or a written frame.
- The state functions of dhcpcd as methods: the alarm handler jumps out of the middle of them, so the lease machine is a step function on values, with the blocked places made explicit.
- The process of dhcpcd around the states: SendSecondDiscover, dhcpDecline and dhcpInform as states, the fork after the first lease beyond its effect on the alarm, and the signals that end the program beyond one Terminate event.
- The moment between assigning currState and arming the jump buffer, in which a signal would act on the previous state.
- Prompt alarms and less than 2^31 seconds of configuring are assumptions of the lease deadline (`Fair`). So are T1 and T2 of an ACK within its lease, and no lease option in other replies; InTimeIff and StrayLeaseIff say what happens without these two.
- Memory allocation and its failure: option values, buffers and list nodes are always there; the 32-bit wrap of yy_buf_size while doubling is not modelled.
- DhcpOptions.OptionTable.ParseDhcpMsgRecv: an option value shorter than 4 bytes that the source reads as an address is continued by a parameter standing for the bytes after it in memory.
- UdpIp.PacketLayer.UdpIpGen: payloads whose sum does not fit the checksum's int are excluded; there are such only above 65509 bytes.
- UdpIp.GeneratedPacketAccepted: packets in buffers longer than the 65537 bytes for which the checksum's int is always wide enough are excluded, that is payloads above 65509 bytes.
- UdpIp.GeneratedFields: payloads above 65507 bytes are excluded, since their lengths do not fit the 16-bit fields.
- UdpIp.UdpIpChk: packets whose own length fields point outside the receive buffer are excluded, because the reads there are outside the buffer; HandedInBuffer says when its caller rules that out.
- TokenRing: the header constants of linux/if_tr.h are not part of the repository and are written out.
- RsPort.Port.CheckModbusFrame: a first piece longer than the 256-byte buffer that does not complete a reply is excluded, since the copy would leave the array (FitsIff); CHANNEL_NUM is not part of the repository and is any positive number.
- DhcpBuild.Interface.ClientIdSetup: ids of 46 to 48 bytes are excluded, since the copy would leave client_id. The option -h only prints a message for a host name that is too long and goes on; the builders are modelled for host names of at most 64 bytes and classes of at most 48.
- MsgQueue.StepKeeps: bytes that a call writes behind the end of the whole segment are not followed.
- proc_sub_data and the registers it writes, get_modbus_frame, the GPIO lines and poll_modbustcp.
- The TCP stream reassemblers (process_tcp104_stream, process_tcpmodbus_stream, process_tcpget_modbus): they do not implement one framing.
- Iec104.Client.GetFrame: the frame is handed over whole; after process_iec104_I closes a connection its table entry stays, as in the code. Counters are unbounded integers.
- The calls of sys_msg_drv.c appear as steps of an interleaving, not as methods, because other threads run between them; the data and tag of a message are history. The server is trusted with one reply per request, written into the requester's slot.
- The other calls of sys_msg_drv.c and the other message drivers, which have one of the three shapes modelled.
- list_entry, list_for_each, list_for_each_prev and list_for_each_entry: pointer arithmetic and easier loops.
- The contents of the scanner's tables and the number of its rule with trailing context: they are parameters with the stated predicates. What the rule actions do beyond choosing the start condition, unput, input, escapes, several input buffers, and the growth branch of yy_get_next_buffer by half, which the bounds make unreachable.
- yywrap is taken to return 1, as the program defines it; read errors end the program and are not modelled.
- dhcpconfig.c, cache.c, arp.c, Appro_avi_save.c, the UPnP, alarm and task programs.
