# OpenHybrid: verified model of the data and control planes

OpenHybrid is a client for GRE tunnel bonding (RFC 8157): it joins an LTE and a DSL
tunnel to one server, the HAAP. This project models three of its parts and proves what
they guarantee.

**The reorder buffer** (`src/gre2tun.c`, with the numbering sender of `src/tun2gre.c`).
Packets of one numbered stream arrive over two tunnels in any order. `BufferArray.dfy` is
the growing array with tombstones, over a heap of allocated blocks that can be freed only
while they are allocated. `FlushLoop.dfy` is the flush loop on that array, in index order:
the scan that is repeated until it flushes nothing and the jump back that gives up one
number at a time; when it ends, which of two copies it writes, and what it amounts to.
`ReorderBuffer.dfy` is the receive loop as it runs, with the late drop and the compaction
with its 16-bit counter. `ReorderSpec.dfy` says what a flush means over a *set* of waiting
packets. `ReorderRuns.dfy` draws the consequences for whole runs, `ReceiveLoop.dfy` shows
that the code performs exactly the run that its inputs determine, down to what the tun
device is written, and `Restoration.dfy` puts sender and receiver together.

A *position* is the number `sequence_flushed` stands for: -1 while it still has its
initial value UINT32_MAX, when the next number is 0 and everything else counts as late.

**The session and keepalive machine** (`src/openhybrid.c` and the message handlers).
`Control.dfy` gives the state, what a message and a tick do to it, and what a tick sends;
`Client.dfy` is the code that does it, handler loops over the receive buffer and timers
that update one field after another, down to the octets of every message.
`Messages.dfy` says octet by octet what every received message does and which are refused;
`Wire.dfy` which messages a tick sends, the octets of each, and what a receiver reads from
them. `Keepalive.dfy`, `Session.dfy` and `Setup.dfy` prove the timed bounds, the life of a
session and its acknowledgements on the network, and the order in which tunnels come up
through a network that delays, duplicates, reorders and loses messages, and that they can.

**The control message codec** (`src/grecp.c`), in `Grecp.dfy`, over the data GRE header
of `Gre.dfy`.

## What the proofs turned up

- The flush loop ends inside one pass of the 32-bit counter exactly when every timed-out
  entry lies ahead of the position and is the copy the scan writes for its number
  (`LoopEndsIffSound`): the first copy behind the entry written for the number before, or
  the first in the array if that number was given up or nothing lies behind. Two waiting
  copies of 5, the first timed out, do no harm by themselves (`SecondCopyEnds`). With a 4
  between them and 3 missing, the scan writes 4 and then the second 5; the first 5 stays
  timed out, and the loop gives up every remaining number (`SecondCopyRunsOn`).
- The compaction cuts off the number of leading tombstones modulo 65536. It never loses a
  packet, but it exposes a live head exactly when fewer than 65536 tombstones lead
  (`CutExposesHead`). This is a statement about any array. Storing that many entries takes
  a burst of more than 65535 packets within one timeout (`Retention`); no run that does so
  is given here.
- A tunnel that falls silent is taken down in bounded time if and only if the retry limit
  is at most 255 (`DeadPeerIffLimitFits`): beyond that the 8-bit counter of missed hellos
  never meets it, however long the silence. With a limit of 0 no tunnel is established
  after any tick (`MissedWithinLimit`).
- An accept does not clear the count of missed hellos. The count still never passes the
  limit, because an accept leaves no hello outstanding (`MissedWithinLimit`).

Where the code departs from the RFC the model follows the code: the control protocol
number is 0x0101, the tunnel types are 0 and 8, the session number is 32 bits wide, and
lateness is a plain unsigned comparison.

## Model

| member | source | states |
|---|---|---|
| ReorderSpec.FlushUnique | src/gre2tun.c:105-143 | with distinct numbers a flush is determined by the set of waiting packets alone: its end, what keeps waiting, what is dropped, and the ascending output, which is every packet from the position to the end |
| ReorderSpec.GivenUpReason | src/gre2tun.c:124-134 | a number is given up only when no buffered packet has it and a waiting packet with a higher number has timed out |
| ReorderSpec.RestIsYoung | src/gre2tun.c:124-134 | no packet that keeps waiting after a flush has timed out |
| ReorderSpec.FlushSplits | src/gre2tun.c:105-143 | a flush splits its input into written, waiting and dropped packets, without overlap or loss |
| ReorderSpec.FlushKeeps | src/gre2tun.c:136-143 | a packet ahead of the position is dropped only when another copy of its number is written |
| ReorderRuns.AdmissibleIsSound | src/gre2tun.c:91-134 | under the run invariant, if no timed-out packet has a second waiting copy, an arrival that is not timed out yet makes no flush unsound, whatever the order of arrival |
| ReorderRuns.FirstStep | src/gre2tun.c:46 | until number 0 arrives every packet is discarded and the buffer is empty after each step; number 0 is written at once |
| ReorderRuns.StepKeepsInv | src/gre2tun.c:59-163 | one iteration keeps the invariant of runs: order, conservation, the partition of numbers, and what arrived ahead |
| ReorderRuns.RunSafety | src/gre2tun.c:91-143 | in every run the written numbers strictly increase, every arrival is in exactly one of written, discarded and waiting, 0 to the position is split into written and given-up numbers, and a late packet's number is one of those |
| ReorderRuns.GivenUpJustified | src/gre2tun.c:124-134 | every number given up in a run was given up in a step where no buffered packet had it and a higher one had timed out |
| ReorderRuns.BoundedWaiting | src/gre2tun.c:124-134 | after every step each waiting packet is younger than the timeout, and with steps at most a period apart every packet is written at an age below timeout plus period |
| ReorderRuns.NeverDiscarded | src/gre2tun.c:91-143 | if no two copies of a number wait together, a packet that in any step arrived ahead of the position is waiting or written from then on, never discarded |
| ReorderRuns.NeverLost | src/gre2tun.c:91-143 | with copies, a packet that arrived ahead is waiting or some packet of its number was written |
| FlushLoop.WriteKeeps | src/gre2tun.c:110-120 | the entry that the scan meets for the next number is the one the closed form of the loop names (the first copy behind the entry written for the number before, or else the first of all), and writing it leaves array, position and output as that form says |
| FlushLoop.FlushAllKeeps | src/gre2tun.c:107-122 | the repeated scan keeps the closed form, gives up nothing, and ends where no live entry carries the next number |
| FlushLoop.GiveUpKeeps | src/gre2tun.c:124-133 | giving up a number that no live entry carries keeps the closed form, and the scan starts over |
| FlushLoop.LoopEndsIffSound | src/gre2tun.c:105-134 | for every array the loop, scanning in index order, ends before the counter is back at its initial value if and only if each timed-out entry lies ahead of the position and is the copy that is written for its number |
| FlushLoop.SoundIsEnough | src/gre2tun.c:105-134 | for that it is enough that each timed-out packet lies ahead of the position and is the only waiting copy of its number, whatever the order of the array |
| FlushLoop.SecondCopyRunsOn | src/gre2tun.c:105-134 | on the array of packets 5, 4 and 5, the first timed out, with 3 missing, the loop runs through every remaining number |
| FlushLoop.SecondCopyEnds | src/gre2tun.c:105-134 | on the array of packets 5 and 5, the first timed out, the loop ends although a timed-out packet has a second copy |
| FlushLoop.ExitIsFlush | src/gre2tun.c:105-143 | when the loop on an array has ended, exactly the specified flush of its waiting set has happened |
| FlushLoop.WrittenIsChosen | src/gre2tun.c:110-120 | each packet written was waiting ahead of the position, and of the copies of its number it is the one the closed form names |
| BufferArray.TombstoneOne | src/gre2tun.c:116-119 | freeing an entry's block and setting its size to 0 removes exactly that packet from the waiting set and keeps array and heap consistent |
| ReorderBuffer.Receiver.WriteAndFree | src/gre2tun.c:113-119 | one write and one free of an allocated block per flushed entry |
| ReorderBuffer.Receiver.FlushEntry | src/gre2tun.c:111-119 | an entry with the next number is live, although its size is not looked at; it is written with the payload it was buffered with, and the position moves by one |
| ReorderBuffer.Receiver.NextIsWaiting | src/gre2tun.c:111 | no tombstone ever carries the next number |
| ReorderBuffer.Receiver.FlushPass | src/gre2tun.c:110-121 | on any array one pass over the entries does what the scan in index order does, and reports whether the position moved |
| ReorderBuffer.Receiver.FlushInOrder | src/gre2tun.c:107-122 | the repeated pass terminates on any array and does what the repeated scan does |
| ReorderBuffer.Receiver.CheckTimeouts | src/gre2tun.c:124-134 | the next number is given up if and only if some live entry has reached the timeout |
| ReorderBuffer.Receiver.FlushRound | src/gre2tun.c:105-134 | on any array one round is the repeated scan and then the timeout check; giving up the last number of the pass sets the counter to its initial value |
| ReorderBuffer.Receiver.FlushAndGiveUp | src/gre2tun.c:105-134 | on every array on which the loop can end, the loop with its jump back terminates, writes exactly the entries the closed form names, in order, and so performs the specified flush |
| ReorderBuffer.Receiver.DropLate | src/gre2tun.c:136-143 | what is left waiting is what is ahead of the counter; before number 0 that is nothing |
| ReorderBuffer.Receiver.Compact | src/gre2tun.c:145-162 | exactly the leading tombstones, counted modulo 65536, are cut off; the rest stays in order and no waiting packet is lost |
| BufferArray.CutExposesHead | src/gre2tun.c:146-162 | the compacted array is empty or has a live head if and only if fewer than 65536 tombstones led it |
| ReorderBuffer.Receiver.FlushStep | src/gre2tun.c:103-162 | on every array on which the loop can end, the whole flush part of an iteration is one flush of the waiting set, and of two copies of a number it writes the one the closed form names |
| ReorderBuffer.Receiver.EndsWithoutCopies | src/gre2tun.c:91-134 | the flush of an iteration ends if no timed-out packet has a second waiting copy |
| ReorderBuffer.Receiver.Iterate | src/gre2tun.c:59-163 | a datagram of the HAAP that starts with octets 20 00, or with 30 00 while reordering is off, has its payload behind the header written to the tun device before the output of a flush; one that starts with 30 00 otherwise is buffered under the number in octets 8 to 11; without a datagram there is a flush; anything else changes nothing. Each flush is one step of the run, and with at most n arrivals in any timeout window, n at most 65534, the array keeps at most n entries |
| Restoration.PassDirectly | src/gre2tun.c:79-90 | whatever frame is built from flags, protocol, key and payload without a number, exactly that payload goes straight to the tun device, before what the flush writes |
| ReorderBuffer.Receiver.AllocatedIsWaiting | src/gre2tun.c:97 | the allocated blocks are exactly those of packets neither written nor discarded |
| ReorderBuffer.Receiver.Retention | src/gre2tun.c:145-162 | while the head is live every stored entry, tombstones included, is younger than the timeout |
| ReorderBuffer.Receiver.WindowBound | src/gre2tun.c:145-162 | with at most n arrivals in any timeout window the array holds at most n entries after a step |
| ReceiveLoop.TraceIsSane | src/gre2tun.c:59-163 | if no arrival repeats a number that still waits, what the inputs determine cycle by cycle is a run in which no two copies of a number ever wait together |
| ReceiveLoop.DeviceHoldsWritten | src/gre2tun.c:87-120 | if no packet goes past the buffer, the writes of all cycles together are the payloads of the packets the run wrote, in order |
| ReceiveLoop.Run | src/gre2tun.c:59-163 | for every input sequence in which no arrival repeats a number that still waits, the loop performs exactly one step for each cycle that is not ignored, in order, with the packet that cycle brought; the tun device gets, cycle by cycle, the direct packet and the output of the flush, so without direct packets the payloads of strictly increasing numbers; no packet that arrived ahead is lost; and with at most n arrivals in any timeout window the array keeps at most n entries |
| Timeval.AgeTest | src/gre2tun.c:127-128 | the normalised two-field subtraction and comparison decide exactly whether the age in microseconds has reached the timeout |
| Timeval.FromMillis | src/config.c:103-104 | the configured milliseconds become a time of exactly that length, negative ones included, normalised unless they are negative |
| Gre.HeaderOctets | src/grecp.c:95-105 | flags, protocol and key stand in the header in that order, most significant octet first |
| Gre.DataFrameRoundTrip | src/tun2gre.c:33-48 | the receiver reads flags, key, number and payload of a framed packet back |
| Tun2Gre.Sender.SendGre | src/tun2gre.c:28-48 | the buffer filled at a growing offset is the frame, with or without number |
| Tun2Gre.Sender.Forward | src/tun2gre.c:107-149 | while LTE is up a packet whose first octet is 40 to 4f leaves behind octets 30 00 08 00, one with 60 to 6f behind 30 00 86 dd, each followed by key, next number and the packet itself; numbers are consecutive in 32 bits; no other packet is sent or numbered |
| Restoration.WaitingIsInTime | src/gre2tun.c:124-134 | if no frame reaches the timeout while a lower number is missing, no waiting packet is ever timed out |
| Restoration.StaysOnTrack | src/gre2tun.c:59-163 | under such a delivery an iteration discards nothing and gives up nothing |
| Restoration.Restore | src/gre2tun.c:73-162 | frames of the sender delivered in any order that starts with number 0 and in time, with idle iterations in between, come out of the receiver as exactly the payloads the sender read, in order |
| Grecp.AttributeOctets | src/grecp.c:43-49 | an attribute is an octet of type, two of length and the value |
| Grecp.LastOfIs | src/grecp_notify.c:128-134 | what the loops that overwrite keep of a type is the value of the last attribute of that type |
| Grecp.ParseTiles | src/grecp.c:20-40 | on every octet string the attributes read tile a prefix without overlap, and the unread rest is shorter than 3 octets or declares more than it has |
| Grecp.EncodedParses | src/grecp.c:20-49 | reading the octets of successively appended attributes gives back exactly those attributes |
| Grecp.ReadAttribute | src/grecp.c:20-40 | one read stays inside the given size and yields the first attribute, or 0 if there is none |
| Grecp.AppendAttribute | src/grecp.c:43-49 | one append adds exactly the encoding of the attribute behind what was written before |
| Grecp.FrameMessage | src/grecp.c:95-113 | the framing of a control message |
| Grecp.FramedDecodes | src/grecp.c:52-113 | a framed message is seen by the receiver with the same key, message type, tunnel type and attributes, whatever the buffer held before |
| Control.FramedIsHandled | src/grecp.c:52-93 | a message framed with the current key reaches the handler of its type and tunnel with its attributes |
| Messages.AcceptAllIs | src/grecp_accept.c:31-65 | an accept leaves as address, session number and key the value of its last attribute 2, 4 and 20, or what there was; an interval or limit of 0 becomes that of the first attribute 14 or 15 that is not 0; commit count and anycast address stay |
| Messages.FirstNonzeroIs | src/grecp_accept.c:39-52 | of several pushed limits the first that is not 0 counts |
| Messages.HelloRecords | src/grecp_hello.c:68-94 | a hello records the seconds of its last attribute 5 and clears the misses; without one it does nothing |
| Messages.NotifyRecords | src/grecp_notify.c:127-145 | a notify leaves the commit count of its last attribute 8, unacknowledged, and notes an attribute 35 |
| Messages.TeardownReports | src/grecp_teardown.c:23-37 | the error code is that of the last attribute 17 |
| Messages.RefusedChangesNothing | src/grecp.c:52-93 | another source, other flags, a wrong key on anything but an accept, another tunnel type than 0 and 8, or another message type than 2, 4, 5 and 6 changes nothing |
| Messages.AcceptEstablishes | src/grecp_accept.c:19-81 | octet 20 or 28 in the message header, whatever the key: exactly the LTE or the DSL tunnel is established, both hello times now, misses kept, and the session is set from the attributes |
| Messages.HelloIsHeard | src/grecp_hello.c:58-103 | octet 40 or 48 with the current key: only what the LTE or the DSL tunnel heard last and missed changes |
| Messages.TeardownTakesDown | src/grecp_teardown.c:40-41 | octet 50 or 58 with the current key: both tunnels go down and nothing else changes |
| Messages.NotifyIsRecorded | src/grecp_notify.c:118-146 | octet 60 or 68 with the current key: commit count, pending ack and verification request are recorded and nothing else changes |
| Client.Client.HandleAccept | src/grecp_accept.c:19-81 | the attribute loop applies every attribute in order, limits only where they are 0, and the tunnel counts hellos from now |
| Client.Client.HandleHello | src/grecp_hello.c:58-103 | the attribute loop records echoed timestamps and clears the count of missed hellos |
| Client.Client.HandleNotify | src/grecp_notify.c:118-146 | the attribute loop records filter list packages, unacknowledged, and verification requests |
| Client.Client.HandleTeardown | src/grecp_teardown.c:19-42 | the attribute loop finds the error code of the last error code attribute, or 0; both tunnels go down and nothing else changes |
| Client.Client.ProcessMessage | src/grecp.c:52-93 | source, flags, key and tunnel type are checked and the message is dispatched; the header is read from the buffer whatever the size |
| Wire.TickSends | src/openhybrid.c:60-92 | a tick sends exactly one request if its send succeeds and LTE is down (for LTE) or bonding is on and DSL is down (for DSL); one ack if LTE is up, the commit count is not 0 and not acknowledged; one verification if LTE is up and it was asked for; one hello for each established tunnel whose last is more than the interval ago; in this order, to the current address with the current key, and nothing else |
| Wire.TickLeavesTunnel | src/openhybrid.c:78-123 | established, missed, last sent and last heard of a tunnel after a tick, in terms of those before: a due hello sets the time whether its send succeeds or not |
| Wire.TickLeavesSession | src/openhybrid.c:67-76 | the ack and verification flags follow the success of the sends, the session is forgotten exactly if both tunnels are down, and the device is created or destroyed accordingly |
| Wire.RequestOctets | src/grecp_request.c:19-49 | the octets of a request: the client name padded to 40 octets for LTE only, the session number only when it is not 0, padding |
| Wire.AckOctets | src/grecp_notify.c:19-41 | the octets of an ack: attribute 30 with the commit count and code 2 |
| Wire.VerificationOctets | src/grecp_notify.c:44-63 | the octets of a tunnel verification |
| Wire.HelloOctets | src/grecp_hello.c:19-56 | the octets of a hello: attribute 5 with seconds and milliseconds |
| Wire.RequestIsRead | src/grecp_request.c:19-49 | a receiver reads a request back: its tunnel, the name exactly for LTE, the session number exactly if there is one |
| Wire.AckIsRead | src/grecp_notify.c:19-41 | a receiver reads an ack back: a notify for LTE with the commit count and code 2 |
| Wire.VerificationIsRead | src/grecp_notify.c:44-63 | a receiver reads a verification back: a notify for LTE that is no ack |
| Wire.HelloIsRead | src/grecp_hello.c:19-56 | a receiver reads a hello back: its tunnel and both halves of the timestamp |
| Client.Client.SendRequest | src/grecp_request.c:19-49 | a request carries the client name for LTE only and the session number only when it is not 0 |
| Client.Client.SendFilterListAck | src/grecp_notify.c:19-41 | an ack carries the current commit count |
| Client.Client.SendHelloMessage | src/grecp_hello.c:19-56 | a hello carries its timestamp, which is recorded as last sent even when the send fails |
| Client.Client.HelloTimer | src/openhybrid.c:78-92 | a hello is sent when due, after counting a miss if the last one was not echoed |
| Client.Client.JudgeAndReset | src/openhybrid.c:94-123 | a tunnel at the limit goes down; statistics of a tunnel that is down are cleared only while the device exists |
| Client.Client.ExecuteTimers | src/openhybrid.c:54-157 | the timers as a whole, state and messages sent |
| Client.Client.Iterate | src/openhybrid.c:309-322 | one iteration of the main loop processes the datagram that was received, if any, and then runs the timers on the state it left, state and messages sent |
| Keepalive.AcceptFillsLimits | src/grecp_accept.c:39-52 | interval and limit are filled in only where they are 0 |
| Keepalive.MissedWithinLimit | src/openhybrid.c:78-123 | in every run, after every tick each tunnel has missed at most the limit and strictly fewer while established |
| Keepalive.CounterNeverWraps | src/openhybrid.c:78-92 | with a limit of at most 255 no miss is ever counted at 255, so the 8-bit counter never wraps |
| Keepalive.BeyondCounterNeverDead | src/openhybrid.c:78-102 | a tunnel that falls silent under a limit above 255 stays up, however long the silence lasts |
| Keepalive.EchoRunInv | src/grecp_hello.c:33-53 | if the HAAP only echoes timestamps it was sent on a tunnel, then while that tunnel is established nothing sent or echoed on it is newer than its last hello |
| Keepalive.DeadPeerDetected | src/openhybrid.c:78-102 | with ticks at most d apart and a hello interval of at most the given one, if nothing is heard for an established tunnel from t0 on, some tick takes it down no later than t0 + (limit + 1) * (interval + d) |
| Keepalive.DeadPeerDetectedInRun | src/openhybrid.c:78-102 | the same from any tick of a run in which the HAAP only echoes, with no assumption on the counters or on how the limits develop, for any limit up to 255 |
| Keepalive.DeadPeerIffLimitFits | src/openhybrid.c:78-102 | a tunnel that falls silent in such a run is taken down by that time if and only if the limit is at most 255, and the limit is never 0 |
| Keepalive.NoEarlyDeath | src/openhybrid.c:78-102 | from any iteration without misses on, and with an interval of at least the given one from there on, the hello check takes a tunnel down no sooner than limit * (interval + 1) seconds after the timestamp of the last hello processed for it |
| Keepalive.NoEarlyDeathAfterAccept | src/openhybrid.c:78-102 | from the iteration of a tunnel's first accept on the same holds with the interval in force there, be it configured or filled in by that accept, with no assumption on the interval before or after |
| Keepalive.HealthyRun | src/openhybrid.c:78-102 | from any state in which a tunnel has no misses and its last hello is answered, as after an accept, if every echo is processed before the next hello is due and every hello with a timestamp echoes the last one sent, no hello ever counts as missed and no tick takes the tunnel down |
| Keepalive.HelloEchoRoundTrip | src/grecp_hello.c:19-94 | a hello returned octet for octet records the timestamp that was sent, clears the misses, and changes nothing else |
| Session.OnlyAcceptChangesSession | src/grecp_accept.c:32-56 | no message but an accept changes the HAAP address, the key or the session number |
| Session.OutageRequests | src/openhybrid.c:60-65 | from the second tick of an outage on every datagram that reads as a request is for LTE and goes to the anycast address with key 0 and no session number |
| Session.SessionIsKept | src/grecp_request.c:28-31 | while some tunnel stays up and no accept is handled, every datagram that reads as a request carries the same address, key and session number |
| Session.AcksNeverExceedPackages | src/openhybrid.c:67-71 | over every run the acks sent plus the one pending never exceed the filter list packages received |
| Session.AcksAreDatagrams | src/grecp_notify.c:19-41 | the acks that are counted are the datagrams that read as acks |
| Session.PackagesCount | src/grecp_notify.c:130-134 | the packages that are counted are the attributes of type 8 |
| Session.AcksCarryNewest | src/grecp_notify.c:19-41 | every datagram that reads as an ack carries the commit count of the most recent package of the session and code 2 |
| Setup.StepKeepsInv | src/openhybrid.c:60-65 | each move of client, network or HAAP keeps the invariant of tunnel setup |
| Setup.RequestsAreSent | src/openhybrid.c:60-65 | the requests in the log of setup are those a tick sends |
| Setup.DslComesAfterLte | src/openhybrid.c:60-65 | in every reachable state an established DSL tunnel means that bonding is configured and that an LTE accept was handled before the DSL request was sent, which came before the DSL accept |
| Setup.DslIsReachable | src/openhybrid.c:60-65 | from every configuration with bonding some run establishes both tunnels |

## Left out

- Sockets, netlink, ioctl, threads and the control data of sendmsg: foreign interfaces. A send is a nondeterministic success and, if it succeeds, a datagram on the network; a device call is a nondeterministic result.
- ReorderBuffer.Receiver.Iterate: covers one pass of the 32-bit counter (no arrival carries UINT32_MAX), a monotone clock, sequenced packets with a payload, and arrivals that are not timed out in the iteration that buffers them; the array must be one on which the flush loop ends inside the pass (`FlushEnds`, the exact condition of `LoopEndsIffSound`), because what follows otherwise lies beyond the pass. Numbers may repeat.
- ReceiveLoop.Run: an arrival that repeats a number that still waits is excluded, because then the inputs alone no longer determine which copy is lost; a number that was written or given up may repeat freely.
- ReorderBuffer.Receiver.WriteAndFree: a failed write to the tun device is only logged by the source and is not told apart from a successful one; blocks are named by the count of allocations, so an address is never used twice.
- ReorderBuffer.Receiver.constructor: a receiver with a negative timeout, under which every packet is timed out on arrival, is not modelled.
- Tun2Gre.Sender.Forward: the DSL branch cannot be reached, because every packet is marked as DHCP; packets longer than 1488 octets, which the interface MTU rules out, are not modelled.
- Client.Client.ProcessMessage: attributes that are copied into a field are assumed to have that field's size.
- Client.Client.HandleHello: the round trip time is not kept.
- Client.Client.HandleAccept: the bypass bandwidth check interval is not kept; it only paces the bypass reports.
- Client.Client.JudgeAndReset: the bypass traffic report and its timestamp are not part of this model.
- Client.Client.ExecuteTimers: bypass traffic reports, thread start and stop, DHCP clients, leases and signals are not part of this model; the uptime stays below 2^32 seconds.
- Client.Client.Iterate: inherits what ExecuteTimers leaves out.
- Deny messages: they add only easy members.
- Configuration text, logging, events, scripts, patches and captures.
- The restart of the receive thread when the tunnel device is destroyed: a run here is the life of one thread.
