# SoapyRemote, modelled and proved in Dafny

SoapyRemote lets an application use a software radio that is plugged into another machine. This project models the
parts of it where the reasoning is hard, and proves what they are for:

- **The windowed stream protocol** (`FlowControl`, `CutDatagrams`, `HandleRing`, `BufferLayout`, `StreamEndpoint`): a
  sending and a receiving endpoint over a stream, or over packets that may be lost. The step rules are written once and
  read twice, with the machine's 32-bit sequence words and with unbounded counters; the first reading is proved to
  refine the second on runs of any length. `CutDatagrams` shows what of this fails where datagrams are cut up into
  packets. `StreamEndpoint` is the endpoint itself, a class with its sequence counters, handle ring and buffers, whose
  methods are tied to those rules.
- **The sample path** (`ServerSendWorker`, `ClientStream`, `Reception` for samples from the device;
  `ClientSend`, `ServerReceiveWorker`, `Transmission` for samples to it; `Datagrams`, `DeviceStream`, `Sockets` and
  `ClientConvert` below both): the worker loops against a device that answers as it likes, a transport that cuts a
  stream into pieces as it likes, an application that reads fragments of any size, and theorems about whole runs.
- **In-place permutation of an argument vector** (`PermuteArgs`, `Getopt`): the exchange of two blocks by gcd-many
  cycles, and the option scanner that drives it.
- **RPC** (`FloatTransport`, `RpcCodec`, `RpcValues`, `RpcMessage`, `RpcPacker`, `RpcUnpacker`, `RpcExchange`): the
  tagged codec, with doubles as exact real numbers, the frames, and the growing and the consumed buffer. `WireFormat`
  says byte by byte what these and the datagram headers look like.
- **The server's stream table** (`StreamTable`) and **URLs** (`Url`).

The main results are `FlowControl.WordsRefineUnbounded` with `CutDatagrams.RefinementExactly`,
`FlowControl.MachineWindowSafety` with `CutDatagrams.WindowHoldsExactly`, `FlowControl.NoDeadlock` with
`FlowControl.BoundIsTight` and `CutDatagrams.ProgressExactly`, `Reception.ReceptionConserves` with
`Reception.ReceptionExactly`, `Transmission.TransmissionConserves` with `Transmission.TransmissionExactly`,
`PermuteArgs.Permute`, `Getopt.Getopt.ScanAll`, `RpcExchange.MessageTravels`, `RpcMessage.FramesSplit`,
`StreamTable.ClientHandler.Serve` and `Url.PrintParses`.

Some properties that one might expect are false of the code. They are stated with their exact condition, and with an
input or a run at which they fail:

- A datagram longer than 4096 bytes leaves the sender in several packets in datagram mode (`Sockets.PacketIntact`), and
  the receiver refuses the first of them (`Datagrams.LongDatagramRefused`). So samples are conserved on every run exactly
  when a full datagram is no longer than that (`Reception.ReceptionExactly`, `Transmission.TransmissionExactly`), for
  which an mtu of at most 4144 is enough (`Datagrams.WholeExactly`); with an mtu of 9000 it is longer
  (`Datagrams.JumboDatagram`, `Reception.LosingRun`, `Transmission.QuittingRun`).
- Where datagrams are cut up like that, the receiver may read samples as a header and acknowledge what it finds there.
  So only where they stay whole do 32-bit words do what unbounded counters do (`CutDatagrams.RefinementExactly`), does
  the window hold (`CutDatagrams.WindowHoldsExactly`; the bytes in flight have no bound otherwise,
  `CutDatagrams.BytesUnbounded`), and is there no deadlock (`CutDatagrams.ProgressExactly`). The failing runs lose
  nothing in the network (`CutDatagrams.StallingRun`, `CutDatagrams.MisledRun`, `CutDatagrams.ReopenedWindow`), and
  their packets are those of well-formed datagrams (`CutDatagrams.AnyMisreading`).
- With several handles the bytes in flight can exceed the receiver's socket buffer also where datagrams stay whole
  (`FlowControl.WindowExactly`).
- A pass of the server's send worker loses the samples of its first read when its second read fails
  (`ServerSendWorker.PassLoses`, `ServerSendWorker.PassCanLose`), so what the application gets is what the passes
  forwarded, and all that the device delivered exactly when no pass was like that (`Reception.ReceptionConserves`).
- The sender can stop for ever when more of the last datagrams are lost than `FlowControl.NoDeadlock` allows
  (`FlowControl.BoundIsTight`, `FlowControl.DeadlockIsFinal`).
- An application that writes a buffer piece by piece and passes its flags variable on from call to call loses END_BURST,
  unless one call is enough (`ClientSend.BurstIsForgotten`).
- A list of sizes only keeps sizes whose upper 33 bits are alike, and a range's step only reaches a current peer
  (`RpcValues.SeenExactly`, `RpcValues.SizeIsWidened`).
- A message without a payload is rejected by the receiver (`RpcMessage.FrameParses`).
- A stream whose sockets cannot be bound or connected is never closed on the device (`StreamTable.ClientHandler.Serve`,
  `StreamTable.LeakedStream`), and a call that uses the device before one was made crashes the process
  (`StreamTable.CrashingCall`).
- Parsing a printed URL gives it back only for the URLs described by `Url.Printable` (`Url.PrintParses`,
  `Url.BracketIsLost`).

Throughout, `size_t` has 64 bits and `int` 32. A double is a real number that a 53-bit integer and a power of two in
range make up. `dafny verify dfyconfig.toml` checks the project.

## Model

| member | source | states |
|---|---|---|
| `Arithmetic.GcdIsGreatest` | server/msvc/getopt.h:114-127 | the number that the loop computes divides both lengths, and every common divisor of them divides it and is no larger |
| `PermuteArgs.ComputeGcd` | server/msvc/getopt.h:114-127 | the remainder loop ends with the greatest common divisor |
| `PermuteArgs.CyclesPartition` | server/msvc/getopt.h:144-163 | the walk from each of the gcd-many starting slots closes after total/gcd hops, never meets a slot twice, and covers exactly the slots congruent to its start: together they partition the range |
| `PermuteArgs.ExchangedAt` | server/msvc/getopt.h:129-133 | in the exchanged vector the element at relative position p is at (p + nopts) modulo the total |
| `PermuteArgs.RotateCycle` | server/msvc/getopt.h:150-162 | one inner loop moves every element of its cycle one hop on, and no other element |
| `PermuteArgs.Permute` | server/msvc/getopt.h:134-164 | for all non-empty blocks, the array is the old one with the two blocks exchanged, each in its own order, and the rest untouched |
| `Getopt.PickIsPartition` | server/msvc/getopt.h:446-455 | splitting the words into options and operands loses and duplicates none |
| `Getopt.FrontOptions` | server/msvc/getopt.h:431-437 | which words the scan's specification counts as read: an option word with its arguments, or an operand returned in order |
| `Getopt.DashWords` | server/msvc/getopt.h:429-431 | which words count as option words, operands and the terminator |
| `Getopt.PermutedKeeps` | server/msvc/getopt.h:449-454 | moving the skipped block behind the options read since changes neither the sequence of options read nor that of operands skipped |
| `Getopt.TerminatorFinishes` | server/msvc/getopt.h:466-480 | reading "--" leaves options and "--" first, then all other words, with optind between |
| `Getopt.Getopt.constructor` | server/msvc/getopt.h:395-406 | the globals before a first scan |
| `Getopt.Getopt.PermuteSkipped` | server/msvc/getopt.h:412-416 | the vector after an exchange; both blocks must be non-empty wherever the scan calls it |
| `Getopt.Getopt.SkipOperand` | server/msvc/getopt.h:446-458 | skipping an operand keeps the scan's invariant, with an exchange when an option block came in between |
| `Getopt.Getopt.EndOfVector` | server/msvc/getopt.h:410-427 | at the end the vector is options then operands and optind is at the first operand |
| `Getopt.Getopt.ReadTerminator` | server/msvc/getopt.h:466-480 | the same at "--" |
| `Getopt.Getopt.Restart` | server/msvc/getopt.h:405-409 | a reset drops what an unfinished scan left behind |
| `Getopt.Getopt.Look` | server/msvc/getopt.h:407-481 | finds the next option, the next operand in order, or the end, keeps the invariant, and changes the number of results to come only by the operand it returns |
| `Getopt.Getopt.Next` | server/msvc/getopt.h:407-481 | one call makes progress and keeps the invariant; it gives exactly one of the results to come, and -1 only when there are none and the vector is in its final order |
| `Getopt.Getopt.ScanAll` | server/msvc/getopt.h:407-481 | calling until -1 is returned gives one result for every letter of an option word and for every operand that is returned in order, and leaves the options, with their arguments and any "--", first and in order, then the operands in order, and optind at the first operand; slots before the scan's start are untouched |
| `FlowControl.InvRun` | common/SoapyStreamEndpoint.cpp:117-160 | what every step of the two-party protocol keeps, on every run with losses, if datagrams stay whole |
| `FlowControl.WordsRefineUnbounded` | common/SoapyStreamEndpoint.cpp:225-237 | if datagrams stay whole, 32-bit sequence words take every decision that unbounded counters take (window, ACK trigger, out of order), on runs of any length |
| `FlowControl.WindowSafety` | common/SoapyStreamEndpoint.cpp:271-284 | if datagrams stay whole, on every lossy run sent minus acknowledged is at most the window plus held handles minus one; what is in flight, network headers included, is at most as many full datagrams, and so never more than the receiver's socket buffer when one handle is held at a time |
| `FlowControl.WindowExactly` | common/SoapyStreamEndpoint.cpp:98-102 | if datagrams stay whole, the bytes in flight stay within the socket buffer on every run exactly when the most datagrams under way, all full, fit into it: only the handles matter |
| `FlowControl.MachineWindowSafety` | common/SoapyStreamEndpoint.cpp:271-284 | the same bounds for the machine with 32-bit words |
| `FlowControl.Account` | common/SoapyStreamEndpoint.cpp:225-237 | if datagrams stay whole, on every run what was sent is what was taken in, lost and under way, counted by the run's own actions; each sequence number the receiver still expects is of a datagram under way or lost, and never both |
| `FlowControl.TailIsLost` | common/SoapyStreamEndpoint.cpp:225-237 | with nothing under way the sequence numbers from the receiver's next one to the sender's next one are exactly those of the datagrams lost since, and no more than the run lost |
| `FlowControl.NoDeadlock` | common/SoapyStreamEndpoint.cpp:98-102 | if datagrams stay whole, with everything settled the sender may go on, with unbounded counters and with 32-bit words, if at most window minus max(1, window/8) datagrams were lost since the last one that arrived; so surely if the whole run lost no more |
| `FlowControl.BoundIsTight` | common/SoapyStreamEndpoint.cpp:98-102 | if datagrams stay whole, a run that ends settled, blocked and with k datagrams lost at its end exists exactly in datagram mode, for the k above that bound and up to the most that can be under way |
| `FlowControl.DeadlockIsFinal` | common/SoapyStreamEndpoint.cpp:271-284 | on every link and in either reading of the counters, a sender blocked like that stays blocked: nothing either side does on its own frees it |
| `FlowControl.BasicsRun` | common/SoapyStreamEndpoint.cpp:165-170 | what DeadlockIsFinal asks of a state holds of every reachable one: the windows are the receiver's, and nothing is acknowledged before anything is received |
| `FlowControl.LosslessRun` | common/SoapyStreamEndpoint.cpp:230-237 | if datagrams stay whole, without losses no datagram counts as dropped, and a settled sender is never blocked |
| `FlowControl.NoticesExactly` | common/SoapyStreamEndpoint.cpp:223-228 | if datagrams stay whole, a datagram is reported as dropped exactly when one was lost and a later one has come in since |
| `CutDatagrams.ProgressExactly` | common/SoapyStreamEndpoint.cpp:202-207 | there is no deadlock, on any run that lost no more than NoDeadlock allows, exactly when datagrams stay whole |
| `CutDatagrams.StallingRun` | common/SoapyStreamEndpoint.cpp:202-207 | where they do not, a window full of datagrams, all of whose packets the receiver refuses, blocks the sender for good although the network lost nothing |
| `CutDatagrams.LosslessExactly` | common/SoapyStreamEndpoint.cpp:202-207 | on runs without losses a blocked sender has something to wait for, exactly when datagrams stay whole |
| `CutDatagrams.MisledRun` | common/SoapyStreamEndpoint.cpp:221-237 | a later packet of a single datagram, read as a header, makes the receiver acknowledge any sequence number from the ACK interval on, and the sender is blocked unless that is within a window of the truth |
| `CutDatagrams.RefinementExactly` | common/SoapyStreamEndpoint.cpp:225-237 | the 32-bit words do what unbounded counters do, on every run, exactly when datagrams stay whole |
| `CutDatagrams.WindowHoldsExactly` | common/SoapyStreamEndpoint.cpp:271-284 | sent minus acknowledged stays within the window and the handles, and the bytes in flight within the socket buffer, on every run exactly when datagrams stay whole and the most of them that can be under way fit |
| `CutDatagrams.BytesUnbounded` | common/SoapyStreamEndpoint.cpp:271-284 | where datagrams are cut up and the window is at least 2, for every bound there is a run without losses with more bytes in flight |
| `CutDatagrams.JumboOverrun` | common/SoapyStreamEndpoint.cpp:330-345 | with an mtu of 9000 and a socket buffer of 900000 bytes 909600 are in flight before anything is received |
| `CutDatagrams.ReopenedWindow` | common/SoapyStreamEndpoint.cpp:225-237 | with an mtu of 9000 and a socket buffer of 98999 bytes, which the full window with all headers fits, 172824 bytes are in flight after one datagram was taken in |
| `CutDatagrams.AnyMisreading` | common/SoapyStreamEndpoint.cpp:309-345 | the packets of those runs are real: whatever the later packets of a full datagram are to be read as, whatever the receiver's buffer held before, there is a well-formed datagram with such packets |
| `HandleRing.AcquireRefines` | common/SoapyStreamEndpoint.cpp:297-302 | a handle goes to the back of the queue of issued handles, and it was not held |
| `HandleRing.NextIsModular` | common/SoapyStreamEndpoint.cpp:239-245 | the next handle is always as many places after the release position as handles are held, around the ring |
| `HandleRing.ReclaimRefines` | common/SoapyStreamEndpoint.cpp:259-265 | the loop ends and removes exactly the released handles at the front of the queue |
| `HandleRing.ReleaseRefines` | common/SoapyStreamEndpoint.cpp:254-266 | releasing in any order reclaims in the order of issue |
| `HandleRing.ReleaseAllEmpties` | common/SoapyStreamEndpoint.cpp:254-266 | releasing every held handle, in any order, empties the ring |
| `BufferLayout.TotalFits` | common/SoapyStreamEndpoint.cpp:41-69 | all channels' regions together fit behind the header |
| `BufferLayout.RegionsFit` | common/SoapyStreamEndpoint.cpp:60-69 | a channel's first elements lie in its region, in the datagram and in the transfer buffer |
| `BufferLayout.RegionsDisjoint` | common/SoapyStreamEndpoint.cpp:60-69 | the regions of different channels are disjoint |
| `BufferLayout.RegionsAdjacent` | common/SoapyStreamEndpoint.cpp:60-69 | the regions follow the header one behind the other without gaps, and a datagram ends with the elements of the last channel |
| `BufferLayout.BuffSizeIsLargest` | common/SoapyStreamEndpoint.cpp:44 | no larger number of elements per channel would fit |
| `BufferLayout.DatagramCarriesChannels` | common/SoapyStreamEndpoint.cpp:314-326 | whatever its buffer held, the receiver finds each channel's elements where the sender has them |
| `StreamFlags.FlagsRoundTrip` | common/SoapyStreamEndpoint.cpp:325 | the flags survive the 32-bit word that carries them |
| `StreamFlags.FlagValues` | common/SoapyStreamEndpoint.cpp:325 | what each flag is worth in the word |
| `StreamEndpoint.HeaderRoundTrip` | common/SoapyStreamEndpoint.cpp:20-27 | a datagram header survives the wire, negative element counts and times included, whatever follows it |
| `StreamEndpoint.AckTravels` | common/SoapyStreamEndpoint.cpp:117-160 | an ACK means to the sender what the flow control says: the receiver's next sequence word and its window |
| `StreamEndpoint.StreamEndpoint.constructor` | common/SoapyStreamEndpoint.cpp:29-110 | window and trigger from the actual socket buffer, or the requested one if it cannot be read; the first ACK of a receiver |
| `StreamEndpoint.StreamEndpoint.SendAck` | common/SoapyStreamEndpoint.cpp:117-139 | what an ACK says and that it is remembered |
| `StreamEndpoint.StreamEndpoint.RecvAck` | common/SoapyStreamEndpoint.cpp:141-160 | the sender takes over the acknowledged sequence and the window |
| `StreamEndpoint.StreamEndpoint.WaitRecv` | common/SoapyStreamEndpoint.cpp:165-170 | the gratuitous ACK goes out exactly as long as nothing was received |
| `StreamEndpoint.StreamEndpoint.WaitSend` | common/SoapyStreamEndpoint.cpp:271-284 | true exactly when the window is open; a closed window first takes in every waiting ACK |
| `StreamEndpoint.StreamEndpoint.AcquireSend` | common/SoapyStreamEndpoint.cpp:286-307 | the next handle with its channel offsets, or an error when all are held |
| `StreamEndpoint.StreamEndpoint.ReleaseSend` | common/SoapyStreamEndpoint.cpp:309-354 | the header in the buffer, its own length on the wire in any number of pieces, one sequence number used up and the handle given back |
| `StreamEndpoint.StreamEndpoint.AcquireRecv` | common/SoapyStreamEndpoint.cpp:172-252 | exactly one datagram is taken, from a packet or across pieces; sequence state, notices and ACK follow the protocol's rule; no handle is issued for an error code; a truncated packet is an error that leaves the caller's flags and time alone |
| `StreamEndpoint.StreamEndpoint.ReleaseRecv` | common/SoapyStreamEndpoint.cpp:254-266 | the ring after a release |
| `StreamEndpoint.StreamEndpoint.Reclaim` | common/SoapyStreamEndpoint.cpp:347-353 | the shared release loop computes the ring's reclaim |
| `Sockets.PacketIntact` | common/SoapyStreamEndpoint.cpp:330-345 | in datagram mode a datagram stays one packet exactly when it has at most 4096 bytes |
| `Sockets.PacketsCounted` | common/SoapyStreamEndpoint.cpp:330-345 | how many packets a datagram of any length leaves in |
| `Sockets.SendAll` | common/SoapyStreamEndpoint.cpp:330-345 | the send loop ends and what it sent, in any pieces of at least one byte, is the buffer; in datagram mode they are its packets |
| `Sockets.RecvUpTo` | common/SoapyStreamEndpoint.cpp:210-219 | the receive loop ends and takes exactly the bytes it wants off the stream, however they are cut |
| `ServerSendWorker.PassLoses` | server/ServerStreamData.cpp:177-221 | a pass loses samples exactly when the device fails the second read, after a first one that delivered some, not a full buffer, and no end of burst |
| `ServerSendWorker.PassCanLose` | server/ServerStreamData.cpp:201-221 | such a pass exists for every layout whose buffers hold two elements: one element, then a device error |
| `ServerSendWorker.PassKeepsBursts` | server/ServerStreamData.cpp:201-217 | after a read that ends a burst nothing else is read into the datagram, which has the first read's time and flags and the second's trailing flags |
| `ServerSendWorker.PassFlags` | server/ServerStreamData.cpp:201-221 | flag by flag: which flags the datagram has of either read, that each ending flag stops the second read and that otherwise there is one, and that an error comes without flags |
| `ServerSendWorker.ReadEnds` | server/ServerStreamData.cpp:182-199 | the waiting read ends with the device's first answer that is not a timeout, with a test of done before each call, or when a test of done finds true |
| `ServerSendWorker.BurstsStayWhole` | server/ServerStreamData.cpp:201-217 | so for every pass of a run: a datagram has no samples behind a burst's end and carries the flag that ends it |
| `ServerSendWorker.PassSizes` | server/ServerStreamData.cpp:182-221 | every channel of a datagram has as many elements as the two reads together |
| `ServerSendWorker.ServerStreamData.ReadFirst` | server/ServerStreamData.cpp:182-199 | the waiting read retries on timeouts until data, an error or a stop |
| `ServerSendWorker.ServerStreamData.FillBuffer` | server/ServerStreamData.cpp:177-217 | both reads lie one behind the other in each channel's region, and nothing the device delivered is elsewhere |
| `ServerSendWorker.ServerStreamData.OnePass` | server/ServerStreamData.cpp:171-221 | the datagram of a pass carries what was read, under the next sequence number, and its handle is given back |
| `ServerSendWorker.ServerStreamData.SendEndpointWork` | server/ServerStreamData.cpp:146-223 | the whole run: after every test of done that finds false there is a turn, with exactly one pass if the window is open after the waiting ACKs and none otherwise, up to a test that finds true; it quits only when the window is open and all handles are held, so never if none was held at first; datagram k carries pass k with consecutive sequence numbers, the pieces on the socket are those of the datagrams in order, the device's streams grew by what the passes read, every handle is back |
| `ClientStream.ClientStreamData.TakeDatagram` | client/Streaming.cpp:404-412 | the next datagram becomes the current one, with all its samples unread; an error code or a truncated packet leaves nothing unread |
| `ClientStream.ClientStreamData.AcquireReadBuffer` | client/Streaming.cpp:496-508 | a timeout when nothing came, an error for a truncated packet, or the datagram's count, flags and time |
| `ClientStream.ClientStreamData.ReadStream` | client/Streaming.cpp:396-437 | one call hands out the front of what is unread and keeps the rest, takes a new datagram only when nothing is left, and holds a handle exactly while samples are left; flags and time are the datagram's when one was taken in, with MORE_FRAGMENTS while samples are left |
| `ClientStream.ClientStreamData.ReadInto` | client/Streaming.cpp:415-433 | with plain copying, each channel's fragment ends up at the front of the application's buffer, and nothing else of it changes; flags and time as in ReadStream |
| `ClientStream.ClientStreamData.ReadPacked` | client/ClientStreamData.cpp:84-101 | with CS16 from CS12, the front of each of the application's buffers holds the samples in its fragment's octets, as numbers, and the rest is untouched; flags and time as in ReadStream |
| `ClientStream.ClientStreamData.Advance` | client/Streaming.cpp:417-434 | the read position moves by what was handed out, and the handle goes back with the last sample |
| `Datagrams.FrontArrives` | common/SoapyStreamEndpoint.cpp:187-219 | from a transport that holds a queue of datagrams, in either mode and however cut, acquireRecv gets the first one |
| `Datagrams.AfterFront` | common/SoapyStreamEndpoint.cpp:187-219 | and leaves exactly the others |
| `Datagrams.WholeExactly` | common/SoapyStreamEndpoint.cpp:330-345 | in datagram mode every datagram is one packet exactly when a full one has at most 4096 bytes; a transfer size of at most 4096 is enough |
| `Datagrams.LongDatagramRefused` | common/SoapyStreamEndpoint.cpp:202-207 | a longer one is never delivered: its first packet is taken in as an error |
| `Datagrams.JumboDatagram` | common/SoapyStreamEndpoint.cpp:330-345 | with an mtu of 9000 a full datagram is such a one |
| `Datagrams.CutTakeable` | common/SoapyStreamEndpoint.cpp:202-207 | what a worker is given when a datagram is cut up is within what its contract covers: the first packet ends its work |
| `Reception.CarriedPayload` | server/ServerStreamData.cpp:219-221 | what the receiver reads out of a pass's datagram is what the pass forwarded |
| `Reception.PassIsStep` | server/ServerStreamData.cpp:171-221 | what OnePass ensures of its datagram and pieces makes it a step of the system |
| `Reception.SendKeeps` | server/ServerStreamData.cpp:146-223 | if datagrams stay whole, every pass keeps the balance of what the passes forwarded, in any pieces that the transport makes |
| `Reception.ReadKeeps` | client/Streaming.cpp:396-437 | a read of any size keeps it |
| `Reception.ReceptionConserves` | client/Streaming.cpp:396-437 | on every run, over a stream cut in any way or in datagram mode with datagrams that stay whole, each channel's delivered samples are a front part of what the passes forwarded; the rest is left at the client or under way, in order, and the same holds of the words converted from the packed format; and that is all that the device delivered exactly when no pass was lossy |
| `Reception.AllForwarded` | server/ServerStreamData.cpp:177-221 | over any sequence of passes, everything the device delivered is forwarded exactly when no pass lost an element |
| `Reception.ReceptionExactly` | common/SoapyStreamEndpoint.cpp:330-345 | every run conserves samples exactly when the link keeps datagrams whole |
| `Reception.LosingRun` | common/SoapyStreamEndpoint.cpp:330-345 | for every link that does not, the run that fails: a full datagram is sent, and refused by the client |
| `ServerReceiveWorker.WritesDeliver` | server/ServerStreamData.cpp:117-139 | the pieces the device accepts of one datagram, then what it did not accept, are exactly the datagram's samples; all of it was accepted when nothing is left |
| `ServerReceiveWorker.TimeOnlyOnce` | server/ServerStreamData.cpp:117-139 | HAS_TIME goes with exactly the calls up to the first accepted one, the other flags and the time with all, and no call follows a failed one |
| `ServerReceiveWorker.LoopGoes` | server/ServerStreamData.cpp:117-139 | a test of done that finds false comes before each call, the loop goes on after a timeout and after a part, and it ends by a test that finds true, by taking all, by a failure or by an overrun; exactly a failure is reported, with its code and the call's flags and time |
| `ServerReceiveWorker.ServerStreamData.WriteDatagram` | server/ServerStreamData.cpp:116-139 | the loop makes the calls of the specification and reports a failure once |
| `ServerReceiveWorker.ServerStreamData.TakeDatagram` | server/ServerStreamData.cpp:107-142 | the front datagram is written and its handle given back; for an error code or a packet that is not whole nothing is written and no handle is held |
| `ServerReceiveWorker.ServerStreamData.RecvEndpointWork` | server/ServerStreamData.cpp:89-144 | the whole run: after every test of done that finds false there is a turn, which handles exactly the front of what waits, if anything does, up to a test that finds true or an error code or a packet that is not whole, over which the worker quits; so everything is handled once each and in order, and no handle stays held |
| `ClientSend.ClientStreamData.WriteStream` | client/Streaming.cpp:439-464 | a call sends as many elements as fit, each channel's front part, as one datagram in any pieces or in its packets; the datagram has the given flags if all that was offered fits, and otherwise the same without END_BURST |
| `ClientSend.ClientStreamData.WritePacked` | client/ClientStreamData.cpp:218-235 | with CS16 to CS12, the datagram carries the upper twelve bits of the words in the front part of each of the application's buffers, as numbers; flags as in WriteStream |
| `ClientSend.BurstEndsOnce` | client/Streaming.cpp:454-463 | writing one buffer piece by piece, with the same flags for every call, sends all of it, and END_BURST goes with exactly the last datagram |
| `ClientSend.BurstIsForgotten` | client/Streaming.cpp:454-456 | but a call clears the flag in the caller's variable: passed on from call to call, END_BURST goes out exactly when a single call is enough |
| `Transmission.HandledDelivers` | server/ServerStreamData.cpp:117-139 | what the device accepted of a datagram that came in is a front part of its payload |
| `Transmission.WriteIsStep` | client/Streaming.cpp:439-464 | what WriteStream ensures of its datagram and pieces makes it a step of the system |
| `Transmission.WriteKeeps` | client/Streaming.cpp:439-464 | if datagrams stay whole, a write keeps the balance of samples, in any pieces that the transport makes |
| `Transmission.HandleKeeps` | server/ServerStreamData.cpp:105-142 | handling a datagram keeps it, whatever the device does |
| `Transmission.TransmissionConserves` | server/ServerStreamData.cpp:89-144 | on every run, over a stream cut in any way or in datagram mode with datagrams that stay whole, the server's worker does not quit, and what the application's calls passed on is what was taken in and what is under way, in order; no write after a datagram's first accepted one gets its time; the device accepted everything taken in exactly when no datagram's writes ended with elements left over |
| `Transmission.TransmissionExactly` | common/SoapyStreamEndpoint.cpp:330-345 | every run conserves samples exactly when the link keeps datagrams whole |
| `Transmission.QuittingRun` | server/ServerStreamData.cpp:107-113 | for every link that does not, the run that fails: a full datagram is sent, and makes the worker quit |
| `ClientConvert.PackedUnpacked` | client/ClientStreamData.cpp:84-101 | CS12 to CS16 to CS12 is the identity on buffers of any length |
| `ClientConvert.UnpackedPacked` | client/ClientStreamData.cpp:218-235 | CS16 to CS12 to CS16 clears exactly the low four bits of every I and Q |
| `ClientConvert.UnpackedAppend` | client/Streaming.cpp:415-433 | converting received fragments one by one equals converting the whole |
| `ClientConvert.PackedAppend` | client/ClientStreamData.cpp:218-235 | the same for samples to send |
| `ClientConvert.ConvertRecv` | client/ClientStreamData.cpp:84-101 | the loop fills exactly the output of the conversion and nothing behind it: for every sample, the values of I and Q in terms of those of the octets |
| `ClientConvert.ConvertSend` | client/ClientStreamData.cpp:218-235 | the same in the other direction: for every sample, the values of the octets in terms of those of I and Q |
| `ClientConvert.UnpackedValues` | client/ClientStreamData.cpp:93-97 | twelve bits each for I and Q, least significant first, in the upper bits of a word |
| `ClientConvert.PackedValues` | client/ClientStreamData.cpp:226-231 | the octets of a packed sample, as numbers |
| `Bytes.SignedBytesRoundTrip` | common/SoapyRPCPacker.cpp:91-103 | two's complement integers survive network order |
| `FloatTransport.ExponentRange` | common/SoapyRPCPacker.cpp:105-113 | frexp's exponent lies 1 to 53 above a positive double's lowest bit |
| `FloatTransport.FractionWhole` | common/SoapyRPCPacker.cpp:105-113 | so the scaled fraction of a positive double is a whole number of at most 53 bits: the cast loses nothing |
| `FloatTransport.DoubleRoundTrip` | common/SoapyRPCUnpacker.cpp:200-208 | for every finite double, subnormal ones included, mantissa and exponent fit their fields and recombine to the same number |
| `RpcCodec.IntWraps` | common/SoapyRPCPacker.cpp:91-96 | a wider number packed as an int arrives reduced to 32 bits |
| `RpcCodec.DoubleTravels` | common/SoapyRPCPacker.cpp:105-113 | a double arrives unchanged, whatever follows it |
| `RpcCodec.StringTravels` | common/SoapyRPCPacker.cpp:122-127 | so does a string |
| `RpcCodec.ListTravels` | common/SoapyRPCPacker.cpp:146-151 | a list arrives element by element, for every element type whose values travel |
| `RpcCodec.RangeTravels` | common/SoapyRPCPacker.cpp:129-144 | a range arrives, with its step between current peers and with step 0 when one is older |
| `RpcCodec.StepLeftUnread` | common/SoapyRPCUnpacker.cpp:234-238 | if the two sides disagree on the version the step stays in front of the next value |
| `RpcCodec.WidenedExactly` | common/SoapyRPCUnpacker.cpp:298-309 | a size's low 32 bits always survive, and the whole size exactly when its upper 33 bits are alike |
| `RpcCodec.KwargsTravel` | common/SoapyRPCUnpacker.cpp:274-287 | a dictionary arrives whole in whatever order its entries are walked |
| `RpcCodec.MapOfEnumeration` | common/SoapyRPCUnpacker.cpp:280-286 | assigning an enumeration's entries one by one rebuilds the dictionary |
| `RpcCodec.LastEntryWins` | common/SoapyRPCUnpacker.cpp:280-286 | of several entries with one key the last one counts |
| `RpcValues.ArgInfoTravels` | common/SoapyRPCPacker.cpp:192-204 | an ArgInfo arrives field by field |
| `RpcValues.ValueTravels` | common/SoapyRPCUnpacker.cpp:161-333 | in prefix form, every supported value of every type arrives |
| `RpcValues.SeenExactly` | common/SoapyRPCUnpacker.cpp:161-333 | what arrives is the value itself exactly when the peer's version and the width of sizes allow it |
| `RpcValues.SizeIsWidened` | common/SoapyRPCUnpacker.cpp:298-309 | a size that does not arrive: 0x80000000 becomes 0xffffffff80000000 |
| `RpcValues.ValuesTravel` | common/SoapyRPCUnpacker.cpp:161-333 | the values of a message arrive in order |
| `RpcValues.DoneExactly` | common/SoapyRPCUnpacker.cpp:156-159 | the message is used up exactly after its last value |
| `RpcMessage.FrameParses` | common/SoapyRPCUnpacker.cpp:75-121 | a frame's header, length and trailer are recognised, whatever follows, exactly when its payload is not empty |
| `RpcMessage.FramesSplit` | common/SoapyRPCUnpacker.cpp:75-121 | a stream of frames splits back into the same payloads exactly when none is empty |
| `RpcPacker.Packer.constructor` | common/SoapyRPCPacker.cpp:16-29 | an empty message with room for its header |
| `RpcPacker.Packer.EnsureSpace` | common/SoapyRPCPacker.cpp:64-69 | although the capacity is never updated there is always room for what comes, and earlier bytes are kept |
| `RpcPacker.Packer.Pack` | common/SoapyRPCPacker.cpp:71-76 | a blob goes behind what was packed |
| `RpcPacker.Packer.PackDouble` | common/SoapyRPCPacker.cpp:105-113 | packs the encoding that DoubleTravels is about |
| `RpcPacker.Packer.PackString` | common/SoapyRPCPacker.cpp:122-127 | the same for strings |
| `RpcPacker.Packer.PackRange` | common/SoapyRPCPacker.cpp:129-144 | the same for ranges, by the peer's version |
| `RpcPacker.Packer.PackRangeList` | common/SoapyRPCPacker.cpp:146-151 | the loop packs the list's encoding |
| `RpcPacker.Packer.PackKwargs` | common/SoapyRPCPacker.cpp:167-176 | the loop packs the dictionary's entries as walked |
| `RpcPacker.Packer.Send` | common/SoapyRPCPacker.cpp:37-62 | what goes out, in any pieces, is the payload's frame |
| `RpcUnpacker.Unpacker.RecvFrame` | common/SoapyRPCUnpacker.cpp:75-121 | takes exactly one frame off the stream, or fails as its header or trailer demand |
| `RpcUnpacker.Unpacker.Recv` | common/SoapyRPCUnpacker.cpp:75-138 | and consumes a leading void or raises the peer's exception |
| `RpcUnpacker.Unpacker.Unpack` | common/SoapyRPCUnpacker.cpp:140-154 | consumes what was asked for, and refuses to consume more than the payload |
| `RpcUnpacker.Unpacker.Done` | common/SoapyRPCUnpacker.cpp:156-159 | true exactly when nothing of the payload is left |
| `RpcUnpacker.Unpacker.UnpackDouble` | common/SoapyRPCUnpacker.cpp:200-208 | decodes as the specification does and consumes as much |
| `RpcUnpacker.Unpacker.UnpackString` | common/SoapyRPCUnpacker.cpp:219-225 | the same for strings |
| `RpcUnpacker.Unpacker.UnpackRange` | common/SoapyRPCUnpacker.cpp:227-245 | the same for ranges |
| `RpcUnpacker.Unpacker.UnpackRangeList` | common/SoapyRPCUnpacker.cpp:247-254 | the loop decodes the whole list or fails with its first bad element |
| `RpcUnpacker.Unpacker.UnpackKwargs` | common/SoapyRPCUnpacker.cpp:274-287 | the loop builds the dictionary |
| `RpcExchange.MessageTravels` | common/SoapyRPCUnpacker.cpp:75-138 | between current peers every message of values arrives whole whatever follows it: all its values and nothing left over, a leading void consumed, or the exception raised |
| `WireFormat.ByteAt` | common/SoapyRPCPacker.cpp:91-103 | numbers of any width travel with the most significant byte first |
| `WireFormat.HeaderFields` | common/SoapyStreamEndpoint.cpp:20-27 | where each field of the datagram header is |
| `WireFormat.TypeTags` | common/SoapyRemoteDefs.hpp:106-128 | the number in front of every type of value |
| `WireFormat.IntOnTheWire` | common/SoapyRPCPacker.cpp:91-96 | the bytes of a positive and a negative int |
| `WireFormat.SmallValuesOnTheWire` | common/SoapyRPCPacker.cpp:78-89 | the bytes of chars, bools and voids, and what is in front of an exception and a call |
| `WireFormat.StringOnTheWire` | common/SoapyRPCPacker.cpp:122-127 | the bytes of a string |
| `WireFormat.OneOnTheWire` | common/SoapyRPCPacker.cpp:105-113 | the bytes of the double 1: exponent, then mantissa |
| `WireFormat.ComplexOnTheWire` | common/SoapyRPCPacker.cpp:115-120 | the real part first |
| `WireFormat.RangeOnTheWire` | common/SoapyRPCPacker.cpp:129-144 | minimum, maximum and, for a current peer only, step |
| `WireFormat.EntriesOnTheWire` | common/SoapyRPCPacker.cpp:167-176 | the bytes of a dictionary: its size, and each key before its value |
| `WireFormat.ArgInfoOnTheWire` | common/SoapyRPCPacker.cpp:192-204 | the order of an ArgInfo's texts |
| `WireFormat.FrameOnTheWire` | common/SoapyRPCPacker.cpp:37-62 | the bytes of the smallest message |
| `WireFormat.AcceptedExactly` | common/SoapyRPCUnpacker.cpp:75-121 | what has arrived is taken for a message exactly with SRPC in front, a length above 16 and CPRS at the end |
| `WireFormat.OtherTypesRefused` | common/SoapyRPCUnpacker.cpp:161-170 | nothing is read as a value of another type, or out of an empty rest |
| `StreamTable.ClosedAtMostOnce` | server/ClientHandler.cpp:428-441 | an account of a device that is in order closes no stream twice |
| `StreamTable.ClosedBeforeUnmade` | server/ClientHandler.cpp:119-138 | and closes a stream before the device it was opened on is unmade |
| `StreamTable.ClientHandler.constructor` | server/ClientHandler.cpp:28-36 | no device, no streams, ids from 0 |
| `StreamTable.ClientHandler.Release` | server/ClientHandler.cpp:119-138 | UNMAKE and the destructor close every stream of the table, then unmake the device |
| `StreamTable.ClientHandler.OpenStream` | server/ClientHandler.cpp:324-426 | the table and the device's account after each way a setup can end; a stream without sockets is given up but not closed; without a device the process crashes |
| `StreamTable.ClientHandler.Close` | server/ClientHandler.cpp:428-441 | an unknown id raises an exception and changes nothing; a known one is closed on the device and leaves the table |
| `StreamTable.ClientHandler.HandleOnce` | server/ClientHandler.cpp:88-498 | for every call: its reply, the table after it and what the device was told, a setup's id being the next one; only a call that needs a device where there is none crashes |
| `StreamTable.ClientHandler.Serve` | server/ClientHandler.cpp:38-57 | over any call sequence and the destructor: the ids of exactly the successful setups are returned, counted up over all that got a stream; the device's account is in order, a crash comes exactly from a call that uses the device when there is none, and otherwise exactly the streams of setups whose sockets failed stay open, so none does if and only if no setup that was handled failed like that |
| `StreamTable.LeakedStream` | server/ClientHandler.cpp:324-426 | a connection that leaves a stream open: a device, and a setup whose sockets fail |
| `StreamTable.CrashingCall` | server/ClientHandler.cpp:172-176 | a device call on a fresh connection crashes |
| `Url.SoapyURL.FromString` | common/SoapyURLUtils.cpp:44-92 | the parser's loop computes the specified scan |
| `Url.SoapyURL.ToString` | common/SoapyURLUtils.cpp:170-185 | the printed form |
| `Url.PrintLength` | common/SoapyURLUtils.cpp:170-185 | nothing is printed of what a URL does not have |
| `Url.PrintedUrls` | common/SoapyURLUtils.cpp:170-185 | three printed URLs, with brackets exactly around a node with colons |
| `Url.ScanKeeps` | common/SoapyURLUtils.cpp:58-91 | the scan keeps each character at most once, and drops brackets that open or close |
| `Url.RestReturns` | common/SoapyURLUtils.cpp:170-185 | exactly which nodes and services come back from the printed form |
| `Url.PrintParses` | common/SoapyURLUtils.cpp:44-92 | parsing undoes printing exactly for the URLs that Printable describes: colons in the node are fine, brackets there only when they close at its end, and no mark where a scheme would be cut |
| `Url.BracketIsLost` | common/SoapyURLUtils.cpp:58-91 | a URL that does not come back: the node "[" |

## Left out

- Option matching: how many results and slots an option word takes is a parameter of the scanner, so the tables, prefixes, abbreviations and messages of the option parser, and the early -1 for a '-' inside a cluster of letters, are not part of the model.
- Sockets that fail: every socket call moves at least one byte, ACKs arrive whole, and a stream delivers the rest of what its headers announce. The source's error branches for these calls log and go on, or raise an exception.
- `CutDatagrams.WindowHoldsExactly`: does not speak of links whose full datagrams are 1 to 23 bytes longer than a packet. What is left of such a datagram is shorter than a header and is read over what the buffer held before; in the protocol the receiver always refuses a packet like that, which a sender's samples can bring about.
- `CutDatagrams.RefinementExactly`: nor does this one.
- `StreamEndpoint.StreamEndpoint.AcquireRecv`: is given at least as many bytes as a header has.
- `CutDatagrams.BytesUnbounded`: is about windows of two datagrams and more.
- Threads and time: the workers are loops whose tests of `done` and whose timeouts are chosen by an adversary; select timeouts, thread priorities and the status thread are not modelled. `stopThreads` is the point where `done` becomes true.
- The device is a script of answers to readStream or writeStream calls. It never delivers more than it was asked for; a write that claims more than it was offered is modelled.
- Loss of datagrams is modelled in the flow control, where it matters for progress; the end-to-end theorems about samples assume a transport that loses, repeats and reorders nothing. Those theorems do not mention the window, which only restricts when a worker may send. The flow control loses single packets, and neither reorders nor repeats them.
- `ClientStream.ClientStreamData.ReadStream`: hands the fragments out in wire format; `ReadInto` and `ReadPacked` convert them into the application's buffers, which are not the endpoint's own and differ from channel to channel.
- `ClientSend.ClientStreamData.WriteStream`: takes the samples in wire format; `WritePacked` packs all that was offered first, where the source packs only what it sends.
- Conversions with floating point, CS8 and CU8: the two directions use different scales, so they have no exact inverse.
- Infinity, NaN and the sign of zero in the codec, and the rounding of mantissas that no packer sends.
- Malformed messages: reading a tag past the end of the payload is an error in the model, where the source's one-byte read does not check. A list size that does not fit its message is an error here, and an allocation there.
- The packer's and the unpacker's operators for the types not in the table: they have the shape of the ones that are, and their encodings are covered by `RpcValues.ValueTravels`.
- `StreamTable.ClientHandler.HandleOnce`: the arguments of a setup are well formed, the device's close succeeds and the id counter does not overflow.
- The status stream (writeStatus appears as a log of reports), log forwarding, discovery over SSDP and mDNS, HTTP headers, listeners, and the one-line RPC calls.
- Addresses: conversion between URLs and socket addresses, and lookup.
