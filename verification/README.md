# Model of libaji_client

The client side of a JTAG server protocol, modelled in Dafny part by part. Each class has the fields of the
class it models and each method the branches of the function it models; what a method does is tied to a
function of the old state, and the properties below are proved about those functions and over whole runs.

| part | modules |
|---|---|
| multiplexed link, sending | `Framing`, `TxQueue` (which FIFO is next), `TxLink` (copy buffer, eight vectors, short writes) |
| multiplexed link, receiving | `RxDemux` (what a list of packets means), `RxLink` (the byte-level state machine), `EndToEnd` |
| deferred commands | `PipeSteps` (the machine), `PipeRuns`, `PipeResults` (what its runs keep), `Pipeline` (the same on four action buffers), `Tap` (TAP controller and instruction register guard), `TapLaws`, `Locks`, `Overlay` |
| hubs | `HubTree`, `HubListing`, `HubResolve`, `HubScan`, `HubSelect` |
| configuration | `ConfigMap`, `ConfigSections`, `ConfigText`, `ConfigStore` |
| codecs | `Message`, `Md5Words`, `Md5Block`, `Md5`, `Md5Standard` (against RFC 1321, bit by bit), `Md5Sine` (its constants) |
| shared | `Common`, `Bytes`, `Bits` (words as numbers) |

Foreign parties are parameters. The socket is a list of answers, one a call: so many bytes accepted or
delivered, would block, interrupted, broken; the properties hold for every list. The server is a list of
replies, the hub hardware a function from the select word written to what is read back, a lock that is asked
for a flag that says whether it was free. TAP states follow clause 6.1 of IEEE Std 1149.1, MD5 sections 3.1
to 3.5 of RFC 1321.

## Where the code keeps less than it seems to

Each of these is proved with the exact condition, or with a concrete case.

- Interleaved FIFOs: if the first of a pair takes two packets more than the second or still more, and another FIFO
  of its channel is queued behind, bytes of that one overtake (`TxQueue.TurnsKeptExactlyIf`, if and only if). Pairs
  of equal length are exposed to it only if the first is absent data of more than 512 bytes, sent in packets of
  256, and the second is not (`TxQueue.EqualLengthsExactlyIf`). The code avoids it: a sequence that long is not
  deferred, so that its pair is sent before anything else is queued, which is all that `TxQueue.ChannelOrder` asks.
- Making room in a full packet: when no action buffer is free and the oldest packet has failed, there is no
  buffer for the CONTINUE. The command, one that might have been deferred, is then packed but not sent, although
  the caller waits (`PipeRuns.PerformKeeps`, if and only if). Unless a lock was refused it stays in the transmit
  buffer and goes out in front of the next packet, where no note and no wait accounts for it: every handler of that
  packet is run with the reply to the command before its own, and so is the caller who waits
  (`PipeResults.NextIsMisled`, `PipeResults.ReplyTaken`; `PipeResults.OwnRepliesExactlyIf`, if and only if;
  `PipeResults.MisledReached` is a run that gets there).
- A sequence without TMS bits counts as zeros in the guard, but leaves the state alone on the path without a
  guard (`Tap.AbsentSequence`, if and only if).
- Listing hubs: a hub with nodes behind position 0 of a hub below the top gets wrong ancestors' positions
  (`HubTree.ListingRightIff`; `HubTree.ListingRightIffHeld` for a zeroed workspace, both if and only if). One slot
  past those that the caller counts is written exactly if the last hub of all is empty and nothing lies too deep
  (`HubListing.ListTree`). Nodes can be missing without an error, as a later sibling overwrites it
  (`HubListing.HiddenExactlyIf`, if and only if), and an error of a discovery is overwritten in the same way
  (`HubScan.ErrorExactlyIfLast`, `HubScan.ScanErrorIsForgotten`).
- Opening a node: fields of upper levels are shifted as 32-bit signed numbers, which too deep a hub overflows
  (`HubSelect.PackSelect`, if and only if; `HubSelect.ShiftCanOverflow`).
- Claims are matched by value only, so weak claims and claimed instructions make an overlay value safe
  (`Overlay.SafeExactlyIfGranted`).
- The configuration file holds keys of letters, digits and `. - _` of limited length (the reader would allow `#`
  in a word, but a comment starts there) and values without quotes or newlines; other settings are written but
  not read back (`ConfigStore.SetSurvivesExactlyIfFits`). A section without a name is listed only behind a named
  one (`ConfigStore.SectionsListedOnce`, if and only if).
- Strings of 256 to 511 bytes, which the writer allows, have their length truncated to a byte (`Message.StringRoundTripIff`).
- Handing a lock from an open to the chain releases the claim on the link twice when an assumed lock turns out to
  be refused (`Locks.Open.UnlockLockChain`, if and only if).

## Model

| member | source | states |
|---|---|---|
| Framing.HeaderInverse | src/jtag/jtag_tcplink.cpp:163-168 | channel and length of a packet can be read off its two header bytes |
| Framing.HeaderLayout | src/jtag/jtag_tcplink.cpp:163-168 | the channel stands in the high four bits of the first byte, the length less one in the other twelve |
| Framing.WordInverse | src/jtag/jtag_tcplink.cpp:781-783 | every two bytes are the header of some channel and length, so the receiver never meets a bad header |
| Framing.ParseUndoesFrame | src/jtag/jtag_tcplink.cpp:154-188 | cutting a stream of frames gives back the packets, whatever incomplete packet follows |
| Framing.ParseOfPrefix | src/jtag/jtag_tcplink.cpp:738-883 | of whatever part of the frames has come, the packets read are the first that were framed |
| Framing.FrameUndoesParse | src/jtag/jtag_tcplink.cpp:738-883 | any byte stream at all is the frames of the packets read from it, and a rest that is no packet yet |
| TxLink.TxRawFifo.GetDataAvail | src/jtag/jtag_raw_fifo.cpp:100-115 | how much one packet may take: what is left, at most what is asked for and, without data, at most the constant block of zeros |
| TxLink.TxRawFifo.GetData | src/jtag/jtag_raw_fifo.cpp:117-130 | the stretch of memory handed over holds exactly the next bytes of the FIFO, which moves past them |
| TxLink.TxRawFifo.CopyData | src/jtag/jtag_raw_fifo.cpp:132-152 | the private copy holds the same bytes at the same position |
| TxLink.TxLink.Writev | src/jtag/jtag_tcplink.cpp:446-478 | a gathering write sends some prefix of the bytes the vectors describe, of any length the socket likes |
| TxLink.TxLink.Scan | src/jtag/jtag_tcplink.cpp:480-496 | whole vectors covered by a short write and the bytes into the next add up to what was written |
| TxLink.TxLink.Consume | src/jtag/jtag_tcplink.cpp:480-504 | after a short write the vectors describe exactly the bytes that were not written, in order |
| TxLink.PushEnds | src/jtag/jtag_tcplink.cpp:443-519 | when writing ends, for any answers of the socket: well only with all bytes written; short of that only if the socket refused bytes and is not waited for; lost only if it was closed, broke or gave no more answers; a socket that always takes something is asked at most twice for a byte |
| TxLink.TxLink.Drain | src/jtag/jtag_tcplink.cpp:443-519 | through any pattern of short writes nothing is lost, doubled or reordered; how many bytes go out, which answers are taken and how it ends is what the answers say; a socket that takes all at once gives OK |
| TxLink.TxLink.SendQueued | src/jtag/jtag_tcplink.cpp:416-530 | OK only with all pending bytes on the wire in the order added, and whenever the socket takes them; not OK for no other reasons than those of PushEnds; only when OK are finished FIFOs deleted and the buffer reused |
| TxLink.TxLink.DeleteQueue | src/jtag/jtag_tcplink.cpp:130-140 | finished FIFOs are freed, their own memory with them, only when no vector points there: the memory leaves what vectors may point at |
| TxLink.TxLink.AddPacket | src/jtag/jtag_tcplink.cpp:154-188 | under the space guard the copy buffer and the eight vectors do not overflow, no byte still waiting is overwritten, and the pending stream grows by the frame of this packet |
| TxLink.TxLink.AddFifoPacket | src/jtag/jtag_tcplink.cpp:190-232 | the same for a packet taken from a FIFO, copied below 512 bytes and pointed at above; the queue moves on as the scheduling rule says |
| TxLink.TxLink.NextTxFifo | src/jtag/jtag_tcplink.cpp:534-565 | picks the FIFO the scheduling rule names and retires exhausted ones; with an empty queue there is none |
| TxLink.TxLink.DeactivateTxFifo | src/jtag/jtag_tcplink.cpp:248-263 | an exhausted FIFO leaves the queue but stays on the list of finished ones with its memory: every vector into a block of a FIFO's own is accounted to that FIFO, which must still be there |
| TxLink.TxLink.ReleaseTxmux | src/jtag/jtag_tcplink.cpp:946-966 | a FIFO is unlinked wherever it stands; a successor position naming it moves on to the next |
| TxLink.TxLink.AddTxmux | src/jtag/jtag_tcplink.cpp:929-944 | a FIFO is queued behind all others |
| TxLink.TxLink.Activate | src/jtag/jtag_tcplink.cpp:985-991 | a FIFO given to the link keeps its contents and is noted as the next in activation order; a block of its own becomes the link's to free |
| TxLink.TxLink.SendFromFifo | src/jtag/jtag_tcplink.cpp:293-301 | one round takes one packet from the FIFO in turn, and ends when none has data |
| TxLink.TxLink.SendStep | src/jtag/jtag_tcplink.cpp:293-301 | the same over the recorded history; each packet lowers what is left to send, so the loop ends |
| TxLink.TxLink.FillFromFifos | src/jtag/jtag_tcplink.cpp:293-301 | FIFO packets are added while the space guard holds, until it does not or no FIFO has data |
| TxLink.TxLink.MakeRoom | src/jtag/jtag_tcplink.cpp:279-281 | without room everything is written first, after which there is room for any packet; otherwise the link is closed |
| TxLink.TxLink.Send | src/jtag/jtag_tcplink.cpp:267-309 | the packet joins the stream before FIFO data of the same call; every invariant of the link is kept |
| TxLink.TxLink.SendChosen | src/jtag/jtag_tcplink.cpp:362-368 | a packet of the FIFO in turn, once there is room for it; only a lost link keeps it from being framed |
| TxLink.TxLink.SendRound | src/jtag/jtag_tcplink.cpp:362-368 | the FIFO is chosen first, then room is made; each round takes one packet, or finds none |
| TxLink.TxLink.SendFifos | src/jtag/jtag_tcplink.cpp:352-373 | on success every queued FIFO is framed and the queue is empty; otherwise the link is closed |
| TxLink.TxLink.SendFlush | src/jtag/jtag_tcplink.cpp:375-392 | on success the wire holds every packet accepted so far |
| TxLink.TxLink.SendAll | src/jtag/jtag_tcplink.cpp:352-392 | the two together: all FIFO data framed and written |
| TxLink.TxLink.SendCommand | src/jtag/jtag_client_link.cpp:1256-1281 | after a command and its data the wire holds every packet framed so far, the command ahead of the data queued behind it; it fails only if the link was closed, broke or gave no more answers, and not at all on a socket that always takes something and has two answers for each byte there is to write |
| TxQueue.TotalDrops | src/jtag/jtag_tcplink.cpp:534-565 | each packet lowers what the FIFOs have left, so sending all of them ends |
| TxQueue.WorkOfRun | src/jtag/jtag_tcplink.cpp:340-443 | over any run of sending the bytes still to be framed never grow, but for the frames of commands |
| TxQueue.SettleKeepsRest | src/jtag/jtag_tcplink.cpp:534-565 | retiring exhausted FIFOs takes no byte from any channel |
| TxQueue.EmitInOrder | src/jtag/jtag_tcplink.cpp:190-232 | the next packet takes its bytes from the front of what its channel still has to send, if the FIFO in turn is the first of its channel with something left |
| TxQueue.ExecPaired | src/jtag/jtag_tcplink.cpp:534-565 | over well-paired histories: interleaved FIFOs with something left have partners that keep up, or nothing behind them, and a successor position has nothing in front of it but its partner |
| TxQueue.NeverOvertakes | src/jtag/jtag_tcplink.cpp:534-565 | so no FIFO is ever sent from while an earlier one of its channel has something left |
| TxQueue.TurnsKeptExactlyIf | src/jtag/jtag_tcplink.cpp:946-966 | a pair before a third FIFO on the channel of its first keeps its turns exactly if the first takes at most one packet more than the second |
| TxQueue.EqualLengthsExactlyIf | src/jtag/jtag_client_open.cpp:1375-1376 | the pairs that sequences queue have equal lengths: they keep their turns unless the first is absent data of more than 512 bytes and the second is not, which no deferred command is |
| TxQueue.BalancedIsWellPaired | src/jtag/jtag_client_open.cpp:1411-1412 | pairs whose first takes at most one packet more may be queued at any time |
| TxQueue.StepKeepsStream | src/jtag/jtag_tcplink.cpp:293-301 | a step moves bytes of a channel from its queue to the wire and changes nothing about their order |
| TxQueue.ChannelOrder | src/jtag/jtag_tcplink.cpp:190-263 | over whole runs, absent data included: what was sent on a channel followed by what its FIFOs still hold is the data of its FIFOs in activation order, if interleaved FIFOs are queued in pairs and other FIFOs only behind pairs that keep up or are sent |
| TxQueue.AbsentDataIsOvertaken | src/jtag/jtag_tcplink.cpp:946-966 | a pair that does not: absent data of 768 bytes against real data, and the third FIFO puts a byte where a zero is due |
| RxLink.RxRawFifo.constructor | src/jtag/jtag_raw_fifo.cpp:167-190 | a buffer of known length starts empty, in the memory given or its own |
| RxLink.RxRawFifo.GetReceiveBuffer | src/jtag/jtag_raw_fifo.cpp:235-265 | room is found exactly if the bytes still fit the known length, behind those that came before |
| RxLink.RxRawFifo.ReceiveData | src/jtag/jtag_raw_fifo.cpp:267-279 | counts what came and tells when the buffer is full; too much marks it bad and changes no count |
| RxLink.RxLink.constructor | src/jtag/jtag_tcplink.cpp:84-106 | nothing received, no buffer active |
| RxLink.RxLink.Recv | src/jtag/jtag_tcplink.cpp:811-842 | a receive of any size the socket likes stores the next bytes of the stream and touches no other byte |
| RxLink.RxLink.RecvHeader | src/jtag/jtag_tcplink.cpp:746-779 | the header is completed however often the bytes stop inside it; a header already complete is not received again |
| RxLink.RxLink.ChooseBuffer | src/jtag/jtag_tcplink.cpp:781-809 | the payload goes straight to the waiting buffer of its channel if it fits there; there is no place for it exactly if it does not |
| RxLink.RxLink.RecvPayload | src/jtag/jtag_tcplink.cpp:811-842 | the payload is completed however often the bytes stop inside it |
| RxLink.RxLink.FillHead | src/jtag/jtag_tcplink.cpp:853-870 | the buffer at the head of the channel gains the payload behind what it held and leaves the queue once it is full |
| RxLink.RxLink.Dispatch | src/jtag/jtag_tcplink.cpp:853-883 | a complete packet does to the channels what the reference demultiplexer does |
| RxLink.RxLink.Finish | src/jtag/jtag_tcplink.cpp:846-883 | the receiver is between packets again and the one packet it completed is the next of the stream |
| RxLink.PullStops | src/jtag/jtag_tcplink.cpp:745-840 | when a wait for bytes ends, for any answers of the socket: done exactly with none missing; blocked only without more answers or bytes, or on the answer that there are none; lost only if closed or broken |
| RxLink.BringsAll | src/jtag/jtag_tcplink.cpp:738-883 | answers that give bytes as often as bytes of a packet are missing complete it |
| RxLink.StopsAreDue | src/jtag/jtag_tcplink.cpp:738-883 | the same for a whole receive: it brings what is missing of header and payload or stops for those reasons |
| RxLink.RxLink.Receive | src/jtag/jtag_tcplink.cpp:738-883 | at most one packet is completed, delivered as the reference demultiplexer does; how many bytes are taken and why it stops is what the answers say; a reply the caller cannot take yet is left waiting; stopping anywhere loses nothing |
| RxLink.RxLink.ReceiveCmnd | src/jtag/jtag_tcplink.cpp:571-596 | the next reply on the command channel, after whatever data comes before it; without a reply it ends only if a payload has no buffer or the socket blocks or is lost; a socket that goes on giving brings the whole stream, and the packets are those of the stream |
| RxLink.RxLink.AddRxmux | src/jtag/jtag_tcplink.cpp:887-904 | a buffer joins the end of its channel and the queues of other channels stay |
| RxLink.RxLink.PacketsAreParsed | src/jtag/jtag_tcplink.cpp:738-883 | whatever the splitting into receives, the packets delivered are those of parsing all bytes at once |
| RxDemux.ActivateEarlier | src/jtag/jtag_tcplink.cpp:887-904 | a buffer activated after a packet would have changed nothing had it been activated before, provided the packet did not need it |
| RxDemux.OrderOfActivationIsFree | src/jtag/jtag_tcplink.cpp:887-904 | over whole runs the buffers hold the same however activations and arrivals were interleaved |
| RxDemux.ChannelConserved | src/jtag/jtag_tcplink.cpp:853-870 | over whole runs the buffers of a channel hold its payload bytes, all of them, once, in order |
| RxDemux.RepliesInOrder | src/jtag/jtag_tcplink.cpp:853-883 | the replies are the payloads of channel 0 and the notifications those of channel 1, packet by packet, in order |
| EndToEnd.PacketsRoundTrip | src/jtag/jtag_tcplink.cpp:738-883 | from any part of the wire the packets read are the first that were framed, from all of it all of them |
| EndToEnd.LinksAgree | src/jtag/jtag_tcplink.cpp:738-883 | what one link has received of what another has written are the first packets that one framed, and all of them once it is idle and all has come |
| EndToEnd.AllArrives | src/jtag/jtag_tcplink.cpp:738-883 | a sender that has written everything and a receiver that was brought all of it hold the same packets, and the same messages of the command channel, one by one |
| EndToEnd.LinkBuffersAgree | src/jtag/jtag_raw_fifo.cpp:235-279 | then the receive buffers of the one link hold just the FIFO data of the other |
| EndToEnd.ChannelRoundTrip | src/jtag/jtag_tcplink.cpp:154-263 | what the receive buffers of a channel hold, followed by what the sender still has, is the data activated at the sender |
| EndToEnd.BuffersRoundTrip | src/jtag/jtag_tcplink.cpp:738-883 | once all is sent and received, the buffers of the receiver equal the FIFOs of the sender one by one |
| PipeSteps.SeenIsFirstFailure | src/jtag/jtag_client_open.cpp:2133-2150 | handlers up to the first command of a packet that fails see success, all behind it see its failure, and that is what the packet reports |
| PipeSteps.FailureSticks | src/jtag/jtag_client_open.cpp:2133-2150 | once a packet has failed, every later handler is told of that failure |
| PipeRuns.RefusedLockFails | src/jtag/jtag_client_open.cpp:285-303 | a packet with an assumed lock that was refused reports a failure |
| PipeRuns.AnswerKeeps | src/jtag/jtag_client_open.cpp:2119-2180 | with a packet answered the books stay right: what has been handled are the deferred commands of the packets with a reply, each with the reply to its packet |
| PipeRuns.SendKeeps | src/jtag/jtag_client_open.cpp:2090-2115 | a packet sent takes its notes along, and the books stay right |
| PipeRuns.AcquireKeeps | src/jtag/jtag_client_open.h:318-345 | a buffer to fill is found, after waiting for a reply only if none is free; it fails exactly if that reply does |
| PipeRuns.ContinueKeeps | src/jtag/jtag_client_open.cpp:2056-2086 | a full packet goes out and the next starts with a CONTINUE: exactly if the link sends and, no buffer being free, the oldest packet has not failed |
| PipeRuns.DrainKeeps | src/jtag/jtag_client_open.cpp:2009-2026 | waiting for all replies leaves nothing under way unless an error is fatal, and touches nothing else |
| PipeRuns.SendReceiveKeeps | src/jtag/jtag_client_open.cpp:1982-2048 | what was filled is sent, all packets are answered; the link is up afterwards exactly if no error was fatal |
| PipeRuns.BufferFound | src/jtag/jtag_client_open.h:324-345 | between operations with the link up a buffer is always found: packets are under way only while another is being filled |
| PipeRuns.AlwaysRoom | src/jtag/jtag_client_open.h:381-393 | no command is ever too long for the transmit buffer, so that the next packet is never started for lack of bytes |
| PipeRuns.IssueKeeps | src/jtag/jtag_client_open.h:381-407 | packing a command between operations: it is queued exactly if it may be deferred, else answered; what is then packed, noted and sent |
| PipeRuns.PerformKeeps | src/jtag/jtag_client_open.cpp:1548-1578 | one whole command from any state between commands: the books stay right, it ends exactly as the notes, the link and the oldest reply have it, and it is packed and noted, sent and answered, or packed unsent, once; no buffer is used that is not there |
| PipeRuns.FlushKeeps | src/jtag/jtag_client_open.cpp:1944-1959 | after a flush with the link up every note has been handled and nothing is under way |
| PipeRuns.RunKeeps | src/jtag/jtag_client_open.cpp:1982-2196 | the same over every run of commands and flushes, with what was left over in packets counted |
| PipeRuns.HandledAre | src/jtag/jtag_client_open.cpp:2133-2150 | the handlers that have run are those of the deferred commands of the packets with a reply, in order |
| PipeResults.DrainTells | src/jtag/jtag_client_open.cpp:2009-2026 | the wait for all packets reports success exactly if all succeed, else the first failure, or a fatal one |
| PipeResults.AnsweredTells | src/jtag/jtag_client_open.cpp:1982-2048 | a command that is waited for is told of success exactly if all packets before succeed, all commands noted before it in its own succeed, and so does the reply behind those |
| PipeResults.ReplyTaken | src/jtag/jtag_client_open.cpp:2133-2171 | handler i of a packet is run with reply i, and the wait ends with the reply behind those: each is that of the command before its own if one was left over in front |
| PipeResults.HandledInOrder | src/jtag/jtag_client_open.cpp:2119-2196 | over every run from a lock on: the handlers that ran are the first ones noted, once each, in order, each packet's with the reply to that packet; packets hold their deferred commands, at most one left over in front and at most one waited for behind; no buffer, note or output is beyond its bound; no null pointer is used and no command refused for want of a buffer |
| PipeResults.EveryCommandOnce | src/jtag/jtag_client_open.cpp:2056-2115 | over every run to its end: but for the CONTINUEs, the commands sent and packed are those queued, answered or kept unsent, once each and in order; as many are neither noted nor waited for as were kept; after a flush the handlers run are those of the queued ones |
| PipeResults.OwnRepliesExactlyIf | src/jtag/jtag_client_open.cpp:2119-2175 | after a run to its end no packet holds a command left over, so that all are told of their own replies, if and only if no command was kept unsent |
| PipeResults.EveryCommandEnds | src/jtag/jtag_client_open.h:318-393 | in every state so reached a command is lost, packed but not sent, queued or answered exactly under the stated conditions |
| PipeResults.QueuedExactlyIf | src/jtag/jtag_client_open.h:347-373 | a command is deferred exactly if the style is not to pack never, nor automatic with outputs, it writes less than 1024 bytes and the server cannot refuse it, and its packet has room or can make way |
| PipeResults.NeverPacked | src/jtag/jtag_client_open.h:347-350 | over every run of a caller that asked for no packing nothing is deferred |
| PipeResults.FlushLeaves | src/jtag/jtag_client_open.cpp:1982-2048 | behind a flush the link is up exactly if the packet went out and every reply came and made sense; the lock is then kept exactly if no assumed lock was refused |
| PipeResults.RefusedExactlyIf | src/jtag/jtag_client_open.cpp:285-303 | an assumed lock is refused by its own reply or by the failure of a command before it in the packet |
| PipeResults.NextIsMisled | src/jtag/jtag_client_open.cpp:2009-2026 | behind any command kept unsent, the next that is waited for goes out in one packet with it and is told what the server said to that one |
| PipeResults.MisledReached | src/jtag/jtag_client_open.cpp:2056-2086 | a run that gets there: 253 deferred scans, the first refused; the next is kept unsent, and the one behind it reports success although it was refused |
| Pipeline.OpenJs.OpenLocked | src/jtag/jtag_client_open.cpp:99-130 | all four action buffers are linked on the free list |
| Pipeline.OpenJs.ClientSend | src/jtag/jtag_client_link.cpp:1256-1281 | the transmit buffer goes out and is empty, or the link is lost |
| Pipeline.OpenJs.LinkFill | src/jtag/jtag_client_open.cpp:2103-2112 | the fill buffer joins the end of the pending queue |
| Pipeline.OpenJs.SendCommand | src/jtag/jtag_client_open.cpp:2090-2115 | both together, as the machine has it; if the send fails no buffer moves |
| Pipeline.OpenJs.RunHandlers | src/jtag/jtag_client_open.cpp:2133-2150 | each handler noted runs once, in order, with the error in force; a refused lock is remembered |
| Pipeline.OpenJs.TakeReply | src/jtag/jtag_client_open.cpp:2119-2175 | the reply is taken for that of the oldest packet, a final synchronous one included |
| Pipeline.OpenJs.Recycle | src/jtag/jtag_client_open.cpp:2177-2180 | the answered buffer goes from the head of the queue to the head of the free list |
| Pipeline.OpenJs.ReceiveResponse | src/jtag/jtag_client_open.cpp:2119-2180 | all of it, as the machine has it; without a reply the network is down and nothing moves |
| Pipeline.OpenJs.Acquire | src/jtag/jtag_client_open.h:324-345 | the first half of getting the transmit buffer, as the machine has it |
| Pipeline.OpenJs.AssumeSuccess | src/jtag/jtag_client_open.h:397-407 | one more note in the fill buffer, within its 64 |
| Pipeline.OpenJs.ExpectOutput | src/jtag/jtag_client_open.h:411-415 | one more output expected, within 32 |
| Pipeline.OpenJs.SendContinue | src/jtag/jtag_client_open.cpp:2056-2086 | as the machine has it, a refused lock included |
| Pipeline.OpenJs.GetTxMessage | src/jtag/jtag_client_open.h:318-375 | as the machine has it: the wait, the decision to defer, and the room made for it |
| Pipeline.OpenJs.StartCommand | src/jtag/jtag_client_open.h:381-393 | as the machine has it: a command that does not fit goes into the next packet |
| Pipeline.OpenJs.Drain | src/jtag/jtag_client_open.cpp:2009-2026 | the loop over the pending queue is the machine's wait |
| Pipeline.OpenJs.SendReceive | src/jtag/jtag_client_open.cpp:1982-2048 | as the machine has it, with the end of the connection and of a refused lock |
| Pipeline.OpenJs.Flush | src/jtag/jtag_client_open.cpp:1944-1959 | as the machine has it; nothing is done without a lock |
| Pipeline.OpenJs.Place | src/jtag/jtag_client_open.cpp:1560-1573 | a packed command is noted or waited for, as the machine has it |
| Pipeline.OpenJs.Issue | src/jtag/jtag_client_open.h:381-407 | the branches behind packing, as the machine has them |
| Pipeline.OpenJs.Perform | src/jtag/jtag_client_open.cpp:1548-1578 | one command on the four buffers refines the machine's command |
| Pipeline.OpenJs.Run | src/jtag/jtag_client_open.cpp:1982-2196 | any sequence of commands and flushes on the four buffers refines the machine's run |
| Pipeline.OpenJs.Partition | src/jtag/jtag_client_open.h:318-415 | the four buffers are always partitioned among free list, pending queue and fill slot |
| Tap.GuardIsExact | src/jtag/jtag_client_open.cpp:1450-1493 | outside an IR scan the guard accepts a sequence of any length exactly if no step enters Test-Logic-Reset, every visit to Shift-IR lasts the length of the instruction register, and the end is outside an IR scan |
| Tap.CheckTransitions | src/jtag/jtag_client_open.cpp:1450-1493 | the loop over the bytes of the buffer decides just that, and yields the state of the transition table |
| Tap.UpdateState | src/jtag/jtag_client_open.cpp:1496-1516 | the state after the sequence by the transition table; without a sequence none changes |
| TapLaws.FiveClocksReset | src/jtag/jtag_protocol.cpp:61-81 | five clocks with TMS high reset the controller from every state, and no fewer do |
| TapLaws.ColumnsAlike | src/jtag/jtag_protocol.cpp:61-81 | the instruction column is the data column renamed; the update states and Run-Test/Idle go on alike |
| TapLaws.RestsExactlyIf | src/jtag/jtag_protocol.cpp:61-81 | which states the controller rests in, and with which TMS |
| TapLaws.InsideIrExactly | src/jtag/jtag_client_open.cpp:1450-1493 | the states inside an IR scan are those entered by capture and left by update |
| TapLaws.ResumesExactly | src/jtag/jtag_client_open.cpp:1450-1493 | what the guard refuses as a return to shifting is every entry to a shift state but from capture |
| TapLaws.StableExactly | src/jtag/jtag_client_open.cpp:985-1210 | the states in which scans may start are those from which the head of a scan is reached without one |
| TapLaws.ScanWalks | src/jtag/jtag_client_open.cpp:985-1210 | from each of them the walk of a scan of n bits shifts exactly n bits through its register, none through the other, and ends in its update state |
| Tap.AbsentSequence | src/jtag/jtag_client_open.cpp:1359-1371 | without a sequence the two loops agree only in the five states that stay put under zeros; this says exactly when |
| Tap.NeverLeftInsideIr | src/jtag/jtag_client_open.cpp:1338-1446 | no run of operations leaves the controller inside an IR scan |
| Tap.GuardedRun | src/jtag/jtag_client_open.cpp:1338-1446 | so over any run the guard is exact |
| Tap.VisitIsLeft | src/jtag/jtag_client_open.cpp:1450-1493 | an accepted sequence leaves every Shift-IR it enters |
| Tap.TapOpen.constructor | src/jtag/jtag_client_open.cpp:99-130 | the controller starts in Test-Logic-Reset |
| Tap.TapOpen.LockedOk | src/jtag/jtag_client_open.cpp:268-281 | a lock leaves the controller in Update-IR |
| Tap.TapOpen.Scan | src/jtag/jtag_client_open.cpp:985-1210 | refused exactly in unstable states; ends in the update state of the register, if sent |
| Tap.TapOpen.RunIdle | src/jtag/jtag_client_open.cpp:1520-1578 | refused exactly in unstable states; ends in Run-Test/Idle, if sent |
| Tap.TapOpen.ResetTap | src/jtag/jtag_client_open.cpp:1582-1630 | ends in Test-Logic-Reset, if sent |
| Tap.TapOpen.AnySequence | src/jtag/jtag_client_open.cpp:1338-1446 | refused on an open of its own exactly if the sequence is not legal; the state moves only if it was sent |
| Bits.CeilLog2 | src/jtag/jtag_client_hub.cpp:483-499 | the least number of bits that tell so many states apart |
| HubTree.WrittenInOrder | src/jtag/jtag_client_hub.cpp:342-440 | whatever the slots held, the records are those of the nodes in pre-order with right code, level and own position |
| HubTree.WrittenIsRight | src/jtag/jtag_client_hub.cpp:366-422 | without a hub behind position 0 below the top, the ancestors' positions are right too |
| HubTree.ListingRightIff | src/jtag/jtag_client_hub.cpp:403-422 | and that is exactly when, whatever the slots held: any such hub with nodes behind it may get positions left from before |
| HubTree.ListingRightIffHeld | src/jtag/jtag_client_node.cpp:200-215 | exactly when for a workspace filled with one position, as a zeroed one is: such hubs are right only behind that position alone |
| HubListing.ListingWithinCount | src/jtag/jtag_client_hub.cpp:299-316 | the count is an upper bound of the records, and their number exactly if no hub with nodes lies too deep |
| HubListing.ShallowHasNoError | src/jtag/jtag_client_hub.cpp:342-440 | trees of at most eight levels are listed without an error |
| HubListing.ErrorExactlyIfDeepLast | src/jtag/jtag_client_hub.cpp:422-437 | the listing reports a tree too deep exactly if the way from each hub to the last hub behind it leads too deep |
| HubListing.HiddenExactlyIf | src/jtag/jtag_client_hub.cpp:422-437 | nodes are missing without an error exactly if some hub with nodes lies too deep and that way does not |
| HubListing.ErrorIsForgotten | src/jtag/jtag_client_hub.cpp:426-437 | such a tree |
| HubListing.CopyAncestors | src/jtag/jtag_client_hub.cpp:403-411 | the positions of the levels above, taken over from the first slot |
| HubListing.WriteRecord | src/jtag/jtag_client_hub.cpp:362-390 | the record of one node; no other slot changes |
| HubListing.Prepare | src/jtag/jtag_client_hub.cpp:403-422 | the first slot of a lower hub gets the positions that lead to it, but for position 0 |
| HubListing.GetHierIds | src/jtag/jtag_client_hub.cpp:342-440 | in place and recursive: exactly the records described, exactly the error, no other slot touched but, exactly if the last hub prepared for has no records, the next; the array needs that slot only where it lies behind all that the nodes need |
| HubListing.ListChild | src/jtag/jtag_client_hub.cpp:398-434 | the hub behind a bridge: its first slot prepared, its records from there on, what is touched and how it is marked |
| HubListing.ListNodes | src/jtag/jtag_client_hub.cpp:375-440 | the same for the loop over the nodes of one hub |
| HubListing.ListTree | src/jtag/jtag_client_hub.cpp:320-338 | the whole tree into the caller's array: count, order, codes, levels, positions, error; the slot behind the count is written exactly if the last hub of all is empty and no hub with nodes lies too deep |
| HubResolve.ListingIsComplete | src/jtag/jtag_client_hub.cpp:342-440 | the listing holds exactly the nodes that paths of up to eight positions lead to |
| HubResolve.PathsAreDistinct | src/jtag/jtag_client_hub.cpp:342-440 | distinct records have distinct paths |
| HubResolve.FindNode | src/jtag/jtag_client_node.cpp:323-335 | the first node that answers to the record, or none does |
| HubResolve.FindBridge | src/jtag/jtag_client_node.cpp:337-350 | the node at the position is found, if the hub has one |
| HubResolve.OpenNode | src/jtag/jtag_client_node.cpp:299-357 | the walk down the levels ends where the path leads, with the error of the level where it breaks off |
| HubResolve.ListedIsOpened | src/jtag/jtag_client_node.cpp:313-351 | there and back: the record of any listed node leads to the very hub and position it came from |
| HubScan.ReadHub | src/jtag/jtag_client_hub.cpp:156-295 | for any hardware the discovery ends, and the tree it yields is what the hardware answers under the select words of its paths |
| HubScan.CodeFields | src/jtag/jtag_client_hub.h:100-118 | the fields read off a code are those it is put together from, and what counts as a bridge and as a hub to work with |
| HubScan.ScanChildren | src/jtag/jtag_client_hub.cpp:231-277 | the hubs behind each bridge, addressed below their parent; the last error comes back |
| HubScan.ErrorExactlyIfLast | src/jtag/jtag_client_hub.cpp:251-272 | a discovery reports an error exactly if there is one on the way from each hub to what is behind its last bridge |
| HubScan.AllReadIsLastRead | src/jtag/jtag_client_hub.cpp:251-272 | none is reported if no hub gave one |
| HubScan.ScanErrorIsForgotten | src/jtag/jtag_client_hub.cpp:251-272 | hardware whose first bridge fails and whose discovery reports no error |
| HubScan.ScannedWellFormed | src/jtag/jtag_client_hub.cpp:231-277 | hubs hang only behind bridges |
| HubScan.BelowAddress | src/jtag/jtag_client_hub.cpp:264-272 | the word for a lower hub has its field right below those of its ancestors, none of which changes |
| HubSelect.ScannedAtPath | src/jtag/jtag_client_hub.cpp:231-277 | the widths on every path stay below 64, and each hub is what was read under the word of its path |
| HubSelect.FirstField | src/jtag/jtag_client_hub.cpp:264-272 | the field of a level can be read off the word |
| HubSelect.AddressesDiffer | src/jtag/jtag_client_hub.cpp:231-277 | no two hubs of a tree share a select word |
| HubSelect.PackLevels | src/jtag/jtag_client_hub.cpp:566-575 | the upward packer builds the fields of all levels above in order; it fails exactly if a 32-bit shift overflows |
| HubSelect.PackSelect | src/jtag/jtag_client_hub.cpp:551-580 | the whole open word, or no word to rely on, exactly if such a shift overflows |
| HubSelect.SelectWordsAgree | src/jtag/jtag_client_hub.cpp:551-580 | left-aligned, the word of the upward packer is the word of the discovery with the own field of the node below it |
| HubSelect.BitsFit | src/jtag/jtag_client_hub.cpp:232-240 | all fields of a discovered node fit 64 bits together, each within its own |
| HubSelect.ShiftCanOverflow | src/jtag/jtag_client_hub.cpp:572 | hardware whose discovery yields a tree of two hubs with a node that is listed and whose shift overflows |
| Overlay.ClaimedClass | src/jtag/jtag_client_open.cpp:1266-1335 | a value is safe, conditional or not claimed as the claims of the device say |
| Overlay.CheckSelect | src/jtag/jtag_client_open.cpp:1688-1697 | exactly the select words within the whole length and above the node's own bits pass |
| Overlay.Modify | src/jtag/jtag_client_open.cpp:1730-1770 | what becomes of one claim, and exactly when it is allowed |
| Overlay.ModifyAll | src/jtag/jtag_client_open.cpp:1730-1782 | all claims, in order; refused exactly if one is not allowed or none is for an overlay |
| Overlay.OpenNode | src/jtag/jtag_client_open.cpp:1667-1806 | accepted exactly if word and claims are; then the device has exactly these claims |
| Overlay.IndexSelectInRange | src/jtag/jtag_client_hub.cpp:516-547 | the packer by index makes only words that the checks accept |
| Overlay.SpelledSerial | src/jtag/jtag_client_open.cpp:1014-1043 | a number read back from its bytes is the number |
| Overlay.Serialise | src/jtag/jtag_client_open.cpp:1902-1916 | the byte loop spells the number, low byte first |
| Overlay.Rebuild | src/jtag/jtag_client_open.cpp:1014-1043 | the word the scan checks is the number its bytes spell |
| Overlay.AccessOverlay | src/jtag/jtag_client_open.cpp:1836-1940 | the bytes written spell value and select word together; refused, safe or unclaimed exactly as the claims of the device say |
| Overlay.ClaimedIsSafe | src/jtag/jtag_client_open.cpp:1266-1335 | an overlay value claimed at the open is safe when written |
| Overlay.SafeExactlyIfGranted | src/jtag/jtag_client_open.cpp:1266-1335 | exactly which values are safe; more than the node claimed, as types are not compared |
| Overlay.CodesTell | src/jtag/jtag_client_open.cpp:1266-1335 | what is asked of claim types is asked of the bits of their numbers |
| Overlay.AllBitsSet | src/jtag/jtag_client_open.cpp:1266-1335 | the value that claims all has every bit of its 64 set |
| Overlay.KindsKept | src/jtag/jtag_client_open.cpp:1695-1770 | every claim of the device is under the kind it was asked for: the overlay instruction, the overlaid one, what keeps others off, and the claims of the node |
| Overlay.AllClaimed | src/jtag/jtag_client_open.cpp:1695-1770 | and all of those are claimed |
| ConfigMap.LessOrder | src/jtag/jtag_configuration.cpp:238-260 | the key order is a strict total order |
| ConfigMap.LexByFirstDifference | src/jtag/jtag_configuration.cpp:238-260 | strings are ordered by their first difference |
| ConfigMap.PutHolds | src/jtag/jtag_configuration_memory.cpp:84-110 | an assignment changes one entry and keeps the order |
| ConfigMap.SectionsContiguous | src/jtag/jtag_configuration.cpp:238-260 | between two keys of a section there are only keys of that section, and no plain key |
| ConfigText.LoadedFits | src/jtag/jtag_configuration_file.cpp:209-253 | any text at all loads as a sorted map that a file can hold |
| ConfigText.PrintLoads | src/jtag/jtag_configuration_file.cpp:406-450 | the printed tail of a map loads behind its head to the whole, inside a section or not |
| ConfigText.RoundTripExactlyIfFits | src/jtag/jtag_configuration_file.cpp:406-477 | a stored map loads as itself exactly if keys and sections are words within the limits and values have no quote, newline or NUL |
| ConfigText.UnquotedLoads | src/jtag/jtag_configuration_file.cpp:225-262 | a value that is a word reads the same without quotes |
| ConfigText.CharactersAre | src/jtag/jtag_configuration_file.cpp:274-330 | which characters words and blanks are made of |
| ConfigText.PrintedText | src/jtag/jtag_configuration_file.cpp:406-452 | what the file of a plain key and a section looks like |
| ConfigText.StoredAgain | src/jtag/jtag_configuration_file.cpp:170-268 | what was loaded from any text survives being stored and loaded |
| ConfigStore.Reader.ReadChar | src/jtag/jtag_configuration_file.cpp:323-335 | the next character that is not in a comment |
| ConfigStore.Reader.ReadWord | src/jtag/jtag_configuration_file.cpp:284-299 | a word is the longest run of its characters, bad if it does not fit |
| ConfigStore.Reader.ReadString | src/jtag/jtag_configuration_file.cpp:300-314 | a string runs to its quote, bad at a newline or if it does not fit |
| ConfigStore.Reader.ReadToken | src/jtag/jtag_configuration_file.cpp:272-319 | the token the grammar names, and what is left behind it |
| ConfigStore.WithoutUnderHolds | src/jtag/jtag_configuration_memory.cpp:179-198 | a deletion removes exactly the key and the keys below it |
| ConfigStore.FindValue | src/jtag/jtag_configuration_memory.cpp:71-80 | the value of the key, if it has one |
| ConfigStore.EraseUnder | src/jtag/jtag_configuration_memory.cpp:179-198 | the restarting loop ends, with exactly that removed |
| ConfigStore.Memory.GetValue | src/jtag/jtag_configuration_memory.cpp:71-80 | the value of the key |
| ConfigStore.Memory.SetValue | src/jtag/jtag_configuration_memory.cpp:84-110 | refused exactly if the key exists and was to be created; otherwise set or removed, all else kept |
| ConfigStore.Memory.DeleteKey | src/jtag/jtag_configuration_memory.cpp:179-198 | key and keys below it removed |
| ConfigStore.Memory.Enumerate | src/jtag/jtag_configuration_memory.cpp:114-175 | the next section after an entry, or 0; fails for one too long for the buffer but moves on |
| ConfigStore.ListSections | src/jtag/jtag_configuration_memory.cpp:114-175 | calls from instance 0 until failure |
| ConfigSections.ListedFrom | src/jtag/jtag_configuration_file.cpp:540-604 | going from an entry of a contiguous group lists exactly the groups that follow |
| ConfigSections.ListedInOrder | src/jtag/jtag_configuration_file.cpp:540-604 | groups are listed in the order of their entries |
| ConfigSections.ListedOnce | src/jtag/jtag_configuration_file.cpp:540-604 | contiguous groups are listed once each, in order; the one that stands for none exactly if an entry of another group comes before it |
| ConfigStore.SectionsListedOnce | src/jtag/jtag_configuration_memory.cpp:114-175 | every section up to 64 characters is listed once, in map order, and nothing else is; one without a name exactly if a named one comes before it |
| ConfigStore.NamelessIsMissed | src/jtag/jtag_configuration_memory.cpp:114-175 | a map whose one section has no name, and an empty listing |
| ConfigStore.File.LoadText | src/jtag/jtag_configuration_file.cpp:170-268 | the parser loop loads what the grammar says, up to the first thing that is no entry |
| ConfigStore.File.StoreText | src/jtag/jtag_configuration_file.cpp:406-477 | the printer loop stores what the grammar says, comments first |
| ConfigStore.File.GetValue | src/jtag/jtag_configuration_file.cpp:481-493 | what the file says now |
| ConfigStore.File.SetValue | src/jtag/jtag_configuration_file.cpp:497-536 | the file is read, changed and written; untouched if refused |
| ConfigStore.File.DeleteKey | src/jtag/jtag_configuration_file.cpp:608-635 | the file without the key and the keys below it |
| ConfigStore.SetSurvivesExactlyIfFits | src/jtag/jtag_configuration_file.cpp:497-536 | the next program reads what was set, all else unchanged, exactly if the file can hold key and value |
| ConfigStore.DeletionSurvives | src/jtag/jtag_configuration_file.cpp:608-635 | what a deletion leaves is always read back |
| Md5Standard.FIsStandard | src/jtag/jtag_md5_pd.cpp:194-198 | the shortened form selects by the bits of x, as section 3.4 of RFC 1321 has it |
| Md5Standard.GIsStandard | src/jtag/jtag_md5_pd.cpp:194-198 | the form written through the first selects by the bits of z |
| Md5Standard.HIsStandard | src/jtag/jtag_md5_pd.cpp:194-198 | the parity of the bits |
| Md5Standard.IIsStandard | src/jtag/jtag_md5_pd.cpp:194-198 | y exclusive-or (x or not z), bit by bit |
| Md5Standard.RotatedBit | src/jtag/jtag_md5_pd.cpp:200-202 | bit j of a word is bit (j + s) mod 32 of the word rotated by s |
| Md5Standard.BlockIsItsWords | src/jtag/jtag_md5_pd.cpp:214-225 | the words of a block hold its bytes in order, the low byte first |
| Md5Standard.InitialBytes | src/jtag/jtag_md5_pd.cpp:104-112 | the initial state is the bytes 01 23 45 67 and so on of section 3.3 |
| Md5Standard.LittleByte | src/jtag/jtag_md5_pd.cpp:157-173 | the bit count behind the padding stands low byte first |
| Md5Sine.ConstantsAreSines | src/jtag/jtag_md5_pd.cpp:226-300 | each of the 64 constants is the integer part of 4294967296 times the sine of its number, computed from the series and the addition theorems |
| Md5Block.RunSplit | src/jtag/jtag_md5_pd.cpp:209-303 | steps one after another are the run of them all |
| Md5Block.AllSteps | src/jtag/jtag_md5_pd.cpp:230-297 | the 64 steps written out one by one, with their constants, shifts and turns of the registers, are the 64 steps of section 3.4, whose words and rotations are given by rule |
| Md5Block.Transform | src/jtag/jtag_md5_pd.cpp:209-303 | one block worked into the state as section 3.4 says |
| Md5.AbsorbBlocks | src/jtag/jtag_md5_pd.cpp:118-151 | full blocks may be absorbed apart from what follows |
| Md5.AbsorbMore | src/jtag/jtag_md5_pd.cpp:118-151 | the state and the tail are all that has to be kept between updates |
| Md5.CountTells | src/jtag/jtag_md5_pd.cpp:118-151 | the bit count, wrapping at 64 bits, still tells how full the buffer is |
| Md5.Context.constructor | src/jtag/jtag_md5_pd.cpp:104-112 | the state of section 3.3 and nothing absorbed |
| Md5.Context.Update | src/jtag/jtag_md5_pd.cpp:118-151 | after any update the context is the fold over the full blocks of all input so far and its tail |
| Md5.Context.Pad | src/jtag/jtag_md5_pd.cpp:157-173 | the message has been padded as in sections 3.1 and 3.2 |
| Md5.Context.Final | src/jtag/jtag_md5_pd.cpp:178-189 | the digest of the message as defined on the whole of it |
| Md5.DigestOf | src/jtag/jtag_md5_pd.cpp:104-189 | independent of how the message is cut up |
| Md5Standard.DigestIsStandard | src/jtag/jtag_md5_pd.cpp:194-202 | the digest on the program's words is that on words with every function given independently: the auxiliary functions and the rotation bit by bit, addition and bytes as numbers |
| Md5Standard.StandardDigest | src/jtag/jtag_md5_pd.cpp:104-303 | on 32-bit words, the digest of the standard, however the message is cut up |
| Message.SpelledBig | src/jtag/jtag_message.h:506-538 | reading the bytes of a number, highest first, gives the number |
| Message.TxMessage.constructor | src/jtag/jtag_message.h:192-199 | an empty message |
| Message.TxMessage.EndBlock | src/jtag/jtag_message.h:303-322 | a length left 0 is filled in, one that was given stays |
| Message.TxMessage.AddCommand | src/jtag/jtag_message.h:326-347 | refused exactly if the announced length does not fit; otherwise the block before ends and this one starts |
| Message.TxMessage.AddInt | src/jtag/jtag_message.h:377-383 | the open block grows by the field; nothing written before changes |
| Message.TxMessage.AddLong | src/jtag/jtag_message.h:387-393 | the same for eight bytes |
| Message.TxMessage.AddString | src/jtag/jtag_message.h:397-407 | the same for a string, whose length goes into one byte |
| Message.TxMessage.AddRaw | src/jtag/jtag_message.h:411-417 | the same for raw bytes |
| Message.TxMessage.GetLength | src/jtag/jtag_message.h:202-206 | the bytes of the buffer are the encoding of all blocks |
| Message.RxMessage.RemoveCommand | src/jtag/jtag_message.h:466-482 | goes to the next block, wherever the reader stands in this one; fails exactly if the length in its header is below 4 or reaches past the end |
| Message.RxMessage.RemoveResponse | src/jtag/jtag_message.h:486-502 | goes to the next response; fails exactly if its length reaches past the end |
| Message.ResponseIsCommandIff | src/jtag/jtag_message.h:466-502 | a response is read as a command is exactly if it is as long as its header, or reaches past the end |
| Message.RxMessage.RemoveInt | src/jtag/jtag_message.h:506-520 | reads a field within its block, or moves nothing |
| Message.RxMessage.RemoveLong | src/jtag/jtag_message.h:524-538 | the same for eight bytes |
| Message.RxMessage.RemoveRaw | src/jtag/jtag_message.h:570-585 | the same for raw bytes |
| Message.RxMessage.RemoveString | src/jtag/jtag_message.h:542-566 | copies the string behind the others with a NUL if it fits, and counts its space either way |
| Message.FieldRoundTrip | src/jtag/jtag_message.h:377-417 | a field that was written is read, wherever it stands |
| Message.StringRoundTripIff | src/jtag/jtag_message.h:397-407 | a string comes back exactly if it has at most 255 bytes |
| Message.EndedRightIff | src/jtag/jtag_message.h:303-322 | the header length is right exactly if it was given right, or left 0 for a block below 65536 bytes |
| Message.MessageRoundTrip | src/jtag/jtag_message.h:303-585 | all blocks come back with as many of their fields as are asked for, in order; unread fields do not matter |
| Message.ParseDevice | src/jtag/jtag_client_link.cpp:1803-1821 | one device: its numbers, the instruction length cut to a byte, and its name behind the names before |
| Message.ParseAll | src/jtag/jtag_client_link.cpp:1797-1831 | one pass: the space all names need is known behind it, whether there was room or not |
| Message.ParseDevices | src/jtag/jtag_client_link.cpp:1795-1831 | two passes: the second has just the space needed, and every name is in its place |
| Message.DevicesRoundTrip | src/jtag/jtag_client_link.cpp:1797-1831 | the list of devices read is the list the server wrote, number by number, names included |
| Locks.Client.constructor | src/jtag/jtag_client_link.cpp:607-640 | no claim, no holder |
| Locks.Client.TryClaim | src/jtag/jtag_client_link.h:289-297 | claimed exactly if the link was free |
| Locks.Client.OneHolder | src/jtag/jtag_client_chain.cpp:824-887 | at most one chain or open has the lock, and the link is claimed exactly when one has |
| Locks.Chain.Lock | src/jtag/jtag_client_chain.cpp:824-861 | the claim is taken exactly if the lock is given, and kept with it; the refusal of an invalid, locked or busy chain is told apart |
| Locks.Chain.Unlock | src/jtag/jtag_client_chain.cpp:865-887 | the lock and its claim go whatever the server says |
| Locks.Open.SendReceive | src/jtag/jtag_client_open.cpp:1982-2048 | a lock found refused goes, and its claim once |
| Locks.Open.Lock | src/jtag/jtag_client_open.cpp:307-374 | locked exactly if OK, deferred or not, and the claim goes with it; an error kept back comes first, and once |
| Locks.Open.Unlock | src/jtag/jtag_client_open.cpp:378-416 | the lock and its claim go, once, whatever is answered, even if the lock turns out to have been refused; an error kept back is given out instead of asking |
| Locks.Open.UnlockLock | src/jtag/jtag_client_open.cpp:438-490 | from the moment it is asked the lock and its claim pass to the other open exactly if OK, and are gone otherwise; a refusal before that changes neither |
| Locks.Open.UnlockChainLock | src/jtag/jtag_client_open.cpp:494-552 | lock and claim pass from the chain exactly if OK, in one step or, with an old server, in two |
| Locks.Open.UnlockLockChain | src/jtag/jtag_client_open.cpp:556-614 | lock and claim pass to the chain exactly if OK, in one step or two; with a new server the claim is conserved exactly unless an assumed lock was refused, which leaves -1 claims |
| Locks.Perform | src/jtag/jtag_client_open.cpp:307-614 | each operation conserves the claim, exactly unless it is that case |
| Locks.Run | src/jtag/jtag_client_open.cpp:307-614 | any sequence conserves it, up to the first such case; without refusals there is none |

## Left out

- Sockets, poll, connect, DNS, threads, timeouts and the mutex: the list of answers and the flags above stand for them; every wait is one without a time limit.
- Disconnecting, allocation failure, closing a locked device.
- Pipeline.OpenJs.ReceiveResponse: does not model the message that brings client and server back in step after an error without a lock, nor a time limit.
- Pipeline.OpenJs.Perform: commands whose data is streamed, which start the next packet at once after they were deferred.
- Pipeline.OpenJs.Flush: does not model the checkpoints that the caller reads.
- The links of the FIFO lists, which are sequences here: the order and the membership are modelled, the pointers are not.
- The single-FIFO entry points of the link (`send_fifo`, `push_data`, `receive_cmnd`, `poll_fifo`, `release_rxmux`) and the debug log.
- RxLink.RxRawFifo.constructor: for buffers of a known length; one of unknown length, which grows as packets come, is not modelled.
- Partial messages carried from one open of a client to another, and packets sent before they are complete under a time limit.
- The output FIFOs of a packet are counted, not linked to the receive buffers of the link; the wait for the last one always ends.
- Dummy bits (the calculation is disabled in the source), batched scans, and the register traffic inside one scan: a scan is one command.
- The bridge and hub codes that are listed beside the records (`hub_infos`), and the record with position 0xFF below the top.
- HubListing.GetHierIds: asks for one more slot than the caller is told to have exactly where the source writes it, which it marks.
- HubListing.ListTree: likewise.
- HubListing.ListNodes: likewise.
- HubListing.ListChild: likewise.
- HubResolve.FindNode: a hub whose nodes were not read has none here; the source goes by the node count of the hub's own code, with no node codes to compare.
- HubScan.ReadHub: the answer of the hardware is a function of the select word alone, which is enough because no two hubs of a tree share one (HubSelect.AddressesDiffer).
- Overlay.AccessOverlay: for whole lengths up to 32 bits and nodes below 32, because the source has a buffer of four bytes and a 32-bit shift; the forced capture before it is one more scan.
- Overlay.OpenNode: does not model the check for hierarchical hub support by the server's version, nor null pointers.
- RxLink.RxLink.ReceiveCmnd: the time limit of a wait; it goes on as long as the socket has an answer to give.
- RxLink.RxLink.Recv: an orderly end of the connection is the answer Broken; one of no bytes stands for a socket without data.
- RxLink.RxLink.Receive: a packet too large for the buffer at the head of its channel stops the source with an assertion, and is the result NOBUFFER here.
- RxLink.RxLink.AddRxmux: does not model a buffer that is activated after the receiver has begun to store its packet elsewhere, because the source then counts bytes the buffer never got.
- TxQueue.ChannelOrder: for FIFOs queued as the condition of TxQueue.TurnsKeptExactlyIf demands, because other pairs are overtaken.
- RxDemux.ChannelConserved: for histories in which no payload finds its channel without a buffer, because the source drops such payloads.
- Configuration: file locking, modification times and truncation; the map is a sorted sequence and a file a sequence of characters, of which a key holds no NUL.
- ConfigStore.SectionsListedOnce: for sections of up to 64 characters, because the source compares only as many.
- ConfigStore.File.StoreText: the source copies a section into 64 bytes whatever its length; here it is copied whole.
- Tap.AbsentSequence: no caller in this repository leaves the TMS bits out; a program that uses the library may.
- Message: integers to be filled in later, saved states, and what is read behind a response shorter than its own header (Message.EmptyResponseStays has the one of length 0).
- Message.RxMessage.RemoveCommand: needs the four bytes of a header behind the last block, because the source reads them without looking for the end.
- Md5: big-endian machines, wiping the context, and a missing digest; Md5Words has the 32-bit words, Md5Block and Md5 are proved for any words.
- Locks.Open.GetTxMessage: always has a buffer, so that the returns for want of one are left out; between operations with the link up there is one (PipeRuns.BufferFound), and a link that is lost is not part of Locks.
- Locks: closing opens and chains, and locks that other programs hold, which are the flag.
- Hardware names, sorting devices, the command-line tool, Windows and the platform library: no further properties of interest, and jtag_platform.h is not part of this model.
