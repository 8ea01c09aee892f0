# IServerd, modelled and proved

IServerd is an ICQ server of several cooperating processes. This project models the parts of it
that keep state or compute: the retransmission lists, the streaming digest, the time-zone cache, the
inter-process pipes and their codecs, the connection tables that are changed while they are scanned,
the table of online users, fragment reassembly, presence notices, and the text and memory helpers.

Each area has functions on values that say what the code computes, classes and methods with the
loops and in-place updates of the code, proved against those functions, and lemmas about the
functions: what every run keeps, what comes back after a round trip, and - where the code does not
meet what it is for - the exact condition under which it does.

`dafny verify dfyconfig.toml` checks everything.

## Files

| file | about |
|---|---|
| RetryQueue, RetryRuns, RetryTiming, RetryLedger, EPacket | the lists of unacknowledged packets: values, runs, the clock and the destinations, conservation, and the doubly linked lists in the heap |
| Md5Spec, Md5, Md5Vector | RFC 1321, the streaming implementation, and one of the answers the RFC gives |
| TimeZones, TmDiff | the cache of zone offsets with its bisections; calendar distance |
| PipeQueue | concurrent senders and receivers on the incoming pipe, statement by statement |
| PacketCodec, PipeCodec | typed values in a packet buffer; the datagrams of the pipes |
| SocketTable, TableCounts, PollScan, PollRound, PollServer, Timeouts | the dense connection table, one poll round over it and what it makes of the table, the timeout pass |
| EpollBatch, EpollTable, EpollServer | the same table with the pending events of an epoll batch |
| UserShm, UserSweep | the table of online users with its holes; the time-to-live sweep |
| Presence | who is told that a user is there, against who may know |
| Defrag | packets that arrive in parts |
| ConfigSpec, ConfigParse, ConfigText, ConfigValue, ConfigRoundTrip | the configuration parser, and files printed for it |
| StringSub, FnMatch, HexCodec, Talloc | substitution in a buffer, wildcards, hexadecimal, the chunked allocator |

## Conventions

- A `long` has four bytes, as the fixed header lengths of the pipes assume (system/util_pipe.cpp:174,
  205); include/config.h:332 says eight. PacketCodec and PipeCodec take the size as a parameter and
  prove what each choice gives.
- A `time_t` has eight bytes, with the bounds system/time.cpp:39-45 takes from its size.
- Allocation may fail wherever the code asks for memory; what the platform, the network and the
  database answer are parameters.
- The code is kept as it is. Where it and its comments disagree the code counts.

## What the proofs found

- `Realloc` (system/util.cpp:608-624) gives out no pointer, so the time-zone cache never fills and
  the line buffer of the configuration parser never grows: `TimeZones.FasterAgreesAsBuilt`,
  `ConfigRoundTrip.RoundTripAsBuilt`. With an allocator that works the cache skips over a stretch of
  less than seven days that the zone returns from; where every such short stretch has seven days of
  one zone on either side, all answers are right exactly when the zone returns from none of them
  (`TimeZones.AgreesExactlyWhen`).
- `pipe_receive_packet` subtracts the received size, not the sent one: a datagram beyond
  MAX_PACKET_SIZE leaves byte_in_queue too high for good (`PipeQueue.CountersAreExact`).
- An acknowledgement carries sixteen bits of the sequence number and names its packet only for the
  first 65536 of a session (`RetryRuns.AckNamesItsPacket`); later it removes whichever queued packet
  has the number modulo 65536 (`RetryRuns.WhatTheWireAcknowledges`).
- `db_defrag_delete(uin, seq)` deletes all fragments of the user (`Defrag.DeleteSparesExactlyWhen`), so
  a check that finds or drops one packet takes the parts of the others with it
  (`Defrag.PacketIsTakenOnce`); of a packet with a multiple of 65536 parts it deletes nothing.
- On an error of one of the server's own sockets the epoll loop closes the descriptor in the slot
  numbered like the event (isdcore/sockets-ep.cpp:92). No connection loses its descriptor exactly when
  every such event comes at a position below slot 11 or past the last connection there is by then
  (`EpollBatch.OwnErrorsSpareConnections`, and an input in `EpollBatch.OwnErrorCanHitConnection`); the
  failing sockets are the ones closed exactly when each event's position is its slot
  (`EpollBatch.FailingAreClosed`).
- Close requests served between epoll_wait and the batch leave stale events behind: the batch handles
  exactly the connections that were reported when none of them was closed there, and not otherwise
  (`EpollBatch.TermsBeforeBatch`).
- One pass of check_sockets_timeout may leave half of the expired connections
  (`Timeouts.HalfIsTight`); it leaves none exactly when the last expired slot plus the expired ones
  before it stay below the number of connections (`Timeouts.PassLeavesNone`).
- A sweep of the user table visits every user exactly when none with another behind him expires
  (`UserSweep.SweepVisitsAll`); it misses as many as it expires, or one fewer, and which of the two
  can be told from the table (`UserSweep.SweepMisses`). A user whose time runs out in the second of
  the login is kept until the counter has wrapped (`UserSweep.ExpiresAtVisit`).
- A watcher on both the visible and the invisible list, or a LIMIT below the number of holders, makes
  presence notices wrong (`Presence.ExactlyWhen`).
- `hexdecode` stores one byte more than its limit says, exactly for texts longer than twice the limit
  (`HexCodec.LimitIsKept`); the loop of `Parameter`
  that is to drop blanks before a continuation drops none (`ConfigParse.Parser.JoinValue`); `tm_diff`
  is off by a day between some negative years (`TmDiff.DiffIsDistance`).

## Model

| member | source | states |
|---|---|---|
| RetryQueue.Find | event/epacket.cpp:191-196 | the search from uqueue_root finds the first user with the uin, or none |
| EPacket.UserNode.AddPacket | event/epacket.cpp:360-388 | a packet goes to the head of the doubly linked list, nothing else moves, and a failed allocation changes nothing |
| EPacket.UserNode.DelPacket | event/epacket.cpp:394-422 | the list keeps, in order and linked both ways, exactly the packets without the stamp |
| EPacket.UserNode.Check | event/epacket.cpp:428-480 | one second for one user: who is resent, who is dropped, what the others' counters are |
| EPacket.UserNode.Renew | event/epacket.cpp:224-238 | a packet of another session empties the queue and takes over its record |
| EPacket.UserNode.Clear | event/epacket.cpp:339-354 | the whole packet list goes |
| EPacket.Processor.constructor | event/epacket.cpp:172-176 | the list starts empty |
| EPacket.Processor.FindQueue | event/epacket.cpp:191-196 | walking the next pointers finds the node that holds the first row of the uin |
| EPacket.Processor.DeleteQueue | event/epacket.cpp:317-333 | one user's node leaves the list, both ends and all links stay right, the other rows stay |
| EPacket.Processor.AddPacket | event/epacket.cpp:182-244 | the heap lists refine the table operation in every branch: new user, known session, other session, failed allocations |
| EPacket.Processor.RemovePacket | event/epacket.cpp:250-268 | an acknowledgement drops the stamp from its user's queue and the user when nothing is left |
| EPacket.Processor.CheckAll | event/epacket.cpp:274-287 | a tick reaches every user once although users are deleted on the way; the resends come in list order |
| EPacket.Processor.ProcessPacket | event/epacket.cpp:99-138 | sending refines the step of the run model: sequence number, stamp, protocols that are not kept |
| EPacket.Processor.ProcessEvent | event/epacket.cpp:146-165 | acknowledgements and heartbeats refine the step of the run model |
| RetryRuns.QueuesEvolveAlone | event/epacket.cpp:182-287 | the list is a map from uin to queue: each event acts on a user's queue by itself, and no event but a tick touches another user's |
| RetryRuns.UniqueUinsKept | event/epacket.cpp:182-287 | no event puts a uin into the list twice |
| RetryRuns.WhenQueuesAreEmpty | event/epacket.cpp:182-287 | with no empty queue before, there is one after an event exactly when a send found no memory for its packet; a tick clears them |
| RetryRuns.StampedKept | event/epacket.cpp:99-138 | stamps within a queue stay distinct and older than the session's next one |
| RetryRuns.RunStaysStamped | event/epacket.cpp:99-138 | the same over every run |
| RetryRuns.AfterAnyRun | event/epacket.cpp:99-287 | from the empty list, after any run, an acknowledgement takes at most one packet, and no other user's queue is touched |
| RetryRuns.AckRemovesOne | event/epacket.cpp:394-422 | an acknowledgement of a queued packet removes it and leaves the others in order |
| RetryRuns.AckMisses | event/epacket.cpp:394-422 | an acknowledgement of no queued packet changes nothing |
| RetryRuns.AckNamesItsPacket | event/epacket.cpp:500-508 | the stamp rebuilt from sixteen bits of the sequence number is the packet's stamp exactly below 65536 |
| RetryRuns.SeqOfStamp | event/epacket.cpp:500-508 | the stamp gives back the sum of the packet's two sequence numbers |
| RetryRuns.WhatTheWireAcknowledges | event/epacket.cpp:394-508 | after any run the sixteen-bit acknowledgement removes exactly the queued packet whose number it is modulo 65536, or nothing; the packet meant stays exactly from number 65536 on |
| RetryTiming.CountdownDrops | event/epacket.cpp:428-480 | retries left times timeout plus the counter drops by one every tick until the packet goes |
| RetryTiming.GoneAfterLastTick | event/epacket.cpp:428-480 | the packet is gone exactly after more than (R+1)T ticks |
| RetryTiming.RetrySchedule | event/epacket.cpp:428-480 | resent exactly at ticks kT+1 for k = 1..R, given up exactly at tick (R+1)T+1 |
| RetryTiming.ZeroTimeoutSchedule | event/epacket.cpp:428-480 | with timeout 0 one retry goes every tick |
| RetryTiming.StepFollowsClock | event/epacket.cpp:99-287 | inside the lists, no event but a tick, its own acknowledgement or a new session changes a packet |
| RetryTiming.RunFollowsClock | event/epacket.cpp:99-287 | over every run without its acknowledgement or a new session a packet's state is the clock's verdict on it |
| RetryTiming.CountInTable | event/epacket.cpp:274-287 | one tick resends a packet at most once, and exactly when it is due |
| RetryTiming.RetransmissionTimes | event/epacket.cpp:99-287 | a packet accepted in any state is resent, over any run that leaves it alone, exactly at the scheduled ticks, once each; what is sent is its buffer, to the address of the queue its session had, or else of the user's record |
| RetryTiming.OthersAreNotKept | event/epacket.cpp:99-138 | a packet to an unknown user, or of a protocol other than 3 and 5, changes nothing |
| RetryTiming.SessionLine | event/epacket.cpp:182-244 | after an accepted packet the queue has the session of the user's record, and its address and timeout unless a queue of this session was there |
| RetryTiming.ResendGoesHome | event/epacket.cpp:428-480 | what a tick sends for a queued packet is its buffer, to its queue's address |
| RetryTiming.QueueWasOpened | event/epacket.cpp:99-287 | session and address of a queue, after any run, are those the user's record had when an earlier packet of his was accepted |
| RetryTiming.ResendsGoToTheirUser | event/epacket.cpp:440-455 | every retransmission of every run goes to the address a record of its user had when a packet of his was accepted |
| RetryLedger.StepBalances | event/epacket.cpp:99-422 | no event loses or invents a packet: present + acked + expired + superseded = present before + queued |
| RetryLedger.RunBalances | event/epacket.cpp:99-422 | the same ledger over every run |
| Md5Spec.PaddingIsLeast | system/md5.cpp:308-328 | the padded length is the least multiple of 64 with room for the length, and the message is kept |
| Md5Spec.StepsCompose | system/md5.cpp:99-257 | running steps i..j and then j..k is running i..k |
| Md5Spec.AbsorbConcat | system/md5.cpp:270-305 | absorbing two pieces of whole blocks is absorbing them one after the other |
| Md5Spec.OutputReadsBack | system/md5.cpp:330-331 | the digest bytes are the registers, low byte first |
| Md5Spec.LengthDigits | system/md5.cpp:321-323 | the eight length bytes are the digits of the length to the base 256, the low one first |
| Md5.LoadWords | system/md5.cpp:115-142 | both ways of loading a block give the sixteen little-endian words |
| Md5.Process | system/md5.cpp:99-257 | the 64 unrolled operations and four additions are the compression of section 3.4 of RFC 1321 |
| Md5.CountAdds | system/md5.cpp:275-284 | the two-word counter with its carry test holds 8 times the bytes modulo 2^64 |
| Md5.CountGivesOffset | system/md5.cpp:274 | the low word alone gives the position in the block |
| Md5.LengthBytesAgree | system/md5.cpp:321-323 | the bytes saved from the two words are the 64-bit length of section 3.2 of RFC 1321 |
| Md5.State.constructor | system/md5.cpp:260-267 | a fresh state stands for the empty message |
| Md5.State.Append | system/md5.cpp:270-305 | the state stands for the old message and the new bytes: blocks absorbed, the tail in buf, the count right; a count that is not positive adds nothing |
| Md5.State.Finish | system/md5.cpp:308-332 | the digest is that of the whole message |
| Md5.DigestPieces | system/md5.cpp:260-332 | however the message is cut, empty pieces included, and on either byte order, the digest is that of sections 3.1 to 3.5 of RFC 1321 |
| Md5Vector.DigestOfAlphabet | system/md5.cpp:99-332 | the definitions give the digest of the letters a to z that section A.5 of RFC 1321 prints, so constants, rotations and word order are those of the standard |
| TimeZones.LowBound | system/time.cpp:150-152 | the lower bound lies within half of MAX_DST_WIDTH below the seed, overflow included |
| TimeZones.HighBound | system/time.cpp:154-155 | the same above the seed |
| TimeZones.LongRunsNoExcursion | system/time.cpp:121-123 | if every maximal stretch of constant zone lasts seven days, no zone comes back within seven days of a change |
| TimeZones.EntryReach | system/time.cpp:147-182 | an entry covers its seed and reaches at most half of MAX_DST_WIDTH to either side |
| TimeZones.EntryIsTrue | system/time.cpp:147-182 | both bisections add only times of the seed's zone |
| TimeZones.EntryIsWidest | system/time.cpp:147-182 | a new entry reaches as far as its bounds and the zone allow, to within an hour: where it stops short there is a time of another zone within an hour beyond |
| TimeZones.ProbesAreNearest | system/time.cpp:157-182 | the time probed next is a week away, or halfway to the bound when that is nearer |
| TimeZones.MovesExactlyWhen | system/time.cpp:157-182 | where the zone does not change an entry moves exactly towards a bound more than an hour away |
| TimeZones.CachedIsAnswered | system/time.cpp:125-131 | a time inside an entry, its ends included, is answered from the table, which stays as it is |
| TimeZones.AnswersAreRight | system/time.cpp:112-186 | with only true entries every further call answers like TimeZone and adds only true entries |
| TimeZones.SettledNoExcursion | system/time.cpp:121-123 | where short stretches have seven days of one zone on either side and the zone returns from none, no zone comes back within seven days |
| TimeZones.AgreesExactlyWhen | system/time.cpp:112-186 | there all calls, under every pattern of failed allocations, are answered like TimeZone exactly when the zone returns from no short stretch |
| TimeZones.FasterAgrees | system/time.cpp:112-186 | so they are when every stretch of constant zone lasts seven days |
| TimeZones.FasterAgreesAsBuilt | system/util.cpp:608-624 | with Realloc as written nothing is cached and the answers are right for every zone function |
| TimeZones.ReturnIsMissed | system/time.cpp:112-186 | for every short stretch the zone returns from, two calls of which the second is answered wrongly |
| TimeZones.ShortExcursionIsMissed | system/time.cpp:157-169 | a zone that changes and is back seven days before the seed: a later call inside the change gets the seed's zone |
| TimeZones.ShortExcursionAheadIsMissed | system/time.cpp:171-182 | the same behind the seed |
| TimeZones.Cache.LowerStart | system/time.cpp:157-169 | the first bisection loop ends and leaves the start the function gives |
| TimeZones.Cache.RaiseEnd | system/time.cpp:171-182 | the second bisection loop ends and leaves the end the function gives |
| TimeZones.Cache.TimeZoneFaster | system/time.cpp:112-186 | lookup, growth and widening of the static table refine answer and table of the value model |
| TmDiff.YearStartClosed | system/time.cpp:62-75 | the closed formula for the days before a year agrees with counting year by year |
| TmDiff.TruncationError | system/time.cpp:62-75 | division that truncates counts one leap day too many for negative years that are no leap years |
| TmDiff.DiffIsDistance | system/time.cpp:62-75 | tm_diff is the calendar distance in seconds exactly when both years, or neither, are such years |
| PipeQueue.StepKeepsInv | system/util_pipe.cpp:66-86 | every statement of every process keeps locks, counters and peaks right |
| PipeQueue.RunKeepsInv | system/util_pipe.cpp:66-160 | so does every interleaving |
| PipeQueue.CountersAreExact | system/util_pipe.cpp:66-160 | whenever the ipc lock is free the counters are what is queued or received but not accounted; bytes are exact iff no received datagram was cut; peaks are the true peaks; datagrams leave in order, none lost |
| PipeQueue.AccountingIsSafe | system/util_pipe.cpp:141-150 | the decrement never underflows and the repair branch is dead |
| PipeQueue.MutualExclusion | isdcore/process_init.cpp:160-221 | no two processes are inside one lock |
| PipeQueue.PeakIsMaximum | system/util_pipe.cpp:77-82 | either recorded peak is a value its counter had, and none was larger |
| PipeQueue.MaximaAreReached | system/util_pipe.cpp:77-82 | whenever the lock is free max_queue_pack and max_queue_size are the largest values of their counters since the start |
| PipeQueue.SendGoesThrough | system/util_pipe.cpp:66-86 | a send while the locks are free puts exactly its datagram behind the others, counts it once, raises the maxima as needed and frees the locks |
| PipeQueue.ReceiveGoesThrough | system/util_pipe.cpp:126-160 | a receive while the locks are free takes exactly the first datagram, and the counters fall by one and by what was received |
| PipeQueue.FailedSend | system/util_pipe.cpp:66-86 | a send that fails, or has nothing to send, leaves queue, counters and locks as they were |
| PipeQueue.FailedReceive | system/util_pipe.cpp:126-160 | so does a receive that fails |
| PipeQueue.NoDeadlock | system/util_pipe.cpp:66-160 | in every interleaving, as long as a process is inside a call and does not just wait for a datagram, some process can move |
| PacketCodec.ValueComesBack | system/buffer.cpp:48-143 | in either byte order a value of its type comes back exactly when it survives four stored bytes |
| PacketCodec.FourByteLongsSurvive | system/buffer.cpp:76-87 | with longs of four bytes every value survives |
| PacketCodec.BytesOnTheWire | system/buffer.cpp:90-143 | which byte of a value stands where: the low one first, in network order last |
| PacketCodec.AdvancedAll | isdcore/packet.cpp:161-236 | no sequence of reads moves past sizeVal |
| PacketCodec.OverreadIsZero | isdcore/packet.cpp:161-236 | in any list of reads one that does not find all its bytes gives zero and moves nothing |
| PacketCodec.ReadsFollowWrites | isdcore/packet.cpp:97-236 | any list of writes read back with types of the same sizes: each reader gets its item's bytes, and the reads end where the writes did |
| PacketCodec.RoundTrip | isdcore/packet.cpp:97-236 | the same types read back give all values exactly when every one survives |
| PacketCodec.Packet.ClearPacket | isdcore/packet.cpp:88-94 | an empty packet in intel order, the bytes kept |
| PacketCodec.Packet.Reset | include/packet.h:45 | back to the start in intel order |
| PacketCodec.Packet.PutLeShort | system/buffer.cpp:90-103 | two bytes in the chosen order, no others touched |
| PacketCodec.Packet.PutLeInt | system/buffer.cpp:106-143 | four bytes in the chosen order, no others touched |
| PacketCodec.Packet.GetLeShort | system/buffer.cpp:48-59 | the number two bytes stand for |
| PacketCodec.Packet.GetLeInt | system/buffer.cpp:62-87 | the number four bytes stand for |
| PacketCodec.Packet.Write | isdcore/packet.cpp:97-139 | the overloads of << store and advance as the value model says |
| PacketCodec.Packet.Read | isdcore/packet.cpp:161-236 | the overloads of >> fetch and advance as the value model says; zero and no move past the end |
| PipeCodec.DatagramComesBack | system/util_pipe.cpp:46-64 | for any header: fields come back, and of the payload exactly what fits the datagram with its header |
| PipeCodec.IncomingComesBack | system/util_pipe.cpp:162-175 | the incoming pipe restores every field and the first 8192 - 28 bytes of the payload, so all of it exactly when it is no longer |
| PipeCodec.WritebackComesBack | system/util_pipe.cpp:185-213 | the same for the tcp outgoing pipe with its header of 22 |
| PipeCodec.OutgoingComesBack | system/util_pipe.cpp:236-258 | the same for the pipe to the retransmission process |
| PipeCodec.IncomingBytes | system/util_pipe.cpp:46-64 | byte by byte the datagram for the packet processors, with longs of four bytes |
| PipeCodec.WritebackBytes | system/util_pipe.cpp:95-123 | byte by byte the datagram for the tcp process |
| PipeCodec.OutgoingBytes | system/util_pipe.cpp:331-356 | byte by byte the datagram for the retransmission process |
| PipeCodec.HeaderLengths | system/util_pipe.cpp:174-205 | the written-out 28, 22 and 28, and equal lengths on both sides, hold exactly with longs of four bytes |
| PipeCodec.WideLongsMisfit | include/config.h:332 | with longs of eight bytes an uncut payload comes back twenty bytes longer |
| PipeCodec.PipeSendPacket | system/util_pipe.cpp:46-64 | the datagram is the header fields in order and the payload |
| PipeCodec.PipeReceivePacket | system/util_pipe.cpp:126-178 | for every datagram: nothing for a failed receive; fields and payload as the value model says; a copy of negative length exactly below 28 bytes |
| PipeCodec.TcpWritebackPacket | system/util_pipe.cpp:95-123 | the datagram of the way back |
| PipeCodec.ToutgoingReceivePacket | system/util_pipe.cpp:185-213 | its reader, for every datagram |
| PipeCodec.EventSendPacket | system/util_pipe.cpp:331-356 | the datagram for the retransmission process |
| PipeCodec.EpacketReceivePacket | system/util_pipe.cpp:236-258 | its reader, for every datagram, and with a negative copy length also when nothing was received |
| SocketTable.CloseCounts | isdcore/sockets-p.cpp:139-160 | moving the last connection into the freed slot takes away exactly the closed one, whatever one counts |
| TableCounts.CloseIdsCount | isdcore/sprocess.cpp:41-59 | a list of close requests takes away exactly the connections it names, whatever one counts, and keeps ids distinct |
| PollScan.ScanVisitsReady | isdcore/sockets-p.cpp:105-133 | the backward scan handles every ready connection exactly once and no other, in spite of closes on the way and the early exit |
| PollScan.ScanConserves | isdcore/sockets-p.cpp:105-133 | the table afterwards holds what the visits left and all others, none lost or doubled |
| PollScan.RoomForScan | isdcore/sockets-p.cpp:56-87 | the poll count leaves room for every active slot still ahead when the scan starts |
| PollScan.OwnSocketsServed | isdcore/sockets-p.cpp:68-85 | whatever number poll returned: how many of the own sockets are served before the scan, and when the listener gets its turn |
| PollScan.RoundVisitsReady | isdcore/sockets-p.cpp:42-133 | one round handles, once each, all connections ready at the poll that no packet processor closed before the scan |
| PollRound.RoundTable | isdcore/sockets-p.cpp:42-133 | the table after a round, whatever one counts: the connections nobody wanted closed that were read without failure or had no error, and the accepted one exactly when the listener was readable, a peer waited and there was room; the own sockets are untouched |
| PollRound.TermsAreGone | isdcore/sockets-p.cpp:68-72 | after a round no connection is left that a packet processor wanted closed |
| PollRound.AcceptedIsThere | isdcore/sprocess.cpp:412-470 | after a round with the listener readable, a peer waiting and room, that peer is in the table |
| PollServer.Server.constructor | isdcore/sprocess.cpp:340-405 | only the server's own sockets are in the table |
| PollServer.Server.CloseIndexR | isdcore/sockets-p.cpp:139-160 | the in-place removal, of any slot; a stale index or id changes nothing |
| PollServer.Server.CloseSocket | isdcore/sprocess.cpp:295-307 | the first connection with the pair is removed, if there is one |
| PollServer.Server.ServeTerms | isdcore/sprocess.cpp:41-59 | the close requests of the packet processors are served in order |
| PollServer.Server.AcceptConnect | isdcore/sprocess.cpp:412-470 | an accepted connection goes behind the last; a full table or a failure changes nothing |
| PollServer.Server.TcpProcess | isdcore/sprocess.cpp:258-287 | a read touches the connection or closes it |
| PollServer.Server.CheckAccepted | isdcore/sockets-p.cpp:105-133 | the loop over the arrays is the scan of the value model |
| PollServer.Server.CheckTimeout | isdcore/sprocess.cpp:233-251 | the loop over the arrays is the timeout pass of the value model |
| PollServer.Server.ServeOwn | isdcore/sockets-p.cpp:68-85 | the server's own sockets are served while csockets is below nsockets |
| PollServer.Server.ServeRound | isdcore/sockets-p.cpp:42-133 | one turn of the loop is the round of the value model |
| Timeouts.SweepConserves | isdcore/sprocess.cpp:233-251 | a pass closes expired connections only and loses or doubles none |
| Timeouts.HiddenByCloses | isdcore/sprocess.cpp:233-251 | every close hides at most one expired connection |
| Timeouts.PassClosesHalf | isdcore/sprocess.cpp:233-251 | one pass closes at least half of the expired connections |
| Timeouts.PassesDrain | isdcore/sprocess.cpp:233-251 | k passes at one time drain fewer than 2^k expired connections |
| Timeouts.HalfIsTight | isdcore/sprocess.cpp:233-251 | two expired connections at the end: one is closed, one is missed |
| Timeouts.SweepLeavesNone | isdcore/sprocess.cpp:233-251 | from any slot on, nothing expired is left exactly when every expired slot plus the expired ones before it stays below the count |
| Timeouts.PassLeavesNone | isdcore/sprocess.cpp:233-251 | the same for a whole pass |
| Timeouts.PassSparesOthers | isdcore/sprocess.cpp:233-251 | a pass closes overdue connections only, by the plain difference of the clocks; all others and the own sockets stay |
| Timeouts.SingleIsClosed | isdcore/sprocess.cpp:233-251 | a single overdue connection is closed wherever it stands |
| EpollBatch.SurvivorKeepsEvent | isdcore/sockets-ep.cpp:126-170 | an event of a surviving connection names it in its new slot |
| EpollBatch.WhenEventsStayTrue | isdcore/sockets-ep.cpp:126-170 | after the close of a connection all pending events stay true exactly when none is the closed one's, nor the moved one's if the kernel refused its new slot |
| EpollBatch.CloseRemovesOneId | isdcore/sockets-ep.cpp:126-170 | a close takes exactly one (fd, rnd_id) pair out of the table |
| EpollBatch.DispatchKeepsPending | isdcore/sockets-ep.cpp:75-106 | handling one event leaves the later ones pending and asking for the same of the same entries |
| EpollBatch.BatchHandlesNamed | isdcore/sockets-ep.cpp:75-106 | a batch handles each connection it names once, in order, and no other |
| EpollBatch.TermsBeforeBatch | isdcore/sockets-ep.cpp:73-106 | with close requests served before it, a batch handles exactly the connections reported if and only if no acting event was reported for a connection just closed |
| EpollBatch.OwnErrorsSpareConnections | isdcore/sockets-ep.cpp:89-93 | over a batch: the descriptors closed on own sockets' errors are none of the connections' exactly when each such event's position is below slot 11 or past the table as it then is |
| EpollBatch.OwnErrorCanHitConnection | isdcore/sockets-ep.cpp:92 | a concrete batch in which a connection's descriptor is closed |
| EpollBatch.FailingAreClosed | isdcore/sockets-ep.cpp:89-93 | the failing own sockets are the ones closed exactly when every such event's position is its slot |
| EpollBatch.HandledIsReachable | isdcore/sockets-ep.cpp:75-106 | a batch handles nothing but connections in the table when it begins, or the one accepted |
| EpollTable.BatchTable | isdcore/sockets-ep.cpp:75-106 | the table after a batch, whatever one counts: that before it and what each event adds or takes away, told from the table before; the own sockets are untouched |
| EpollTable.TurnTable | isdcore/sockets-ep.cpp:63-109 | the same for a whole turn with the close requests before and after the batch |
| EpollServer.Server.Correct | isdcore/sockets-ep.cpp:157-164 | the loop over sock_kev redirects exactly the moved connection's events |
| EpollServer.Server.CloseIndexR | isdcore/sockets-ep.cpp:126-170 | removal, of any slot, and event correction in place |
| EpollServer.Server.CloseSocket | isdcore/sprocess.cpp:295-307 | the first connection with the pair is removed, pending events included |
| EpollServer.Server.ServeTerms | isdcore/sockets-ep.cpp:73 | the close requests before or after a batch, in order |
| EpollServer.Server.TcpProcess | isdcore/sprocess.cpp:258-287 | a read touches the connection or closes it; a stale slot past the table has no effect |
| EpollServer.Server.Handle | isdcore/sockets-ep.cpp:77-105 | the loop body refines the dispatch of the value model, the descriptor closed on an own socket's error included |
| EpollServer.Server.HandleBatch | isdcore/sockets-ep.cpp:75-106 | the loop refines the batch of the value model whatever the events name, and handles exactly the connections named when they point at different slots of the table |
| EpollServer.Server.ServeTurn | isdcore/sockets-ep.cpp:63-109 | a turn is close requests, batch and close requests of the value model, on the events reported |
| UserShm.FreeSlotIsFound | system/util_shm.cpp:42-66 | with a right counter an add fails only when all slots are taken; the internal-error branch is dead |
| UserShm.AddKeepsSound | system/util_shm.cpp:37-76 | adding keeps counter, indexes and uniqueness exactly when it is refused or the uin is new and not zero |
| UserShm.DeleteKeepsSound | system/util_shm.cpp:107-126 | deleting keeps them exactly when it is not uin zero with a free slot about |
| UserShm.UpdateReachesOne | system/util_shm.cpp:281-291 | the update refreshes the user's one slot and no other |
| UserShm.RunKeepsSound | system/util_shm.cpp:37-126 | every run of proper operations keeps the table sound |
| UserShm.AfterAnyRun | system/util_shm.cpp:37-240 | from the cleared table, after any proper run: sound, hint and scan agree, the internal-error branch cannot be reached |
| UserShm.HintDoesNotMatter | system/util_shm.cpp:201-240 | with any index hint shm_iget_user returns what shm_get_user returns |
| UserShm.HintMattersForZero | system/util_shm.cpp:201-223 | not so for uin zero |
| UserShm.AddThenFind | system/util_shm.cpp:37-126 | an added user is found where the caller was told, the others where they were |
| UserShm.RunIsMap | system/util_shm.cpp:37-291 | over every run of proper operations the table, holes, hints and counter included, holds what a map from uin to record holds |
| UserShm.LookupIsMap | system/util_shm.cpp:201-240 | and every lookup in it, with any hint, is a lookup in the map |
| UserShm.Table.Add | system/util_shm.cpp:37-76 | the scan and the copy in place, and the index written back |
| UserShm.Table.Lookup | system/util_shm.cpp:82-101 | the first record with the uin, or the report that there is none |
| UserShm.Table.Delete | system/util_shm.cpp:107-126 | the first record with the uin is cleared and the counter lowered |
| UserShm.Table.GetUser | system/util_shm.cpp:229-240 | the first slot with the uin |
| UserShm.Table.IGetUser | system/util_shm.cpp:201-223 | the hinted slot when it has the uin, else the first |
| UserShm.Table.UserUpdate | system/util_shm.cpp:281-291 | every slot with the uin is refreshed; the ttl passed in is not used |
| UserSweep.VisitIsLocal | event/euser.cpp:150-197 | a visit changes its slot only, and keeps the table sound |
| UserSweep.SweepEffect | event/euser.cpp:135-198 | slots are visited in increasing order, none twice; the visited ones are ticked or freed, no other changes |
| UserSweep.NoneIsSkipped | event/euser.cpp:148-162 | the visited slots are the first of the taken ones |
| UserSweep.SweepVisitsAll | event/euser.cpp:135-198 | a sweep of a sound table visits every online user exactly when no user with another behind him expires |
| UserSweep.SweepMisses | event/euser.cpp:135-198 | a sweep that moves e users offline misses e exactly when some number of slots makes as many steps as there are users, else e - 1 |
| UserSweep.ExpiryHidesAUser | event/euser.cpp:152 | a concrete table where an expiry keeps another user from being ticked |
| UserSweep.RunsOutAt | event/euser.cpp:164-196 | the counter reaches zero at visit ttlv and after that only every 2^32 visits |
| UserSweep.ExpiresAtVisit | event/euser.cpp:164-196 | a user is moved offline at visit n exactly when n is ttlv up to whole turns of the counter and the uptime is positive: one who runs out in the second of the login waits for the next turn |
| UserSweep.SweepDecides | event/euser.cpp:135-198 | what a sweep makes of one user: without a time-to-live, or not reached, he stays as he is; else a second less is left, and he is moved offline exactly when none is left and he logged in between a second and 2^31 seconds ago |
| UserSweep.NoTtlStays | event/euser.cpp:172-174 | a user without a time-to-live is never moved offline, however many sweeps there are |
| UserSweep.OnlineCacheDecrement | event/euser.cpp:135-198 | the loop over the shared table is the sweep of the value model, with the users moved offline in order |
| Presence.ToldDecides | isdcore/broadcast.cpp:112-133 | after the loop over a query's rows exactly the listed users found in the shared table have the notice as their last |
| Presence.StepTellsTruth | isdcore/broadcast.cpp:40-475 | one event keeps one watcher's last notice right |
| Presence.RunTellsTruth | isdcore/broadcast.cpp:40-475 | over every run every watcher's last notice says present exactly when the user is online and db_add_online_lookup grants the watcher |
| Presence.LimitLies | isdcore/broadcast.cpp:60-68 | a LIMIT below the number of holders: a run after which a watcher believes wrongly |
| Presence.BothListsLie | isdcore/broadcast.cpp:352-412 | a watcher on both lists: a run after which he believes wrongly |
| Presence.ExactlyWhen | database/online_db.cpp:350-400 | the notices are right over all runs exactly when no watcher is on both lists and the LIMIT does not bind |
| Presence.StatusNotices | isdcore/broadcast.cpp:212-475 | which notice each watcher gets for a change of status, told from the two statuses and the lists |
| Presence.LoginNotices | isdcore/broadcast.cpp:40-137 | a login tells a watcher that the user is there exactly when he does not hide from him, and nothing else |
| Presence.LogoutNotices | isdcore/broadcast.cpp:144-204 | a logout sends every watcher the farewell, and nothing else |
| Presence.Broadcaster.Alert | isdcore/broadcast.cpp:112-133 | the loop over the rows with the lookup of each slot, rows without a slot skipped |
| Presence.Broadcaster.BroadcastOnline | isdcore/broadcast.cpp:40-137 | which query runs, and the notices it leads to |
| Presence.Broadcaster.BroadcastStatus | isdcore/broadcast.cpp:212-475 | the four cases of a status change |
| Presence.Broadcaster.BroadcastOffline | isdcore/broadcast.cpp:144-204 | everyone is told |
| Defrag.CoverIsPermutation | database/defrag_db.cpp:253-265 | n ordered rows that cover the numbers 0 to n - 1 are those numbers in order |
| Defrag.AssemblesExactlyWhen | database/defrag_db.cpp:204-330 | a packet is assembled exactly when the rows, as many as sixteen bits count, are numbered 0 to n - 1 with n as announced, none is empty and the sum fits, and then it is their concatenation |
| Defrag.ReassembledWhenComplete | database/defrag_db.cpp:40-330 | parts stored in any order: nothing before the last, exactly the original bytes after it |
| Defrag.DeleteSparesExactlyWhen | database/defrag_db.cpp:146-197 | deleting one packet leaves exactly the other rows if and only if the user has no other packet, or there is nothing to delete; a packet with a multiple of 65536 rows is not deleted |
| Defrag.PacketIsTakenOnce | database/defrag_db.cpp:204-330 | a check that finds or drops a packet leaves no row of its user and every other row: asked again it finds and injects nothing; after an incomplete check the table is the old one |
| Defrag.ReassembledOnce | database/defrag_db.cpp:40-330 | a packet that arrived in parts is injected by two checks exactly once, and never while its user is offline |
| Defrag.Storage.AddPart | database/defrag_db.cpp:40-87 | a row is added, or the failure reported |
| Defrag.Storage.FragmentExist | database/defrag_db.cpp:336-346 | the length of the first row with the number, 0 without one |
| Defrag.Storage.MeasureFragments | database/defrag_db.cpp:253-265 | the loop stops at the first missing fragment, else adds all lengths |
| Defrag.Storage.MergeFragments | database/defrag_db.cpp:307-314 | the loop copies the fragments one behind the other |
| Defrag.Storage.Check | database/defrag_db.cpp:204-330 | which packet is found and injected, and what is left in the table: everything after an incomplete check, else all rows but the user's |
| Defrag.Storage.Delete | database/defrag_db.cpp:146-197 | the rows of the user go when the packet has any, counted in sixteen bits; and what it returns |
| ConfigSpec.ContinuationInValue | config/parse.cpp:84-109 | a continuation in a value never reaches back over the name |
| ConfigText.EatsComment | config/parse.cpp:73-81 | a comment is passed over up to its line end |
| ConfigValue.ValueIsRead | config/parse.cpp:233-272 | a value printed over any number of lines comes out of the second loop as its joined lines, or the buffer cannot be grown for it |
| ConfigRoundTrip.NameIsRead | config/parse.cpp:180-232 | from any point in it on a printed name is read to its end, or the buffer cannot be grown for it |
| ConfigRoundTrip.LineIsRead | config/parse.cpp:180-273 | a printed parameter calls the handler with its name and its joined value |
| ConfigRoundTrip.HeaderIsRead | config/parse.cpp:113-177 | a printed section header calls its handler, whatever follows the bracket on its line, or the buffer cannot be grown for it |
| ConfigRoundTrip.JunkIsRead | config/parse.cpp:205-232 | a line without an equals sign, and not continued, makes no call |
| ConfigRoundTrip.CommentTurns | config/parse.cpp:288-291 | a comment line makes no call, whatever it says |
| ConfigRoundTrip.BlanksTurn | config/parse.cpp:61-69 | blanks in front of anything make no difference |
| ConfigRoundTrip.SkippedTurns | config/parse.cpp:283-306 | nor does an empty line or a lone backslash |
| ConfigRoundTrip.LinesAreRead | config/parse.cpp:276-312 | printed parameters, headers, comments, blanks, empty lines and lines without an equals sign make the calls of the parameters and headers in order, up to the first line too long or refused |
| ConfigRoundTrip.RoundTrip | config/parse.cpp:61-312 | parsing a printed file makes exactly the calls of its parameters and headers, a continued value as the joined one, and succeeds exactly when every line can be held and no call is refused |
| ConfigRoundTrip.RoundTripAsBuilt | config/parse.cpp:236-244 | without growth that is: exactly when every line needs at most 1024 characters - its name and two for a header; its name, its value and three for a parameter on one line - and no call is refused |
| ConfigParse.Parser.EatWhitespaceChars | config/parse.cpp:61-69 | the loop stops at the first character that is no blank, or at a line end |
| ConfigParse.Parser.EatCommentChars | config/parse.cpp:73-81 | the loop stops at a line end, at the end or at a character that is not positive |
| ConfigParse.Parser.FindContinuation | config/parse.cpp:84-109 | the backward and the forward loop together find the backslash that ends the text but for blanks |
| ConfigParse.Parser.MakeRoom | config/parse.cpp:187-195 | growth keeps the text; a failure ends the parse |
| ConfigParse.Parser.ParseSection | config/parse.cpp:113-177 | the section loop refines its function and stays inside the buffer |
| ConfigParse.Parser.ParseName | config/parse.cpp:180-232 | the name loop refines its function and stays inside the buffer |
| ConfigParse.Parser.ParseValue | config/parse.cpp:233-270 | the value loop refines its function and stays inside the buffer |
| ConfigParse.Parser.JoinValue | config/parse.cpp:258 | the loop that is to drop blanks before the backslash drops none |
| ConfigParse.Parser.ParseParameter | config/parse.cpp:180-273 | the handler gets name and value as C strings out of the buffer |
| ConfigParse.Parser.ParseFile | config/parse.cpp:276-312 | the whole parse terminates and refines its function |
| StringSub.SplitIsLeftmost | system/util_str.cpp:905-1022 | every cut is the first occurrence in what follows the cut before it |
| StringSub.LeftmostIsSplit | system/util_str.cpp:905-1022 | no other cutting at first occurrences exists |
| StringSub.SplitLosesNothing | system/util_str.cpp:905-1022 | the pieces with the pattern in the cuts are the string |
| StringSub.UnlimitedLength | system/util_str.cpp:993-1022 | without a limit every occurrence is replaced once, inserted text is not rescanned, and the length changes by count_subs times the difference |
| StringSub.LimitIsKept | system/util_str.cpp:918-923 | replacements go on as long as every length stays below the limit, and stop only when the next would reach it |
| StringSub.LimitedLength | system/util_str.cpp:905-944 | a string below the limit stays below it |
| StringSub.Sanitised | system/util_str.cpp:930-943 | the eight characters become underscores, the others stay |
| StringSub.StrStr | system/util_str.cpp:918 | the first occurrence, or none |
| StringSub.AllStringSub | system/util_str.cpp:993-1022 | the buffer then holds the substituted string, and nothing outside it was written |
| StringSub.StringSub | system/util_str.cpp:905-944 | the same with the sanitised text |
| StringSub.CountSubs | system/util_str.cpp:954-975 | the number of non-overlapping occurrences from the left |
| FnMatch.LanguageIsMatches | system/ms_fnmatch.cpp:35-93 | a string is cut into pieces its pattern characters allow exactly when it matches character by character |
| FnMatch.FixedLanguage | system/ms_fnmatch.cpp:35-93 | a pattern without star, angle brackets and quotation mark takes exactly the strings of its length that are alike |
| FnMatch.StarLanguage | system/ms_fnmatch.cpp:59-65 | with a star behind it, exactly those that begin alike |
| FnMatch.Less | system/ms_fnmatch.cpp:66-76 | '<' takes a text that does not go past the last dot |
| FnMatch.GreaterAtDot | system/ms_fnmatch.cpp:48-58 | '>' at a dot or the end takes nothing, or the last character |
| FnMatch.Quote | system/ms_fnmatch.cpp:77-81 | the quotation mark takes a dot, or nothing at the end |
| FnMatch.ScanStar | system/ms_fnmatch.cpp:59-65 | the backtracking of '*' misses no match |
| FnMatch.ScanLess | system/ms_fnmatch.cpp:66-76 | the backtracking of '<' misses no match |
| FnMatch.MsFnmatch | system/ms_fnmatch.cpp:35-93 | from any positions 0 is returned exactly for a match; it terminates |
| FnMatch.Match | system/ms_fnmatch.cpp:35-93 | 0 is returned exactly for the strings of the pattern's language |
| HexCodec.DecodeEncode | system/util_str.cpp:38-76 | decoding what was encoded gives the bytes back |
| HexCodec.EitherCaseDecodes | system/util_str.cpp:58-76 | text in either case, or mixed, decodes to the bytes it stands for |
| HexCodec.EncodeDecode | system/util_str.cpp:38-76 | encoding what was decoded gives the text back in upper case exactly when all of it is digits |
| HexCodec.LimitIsKept | system/util_str.cpp:68-74 | at most limit bytes are stored exactly for texts of at most twice as many characters |
| HexCodec.RoundTrip | system/util_str.cpp:58-76 | with a limit, all bytes come back exactly when they are at most one more than it, or one |
| HexCodec.ValueWraps | system/util_str.cpp:109-130 | ahextoul computes the number of the leading digits modulo 2^32 |
| HexCodec.HexEncode | system/util_str.cpp:38-52 | two digits a byte and a NUL |
| HexCodec.HexDecode | system/util_str.cpp:58-76 | how many bytes are stored, and which |
| HexCodec.AHexToUl | system/util_str.cpp:109-130 | the number of the digits up to the first other character |
| Talloc.AllocatedKeepsSound | system/talloc.cpp:47-75 | blocks stay in bounds, at cells of 32 bytes and disjoint exactly when the request fails or is at most 2^32 - 0x2000 |
| Talloc.RunKeepsSound | system/talloc.cpp:47-75 | over every run of such requests |
| Talloc.ServedExactlyWhen | system/talloc.cpp:47-75 | a request is served exactly when the newest chunk has the bytes left, rounded up to cells, or there is memory for a new chunk; and which bytes it gets |
| Talloc.Context.Talloc | system/talloc.cpp:47-75 | the list of chunks in the heap refines the value model, failures included |
| Talloc.Context.Destroy | system/talloc.cpp:78-92 | every chunk is freed once, newest first |

## Left out

- The SQL text and the client library of PostgreSQL: contacts, online users and fragments are read as rows; a query that fails is not modelled in Presence (the code then sends nothing).
- The first transmission of a packet with its sequence and check codes, and the v3, v5 and v7 handlers around the modelled calls: only what reaches the modelled functions is an input.
- `isdcore/sockets-kq.cpp`, `system/translate.cpp`, `event/scheduler.cpp`, the child list of `isdcore/process.cpp`, `netlib/icq_addr.cpp`, `config/loadparm.cpp`: they would add only easy members, or the same table again. `ipToIcq` and `icqToIp` are an inverse pair, so an address is its number.
- The event records of `system/util_pipe.cpp:264-320, 362-410`: three to five fields without payload, instances of PacketCodec.RoundTrip.
- `operator<<` for strings (isdcore/packet.cpp:142-158), which has no reader.
- Logging, signals, daemonising, the watchdog that is switched off, the reading of the configuration file into memory (`OpenConfFile`, `pm_process`).
- PipeQueue.Step: the two `semop` operations of a lock are one atomic action that never fails, processes do not crash, and the counters are unbounded, so their wrap as unsigned numbers is not modelled.
- PollScan.RoundVisitsReady: speaks of connections not closed by a packet processor before the scan; a close that arrives inside a handler during the scan is not modelled.
- EpollServer.Server.HandleBatch: the kernel accepts the new slot numbers, and events carry slots that were once given to it, no more of them than connections fit the table; a close request that arrives inside a handler, while a pipe is full, is not modelled.
- RetryRuns.StampedKept: a new session brings an id the old queue does not have, and a session sends fewer than 2^32 packets.
- EPacket.UserNode.AddPacket: the memory of freed nodes is not modelled, nor is `packet_expire`, which only logs.
- Md5.State.Append: pieces of less than 2^31 bytes, as the parameter is an int; the constants T are those of the code and are not derived from the sine.
- TmDiff.DiffIsDistance: integers are unbounded, so overflow of the 32-bit result is not modelled.
- TimeZones.FasterAgrees: the platform's zone is a function of the time that does not change while the process runs.
- UserSweep.OnlineCacheDecrement: no other process touches the table during the sweep; the database and broadcast part of moving a user offline is Presence's.
- Presence.RunTellsTruth: the watchers' rows and slots and the lists the client loads are fixed during a run; lists are loaded while the user is offline.
- Presence.ExactlyWhen: the user is not in his own contact list.
- Defrag.ReassembledWhenComplete: fragments are numbered once each; the large objects that hold them are their bytes, and the hourly removal of old fragments (database/defrag_db.cpp:352-446) is not modelled.
- ConfigRoundTrip.RoundTrip: `malloc` of the first line buffer succeeds; characters are numbers, and 0xff reads as the end of the file as `mygetc` returns it. A name continued on the next line, and line ends with a carriage return, are not among the printed files.
- ConfigParse.Parser.ParseName: with ConfigParse.Parser.ParseValue, one of the two loops of the one function `Parameter`.
- StringSub.AllStringSub: NULL arguments, which the code returns from at once, do not exist here; the caller's buffer must hold the result, as with the limit given it does (StringSub.LimitedLength).
- Talloc.Context.Talloc: `size_t` has four bytes; `malloc` gives memory that no chunk of the arena has.
