# LDplayer, modelled and verified

LDplayer replays DNS traffic. A controller reads a trace and hands the queries to
replay clients over TCP; each client runs several worker processes that send the
queries at the right time, one socket per original source. On the server side, a pair of
proxies rewrites addresses so that one authoritative server can stand in for every
nameserver, a zone constructor rebuilds zones and split-horizon views from captured
answers, and a query mutator edits traces. This project models the parts of that system
whose correctness lies in state, ordering and arithmetic, and proves what they promise.

Every `.dfy` file holds one module:

- `Bytes`, `Framing`, `Messages`: length-prefixed streams, their reassembly from arbitrary
  chunks, and the message that travels in them.
- `Reader`, `Postman`, `Manager`, `Client`: the four processes of the replay chain, each a
  class whose callbacks are proved against a function of the messages they decode.
- `Common`: an optional value and the arbitrary element of a set.
- `Routing`, `Streams`, `Links`, `Nodes`, `Distribution`: sticky routing, what each process
  owes to the next, and the whole chain as a step system with FIFO byte connections. Chunk
  sizes, interleavings, connection times, random draws and clock readings are arbitrary.
- `Progress`, `Crash`: the chain gets done, without any fairness assumption, unless the Postman dies; and when it does.
- `Timing`, `Punctual`, `Pacing`, `Sockets`: replay timing, the order in which queries are passed on, restamping, and
  the indexes from sources to sockets.
- `Filter`: weighted choice of clients.
- `SafeQueue`, `Checksum`, `Proxy`: the proxy's queue as a state machine over thread
  steps, the Internet checksum, and the address rewriting.
- `Zones`, `Views`: the zone constructor.
- `Header`, `Timestamp`, `RawFile`: the query mutator.

Random numbers and clock readings are functions of a counter, so each theorem holds for
every outcome. A step that iterates over a set or a map takes its elements in an arbitrary
order. Serialisation is any pair of functions of which parsing undoes printing.

Where the code does not do what one would expect, the model follows the code:

- The test whether the trace start is known treats the stamp 0.0 as unset
  (`client.cc`), so a trace that starts at 0.0 makes workers abort; the condition is exact.
- The first turn of the Postman's decode loop is unguarded; a read that begins and ends inside one length
  prefix kills the process, and nothing else does.
- `left` is truncated to the width of the length prefix; which buffers then leave a complete frame
  waiting is stated exactly.
- Neither the stamps of queries nor the trace start are normalised; the sign test on the delay is right
  exactly if their microseconds differ by at least -1000001 and less than 1000000.
- The running time of a paced replay is a double; the stamps drift unless the pace is a multiple of 2^-23 s.
- A UDP query is written by a later event; after a timeout its descriptor may belong to another source,
  and it then leaves on that source's socket.
- `ValidateWeight` accepts negative weights other than -1; the table is still total, but honours the
  weights only if none is negative.
- `cksum` adds a whole word for an odd count, against RFC 1071; its only caller pads.
- A UDP checksum that computes to zero is stored as zero, which in RFC 768 means that there is none; when
  that happens is stated exactly. With IP options the checksum overwrites the UDP destination port.
- One condition variable with `notify_one` is safe for the unlimited queue that the proxy uses and,
  in general, exactly up to `max_len` consumers.
- Zone names containing `|` break the view keys, and only those.
- An opcode value with bit 4 set turns a query into a response, and a header option on a message of one to
  three octets may write past it.
- The parser reads the digits after the dot as a number of microseconds.
- A serialised message of more than 4096 bytes overruns the raw reader's buffer.

## Model

| member | source | states |
|---|---|---|
| `Distribution.EveryRunDelivers` | dns-replay-client-1.0/client.cc:316-442 | in every state of every run, what a worker has decoded is a prefix of its due stream: the first query of the trace with the sync flag, then its own queries in trace order; it aborts exactly when it has met a query under a sync stamp of 0.0; every decoded query is pending or passed on once; every timer expires at the first reading of the worker's clock plus the distance of its query from the first of the trace; the Postman never takes an abort branch |
| `Crash.PostmanDeadIff` | dns-replay-controller-1.0/postman.cc:191-197 | over every run, the Postman is dead exactly if one of its reads began and ended inside one length prefix of the stream; the trace and the sizes of the reads decide |
| `Crash.TooFewIff` | dns-replay-controller-1.0/postman.cc:185-197 | in every reachable state a read leaves fewer than four bytes buffered iff all it delivers lies inside one length prefix |
| `Crash.StartsAreSums` | dns-replay-controller-1.0/reader.cc:115-121 | frames follow one another from the start of the stream, four bytes of length before each message |
| `Crash.OneByteKills` | dns-replay-controller-1.0/postman.cc:191-205 | a run that a first read of one byte ends |
| `Postman.TooFewAreFatal` | dns-replay-controller-1.0/postman.cc:192-197 | whatever memory lies behind the terminating zero of the buffer, the length read across it never exceeds the wrapped `left` |
| `Distribution.DecodedArePositions` | dns-replay-client-1.0/manager.cc:232-273 | in every state the i-th query a worker has decoded is, but for a cleared sync flag, the trace query at the i-th position that it owns |
| `Distribution.ClientIsDrawn` | dns-replay-controller-1.0/postman.cc:445-469 | a decoded query is its trace query but for a cleared sync flag, and its client is the one drawn for its source: clients in the order they connected, one draw for every distinct source before the first query of that source |
| `Distribution.OneSourceNeverSplits` | dns-replay-client-1.0/manager.cc:507-520 | in every state, with mapping enabled, two decoded queries of one source were decoded by the same worker |
| `Distribution.EveryRunInv` | dns-replay-controller-1.0/postman.cc:191-258 | the invariant behind it: after every interleaving and chunking each process is in the state that the closed form of its streams prescribes and each buffer is cut from its upstream bytes |
| `Distribution.QuietMeansDelivered` | dns-replay-controller-1.0/postman.cc:191-258 | once nothing is in flight, every worker behind the awaited clients has decoded its whole due stream |
| `Distribution.QuietMeansSent` | dns-replay-client-1.0/client.cc:368-457 | once nothing is in flight and the timers have fired, the multiset a worker has passed to send_query is its share of the trace |
| `Progress.RunsAreBounded` | dns-replay-controller-1.0/postman.cc:172-259 | after any run, steps other than a new connection number at most a budget of bytes, messages and timers, whatever their order and chunks |
| `Progress.FinishedMeansQuiet` | dns-replay-client-1.0/client.cc:299-443 | with the awaited clients connected, no crash and a first stamp other than 0.0, a reachable state in which no process can take a step has nothing in flight and no timer armed |
| `Progress.FinishedMeansSent` | dns-replay-client-1.0/client.cc:299-457 | in such a state every worker of an awaited client has passed exactly its share of the trace to send_query |
| `Progress.StepSpends` | dns-replay-client-1.0/manager.cc:213-274 | every such step spends from the budget |
| `Distribution.EachQueryReachesOneWorker` | dns-replay-controller-1.0/reader.cc:80-127 | every query with raw data sits in the stream of exactly one worker of exactly one client, at its rank |
| `Distribution.OneSourceOneWorker` | dns-replay-client-1.0/manager.cc:507-520 | with mapping enabled, two queries of one source are decoded by one worker in trace order |
| `Distribution.NextKeeps` | dns-replay-controller-1.0/postman.cc:172-259 | every step (accept, read input, the three read callbacks with any chunk, timer expiry) keeps the invariant |
| `Streams.WorkerStreamIsShare` | dns-replay-client-1.0/manager.cc:232-273 | the composition of both routing hops equals one sync message followed by the positions of the trace the worker owns, in increasing order |
| `Streams.ExactlyOneOwner` | dns-replay-controller-1.0/postman.cc:445-469 | every position of the trace has exactly one owning client and worker, whatever the random draws |
| `Streams.SameSourceSameOwner` | dns-replay-client-1.0/manager.cc:507-520 | two positions with one source have one owner when mapping is enabled |
| `Streams.PostmanOutSyncFirst` | dns-replay-controller-1.0/postman.cc:217-234 | a client stream holds exactly one sync message, at its head |
| `Streams.ManagerOutSyncFirst` | dns-replay-client-1.0/manager.cc:251-260 | a worker stream holds exactly one sync message, at its head |
| `Streams.PostmanOutGrows` | dns-replay-controller-1.0/postman.cc:241-251 | the stream to a client only ever grows at its end |
| `Streams.SelectedIsExact` | dns-replay-controller-1.0/postman.cc:445-469 | the selection of a worker's positions is increasing and contains exactly those it owns |
| `Nodes.PostmanFolds` | dns-replay-controller-1.0/postman.cc:191-258 | handling any number of further messages takes the Postman from one prescribed state to the next |
| `Nodes.ManagerFolds` | dns-replay-client-1.0/manager.cc:226-273 | the same for a Manager |
| `Nodes.WorkerFolds` | dns-replay-client-1.0/client.cc:316-442 | the same for a worker, including the exact abort condition |
| `Links.LinkRead` | dns-replay-client-1.0/client.cc:306-345 | a read of any chunk keeps decoded frames plus buffer a prefix of the upstream frames |
| `Links.LinkDrained` | dns-replay-client-1.0/client.cc:316-345 | a receiver that has taken every byte of whole frames has decoded them all |
| `Links.NoLoneEmptyFrame` | dns-replay-controller-1.0/postman.cc:191-197 | a Postman buffer cut from non-empty frames is never a lone empty frame, the one input on which its do-while loop differs |
| `Framing.ChunkingIndependence` | dns-replay-client-1.0/client.cc:312-345 | however the bytes are cut up, the decoded messages are a prefix of those written, and unless a buffer outgrows `left` the leftover is a proper prefix of the next frame |
| `Framing.SameBytesSameMessages` | dns-replay-client-1.0/manager.cc:226-273 | two chunkings of the same bytes decode to the same messages and leftover |
| `Framing.DrainConserves` | dns-replay-client-1.0/manager.cc:232-248 | re-framing what one callback decoded and appending the leftover gives the buffer back, wrapped `left` included |
| `Framing.ReceiveConserves` | dns-replay-client-1.0/client.cc:312-345 | the same over any series of callbacks |
| `Framing.DecodesAllIff` | dns-replay-client-1.0/client.cc:995-1020 | a callback that gets whole non-empty frames and an incomplete tail decodes them all iff each is no longer than the bytes behind its prefix modulo the width of `left` |
| `Framing.DrainStopsAt` | dns-replay-client-1.0/client.cc:995-1020 | otherwise it takes the frames up to the first that is longer, and leaves everything from there on |
| `Framing.FramesPrefixUnique` | dns-replay-controller-1.0/reader.cc:115-121 | a byte string has only one reading as frames followed by a leftover of a given frame sequence |
| `Framing.IncompleteIsProperPrefix` | dns-replay-client-1.0/client.cc:316-326 | a leftover without a complete frame is a proper prefix of the next frame |
| `Bytes.FromToBE` | dns-replay-controller-1.0/reader.cc:115-121 | ntohl undoes htonl for every value that fits the prefix |
| `Bytes.FourOctets` | dns-replay-client-1.0/client.cc:318-320 | the most significant octet comes first |
| `Bytes.ToFromBE` | dns-replay-client-1.0/client.cc:318-320 | htonl undoes ntohl for every octet string of the width |
| `Reader.ReaderProcess.ReadInput` | dns-replay-controller-1.0/reader.cc:80-127 | the Reader writes exactly the frames of the messages with raw data, in order |
| `Messages.UsableIsFilter` | dns-replay-controller-1.0/reader.cc:80-87 | the usable messages are those with raw data, each once, in order |
| `Reader.ReaderProcess.Unblock` | dns-replay-controller-1.0/reader.cc:171-201 | the wait ends with go exactly if the expected flag was among those received |
| `Routing.SameSourceSameReceiver` | dns-replay-controller-1.0/postman.cc:445-469 | a sticky router sends two queries of one source to one receiver, whatever came before, between or after |
| `Routing.ReceiverInHome` | dns-replay-controller-1.0/postman.cc:453-463 | the receiver is always one of the connected ones |
| `Routing.TableGrows` | dns-replay-client-1.0/manager.cc:507-520 | entries of the source table never change |
| `Routing.ReceiverIsDrawn` | dns-replay-client-1.0/manager.cc:507-520 | which draw decides: that of the query itself, or of the first query of its source, with one draw for every distinct source before it |
| `Postman.PostmanProcess.Accept` | dns-replay-controller-1.0/postman.cc:395-442 | a new client enters all three indexes and gets the reader unblocked exactly when the awaited number is reached |
| `Postman.PostmanProcess.Close` | dns-replay-controller-1.0/postman.cc:132-159 | closing removes the client, its bufferevent and exactly its sources; the indexes stay inverse |
| `Postman.PostmanProcess.RandClient` | dns-replay-controller-1.0/postman.cc:445-469 | a known source keeps its client, a new one is assigned the drawn index and listed once; an index out of range or a stale descriptor aborts |
| `Postman.PostmanProcess.BroadcastSync` | dns-replay-controller-1.0/postman.cc:226-229 | the sync frame is appended once to every connected client, in whatever order the map yields them |
| `Postman.PostmanProcess.SktRead` | dns-replay-controller-1.0/postman.cc:172-259 | with four or more bytes buffered the callback handles exactly the frames of the do-while loop; with fewer it always dies |
| `Postman.PostmanProcess.Handle` | dns-replay-controller-1.0/postman.cc:207-251 | one decoded message: skipped without raw data, otherwise sync once, then delivered to one client |
| `Nodes.PostmanTurn` | dns-replay-controller-1.0/postman.cc:217-251 | one usable query appends to every client, if it is the first, the query with the sync flag set, and to its own client the query with the flag cleared; nothing else is written |
| `Postman.DrainDoAgrees` | dns-replay-controller-1.0/postman.cc:191-258 | on four or more bytes the unguarded do-while decodes what the guarded loop does iff the buffer is not a lone empty frame |
| `Postman.EveryIndexRunConsistent` | dns-replay-controller-1.0/postman.cc:132-159 | over every sequence of accepts, closes and routings, a source is listed under a descriptor exactly when it is mapped to it, without duplicates, and both descriptor indexes share their keys |
| `Postman.SourceKeepsClient` | dns-replay-controller-1.0/postman.cc:445-469 | a source keeps its client until that client closes |
| `Postman.IndexStepConsistent` | dns-replay-controller-1.0/postman.cc:429-432 | each of the three events keeps the indexes consistent and moves no source whose client stays |
| `Manager.ManagerProcess.ComRead` | dns-replay-client-1.0/manager.cc:213-274 | the callback handles exactly the frames of the buffer: the first sync message to all workers, any other to one |
| `Manager.ManagerProcess.RandClientFd` | dns-replay-client-1.0/manager.cc:507-520 | the descriptor of the sticky policy, or a fresh draw when mapping is disabled |
| `Manager.WorkerIsDrawn` | dns-replay-client-1.0/manager.cc:260-270 | behind the sync message, a query is written to the worker that rand() names, by its own draw with mapping disabled, by the draw of the first query of its source otherwise, and to no other |
| `Manager.SyncReachesAll` | dns-replay-client-1.0/manager.cc:251-259 | the sync message is written once to every worker |
| `Manager.ManagerProcess.WriteAll` | dns-replay-client-1.0/manager.cc:253-259 | one frame is appended to each worker in turn |
| `Manager.ManagerProcess.ReadInputFile` | dns-replay-client-1.0/manager.cc:317-414 | reading a local file has the effect of its usable messages, restamped by the rounded running time if a pace is set |
| `Pacing.StampsAreEquidistant` | dns-replay-client-1.0/manager.cc:343-349 | below 2^30 s, with every addition rounded as a double, the k-th stamp is the start plus k times the pace rounded to whole multiples of 2^-23 s |
| `Pacing.PacedMessage` | dns-replay-client-1.0/manager.cc:343-349 | the k-th message gets a normalised stamp, 1000000000 s plus k rounded paces rounded down to a microsecond; nothing else of it changes, and without a pace nothing does |
| `Pacing.NoDriftIff` | dns-replay-client-1.0/manager.cc:343-349 | the stamps keep to the pace iff it is a multiple of 2^-23 s |
| `Pacing.DriftIs` | dns-replay-client-1.0/manager.cc:343-349 | otherwise each query is off by the same amount more, at most 2^-24 s |
| `Pacing.MillisecondPaceDrifts` | dns-replay-client-1.0/manager.cc:343-349 | at a pace of a millisecond query 22 is stamped a microsecond late |
| `Pacing.TenMillisecondPaceDrifts` | dns-replay-client-1.0/manager.cc:343-349 | at a pace of ten milliseconds the second query is stamped a microsecond early |
| `Pacing.PacedGaps` | dns-replay-client-1.0/manager.cc:343-349 | over any stretch of the trace the gap between stamps is that many rounded paces, to less than a microsecond |
| `Manager.LocalIsDistributed` | dns-replay-client-1.0/manager.cc:317-414 | local mode writes to its workers exactly what distributed mode writes on receiving the sync message and the same queries |
| `Manager.AsReceivedIs` | dns-replay-client-1.0/manager.cc:352-406 | those are the first query with the sync flag set, then every query with it cleared |
| `Manager.AppendAllReaches` | dns-replay-client-1.0/manager.cc:253-259 | with distinct sockets every worker gets the frame exactly once and nobody else gets it |
| `Client.EveryRunAccounts` | dns-replay-client-1.0/client.cc:368-457 | over every run of read and timer steps, num_timer + num_notimer counts the queries decoded, num_pending_event the timers armed and not fired, and each query is pending or passed on exactly once |
| `Client.BaseIsFixed` | dns-replay-client-1.0/client.cc:355-361 | over every run, the first sync message with a stamp other than 0.0 fixes the time base for good: to that stamp and to the clock as read then |
| `Client.BaseIsFirst` | dns-replay-client-1.0/client.cc:355-366 | a worker that has not aborted has decoded a sync message first, and its time base is that stamp and the first reading of the clock |
| `Client.CountersAreExact` | dns-replay-client-1.0/client.cc:399-455 | num_timer counts the timers armed, fired or not, num_notimer the queries passed on without one |
| `Client.PendingMaxIsExact` | dns-replay-client-1.0/client.cc:438-441 | num_pending_event_max is the largest number of timers pending at once |
| `Client.OnMessageAccounts` | dns-replay-client-1.0/client.cc:355-441 | one decoded message keeps the accounting and leaves every timer on its target |
| `Client.OnFireAccounts` | dns-replay-client-1.0/client.cc:448-457 | one timer expiry keeps the accounting |
| `Client.DNSClient.ManagerRead` | dns-replay-client-1.0/client.cc:299-443 | the callback leaves the object in the state of handling exactly the frames of its buffer, or aborted |
| `Client.DNSClient.Schedule` | dns-replay-client-1.0/client.cc:379-441 | the query is either passed on or under one new timer that expires on its target; with normalised stamps and readings it is passed on iff waiting is off or the target had passed at one of the two readings |
| `Client.DNSClient.Fire` | dns-replay-client-1.0/client.cc:448-457 | the expired timer leaves, its query is passed on, nothing else changes |
| `Punctual.TimersOnTime` | dns-replay-client-1.0/client.cc:419-438 | every armed timer expires at the first reading of the clock plus the distance of its query from the sync message, to the microsecond |
| `Punctual.NeverEarly` | dns-replay-client-1.0/client.cc:399-441 | over every run, unless waiting is off, no query is passed on before that instant, at once or by its timer |
| `Punctual.OvertakenWasDue` | dns-replay-client-1.0/client.cc:399-457 | when a query is passed on while an earlier one of the trace still has a timer, that timer is due and not yet dispatched |
| `Punctual.OvertakingHappens` | dns-replay-client-1.0/client.cc:399-441 | a run in which that happens |
| `Punctual.NonWaitKeepsOrder` | dns-replay-client-1.0/client.cc:399-406 | without waiting a worker passes its queries on in the order it decodes them |
| `Timing.DecisionIsExact` | dns-replay-client-1.0/client.cc:379-441 | for normalised stamps a query is sent at once iff waiting is off or its target had passed at one of the two readings, otherwise the timer expires on the target to the microsecond |
| `Timing.DelayIsExact` | dns-replay-client-1.0/client.cc:383-391 | the borrow arithmetic yields the exact span to the target |
| `Timing.SignOfDelay` | dns-replay-client-1.0/client.cc:399-406 | for normalised stamps the sign of the seconds field tells whether the target has passed |
| `Timing.SignTestRightIff` | dns-replay-client-1.0/client.cc:347-399 | for a query stamp and a trace start of any form, the test is right for every clock iff their microseconds differ by at least -1000001 and less than 1000000 |
| `Timing.UnnormalisedBaseMisjudged` | dns-replay-client-1.0/client.cc:355-399 | a trace start outside that range under which a query whose target has passed is held back |
| `Timing.UnnormalisedStampMisjudged` | dns-replay-client-1.0/client.cc:399-406 | a concrete stamp outside that range that is sent too early |
| `Timing.GapsArePreserved` | dns-replay-client-1.0/client.cc:419-438 | gaps between timer targets equal the gaps in the trace |
| `Sockets.UdpSockets.SendQuery` | dns-replay-client-1.0/client.cc:720-838 | a source reuses its socket or gets the new one, both indexes and the read events moving together, and a write of its query is scheduled there; unified sockets leave the indexes alone |
| `Sockets.UdpSockets.WriteReady` | dns-replay-client-1.0/client.cc:636-651 | the scheduled query goes out on its descriptor, whoever owns that now; the process exits iff the descriptor is closed or the datagram longer than 65507 bytes |
| `Sockets.LeavesOnOwnSocketIff` | dns-replay-client-1.0/client.cc:636-651 | over every run, a query leaves on the socket of its own source iff the last event that names its descriptor is a query of that source |
| `Sockets.LeavesOnOwnSocketIfNoTimeout` | dns-replay-client-1.0/client.cc:670-691 | it does if its socket does not time out before the write |
| `Sockets.ReusedSocketMisattributes` | dns-replay-client-1.0/client.cc:670-691 | a run in which a query leaves on the socket of another source |
| `Sockets.HandedWholeIff` | dns-replay-client-1.0/client.cc:478-518 | a query is handed whole to send iff it has 2 to 65535 bytes, and whole behind its length to the connection iff it has 2 to 65533 |
| `Sockets.LongerLosesItsEnd` | dns-replay-client-1.0/client.cc:725-727 | a query of 65536 bytes or more loses its end in whole multiples of that |
| `Sockets.UdpSockets.ReadTimeout` | dns-replay-client-1.0/client.cc:670-691 | a timeout closes the socket and forgets exactly its source |
| `Sockets.EveryUdpRunConsistent` | dns-replay-client-1.0/client.cc:670-691 | over every run the UDP indexes stay inverse, with one read event per socket, and no two sources share a socket although descriptors are reused |
| `Sockets.EveryUdpRunConserves` | dns-replay-client-1.0/client.cc:826-838 | over every run the writes made and the writes pending are, as a multiset, those the queries asked for |
| `Sockets.TcpConnections.SendQuery` | dns-replay-client-1.0/client.cc:470-618 | a source reuses its connection or gets a registered new one, and one frame with its query is written there; a failed connect takes the entries out again |
| `Sockets.TcpConnections.Drop` | dns-replay-client-1.0/client.cc:1043-1070 | an error or timeout forgets exactly the connection; for an unregistered event the indexes survive iff no source is the empty string |
| `Sockets.TcpConnections.ServerRead` | dns-replay-client-1.0/client.cc:995-1020 | the callback reports exactly the whole messages of the buffer, in order, and keeps the rest |
| `Sockets.EveryTcpRunConsistent` | dns-replay-client-1.0/client.cc:1062-1069 | over every run the TCP indexes stay inverse, with one buffer per connection, and no two sources share a connection |
| `Sockets.ResponsesReassemble` | dns-replay-client-1.0/client.cc:995-1020 | under any chunking only whole responses are reported, in order, none lost or repeated, and under 65538 buffered bytes no complete non-empty response waits |
| `Sockets.BufferOf65538Stalls` | dns-replay-client-1.0/client.cc:1000-1008 | at 65538 bytes a complete one-byte response is not taken |
| `Filter.TableIsTotal` | dns-replay-controller-1.0/filter.cc:69-76 | for every accepted filter, whatever the signs, each slot of the table that Init fills names a configured client |
| `Filter.TableAgreesWithWeights` | dns-replay-controller-1.0/filter.cc:69-76 | for accepted non-negative weights that table is non-decreasing and client i has exactly weight[i] slots |
| `Filter.TableHonoursIff` | dns-replay-controller-1.0/filter.cc:145-162 | the table that Init fills honours the weights of an accepted filter iff none is negative |
| `Filter.NegativeWeightAccepted` | dns-replay-controller-1.0/filter.cc:145-162 | a filter with a negative weight that is accepted |
| `Filter.ChooserInRange` | dns-replay-controller-1.0/postman.cc:453-463 | with the configured number of clients connected the range check of rand_client never fails, for any accepted filter |
| `Filter.FilterDrawsByWeight` | dns-replay-controller-1.0/postman.cc:453-460 | with a filter client c is chosen for exactly weight[c] of the 100 values of the draw, without one the uniform draw decides |
| `Nodes.ChooserIsSound` | dns-replay-controller-1.0/postman.cc:453-463 | so the chain with the controller's own chooser, filtered or uniform, meets all that its theorems assume of the draws |
| `Filter.SlotsCount` | dns-replay-controller-1.0/filter.cc:69-76 | each client occupies as many slots as its weight |
| `Filter.SlotNamesClient` | dns-replay-controller-1.0/filter.cc:69-76 | every slot below the wrapped total names a client |
| `Filter.ClientFilter.FillIndex` | dns-replay-controller-1.0/filter.cc:69-76 | the nested loops give each slot the last client whose range, with 32-bit wrap-around, covers it |
| `Filter.ClientFilter.ReadWeights` | dns-replay-controller-1.0/filter.cc:124-143 | the weights are the fields before the first that stoi rejects, -1 behind them, and the total is their sum; fails iff a field within the range is rejected |
| `Filter.ClientFilter.ValidateWeight` | dns-replay-controller-1.0/filter.cc:145-162 | accepted iff no weight is -1 and the total is 100 |
| `Filter.AcceptedIff` | dns-replay-controller-1.0/filter.cc:145-162 | accepted are at least as many fields as clients, none of the first equal to -1, with sum 100 |
| `Filter.ClientFilter.GetClientIndex` | dns-replay-controller-1.0/filter.cc:210-216 | for an accepted filter a configured client, and the one the weights prescribe if none is negative; -1 outside the table |
| `SafeQueue.EveryRunIsFifo` | dns-replay-proxy-1.0/safe_queue.cc:43-65 | for every interleaving of one producer and any number of consumers, items pushed equal items popped in lock order followed by the queue, and at most one thread holds the mutex |
| `SafeQueue.NoLostWakeup` | dns-replay-proxy-1.0/safe_queue.cc:43-65 | for any capacity, no reachable state has a non-empty queue, every consumer asleep and no producer notification to come |
| `SafeQueue.QueueDrains` | dns-replay-proxy-1.0/safe_queue.cc:54-65 | after any run, steps other than pushes and spurious wake-ups are bounded in number in any order, and when none is left the queue is empty or the producer is about to push |
| `SafeQueue.StuckIffMoreConsumersThanPlaces` | dns-replay-proxy-1.0/safe_queue.cc:43-65 | some run puts every thread to sleep for good iff there are more consumers than places |
| `SafeQueue.UnlimitedQueueNeverStuck` | dns-replay-proxy-1.0/proxy.cc:81-81 | with -1 stored as unsigned, no run gets stuck, and a sleeping producer with room has a notification coming that can reach nobody else |
| `SafeQueue.BelowLimitProducerAwake` | dns-replay-proxy-1.0/safe_queue.cc:43-52 | while the queue stays below the limit the producer never sleeps |
| `SafeQueue.StepKeepsEnoughAwake` | dns-replay-proxy-1.0/safe_queue.cc:43-65 | consumers awake number at least the queued items, short of one pending notification, unless none sleeps |
| `SafeQueue.StepServesProducer` | dns-replay-proxy-1.0/safe_queue.cc:43-65 | with at most max_len consumers, while the producer sleeps no consumer does and each free place is owed its own notification |
| `SafeQueue.StepSpends` | dns-replay-proxy-1.0/safe_queue.cc:43-65 | every ordinary step spends from a budget |
| `Checksum.Cksum` | dns-replay-proxy-1.0/socket_util.cc:32-57 | the three loops compute the complement of the folded sum of little-endian words; an odd count includes the byte after the buffer |
| `Checksum.FoldIsResidue` | dns-replay-proxy-1.0/socket_util.cc:51-53 | the fold loop terminates and yields the representative of the sum modulo 65535, zero only for zero |
| `Checksum.ByteOrderIndependent` | dns-replay-proxy-1.0/socket_util.cc:39-56 | the stored bytes equal those of big-endian summation for every even buffer, zero sums included |
| `Checksum.OddCountNeedsZeroAfter` | dns-replay-proxy-1.0/socket_util.cc:47-49 | for an odd count the result is that of zero padding iff the byte after the buffer is zero |
| `Checksum.InstalledAddsUp` | dns-replay-proxy-1.0/socket_util.cc:32-57 | installing the checksum in a cleared word at an even offset makes the buffer fold to 0xFFFF |
| `Checksum.AddsUpEitherOrder` | dns-replay-proxy-1.0/socket_util.cc:39-56 | receivers of either byte order reach the same verdict |
| `Checksum.UdpTcpCksum` | dns-replay-proxy-1.0/socket_util.cc:71-93 | the checksum over the pseudo-header and the padded segment, with cksum called for an even count |
| `Proxy.CoveredLayout` | dns-replay-proxy-1.0/socket_util.cc:74-88 | the checksum covers both addresses, zero, the protocol, the length in network order, the segment and a zero pad |
| `Proxy.ProcessPacketHelper` | dns-replay-proxy-1.0/proxy.cc:182-230 | the copy is rewritten in place as specified for every version, protocol and length; IPv6 is refused, a packet too short for its fields is overrun; the original is untouched |
| `Proxy.Readdress` | dns-replay-proxy-1.0/proxy.cc:203-206 | source becomes the old destination, destination the target, header checksum zero, all other bytes kept |
| `Proxy.Resum` | dns-replay-proxy-1.0/proxy.cc:222-223 | the checksum field is cleared and refilled, all other bytes kept |
| `Proxy.RewriteIsSound` | dns-replay-proxy-1.0/proxy.cc:201-230 | every TCP or UDP packet with a 20-byte header leaves from its old destination to the target with a checksum that folds to 0xFFFF; ports, payload and all other bytes are kept |
| `Proxy.OtherPackets` | dns-replay-proxy-1.0/proxy.cc:202-230 | which packets are sent, refused or overrun, and how ICMP, other protocols and other versions leave, byte for byte |
| `Proxy.TransparentRoundTrip` | dns-replay-proxy-1.0/proxy.cc:201-230 | recursive rewrite, any answer with swapped addresses and ports, authoritative rewrite: a valid packet from the queried nameserver to the recursive server; it answers the query iff the query came from that server |
| `Proxy.ConfiguredProxiesTransparent` | dns-replay-proxy-1.0/proxy.cc:73-79 | the same round trip through two proxies as configured, one of each type with the same two addresses |
| `Proxy.UdpChecksumZeroIff` | dns-replay-proxy-1.0/proxy.cc:228-229 | a zero UDP checksum is stored, against RFC 768, iff the rest of the packet already adds up to 0xFFFF |
| `Proxy.UnluckyPacketLosesChecksum` | dns-replay-proxy-1.0/proxy.cc:228-229 | a packet for which that happens |
| `Proxy.OptionsLosePort` | dns-replay-proxy-1.0/proxy.cc:224-230 | with four bytes of IP options the UDP destination port is overwritten: packets to different ports leave as one and the same |
| `Zones.Converter.FindZone` | dns-zone-constructor-1.0/zone/convert/converter.py:251-267 | for every iteration order and despite the early break, the unique longest zone at the address that encloses the name on a label boundary, equal to the walk towards the root; an unknown address is an error |
| `Zones.WalkIsNearest` | dns-zone-constructor-1.0/zone/convert/converter.py:251-267 | the first zone on the walk from the name towards the root (step 2 of section 4.3.2 of RFC 1034) is the longest enclosing one |
| `Zones.NearestUnique` | dns-zone-constructor-1.0/zone/convert/converter.py:256-266 | there is only one longest enclosing zone |
| `Zones.Converter.ProcessRootHint` | dns-zone-constructor-1.0/zone/convert/converter.py:52-93 | refused if the root exists; otherwise the hinted records and addresses are entered for the root and for root-servers.net. |
| `Zones.RootServedExactly` | dns-zone-constructor-1.0/zone/convert/converter.py:76-93 | an address serves the root and root-servers.net. iff it did before, or an accepted NS line of the root names a server of which an accepted A or AAAA line has that address |
| `Zones.RootRecordsExactly` | dns-zone-constructor-1.0/zone/convert/converter.py:65-74 | the root gains the accepted lines, root-servers.net. the accepted NS lines under its own name |
| `Zones.Converter.CreateZone` | dns-zone-constructor-1.0/zone/convert/converter.py:198-235 | the loops enter every zone, address and copied record of the batch |
| `Zones.ServedExactly` | dns-zone-constructor-1.0/zone/convert/converter.py:198-214 | after a batch an address serves a zone iff it did before, or the batch has an NS record of the zone and the records an A or AAAA record of that server with that address; the indexes stay in step |
| `Zones.CreatedNames` | dns-zone-constructor-1.0/zone/convert/converter.py:198-204 | a batch creates exactly the zones that own one of its NS records |
| `Zones.CreatedExactly` | dns-zone-constructor-1.0/zone/convert/converter.py:220-235 | after a batch a zone holds exactly what it held before and the NS and glue records that some NS record of the batch has copied and the zone accepts |
| `Zones.Converter.PushZone` | dns-zone-constructor-1.0/zone/convert/converter.py:239-249 | every record goes to the zone found for its owner; an unknown sender ends the program |
| `Zones.PushedExactly` | dns-zone-constructor-1.0/zone/convert/converter.py:239-249 | a zone gains exactly the records whose nearest zone at the sender it is and which it accepts, and no address changes |
| `Zones.AcceptsIff` | dns-zone-constructor-1.0/zone/convert/dns_zone.py:36-39 | refused are an SOA with another owner than the zone and data with TYPE65534 in it in any case, and nothing else |
| `Zones.LowerIff` | dns-zone-constructor-1.0/zone/convert/converter.py:252-252 | two names have one lower-case form, and so find the same zone, iff they differ in the case of ASCII letters alone |
| `Zones.EveryRunInStep` | dns-zone-constructor-1.0/zone/convert/converter.py:42-93 | after every run an address serves a zone iff the zone lists the address, every served zone exists, and lookups land in zones that list the address |
| `Zones.HostedInStep` | dns-zone-constructor-1.0/zone/convert/converter.py:42-45 | entering addresses and zones in both directions keeps the indexes in step and adds exactly those pairs |
| `Zones.NamedInStep` | dns-zone-constructor-1.0/zone/convert/converter.py:47-50 | naming a zone keeps the indexes in step and changes nothing that is served |
| `Zones.HostedMerge` | dns-zone-constructor-1.0/zone/convert/converter.py:207-214 | adding addresses in several batches equals adding their union, so the order does not matter |
| `Views.GroupViews` | dns-zone-constructor-1.0/zone/convert/converter.py:139-145 | the loop over the addresses, in any order, groups them by the joined key |
| `Views.ViewsPreserveMeaning` | dns-zone-constructor-1.0/zone/convert/converter.py:137-161 | for names without a bar: an address is in exactly one view, shares it exactly with the addresses that serve the same zones, and looking up a name among the zones written for the view agrees with find_zone |
| `Views.ViewsPartition` | dns-zone-constructor-1.0/zone/convert/converter.py:139-145 | whatever the names, every address is in exactly one view and no other is in any |
| `Views.KeyRecoversIffNoBar` | dns-zone-constructor-1.0/zone/convert/converter.py:142-157 | splitting the key recovers the zones iff no name contains a bar |
| `Views.SameKeyIffSameZones` | dns-zone-constructor-1.0/zone/convert/converter.py:142-145 | without bars, keys are equal iff the zone sets are |
| `Views.BarConfusesViews` | dns-zone-constructor-1.0/zone/convert/converter.py:142-142 | two different zone sets with one key |
| `Views.Sort` | dns-zone-constructor-1.0/zone/convert/converter.py:142-142 | the sorted listing of the set |
| `Views.SplitJoin` | dns-zone-constructor-1.0/zone/convert/converter.py:142-157 | split undoes join for parts without a bar |
| `Views.SortedListing` | dns-zone-constructor-1.0/zone/convert/converter.py:142-142 | the sorted listing has each name once, in increasing order |
| `Views.LeqIff` | dns-zone-constructor-1.0/zone/convert/converter.py:142-142 | the order is that of the first code point that differs, a prefix first |
| `Header.ChangeDnsPkt` | dns-query-mutator-1.0/dns_util.cc:225-265 | for every iteration order the header is the field-wise combination of all options; EDNS options are collected and handed on; it writes past the message iff some option changes an octet the message does not have |
| `Header.ChangeHeader` | dns-query-mutator-1.0/dns_util.cc:149-188 | one edit of one octet by mask, refused for other parts, overrunning exactly the messages that lack the octet; all other bytes kept |
| `Header.EditMeansUpdate` | dns-query-mutator-1.0/dns_util.cc:149-182 | the bit operations set the chosen field and touch no other, except that the fifth bit of an opcode value reaches QR |
| `Header.FlagsAreOctets` | dns-query-mutator-1.0/dns_util.cc:149-182 | the ten header fields determine both octets |
| `Header.QueryStaysQueryIff` | dns-query-mutator-1.0/dns_util.cc:61-70 | a query stays a query iff no opcode is chosen or its value has bit 4 clear, which every opcode below 16 has |
| `Header.IsQuery` | dns-query-mutator-1.0/dns_util.cc:61-70 | the top bit of the first flag octet is clear, two octets later with a TCP length prefix; undefined exactly for messages too short for that word |
| `Header.HeaderOptions` | dns-query-mutator-1.0/dns_util.cc:248-251 | the range and power-of-two test accepts exactly the eight header options |
| `Header.ChooseOptions` | dns-query-mutator-1.0/mutator.cc:181-204 | the loop over the wishes, in any order, yields the applied options |
| `Header.MutationMeans` | dns-query-mutator-1.0/mutator.cc:174-206 | each wished flag that the message has reads back its value if the draw is within its probability and the opposite otherwise, the opcode only within its probability; everything else is as in the original |
| `Header.FirstFlagBits` | dns-query-mutator-1.0/mutator.cc:188-206 | the same for AA, TC and RD by option number and mask |
| `Header.SecondFlagBits` | dns-query-mutator-1.0/mutator.cc:188-206 | the same for RA, Z, AD and CD by option number and mask, with the response code kept |
| `Header.OpcodeBits` | dns-query-mutator-1.0/mutator.cc:199-203 | the same for the opcode and QR, bit for bit |
| `Header.EdnsHandedOn` | dns-query-mutator-1.0/mutator.cc:192-203 | which of the five EDNS options are handed on and with what value, by number; no other is |
| `Header.OverrunsIff` | dns-query-mutator-1.0/dns_util.cc:149-182 | which messages are too short for which options, by number |
| `Timestamp.PrintParseIff` | dns-query-mutator-1.0/mutator.cc:249-254 | a timestamp is printed and parses back to itself iff the seconds fit an int and the microseconds are normalised or negative with exactly five digits |
| `Timestamp.PrintedIsDecimal` | dns-query-mutator-1.0/mutator.cc:249-254 | a normalised stamp is printed as seconds, dot and six digits worth its microseconds |
| `Timestamp.ParseCases` | dns-query-mutator-1.0/input_stream.cc:222-237 | without a dot the stamp is whole seconds, with two the program stops, an empty half is zero |
| `Timestamp.FractionIsExactIff` | dns-query-mutator-1.0/input_stream.cc:230-237 | any digits after the dot are read as the decimal fraction they denote iff there are six or they are all zero |
| `Timestamp.HalfSecondMisread` | dns-query-mutator-1.0/input_stream.cc:230-237 | 1.5 is read as one second and five microseconds |
| `Timestamp.WriteStamp` | dns-query-mutator-1.0/mutator.cc:249-254 | the padding loop prints seconds, dot and six characters of microseconds, or never ends because the unsigned bound wraps |
| `RawFile.InputStream.GetFromRaw` | dns-query-mutator-1.0/input_stream.cc:144-161 | one message, end of file, or a read beyond the 4096-byte buffer |
| `RawFile.RawRoundTripIff` | dns-query-mutator-1.0/mutator.cc:229-243 | the messages written are read back iff each fits the read buffer |
| `RawFile.ReadAllOfFrames` | dns-query-mutator-1.0/input_stream.cc:144-161 | what is read is the messages before the first that does not fit |
| `RawFile.TruncatedFile` | dns-query-mutator-1.0/input_stream.cc:144-161 | a file cut at any byte yields exactly its whole messages |
| `RawFile.Start` | dns-query-mutator-1.0/mutator.cc:135-164 | the output file holds exactly the mutated messages that have raw data before and after the change |
| `RawFile.KeptIsFilter` | dns-query-mutator-1.0/mutator.cc:140-164 | written are the mutated forms, in order, of exactly the messages with raw data before and after |
| `RawFile.CopyKeepsUsable` | dns-query-mutator-1.0/mutator.cc:135-164 | without changes, writing, running and reading again yields the usable messages |

## Left out

- Sockets, libevent, fork, signals, the TUN device, SSL and command lines: I/O, reduced to events and FIFO byte streams.
- Protocol buffer, ldns, libtrace and dnspython internals: serialisation is an assumed inverse pair, a zone's data the set of records it has accepted (its made-up SOA and the check that all records are of class IN, which reading the captures has made already, are not part of it), and ldns header macros are taken from the layout of section 4.1.1 of RFC 1035.
- Zones.PushedExactly: a zone's records are a set; the library keeps only the last SOA of a name, so a second one of the zone's own name replaces the first there.
- EDNS edits: they depend on ldns packet state; the model hands the collected options on.
- Delivery after a client disconnects, and reconnecting Managers: `client_fds` keeps stale descriptors; only the index invariant is stated there.
- Distribution.EveryRunDelivers: assumes that the buffer of a process stays below 4 GiB at each read, so that its 32-bit `left` does not wrap; what happens when it does is stated by Framing.DecodesAllIff.
- Counters other than `num_query` are unbounded, and the failure of `evtimer_add` is not modelled.
- Preload limits, which only delay the Reader.
- Pacing.StampsAreEquidistant: stops at 2^30 s, more than two years into a paced trace, where doubles get coarser; the model itself goes on, except that it does not wrap the 32-bit cast of the seconds at 2^31.
- The filter read from a file, which differs from the string only in how the fields are separated, and the signed overflow of `total_weight`, which C++ leaves undefined.
- `query_table` keys: the retry loop tests another key than the one stored, so uniqueness is not promised.
- Latency records over TCP, IPv6 and TLS paths, and the `shift_ts` logging of `send_query`.
- UdpSockets and TcpConnections are separate objects here; in the source they are fields of the worker.
- SafeQueue.EveryRunIsFifo: threads are steps of a state machine, not methods; fairness is not needed for what is stated.
- Proxy.RewriteIsSound: packets with IP options are outside it, because the source puts the transport header at offset 20 whatever the header length says; Proxy.OptionsLosePort states what becomes of them.
- The IP header checksum, which the kernel fills in, and packets of more than 65555 bytes, which the reader's 4096-byte buffer excludes.
- `fix_delegation` and the zone files themselves: suffixes are matched there without a label boundary.
- Reading captured messages from Fsdb files, and the order in which `process_dns_message` calls `create_zone` and `push_zone`: the theorems hold for every order of calls.
- Text output of the mutator beyond the timestamp, trace input, and its infinite mode.
- Copies of shared files in the controller and the client: duplicates.
