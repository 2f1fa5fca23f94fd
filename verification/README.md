# Verified model of the eBPF tracer's request pipeline

The tracer attaches eBPF programs to system calls, TLS libraries and TCP state changes. Kernel-side handlers recognise
application requests in what processes write, find the answers in what they read, and send events through perf buffers; a
user-space agent slices the payloads, parses them and attributes them to connections. This project models that pipeline from
the system call to the attributed, parsed request, together with the socket-table reader and the log batcher, and proves what
it keeps over every run.

## How the model is laid out

| files | what they hold |
|---|---|
| `Bytes` | bytes, fixed-width integers, probe reads |
| `Payload` | payload truncation and the gather copy of vectored transfers, in place on the scratch buffer |
| `Classifiers`, `L7`, `L7Tracer` | the protocol classifiers, the handlers as functions on their tables, and the handlers as they run on maps and per-CPU entries |
| `Wire` | the messages the classifiers are made for, byte by byte |
| `L7History`, `L7Provenance`, `L7Theorems` | ghost histories of stores, events and splits; the invariant of every run, the steps that stores and events come from, and what follows |
| `L7Verdicts`, `L7Pairs`, `L7Sockets` | which bytes answer which request, what an answer has in common with the write it answers, and the socket and the read both belong to |
| `ReadIds`, `TlsReads` | read ids of system calls and TLS probes in one table |
| `Tcp`, `TcpConnect` | connect tracking, and its guarantees on legal socket and thread traces |
| `Container`, `Attribution` | the connection tables, and the whole host: kernel tables, perf buffers read in any order, containers |
| `Reader`, `Statements`, `Mysql`, `MysqlCommands`, `Postgres` | payload slicing and event fan-out, the two statement caches and the text of every message |
| `Delivery`, `MysqlDelivery`, `Http2Delivery` | from the bytes a handler saw to the payload of every event, the text of a MySQL statement, and the header blocks of HTTP/2 frames |
| `Http2`, `Http2Frames`, `Http2Accounting`, `Http2Sweep` | the HTTP/2 parser, its refinement of a frame parser, the accounting of requests, and the age bound |
| `Net`, `NetTables` | `/proc/net/tcp` columns and addresses, and their round trip with the kernel's printing |
| `MessageBuffer` | the log batcher |

Code that changes state is a class or an in-place method whose `ensures` ties the new state to a function of the old one; the
properties are lemmas about runs of those functions.

How the environment enters: each BPF handler is one atomic step; the clock, the user memory a probe can read, the return
values, what earlier handlers left in the per-CPU entries, whether an update of a full hash map succeeds, and the success of
the probe reads of stored payloads are arbitrary inputs of the step. An update of an LRU map succeeds, and its evictions are
steps of their own at any time. Events may arrive in any order, at any container, or be lost. The HPACK decoder is any
function of everything written to it so far. Go's map iteration takes any order.

Some claims one would like to make about the code are false. For these the project proves when they hold:

- A MySQL query or execute inherits the low byte of its packet length as request type, because the Postgres classifier writes
  it before rejecting the packet. So it can be reported as a prepared or as a closed statement (`MysqlPrepareEvents` with the
  run of `QueryMarkedPrepareInARun`; `MysqlCloseEvents` with `QueryReportedAsClose`).
- The 1024th byte of a payload is not captured, although user space slices up to 1024 bytes: it is always the one an earlier
  event left in the per-CPU entry (`LastByteIsStale`). What user space gets is exact up to 1023 bytes, or when that byte happens
  to be right and the size was not cut in place (`DeliveredPayload`, `OneWayPayload`); `LastByteLost` is a packet for which it
  is not. In a vectored transfer the byte the classifiers see there may come from a later buffer (`GatherExactIff`).
- The MySQL parser panics on an announced length of 0 (`Mysql.PanicIff`); the kernel side never sends such a packet
  (`MysqlDelivery.MysqlNeverPanics`).
- The goroutine word is or-ed into a read id, so two goroutines of one process can share an id (`GoroutinesShareIff`,
  `GoroutinesShare`).
- The Kafka carry-over of an earlier request's time has no effect (`KafkaCarryOverIsDead`).
- After an HPACK error the HTTP/2 loop reads the body it failed on, and what follows, as frames. `ErrorHarmlessIff` says when
  the decoder still gets exactly the header blocks, `ErrorFeedsWrongBlocks` gives a frame for which it does not: its body
  begins with the indexed field 0, which section 6.1 of RFC 7541 makes a decoding error.
- Client frames that begin with the 24 bytes of the preface lose them. `CallFeedsHeaderBlocks` says when that leaves the header
  blocks as they are, `PrefaceFeedsWrongBlock` gives a frame for which it does not.
- The first HTTP/2 sweep never removes anything, so the age bound needs a condition on the call times (`SweepBoundIff`,
  `FirstPassNeverSweeps`).
- Decoding an address whose port column has six or more hexadecimal digits panics (`NetTables.PanicIff`); the kernel prints
  four.
- The log batcher keeps the length of the last encoding across a flush. Its batches are those of a greedy splitter exactly as
  long as that length never causes a flush (`RefinesGreedyIff`, with the run of `StaleLengthFlushes`).

## Model

| member | source | states |
|---|---|---|
| Payload.CopyPayload | pkg/ebpftracer/ebpf/l7/l7.c:27-36 | a copy succeeds exactly when min(size, 1023) bytes are readable; it overwrites that many and leaves the rest |
| Payload.CopyIovec | pkg/ebpftracer/ebpf/l7/l7.c:187-196 | one iovec copied in place at the offset, truncating which is a no-op |
| Payload.ReadIovec | pkg/ebpftracer/ebpf/l7/l7.c:170-199 | the loop in place: never past 1024 bytes, the upper half of the buffer untouched, the result of the gather |
| Payload.GatherCopyPrefix | pkg/ebpftracer/ebpf/l7/l7.c:171-199 | with readable memory, gathering and copying store exactly the first min(total, 1023) bytes of the first 32 iovecs, also cut at a nonzero return value |
| Payload.GatherExact | pkg/ebpftracer/ebpf/l7/l7.c:187-196 | byte 1023 is right too when the first nonempty iovec has at most 1023 bytes or the return value is below 1024 |
| Payload.StrayByte | pkg/ebpftracer/ebpf/l7/l7.c:187-196 | otherwise it is missing or the first byte of a later iovec |
| Payload.GatherExactIff | pkg/ebpftracer/ebpf/l7/l7.c:171-199 | exactly when all gathered bytes are right, byte 1023 included |
| Classifiers.IsKafkaRequest | pkg/ebpftracer/ebpf/l7/kafka.c:16-35 | an accepted request has a positive correlation id |
| L7Tracer.Tracer.ReadSource | pkg/ebpftracer/ebpf/l7/l7.c:206-216 | the bytes and size the classifiers see: the buffer, or what was gathered |
| L7Tracer.Tracer.EmitOneWay | pkg/ebpftracer/ebpf/l7/l7.c:236-321 | the one-way events, stale fields of the per-CPU event included |
| L7Tracer.Tracer.TraceEnterWrite | pkg/ebpftracer/ebpf/l7/l7.c:201-333 | tables and event after a write, for every content of the per-CPU entries |
| L7Tracer.Tracer.TraceEnterRead | pkg/ebpftracer/ebpf/l7/l7.c:335-344 | the read arguments are stored, or dropped when the table is full |
| L7Tracer.Tracer.TraceBytesRead | pkg/ebpftracer/ebpf/l7/l7.c:386-435 | consume events, the lookup, the Cassandra fallback and the HTTP/2 frames |
| L7Tracer.Tracer.AnswerRequest | pkg/ebpftracer/ebpf/l7/l7.c:437-483 | the request found is cut in place, copied, removed, and answered, put back as partial or dropped |
| L7Tracer.Tracer.PutBack | pkg/ebpftracer/ebpf/l7/l7.c:460-472 | a split request returns with its time and payload and the partial mark |
| L7Tracer.Tracer.Send | pkg/ebpftracer/ebpf/l7/l7.c:477-483 | duration and connection timestamp of the event sent |
| L7Tracer.Tracer.TraceExitRead | pkg/ebpftracer/ebpf/l7/l7.c:346-484 | tables and event after a read returns, the error paths included |
| Wire.KafkaRequestIff | pkg/ebpftracer/ebpf/l7/kafka.c:16-35 | which Kafka requests are accepted, with the correlation id in them |
| Wire.KafkaResponseIff | pkg/ebpftracer/ebpf/l7/kafka.c:38-45 | a response answers exactly the request with its correlation id |
| Wire.CassandraFrameIff | pkg/ebpftracer/ebpf/l7/cassandra.c:20-57 | which frames are requests and which answers, with the stream id and the status in them |
| Wire.MongoMessageIff | pkg/ebpftracer/ebpf/l7/mongo.c:14-45 | a message is a query when it responds to nothing and an answer otherwise |
| Wire.MongoPartsAgree | pkg/ebpftracer/ebpf/l7/mongo.c:27-45 | an answer read in two parts is recognised exactly when it is read at once |
| Wire.MongoSplitAgrees | pkg/ebpftracer/ebpf/l7/l7.c:458-472 | reading an answer in two parts sends an event exactly when reading it at once does, with the same status, and leaves the same tables |
| Wire.MysqlPacketIff | pkg/ebpftracer/ebpf/l7/mysql.c:13-35 | a packet with its length is accepted exactly for the four commands |
| Wire.MysqlAnswerIff | pkg/ebpftracer/ebpf/l7/mysql.c:38-61 | which packets are answers, with the statement id and the status in them |
| Wire.PostgresMessageIff | pkg/ebpftracer/ebpf/l7/postgres.c:10-31 | which messages are accepted; the tag becomes the request type in any case |
| L7History.MysqlRequestType | pkg/ebpftracer/ebpf/l7/postgres.c:10-31 | the request type of an accepted MySQL packet: its command for prepare and close, else the low byte of its length, left by the Postgres classifier |
| L7History.ApplyEffect | pkg/ebpftracer/ebpf/l7/l7.c:201-484 | each step does one thing to the pending table: store when free, match, drop, split, cut in place or evict; a match reports what it removed |
| L7History.RunInv | pkg/ebpftracer/ebpf/l7/l7.c:324-484 | the invariant of every run: where each pending entry comes from, which stores were answered, split and cut, and what each event repeats |
| L7Provenance.Grows | pkg/ebpftracer/ebpf/l7/l7.c:331-331 | over every run the log of stores and the log of response events only grow |
| L7Provenance.StoreStays | pkg/ebpftracer/ebpf/l7/l7.c:324-333 | a write whose key is free leaves its request in the log of stores for good |
| L7Provenance.EventAfterItsWrite | pkg/ebpftracer/ebpf/l7/l7.c:414-482 | every response event of a run was sent by a step after the write that stored the request it answers |
| L7Verdicts.ReadSettles | pkg/ebpftracer/ebpf/l7/l7.c:400-483 | in any table with sound tags, a read settles the request it finds: an event exactly when the payload can be copied and the bytes answer that request by its own protocol, with their status and statement id, the request removed but for a failed copy or a first part; otherwise it passes on what looks like server frames |
| L7Verdicts.SettledByNextRead | pkg/ebpftracer/ebpf/l7/l7.c:414-483 | over every run the next read that looks up the key of a waiting request settles it |
| L7Verdicts.PartialRetiredByNextRead | pkg/ebpftracer/ebpf/l7/mongo.c:27-45 | over every run the next read that looks up the key of a partial request removes it, and only it, exactly when the stored payload can be copied |
| L7Verdicts.SendingStepSaw | pkg/ebpftracer/ebpf/l7/l7.c:442-475 | over every run the step that sends a response event saw the answer whose status and statement id are in it |
| L7Pairs.FirstClaimWins | pkg/ebpftracer/ebpf/l7/l7.c:233-326 | a write is taken for the first protocol in the order of the chain that claims it; the ids stored for it come out of its bytes |
| L7Pairs.ClaimedWrite | pkg/ebpftracer/ebpf/l7/l7.c:233-333 | exactly when a claimed write sends an event, which one, and when it asks to store a request |
| L7Pairs.UnclaimedWrite | pkg/ebpftracer/ebpf/l7/l7.c:217-326 | a write that is empty or claimed by no protocol does nothing |
| L7Pairs.KafkaPairs | pkg/ebpftracer/ebpf/l7/kafka.c:16-45 | over every run the answer a Kafka event was sent for has the correlation id bytes of the request that was written |
| L7Pairs.CassandraPairs | pkg/ebpftracer/ebpf/l7/cassandra.c:20-57 | over every run the answer a Cassandra event was sent for has the stream id bytes of the request that was written, and the event its status |
| L7Pairs.MysqlStatus | pkg/ebpftracer/ebpf/l7/mysql.c:38-61 | over every run a MySQL event says failed exactly for an error packet |
| L7Pairs.PostgresPrepareEvents | pkg/ebpftracer/ebpf/l7/l7.c:442-448 | over every run a Postgres event is marked prepare exactly when a Parse was written, and no other protocol but MySQL marks its events |
| L7Sockets.ReadSees | pkg/ebpftracer/ebpf/l7/l7.c:361-384 | what the classifiers see of a read: its buffer, or the front of the joined iovecs cut at the number of bytes the read brings, which is stored elsewhere when the read was told so |
| L7Sockets.FailedRead | pkg/ebpftracer/ebpf/l7/l7.c:359-371 | a read that brings nothing is forgotten and does nothing else |
| L7Sockets.StepNames | pkg/ebpftracer/ebpf/l7/l7.c:227-231 | every key a step stores or takes out, and every event it sends, is about the fd and process of the write or of the read that was entered, TLS or not; HTTP/2 frames carry the time of the step |
| L7Sockets.ReadArgsAreLatest | pkg/ebpftracer/ebpf/l7/l7.c:335-359 | over every run the read table holds the arguments of the reads entered and not returned, each as it was entered last |
| L7Sockets.SameSocket | pkg/ebpftracer/ebpf/l7/l7.c:353-357 | over every run a response event answers a write on the very fd its read was entered for, by the same process, both through TLS or both not, and names that fd and process |
| L7Theorems.AtMostOnce | pkg/ebpftracer/ebpf/l7/l7.c:414-482 | response events map injectively to stores made before them, with the same key and protocol, and carry their payload prefix, size and duration |
| L7Theorems.DurationsExact | pkg/ebpftracer/ebpf/l7/l7.c:480-480 | with a monotone clock no duration underflows: it is the time from store to event |
| L7Theorems.FirstPendingWins | pkg/ebpftracer/ebpf/l7/l7.c:331-331 | the request under a key is the first that asked for it since the key was last free |
| L7Theorems.KafkaCarryOverIsDead | pkg/ebpftracer/ebpf/l7/l7.c:301-306 | the machine without the carry-over branch has the same tables and events on every run, whatever times the two leave in the per-CPU entries |
| L7Theorems.ScratchTimeIsDead | pkg/ebpftracer/ebpf/l7/l7.c:222-226 | no handler's result depends on the time an earlier handler left in the per-CPU request |
| L7Theorems.PendingTags | pkg/ebpftracer/ebpf/l7/l7.c:299-301 | in every reachable table a stream id means Cassandra and the partial mark means Mongo |
| L7Theorems.CassandraFallbackStands | pkg/ebpftracer/ebpf/l7/l7.c:414-475 | on the fallback path the verdict is never overruled: a Cassandra event with the decoded status is sent exactly when the stored payload can be copied, else the request stays with its size cut |
| L7Theorems.CassandraEventsPair | pkg/ebpftracer/ebpf/l7/l7.c:414-475 | a Cassandra event answers a request stored under a stream id, and only such a request gives one |
| L7Theorems.MongoSplits | pkg/ebpftracer/ebpf/l7/l7.c:458-472 | each store is split at most once, and an event after that still has the original time and payload prefix |
| L7Theorems.KafkaCorrelation | pkg/ebpftracer/ebpf/l7/kafka.c:38-45 | a Kafka request is matched exactly when the read carries its correlation id, and no consume classifier took it first |
| L7Theorems.MysqlPrepareEvents | pkg/ebpftracer/ebpf/l7/l7.c:453-457 | over every run a MySQL event is marked prepare exactly for PREPARE packets and for packets whose length has the low byte 0x16 |
| L7Theorems.QueryReportedAsPrepare | pkg/ebpftracer/ebpf/l7/mysql.c:13-35 | a 26-byte query packet, stored and answered, gives an event marked prepare that carries a query |
| L7Theorems.QueryMarkedPrepareInARun | pkg/ebpftracer/ebpf/l7/l7.c:453-457 | a run of three steps from the empty tables that does so |
| L7Theorems.MysqlCloseEvents | pkg/ebpftracer/ebpf/l7/l7.c:256-272 | exactly which accepted MySQL packets are reported at once as closed statements |
| L7Theorems.QueryReportedAsClose | pkg/ebpftracer/ebpf/l7/mysql.c:13-35 | a 29-byte query packet is one of them |
| TlsReads.CollisionIff | pkg/ebpftracer/ebpf/l7/gotls.c:55-58 | a read id of a system call can equal one of a TLS probe exactly when its pid is not below 2^31 |
| TlsReads.SplitStep | pkg/ebpftracer/ebpf/l7/openssl.c:72-89 | one step on the shared read table is one step on two separate tables, with the same event |
| TlsReads.ReadsNeverMix | pkg/ebpftracer/ebpf/l7/l7.c:335-359 | with pids below 2^31, over every run the shared table behaves as a TLS table and a plain table, told apart by bit 63 |
| TlsReads.AnsweredAsWritten | pkg/ebpftracer/ebpf/l7/openssl.c:72-143 | over every run of probes with pids below 2^31, a TLS write is answered only by a TLS read and a plain write only by a plain read, entered on the same fd by a probe of that sort |
| ReadIds.GoroutinesShareIff | pkg/ebpftracer/ebpf/l7/gotls.c:55-58 | two goroutines of a process share an id exactly when their words differ only in bits that the pid sets or in bit 63 |
| ReadIds.GoroutinesShare | pkg/ebpftracer/ebpf/l7/gotls.c:55-58 | two different words that do |
| ReadIds.GoroutinesApart | pkg/ebpftracer/ebpf/l7/gotls.c:55-58 | with pids below 2^31 and words below 2^32, ids tell goroutines apart within and across processes |
| ReadIds.ThreadsApart | pkg/ebpftracer/ebpf/l7/openssl.c:76-77 | with pids below 2^31, the ids of OpenSSL reads tell threads apart |
| Tcp.TcpTracer.SysEnterConnect | pkg/ebpftracer/ebpf/tcp/state.c:158-167 | the fd of a connect() is noted for the thread, unless the table is full |
| Tcp.TcpTracer.SysExitConnect | pkg/ebpftracer/ebpf/tcp/state.c:169-174 | the note is removed |
| Tcp.TcpTracer.InetSockSetState | pkg/ebpftracer/ebpf/tcp/state.c:70-150 | tables, timestamps and event after a state change |
| TcpConnect.ConnectTracking | pkg/ebpftracer/ebpf/tcp/state.c:83-119 | on every trace in which threads nest no connect() calls and a socket seen open changes from the state it is in, sockets older than the tracer and accepted ones included, `sk_info` holds only sockets in SYN_SENT, `fd_by_pid_tgid` only threads inside connect(), every OPEN or ERROR event names the connect() that moved its socket to SYN_SENT, and no connect() gives two |
| TcpConnect.TrackedSocketReports | pkg/ebpftracer/ebpf/tcp/state.c:101-119 | a tracked socket that leaves SYN_SENT for ESTABLISHED or CLOSE gives its event, with its own addresses, and an open leaves its timestamp |
| TcpConnect.EventTells | pkg/ebpftracer/ebpf/tcp/state.c:98-147 | for which transitions an event is sent, of which kind, with the addresses of the socket and, for an open only, the time |
| TcpConnect.ConnectIsReported | pkg/ebpftracer/ebpf/tcp/state.c:83-174 | while the tables have room no connection is missed: whatever happens in between, a connect() whose socket goes to SYN_SENT and then to ESTABLISHED or CLOSE gives its event, with its fd, process and addresses |
| Container.Accepted | pkg/container/container_provider.go:116-127 | exactly when the guard rejects, and that an accepted nonzero timestamp is the connection's |
| Container.Container.OnConnectionOpen | pkg/container/container_provider.go:129-157 | the connection tables and counters after an open or a failed attempt |
| Container.Container.OnL7Request | pkg/container/container_provider.go:116-127 | the connection a request is accepted for |
| Container.IndexHoldsLastOpen | pkg/container/container_provider.go:144-154 | over every run of calls the index holds the connection of the last successful non-loopback call for the pid and fd |
| Container.CountersCount | pkg/container/container_provider.go:146-154 | over every run the counters count opens and failures, and a pair is active exactly after an open |
| Container.TablesHoldLast | pkg/container/container_provider.go:129-157 | over every run of calls the active connection of a pair of addresses is that of its last open, and the last attempt at a destination has the time of the last call about it |
| Container.LoopbackForms | pkg/container/container_provider.go:130-132 | which IPv4, mapped and IPv6 addresses count as loopback |
| Attribution.EventStamp | pkg/ebpftracer/ebpf/l7/l7.c:158-168 | every event of the L7 handlers carries the timestamp its own pid and fd have at that moment |
| Attribution.RunInv | pkg/container/container.go:90-104 | the invariant of the whole host: timestamps, events on their way, connection tables and accepted requests name real opens |
| Attribution.RequestsMeetTheirConnection | pkg/container/container_provider.go:116-157 | when opens of one pid and fd differ in time, an accepted request with a timestamp meets the connection of the very transition to ESTABLISHED that was the latest tracked one when it was sent, to the peer of that socket, whatever the order, reuse, loss or eviction; never a loopback one |
| Reader.EbpfTracer.SubscribeEvents | pkg/ebpftracer/ebpftracer.go:202-211 | a channel is added behind those subscribed before |
| Reader.EbpfTracer.ReadL7 | pkg/ebpftracer/ebpftracer.go:134-198 | a record reaches every subscriber once, in order; printer chatter reaches none |
| Reader.RecordTold | pkg/ebpftracer/ebpftracer.go:144-160 | a record is dropped exactly when the chatter stands somewhere in its payload; otherwise each field of the request is that of the event |
| Reader.EachChannelGetsAll | pkg/ebpftracer/ebpftracer.go:193-197 | over any run of records each channel that subscribed once gets every request, once and in order, and nothing else |
| Delivery.AttemptStoresPrefix | pkg/ebpftracer/ebpf/l7/l7.c:324-333 | a stored request has the full size and the first min(size, 1023) bytes of what was written |
| Delivery.VectoredStoresPrefix | pkg/ebpftracer/ebpf/l7/l7.c:207-216 | for a vectored write it is the front of the buffers joined together |
| Delivery.LastByteIsStale | pkg/ebpftracer/ebpf/l7/l7.c:27-36 | whatever event a step sends, its 1024th payload byte is the one an earlier event left in the per-CPU entry |
| Delivery.ExactIff | pkg/ebpftracer/ebpftracer.go:144-158 | a delivered payload is the first 1024 bytes seen exactly when there are at most 1023, or the size was not cut and the stale byte is right |
| Delivery.DeliveredPayload | pkg/ebpftracer/ebpftracer.go:144-158 | over every run the payload delivered for a response event is the written one up to 1023 bytes and then the byte the sending step found in its per-CPU entry, or ends at 1023 bytes when its size was cut in place; and exactly when it is exact |
| Delivery.OneWayPayload | pkg/ebpftracer/ebpf/l7/l7.c:236-321 | the same for the events sent at once with a payload: closed statements and HTTP/2 frames of either side |
| Delivery.LastByteLost | pkg/ebpftracer/ebpf/l7/l7.c:256-270 | a CLOSE packet of 1024 bytes that is not delivered as it was written |
| MysqlDelivery.MysqlNeverPanics | pkg/ebpftracer/l7/mysql.go:26-45 | whatever MySQL event the next step of any run sends, in answer to a request or at once, the parser does not slice out of range on it |
| MysqlDelivery.TextDelivered | pkg/ebpftracer/l7/mysql.go:33-45 | the text read from what is left of an accepted packet of at least 9 bytes: the exact body up to 1023 bytes, then its front and the stale byte, the marker exactly above 1024, and what a cut in place changes |
| MysqlDelivery.MysqlQueryEndToEnd | pkg/ebpftracer/ebpf/l7/mysql.c:13-35 | from the write of an accepted query packet to that text, when it was stored and answered |
| MysqlDelivery.MysqlQuerySentAtOnce | pkg/ebpftracer/ebpf/l7/l7.c:256-270 | and when it was sent at once as a closed statement |
| MysqlDelivery.PrepareEndToEnd | pkg/ebpftracer/ebpf/l7/mysql.c:38-61 | over every run the event of an answered PREPARE makes the parser prepare the text written under the id in its answer |
| MysqlDelivery.ExecuteReportsPrepare | pkg/ebpftracer/l7/mysql.go:53-67 | a later EXECUTE packet of that id is reported with that text, if nothing in between prepares or closes the id |
| MysqlDelivery.CloseEndToEnd | pkg/ebpftracer/ebpf/l7/l7.c:256-270 | from the write of a CLOSE packet to the parser: its event closes the statement named in the packet, which is unknown until it is prepared again |
| MysqlCommands.ReportIsTold | pkg/ebpftracer/l7/mysql.go:26-70 | over every run of captured commands each is reported with its text, told from the commands: an EXECUTE with that of the latest PREPARE of its id not closed since, or as unknown |
| MysqlCommands.CloseForgets | pkg/ebpftracer/l7/mysql.go:65-67 | a CLOSE packet forgets the statement named in it and no other, whatever statement id comes with the event |
| MysqlCommands.ExecuteUnknown | pkg/ebpftracer/l7/mysql.go:53-59 | an EXECUTE of a statement that nothing prepares, from the beginning or from a CLOSE on, is reported as unknown |
| Mysql.MysqlParser.Parse | pkg/ebpftracer/l7/mysql.go:26-70 | over every run the text reported, EXECUTE giving the latest PREPARE of its id with no later CLOSE; the map keyed by decimal strings holds exactly those |
| Mysql.DecimalInjective | pkg/ebpftracer/l7/mysql.go:62-62 | decimal formatting tells ids apart |
| Mysql.Extend | pkg/ebpftracer/l7/mysql.go:60-67 | a packet changes the string-keyed cache as it changes the statements keyed by number |
| Mysql.PanicIff | pkg/ebpftracer/l7/mysql.go:33-45 | the parser panics exactly on queries and prepares of at least 9 bytes with an announced length of 0 |
| Mysql.QueryRoundTrip | pkg/ebpftracer/l7/mysql.go:33-45 | the body of a packet comes back exactly when all of it arrived, else its prefix with the marker |
| Mysql.StatementIdRoundTrip | pkg/ebpftracer/l7/mysql.go:46-48 | EXECUTE and CLOSE packets give back the id they were built with |
| Postgres.CutNul | pkg/ebpftracer/l7/postgres.go:32-45 | a cut splits at the first NUL and loses nothing |
| Postgres.PostgresParser.Parse | pkg/ebpftracer/l7/postgres.go:23-82 | the text reported, and that the map holds exactly the statements parsed and not closed since |
| Postgres.MeaningOfPayload | pkg/ebpftracer/l7/postgres.go:53-80 | from the captured bytes of a message, cut anywhere, the parser does what the message means |
| Postgres.PreparedIsLatest | pkg/ebpftracer/l7/postgres.go:65-66 | over every run of captured messages a name stands for the latest Parse with it, not closed since |
| Postgres.BindReportsLatest | pkg/ebpftracer/l7/postgres.go:38-52 | a Bind reports that query, the empty name included, or that it is unknown |
| Postgres.QueryReported | pkg/ebpftracer/l7/postgres.go:30-37 | a simple query in full when its NUL arrived, else its prefix with the marker |
| Postgres.ReportIsTold | pkg/ebpftracer/l7/postgres.go:23-82 | over every run of captured messages each is reported with its text, told from the messages, Parse and cut messages included |
| Http2.RoundOf | pkg/ebpftracer/l7/http2.go:64-126 | on every input a round ends the loop or goes on by at least a frame header, inside the payload, after at most one write |
| Http2.Http2Parser.HandleHeaders | pkg/ebpftracer/l7/http2.go:82-126 | one header block: the request it registers or fills in, or the status it sets |
| Http2.Http2Parser.ReadFrame | pkg/ebpftracer/l7/http2.go:64-126 | one round as the code makes it: the offset, the decoder and the tables after it, and nothing else changed |
| Http2.Http2Parser.ReadFrames | pkg/ebpftracer/l7/http2.go:61-126 | the loop ends and leaves the decoder and the tables that its rounds give, decoder errors included |
| Http2.Http2Parser.Complete | pkg/ebpftracer/l7/http2.go:127-137 | the completion loop in any order: each active stream with a status is reported once and removed |
| Http2.Http2Parser.CollectGarbage | pkg/ebpftracer/l7/http2.go:139-149 | the sweep in any order |
| Http2.Http2Parser.Parse | pkg/ebpftracer/l7/http2.go:50-152 | the whole call: next state, and a result that lists the reported requests |
| Http2Frames.DigitsRoundTrip | pkg/ebpftracer/l7/http2.go:68-73 | big-endian numbers of any width are read back |
| Http2Frames.RoundAtFrame | pkg/ebpftracer/l7/http2.go:65-126 | at a frame of section 4.1 of RFC 7540, cut or not, the loop skips it, stops, or writes its body |
| Http2Frames.WalkIsReference | pkg/ebpftracer/l7/http2.go:65-81 | the header blocks of bytes read as frames are the reference's on every cut of serialized frames |
| Http2Frames.FeedIsWalk | pkg/ebpftracer/l7/http2.go:63-126 | on any bytes whose header blocks the decoder takes, the loop writes exactly these |
| Http2Frames.FeedRefines | pkg/ebpftracer/l7/http2.go:63-126 | on any cut of serialized frames that the decoder takes, the loop writes exactly the HEADERS bodies, in order, the last possibly cut |
| Http2Frames.DecoderGetsBlocks | pkg/ebpftracer/l7/http2.go:118-125 | on every input, decoder errors included, what is written to the decoder is what the rounds fed |
| Http2Frames.DecodersNeverMix | pkg/ebpftracer/l7/http2.go:82-125 | over every run of calls each decoder gets what the frames of its own side feed it, in order, and nothing else |
| Http2Frames.FailedWriteRereadsBody | pkg/ebpftracer/l7/http2.go:122-124 | on any bytes the loop writes the header blocks up to the first that fails, and then reads that body and what follows as frames |
| Http2Frames.ErrorHarmlessIff | pkg/ebpftracer/l7/http2.go:122-124 | when the decoder still gets exactly the header blocks after an error; a matter of the bytes alone if nothing fails later or no header block follows |
| Http2Frames.HarmlessBodies | pkg/ebpftracer/l7/http2.go:122-124 | a body that reads as whole frames of other kinds, before frames that decode, and a last body shorter than a frame header are harmless |
| Http2Frames.ErrorFeedsWrongBlocks | pkg/ebpftracer/l7/http2.go:122-124 | a frame whose body is a decoding error and makes the decoder get a block nobody sent |
| Http2Frames.CutPrefaceFeedsNothing | pkg/ebpftracer/l7/http2.go:51-56 | a payload cut inside the client preface feeds nothing |
| Http2Frames.CallFeedsHeaderBlocks | pkg/ebpftracer/l7/http2.go:51-126 | for any cut of an optional client preface (section 3.5 of RFC 7540) and frames that the decoder takes, a call hands it exactly the header blocks sent, unless the frames are taken for a preface and dropping 24 bytes changes the header blocks |
| Http2Frames.PrefaceFeedsWrongBlock | pkg/ebpftracer/l7/http2.go:51-56 | a frame that is taken for a preface, so that the decoder gets a block nobody sent |
| Http2Accounting.AllFields | pkg/ebpftracer/l7/http2.go:90-105 | the first valid method, path and scheme among all fields emitted for a registration win |
| Http2Accounting.StatusIsLast | pkg/ebpftracer/l7/http2.go:111-116 | the status is that of the last `:status` field, or 0 |
| Http2Accounting.RegistrationsBalance | pkg/ebpftracer/l7/http2.go:82-149 | over every run a registration is reported, swept in a pass when its first HEADERS came more than the interval ago, or still active, exactly one of these and once |
| Http2Accounting.ReportsAreExact | pkg/ebpftracer/l7/http2.go:106-137 | client frames report nothing, server frames register nothing; exactly the active streams among the server's HEADERS are reported, each with the first valid method, path and scheme of its registration, the last status, and the time from its first HEADERS to the call |
| Http2Accounting.ReportsIgnoreOrder | pkg/ebpftracer/l7/http2.go:128-137 | the multiset of reports does not depend on the order of the map |
| Http2Sweep.SweepBound | pkg/ebpftracer/l7/http2.go:139-149 | for call times that do not go back, active requests are at most twice the interval old |
| Http2Sweep.SweepBoundIff | pkg/ebpftracer/l7/http2.go:139-149 | the bound holds for whatever arrives at given times exactly when those times, while nothing was swept yet, span at most twice the interval; a first call later than the interval suffices |
| Http2Sweep.FirstPassNeverSweeps | pkg/ebpftracer/l7/http2.go:141-141 | without it a request outlives a call half an hour later |
| Http2Delivery.OneByteWalks | pkg/ebpftracer/l7/http2.go:65-81 | bytes that differ in the last one only give the same header blocks, but for the last byte of the last body or the low byte of its stream |
| Http2Delivery.FramesDelivered | pkg/ebpftracer/ebpf/l7/l7.c:307-321 | the header blocks in what user space gets for an HTTP/2 event are those in the bytes the handler saw: exactly up to 1023 bytes, beyond but for the stale byte |
| Http2Delivery.FramesEndToEnd | pkg/ebpftracer/l7/http2.go:50-126 | from the system call to the decoder: of frames it takes, it gets exactly the header blocks sent up to 1023 bytes, and beyond but for the end of the last one, when the stale byte is wrong |
| Net.ScanField | pkg/system/net.go:73-86 | the two scanning loops give the next column and the rest |
| Net.FieldOf | pkg/system/net.go:73-86 | a column is read exactly when a space follows it |
| Net.ColumnsRoundTrip | pkg/system/net.go:53-68 | the n-th call of the chain gives the n-th column of any line whose columns are followed by a space |
| Net.DecodeHex | pkg/system/net.go:93-100 | hexadecimal pairs into a fixed buffer: done, invalid, or overrun |
| Net.SwapWord | pkg/system/net.go:104-105 | one word read big-endian and written little-endian in place |
| Net.SwapWords | pkg/system/net.go:102-106 | the loop reverses every word in place |
| Net.ReverseWordsInvolution | pkg/system/net.go:102-106 | doing it twice changes nothing |
| Net.DecodeAddr | pkg/system/net.go:88-113 | the address bytes and port of a column, none, or a panic |
| Net.ReadLine | pkg/system/net.go:53-68 | a line is kept, skipped by its state, or panics |
| Net.ReadSockets | pkg/system/net.go:46-70 | the sockets of all lines but the header |
| NetTables.AddressRoundTrip | pkg/system/net.go:88-113 | decoding undoes the kernel's printing of every IPv4 and IPv6 address and port on a little-endian host |
| NetTables.PanicIff | pkg/system/net.go:97-100 | exactly which columns make the decoding panic |
| NetTables.RowRoundTrip | pkg/system/net.go:53-68 | a printed line gives its socket, or nothing by its state |
| NetTables.TableRoundTrip | pkg/system/net.go:46-70 | a printed table gives its established and listening sockets, in order, and never panics |
| MessageBuffers.MessageBuffer.Add | pkg/log/multiline_buffer.go:30-52 | buffer, counters and what was sent after a message |
| MessageBuffers.MessageBuffer.FlushMessage | pkg/log/multiline_buffer.go:54-60 | a nonempty buffer is sent as one batch |
| MessageBuffers.MessageBuffer.Reset | pkg/log/multiline_buffer.go:62-65 | the buffer is emptied, the last length stays |
| MessageBuffers.Conservation | pkg/log/multiline_buffer.go:30-52 | over every run the batches and the buffer together are the accepted messages in order, and the line count is right |
| MessageBuffers.BatchBounds | pkg/log/multiline_buffer.go:42-51 | every batch has one to the most lines, no proper prefix that encodes reaches the most bytes, and a batch that encodes was full or large |
| MessageBuffers.RefinesGreedyIff | pkg/log/multiline_buffer.go:42-51 | the batches are those of a greedy splitter that keeps no length exactly when no message meets the guard of a flush that only the length left behind causes |
| MessageBuffers.RefinesGreedy | pkg/log/multiline_buffer.go:42-51 | so they are while every buffer formed can be encoded |
| MessageBuffers.StaleLengthFlushes | pkg/log/multiline_buffer.go:62-65 | three messages for which they are not |

## Left out

- L7Theorems.CassandraFallbackStands: speaks of reads that no consume classifier takes first.
- L7Verdicts.SettledByNextRead: the same.
- L7Verdicts.PartialRetiredByNextRead: the same.
- L7Theorems.KafkaCorrelation: `natsMethod` and the RabbitMQ classifier come first and are arbitrary.
- L7Theorems.MysqlCloseEvents: the classifiers tried before MySQL must not claim the packet.
- MysqlDelivery.ExecuteReportsPrepare: the answer to the PREPARE carries an id, so it is not an error.
- Http2Delivery.FramesEndToEnd: the decoder takes every header block delivered; frames taken for a preface are those of `CallFeedsHeaderBlocks`.
- TcpConnect.ConnectTracking: a thread does not enter connect() twice without leaving it.
- Attribution.RequestsMeetTheirConnection: a request with connection timestamp 0 bypasses the guard, so nothing is claimed for it.
- Handlers running at the same time on several CPUs, and the window between a map lookup and its delete: every handler is one step, and values read through a map entry after its delete are those at the lookup.
- The byte tests of the HTTP, Redis, Memcached, RabbitMQ, NATS, HTTP/2 and Postgres-response classifiers: any deterministic functions of what they read.
- RabbitMQ and NATS events keep the payload size and payload of an earlier event; nothing is claimed about their payloads.
- C's signed overflow in the length tests of Kafka and Postgres is taken to wrap.
- Missing per-CPU entries and failing reads of the tracepoint context, which the kernel rules out.
- TLS descriptor extraction (`go_crypto_tls_get_fd_from_conn`, `GET_FD`) and the write probes that only forward to `trace_enter_write`.
- The endless loop of `Reader`, the goroutines of `Run`, the decoding of a record into fields, lost-sample records and the other event types of the reader.
- `OnL7Request` does nothing after its guard; `getActualDestination` and `time.Now` are inputs; log lines and locks are not modelled.
- The index maps of `container.go`: which container an event reaches is arbitrary here.
- HPACK itself, `strconv.Atoi`, padding and priority fields, which the code does not strip (section 6.2 of RFC 7540), and CONTINUATION frames, which it ignores (section 6.10 of RFC 7540); a call with a method other than the two frame methods.
- HTTP/2 and response durations are unsigned here; Go reads the same bits as a signed number.
- `FromStdIP`, which turns 4 or 16 address bytes into an address value and unmaps IPv4 in IPv6; opening the file and the scanner's line limit.
- JSON encoding and the UTF-8 check of the log batcher are arbitrary functions; its channel send is immediate, and `closed` is never set.
- `http.go`, `redis.go`, `memcached.go`, `mongo.go`: one-shot parsers without state.
- `file.c`, `proc.c`, `retransmit.c`, eBPF loading, perf readers, ELF lookup, Docker, containerd, journald, Prometheus and OpenTelemetry code.
