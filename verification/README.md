# rosrust-async: a verified model

rosrust-async is a ROS1 client library. This project models its concurrent protocols and byte formats
in Dafny 4.11 and proves what they guarantee, over every input and every run. `dafny verify
dfyconfig.toml` checks everything.

## How it is built

**Bytes and headers.** `Bytes` has the little-endian lengths and the TCPROS frame, `Utf8` the encoding
of RFC 3629 (sections 3 and 4), `HeaderCodec` the connection header as the ROS Connection Header
specification lays it out, `Headers` the six header types and `Handshake` the checks both ends make.
`HeaderFields` writes the fields of the six types out, and `HeaderErrors` what a header is refused for.
`HeaderIo` holds the reader with its cursor and the writer with its patched length.

**State machines.** Where tasks share state, a module gives the state, the steps, and when each step is
enabled; a run is any sequence of enabled steps. Every point at which a task reads or writes something
shared is a step of its own. Sockets are byte sequences, queues are sequences, and a broadcast channel is
a log read through cursors. The machines are:

- `Publication` - sends, the listener, one task per subscriber connection, partial writes, the reader's frames;
- `Subscription` - the actor connecting to publishers, one task per publisher, latched frames, the handles;
  `LatchedFrames` says over all its runs which latched frames stay, are lost, and reach a late handle;
- `EndToEnd` - both joined by sockets, so that what a handle yields is compared with what was sent;
- `Clock` - polls cut into check, register and send, ticks cut into single notifications, shutdown;
- `ParameterCache` - the parameter server, its notifications in flight, and handlers cut at every call,
  any of which may fail;
- `Rpc` and `RpcLink` - the client's loop and one server task per connection; anything may fail at any moment;
- `Registry`, `GuardLifecycle`, `RegistryExact` - handles, guards, mailbox, registry and master for
  publishers, subscribers, services and service clients.

**Code.** Beside each machine stands the code it cuts up, as methods over mutable objects with loops:
`PublicationTasks`, `SubscriptionTasks`, `ClockTime`, `ClockTask`, `ParameterActor`, `RpcTasks`,
`RegistryActors` and `HashMessage`. Each method is proved to do what the specification functions say, and
`PublicationRuns`, `SubscriptionRuns`, `ParameterRuns` and `RpcRuns` (and `ClockTask` itself) prove that what
a method does is a run of the machine.

## Where the code does less than one would expect

The model follows the code. Each point below names the lemma whose concrete run or input shows it, the
lemma that says exactly when the expectation does hold, or both.

- The latched message replayed to a new subscriber need not be the newest: the listener does not receive
  while it sets a connection up (`Publication.StaleReplay`, `Publication.ReplayIsNewest`).
- A caller id reported as connected vanishes when one of two connections with that id ends
  (`Publication.TwinUnreported`, `Publication.CleanupReport`).
- Latched frames are stored by caller id and removed by publisher address. A publisher that has gone is
  still replayed (`Subscription.GonePublisherReplayed`), and a publisher that leaves may take away the frame
  of another that is still there (`LatchedFrames.RunningPublisherDropped`). `LatchedFrames.StillLatchedExact`
  and `LatchedFrames.GoneReplayedExact` say exactly when a frame stays; if no address is a caller id none is
  ever dropped (`LatchedFrames.NeverDropped`), and if every address is its publisher's caller id none
  outlives its publisher (`LatchedFrames.NoneGoneReplayed`).
- A late handle may be given a latching publisher's newest frame neither as latched nor live, when it is made
  between the frame's sending and its storing (`LatchedFrames.LateHandleMissesFrame`,
  `LatchedFrames.HandOverExact`).
- If the clock goes back between a notification and the next poll, the sleeper stays pending with nothing
  left to wake it (`Clock.BackwardsClockLosesWakeUp`, `Clock.RepollExact`).
- Up to three bytes behind the last field of a header go unnoticed (`HeaderCodec.StrayBytesAccepted`,
  `HeaderCodec.AcceptanceExact`).
- A persistent service connection is kept after any answer, and requests and responses are sent as they are.
  One stray byte behind a response makes the next call fail and the one after it return the wrong outcome
  (`RpcLink.KeptOutOfStep`), and a request of two frames makes the next call return the outcome on its second
  (`RpcLink.TwoInOne`). An exchange keeps in step exactly if both are one whole frame
  (`RpcLink.ExchangeExact`).
- A persistent link whose connection ended or broke during a call answers every later call with an I/O error
  (`RpcLink.NeverRecovers`).
- A deletion of a cached name either of whose calls fails leaves the name cached without a subscription; no
  notification reaches it, and the next cached read, though it subscribes again, returns the old value
  (`ParameterCache.FailedDeletionReadsStale`, `ParameterCache.DeletionExact`, `ParameterCache.OrphansExact`,
  `ParameterActor.ReadAfterDeletion`).
- A check for a deleted parameter that fails leaves its old value cached
  (`ParameterCache.FailedCheckKeepsValue`, `ParameterCache.FailedCheckExact`).
- A cache is also left wrong by a write the server does not notify back, and by a subscription renewed while
  old notifications are in flight (`ParameterCache.OwnWriteLost`, `ParameterCache.OwnWriteExact`,
  `ParameterCache.ResubscribedTooSoon`, `ParameterCache.ResubscribeExact`).
- `Node::publish` promises that a publication lives as long as its handles. A registration handled before
  the drop of an older guard of the same name is undone by that drop
  (`RegistryExact.OldDropKillsNewHandle`). `RegistryExact.RegistrationExact` says exactly when a registration
  is safe, and `RegistryExact.ListedExact` exactly how long a live handle stays listed.
- A service whose stale entry is removed, and whose new endpoint cannot be set up, stays registered at the
  master, as does any name whose call to unregister fails (`RegistryExact.FailedReplacementStaysRegistered`,
  `RegistryExact.AgreementExact`).

## Contracts taken for granted

- A broadcast channel of capacity `n` retains the newest `n` messages, and a receiver that fell behind is
  told once and moved to the oldest retained one. `queue_size` stands for the capacity tokio rounds it to.
- An unbounded channel is a queue whose sends fail once it is closed; a registered waker that is notified
  gets its task polled, and is registered once; a sleeper is polled by one task.
- A message's string encoding is a 32-bit length and UTF-8 text; encoded messages are length-prefixed frames.
- An actor handles one message at a time; a `Weak` upgrades exactly while a handle exists.
- Calls to the master or the parameter server are atomic: they take effect and succeed, or fail without effect.

## Model

| member | source | states |
|---|---|---|
| `Bytes.U32RoundTrip` | rosrust-async/src/tcpros/mod.rs:129-132 | a written 32-bit length reads back modulo 2^32, whatever bytes follow |
| `Bytes.U32Canonical` | rosrust-async/src/tcpros/mod.rs:129-132 | the length word copied back into the buffer is the four bytes that were read |
| `Bytes.LittleEndian` | rosrust-async/src/tcpros/mod.rs:129-132 | the four bytes of a length, least significant first, denote the number they spell and are its encoding |
| `Bytes.ReadFrameExact` | rosrust-async/src/tcpros/mod.rs:125-136 | a frame is taken from a stream if and only if a complete frame stands at its front, and exactly what follows is left |
| `Bytes.Reader.ReadExact` | rosrust-async/src/tcpros/mod.rs:133-133 | the buffer is filled from the stream in order, or the stream was too short |
| `Bytes.Reader.ReadTcprosFrame` | rosrust-async/src/tcpros/mod.rs:125-136 | the method over a buffer returns the frame at the front of the stream, length included, and nothing on a short stream |
| `Utf8.Utf8Exact` | rosrust-async/src/tcpros/header/de.rs:51-51 | bytes decode to a text if and only if they are that text's encoding: no overlong forms, surrogates or stray tails |
| `Utf8.RfcExample` | rosrust-async/src/tcpros/header/de.rs:51-51 | the encoding of the example of RFC 3629, section 7, and of a character of four bytes |
| `HeaderCodec.SplitOnceExact` | rosrust-async/src/tcpros/header/de.rs:61-63 | a field splits at its first '=': exactly the key without '=' and all that follows |
| `HeaderCodec.NextFieldExact` | rosrust-async/src/tcpros/header/de.rs:44-75 | a field is read if and only if the bytes begin with that length-prefixed UTF-8 `key=value` and the key is not `error` |
| `HeaderCodec.AcceptanceExact` | rosrust-async/src/tcpros/header/de.rs:88-104 | decoding succeeds if and only if the bytes are a matching length, fields in the required form, and fewer than four stray bytes, with no `error` key, known keys at most once, required keys present and bools "0" or "1" |
| `HeaderCodec.DecodeExact` | rosrust-async/src/tcpros/header/de.rs:266-290 | the decoded header is the one value the fields spell, defaults filling what is absent |
| `HeaderCodec.LayoutUnique` | rosrust-async/src/tcpros/header/de.rs:44-75 | there is only one way to read bytes as fields and stray bytes, whatever the keys |
| `HeaderCodec.DecodePairsExact` | rosrust-async/src/tcpros/header/de.rs:109-118 | collecting fields succeeds exactly on the accepted ones and gives the header they spell |
| `HeaderCodec.DecodedFits` | rosrust-async/src/tcpros/header/de.rs:139-151 | every decoded header has all its fields, bools where bools belong |
| `HeaderCodec.RoundTrip` | rosrust-async/src/tcpros/header/ser.rs:19-36 | decoding an encoded header gives it back, or the length error when the length does not fit 32 bits |
| `HeaderCodec.RoundTripInStream` | rosrust-async/src/tcpros/header/de.rs:79-86 | inside a stream, the frame read is the header and exactly the rest is left |
| `HeaderCodec.StrayBytesAccepted` | rosrust-async/src/tcpros/header/de.rs:46-54 | up to three bytes behind the last field are accepted without a trace |
| `HeaderCodec.OrderAndExtensions` | rosrust-async/src/tcpros/header/de.rs:170-176 | permuting fields, or adding and removing unknown ones other than `error`, decodes to the same header |
| `HeaderErrors.WrongLength` | rosrust-async/src/tcpros/header/de.rs:88-101 | too few bytes for a length are an I/O error, and a length that is not that of the rest is refused with both lengths |
| `HeaderErrors.FieldCutShort` | rosrust-async/src/tcpros/header/de.rs:44-51 | after fields that are accepted, a field whose length goes beyond the end is an I/O error |
| `HeaderErrors.FieldMalformed` | rosrust-async/src/tcpros/header/de.rs:51-63 | after fields that are accepted, a field that is no UTF-8 text is refused as that, and a text without '=' is refused with the text |
| `HeaderErrors.ErrorField` | rosrust-async/src/tcpros/header/de.rs:65-70 | after fields that are accepted, a field with key `error` ends the decoding with the peer's message |
| `HeaderErrors.ValueRefused` | rosrust-async/src/tcpros/header/de.rs:109-151 | after fields that are accepted, a known name for the second time is refused as a duplicate, and a bool other than "0" and "1" with its text |
| `HeaderErrors.RequiredMissing` | rosrust-async/src/tcpros/header/de.rs:109-118 | fields with nothing wrong but some required one missing are refused for the first such in the type's order |
| `HeaderIo.Deserializer.ReadRawField` | rosrust-async/src/tcpros/header/de.rs:44-56 | the cursor advances over one length-prefixed text; fewer than four bytes are the end, a short field an error |
| `HeaderIo.Deserializer.ParseField` | rosrust-async/src/tcpros/header/de.rs:58-75 | the field read is the specification's next field, with its errors |
| `HeaderIo.Deserializer.NextKey` | rosrust-async/src/tcpros/header/de.rs:269-282 | the next key is handed over and its field kept for the value |
| `HeaderIo.Deserializer.TakeValue` | rosrust-async/src/tcpros/header/de.rs:132-151 | the kept field is taken and its value parsed as the type wants |
| `HeaderIo.Deserializer.VisitMap` | rosrust-async/src/tcpros/header/de.rs:109-118 | the loop over fields gives what the specification collects, with duplicates and missing fields refused |
| `HeaderIo.FromBytes` | rosrust-async/src/tcpros/header/de.rs:88-104 | the decoder over a cursor is the specification's decoder |
| `HeaderIo.Serializer.WriteField` | rosrust-async/src/tcpros/header/ser.rs:48-57 | one length-prefixed `key=value` is appended |
| `HeaderIo.Serializer.SerializeValue` | rosrust-async/src/tcpros/header/ser.rs:88-107 | the pending name is taken and written with its value, bools as "1" and "0" |
| `HeaderIo.Serializer.PatchLength` | rosrust-async/src/tcpros/header/ser.rs:29-33 | the first four bytes become the length of the rest, truncated to 32 bits |
| `HeaderIo.ToBytes` | rosrust-async/src/tcpros/header/ser.rs:19-36 | the encoder over a buffer is the specification's encoder |
| `Headers.SchemasOk` | rosrust-async/src/tcpros/header/mod.rs:22-106 | the six header types have distinct field names without '=' or `error`, and defaults of the right type |
| `Headers.HeaderRoundTrip` | rosrust-async/src/tcpros/header/mod.rs:22-106 | for each of the six types and all field values, decoding an encoded header gives it back exactly when its length fits 32 bits |
| `Headers.HeaderInStream` | rosrust-async/src/tcpros/header/de.rs:79-86 | each header type, read from a stream, comes back and leaves exactly what follows |
| `HeaderFields.ToWireExact` | rosrust-async/src/tcpros/header/mod.rs:22-106 | each of the six header types is written as the length of its fields and its fields, with their names and order written out and bools as "1" and "0" |
| `HeaderFields.FromWireExact` | rosrust-async/src/tcpros/header/mod.rs:22-106 | whatever fields a peer sends, they are read as a header of a type if and only if no key is "error" and they spell that header: its names, written out, at most once, the required ones there, the others there or with their defaults ("unknown callerid", "", false) |
| `Handshake.ValidateExact` | rosrust-async/src/tcpros/header/mod.rs:112-176 | a check succeeds if and only if the md5 sums are equal or one is "*" and the types likewise; otherwise it names the first that is not, expected value first |
| `Handshake.PubSubAgreement` | rosrust-async/src/tcpros/header/mod.rs:112-132 | publisher and subscriber, each judging the other's header as it arrives, reach the same verdict, which is to accept if and only if md5 sums and types are each equal or "*" on one side |
| `Handshake.ProbeAgreement` | rosrust-async/src/tcpros/header/mod.rs:135-176 | a client's check of the probe response accepts exactly when the server's check of the client's header does |
| `Handshake.ProbeClassified` | rosrust-async/src/tcpros/service/server.rs:179-185 | a probe's fields are taken for a probe exactly when they would not also do as a client header |
| `Handshake.EncodedRequestsClassified` | rosrust-async/src/tcpros/service/server.rs:179-185 | every encoded client header is served as a handshake and every encoded probe as a probe |
| `ClockTime.PackingExact` | rosrust-async/src/clock/mod.rs:60-69 | packing a time into one word loses nothing in either direction and keeps the order |
| `ClockTime.LeIsInstantOrder` | rosrust-async/src/clock/mod.rs:182-185 | for times with nanoseconds below a second the order is that of the instants |
| `ClockTime.EncodedTime.Set` | rosrust-async/src/clock/mod.rs:77-83 | the time read back through the packed word is the one that was set |
| `Clock.TimerConservation` | rosrust-async/src/clock/mod.rs:119-163 | every entry the channel accepted is in exactly one of channel, queue and notified, once, and notified exactly once by the time the clock task has exited |
| `Clock.NoLostWakeUp` | rosrust-async/src/clock/sleep.rs:31-62 | along every run with ticks that do not go back, a pending sleeper has its entry in the channel or the queue, or is owed a poll with its deadline reached or the clock gone |
| `Clock.DueAfterTick` | rosrust-async/src/clock/mod.rs:182-191 | a queued entry is notified by the end of the first tick that reaches its deadline, even if it was sent late |
| `Clock.OnlyLateOverdue` | rosrust-async/src/clock/mod.rs:182-191 | in every run, an entry queued past its deadline between ticks was received after the last tick was finished |
| `Clock.PolledIsPending` | rosrust-async/src/clock/sleep.rs:41-62 | in every run, whoever was polled and is neither done nor in a poll has had its entry accepted, the channel's closing in the middle of a poll included |
| `Clock.NoSpuriousWakeUp` | rosrust-async/src/clock/sleep.rs:40-58 | in every run a sleeper is woken only if its entry was notified or it is done |
| `Clock.PollOutcome` | rosrust-async/src/clock/sleep.rs:31-62 | an uninterrupted poll is done if due, otherwise registers, and sends an entry the first time only |
| `Clock.NothingLeftAfterExit` | rosrust-async/src/clock/mod.rs:154-162 | after the clock task has exited every accepted entry was notified and every poll is ready |
| `Clock.RepollExact` | rosrust-async/src/clock/sleep.rs:40-41 | a notified sleeper's next poll, however it is interleaved with ticks, other polls and the shutdown, completes exactly if its deadline was reached when the poll began or the channel was closed when it looked; otherwise, until it is polled once more, it is never woken and no entry of its is left |
| `Clock.NeverWokenAgain` | rosrust-async/src/clock/sleep.rs:40-41 | a notified sleeper that is pending and not woken stays so for the rest of every run in which it is not polled, the shutdown included |
| `Clock.BackwardsClockLosesWakeUp` | rosrust-async/src/clock/sleep.rs:40-41 | a run in which a clock that jumps back loses the wake-up |
| `ClockTask.Task.OnTick` | rosrust-async/src/clock/mod.rs:172-192 | a tick, forwards or backwards, wakes exactly the due entries in order of deadline and keeps exactly the others |
| `ClockTask.Task.Shutdown` | rosrust-async/src/clock/mod.rs:154-162 | the channel is closed and everything queued or still in it is notified |
| `ClockTask.TimerChannel.Send` | rosrust-async/src/clock/sleep.rs:51-55 | a send is accepted at the end of the queue unless the channel is closed |
| `ClockTask.SleepFuture.Poll` | rosrust-async/src/clock/sleep.rs:31-62 | ready exactly if due or closed; otherwise registered, with one entry ever sent |
| `ClockTask.TickPartition` | rosrust-async/src/clock/mod.rs:172-192 | the same split whatever polls are interleaved with the tick |
| `ClockTask.TickIsRun` | rosrust-async/src/clock/mod.rs:172-192 | from every waiting state the machine can handle a tick to its end |
| `ClockTask.ShutdownIsRun` | rosrust-async/src/clock/mod.rs:154-162 | from every waiting state the machine can shut down, notifying what is queued and what is in the channel, each once |
| `ClockTask.LeftForGood` | rosrust-async/src/clock/mod.rs:119-155 | in every run, once the clock task has left its loop the time stays and no tick is handled |
| `ClockTask.SplitUnique` | rosrust-async/src/clock/mod.rs:182-191 | what is woken and what is kept is determined by queue and time |
| `Broadcast.FramesUnique` | rosrust-async/src/tcpros/mod.rs:125-136 | two framings of one byte sequence agree as far as the shorter goes |
| `Publication.InvStep` | rosrust-async/src/tcpros/publication.rs:129-217 | every step of the listener and of the connection tasks keeps the invariant that ties bytes on the wire to positions of the send log |
| `Publication.ParsedIsPrefix` | rosrust-async/src/tcpros/publication.rs:244-279 | what the reader parses is a prefix of the messages the connection wrote if those are frames; with nothing in flight it is all of them exactly if they are frames |
| `Publication.Delivery` | rosrust-async/src/tcpros/publication.rs:129-279 | in every interleaving, whatever the messages, a connection writes sent messages at strictly increasing positions, a replayed one first, then without lag exactly the block from the join on, nothing skipped unless `capacity` newer ones were sent, and no byte of them is lost; the parsed frames are these messages if they are frames, and only then once all is read |
| `Publication.ReplayIsNewest` | rosrust-async/src/tcpros/publication.rs:180-185 | the replayed message is the newest exactly when the listener had received everything sent by the join |
| `Publication.StaleReplay` | rosrust-async/src/tcpros/publication.rs:184-185 | a run in which the newest message is neither replayed nor delivered |
| `Publication.ReportSound` | rosrust-async/src/tcpros/publication.rs:196-211 | each reported id is that of a connection not yet cleaned up |
| `Publication.ReportExact` | rosrust-async/src/tcpros/publication.rs:196-211 | with unique caller ids the report is exactly the set of such connections |
| `Publication.CleanupReport` | rosrust-async/src/tcpros/publication.rs:211-211 | a cleanup leaves an exact report exact if and only if no other live connection has its id |
| `Publication.TwinUnreported` | rosrust-async/src/tcpros/publication.rs:196-211 | a run after which a connected subscriber is not reported, another with its caller id having left |
| `PublicationTasks.Receiver.Recv` | rosrust-async/src/tcpros/publication.rs:261-274 | one receive: the message at the cursor, or the lag and the oldest retained, or nothing yet |
| `PublicationTasks.ListenerTask.OnMessage` | rosrust-async/src/tcpros/publication.rs:146-160 | the latched message becomes the one received; a lag only moves the cursor |
| `PublicationTasks.ListenerTask.OnConnection` | rosrust-async/src/tcpros/publication.rs:180-196 | the new task starts from the latched message, which was sent before its receiver's join |
| `PublicationTasks.PublisherTask` | rosrust-async/src/tcpros/publication.rs:244-279 | the loop writes the latched message first and then every retained message from its position on, each once and in order; `WrittenExact` says at which positions |
| `PublicationTasks.WrittenExact` | rosrust-async/src/tcpros/publication.rs:250-279 | what a task writes are the messages at increasing positions of the log: the latched one first, then exactly those from the receiver's position on among the newest `capacity` |
| `PublicationTasks.ListenerTask.ServeSubscriber` | rosrust-async/src/tcpros/publication.rs:198-212 | a spawned task writes what its receiver still has, and then its subscriber is no longer reported while all others are |
| `PublicationRuns.PublisherTaskIsRun` | rosrust-async/src/tcpros/publication.rs:244-279 | the loop's writes are a run of the machine's steps of that task alone, from where a connection starts |
| `PublicationRuns.WritesInParts` | rosrust-async/src/tcpros/publication.rs:250-264 | a message can be written to the socket in any parts |
| `PublicationRuns.AcceptIsRun` | rosrust-async/src/tcpros/publication.rs:165-213 | a connection that is set up starts, in the machine as in the code, from the latched message and the log's end, is reported, and the listener accepts again |
| `PublicationRuns.RefusalIsRun` | rosrust-async/src/tcpros/publication.rs:171-178 | a connection whose header exchange fails leaves the state as it was, the listener accepting |
| `PublicationRuns.OneAtATime` | rosrust-async/src/tcpros/publication.rs:165-213 | between accepting a connection and the next the listener does nothing but that connection's steps, in order |
| `PublicationRuns.ListenerReceives` | rosrust-async/src/tcpros/publication.rs:146-155 | the machine's latched message changes as the receive branch says: to the message received, and not on a lag |
| `PublicationRuns.EndIsRun` | rosrust-async/src/tcpros/publication.rs:198-212 | a task stopped or failing takes its own id from the report and touches nothing else |
| `PublicationRuns.OnlyStopped` | rosrust-async/src/tcpros/publication.rs:139-178 | in every run the listener has ended if and only if it was stopped, whatever connections failed |
| `PublicationRuns.StoppedBetweenMessages` | rosrust-async/src/tcpros/publication.rs:254-274 | in every run a task that ended has written every message it began, unless a write of its failed |
| `Subscription.OneConnectionPerPublisher` | rosrust-async/src/tcpros/subscription.rs:100-175 | the address set is exactly the addresses of tasks not yet cleaned up, one task each, and an address in it is never dialled |
| `Subscription.InvStep` | rosrust-async/src/tcpros/subscription.rs:177-210 | every step of the actor, the tasks and the handles keeps the invariant over forwarding log, latched frames and handles |
| `Subscription.ForwardedFaithfully` | rosrust-async/src/tcpros/subscription.rs:191-197 | the forwarding log restricted to one connection is exactly the frames received on it, in order |
| `Subscription.YieldedInOrder` | rosrust-async/src/node/actors/subscriber.rs:429-434 | what a handle yields holds no frame twice and keeps each publisher's order |
| `Subscription.LateJoiningHandle` | rosrust-async/src/node/actors/subscriber.rs:266-272 | whatever the interleaving with the tasks, a late handle never yields a frame both as latched and live, without lag misses nothing forwarded since it subscribed, and with lag only what `capacity` newer frames pushed out |
| `Subscription.GonePublisherReplayed` | rosrust-async/src/tcpros/subscription.rs:199-204 | a run in which a handle made after a publisher left is given that publisher's frame |
| `LatchedFrames.StillLatchedExact` | rosrust-async/src/tcpros/subscription.rs:167-204 | over every run, after a publisher's last store its frame is still stored exactly if no other publisher of its caller id stored one since and none whose address is that caller id left since |
| `LatchedFrames.NothingStored` | rosrust-async/src/tcpros/subscription.rs:199-204 | a publisher that stored nothing never has a frame stored |
| `LatchedFrames.GoneReplayedExact` | rosrust-async/src/node/actors/subscriber.rs:266-272 | a late handle's snapshot has a frame of a publisher that has gone exactly if nothing displaced it since its last store |
| `LatchedFrames.NeverDropped` | rosrust-async/src/tcpros/subscription.rs:167-167 | if no address is a caller id, a caller id that has a frame stored has one for good |
| `LatchedFrames.NoneGoneReplayed` | rosrust-async/src/tcpros/subscription.rs:167-167 | if every address is its publisher's caller id, no snapshot has a frame of a publisher that has gone |
| `LatchedFrames.RunningPublisherDropped` | rosrust-async/src/tcpros/subscription.rs:167-167 | a run in which one publisher's exit takes away the latched frame of another that is still connected |
| `LatchedFrames.NewestInSnapshot` | rosrust-async/src/node/actors/subscriber.rs:266-266 | a snapshot has a publisher's newest frame exactly if one of its frames is stored and it is not between sending and storing |
| `LatchedFrames.HandOverExact` | rosrust-async/src/node/actors/subscriber.rs:266-272 | whatever happened before and whatever happens between snapshot and subscription, a publisher's newest frame comes before a late handle's receiver, and is among its latched frames exactly if it was forwarded before the snapshot, by a latching publisher that was not storing then and had stored a frame since anything last displaced one of its |
| `LatchedFrames.LateHandleMissesFrame` | rosrust-async/src/tcpros/subscription.rs:194-204 | a run in which a late handle is given a latching publisher's only frame neither as latched nor live |
| `SubscriptionTasks.Connections.AddPublisher` | rosrust-async/src/tcpros/subscription.rs:100-175 | a connected address is not dialled; another is, once, and added when that succeeds |
| `SubscriptionTasks.Connections.Update` | rosrust-async/src/node/actors/subscriber.rs:331-353 | exactly the announced addresses not yet connected are dialled, each once, and none is dropped |
| `SubscriptionTasks.Connections.SubscriberTask` | rosrust-async/src/tcpros/subscription.rs:177-210 | the loop forwards every complete frame in order and retains the last one of a latching publisher |
| `SubscriptionTasks.FramesInExact` | rosrust-async/src/tcpros/mod.rs:125-136 | a stream made of frames and something incomplete is read as exactly these frames |
| `SubscriptionTasks.StreamIsFrames` | rosrust-async/src/tcpros/mod.rs:125-136 | every stream is its frames, in order, and something incomplete |
| `SubscriptionTasks.Connections.ServePublisher` | rosrust-async/src/tcpros/subscription.rs:150-171 | a spawned task forwards every complete frame, then the publisher's address is free again; stored frames are then those that were stored, a latching publisher's last frame, and none under the address |
| `SubscriptionTasks.Subscriber.RecvRaw` | rosrust-async/src/node/actors/subscriber.rs:429-434 | latched frames first, in order, then the channel, a lag being an error and nothing yet a wait |
| `SubscriptionTasks.Subscriber.Clone` | rosrust-async/src/node/actors/subscriber.rs:437-445 | a clone has the remaining latched frames and a receiver for what is forwarded from now on |
| `SubscriptionRuns.UpdateIsRun` | rosrust-async/src/node/actors/subscriber.rs:331-353 | the machine can visit all announced addresses, foreign ones skipped: exactly those that answer are connected, one task each |
| `SubscriptionRuns.RegisterIsRun` | rosrust-async/src/node/actors/subscriber.rs:294-304 | the same for the publishers there are at the registration, whatever the list repeats |
| `SubscriptionRuns.SubscriberTaskIsRun` | rosrust-async/src/tcpros/subscription.rs:177-210 | any frames that arrive are forwarded in order by the machine's steps of that task, the last one stored if the publisher latches |
| `SubscriptionRuns.ExitIsRun` | rosrust-async/src/tcpros/subscription.rs:167-168 | the machine's exit of a task frees its address and leaves no frame under it, and nothing else changes |
| `SubscriptionRuns.LeftForGood` | rosrust-async/src/tcpros/subscription.rs:150-168 | in every run a task that has ended forwards nothing more |
| `SubscriptionRuns.RecvYields` | rosrust-async/src/node/actors/subscriber.rs:429-434 | one receive adds to what the handle has yielded the next latched frame, or the channel's next, or nothing on a lag |
| `SubscriptionRuns.LateHandleIsRun` | rosrust-async/src/node/actors/subscriber.rs:266-272 | a late handle made without interruption starts with every stored frame and its receiver at the end of the log |
| `SubscriptionRuns.CloneStarts` | rosrust-async/src/node/actors/subscriber.rs:437-445 | a clone starts with what its original has still to yield of its latched frames, and at the end of the log |
| `EndToEnd.HandleYieldsSends` | rosrust-async/src/node/actors/subscriber.rs:429-434 | in every run of both sides, what a handle has yielded from a publisher whose connection wrote frames is that publisher's messages at strictly increasing positions of its send log |
| `EndToEnd.EverythingArrives` | rosrust-async/src/tcpros/publication.rs:244-279 | a handle, early or late, and a connection that wrote frames, both caught up without lag, have passed on at most one latched frame from before the handle and then every message due since; a handle made before all of them has passed on the replayed message and every message sent since the join |
| `EndToEnd.MissingWasPushedOut` | rosrust-async/src/tcpros/publication.rs:261-274 | lag or not, at every handle and in every run, a message replayed to a framed connection or sent since it joined is accounted for: not written or not read yet, pushed out by `capacity` newer ones before the publisher's task came to it, or forwarded - and then yielded, older than the handle's receiver, still before it, or pushed out by `capacity` newer ones |
| `EndToEnd.LostOnlyByLag` | rosrust-async/src/node/actors/subscriber.rs:429-434 | once a framed connection and a handle have caught up, a message sent since the connection joined that was forwarded after the handle and not yielded, or not forwarded, was pushed out at one of the two channels |
| `ParameterCache.CacheCoherence` | rosrust-async/src/node/actors/parameter.rs:169-304 | after every clean run, failing calls included, the last notification in flight for a subscribed name denotes what the server holds, with none in flight its cached value is the server's, and only subscribed names are cached unless a deletion failed |
| `ParameterCache.CachedReadIsServerRead` | rosrust-async/src/node/actors/parameter.rs:169-207 | after a clean run, with nothing in flight for a name and no failed deletion of it left alone, a cached read returns what the server holds |
| `ParameterCache.DrainExact` | rosrust-async/src/node/actors/parameter.rs:278-304 | handling everything in flight leaves a subscribed name cached as its last notification says, an empty struct being checked with the server |
| `ParameterCache.OwnWriteExact` | rosrust-async/src/node/actors/parameter.rs:210-228 | a write that is not notified back survives in the cache exactly if nothing was in flight for the name, or the last notification carried the same value |
| `ParameterCache.ResubscribeExact` | rosrust-async/src/node/actors/parameter.rs:169-207 | a renewed subscription, the name still cached or not, ends coherent exactly if the last old notification leaves what the server holds, or there is none and the old cached value, if any, is the server's |
| `ParameterCache.OrphansExact` | rosrust-async/src/node/actors/parameter.rs:231-246 | in every run, whatever fails, a name is cached without being subscribed or just being deleted exactly if a deletion of it failed while it was cached and it was left alone since |
| `ParameterCache.DeletionExact` | rosrust-async/src/node/actors/parameter.rs:231-246 | a deletion leaves its name cached without a subscription exactly if it was cached and a call fails, and a cached read after it is the server's exactly if all calls succeed or nothing old is cached |
| `ParameterCache.FailedCheckExact` | rosrust-async/src/node/actors/parameter.rs:292-297 | after a failed check the cache ends coherent exactly if a notification still to come sees to it, or there is none and the old value, if any, is the server's |
| `ParameterCache.FailedCheckKeepsValue` | rosrust-async/src/node/actors/parameter.rs:292-292 | a run in which a failed check leaves a deleted parameter cached |
| `ParameterCache.OwnWriteLost` | rosrust-async/src/node/actors/parameter.rs:210-228 | a run in which an own write gives way in the cache to an older one for good |
| `ParameterCache.ResubscribedTooSoon` | rosrust-async/src/node/actors/parameter.rs:169-207 | a run in which a name deleted and read again ends up cached although the server holds nothing |
| `ParameterCache.FailedDeletionReadsStale` | rosrust-async/src/node/actors/parameter.rs:243-244 | a run after which a cached read returns a value the server no longer holds, with nothing in flight |
| `ParameterActor.Actor.GetCachedParam` | rosrust-async/src/node/actors/parameter.rs:169-207 | subscribes first, then serves the cached value or fetches and caches the server's; each failing call has its effect |
| `ParameterActor.Actor.SetParam` | rosrust-async/src/node/actors/parameter.rs:210-228 | a written value is cached only if the name is subscribed; a failed write changes nothing |
| `ParameterActor.Actor.DeleteParam` | rosrust-async/src/node/actors/parameter.rs:231-246 | the subscription is given up first and the cached value last, so that a failing call in between leaves it |
| `ParameterActor.Actor.UpdateCachedParam` | rosrust-async/src/node/actors/parameter.rs:278-304 | an unsubscribed name is ignored, a value is cached, and an empty struct is cached or taken for a deletion as the server answers |
| `ParameterActor.Actor.PostStop` | rosrust-async/src/node/actors/parameter.rs:96-111 | every subscription is given up, each once |
| `ParameterActor.ReadAfterDeletion` | rosrust-async/src/node/actors/parameter.rs:237-244 | a cached name deleted and read again reads as the old value whatever the server holds, unless both of the deletion's calls succeeded |
| `ParameterRuns.GetIsRun` | rosrust-async/src/node/actors/parameter.rs:169-207 | the machine's uninterrupted read subscribes, keeps a cached value, and otherwise caches what the server holds if the call succeeds |
| `ParameterRuns.SetIsRun` | rosrust-async/src/node/actors/parameter.rs:210-228 | its write reaches the server, notifies this node as the server does, and is cached only if the name is subscribed |
| `ParameterRuns.DeleteIsRun` | rosrust-async/src/node/actors/parameter.rs:231-246 | its deletion gives up the subscription in any case and has just the effects that the failing call leaves |
| `ParameterRuns.UpdateIsRun` | rosrust-async/src/node/actors/parameter.rs:278-304 | its handling of a notification caches the value, or what an empty struct means at the server, or nothing if the name is not subscribed or the check fails |
| `ParameterRuns.OneAtATime` | rosrust-async/src/node/actors/parameter.rs:169-207 | while a handler is at work no notification is taken, and a read ends only with a cached value, a fetched one, or a failed call |
| `Rpc.PayloadExact` | rosrust-async/src/tcpros/service/server.rs:243-258 | what the server writes behind the status is one frame exactly if the outcome is well framed, and the client then reads the outcome's meaning from it |
| `Rpc.ReadBodyKeeps` | rosrust-async/src/tcpros/service/client.rs:261-270 | a body that can be read is the whole payload of the callback's outcome on this very request |
| `Rpc.ReadStatusKeeps` | rosrust-async/src/tcpros/service/client.rs:261-261 | a status that can be read is that of the outcome on this request |
| `Rpc.ServeKeeps` | rosrust-async/src/tcpros/service/server.rs:241-243 | the server reads exactly the request of the call in progress |
| `RpcLink.InvStep` | rosrust-async/src/tcpros/service/client.rs:189-253 | with framed requests and outcomes, every step of client and servers, failures included, keeps both ends of each connection in the same exchange |
| `RpcLink.AnswersAreOutcomes` | rosrust-async/src/tcpros/service/client.rs:208-250 | in every run with framed requests and outcomes, whatever fails, calls end in the order they were made, each with no connection, an I/O error, or the callback's outcome on that very request |
| `RpcLink.OutcomesAnswerOnce` | rosrust-async/src/tcpros/service/client.rs:208-250 | in such a run no outcome answers two calls |
| `RpcLink.PersistentAlignment` | rosrust-async/src/tcpros/service/client.rs:240-242 | when requests and outcomes are framed and nothing fails, any number of calls on a persistent link shares one connection, the i-th result is the outcome on the i-th request, and both streams are empty between calls |
| `RpcLink.OneExchangeEach` | rosrust-async/src/tcpros/service/server.rs:262-265 | without persistence, when requests and outcomes are framed and nothing fails, each call has its own connection, exactly one exchange, and both streams empty with the server closed afterwards |
| `RpcLink.ExchangeExact` | rosrust-async/src/tcpros/service/client.rs:255-278 | for any request and any outcome, one exchange on any idle connection in step takes the request whole, answers with the outcome and leaves both streams empty if and only if the request is one whole frame and so is the response |
| `RpcLink.KeptOutOfStep` | rosrust-async/src/tcpros/service/client.rs:240-242 | a run in which a kept connection answers the third call with the second call's outcome before the server has read it |
| `RpcLink.TwoInOne` | rosrust-async/src/node/actors/service.rs:365-369 | a run in which every outcome is framed and nothing fails, a request of two frames is answered twice, and the next call is given the second answer before its own request was read |
| `RpcLink.NeverRecovers` | rosrust-async/src/tcpros/service/client.rs:238-244 | in every run, once a call on a persistent link has ended by the end of the stream or a broken connection, every later call ends with an I/O error |
| `RpcTasks.ReplyReadsBack` | rosrust-async/src/tcpros/service/client.rs:261-270 | a well-framed reply is read as what it means and no further |
| `RpcTasks.ReplyBytes` | rosrust-async/src/tcpros/service/server.rs:243-258 | a success is written as the byte 1 and the response, an error as the byte 0, the text's length and the text |
| `RpcTasks.ReadReplyExact` | rosrust-async/src/tcpros/service/client.rs:261-278 | byte by byte: after 1 a frame is the response, after 0 a frame is the error's text, any other code is invalid and all that is taken, and a stream that ends before is an I/O error |
| `RpcTasks.HandleRpc` | rosrust-async/src/tcpros/service/client.rs:255-278 | the request is written whole, and the answer and the bytes left are those of `ReadReply`, which `ReadReplyExact` spells out |
| `RpcTasks.ServerTask` | rosrust-async/src/tcpros/service/server.rs:228-268 | the loop gives each complete request to the callback and writes its reply, `ReplyBytes` spelling it out, and one only if not persistent |
| `RpcTasks.ServedInOrder` | rosrust-async/src/tcpros/service/server.rs:234-266 | requests arriving back to back are each given to the callback in order and answered back to back; a partial request is given to no one |
| `RpcTasks.ClientTask` | rosrust-async/src/tcpros/service/client.rs:199-252 | the loop takes, makes, uses and keeps connections as the specification of a session says |
| `RpcTasks.KeptSession` | rosrust-async/src/tcpros/service/client.rs:214-245 | replies arriving back to back on a kept connection answer the calls one by one |
| `RpcTasks.OneShotExact` | rosrust-async/src/tcpros/service/client.rs:214-245 | without persistence a call's answer is what its own connection gives, or that there is none |
| `RpcTasks.PersistentExact` | rosrust-async/src/tcpros/service/client.rs:214-245 | with persistence the calls before the first connection fail, and all from it on read the one stream of that connection, whatever the answers |
| `RpcTasks.PersistentSession` | rosrust-async/src/tcpros/service/client.rs:214-245 | a whole persistent session against a server task returns the callback's outcomes on the requests, in order, each answer being written by a server that has been sent no more than the requests up to it |
| `RpcTasks.OneShotSession` | rosrust-async/src/tcpros/service/client.rs:214-245 | without persistence each call returns the outcome from its own connection |
| `RpcTasks.HandleRequest` | rosrust-async/src/tcpros/service/server.rs:168-226 | the request is judged as `VerdictExact` says; a probe and an accepted client are answered with their header, anything else with nothing |
| `RpcTasks.VerdictExact` | rosrust-async/src/tcpros/service/server.rs:179-192 | a request that reads as a client header is served, with its persistence, if and only if its md5 sum and type go with the service's, and otherwise refused for the first that does not; what else reads as a probe is a probe, and the rest is refused |
| `RpcTasks.VerdictOnWire` | rosrust-async/src/tcpros/service/server.rs:168-226 | so every client header sent is judged by its own fields, and every probe sent is answered as a probe |
| `RpcTasks.FromAsyncRead` | rosrust-async/src/tcpros/header/de.rs:79-86 | one frame is taken and decoded, and the rest left |
| `RpcTasks.ConnectToService` | rosrust-async/src/tcpros/service/client.rs:151-187 | the probe comes first; the client's header is written, and the second connection read, if and only if the probe is passed |
| `RpcTasks.ConnectExact` | rosrust-async/src/tcpros/service/client.rs:151-187 | a probe is passed if and only if its response's md5 sum and type go with the service's, and then the connection is that of the server that answers |
| `RpcTasks.HandshakeLeavesNothing` | rosrust-async/src/tcpros/service/client.rs:174-186 | after a handshake on the wire the server serves with the client's persistence and neither stream holds a byte |
| `RpcRuns.ServerTaskIsRun` | rosrust-async/src/tcpros/service/server.rs:228-268 | the server's loop is a run of the machine's steps of that server, with the same bytes written |
| `RpcRuns.CallIsRun` | rosrust-async/src/tcpros/service/client.rs:208-250 | a call on a kept connection is a run of the machine's steps: answered with what is read of what arrives, the rest left, the connection kept if persistent |
| `RpcRuns.NoConnectionIsRun` | rosrust-async/src/tcpros/service/client.rs:218-226 | a call that cannot connect is answered so and leaves no connection |
| `RpcRuns.CutShort` | rosrust-async/src/tcpros/service/server.rs:228-258 | a server stopped while writing a framed reply has written its beginning, and the waiting call ends with an I/O error |
| `RpcRuns.BrokenMidway` | rosrust-async/src/tcpros/service/client.rs:255-260 | a connection can break with any part of a request sent, and the call then ends with an I/O error |
| `Registry.InvStep` | rosrust-async/src/node/actors/publisher.rs:170-304 | every step of handles, guards and handlers keeps entries, guards and posted drops consistent |
| `Registry.CompatibleExact` | rosrust-async/src/tcpros/mod.rs:54-77 | specifications go together if and only if md5 sums, types and, for topics, definitions are each equal or "*" on one side |
| `Registry.GrantsExact` | rosrust-async/src/node/actors/publisher.rs:242-289 | a registration makes exactly one more handle, of the guard then listed, if it is granted - a live compatible entry, or a new endpoint set up and registered - and none otherwise |
| `Registry.HandlesMade` | rosrust-async/src/node/actors/service.rs:410-420 | handles are made only by cloning one, which a service's cannot be, and by registrations that are granted |
| `Registry.UnregisterExact` | rosrust-async/src/node/actors/service.rs:305-308 | a call to unregister makes the master forget a topic, or a service at that very endpoint, and nothing else |
| `Registry.FailedSetUp` | rosrust-async/src/node/actors/service.rs:275-284 | a new endpoint that cannot be set up or registered leaves nothing, but for a service's guard, which then posts its drop |
| `Registry.NothingAfterStop` | rosrust-async/src/node/actors/publisher.rs:97-110 | after the shutdown nothing is handled: registry and master stay as they are |
| `GuardLifecycle.Lifecycles` | rosrust-async/src/node/actors/publisher.rs:230-304 | in every safe run (no unregistering by name, no shutdown, a service's master calls succeeding, no registration overtaking a drop) a live handle's guard is armed and listed, an entry without a live handle has exactly one drop under way, its own guard's, and where there is no entry nothing is under way |
| `GuardLifecycle.ArmedGuardsAreListed` | rosrust-async/src/node/actors/subscriber.rs:448-483 | in every run whatever, an armed publisher, subscriber or service guard with a handle is the registry's; and a posted drop, of any kind, comes from an armed guard without handles, once |
| `GuardLifecycle.DisarmedIsSilent` | rosrust-async/src/node/actors/publisher.rs:372-393 | a guard once disarmed stays so and never posts a drop |
| `RegistryExact.SettledExact` | rosrust-async/src/node/actors/publisher.rs:293-304 | once everything under way is delivered, with nothing but drops in the mailbox, the entries left are those with no drop undelivered |
| `RegistryExact.DeliveredExact` | rosrust-async/src/node/actors/publisher.rs:293-304 | delivering everything, whatever is in the mailbox and whatever fails, leaves a live guard listed exactly if it was listed, no drop for its name was undelivered and no unregistering of it waiting |
| `RegistryExact.ListedExact` | rosrust-async/src/node/actors/publisher.rs:292-304 | in every run of every kind, whatever fails, a guard with handles is listed exactly if since it was made there was no shutdown and no drop or unregistering of its name was handled |
| `RegistryExact.RegistrationExact` | rosrust-async/src/node/actors/publisher.rs:254-261 | in any reachable state, with anything in the mailbox and whatever fails, a registration that is granted is still listed after the delivery of everything under way exactly if no drop for its name was undelivered and no unregistering of it waiting when it was handled |
| `RegistryExact.OldDropKillsNewHandle` | rosrust-async/src/node/actors/publisher.rs:299-301 | for each kind of registry, a run in which every call succeeds and a live handle ends up with no entry and nothing at the master |
| `RegistryExact.AgreementExact` | rosrust-async/src/node/actors/service.rs:259-288 | whatever fails, a step keeps registry and master in agreement exactly if no entry goes without its name being unregistered: a call to unregister it failing, or a service's stale entry being removed with its replacement failing |
| `RegistryExact.FailedReplacementStaysRegistered` | rosrust-async/src/node/actors/service.rs:271-277 | a run after which a service without entry, handle or drop is still registered at the master |
| `RegistryExact.RegistryIsMaster` | rosrust-async/src/node/actors/subscriber.rs:237-328 | after every run without such a step, whatever else fails, the registry holds exactly the names registered at the master |
| `RegistryExact.SafeRunAgrees` | rosrust-async/src/node/actors/service.rs:249-291 | in a safe run a stale entry is never met, so that no such step is taken if the handlers' calls to unregister succeed |
| `RegistryExact.CleanShutdown` | rosrust-async/src/node/actors/publisher.rs:97-110 | `post_stop`, after any run and whether or not its calls succeed, empties the registry and disarms every publisher's, subscriber's or service's guard that still has handles; after a run in which registry and master agree it empties the master's record exactly if its calls succeed or there was nothing registered |
| `RegistryExact.ClientShutdown` | rosrust-async/src/node/actors/service.rs:114-120 | `post_stop`, after any run, empties the registry of clients, and leaves a client that still has handles armed exactly if a drop of its name was handled since it was made |
| `RegistryActors.Registrar.ReleaseHandle` | rosrust-async/src/node/actors/publisher.rs:337-341 | a handle going away is the machine's step, whose runs `GuardLifecycle` is about |
| `RegistryActors.Registrar.RunDestructor` | rosrust-async/src/node/actors/publisher.rs:377-393 | the destructor is the machine's step: it leaves the actor's state alone and puts that guard's drop in the mailbox exactly if the guard is armed |
| `RegistryActors.Registrar.Cleanup` | rosrust-async/src/node/actors/publisher.rs:170-187 | a guard that can be upgraded is disarmed, and the name is unregistered at the master as the kind does it |
| `RegistryActors.Registrar.Share` | rosrust-async/src/node/actors/publisher.rs:242-261 | a live guard is shared if the types are compatible; a stale entry is removed, and cleaned up if it is a topic's |
| `RegistryActors.Registrar.SetUpServer` | rosrust-async/src/node/actors/service.rs:276-290 | a service's guard is made before the master is called, returned and listed if that call succeeds, and dropped armed if it fails |
| `RegistryActors.Registrar.SetUp` | rosrust-async/src/node/actors/publisher.rs:263-289 | a new endpoint is listed with a guard of its own, and a handle returned, if and only if every call succeeded |
| `RegistryActors.Registrar.RegisterName` | rosrust-async/src/node/actors/publisher.rs:230-290 | the whole handler is the machine's registration step; a handle is returned if and only if the registration is granted, and it is the one reference by which the listed guard's count has grown |
| `RegistryActors.Registrar.UnregisterName` | rosrust-async/src/node/actors/service.rs:230-312 | the whole handler is the machine's removal step, for clients without disarming |
| `RegistryActors.Registrar.PostStop` | rosrust-async/src/node/actors/service.rs:103-124 | the shutdown loop is the machine's shutdown step |
| `HashMessage.Hasher.HashMessage` | rosrust-async/src/node/mod.rs:264-283 | if what the message depends on has no cycle, the memoised recursion terminates, returns the hash of the plain recursion (or fails where it fails), keeps every table entry equal to it, and digests each message at most once |
| `HashMessage.Hasher.Digest` | rosrust-async/src/node/mod.rs:277-282 | with its dependencies in the table, a message's own hash is the plain recursion's and is entered once |
| `HashMessage.LookupIsPure` | rosrust-async/src/node/mod.rs:278-278 | what is looked up in a correct table is what would be computed afresh |
| `HashMessage.HashFromDependencies` | rosrust-async/src/node/mod.rs:277-282 | a message's hash is the digest of its text, made from the hashes of its dependencies in their order, and fails only if the text cannot be made |
| `HashMessage.FailedDependency` | rosrust-async/src/node/mod.rs:269-275 | a dependency that fails or has no definition makes the message fail |
| `HashMessage.RankIrrelevant` | rosrust-async/src/node/mod.rs:264-283 | the plain hash does not depend on how the absence of cycles is witnessed |

## Left out

- XML-RPC server, router, master and slave clients: the master is a map with atomic calls.
- Sockets, TCP options, name resolution and URL parsing: connecting succeeds or fails.
- `NodeBuilder`, environment lookup, logging, examples and error-enum conversions: nothing hard to state.
- `Rate`, `SystemState`, `ApiResponse` and the actors' read-only queries: they would add easy members.
- Parameter namespaces: names are flat; a dictionary value is one value.
- Serde's unsupported-type branches, and integer or optional header fields: no header type has them.
- Typed handles: encoding and decoding of messages belongs to rosrust; payloads are frames or arbitrary bytes.
- Memory ordering: the atomic time and the armed flag are read and written in the order of the steps.
- Fairness and time-outs: the state machines are about safety; nothing is said about when a task is scheduled.
- Changing the waker a sleeper is polled with: one task polls each sleeper.
- Cancelling a client's or a clock's task while calls wait: the calls are dropped; only a server's task is stopped midway.
- A reply whose caller has gone away while its registration was handled: the handle returned is taken to be received.
- A subscription's tasks outlive its removal only until their cancellation is seen; that interval is not modelled.
- Malformed definitions beyond a missing dependency: `represent` may fail for any reason, which is not looked into.
- Clock.NoLostWakeUp: needs ticks that do not go back, because the code loses the wake-up otherwise; `Clock.RepollExact` says exactly when.
- EndToEnd.HandleYieldsSends: needs the connection's messages to be frames, which `send_raw` does not check; `Publication.Delivery` says what holds of any bytes, and that framing is exactly what parsing needs.
- EndToEnd.EverythingArrives: needs the connection's messages to be frames, for the same reason, and no lag; `EndToEnd.MissingWasPushedOut` says what holds with lag.
- EndToEnd.MissingWasPushedOut: needs the connection's messages to be frames, for the same reason.
- EndToEnd.LostOnlyByLag: needs the connection's messages to be frames, for the same reason.
- ParameterCache.CacheCoherence: is about clean runs, which need own writes to be notified, or none in flight at the write, fresh subscriptions with no old notification in flight and nothing old cached, and no failed check of an old value; `OwnWriteExact`, `ResubscribeExact`, `DeletionExact` and `FailedCheckExact` say exactly when.
- ParameterCache.CachedReadIsServerRead: is about clean runs, for the same reasons; `OwnWriteLost`, `ResubscribedTooSoon` and `FailedCheckKeepsValue` have runs that are not.
- RpcLink.InvStep: needs framed requests and well-framed outcomes, because `TwoInOne` and `KeptOutOfStep` have runs without; `ExchangeExact` says that framing of both is exactly what an exchange needs.
- RpcLink.AnswersAreOutcomes: needs framed requests and well-framed outcomes, for the same reason.
- RpcLink.OutcomesAnswerOnce: needs framed requests and well-framed outcomes, for the same reason.
- RpcLink.PersistentAlignment: needs framed requests and well-framed outcomes, for the same reason.
- RpcLink.OneExchangeEach: needs framed requests and well-framed outcomes, for the same reason.
- GuardLifecycle.ArmedGuardsAreListed: leaves out the listing of service clients, whose entries are removed without disarming; `RegistryExact.OldDropKillsNewHandle` has a run in which one is armed and not listed.
- GuardLifecycle.Lifecycles: is about safe runs: nobody unregisters by name, there is no shutdown, a service's master calls succeed, and registrations overtake no drop, because the code undoes those; over every run `RegistryExact.RegistrationExact` and `RegistryExact.ListedExact` say exactly when a live handle is listed.
- RegistryExact.RegistryIsMaster: needs that no entry goes without its name being unregistered, because `FailedReplacementStaysRegistered` has a run without; `AgreementExact` says exactly which steps those are.
- RegistryExact.CleanShutdown: needs the same of the run for the master's record to be empty, for the same reason; the registry and the guards need nothing.
