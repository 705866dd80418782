# Verified model of the Odyssey connection pooler

Odyssey sits between PostgreSQL clients and servers and lends server connections to clients, for a session or for one
transaction at a time. This project models the parts of it that decide whether that is safe, and proves what they
promise over every input, every run and every interleaving. It is self-contained: `dafny verify dfyconfig.toml` checks
all of it with Dafny 4.11.

## What is modelled

**Relay** (`Framing`, `Resumable`, `Relay`). The relay cuts a byte stream into protocol messages (PostgreSQL
Frontend/Backend Protocol 3.0, "Message Formats"), hands each to a callback, and queues pointers into its own read
buffer for writing. `Framing` holds a reference that handles whole packets; `Resumable` is the framer that can stop
anywhere; `Relay` is the object with its buffer, cursors, half-read packet and output queue. For every way of cutting the
input into reads, and every interleaving of reads, packet handling, partial writes, attaches and detaches, the bytes
written plus the bytes still queued are what the reference emits, and how much of it is written is what the sockets take.

**Accounting and reset** (`Accounting`, `ServerLink`, `Crossing`, `CrossingRuns`, `CarriedRequests`, `Fleet`, `Reset`).
Each server counts requests and ReadyForQuery replies; what the callbacks do is proved on the bytes of the packets.
`ServerLink` is a machine over the life of one connection:
requests and replies travel in order, clients come and go, and the pooler resets the connection in between. Every request
carries a ticket, so a run shows whose request each delivered reply answers. `Reset` runs `od_reset` as steps of that
machine. `Crossing` says exactly when a reply can reach the wrong client, `CrossingRuns` for which settings it can, and
`CarriedRequests` what a request does that one server counted and another one gets. `Fleet` puts any number of
connections together, with clients that take what they have not written from one to the next. A client may be detached in
the middle of writing a request: the server then has its beginning, takes whatever is written behind it for its end, and
the next server gets the end alone.

**Router** (`AttachProtocol`, `WaitBus`, `Cancel`, `RouteLifetime`, `RuleReferences`, `Lists`, `Pools`). Clients of a
route compete for servers under a lock that attach drops in the middle; a detaching client wakes a queued one over a bus;
a cancel request is matched under the lock and sent later. Rules are counted by the clients that are routed and the routes
that are collected. All are machines over critical sections, for any number of clients and workers. `Lists` and `Pools`
prove the intrusive lists and the pools at the level of pointers.

**Reload** (`Rules`). A new configuration is merged into the live one by mark and sweep, and clients are routed by the
best matching rule.

**SCRAM-SHA-256** (`Attributes`, `Scram`, `ServerFirst`, `ScramRoles`). Both roles of RFC 5802 and RFC 7677, message by
message, with the hash, the keyed hash, the password hash, base64 and SASLprep as parameters. `Scram.Lawful` states all
that is assumed of them. A whole run between a client and a server is a method over the two states, and each role is also
proved against any peer, over the messages as they go over the wire.

**t-digest** (`Centroids`, `TDigest`, `Quantiles`). Latency quantiles over exact reals. The normalizer of the merge
criterion, which the source computes with a logarithm, is an arbitrary function of the total count.

**Online restart and error window** (`Watchdog`, `ErrorWindow`). Processes hand the execution lock on through a control
lock; error counts over a sliding window are kept in a ring of hash tables.

## Where the code does not do what one would expect

Each of these is a theorem with the exact condition, a run or an input that shows the failure, or both.

- If the packet callback answers DETACH for a message that is streamed, the bytes emitted depend on how the stream was
  cut. Cuts cannot be noticed if and only if no such answer exists (`Resumable.SplitsAgreeIff`); the two callbacks of the
  pooler meet that condition (`Accounting.CallbacksIgnoreCuts`).
- The readahead buffer is compacted when at most 8 bytes are unread, because the source takes the size of a size; a packet
  header has 5 bytes.
- The relay loop treats only -1 as a failed reset and puts the server back after a result of 0, unlike the final cleanup.
  A reply can then reach another client if and only if the relay loop gives servers back at all: under transaction pooling,
  for clients that do not replicate, whatever the other settings (`CrossingRuns.DroppedServerLeaksIff`). From a given server
  in the pool it can if and only if something foreign is left behind the deploy's ReadyForQuery and the server is not given
  back before (`Crossing.CrossesIff`).
- A request without a ReadyForQuery of its own, such as a Parse without a Sync, is not counted. Its reply can outlive a reset
  that returned 1 if and only if `pool_discard` is off (`CrossingRuns.ReturnedServerLeaksIff`).
- What a client relay has not written at a detach goes to the next server, which has not counted it. After a reset result of 1
  nothing counted is left (`ServerLink.ReturnedLeavesNothingCounted`); after a result of 0 a counted query can be
  (`CrossingRuns.CountedLeftBehind`), and then replies on the next server can cross although all its resets return 1
  (`Fleet.CarriedAcrossServers`). With `pool_discard` on they can if and only if something counted was brought along
  (`CarriedRequests.CarriedCrossesIff`).
- All together: some run of a route's servers forwards a foreign reply if and only if `pool_discard` is off, or pooling is by
  transaction and the client does not replicate (`Fleet.CrossableIff`); none does when `pool_discard` is on and no server is
  put back but after a result of 1 (`Fleet.FleetKeepsRepliesApart`).
- A client that is detached in the middle of writing a request leaves it cut on the connection. With `pool_discard` on that
  connection never comes back to the pool after a result of 1, because the server takes the pooler's own query for the end of
  the request (`Crossing.TornIsNotReturned`). With it off, the next client's requests end it and its reply can reach that client
  (`CrossingRuns.TornRequestLeaks`).
- A reader of the wait bus whose timeout fires after a writer chose it drops the message, and a client can stay blocked beside
  an idle server. No run does this if and only if waits have no time limit, or nobody ever waits (`WaitBus.NoLostWakeupIff`).
- A close, a failed allocation and a dropped message each take capacity away from the pool without telling anybody, and a client
  can stay blocked beside a pool with room. Over the runs that avoid a set of these kinds of steps it cannot, if and only if the
  set holds all that can occur (`WaitBus.CapacityIsClaimedIff`).
- A cancel request is sent after the locks are dropped. It reaches the client it was matched to if that client keeps the server
  (`Cancel.CancelReachesOwner`); otherwise it can reach another (`Cancel.CancelCanReachAnother`).
- With `client_max` 0 the first client leaves a route without a reference. References cover routes in every run if and
  only if no rule sets a limit below 1 (`RouteLifetime.RefsCoverRoutesIff`).
- References are taken per routed client and dropped per route, so each client admitted to a route that is there leaves one
  behind and the rule is never freed (`RuleReferences.ReferencesCount`, `RuleReferences.SharedRuleStays`).
- A client that is turned away reads its rule after giving up its reference. The rule is still there in every run if and only
  if no rule sets a limit below 2 (`RuleReferences.ReportersHaveRuleIff`).
- An expiry sweep takes one server more than the quota (`Pools.SweepTakes`).
- The rule comparison skips fields such as the server lifetime. A reload gives a client the settings of its new rule if and only
  if the first active rule with its names does not compare equal to it while differing in a skipped field
  (`Rules.ReloadAppliesIff`).
- Common names are compared in one direction only. A change of the admitted names is missed if and only if one is added while
  the lists stay equally long, which needs a repeated name (`Rules.CommonNamesMissIff`).
- The server-first message of SCRAM carries the iteration count if and only if it has three or four digits
  (`ServerFirst.CountDeliveredIff`), the client takes the salt up to its first zero byte (`Scram.WholeSaltIff`), and a zero
  byte ends an attribute as well as a comma, so an accepted client-final text starts with `c=biws,r=` if and only if a
  comma follows the binding (`Scram.RecordedTextIff`).
- A reset of the error counters sets keys to 0 and keeps counts: every code is forgotten except 0. The window's count of code 0
  is right if and only if no code of bucket 0 was stored before the window (`ErrorWindow.ErrorLogger.Aggregated`).

## Model

| member | source | states |
|---|---|---|
| Framing.ReadHeader | third_party/kiwi/kiwi/io.h:181-222 | a header is refused exactly for a length below 4, a type below 0x20, or a length of 640 MB or more on a type that may not be long; an accepted one gives a total of one more than the declared length, at least a header and within a C int |
| Framing.HeaderBytes | third_party/kiwi/kiwi/io.h:140-222 | a header read off its bytes: the four bytes behind the type are a base-256 number, most significant first, and that number and the type byte alone decide whether it is refused, too long for a C int, or a packet of one byte more |
| Framing.WireHeader | third_party/kiwi/kiwi/io.h:140-222 | the header check accepts every message that may be sent, whatever follows it, and finds its length |
| Framing.WireBytes | third_party/kiwi/kiwi/io.h:140-153 | a message is laid out as its type, the base-256 number of its body length plus 4, and its body |
| Framing.OnePacket | sources/relay.h:145-274 | one packet, complete or not: passed and detaching ones are emitted as they are, skipped and refused ones not, and an incomplete one is handled at once unless its type is `S`, `Z` or `E` |
| Framing.FramingRoundTrip | sources/relay.h:204-294 | framing the concatenated wire forms of any messages hands exactly these messages to the callback, in order, and leaves nothing over |
| Framing.Resume | sources/relay.h:204-294 | whole-packet handling of a stream can be resumed: handling a prefix and then its leftover with more bytes equals handling all at once |
| Framing.PacketsStop | sources/relay.h:204-294 | after the packet that stops a run, further bytes change nothing but what is left unread |
| Framing.StopsAreFinalIff | sources/relay.h:145-202 | whole-stream handling is unaffected by bytes behind a stop exactly when no streamed message is answered with a detach |
| Framing.StreamedDetachIsNotFinal | sources/relay.h:182-202 | a callback that detaches on a streamed message emits more when more of the message has arrived |
| Resumable.FeedAgrees | sources/relay.h:204-274 | one call of the framer from any mid-packet state emits and decides what whole-packet handling of all bytes so far does, for each status it can return |
| Resumable.DrainAgrees | sources/relay.h:276-294 | so does the pipeline loop; when it ends without a stop only an incomplete header is left |
| Resumable.DrainWhole | sources/relay.h:276-294 | draining any state over any data equals handling the joined stream at once, if no streamed message is answered with a detach |
| Resumable.ReceiveInStep | sources/relay.h:276-324 | after any sequence of reads the framer's state is that of whole-packet handling of their concatenation |
| Resumable.AnySplit | sources/relay.h:204-294 | for any split of a stream into reads, emitted bytes, callback state and first status other than OK are those of the unsplit stream |
| Resumable.SplitsAgreeIff | sources/relay.h:145-294 | all splits agree if and only if the callback never detaches on a streamed message |
| Resumable.StreamedDetachSplit | sources/relay.h:182-274 | two reads of one streamed message that differ in what they emit |
| Relay.Readahead.Fill | sources/readahead.h:46-81 | bytes read land behind the unread ones and change none in front of them |
| Relay.Readahead.Reuse | sources/readahead.h:83-99 | compaction keeps the unread bytes and moves them to the front exactly when they are at most 8 |
| Relay.QueuedFrame | sources/relay.h:182-202 | what the queue points at depends only on the part of the buffer in front of the write position |
| Relay.Relay.OnPacket | sources/relay.h:181-202 | the callback's verdict decides state, skipping, status and whether the packet's bytes in the buffer are queued |
| Relay.Relay.OnPacketMsg | sources/relay.h:157-179 | the same for a reassembled packet, which the queue owns |
| Relay.Relay.Process | sources/relay.h:204-274 | the object's step on unread bytes is the framer's step on its abstract state, for any buffer contents and half-read packet |
| Relay.Relay.Pipeline | sources/relay.h:276-294 | the loop consumes exactly what the framer consumes and leaves the same history |
| Relay.Relay.Read | sources/relay.h:296-324 | a read appends to the input and to the unread bytes and changes nothing that is queued |
| Relay.Relay.AdvanceQueue | third_party/machinarium/sources/iov.h:99-116 | a partial write removes exactly the written bytes from the front of the queue, also in the middle of an entry, and empties the queue exactly when everything was written |
| Relay.Relay.Write | sources/relay.h:326-345 | writing moves as many bytes as the socket took from the queue to the output, in order, and reports an error only with something queued |
| Relay.Relay.Compact | sources/relay.h:366-388 | with an empty queue compaction changes neither the unread bytes nor what was emitted |
| Relay.Relay.ReadEvent | sources/relay.h:352-365 | a handled read keeps the relay faithful to whole-packet handling of all input; a stop has emitted exactly what the reference emits |
| Relay.Relay.WriteEvent | sources/relay.h:378-399 | a write event emits nothing new, compacts once the queue has run empty, and leaves buffer and cursors alone while something stays queued |
| Relay.Relay.Step | sources/relay.h:347-402 | one turn of the loop, on its own fields: with a destination a read brings as much of the offer as there is room for and leaves no complete header unhandled; on a read as well as on a write-only event the socket gets as much of everything emitted as it takes, and otherwise nothing is written; once the queue is empty the unread bytes, if at most 8, stand at the front of the buffer; it asks for a server exactly when it has input and none is attached, reports a read error exactly on a failed read with room left and a write error exactly on a failed write with something queued; it stays faithful to whole-packet handling and leads where `Turn` says |
| Relay.Relay.Run | sources/relay.h:347-402 | over any mix of read and write-only events of one attachment: no more is written than the sockets take, at least all that waited at the start or all that they take, and everything emitted once they take enough since the last read; bytes written plus bytes queued are what whole-packet handling of the input emits, and the events lead where `Turns` says |
| Relay.NothingStuck | sources/relay.h:347-402 | when offers fit an empty buffer beside an incomplete header and the socket takes what waits, every byte offered over any run is read, everything emitted is written, and the buffer is free again |
| Relay.Relay.AttachTo | sources/relay.h:121-126 | attaching changes neither what is queued nor what is half read |
| Relay.Relay.DetachFrom | sources/relay.h:128-135 | nor does detaching: the queue stays for the next destination, even in the middle of a packet |
| Relay.Relay.Serve | sources/relay.h:121-402 | any number of attachments, each with any events and cut anywhere: each destination gets no more than its socket takes, together they get at least what waited or all that the sockets take, and what they get one after the other plus what is still queued is what whole-packet handling of the input emits |
| Relay.Relay.Flush | sources/relay.h:404-443 | a flush that returns OK while attached has written everything emitted, in order, and left the queue empty; it fails only when a write failed, and until then writes all the socket takes |
| Accounting.CallbacksIgnoreCuts | sources/frontend.c:541-685 | both packet callbacks look at streamed messages only through their type and never detach on one, so cuts of the stream cannot be noticed; what they look at is said byte by byte in `Accounting.ServerBytes` and `Accounting.ClientBytes` |
| Accounting.ServerBytes | sources/frontend.c:541-612 | for every packet of the server, in its bytes: six bytes of type `Z` with length 5 count a reply and end the transaction on `I`, open one on `T` or `E`; `G` and `H` begin a copy, `c` ends it; a `Z` counts down the deploys; refused is exactly an unreadable `S`, hidden everything else while deploys are outstanding, and the server is given back exactly at a `Z` outside a transaction, under transaction pooling without replication |
| Accounting.ClientBytes | sources/frontend.c:638-685 | for every packet of the client: `Q`, `F` and `S` ask for a reply, `c` and `f` end a copy, `X` stops, and nothing else changes |
| Accounting.RequestsAreCounted | third_party/kiwi/kiwi/header.h:12-27 | of all messages of a frontend exactly Query, FunctionCall and Sync are counted |
| Accounting.BytesOf | sources/frontend.c:541-685 | after any packets of both sides the five fields are what their bytes say: requests and replies counted, deploys outstanding, the last status byte and the last word on a copy |
| Accounting.StreamOf | sources/frontend.c:541-612 | for any bytes of a server: they are whole packets and a rest, the fields are what the bytes of these packets say, and the server is given back at the first `Z` behind the deploys after which the last known status is idle, under transaction pooling without replication, and nowhere else |
| Accounting.HistoryOf | sources/frontend.c:541-685 | after any exchange of messages of both sides the five fields are what the whole history says: requests and well-formed ReadyForQuery messages counted, deploys outstanding, and the last word on transaction and copy |
| Accounting.SynchronizedIff | sources/server.h:96-119 | a server that was in balance is so again exactly when the history since has as many counted requests as well-formed ReadyForQuery messages |
| Accounting.VerdictOf | sources/frontend.c:541-612 | a server's message is hidden exactly while fewer ReadyForQuery messages came than deploys were sent, and the server given back exactly at a later ReadyForQuery after which the last known status is idle, under transaction pooling without replication |
| Accounting.DeployHidden | sources/frontend.c:596-612 | over any history the client is forwarded exactly the readable messages behind the deploys' ReadyForQuery messages, in order |
| Accounting.ServerState.Ready | sources/backend.c:107-127 | a well-formed ReadyForQuery counts one reply and a malformed one none; the transaction flag becomes what the message says of it, if anything |
| Accounting.ServerState.RemoteServer | sources/frontend.c:541-612 | the fields stay what the history says, and the verdict is decided by the history: hidden while deploys are outstanding, detach exactly at a ReadyForQuery behind them with the last known status idle |
| Accounting.ServerState.RemoteClient | sources/frontend.c:638-685 | the fields stay what the history says; only Terminate stops |
| ServerLink.EmitKeeps | sources/server.h:96-119 | a reply in the middle of a request keeps the accounting and the ownership of everything still to come |
| ServerLink.FinishKeeps | sources/server.h:96-119 | so does a ReadyForQuery: replies counted plus those still due never exceed requests counted |
| ServerLink.SilentKeeps | sources/server.h:96-119 | so does the end of a request that gets no ReadyForQuery |
| ServerLink.SwallowKeeps | sources/relay.h:128-135 | so does a server that takes a whole request for the end of a cut one: then the counts can never agree again, or nothing counted was lost |
| ServerLink.ClientStepKeeps | sources/frontend.c:638-685 | so do the client's requests, their writing in whole or in part, and its leaving |
| ServerLink.RelayStepKeeps | sources/frontend.c:541-620 | so does handling a reply, whole or in two halves, also when it detaches the client in the middle of writing a request: a delivered reply belongs to the attached client |
| ServerLink.ResetReadKeeps | sources/backend.c:542-598 | so does reading a reply while waiting in a reset |
| ServerLink.ResetAskKeeps | sources/backend.c:600-630 | so do the pooler's own queries, ROLLBACK and DISCARD ALL, which only a synchronized server gets, in this order and when the rule says so |
| ServerLink.ResetDoneKeeps | sources/frontend.c:784-807 | so does the end of a reset and the return or closing of the server |
| ServerLink.AttachKeeps | sources/frontend.c:260-281 | attaching keeps the accounting when no request comes along that an earlier server was to answer |
| ServerLink.AttachOwn | sources/frontend.c:260-281 | attaching after a reset that returned 1, bringing nothing counted along, with a deploy or with nothing foreign under way, leaves the client only its own replies behind the deploy |
| ServerLink.RunKeeps | sources/frontend.c:784-807 | the accounting holds in every state of every run in which no counted request is brought along, whatever the pooler does with a reset's result |
| ServerLink.ReturnedLeavesNothingCounted | sources/reset.c:67-160 | after a reset result of 1 no request is left in the client's relay that this server had counted |
| ServerLink.NoReplyCrosses | sources/frontend.c:260-281 | over every run in which attaches are sound, each reply forwarded answers a request of the client it goes to, in order, and never the deploy query |
| Crossing.AskedEmpties | sources/reset.c:128-158 | a reset that sent a query of its own and returned 1 has read everything the connection still had to deliver |
| Crossing.DiscardKeepsRepliesApart | sources/reset.c:72-160 | with `pool_discard` on, attaching only after a reset result of 1 and with nothing counted brought along is enough for no reply to cross, over every run of a connection, requests cut in the middle included |
| Crossing.TornIsDoomed | sources/frontend.c:784-792 | a client detached in the middle of writing a request leaves a connection that no reset can bring in order |
| Crossing.TornIsNotReturned | sources/reset.c:147-160 | with `pool_discard` on such a connection is not back in the pool with result 1 after any run, because the pooler's query is taken for the end of the request |
| Crossing.RunShaped | sources/frontend.c:784-815 | in every run, whatever is brought along and whatever resets return, a pooled server has no half-read packet and nothing to write |
| Crossing.CrossesIff | sources/frontend.c:541-612 | from any server in the pool, whatever its reset returned, some run delivers a foreign reply to the next client before it lets go, if and only if behind the deploy's ReadyForQuery something is not its own, no idle ReadyForQuery of its own comes before, and no cut request must swallow it |
| Crossing.NewClientCrossesIff | sources/frontend.c:541-612 | for a client with nothing of its own on the connection: only if anything is left on it or, with a deploy, a ReadyForQuery is to come, and always then if no request is cut |
| Crossing.CanCrossIff | sources/frontend.c:260-281 | from a server put back with result 1: only if something foreign is still under way and no deploy precedes, and always then if no request is cut; with a deploy never |
| CrossingRuns.ParseLeft | sources/frontend.c:638-685 | with `pool_discard` off a run from connect to a reset result of 1 that leaves a Parse unanswered on the connection |
| CrossingRuns.TornRequestLeaks | sources/relay.h:128-135 | with `pool_discard` off and under transaction pooling a run from connect to a reset result of 1 that leaves a request cut on the connection, whose reply can cross |
| CrossingRuns.ReturnedServerLeaksIff | sources/reset.c:147-160 | some run ends with a reset result of 1 after which a reply can cross if and only if `pool_discard` is off |
| CrossingRuns.CopyFails | sources/reset.c:26-34 | under transaction pooling a query that starts a copy and fails brings the server back to the pool with result 0, with all that was sent to it or was still to be written |
| CrossingRuns.QueryLeftOnServer | sources/frontend.c:784-807 | a run in which the loop puts the server back with result 0 and the reply to a second query can cross, whatever the settings of cancel, rollback and discard |
| CrossingRuns.DroppedServerLeaksIff | sources/frontend.c:784-807 | some run ends with a server put back after result 0 from which a reply can cross if and only if pooling is by transaction and the client does not replicate |
| CrossingRuns.CountedLeftBehind | sources/relay.h:128-135 | a run that leaves a counted query unwritten in the client's relay when the server is put back with result 0 |
| CarriedRequests.CarriedCrosses | sources/relay.h:128-135 | a counted request brought to an empty server makes some run cross although every later attach is after a result of 1, for every rule and deploy |
| CarriedRequests.RemainsNeverCross | sources/relay.h:128-135 | a client that brings the end of a request along is forwarded nothing at all by an empty server, for every rule |
| CarriedRequests.CarriedCrossesIff | sources/relay.h:128-135 | with `pool_discard` on some such run crosses if and only if something counted was brought along and no end of a request before it |
| Fleet.FleetKeepsRepliesApart | sources/frontend.c:741-815 | for any number of clients and servers, with `pool_discard` on and no server put back but after a result of 1: nothing counted is ever brought along, and every client of every server is forwarded its own replies only, in order |
| Fleet.CrossableIff | sources/frontend.c:784-807 | some run of any number of clients and servers forwards a foreign reply if and only if `pool_discard` is off, or pooling is by transaction and the client does not replicate |
| Fleet.CarriedAcrossServers | sources/relay.h:128-135 | under transaction pooling, whatever the other settings, a run forwards a foreign reply on a server all of whose resets returned 1 |
| Reset.Connection.ReadyWait | sources/backend.c:542-598 | a wait counts one reply if and only if it saw a ReadyForQuery, ends without one only when nothing is left to read, touches nothing else, and is a piece of a run |
| Reset.Connection.Query | sources/backend.c:600-630 | a query that succeeds leaves the server synchronized and outside a transaction, and the run has that query and no other of the pooler; one that cannot be written changes and counts nothing |
| Reset.Connection.Synchronize | sources/reset.c:67-126 | for the outstanding replies, all that is waited for and sent, in order: replies until all are there; or a failed read, with -1; or a timeout, with 0 if cancel is off, and with it on one cancel request, which may fail with -1, and replies again until all are there or a second failure or timeout, with -1 |
| Reset.Connection.Clean | sources/reset.c:129-158 | the pooler's own queries in the run are a beginning of: ROLLBACK if the rule says so and the synchronized server is in a transaction, then DISCARD ALL if the rule says so; all of them and all answered if it succeeds, and otherwise all but the last answered |
| Reset.Connection.OdReset | sources/reset.c:21-165 | for every run of waits: 0 during a copy or in a transaction without rollback, -1 with a half-read packet, in both cases without a step; otherwise the outstanding replies are waited for as `SyncActs` says and then the queries that are due are asked. Result 1 implies that the queries in the run are exactly ROLLBACK if the server, once synchronized, was in a transaction and the rule has rollback on, and DISCARD ALL if it has discard on, in this order and answered; synchronized, no half-read packet, copy flag clear and with rollback on no open transaction. 0 implies a copy, a transaction without rollback, or a timeout with cancel off |
| Reset.Connection.ResetAndReturn | sources/frontend.c:784-807 | the loop puts the server back after 1 and 0, the cleanup only after 1; one put back with 1 is clean, and was sent DISCARD ALL last if the rule has it on |
| AttachProtocol.PairedKeeps | sources/router.c:419-487 | every critical section keeps attached clients and active servers in bijection, the server carrying its client's key |
| AttachProtocol.CreationKeeps | sources/router.c:407-421 | no two clients of one worker are between the capacity check and the insertion |
| AttachProtocol.WithinKeeps | sources/router.c:358-421 | every step keeps servers plus creations in flight within the bound |
| AttachProtocol.WakeupKeeps | sources/router.c:345-405 | every step keeps idle servers covered by messages, signals owed, woken clients and dropped messages while somebody waits |
| AttachProtocol.AttachSafety | sources/router.c:325-487 | over every run with any clients and workers: the bijection, no lost wakeup unless a message was dropped, none dropped when waits have no time limit, and servers plus creations at most pool_size + workers - 1 |
| Cancel.CancelMatchesHolders | sources/router.c:493-535 | in every reachable state, although idle servers keep old keys, a cancel key matches a server if and only if that server is attached to a client holding the key |
| Cancel.CancelReachesOwner | sources/frontend.c:1096-1110 | between match and sending, whatever else runs, the server stays with the client it was matched to if that client neither detaches nor closes it |
| Cancel.CancelCanReachAnother | sources/frontend.c:1096-1110 | from every reachable state with a match, steps lead to the server being attached to another client with another key |
| WaitBus.BoundIsReached | sources/router.c:358-421 | for every pool size and number of workers a run reaches the bound, so no smaller one holds |
| WaitBus.MessageDropped | third_party/machinarium/sources/channel.c:62-109 | from any state with a blocked client and nobody under way, when waits can time out: the holder gives its server back and signals, and the message goes with the reader |
| WaitBus.WakeupLost | third_party/machinarium/sources/channel.c:62-109 | for every pool size, zero included, and every time limit with which anybody can wait, a run after which a client is blocked beside an idle server with nothing under way to wake it |
| WaitBus.NoLostWakeupIff | sources/router.c:397-402 | every run keeps idle servers covered by messages, signals owed and woken clients while somebody is blocked, if and only if `pool_timeout` is 0 or -1, or there is neither a pool size nor a positive `pool_timeout`, so that nobody ever waits |
| WaitBus.CapacityIsClaimed | sources/router.c:345-421 | in runs without closes, failed allocations and dropped messages, while somebody waits the whole pool is in use, being opened, or about to be asked for by somebody who is awake or will be woken |
| WaitBus.CapacityIsClaimedIff | sources/router.c:345-490 | for every positive pool size, over the runs that avoid a set of these kinds of steps: the pool is claimed in all of them if and only if the set holds closes, failed allocations and, when waits can time out, dropped messages |
| WaitBus.CloseLosesWakeup | sources/router.c:464-490 | for every positive pool size a run with a close, and neither of the others, leaves a client waiting although the pool has room and nobody is under way |
| WaitBus.FailedCreationLosesWakeup | sources/router.c:410-413 | the same with a failed allocation alone |
| WaitBus.DropLosesWakeup | third_party/machinarium/sources/channel.c:62-109 | the same with a dropped message alone, when waits can time out |
| RouteLifetime.LocksKeep | sources/router.c:268-307 | one thread holds the router lock, and a route lock belongs to the client being placed there |
| RouteLifetime.CollectLeavesNobody | sources/router.c:175-202 | when a route may be collected it has no server, and nobody stands in it, enters it or is being placed into it |
| RouteLifetime.RefsKeep | sources/rules.c:266-281 | every step keeps a rule's references at least its live routes, one more while a client enters a matched route |
| RouteLifetime.FreedHasNoRoutes | sources/rules.c:617-635 | a step that frees a rule, by merge or by unref, frees an obsolete one and leaves no route of it |
| RouteLifetime.ServersCount | sources/router.c:175-202 | over any run a route has as many servers as were opened in it and not taken away, whether it was collected and made again or not |
| RouteLifetime.RulesKeep | sources/router.c:175-307 | every live route's rule stays alive |
| RouteLifetime.NothingDangles | sources/router.c:175-307 | in every reachable state with limits of at least 1, no thread refers to a freed route, every route's rule is alive, and each unref finds a positive count |
| RouteLifetime.RefsCoverRoutesIff | sources/router.c:268-299 | references cover routes in every run if and only if no rule sets `client_max` below 1 |
| RouteLifetime.ZeroLimitLeavesRoute | sources/router.c:276-299 | with a limit below 1 a run leaves a route without a reference |
| RuleReferences.SurplusAfter | sources/rules.c:266-281 | every step keeps the references that routes and entering clients do not account for, except that admitting a client to a route already there adds one |
| RuleReferences.ReferencesCount | sources/router.c:268-307 | over any run a rule's references are its routes, one while a client enters a route already there, and one for each client ever admitted to one |
| RuleReferences.SharedRuleStays | sources/rules.c:272-281 | once a client was admitted to a route already there, the rule is never freed |
| RuleReferences.LastRouteFreesIff | sources/router.c:175-202 | collecting an obsolete rule's last route frees the rule if and only if there was no such client |
| RuleReferences.ReportersHaveRuleIff | sources/router.c:283-297 | in every run a client that was turned away still finds its rule when it reports the limit, if and only if no rule sets `client_max` below 2 |
| Lists.Link.Init | sources/list.h:18-22 | a ring of one |
| Lists.Link.AppendTo | sources/list.h:24-31 | the ring through all pointers, forwards and backwards, with the link last |
| Lists.Link.PushTo | sources/list.h:40-47 | the same with the link first behind the head |
| Lists.Link.Unlink | sources/list.h:33-38 | the ring closes over the link wherever it stands; alone it stays a ring |
| Pools.Pool.constructor | sources/server_pool.h:22-29 | empty lists, zero counters |
| Pools.Pool.Set | sources/server_pool.h:48-83 | from any state to any other: list lengths equal counters, every member is in the list of its state and in no other; the list it leaves is the old one without it, the list it enters is the old one with it next to the head or at the end, the other lists do not change |
| Pools.Pool.Next | sources/server_pool.h:85-108 | the first member of the state's list, and null exactly when the list is empty |
| Pools.Pool.Tick | sources/router.c:101-133 | one idle server, while the clock has not wrapped around since it was opened: its idle time grows by one exactly when both its age is below the lifetime and its idle time below the limit; otherwise it leaves the pool for the end of the expire list exactly when the count is at most the quota |
| Pools.Pool.Foreach | sources/server_pool.h:110-140 | the loop that unlinks behind its saved next pointer visits every idle server once, keeps those that stay in order and appends the removed ones in order |
| Pools.Pool.Sweep | sources/router.c:135-163 | of all idle servers exactly those within lifetime and idle limit age by one; only those past one of them leave, one that is past and stays does so because the count is above the quota, and at most one more than the quota leave |
| Pools.SweepTakes | sources/router.c:101-133 | the servers taken are the first ones past their limits, as many as the quota leaves room for and one more |
| Pools.SweepBounds | sources/router.c:101-133 | the same for any list of servers, in terms of who is taken and who is kept |
| Pools.SweepKeeps | sources/router.c:101-133 | a sweep loses and duplicates no server |
| Rules.CompareStorage | sources/rules.c:361-421 | true exactly when the storages differ at most in their names and the texts of type and TLS mode |
| Rules.FindName | sources/rules.c:181-193 | true exactly when some name is equal up to case |
| Rules.Compare | sources/rules.c:423-567 | true exactly when the default flags agree and the settings differ at most in the fields listed in `Same` |
| Rules.ForwardedIsBest | sources/rules.c:283-321 | none is chosen exactly when no active rule matches the names; the chosen one names the database if any that matches does, and among those alike in that it names the user if any does |
| Rules.RuleList.Forward | sources/rules.c:283-321 | the loop with four candidates, on names and flags: null exactly when no rule in use matches; the result names the database if any rule that matches does, names the user if any of those alike in the database does, and is the last in the list of those alike in both |
| Rules.RuleList.MatchActive | sources/rules.c:344-359 | null exactly when no rule in use has both names; otherwise the first one in the list that has, whatever its flags |
| Rules.SelectStep | sources/rules.c:590-613 | with distinct keys, rules taken over earlier never change what is reused for a later one, and no live rule is reused twice |
| Rules.RuleList.Select | sources/rules.c:586-613 | a live rule is unmarked exactly when a new rule compares equal to it; the others are appended in order; both counters are exact |
| Rules.RuleList.Sweep | sources/rules.c:615-635 | exactly the obsolete or marked rules become obsolete, exactly the unused ones of these are freed, the rest keeps its order |
| Rules.RuleList.Merge | sources/rules.c:569-638 | rule by rule: an old one stays in use exactly when it is the first in use with the names of a new rule that compares equal, and stays in the list exactly when in use or referred to; a new one comes in, in use, exactly when there is no such old one. Also the order of the list, every flag, what is left of the new list and the return value: new rules plus rules left marked |
| Rules.RuleList.Ref | sources/rules.c:266-270 | a reference is added |
| Rules.RuleList.Unref | sources/rules.c:272-281 | an obsolete rule goes with its last reference, any other stays |
| Rules.RuleList.TurnAway | sources/router.c:280-287 | taking a reference and giving it back keeps the count, and frees an obsolete rule that nobody else refers to |
| Rules.ReloadKeysUnique | sources/rules.c:569-638 | no two active rules share a key after a reload |
| Rules.ReloadKeepsMeaning | sources/rules.c:569-638 | for every database and user, routing on the reloaded rules picks a rule if and only if routing on the new configuration does, with the same key: that very rule, or the old one that compares equal to it |
| Rules.ComparisonSkips | sources/rules.c:423-567 | settings that differ only in the skipped fields, PAM service and storage texts included, compare equal |
| Rules.SameButDifferent | sources/rules.c:423-567 | settings that compare equal are equal exactly when none of the skipped fields differs |
| Rules.LifetimeNotReloaded | sources/rules.c:590-600 | after any reload, clients of a new rule that differs from the first active rule with its names in the lifetime alone are routed by the old one |
| Rules.ReloadAppliesIff | sources/rules.c:569-638 | for every database and user, after any reload the client's settings are those of its new rule if and only if the first active rule with that rule's names does not compare equal to it while differing in a skipped field |
| Rules.SameCommonNamesIff | sources/rules.c:485-497 | the lists compare equal exactly when they are equally long and every name of the first is, up to case, in the second |
| Rules.CommonNamesMissIff | sources/rules.c:485-497 | a change of the admitted names is missed exactly when one is added and the lists stay equally long; then, and only then, the comparison is not symmetric; with names distinct up to case it cannot happen |
| Rules.CommonNamesOneWay | sources/rules.c:485-497 | a repeated name hides a missing one |
| Attributes.ReadNamedIff | sources/attribute.c:46-67 | an attribute is read exactly from a text that begins with its key, an equals sign and its value, ended by the end, a comma or a zero byte |
| Attributes.ReadAnyIff | sources/attribute.c:69-97 | the same for any alphabetic key |
| Attributes.ReadBack | sources/attribute.c:11-67 | a written attribute with more text behind it is read back, value and rest |
| Attributes.ReadAny | sources/attribute.c:69-97 | a successful read leaves strictly less to read |
| Attributes.ReadAfterKey | sources/attribute.c:11-44 | the scanning loop finds the longest value without a separator |
| Attributes.ReadAttribute | sources/attribute.c:46-67 | the reader agrees with the specification on every text and key, failures included |
| Attributes.ReadAnyAttribute | sources/attribute.c:69-97 | so does the reader of any key |
| Attributes.NumberDigits | sources/util.h:49-83 | every number written in decimal is read back whole |
| Attributes.MemToL | sources/util.h:49-83 | spaces, one sign and digits are read; anything else but a space behind them gives 0 |
| Attributes.ToInt | sources/scram.c:272 | the count is taken modulo 2^32 into the range of an int, and unchanged within it |
| Scram.XorTwice | sources/scram.c:344-345 | masking twice with the same bytes is the identity |
| Scram.WholeSaltIff | sources/scram.c:316-321 | the client derives its key from the whole salt if and only if the salt has no zero byte |
| Scram.AcceptedFinal | sources/scram.c:623-710 | for every accepted client-final message the recorded text is exactly the prefix before the proof's separator: binding, nonce, further attributes; the proof decodes from what follows |
| Scram.RecordedTextIff | sources/scram.c:639-664 | the recorded text begins with `c=biws,r=` and the final nonce if and only if a comma ends the binding |
| Scram.FinalReadBack | sources/scram.c:623-710 | a message built from any separators, nonce and proof is accepted with exactly these |
| ServerFirst.CountDeliveredIff | sources/scram.c:732-748 | the client reads nonce, salt and count as sent when the count has three or four digits, rejects the message with fewer, and reads another count with more |
| ServerFirst.ChallengeReadBack | sources/scram.c:217-289 | a server-first message as RFC 5802 writes it, with any count that fits a C int, is read as nonce, salt and count |
| ServerFirst.AcceptedChallenge | sources/scram.c:217-289 | every accepted server-first message is a nonce that begins with the own one, a salt and a positive number, in this order, and nothing else |
| ServerFirst.SameServerFirst | sources/scram.c:732-748 | both sides hold the same server-first text as a C string, for every count |
| ScramRoles.State.InitFromPassword | sources/scram.c:121-168 | 4096 iterations; the stored key is the hash of the keyed hash of `Client Key` under the salted password, the server key that of `Server Key` |
| ScramRoles.State.CreateClientFirst | sources/scram.c:171-214 | the message is the header and the recorded bare message with the encoded nonce |
| ScramRoles.State.ReadClientFirst | sources/scram.c:535-620 | the code for every input, by the beginning of the message, and on success the bare message and its nonce |
| ScramRoles.AcceptedFirst | sources/scram.c:535-620 | an accepted message has no binding and no identity, a name, a printable nonce, and is recorded without its header |
| ScramRoles.ClientFirstAccepted | sources/scram.c:171-620 | the message this client sends is accepted with its nonce |
| ScramRoles.State.CreateServerFirst | sources/scram.c:712-760 | what is kept and what is sent: nonces, salt and the first four digits of the count, with a zero byte and unset bytes behind a shorter one |
| ScramRoles.State.ReadServerFirst | sources/scram.c:217-289 | the challenge is accepted or refused as specified, for every input |
| ScramRoles.State.CalculateProof | sources/scram.c:291-353 | each of the 32 bytes is the client key masked with the signature, under the stored key, of: client-first message without header, comma, server-first message, comma, client-final message without proof |
| ScramRoles.State.CreateClientFinal | sources/scram.c:390-456 | for every input: no message without a challenge, a nonce of more than 455 bytes does not fit, otherwise the final text, the salted password and the message with the encoded proof |
| ScramRoles.State.ReadClientFinal | sources/scram.c:623-710 | the final message is accepted or refused as specified, and only acceptance changes the state |
| ScramRoles.State.VerifyNonce | sources/scram.c:762-782 | true exactly for the client nonce followed by the server nonce |
| ScramRoles.State.VerifyProof | sources/scram.c:784-816 | true exactly when the first 32 bytes, unmasked with the signature of that text under the stored key, hash to the stored key, where a shorter proof is continued by whatever lies behind it |
| ScramRoles.State.CreateServerFinal | sources/scram.c:818-848 | `v=` and the signature of that text under the server key |
| ScramRoles.State.VerifyServerSignature | sources/scram.c:458-532 | true exactly when the message holds the signature of that text under the keyed hash of `Server Key`, and nothing else |
| ScramRoles.ProofAccepted | sources/scram.c:784-816 | the proof made from a key is accepted by whoever stores its hash, for every authentication text |
| ScramRoles.Check | sources/scram.c:762-816 | a final message is answered exactly when its nonce is client nonce then server nonce and its proof, continued if it is short, unmasks to a key whose hash is stored |
| ScramRoles.ClientSide | sources/scram.c:171-532 | this client against any server: its messages, its proof and the signature that it accepts are those of RFC 5802 section 3 over the messages as they went over the wire, the server-first one as a C string |
| ScramRoles.ServerSide | sources/scram.c:535-848 | this server against any client: it answers exactly a final message with the joined nonces and the proof of RFC 5802 section 3 over the messages as they went over the wire, with the signature over them |
| ScramRoles.HonestRun | sources/scram.c:121-848 | a client and a server that share a password always accept each other, with the same authentication text, when the count has three or four digits and the salt has no zero byte; with fewer digits never |
| Centroids.SortSorts | sources/tdigest.c:321-333 | sorting permutes the nodes into ascending means |
| Centroids.CompactTotals | sources/tdigest.c:348-371 | whatever is merged, total count and weighted sum stay exactly the same |
| Centroids.CompactSorts | sources/tdigest.c:348-371 | means stay ascending and counts positive, and at least one node is left |
| Centroids.CompactGroups | sources/tdigest.c:348-371 | compaction cuts the nodes into groups of neighbours, all of them; each result has the count and the weighted sum of its group, is within the size limit `q * (1 - q)` at both of its ends unless it is one node, and would exceed it with the next node |
| TDigest.MergedKeeps | sources/tdigest.c:335-376 | both totals, the order, positive counts, and no more nodes than before |
| TDigest.MergedGroups | sources/tdigest.c:335-376 | so does a merge of the sorted nodes, from the first to the last |
| TDigest.Histogram.CompactStep | sources/tdigest.c:348-371 | one round in place does what one round on sequences does, and touches nothing behind the range |
| TDigest.Histogram.Merge | sources/tdigest.c:335-376 | the array's front holds the compaction of the sorted nodes, nothing is buffered, both totals are kept; without buffered nodes nothing changes |
| TDigest.Histogram.Add | sources/tdigest.c:305-319 | the totals grow by the new node, also when a merge came first; no room is reported only when the merge freed none, never with room before or when merges of a full array free a slot |
| TDigest.Histogram.MergeFrom | sources/tdigest.c:128-137 | the totals of two distinct histograms add up, and the second keeps its own; it stops short only when the array is full of merged nodes, never when all nodes fit or when merges of a full array free a slot |
| TDigest.Histogram.TotalCount | sources/tdigest.c:162-166 | the count of all centroids, merged and buffered |
| TDigest.Histogram.TotalSum | sources/tdigest.c:168-179 | the weighted sum of all centroids |
| Quantiles.ValueMonotone | sources/tdigest.c:223-267 | more counts to the left never give a smaller value, across node borders and flat pieces |
| Quantiles.ValueRange | sources/tdigest.c:223-267 | the value is the least mean at 0, the greatest at the full count, and between them everywhere |
| Quantiles.ValueAtMonotone | sources/tdigest.c:223-267 | the same over quantiles from 0 to 1 |
| Quantiles.ValueAtCentre | sources/tdigest.c:243-246 | half way through the counts of a node the value is its mean |
| Quantiles.ValueOnLine | sources/tdigest.c:247-266 | between half way through one node and half way through the next the value lies on the line between their means |
| Quantiles.ValueAt | sources/tdigest.c:223-267 | no value outside [0, 1] or without nodes; otherwise the interpolated value, also where the loop runs to its end |
| Quantiles.PositionBounds | sources/tdigest.c:181-221 | a position lies between the centres of its neighbours, or of the first and last node with the same mean |
| Quantiles.PositionOfMean | sources/tdigest.c:198-205 | to the left of a mean lie all counts before its nodes and half of theirs |
| Quantiles.PositionOnLine | sources/tdigest.c:211-220 | between two means the position lies on the line between the centres of their nodes |
| Quantiles.PositionOutside | sources/tdigest.c:206-210 | below all means it is 0, above all of them the total count |
| Quantiles.PositionMonotone | sources/tdigest.c:181-221 | a larger value never has fewer counts to its left, even with equal means |
| Quantiles.QuantileMonotone | sources/tdigest.c:181-221 | the quantile is monotone and stays in [0, 1] |
| Quantiles.QuantileOf | sources/tdigest.c:181-221 | the method's scan and its sum over equal means give that quantile |
| Quantiles.RoundTrip | sources/tdigest.c:181-267 | for strictly ascending means and a goal between the first and last centre, position of value is the goal up to 1e-9 |
| Quantiles.QuantileOfValueAt | sources/tdigest.c:181-267 | hence the quantile of the value at q is within 1e-9 divided by the total count of q |
| Watchdog.RunKeeps | sources/watchdog.c:66-100 | in every state of every run, crashes included, each lock is held by exactly the process whose phase says so |
| Watchdog.OneExecutor | sources/watchdog.c:66-100 | for any number of processes at most one executes |
| Watchdog.ExecutingStays | sources/watchdog.c:75-98 | who executes goes on, over any run, until it is refused the control lock or crashes |
| Watchdog.ProbeIsHarmless | sources/watchdog.c:83-96 | trying the control lock when nobody has it brings back the same state |
| Watchdog.RestartSucceeds | sources/watchdog.c:66-100 | from every state in which a process executes and the control lock is free, a process that is started takes over and the other one stops |
| Watchdog.GivesUpToHeir | sources/watchdog.c:83-96 | a process gives up only while another holds the control lock and waits for the execution lock |
| Watchdog.HeirIsNext | sources/watchdog.c:66-98 | without crashes that process is the next to take the execution lock, whatever the others do |
| Watchdog.HandOff | sources/watchdog.c:66-98 | both in one run from the start |
| Watchdog.HeirCanExecute | sources/watchdog.c:75-98 | and it needs no step of anyone else but the release |
| Watchdog.CrashedHeirIsSkipped | sources/watchdog.c:66-98 | if it crashes, another process can be next |
| ErrorWindow.StoredCounts | sources/counter.c:95-119 | counting a code raises its count by one and no other, whatever shares its bucket |
| ErrorWindow.ResetCounts | sources/counter.c:143-184 | after a reset every code but 0 counts 0, although the counts were kept |
| ErrorWindow.ZeroForgottenIff | sources/counter.c:143-156 | code 0 is forgotten exactly when its bucket was empty |
| ErrorWindow.Counter.Inc | sources/counter.c:95-119 | the first item of the code goes up, or a new one is put in front |
| ErrorWindow.Counter.GetCount | sources/counter.c:121-141 | the count of the code's first item, 0 without one |
| ErrorWindow.Counter.ResetAll | sources/counter.c:143-184 | every value in every bucket becomes 0, every count stays |
| ErrorWindow.StoreTracks | sources/err_logger.c:44-49 | a store keeps every slot equal to its interval of the log |
| ErrorWindow.AdvanceTracks | sources/err_logger.h:42-54 | so does an interval change, which reuses the oldest slot |
| ErrorWindow.SumOfSlots | sources/err_logger.h:57-65 | adding the slots in the order of the ring gives the count over the window |
| ErrorWindow.RecentIs | sources/err_logger.h:57-65 | the count over the window is the number of places of the log at which the code was stored with fewer than n interval changes behind them |
| ErrorWindow.ErrorLogger.StoreError | sources/err_logger.c:44-49 | the log grows by the code and the ring keeps tracking it |
| ErrorWindow.ErrorLogger.IncInterval | sources/err_logger.h:42-54 | the log grows by an interval change and the ring keeps tracking it |
| ErrorWindow.EverIff | sources/err_logger.h:42-65 | what the condition below means: a code of bucket 0 was stored in an interval before the window |
| ErrorWindow.AdvanceTracksZero | sources/err_logger.h:42-54 | an interval change keeps, for each slot, whether bucket 0 is used and whether the count of code 0 is that of its interval |
| ErrorWindow.SumOfZero | sources/err_logger.h:57-65 | the slots add up to at least the window's count of code 0, and to that count exactly when no code of bucket 0 was stored before the window |
| ErrorWindow.ErrorLogger.Aggregated | sources/err_logger.h:57-65 | for every history the number of stores with fewer than n interval changes behind them, for every code but 0; for code 0 at least these, and exactly these if and only if no code of bucket 0 was stored before the window |

## Left out

- Relay.Relay.Process: a message whose total length does not fit a C int is given the status `Oversize`; what the source does with the wrapped number is not modelled.
- Relay.Relay.Run: starting and stopping the socket reader and the conditions it waits on are not modelled, only what each event does.
- ServerLink.NoReplyCrosses: asynchronous messages, malformed ReadyForQuery messages and a ROLLBACK that is not answered with status idle are outside the server's behaviour that is assumed. A server in the middle of a cut request takes whole requests for its end, and one that gets bytes it cannot read closes the connection.
- ServerLink.SwallowKeeps: a cut request whose end falls in the middle of a later one is a server that closes the connection.
- Reset.Connection.ReadyWait: a timeout between header and body of a message, and a ParameterStatus that cannot be read, are not modelled.
- Reset.Connection.OdReset: the same holds of the waits in it.
- AttachProtocol.AttachSafety: a coroutine does not give up its worker between the capacity check and the insertion, as in the source; connecting to the server comes after the insertion and is not modelled.
- Cancel.CancelReachesOwner: the dialogue with the server that carries the cancel is not modelled, only which client holds the server then.
- Attributes.MemToL: does not model the overflow of a C long, which the source leaves undefined; the narrowing to int is in `Scram.ChallengeOf`.
- ScramRoles.State.CreateClientFinal: what the source does when nonce and proof do not fit its 512-byte buffer is the outcome `DoesNotFit` and not modelled further.
- TDigest.Histogram.SortNodes: the library sort is a stable insertion; the order of equal means is left open by the source.
- TDigest.Histogram.Add: floating-point rounding and the logarithmic bound on the number of centroids are not modelled, nor are counts that are not positive, which no caller in the pooler passes.
- TDigest.Histogram.MergeFrom: merging a histogram into itself, which no caller in the pooler does, is not modelled.
- ErrorWindow.Counter.Inc: the mutexes, and the wrap-around of a 64-bit counter, are not modelled.
- Pools.Pool.Set: one class stands for both pools, with the number of lists and the end at which members enter as parameters.
- Stored SCRAM verifiers (`od_scram_parse_verifier`), SASLprep, hashing and base64 internals.
- `td_trimmed_mean`, `td_decay`, `td_copy` and `td_reset`.
- Startup, authentication dialogue, TLS, DNS, PAM, the console, logging, statistics and configuration parsing.
- Failures of memory allocation other than of a server object, file-lock errors other than contention, and liveness under unfair scheduling.
