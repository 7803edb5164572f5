# Device command delivery and its neighbours, verified

A Dafny model of the parts of the service that are protocols, codecs and bounded stores, with proofs
about every run, every input and every interleaving. `dafny verify dfyconfig.toml` checks it all.

## What is modelled

**Delivering commands to a device.** `RedisQueue` is the Redis data of one device: the stream with its
consumer group, the entry, terminal-ack and retry keys with their expiry times, and a clock. One write is
one atomic Redis command; a run is any interleaving of writes, so a process that stops halfway or two
handlers at work at once are runs too. `DeviceCommands` has the queue operations as methods of a class.
Every await in them is a point where any other operation may write, unless the object is `exclusive`, which
means that operations do not overlap; each method is proved against interference, with
the writes it makes in their order, and, for `exclusive`, equal to a function. `QueueProperties` proves what these functions promise. `Gateway` and `GatewayLoop` are
the per-connection loop with its in-flight marker and 15 second timeout, the ack handler, and what opening
and closing a connection do. `SendBudget`, `SendsAttained` and `SplitAcks` are about how often a command is sent,
`GatewayRuns` and `Overtaking` about outcomes and the order of sends, `Delivery` and `Draining` about what is
sent when and that everything can be, and `PendingList` about ids that stay pending without a message.
`MockDevice` is the device side with its bounded memory of acks.

**Talking to Redis.** `Resp`, `RespPrinting` and `RespStream` are the reply parser, the command printer and
the data loop of one request, against a printer of the Redis serialization protocol (RESP2: simple strings,
errors, integers, bulk strings, arrays, nulls). `StreamCodec` is the way of a command through XADD and
XREADGROUP.

**Stores and transformations.** `Redact` is the redacting clone of a cyclic object graph; `RateLimit`,
`SlidingLog` and `WeightedCounter` are the two rate limiters; `RunEngine` and `RunProperties` are the manual
run engine, one state per await, with the run store it writes; `DesktopAuth` and `HandoffRuns` are the
one-time sign-in handoff; `Base64` and `Patch` are the two desktop text formats. `Wrappers` and `Counting`
are shared helpers.

## Where the code promises less than one might read into it

- Two ack handlers for one command that overlap can both get it as a terminal outcome: exactly if the second
  reads the ack record before any is written, and the entry before it is deleted or expires (`SecondGetsItIff`,
  `OverlappingAcks`). One after the other they never do (`HandleAcks`).
- An id can stay pending without its message: exactly if the message was deleted while the id was pending and
  the id was not acknowledged since (`GhostInRunIff`). Whole operations never leave one (`PendingIsReadable`). It
  takes a cleanup between whose XACK and XDEL a reader is handed the expired message, and that reader stopping
  before its own acknowledgement (`GhostOfExpired`). As the oldest id it keeps every command behind it from being
  retried (`StuckPendingHead`).
- First sends keep the order of enqueues as long as no live command is put off before its first send
  (`FirstSendsInEnqueueOrder`). A step leaves a live unsent command behind the read cursor, or backing off beyond
  it, in exactly these cases (`CursorStep`): the socket fails at a first send; the connection is gone by the time
  such a command has been read, as the read moves the cursor and the loop returns without sending; a read that an
  old loop left behind takes such a command; a retry is asked for a command that was never sent. A send that fails
  on a repeat, or a final answer to a command that was never sent, does no harm. A command that was put off, lives
  beyond its backoff and has another one next in the queue can be overtaken from every such state
  (`PutOffIsOvertaken`, `FailedFirstSendLosesOrder`, `GoneLosesOrder`, `StaleReadLosesOrder`, `EarlyNackLosesOrder`).
- An old connection that closes late clears the marker of the new one, so one replaced connection can cost two
  sends more than 33 (`SendBound`, `ReplacementsCost`).
- The in-flight marker is cleared before the ack is stored. Each time the loop comes round in between, a command
  can be sent once more than 33 times (`SplitSendBound`, `EarlyClearsCost`).
- A redacted value can still hold source objects: functions, which are returned as they are, and the name, message
  or stack of an error (`ExposesIff`).
- A cancellation that arrives in one of two short phases of a run is overwritten (`CancellationStaysIff`),
  and an approval that arrives before the engine waits is recorded but lost (`EarlyApprovalIsLost`).

## Assumptions

Time is a natural number that does not go back. Command ids are fresh, hashes are collision free and handoff
tokens are never created twice. The sign-in store's clock is positive, since a consumption time of zero counts
as none. Redis calls succeed, except for group creation and XADD, whose refusal is modelled. One enqueue reads
the clock once for both its timestamps. A device's queue has one consumer. JSON is a printer and parser pair of
which only the round trip is used.

## Model

| member | source | states |
|---|---|---|
| RedisQueue.NoQueuedCommandIsLost | apps/api/src/lib/device-commands.ts:143-157 | in every state of every interleaving of the single Redis commands the operations issue, also between the writes of one operation, a command whose entry was written and that has not expired has a visible terminal ack, or is in the stream under a visible entry record that matches it |
| RedisQueue.RunsKeepInv | apps/api/src/lib/device-commands.ts:323-390 | any interleaving keeps the queue invariant, and with it everything a waiting operation relies on: ids are never reused, terminal commands stay terminal, settled ones stay settled |
| RedisQueue.ApplyKeepsInv | apps/api/src/lib/device-commands.ts:143-157 | each single Redis command, issued under the guard the code gives it, keeps the invariant |
| RedisQueue.DiscardableStable | apps/api/src/lib/device-commands.ts:143-157 | what may be acknowledged and deleted from the stream without losing a live command stays so whatever else happens |
| DeviceCommands.CommandQueue.Enqueue | apps/api/src/lib/device-commands.ts:323-390 | under interference: a command reported as queued has been added and then registered, with the fields it was given and a lifetime of fifteen minutes, one reported as not queued is nowhere and nothing was written; alone: exactly XADD, SET entry, cleanup |
| DeviceCommands.CommandQueue.Publish | apps/api/src/lib/device-commands.ts:357-389 | the three writes of an accepted enqueue, in their order |
| DeviceCommands.CommandQueue.DeleteStreamEntry | apps/api/src/lib/device-commands.ts:143-157 | deletes only what is safe to discard, with XACK, XDEL, DEL entry, DEL retry in this order and no other write; afterwards no message has the id, also under interference |
| DeviceCommands.CommandQueue.SetTerminalAck | apps/api/src/lib/device-commands.ts:193-208 | the ack record makes the command terminal, and a registered one settled, at once |
| DeviceCommands.CommandQueue.ScheduleRetry | apps/api/src/lib/device-commands.ts:247-264 | one more attempt than the visible retry record, due after its backoff delay |
| DeviceCommands.BackoffDelays | apps/api/src/lib/device-commands.ts:99-104 | the delays in numbers: 2, 4, 8, 16 and then 30 seconds |
| DeviceCommands.CommandQueue.CleanupMessage | apps/api/src/lib/device-commands.ts:499-519 | a message of a batch read earlier is removed exactly when it is malformed or expired, the terminal ack of an expired one before anything is deleted |
| DeviceCommands.CommandQueue.CleanupBatch | apps/api/src/lib/device-commands.ts:498-519 | a batch goes up to its first live message; removals counted exactly |
| DeviceCommands.CommandQueue.CleanupRound | apps/api/src/lib/device-commands.ts:492-523 | one batch: the removals it makes, message by message, and whether another batch follows |
| DeviceCommands.CommandQueue.CleanupExpired | apps/api/src/lib/device-commands.ts:481-525 | the batched loop ends however many commands others add, and writes nothing but removals, each with its terminal ack first; alone it leaves what the whole cleanup leaves and returns the number of messages removed |
| DeviceCommands.CommandQueue.ReadGroup | apps/api/src/lib/redis.ts:430-450 | what XREADGROUP with 0 or > delivers, and what it does to the group |
| DeviceCommands.CommandQueue.Screen | apps/api/src/lib/device-commands.ts:298-318 | a message that was read is deleted if malformed or expired, also under interference; else it is held back if backed off, or handed out, and nothing is written |
| DeviceCommands.CommandQueue.NextReadable | apps/api/src/lib/device-commands.ts:266-321 | under interference: what is handed out was issued, unchanged, and unexpired when the call began; alone: equals the atomic read |
| DeviceCommands.CommandQueue.Ack | apps/api/src/lib/device-commands.ts:546-588 | under interference: a settled command is never an outcome again, a terminal outcome settles its command with five writes in their order, it is a retry exactly if the device asks for it, and that writes one retry record; alone: equals the atomic ack |
| QueueProperties.CleanupEffect | apps/api/src/lib/device-commands.ts:481-525 | for every stream: the messages before the first live one go, each replaced by a terminal ack and without entry or retry record, and no other key, issue, id or delivery cursor changes |
| QueueProperties.PrefixIsFilter | apps/api/src/lib/device-commands.ts:507-523 | stopping at the first live message is a filter of the whole stream if and only if expiry follows the order of the stream |
| QueueProperties.CleanupIsFilter | apps/api/src/lib/device-commands.ts:481-525 | the batched cleanup leaves exactly the unexpired commands in their order, if and only if no expired one is queued behind a live one |
| QueueProperties.RemoveKeepsInv | apps/api/src/lib/device-commands.ts:500-518 | removing an expired or malformed message keeps the invariant |
| QueueProperties.AckComesTo | apps/api/src/lib/device-commands.ts:546-588 | in every state an ack of a command with an entry and no ack record is a retry if and only if it is negative and says that it may be retried, or says nothing and gives one of six error codes; else it ends the command; without an entry it is ignored, after an ack record it changes nothing |
| QueueProperties.AckLeaves | apps/api/src/lib/device-commands.ts:571-588 | in numbers what it leaves: the retry record with its attempt, time and lifetime, or the ack record with what the device said for a day, and neither entry, retry record, message nor pending id |
| QueueProperties.HandleAcks | apps/api/src/lib/ws-handler.ts:1269-1311 | ack handlers that follow one another, with any interference before, between and during them, hand no command out twice as a terminal outcome |
| QueueProperties.SecondGetsItIff | apps/api/src/lib/device-commands.ts:555-587 | when a second handler of one command makes its two reads in any two later states of a run, whatever is written by anyone and however much time goes by, it finds the command too if and only if no ack record was written before its first read and the entry was neither deleted nor expired before its second |
| QueueProperties.OverlappingAcks | apps/api/src/lib/device-commands.ts:565-587 | two handlers that found the command both complete, however their five writes each are merged with each other and with the writes of anyone else |
| QueueProperties.SecondCanGetIt | apps/api/src/lib/device-commands.ts:555-587 | and from every state with an unanswered command that can happen: the second reads the entry after up to three of the first one's writes, and both complete |
| PendingList.GhostAfter | apps/api/src/lib/device-commands.ts:149-151 | how each Redis command makes or ends a pending id without a message: deleting a pending message makes one, acknowledging the id ends it, nothing else matters |
| PendingList.GhostFreeKeptIff | apps/api/src/lib/device-commands.ts:149-151 | a command leaves the pending list free of such ids if and only if it is not the deletion of a pending message |
| PendingList.GhostInRunIff | apps/api/src/lib/device-commands.ts:143-157 | after any interleaving an id is pending without its message if and only if the message was deleted while the id was pending and the id has not been acknowledged since |
| PendingList.StepGhostFree | apps/api/src/lib/ws-handler.ts:353-452 | no whole operation leaves such an id behind: XACK comes before XDEL |
| PendingList.PendingIsReadable | apps/api/src/lib/device-commands.ts:284-298 | so after any run of whole operations every pending id has its message, and the list can be read whenever it is not empty |
| PendingList.GhostOfExpired | apps/api/src/lib/device-commands.ts:302-305 | an interleaving that leaves one: a reader is handed an expired message between the XACK and the XDEL of a cleanup, and stops before the acknowledgement it would make on finding it expired, which would end it |
| PendingList.StuckPendingHead | apps/api/src/lib/device-commands.ts:284-298 | from then on reading the pending list yields nothing while a live pending command stands behind the head |
| Gateway.CleanupQuiet | apps/api/src/lib/device-commands.ts:481-525 | with whole operations a cleanup leaves exactly the live commands in order, and changes nothing of a live one |
| Gateway.ReadQuiet | apps/api/src/lib/device-commands.ts:266-321 | whatever is read is live, is the command that was issued, and is due; no live command changes |
| Gateway.NextQuiet | apps/api/src/lib/ws-handler.ts:387-401 | pending first, then new: the same of the two reads together |
| Gateway.AckQuiet | apps/api/src/lib/device-commands.ts:546-588 | an ack gives a terminal outcome only for a command that has an entry, after which it is neither queued nor registered; else it schedules its retry or changes nothing; every other live command is untouched |
| Gateway.PublishQuiet | apps/api/src/lib/device-commands.ts:323-390 | an enqueue adds the one command with a later id and touches no live command |
| SendBudget.RoomFor33 | apps/api/src/lib/device-commands.ts:99-104 | the backoff delays leave room for the n-th send inside the 15 minute lifetime if and only if n is at most 33 |
| SendBudget.SendBound | apps/api/src/lib/ws-handler.ts:368-452 | in every run, from any quiet queue, a command is sent at most 33 times plus once for every connection that opens and once for every one that closes, in turn or late |
| SendBudget.UninterruptedSendBound | apps/api/src/lib/ws-handler.ts:368-438 | while no connection opens or closes a command is sent at most 33 times |
| SplitAcks.SplitSendBound | apps/api/src/lib/ws-handler.ts:1269-1278 | with the two halves of each ack handler, clearing the marker and storing the ack, anywhere between the iterations of the loop, the bound grows by one for each marker cleared ahead of its ack, besides connections that open or close |
| SplitAcks.HalvesAreWhole | apps/api/src/lib/ws-handler.ts:1269-1278 | the two halves, one right after the other, are the whole handler |
| SplitAcks.EarlyClearsCost | apps/api/src/lib/ws-handler.ts:1272-1278 | for every k a run with k such clears and no lost connection in which one command is sent 33 + k times: each of them can cost one send more |
| SendsAttained.SendBoundIsTight | apps/api/src/lib/ws-handler.ts:368-438 | a run in which one command is sent exactly 33 times, so the bound cannot be lowered |
| SendsAttained.ReplacementsCost | apps/api/src/lib/ws-handler.ts:353-452 | for every k a run in which k connections are replaced, each old one closing after the new one has sent, and one command is sent 33 + 2k times: the bound is attained |
| SendBudget.StepKeeps | apps/api/src/lib/ws-handler.ts:353-452 | the budget is kept by every step: enqueue, loop iteration with its ack timeout, a send that is taken, fails, or is dropped since the connection is gone, a read left behind by an old loop, ack or nack, a connection that opens, closes or closes late, passing time |
| SendBudget.ReachableIsQuiet | apps/api/src/lib/device-commands.ts:323-390 | every queue that whole operations lead to satisfies the invariant the bounds start from |
| GatewayRuns.OneInFlight | apps/api/src/lib/ws-handler.ts:370-385 | between any two sends of any run the first was acked, a connection opened or closed, or 15 seconds passed |
| GatewayRuns.AtMostOneOutcome | apps/api/src/lib/ws-handler.ts:1269-1311 | with atomic acks the terminal outcome of a command is applied at most once in any run of duplicates, late acks, nacks and expirations |
| GatewayRuns.OutcomeIff | apps/api/src/lib/ws-handler.ts:1269-1311 | an ack is followed by an outcome if and only if it finds the command registered and unanswered and does not ask for it again |
| GatewayRuns.CursorStep | apps/api/src/lib/ws-handler.ts:353-452 | first sends so far in order, and no live command left unsent behind the read cursor or backing off beyond it: a step keeps this if and only if it is not a first send that fails or finds its connection gone, not a read of an old loop that takes a command nobody was sent, and not a retry asked for a live command that was never sent |
| GatewayRuns.FirstSendsInEnqueueOrder | apps/api/src/lib/ws-handler.ts:387-438 | as long as no step is one of these, first sends follow the order of enqueues, across connections that open and close between reads, failing repeats and whatever else is retried or overtaken |
| Overtaking.PutOffIsOvertaken | apps/api/src/lib/ws-handler.ts:393-438 | from every node in which a command was put off before its first send, but lives beyond its backoff, and another one is next, there is a way on in which that one is first sent before it |
| Overtaking.FailedFirstSendLosesOrder | apps/api/src/lib/ws-handler.ts:412-423 | so wherever the socket fails at such a first send the order can be lost |
| Overtaking.EarlyNackLosesOrder | apps/api/src/lib/device-commands.ts:571-579 | and likewise wherever a retry is asked for the next command before it was sent |
| Overtaking.GoneLosesOrder | apps/api/src/lib/ws-handler.ts:387-410 | and wherever the connection is gone by the time a command that was never sent has been read, if one is pending before it and one queued behind it |
| Overtaking.StaleReadLosesOrder | apps/api/src/lib/ws-handler.ts:387-410 | and wherever a read that an old loop left behind takes such a command while the oldest pending one is not due |
| Overtaking.ClosedReadOvertakes | apps/api/src/lib/ws-handler.ts:408-410 | a run from the empty queue without a failed send, and without a nack of anything unsent, in which a connection that closes during a read loses the order |
| Overtaking.EarlyNackOvertakes | apps/api/src/lib/device-commands.ts:571-579 | a run from the empty queue in which that happens |
| SendsAttained.FirstSendOvertaken | apps/api/src/lib/ws-handler.ts:412-423 | a run from the empty queue in which a failed first send is overtaken |
| Delivery.SendsIff | apps/api/src/lib/ws-handler.ts:370-405 | an iteration sends if and only if nothing younger than the timeout is in flight and the oldest pending command, or else the next new one, is due |
| Delivery.RepeatsComeFromTheHead | apps/api/src/lib/device-commands.ts:284-292 | in every run a command is sent again only while it is the oldest pending one, so behind a live head that is backing off nothing else is retried |
| Delivery.NothingSentUnconnected | apps/api/src/lib/ws-handler.ts:405-423 | from every node: after a connection closes, fails at a send, or is gone after a read, nothing is sent until one opens again, whatever happens meanwhile |
| Delivery.SentAsPublished | apps/api/src/lib/device-commands.ts:323-355 | in every run what an iteration sends is, field by field, what was published under that id, at the time of its publication and less than fifteen minutes ago |
| Delivery.AckedAsPublished | apps/api/src/lib/device-commands.ts:555-587 | and so is the command that an ack gives as its outcome, final or to be retried |
| Draining.StepTidy | apps/api/src/lib/device-commands.ts:284-292 | the pending list is in the order of the stream and holds every message behind the read cursor: every step keeps this |
| Draining.Drain | apps/api/src/lib/ws-handler.ts:368-438 | from every such node with a connection and nothing in flight, iterations, positive acks and waiting for the backoff of the oldest command empty the queue, and every command that is due before it expires is sent on the way |
| Draining.EveryQueueDrains | apps/api/src/lib/ws-handler.ts:353-438 | so whatever has happened to a queue, failed sends, nacks, lost reads and closed connections included, this can be done as soon as the device connects again |
| GatewayLoop.DeviceGateway.Iterate | apps/api/src/lib/ws-handler.ts:368-438 | one iteration of the loop is the Loop step of the model, with the return between read and send when the connection is gone |
| GatewayLoop.DeviceGateway.Drive | apps/api/src/lib/ws-handler.ts:368-443 | the loop, with any publications, acks, connections that open, close or close late, reads that old loops left behind and passing time between its iterations, and connections that go during them, is the run of those steps |
| GatewayLoop.DeviceGateway.Handle | apps/api/src/lib/ws-handler.ts:353-452 | each of those other handlers is its step |
| GatewayLoop.DeviceGateway.OnAck | apps/api/src/lib/ws-handler.ts:1269-1296 | the ack handler is the Arrive step, and returns the outcome of the ack |
| GatewayLoop.DeviceGateway.ClearInFlight | apps/api/src/lib/ws-handler.ts:202-211 | the marker is cleared only for the command it is about |
| GatewayLoop.DeviceGateway.Open | apps/api/src/lib/ws-handler.ts:362-364 | a new connection starts a loop and clears the marker |
| GatewayLoop.DeviceGateway.Shut | apps/api/src/lib/ws-handler.ts:446-452 | the socket of the current loop that closes ends the loop; any socket that closes clears the marker, also that of a newer connection |
| GatewayLoop.DeviceGateway.FinishStaleRead | apps/api/src/lib/ws-handler.ts:387-410 | a read that comes back to a loop that is no longer current moves the cursor and sends nothing |
| Resp.ParseRespValue | apps/api/src/lib/redis.ts:110-176 | the recursive parser with its advancing offset computes the reply at the offset |
| Resp.ParseStable | apps/api/src/lib/redis.ts:110-176 | a value or an error never changes when the buffer is extended; only "incomplete" can |
| Resp.FindBreak | apps/api/src/lib/redis.ts:98-108 | the first CRLF at or after the offset, or none anywhere |
| RespPrinting.ReplyParses | apps/api/src/lib/redis.ts:110-176 | parsing a printed reply of any nesting, wherever it stands and whatever follows, fails with the first error printed in it at any depth, or else yields its value and the offset just behind it |
| RespPrinting.PrintParses | apps/api/src/lib/redis.ts:110-176 | so a reply without errors is read back whole |
| RespPrinting.CutIsIncomplete | apps/api/src/lib/redis.ts:96-113 | every strict prefix of a printed reply, up to its first error, is incomplete, never an error or a value |
| RespPrinting.DecimalParses | apps/api/src/lib/redis.ts:130-135 | a printed integer, negative ones too, is read back |
| RespPrinting.LineNumber | apps/api/src/lib/redis.ts:130-147 | how any line is read as a number: blanks, at most one sign, digits, whatever follows; none without digits |
| RespPrinting.OddReplies | apps/api/src/lib/redis.ts:110-176 | an unknown prefix fails at once with its character, an integer without digits is no number, an array without a length or with a negative one is empty |
| RespPrinting.ValueParses | apps/api/src/lib/redis.ts:110-176 | every value of any nesting is read back from what is printed for it |
| RespPrinting.EncodeCommand | apps/api/src/lib/redis.ts:88-94 | the command loop emits what the protocol prints for an array of bulk strings |
| RespPrinting.CommandRoundTrip | apps/api/src/lib/redis.ts:88-94 | parsing an encoded command followed by anything gives back its parts and the exact end, also with empty parts and parts that hold line breaks |
| RespStream.Request.OnData | apps/api/src/lib/redis.ts:224-245 | after each chunk the request is settled exactly as the whole text received so far settles it |
| RespStream.Receive | apps/api/src/lib/redis.ts:203-245 | chunk independence: the outcome depends on the text alone, not on how it was cut |
| RespStream.DrainStable | apps/api/src/lib/redis.ts:227-244 | once the text settles a request, later text does not change how |
| RespStream.WholeRepliesResolve | apps/api/src/lib/redis.ts:227-236 | k whole replies without errors resolve a request that waits for k to the value of the last |
| RespStream.CutRepliesWait | apps/api/src/lib/redis.ts:237-240 | any strict prefix of them, or of what is printed up to the first error, leaves it waiting |
| RespStream.ErrorReplyRejects | apps/api/src/lib/redis.ts:123-126 | the first error among the replies due, also one nested in an array, rejects it with its message, whatever follows |
| RespStream.SettledExactlyAtTheEnd | apps/api/src/lib/redis.ts:203-245 | a request is settled exactly when the text has come through the first error or else the last character: rejected with that error, or resolved to the k-th reply, and never before |
| StreamCodec.ParseStreamFields | apps/api/src/lib/redis.ts:273-290 | alternating keys and values become a map, later pairs winning and a key `__proto__` ignored; anything else is no fields |
| StreamCodec.ParseStreamMessages | apps/api/src/lib/redis.ts:292-315 | the well-formed entries, in order, the others passed over |
| StreamCodec.ParseXreadgroupResponse | apps/api/src/lib/redis.ts:317-346 | the streams of a reply, or nothing if there is none |
| StreamCodec.FieldMapSays | apps/api/src/lib/redis.ts:279-287 | the map of the fields holds the last value of every key, and nothing else |
| StreamCodec.MessagesInOrder | apps/api/src/lib/redis.ts:292-315 | any number of entries, from the text of the reply: each with its id and fields, in their order |
| StreamCodec.PassedOverIff | apps/api/src/lib/redis.ts:298-309 | an entry is passed over, wherever it stands, if and only if it is no list of an id and an even number of texts |
| StreamCodec.StreamsInOrder | apps/api/src/lib/redis.ts:317-346 | and any number of streams, each under its name |
| StreamCodec.OneRead | apps/api/src/lib/redis.ts:323-343 | what has no name is no stream, and a stream without a list of entries has no messages |
| StreamCodec.ParsedIff | apps/api/src/lib/device-commands.ts:106-137 | a message is a command if and only if its id, type and payload are there, both times begin like numbers and the payload is the JSON of an object; and it is made of just these |
| StreamCodec.CommandsSurviveStream | apps/api/src/lib/device-commands.ts:106-137 | any number of commands, flattened to XADD fields and returned nested in an XREADGROUP reply, are parsed from its bytes to the same stream ids and commands in their order, each if and only if its id and type are not empty |
| Redact.Redacting | apps/api/src/lib/redact.ts:72-74 | redaction ends on every graph, cyclic or not, and its clones are a faithful image: one clone per object, each field the image of what the source holds, nothing visited that is not followed |
| Redact.Redactor.RedactValue | apps/api/src/lib/redact.ts:14-70 | a value is mapped to its image; clones made before stay as they are and those made on the way are complete |
| Redact.Redactor.BuildClone | apps/api/src/lib/redact.ts:32-69 | the clone is recorded before its parts are visited and ends as the image of its object |
| Redact.Redactor.FillFields | apps/api/src/lib/redact.ts:63-67 | own keys in order, the marker under sensitive ones |
| Redact.Redactor.FillArray | apps/api/src/lib/redact.ts:51-58 | array entries in order |
| Redact.ClonedIffReachable | apps/api/src/lib/redact.ts:14-70 | an object has a clone if and only if a path from the root reaches it without passing a sensitive key |
| Redact.SameImageSameObject | apps/api/src/lib/redact.ts:27-30 | sharing and cycles are kept: two cloned values have the same image if and only if they are the same object |
| Redact.SensitiveIff | apps/api/src/lib/redact.ts:1-12 | a key is sensitive if and only if, in any mixture of cases, it is one of four header names or has token, secret, password or key at some index |
| Redact.EdgesOfRecord | apps/api/src/lib/redact.ts:59-70 | the clone of a record has the same keys: under every sensitive one only the marker, under every other one the primitive itself, the size of a buffer, the date or function, or the clone of the object |
| Redact.EdgesOfError | apps/api/src/lib/redact.ts:32-49 | the clone of an error has its name, message and stack unchanged where no own key replaces them, and its own keys like those of a record |
| Redact.EdgesOfArray | apps/api/src/lib/redact.ts:51-58 | the clone of an array has as many entries, each for the one at its place |
| Redact.ExposesIff | apps/api/src/lib/redact.ts:14-56 | the result or a clone holds a source object other than a date if and only if the value or a value followed from a reached object is a function, or a reached error has such an object as its name, message or stack that no own key replaces |
| RateLimit.RateLimiter.ConsumeMemory | apps/api/src/lib/ratelimit.ts:28-54 | one request against the log of its key; other keys untouched |
| RateLimit.RateLimiter.Consume | apps/api/src/lib/ratelimit.ts:60-106 | one request on either backend: both counters or the log, and the verdict, for every limit |
| RateLimit.ConsumedKeeps | apps/api/src/lib/ratelimit.ts:28-54 | a request leaves in the log of its key what is recent of it, if it was for the same window, and itself if it is allowed |
| RateLimit.RateLimiter.KeyCount | apps/api/src/lib/ratelimit.ts:108-122 | deleting while looping leaves exactly the keys with a timestamp whose window covers now, each with just these timestamps, and counts them |
| SlidingLog.LogIsExact | apps/api/src/lib/ratelimit.ts:24-54 | after any calls for any keys, what is kept for a key is, once pruned, exactly its grants that are still in the window |
| SlidingLog.AllowedIff | apps/api/src/lib/ratelimit.ts:37-53 | a request is allowed if and only if fewer than limit grants are less than windowMs ago, and `remaining` is the room left |
| SlidingLog.OtherWindowStartsOver | apps/api/src/lib/ratelimit.ts:31-54 | a request with another window length is answered, and remembered, as the first of its key |
| SlidingLog.RetryAfterMissingIff | apps/api/src/lib/ratelimit.ts:36-53 | Retry-After is zero if and only if the request is allowed, and computed from a missing timestamp if and only if the limit is below one |
| SlidingLog.SlidingWindow | apps/api/src/lib/ratelimit.ts:28-54 | no half-open interval of the window's length holds more than limit grants |
| SlidingLog.RetryAfterIsExact | apps/api/src/lib/ratelimit.ts:37-43 | if nothing else is granted meanwhile, the key is served at every time retryAfter seconds later, and not yet one second before that |
| WeightedCounter.TtlCovers | apps/api/src/lib/ratelimit.ts:82-83 | the time to live lasts to the end of the next bucket, and no second longer than that |
| WeightedCounter.OnlyItsBucket | apps/api/src/lib/ratelimit.ts:74-84 | a request counts in its own bucket and nowhere else, and the first one of a bucket sets the expiry that stays |
| WeightedCounter.RunIsFaithful | apps/api/src/lib/ratelimit.ts:71-88 | after any requests the counters of this bucket and the one before count all requests made in them |
| WeightedCounter.AllowedIff | apps/api/src/lib/ratelimit.ts:76-104 | a request is allowed if and only if the weighted number of requests so far, denied ones and itself included, is within the limit; `remaining` is exactly how many more would be |
| WeightedCounter.BucketBound | apps/api/src/lib/ratelimit.ts:86-98 | a bucket allows at most limit, and fewer when the bucket before it allowed any |
| WeightedCounter.AllowedFits | apps/api/src/lib/ratelimit.ts:86-104 | at every allowed request with its own elapsed time e, w * B + A * (w - e) <= limit * w for the A allowed in the bucket before and the B in this one |
| WeightedCounter.IntervalBound | apps/api/src/lib/ratelimit.ts:71-105 | fewer than twice the limit are allowed in any interval of the window's length |
| WeightedCounter.IntervalBoundIsTight | apps/api/src/lib/ratelimit.ts:71-105 | for every window of at least 2 * limit milliseconds, requests of which 2 * limit - 1 are allowed in an interval of its length |
| WeightedCounter.RetryAfterReachesNextBucket | apps/api/src/lib/ratelimit.ts:92-98 | Retry-After is the least whole number of seconds that reaches the next bucket |
| RunEngine.ManualRun.Resume | apps/api/src/engine/runEngine.ts:118-262 | the engine between two awaits, from every await |
| RunEngine.ManualRun.NextStep | apps/api/src/engine/runEngine.ts:234-240 | the loop over the steps up to the next await |
| RunEngine.ManualRun.Worked | apps/api/src/engine/runEngine.ts:143-205 | the approval step stores the pending approval, then the run status, then the blocked step; other steps end their work, unless stopped |
| RunEngine.ManualRun.HandleApproval | apps/api/src/engine/runEngine.ts:279-289 | records the decision if there is a pending approval, and resolves a wait if there is one |
| RunEngine.ManualRun.ApprovalRejected | apps/api/src/lib/ws-handler.ts:330-346 | a refused approval request is a denial, through the engine while it is registered |
| RunEngine.ManualRun.ApprovalTimeout | apps/api/src/engine/runEngine.ts:108-114 | the timer denies the wait it was set for |
| RunEngine.ManualRun.Stop | apps/api/src/engine/runEngine.ts:270-277 | marks the engine as stopped and denies its wait |
| RunEngine.ManualRun.Cancel | apps/api/src/store/runs.ts:197-218 | only queued, running or waiting runs are canceled, and a registered engine is stopped |
| RunProperties.StepsInOrder | apps/api/src/engine/runEngine.ts:118-262 | in every interleaving the steps are done, then at most one in progress, blocked or failed, then untouched; a run stored as done has all steps done and keeps that status, one stored as failed failed at the approval |
| RunProperties.StatusesStored | apps/api/src/engine/runEngine.ts:143-189 | in every interleaving: while the request is sent and the engine waits, the third step is blocked and the run, unless stopped, waits for the user; the engine stores running, waiting for the user and one outcome, in this order and nothing else |
| RunProperties.DoneWasApproved | apps/api/src/engine/runEngine.ts:180-189 | a run is stored as done only after an approval arrived while the engine waited for it |
| RunProperties.StoppedStoresNoOutcome | apps/api/src/engine/runEngine.ts:242-259 | once stopped the engine never stores done or failed |
| RunProperties.CancellationStaysIff | apps/api/src/engine/runEngine.ts:143-163 | a cancellation is final if and only if it does not come while the run details are sent or the approval request is prepared |
| RunProperties.DecisionCountsIffWaiting | apps/api/src/engine/runEngine.ts:279-289 | a decision moves the engine if and only if it is waiting; else it is only recorded |
| RunProperties.OthersDeny | apps/api/src/engine/runEngine.ts:104-116 | a refused request is denied on the record, a timeout and a cancellation deny a waiting engine, and an engine that has gone hears no decision |
| RunProperties.EarlyApprovalIsLost | apps/api/src/engine/runEngine.ts:165-183 | an approval given while the request is being sent is recorded as approved, and the run fails at the timeout |
| RunProperties.EarlyApprovalLosesRun | apps/api/src/engine/runEngine.ts:165-183 | every run can be lost like that: undisturbed it comes to the request, where the early approval leaves it failed |
| RunProperties.AlwaysGoesOn | apps/api/src/engine/runEngine.ts:118-262 | no deadlock: until it ends the engine goes on by itself or waits with its timer set |
| RunProperties.BoundedMoves | apps/api/src/engine/runEngine.ts:118-262 | in any interleaving it goes on a bounded number of times |
| RunProperties.AwaitsToRequest | apps/api/src/engine/runEngine.ts:143-183 | left alone, every run of three or more steps comes to its request after exactly ten awaits, and then waits |
| RunProperties.RunEndsAsDecided | apps/api/src/engine/runEngine.ts:212-262 | and ends as decided: its stored statuses are running, waiting for the user, and done or failed, with every step done, or two done, the third failed and the rest untouched |
| DesktopAuth.DesktopAuthStore.PruneExpired | apps/api/src/lib/desktop-auth.ts:196-210 | the delete loops remove exactly the expired attempts and the expired consumed handoffs |
| DesktopAuth.DesktopAuthStore.StartAttempt | apps/api/src/lib/desktop-auth.ts:212-232 | stores the attempt with hashed state and nonce |
| DesktopAuth.DesktopAuthStore.IssueHandoff | apps/api/src/lib/desktop-auth.ts:234-278 | every branch, with the handoff copied from its attempt |
| DesktopAuth.DesktopAuthStore.ConsumeHandoff | apps/api/src/lib/desktop-auth.ts:280-329 | every branch in order, with the consumption recorded |
| HandoffRuns.AcceptedIff | apps/api/src/lib/desktop-auth.ts:280-329 | over any run: a token is accepted if and only if it was issued, has not expired, comes with the right device, state and nonce, and was not accepted before |
| HandoffRuns.RefusedBecause | apps/api/src/lib/desktop-auth.ts:283-319 | over any run: an issued token is refused before it expires exactly by the first of four checks that fails, and after that as expired or unknown |
| HandoffRuns.IssuedIff | apps/api/src/lib/desktop-auth.ts:234-253 | over any run: an attempt is issued a handoff if and only if the time set by its last start is not over, is reported as expired when that is found, and as unknown from the next pruning on |
| HandoffRuns.OnlyStartedAreIssued | apps/api/src/lib/desktop-auth.ts:237-243 | an attempt that was never started is unknown |
| HandoffRuns.IssueReturns | apps/api/src/lib/desktop-auth.ts:234-278 | an issue that succeeds returns the callback address, state and device of an earlier start of that attempt, and the user, token and at most two minutes of its own request |
| HandoffRuns.HandoffIs | apps/api/src/lib/desktop-auth.ts:255-266 | the stored handoff, field by field, from that start and that issue |
| HandoffRuns.IssueLeaves | apps/api/src/lib/desktop-auth.ts:246-266 | an issue removes an attempt that it finds expired, keeps one that it uses, and stores nothing but the new handoff |
| HandoffRuns.ConsumeLeaves | apps/api/src/lib/desktop-auth.ts:280-329 | a consumption marks or removes its own handoff and touches no other |
| HandoffRuns.AcceptedOnce | apps/api/src/lib/desktop-auth.ts:303-321 | each token is accepted at most once |
| HandoffRuns.AcceptedMeans | apps/api/src/lib/desktop-auth.ts:234-329 | an accepted token proves an attempt by the same device with the same state and nonce, a handoff issued to the returned user before the attempt expired, and less than two minutes since |
| HandoffRuns.RepeatAcceptedIff | apps/api/src/lib/desktop-auth.ts:303-321 | repeating an accepted request at once is accepted again if and only if the first was stored with a time of zero, which is why the clock is taken as positive |
| HandoffRuns.OnlyIssuedAreAccepted | apps/api/src/lib/desktop-auth.ts:283-291 | a token never issued is never accepted |
| HandoffRuns.TrackHandoff | apps/api/src/lib/desktop-auth.ts:196-210 | whatever is pruned or tried, a handoff stays as it was issued until it expires, and is marked once spent |
| HandoffRuns.AttemptsWereStarted | apps/api/src/lib/desktop-auth.ts:212-232 | every stored attempt was started, as it is stored |
| Base64.Encode | apps/desktop/src-tauri/src/lib.rs:2040-2071 | the chunk loop computes the encoding |
| Base64.EncodeChunk | apps/desktop/src-tauri/src/lib.rs:2048-2066 | one chunk: buffer, four table lookups and padding |
| Base64.Letter | apps/desktop/src-tauri/src/lib.rs:2041-2041 | every table index, also the unmasked first one, is below 64, and the table is the alphabet of section 4 of RFC 4648 |
| Base64.EncodedDecodes | apps/desktop/src-tauri/src/lib.rs:2040-2071 | a decoder written from the standard recovers every input |
| Base64.DecodedEncodes | apps/desktop/src-tauri/src/lib.rs:2040-2071 | and accepts nothing but encodings |
| Base64.EncodedShape | apps/desktop/src-tauri/src/lib.rs:2043-2067 | length 4 * ceil(n / 3), and (3 - n mod 3) mod 3 padding characters, at the end only |
| MockDevice.Device.RememberCommandAck | scripts/smoke/mockDevice.js:61-70 | the ack becomes the newest remembered one, the oldest goes beyond 200, and the ack is sent |
| MockDevice.Device.HandleCommand | scripts/smoke/mockDevice.js:220-274 | a remembered command is answered without being dispatched; others are dispatched once or refused |
| MockDevice.MemoryIsLatest | scripts/smoke/mockDevice.js:61-70 | after any deliveries the memory is exactly the acks of the last 200 handled commands, oldest first |
| MockDevice.RedeliveryAnsweredIff | scripts/smoke/mockDevice.js:224-227 | a redelivered command is answered with the ack it got and not handled again, if and only if fewer than 200 others were handled since |
| MockDevice.FirstAck | scripts/smoke/mockDevice.js:245-273 | a command that is not remembered is handled, and confirmed if and only if its type is one of ten, else refused as unknown |
| MockDevice.IncompleteIsIgnored | scripts/smoke/mockDevice.js:220-243 | without an id or a type there is neither an ack nor anything remembered |
| Patch.ApplyPatch | apps/desktop/src-tauri/src/workspace.rs:653-667 | the loop over the hunks gives the text after all of them and the number of hunks whose search text occurred at their turn |
| Patch.PatchedLength | apps/desktop/src-tauri/src/workspace.rs:663-672 | the length written is the original plus |replace| - |search| over the hunks that applied |
| Patch.ReplacesFirstOccurrence | apps/desktop/src-tauri/src/workspace.rs:663-665 | the first occurrence is replaced and all around it stays |
| Patch.PatchedInOrder | apps/desktop/src-tauri/src/workspace.rs:660-667 | the hunks are applied in their order, each to what the ones before it left |
| Patch.ReadBackIff | apps/desktop/src-tauri/src/workspace.rs:643-657 | a printed list of hunks, with any text free of < around them, is read back if and only if no side has a line end |
| Patch.OneHunk | apps/desktop/src-tauri/src/workspace.rs:643-657 | a patch of one hunk, as it is written, is that hunk |
| Patch.ParsedAreOneLiners | apps/desktop/src-tauri/src/workspace.rs:656-657 | no side of a parsed hunk has a line end |
| Patch.MatchAt | apps/desktop/src-tauri/src/workspace.rs:656-657 | a match lies within the patch and is not empty |

## Left out

- HTTP routes, cookies, billing, persistence, server-sent events, metrics and the retention timers.
- The user interface, the desktop shell, the local model installer, screen capture and image arithmetic.
- Sockets, TLS and timeouts of a Redis request; its data loop is modelled.
- Non-ASCII text in replies: lengths are printed in bytes and sliced in characters. Text here is one character per byte.
- Resp.ParseRespValue: a bulk header that is no number, or below -1, is reported as outside the model; the code slices the buffer by it.
- RespPrinting.DecimalParses: numbers are unbounded; beyond 2^53 the code rounds them.
- DeviceCommands.CommandQueue.ScheduleRetry: the last error code is not stored, as nothing reads it back in these files.
- DeviceCommands.CommandQueue.SetTerminalAck: of the ack record only `ok` and its expiry are kept; its error code and time are not.
- An old gateway loop that goes on beside a new one: it finishes the read it was in and sends nothing, and a timeout it is recording then is left out.
- SendBudget.UninterruptedSendBound: an iteration of the loop, from the timeout to the send, is one step; the two halves of an ack handler are taken apart in SplitAcks.SplitSendBound.
- SplitAcks.SplitSendBound: the halves of an ack handler fall between iterations, not inside one.
- What a terminal outcome does to actions, runs and approvals beyond being applied once.
- Redact.EdgesOfRecord: a key `__proto__`, getters that throw, and letters outside ASCII in keys are not modelled.
- WeightedCounter.AllowedIff: each request is one step and the weighted count is exact; the code divides in floating point and awaits between its Redis calls.
- RateLimit.RateLimiter.Consume: the once-only warning of a Redis fallback.
- RunEngine.ManualRun.Resume: logs, device notifications, broadcasts and persistence, which read the run but do not change it; the assisted mode; a run that vanishes from the store meanwhile.
- RunProperties.CancellationStaysIff: the status that a device reports for a run, and a second engine accepted after a cancellation was overwritten.
- Validation of the loopback callback address, which is the URL parser's work.
- MockDevice.Device.HandleCommand: what the handlers of the single message types do.
- Patch.ApplyPatch: reading and writing the file, path resolution, and a count beyond 32 bits.
