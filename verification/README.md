# Delivery guarantees of the change-data-capture pipeline

A Dafny model of a process that reads row changes from the MySQL binlog, publishes them to a message queue with
confirmation, and runs tasks for the changes it consumes on the other side; and proofs of what it guarantees.
`dafny verify dfyconfig.toml` checks all of it.

## What is modelled

Each concurrent part is a transition system: a state, a partial function `Next` that says what one step of one
participant does, and runs that are arbitrary lists of steps (`Runs`). A property of a run is a property of every
interleaving. Each part the program writes as an object whose methods update its fields is also a class with those
fields, and its methods are proved against the functions the transition system is made of, or directly against what
they are for.

- **Publisher confirms** (`PublisherConfirms`, `ConfirmProtocol`, `RabbitClient`, `Decimal`). Any number of
  publishers share one channel. Each takes a number under the client's lock, registers a waiter with room for one
  answer, writes its message, hands the number back if the write failed, and then waits for its answer, for the
  end of the client or for the end of its context. One dispatcher merges the returns, the confirmations and the
  closure of the channel. A lock is a place in the state: `WriteOk` and `WriteFails` are steps of their own between
  taking the lock and being done with it, so everything that does not need the lock happens in between.
- **Connections** (`ConnectionPool`, `ConnectionRuns`, `RabbitProducer`). A dead connection is replaced under any
  number of concurrent callers; what is done to connections is recorded, so that what is open is counted from the
  dials and closes themselves. The class `Producer` is valid where some run of its workers can bring it, so the
  theorems about runs are theorems about it.
- **Retries and the listening process** (`Retry`, `Listen`). A source, a bounded channel, one consumer that sends
  each event with retries over replaceable connections, and the shutdown order of the main goroutine.
  `Listen.EachEventIsRetried` ties this to the retry loop, `Listen.SentMeansAccepted` and `Listen.SentInOrder`
  to the protocol on each channel, and `Listen.RowsAreInOrder` and `Listen.RowIsPublished` to the rows of the changes.
- **The source** (`MySqlSource`). Pairing of the rows of a change into events, rows to maps, and the position to
  resume from.
- **The position file** (`FileStore`). Calls for different keys in parallel, each creating, writing and renaming a
  temporary file and then looking for it once more, with a crash possible before and after every step, and any
  leftovers of earlier crashes.
- **Routing and running tasks** (`TaskIndex`, `TaskRunner`, `Messages`). The index of watchers against a plain
  scan of the declarations, the goroutines of one change in any interleaving, what acknowledging a message says
  about the tasks, and a RocketMQ batch delivered until it succeeds.
- **The RabbitMQ consumer** (`RabbitConsumer`, `Consumption`). A broker that redelivers, answers that are lost, and
  any number of subscriptions. `Consumption.AckedMessageWorked` composes it with the tasks.

## What is taken from the environment

- The broker numbers the messages of a channel 1, 2, 3, ... in the order they were written and confirms a number at
  most once; a `basic.return` is queued before the confirmation of the same message (publisher confirms, the
  RabbitMQ extension of AMQP 0-9-1; class basic (60), methods publish (40) and return (50)). A return that is not
  of one of the client's messages has a message id that is not a number.
- A publish that reports an error wrote nothing, and fewer than 2^64 messages are written on one channel.
- What a connection's channel answers in `Listen` is anything; only the theorems that end at the broker
  (`Listen.BackedBy`) ask for runs of the protocol behind the answers.
- A crash of the process leaves the file system as it was at that moment; it is not a loss of power. Renaming a file
  is one step. The digest of a key is a function of which only its width is known; that no two keys in use
  share a digest is a condition of the theorems that need it.
- A temporary name is any name no file has at that moment, and no two files that have a name, or are written to, share
  an inode.
- One consumer publishes one event at a time: on each connection, a publish begins after the one before it returned.
- Writing a position down and reading it back gives the position.
- A channel holds its elements in order, and a closed channel is drained before it reports its end.
- Converting 2^63 or more from floating point to a 64-bit integer gives some number that depends on the machine.

## Where the code does less than its comments say

- `publish` may return an error although the broker has accepted the message: when the channel closes, or the
  context ends, while the waiter already holds nil, the select may take either; and a stop that is noticed while the
  ack is still queued answers the waiter with the closure. `WhichErrorsRuleOutDelivery` says exactly which errors do
  rule a delivery out. A whole send reports the error of its first publish only, so its error says less:
  `FailuresRuleOutDelivery` needs to know how every publish of the event ended.
- The backoff "capped at 2s" overflows from the 37th wait on, and most of those come out zero or negative, which is no
  wait at all. `WaitsArePromised` says that all waits are the promised ones exactly up to 36 retries;
  `WhenBackoffIsPromised` says wait by wait, as far as the conversion from floating point is exact, which later ones
  are by luck: counted from 0, those with index 37, 43, 45 and 50 to 53.
- With a negative number of retries nothing is sent and nil is returned. `WhenSuccessMeansSent` says that this is
  the only way to report a success without a send that succeeded.
- After a rename, `Set` looks for the temporary name again and removes what it finds. That name may by then be another
  call's, for another key, and the value that call goes on to store can be lost: `ReusedNameLosesValue` is such a run.
  `WhenFilesAreTheStore` says exactly when no value is lost: with one key in use, whatever names are taken, because its
  lock is held to the end of the cleanup; or when names are free and no two keys share a hash. The program stores one
  key, the position, and so cannot meet this loss; `ResumesOldOrNew` is about that use.
- "Retrying it cannot help", says the code of a message the broker could not route. The send it belongs to does not
  publish it again (`UnroutableEndsItsSend`), but `isRetriable` lets it be published by the next one
  (`UnroutableIsPublishedAgain`): exactly if there are retries left and the context does not end the wait
  (`WhenSentAgain`). The 0 to 8 publishes of an event in `EndToEndOrder` count these.

## Model

| member | source | states |
|---|---|---|
| `ConfirmProtocol.ReachableInv` | queue/producer/rabbit.go:121-280 | every interleaving of publishers, dispatcher and broker keeps the invariant that ties the wire, the three queues, the two maps, the waiters' slots and the results together |
| `ConfirmProtocol.NoFalseSuccess` | queue/producer/rabbit.go:227-280 | a publish that returned nil wrote exactly one message, under the number the broker counted for it, and the broker acked that message and did not send it back |
| `ConfirmProtocol.PublishRoundTrip` | queue/producer/rabbit.go:230-280 | from any moment at which the client lives, the lock is free and the channel is open, a new call can go all the way, and returns what the broker says about its message: unroutable, rejected or nil |
| `ConfirmProtocol.FailedWriteLeavesNothing` | queue/producer/rabbit.go:260-270 | a call whose write fails returns that, and leaves the book, the lock and the channel exactly as it found them |
| `ConfirmProtocol.DecisionIsReturned` | queue/producer/rabbit.go:272-274 | while the client lives and nobody writes, the dispatcher's steps and one of the waiting call's lead to its returning exactly the broker's decision about its message |
| `ConfirmProtocol.WaitEndsWith` | queue/producer/rabbit.go:272-279 | a wait ends in three ways only: with the answer the waiter was given, with what the client died of, or with the end of the context |
| `ConfirmProtocol.ErrorsHaveCauses` | queue/producer/rabbit.go:230-280 | over every run, each error a call returns has its cause: a return, a nack, a channel that is closed or a client that died of just that, a message never written, or the end of the call's own context in that run; there is no other error |
| `ConfirmProtocol.DeadIsRefused` | queue/producer/rabbit.go:231-233 | a call that finds the client dead, or the channel closed, returns why, before it takes a number |
| `ConfirmProtocol.DeadWritesNothing` | queue/producer/rabbit.go:241-246 | once the client has died nothing is written and no number is given out, and a call that gets the lock returns what it died of |
| `ConfirmProtocol.MessageOfCall` | queue/producer/rabbit.go:241-266 | the message a returned call has written is the one with the number it returned with, and a call that returned with none has written none |
| `ConfirmProtocol.LaterCallsWriteLater` | queue/producer/rabbit.go:237-266 | over every run, a publish that begins after another one has returned has the larger delivery tag, if both wrote |
| `ConfirmProtocol.NoFalseAlarm` | queue/producer/rabbit.go:199-206 | "unroutable" means the broker sent that message back, "rejected" that it nacked that message, a failed publish that the call has no message on the wire |
| `ConfirmProtocol.ErrorAfterDelivery` | queue/producer/rabbit.go:272-279 | a run in which the broker accepted the message and publish returns the closure of the channel, and one in which it returns the end of the context |
| `ConfirmProtocol.WhichErrorsRuleOutDelivery` | queue/producer/rabbit.go:230-280 | an error rules out, over all runs, that the message was delivered if and only if it is neither the closure of the channel nor the end of the context |
| `ConfirmProtocol.TagAgreement` | queue/producer/rabbit.go:237-266 | while the lock is free the client's number is the number of messages written; message t carries t as an id that reads back as t, and is registered for nobody but the call that wrote it, whatever writes failed before |
| `ConfirmProtocol.NeverBlocks` | queue/producer/rabbit.go:188-225 | whenever settle or stop is about to answer a waiter, that waiter has never been answered, so the send into it goes through, even when its publisher has given up |
| `ConfirmProtocol.AnswersOnlyGrow` | queue/producer/rabbit.go:199-223 | an answer once given is never changed, taken back or given again by any step |
| `ConfirmProtocol.Bookkeeping` | queue/producer/rabbit.go:154-225 | returned numbers are registered numbers and registered numbers were given out; a dead client has both maps empty and stays dead with the same cause |
| `ConfirmProtocol.EveryoneIsReleased` | queue/producer/rabbit.go:209-225 | once the client is done every message ever written has been answered, and each publish still waiting can return |
| `ConfirmProtocol.StoppingEnds` | queue/producer/rabbit.go:211-225 | from any reachable moment of a stop, one step for each remaining waiter and one more lead to its end |
| `ConfirmProtocol.DutyMakesProgress` | queue/producer/rabbit.go:121-150 | a dispatcher with frames to handle has a step it can take without anybody else's help, and less left to do afterwards |
| `ConfirmProtocol.EveryConfirmIsAnswered` | queue/producer/rabbit.go:121-207 | while the client lives and nobody is writing, the dispatcher's own steps lead to a state where each message the broker confirmed has been answered |
| `ConfirmProtocol.NothingIsForgotten` | queue/producer/rabbit.go:187-207 | with its queues empty the dispatcher has answered everything the broker confirmed |
| `PublisherConfirms.HandBackUndoesRegister` | queue/producer/rabbit.go:247-265 | a failed write leaves no trace in the bookkeeping |
| `PublisherConfirms.MarkAllMeaning` | queue/producer/rabbit.go:152-185 | draining the returns adds exactly the queued messages of publishes still waiting, whatever their order and repetitions, and changes nothing else |
| `Decimal.ParseUndoesFormat` | queue/producer/rabbit.go:155-256 | an id that was written as a number reads back as that number, exactly up to 64 bits |
| `Decimal.FormatIsInjective` | queue/producer/rabbit.go:256 | two messages never carry the same id |
| `Decimal.NumeralIsDecimal` | queue/producer/rabbit.go:256 | the id is the number's decimal numeral |
| `Decimal.NotANumeral` | queue/producer/rabbit.go:155-160 | an empty id, or one with anything but digits, is no number |
| `RabbitClient.Client.Write` | queue/producer/rabbit.go:241-270 | the locked part of publish registers the next number for the caller exactly when the client lives and the write succeeds, and otherwise changes nothing |
| `RabbitClient.Client.MarkReturned` | queue/producer/rabbit.go:154-170 | an id that is no number, or no publish is waiting for, changes nothing; any other marks that publish as sent back |
| `RabbitClient.Client.DrainReturns` | queue/producer/rabbit.go:172-185 | the queue of returns is empty afterwards, and every return in it has been taken in |
| `RabbitClient.Client.Settle` | queue/producer/rabbit.go:187-207 | the publish of the confirmation is forgotten and told what the confirmation and its return stand for; nobody else is told anything |
| `RabbitClient.Client.Release` | queue/producer/rabbit.go:220-222 | each registered waiter, and no other, is told the cause |
| `RabbitClient.Client.Stop` | queue/producer/rabbit.go:211-225 | the first stop empties the maps, keeps the cause and releases everybody; later ones change nothing |
| `RabbitClient.Client.Dispatch` | queue/producer/rabbit.go:121-150 | whatever order the frames are taken in, while more of them arrive and more publishes are written: it goes on until a closure that has arrived is noticed, and each publish that was written by then is told nil only for an ack without a return, "unroutable" only for a return, "rejected" only for a nack, and otherwise that closure; earlier answers stay |
| `RabbitClient.ConfirmIsFaithful` | queue/producer/rabbit.go:130-140 | draining before settling keeps every other publish's return in sight and answers this one fairly, as the return of a message does not come after its confirmation |
| `ConnectionRuns.NoConnectionLeaks` | queue/producer/rabbit.go:388-434 | over any run of any number of workers, the connections dialed and not closed are exactly the producer's client, or none |
| `ConnectionRuns.EachConnectionOnce` | queue/producer/rabbit.go:405-434 | a connection is dialed once and torn down at most once, after that: ten workers noticing one failure replace it once |
| `ConnectionRuns.HealthyIsKept` | queue/producer/rabbit.go:416-422 | only a connection that had gone bad is ever replaced, and it never becomes the client again |
| `ConnectionRuns.ClosedForGood` | queue/producer/rabbit.go:491-505 | no run that follows a close dials or tears down anything |
| `RabbitProducer.Producer.GetCurrent` | queue/producer/rabbit.go:386-403 | the client, dialed if there is none, and nothing from a closed producer; what it does to connections is what the workers' system allows |
| `RabbitProducer.Producer.Replace` | queue/producer/rabbit.go:405-434 | the client is replaced exactly when it is the stale one, bad, and the producer open: it is torn down first, and a failed dial leaves no client behind |
| `RabbitProducer.Producer.Close` | queue/producer/rabbit.go:491-505 | the client's connection, if there is one, is torn down, once, and the producer is closed and without a client from then on |
| `RabbitProducer.Producer.Send` | queue/producer/rabbit.go:436-480 | with other workers acting in between, at most two publishes; success exactly when the last one succeeded, else the first one's error; a second one only after a failure other than "unroutable", on a connection dialed later, by a send that has torn the first one down; with nobody else about, exactly when there is a second one and which client is left behind |
| `RabbitProducer.Producer.Another` | queue/producer/rabbit.go:464-475 | another connection is one dialed after the failed one, which this call has torn down; alone, there is one exactly when the failed one is bad and the dial succeeds |
| `Retry.SendWithRetry` | queue/producer/producer.go:100-128 | the reply and the number of sends are those `AttemptsContract` characterises, with one wait between each two sends |
| `Retry.AttemptsContract` | queue/producer/producer.go:103-128 | between 1 and maxRetries + 1 sends; nil exactly when the last succeeded; every earlier one failed, and not because the event cannot be encoded; it gives up early only on an event that cannot be encoded or the end of the context |
| `Retry.WhenSentAgain` | queue/producer/producer.go:81-124 | a send that failed is followed by another one if and only if the event can be encoded, there are retries left and the context does not end the wait |
| `Retry.WhenSuccessMeansSent` | queue/producer/producer.go:103-127 | success means that a send succeeded if and only if the number of retries is not negative |
| `Retry.WaitsArePromised` | queue/producer/producer.go:114-118 | with the 64-bit product, all waits are the promised ones if and only if there are at most 36 retries |
| `Retry.BackoffWithinRange` | queue/producer/producer.go:114-118 | up to the 36th wait the wrapped product is the exact one |
| `Retry.PromisedInFigures` | queue/producer/producer.go:114-118 | the waits are 200, 400, 800 and 1600 ms, and two seconds from then on |
| `Retry.BackoffOverflows` | queue/producer/producer.go:115 | the wait after the 37th send is negative, on every machine |
| `Retry.WhenBackoffIsPromised` | queue/producer/producer.go:114-118 | for each wait whose power is exact: it is the promised one if and only if it is one of the first 36 or of seven later ones, and otherwise it is no wait at all |
| `Retry.ProductDoubles` | queue/producer/producer.go:115 | the 64-bit product for the next power is the wrapped double of the last |
| `Retry.PromisedGrows` | queue/producer/producer.go:114-118 | the waits never get shorter, start at 200ms and are two seconds from the fifth on |
| `Retry.TotalOfWaits` | queue/producer/producer.go:114-118 | n waits, n at least 4, add up to 2000n - 5000 ms |
| `Listen.ReachableInv` | cmd/clisten.go:30-92 | every interleaving of source, consumer, main goroutine and failing connections keeps the log of publishes accounted for event by event |
| `Listen.EndToEndOrder` | cmd/clisten.go:51-74 | over every run the publishes on all connections are the emitted events in order, each repeated 0 to 8 times without a gap, on connections that only move on |
| `Listen.EveryOutcomeIsTrue` | cmd/clisten.go:60-68 | an event is reported as sent exactly when the last publish of its span succeeded, no publish follows a success, and it is given up only after four sends, when it cannot be encoded, or once the context has ended |
| `Listen.EachEventIsRetried` | cmd/clisten.go:65 | in every run, the outcome of each event and the number of its sends are what the retry loop, with three retries, makes of what those sends returned |
| `Listen.SendsReport` | queue/producer/rabbit.go:439-480 | in every run, every send of every event reports what its own publishes came to: nothing published means not encoded, closed or not dialed, otherwise success of the last publish or else the error of the first; two publishes only after a failure other than unroutable |
| `Listen.FailureIsPublishedAgain` | queue/producer/rabbit.go:461-479 | after a first publish that failed otherwise than as unroutable, on a connection that has gone bad and with a dial that succeeds, the same send publishes again, on a later connection |
| `Listen.UnroutableEndsItsSend` | queue/producer/rabbit.go:454-459 | a publish that follows one the broker could not route belongs to a later send of the event |
| `Listen.UnroutableIsPublishedAgain` | queue/producer/producer.go:81-112 | a run in which an event is published again after the broker could not route it |
| `Listen.SentMeansAccepted` | cmd/clisten.go:65-68 | the last publish of an event reported as sent, a publish of that very event, has written a message that the broker acked and did not send back |
| `Listen.SentInOrder` | cmd/clisten.go:51-74 | order at the broker: each event reported as sent has an accepted message of its own, and these come in the order of the events, connection by connection and tag by tag |
| `Listen.FailuresRuleOutDelivery` | queue/producer/rabbit.go:450-479 | when every publish of an event failed otherwise than by the closure of the channel or the end of the context, none of its messages was accepted |
| `Listen.RowsAreInOrder` | source/mysql.go:208-255 | when the source emits the events of some changes, the publishes are the pairings of the changes' rows in order, each repeated 0 to 8 times without a gap |
| `Listen.RowIsPublished` | source/mysql.go:208-255 | each row travels in the event its pairing puts it in, all publishes of that event carry it, and the event's outcome is a success exactly when the last of them is |
| `Listen.CleanStopDrains` | cmd/clisten.go:76-91 | in every run in which nobody ends the context, when the source has returned nil every event ever put in the channel has been sent and its outcome is known before the producer is closed |
| `Listen.CancelHasCause` | cmd/clisten.go:76-83 | unless its owner ends it, the context is cancelled only after the source has failed |
| `Listen.FailureCancels` | cmd/clisten.go:76-80 | when the main goroutine has seen the source fail, the context is cancelled |
| `Listen.EndedContextStops` | cmd/clisten.go:69-71 | when the context has ended, a consumer without an event, or pausing between two sends, can stop at once without publishing again; the event it pauses with ends with the context |
| `Listen.ProcessCanEnd` | cmd/clisten.go:51-91 | nothing gets stuck: from wherever the process is, it can come to its end, with the producer closed |
| `Listen.ChannelIsBounded` | source/mysql.go:245-252 | the event channel holds 10240 events at most; a running source can put another one at its end exactly if it holds fewer |
| `Listen.NothingAfterClose` | cmd/clisten.go:86-91 | when the producer is closed the consumer has exited, and nothing is sent or dialed by any later step |
| `MySqlSource.OnRow` | source/mysql.go:208-255 | what is emitted are the change's events in order: of an update, event j has the later row of pair j as data and the earlier one as before; an odd last row, and every row of another action, has no before; all else is the change's; all rows are in, or those before the first event the end of the context was seen at |
| `MySqlSource.EveryRowOnce` | source/mysql.go:229-240 | every row of a change is in exactly one event, in order; the rows of an update come in pairs of before and after, and an odd last row makes an event without a before |
| `MySqlSource.RowTravels` | source/mysql.go:211-253 | the event of a given row stands at a known place among the events of all changes, and has that row as its data or its before |
| `MySqlSource.EventAt` | source/mysql.go:211-253 | the events of a change stand together, after those of the changes before it |
| `MySqlSource.MakeEvent` | source/mysql.go:211-244 | the event that starts at a row has the pair, or the single row, it should have, with the change's database, table, kind, position, server and time |
| `MySqlSource.RowToMap` | source/mysql.go:272-359 | a name is in the map exactly if a column has it; of columns with one name the last one counts; its value is the converted one, or nil where the row is too short or null |
| `MySqlSource.RowOfMeaning` | source/mysql.go:272-286 | the same for any number of leading columns |
| `MySqlSource.SavedIsResumed` | source/mysql.go:363-404 | a saved position is resumed from if and only if it names a file and an offset, or the fallback happens to be the same |
| `MySqlSource.WhereToResume` | source/mysql.go:363-386 | a stored text that reads back as a file and an offset is resumed from; otherwise the master's position, or the beginning when the master cannot be asked |
| `FileStore.SameFileSameHash` | store/file.go:32-36 | two keys share a file exactly when they share a digest |
| `FileStore.TempIsNoKeyFile` | store/file.go:63 | a temporary file never has the name of a key's file |
| `FileStore.FilesAreTheStore` | store/file.go:57-94 | after any run of the safe kind, with crashes at any points and any leftovers, a key reads as exactly what was renamed to it last, unless it was deleted since |
| `FileStore.WhenFilesAreTheStore` | store/file.go:57-106 | every key reads as what was stored under it in all runs if and only if one key is in use, or temporary names are always free and no two keys share a hash |
| `FileStore.ReadsChangeAtomically` | store/file.go:53-86 | in runs of the safe kind, in every step but the rename of a call on that key, and its deletion, a key reads the same as before; the rename takes it from the complete old to the complete new value |
| `FileStore.SetStores` | store/file.go:57-86 | when nobody else is writing, a call that meets no failure stores the value, leaves no temporary file behind and gives its key back |
| `FileStore.FailureLeavesValue` | store/file.go:63-84 | a call can fail at any step before its rename; it gives its key back, which reads as before, and its temporary file is gone if the cleanup works |
| `FileStore.CrashEndsCallsOnly` | store/file.go:53-56 | a crash can come at any moment, and leaves all files as they were |
| `FileStore.DeleteForgets` | store/file.go:96-106 | a key nobody is writing can be deleted, and reads as nothing then |
| `FileStore.OneWriterPerKey` | store/file.go:39-60 | over any run, whatever names are taken and hashes shared, two calls of Set never hold one key at the same time, up to the end of their cleanup |
| `FileStore.ReusedNameLosesValue` | store/file.go:63-85 | with any two keys that do not share a hash, a run in which the cleanup of one call meets another call's temporary file, and a key whose value was stored reads as empty |
| `FileStore.SharedHashLeaks` | store/file.go:32-36 | with two keys that share a hash, a run in which storing under one is storing under the other |
| `FileStore.ResumesOldOrNew` | source/mysql.go:363-404 | with the position as the only key, and any temporary names: while a save is under way, the position after a restart is the last completed one, or the new one from the rename on |
| `FileStore.Store.Set` | store/file.go:57-86 | the value is stored exactly when no step fails, and a failure leaves the files as they were; after every single change to the file system all files but the temporary one are the old ones, or the new ones |
| `FileStore.Store.Get` | store/file.go:88-94 | the content of the key's file, or nothing |
| `FileStore.Store.Delete` | store/file.go:96-106 | the key's file is gone and nothing else has changed |
| `TaskIndex.IndexTasks` | task/watchers.go:30-64 | an index is built if and only if every task declares tables with names, without dots, with the column their role asks for, and each once; for every key it then holds what a scan of all declarations finds, in order |
| `TaskIndex.IndexTask` | task/watchers.go:38-61 | one task's declarations are added in order exactly if the task is well declared |
| `TaskIndex.Add` | task/watchers.go:66-70 | adding a watcher keeps the index equal to the scan |
| `TaskIndex.WellSoFarIsWellDeclared` | task/watchers.go:48-59 | checking each declaration against those before it finds every invalid and every repeated one |
| `TaskIndex.ValidMeaning` | task/watchers.go:101-124 | a declaration passes exactly if database and name are there and without dots, and so is the primary key of a main table, or the referring column of a sub table |
| `TaskIndex.KeyDeterminesTable` | task/watchers.go:94-111 | an undotted declaration and an arbitrary name share a key exactly when database and table agree |
| `TaskIndex.WithKeyMeaning` | task/watchers.go:73-75 | the scan finds exactly the declarations with the key |
| `TaskIndex.DeclaredMeaning` | task/watchers.go:37-62 | the declarations scanned are the main table and the sub tables of every task |
| `TaskIndex.RoutingIsExact` | task/runner.go:143-150 | the watchers found for a change are exactly the declarations of its table, whatever its names look like; a dotted name finds none |
| `TaskIndex.OncePerTask` | task/watchers.go:44-57 | in the list of a key each task stands at most once, in the order the tasks were given in |
| `TaskIndex.OnceInTask` | task/watchers.go:48-61 | the declarations of one task hold a key exactly once, or not at all |
| `TaskRunner.EachJobOnce` | task/watchers.go:144-177 | whatever the interleaving, each watcher with a row is run exactly once, for that row, and its own slot holds what it reported |
| `TaskRunner.ScheduleIndependence` | task/watchers.go:144-177 | two interleavings in which each task reports the same end with the same joined error, which is nil exactly when all succeeded |
| `TaskRunner.JoinedMeaning` | task/watchers.go:176 | the joined error is nil exactly when no slot holds one |
| `TaskRunner.JoinedInOrder` | task/watchers.go:164-176 | all failures are joined, each after those of the slots before it, and nothing else |
| `TaskRunner.AllCanFinish` | task/watchers.go:166-174 | whatever the tasks report, there is an interleaving in which all goroutines end with those reports |
| `TaskRunner.RunEach` | task/watchers.go:157-177 | nothing runs under an ended context; otherwise each watcher with a row runs once, in any order, and the errors come back in the order of the watchers |
| `TaskRunner.AckedMeansWorked` | task/runner.go:143-180 | if a message that holds an event is acknowledged, every task that declares the event's table, and whose column carries a value that is neither nil nor empty, ran in that delivery for exactly that value and succeeded, and that is the only thing that was run of this task |
| `TaskRunner.OnlyNamedRowsAreRun` | task/runner.go:152-180 | whatever ran for a change belongs to a declaration of its table and ran for the value under that declaration's column, never for nil or an empty name |
| `TaskRunner.RejectedMeansFailed` | task/runner.go:152-165 | a change is left for another delivery exactly when a task that ran for it failed, or nothing could be started |
| `TaskRunner.Runner.Enter` | task/runner.go:67-79 | a run enters exactly when nobody is consuming and there is a consumer, and says which of the two was missing otherwise |
| `TaskRunner.Runner.Leave` | task/runner.go:81-85 | the run that leaves was the only one |
| `RabbitConsumer.NothingIsLost` | queue/consumer/rabbit.go:164-237 | over any run with redeliveries, lost answers and new subscriptions, a published message is in exactly one of ready, outstanding, acknowledged and dropped, ready or outstanding once, and nothing is ever dropped unless the consumer was told to |
| `RabbitConsumer.AckedOnlyIfHandled` | queue/consumer/consumer.go:130-142 | a message is acknowledged only if it is no event or the handler accepted it on its last delivery, and dropped only if the handler rejected it on its last delivery |
| `RabbitConsumer.HandledIsSettled` | queue/consumer/rabbit.go:223-236 | a message in the handler's hands gets acknowledged when it is no event or is accepted; otherwise it is ready again, or dropped if errors are dropped |
| `RabbitConsumer.ReadyIsHandled` | queue/consumer/rabbit.go:168-219 | a consumer that is dialing, or has ended and is run again, gets the first ready message to its handler |
| `RabbitConsumer.LostIsHandledAgain` | queue/consumer/rabbit.go:184-219 | what a lost subscription had not acknowledged is all ready again, and the consumer subscribes anew, in the same call, and gets the first of it |
| `RabbitConsumer.EndSettlesNothing` | queue/consumer/rabbit.go:168-194 | a consumer can be told to end while it waits or dials, and ends when an answer cannot be sent; nothing is settled by that |
| `Consumption.AckedMessageWorked` | task/runner.go:67-88 | over any run of the consumer, if the broker holds a message with an event as acknowledged, then on its last delivery each task that declares the event's table, and finds a row, ran for that row, once, and succeeded |
| `RabbitConsumer.LastTagIsLast` | queue/consumer/rabbit.go:217-235 | the delivery that decides is the latest one of its message |
| `RabbitConsumer.Consumer.ConsumeOne` | queue/consumer/rabbit.go:217-236 | every message of a subscription is answered in turn, up to the first answer that cannot be sent: an ack exactly if it is no event or the handler accepts it, else a nack that asks for another delivery exactly if errors are not dropped |
| `RabbitConsumer.Consumer.Consume` | queue/consumer/rabbit.go:164-197 | a subscription is followed by another one exactly when it ended by itself with everything answered and neither Close nor the end of the context was seen; which of these it saw, before or after a subscription, decides how it ends |
| `Messages.ConsumeBatch` | queue/consumer/rocket.go:137-144 | success exactly when every message of the batch is no event or accepted; otherwise exactly the messages up to the first rejected one were handed over |
| `Messages.ProcessMessage` | queue/consumer/consumer.go:130-142 | a message is acknowledged exactly if it does not decode or the handler accepts its event |
| `Messages.ConsumeUntilSuccess` | queue/consumer/rocket.go:117-144 | over redeliveries of a batch with a handler that changes its mind, the batch ends in one delivery that accepted every message, and every earlier one stopped at its first rejected message |

## Left out

- The brokers, AMQP, Kafka, Pulsar, Redis, RocketMQ and canal client libraries, dialing and the declaration of exchanges and queues: foreign code, present as steps of the environment.
- Converting numbers, dates, bits and texts in rows, and JSON: a conversion and a codec are arbitrary functions, so no value-identical round trip is claimed (a 64-bit integer becomes a floating-point number on the way).
- A send that races the closing of the event channel while the row handler is still running after a cancellation: it rests on how canal shuts down.
- Starting and stopping a `MySQLSource` twice, and its `running` and `chanClosed` flags.
- The waiter of a publish is told apart by the call it belongs to; the Go channel behind it, and its being shared, are not modelled.
- The queues of returns, confirmations and closures have no bound, where the code gives them room for a fixed number; a full queue would only hold the connection's reader back.
- The time of arrival of an event, the timestamps of messages, wall-clock time and the length of timeouts.
- `ConfirmProtocol.EveryConfirmIsAnswered`: assumes that nobody is in the middle of a write, because a write that never returns keeps the lock.
- `RabbitConsumer.Consumer.Consume`: needs something that ends it, because the loop has no other bound; a signal is seen at its two looks, before and after a subscription, as in the code.
- `Messages.ConsumeUntilSuccess`: needs a delivery in which every message is accepted, without which the broker delivers for ever.
- A consumer with a nil handler, which is refused before anything else happens.
- Closing every subscription that was dialed: the code leaves one open whose deliveries ended or whose acknowledgement failed.
- No loss across crashes of the whole process: the position is saved independently of what is still in the channel.
- Losing power during a write of the position: the file is not synced.
- Kafka and Pulsar consumers (commits are cumulative per partition), the other producers' reconnection (they always replace the connection), and the Redis store and queue.
- `RunByPrimaryKey`, `RunByTimeRange` and the check for a dot in a table a caller names: each is a guard in front of what is modelled here.
- Registries, configuration, option builders, the command line, signals, logging and deployment files.
