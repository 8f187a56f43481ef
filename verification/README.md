# Verified model of the Synthetic Monitoring agent

The Synthetic Monitoring agent runs checks against targets and publishes their
metrics and logs. This project models the parts of it that hold state or move
data, and proves what they keep over every input and every interleaving:

- the **pusher** (`Queue`, `Push`, `PushLaws`, `PushLoop`, `Publisher`, `PublisherLaws`): a queue of encoded records per
  tenant, bounded in bytes and age; the loop that batches, sends, retries and
  settles them; and the map that says which handler serves a tenant;
- the **Snappy concatenation** (`Varint`, `Snappy`, `SnappyConcat`): the reader that
  turns a list of Snappy blocks into one block while it is being sent;
- **check distribution** (`Ids`, `Checks`, `Updater`, `ChecksServer`, `Sync`): the
  agent's set of running scrapers, the API's idea of it, and the protocol
  between the two;
- **interpolation** (`Interpolation`): templates compiled to JavaScript, and secrets;
- **telemetry** (`CostLabels`, `Telemetry`): counting executions by region, tenant,
  class and cost attribution labels;
- the **scraper** (`Labels`, `Ticker`): log labels and the publishing schedule;
- the **tenant cache** (`Tenants`).

Code that updates objects in place is a class (`Queue.Queue`, `PushLoop.Pusher`,
`SnappyConcat.SnappyConcatReader`, `Publisher.PublisherImpl`, `Updater.Updater`,
`ChecksServer.Session`, `Telemetry.RegionPusher`, `Telemetry.Telemeter`,
`Tenants.Manager`); loops are methods with invariants. Each is proved against a
function on values, and the theorems are about that function. Concurrent code is
also a system of atomic steps (`Push`, `Publisher`, `Tenants`, `Ticker`), one step
for each critical section or channel operation, whose invariants hold after any
sequence of enabled steps. The push loop, the tick loop and the tenant manager are
also methods, proved to make exactly those steps while others make theirs.

The clock, send outcomes, API replies, cancellations, map iteration order, the
scraper factory and cache faults are parameters that may take any value.

`dafny verify dfyconfig.toml` checks everything.

## What turned out not to hold

Each of these is stated exactly, as an if-and-only-if:

- `limitAge` is documented to return the number of records removed and returns the
  number kept, so the dropped-records counter is right only when none, all or half
  of the records have expired (`Queue.ReportedDropsAreRightIff`).
- When the first read buffer is too small for the header, `Read` fails after the
  headers have been stripped; later reads deliver the bodies without any header
  (`SnappyConcat.AllBytesIffHeaderFits`). The concatenated stream means the same exactly
  below the decoder's limit: 2^32 decoded bytes in the format, or any raised limit up to
  the 2^64 of the accumulator (`SnappyConcat.ConcatenationPreservesMeaning`).
- A probe that connects with no checks gets no initial message, so its next update is
  taken for the first batch, whose deletes are ignored. Agent and API then disagree
  exactly when a check is wanted by one change of that update and not by the last
  one that names it (`Sync.FirstUpdateAgreesIff`).
- An ADD for a check that already runs keeps the old version (`Sync.NewVersionIff`), so
  over a session the latest version runs exactly when no last ADD found another one
  (`Sync.LatestRunsIff`). After an update taken for the first batch it runs exactly
  unless a delete or an UPDATE was dropped (`Sync.FirstLatestRunsIff`).
- Every check that runs was validated, except after a first batch: its adds replace
  another running version without validating the new one, and that is the only way
  (`Updater.ValidKept`, `Updater.InitialAddValidIff`, `Updater.FirstBatchCanRunInvalid`).
- The JavaScript made for a template holds one code unit per byte of its text. It comes
  out as the template with its placeholders replaced exactly when the template is ASCII
  (`Interpolation.ToJavaScript`, `Interpolation.TemplateCanDiffer`).
- Executions with different cost attribution labels can share a key and be counted in one
  entry, as a=`b,c=x` c=`y` and a=`b` c=`x,c=y` do (`Telemetry.OtherLabelsCountedTogether`).
  Labels that clash with a given list exist exactly if it has two labels or more, or one
  with an equals sign of its own (`CostLabels.ClashIff`, `Telemetry.EntryCanBeSharedIff`).
  Lists with no separators in names and no commas in values never clash with one
  another (`CostLabels.SameKeyIffSameLabels`).
- Recording an execution panics exactly when one of its cost attribution labels has a
  comma-separated part without `=`, as the value `b,c` does (`CostLabels.ReadsBackIff`,
  `CostLabels.ReadingBackCanPanic`); such values pass the check's own validation.
- A cost attribution key reads back exactly when no name or value holds `,` or `=`
  (`CostLabels.RoundTripIff`).
- In DUAL_WRITE mode a user label called `label_x` takes the place of the prefixed form
  of `x` (`Labels.PrefixedFormKeptIff`).
- Packing a pair of ids and splitting it gives the pair back exactly for valid pairs
  and plain ids (`Ids.PackThenSplitIff`). The pairs FromSM makes are all of that kind
  (`Ids.SplitPairsSurvive`).
- A cached tenant is replaced by an older version exactly when a fetch answers with
  one, or when a cache read failed before an older update (`Tenants.OlderIff`); if the
  API answers with its current version this never happens
  (`Tenants.ModifiedNeverDrops`).
- Entries are documented to be kept no longer than the timeout. That holds exactly when
  there is no token whose life lies between the timeout and MaxScriptedTimeout and, for
  entries kept by the timeout alone, when no jitter was drawn
  (`Tenants.KeptWithinTimeoutIff`). Jitter is the ordinary case; the default timeout is
  longer than MaxScriptedTimeout.
- A token returned from the cache outlives the longest script whenever it had that much
  life when it was cached. For calls that began after the entry was cached this is also
  necessary (`Tenants.CachedTokenOutlivesScript`).

## Model

| member | source | states |
|---|---|---|
| `Queue.Queue.constructor` | internal/pusher/v2/queue.go:24-29 | A new queue is empty, with no token in the wake-up slot and nothing in the pool. |
| `Queue.Queue.Signal` | internal/pusher/v2/condition.go:7-14 | Fills the one-slot channel; a full slot stays full. |
| `Queue.Queue.LimitBytes` | internal/pusher/v2/queue.go:172-189 | The backward scan drops exactly the `OverBytes` oldest records and returns their buffers to the pool. |
| `Queue.Queue.LimitAge` | internal/pusher/v2/queue.go:191-213 | On a chronological queue the binary search drops exactly the `OverAge` oldest records; the returned count is `ReportedOverAge`. |
| `Queue.Queue.ApplyLimits` | internal/pusher/v2/queue.go:165-170 | A record is dropped, and its buffer given to the pool, if and only if the bytes from it on exceed the limit, or it has expired and some record that fits has not; the count reported is the byte cut plus what limitAge returns. |
| `Queue.Queue.Insert` | internal/pusher/v2/queue.go:153-163 | Appends, drops exactly what the limits ask for, and signals. |
| `Queue.Queue.Get` | internal/pusher/v2/queue.go:219-252 | Splits the queue into a greedy batch and the rest, in order; one record more would not be a batch; the token is pending afterwards if and only if it was or something is left. |
| `Queue.Queue.Requeue` | internal/pusher/v2/queue.go:254-265 | Puts a batch back in front, drops exactly what the limits ask for, and signals; an empty batch changes nothing. |
| `Queue.OverBytesIsLeast` | internal/pusher/v2/queue.go:172-189 | Keeping one more record than limitBytes keeps would exceed the limit: no cut is larger than needed. |
| `Queue.OverAgeSplitsAtLimit` | internal/pusher/v2/queue.go:191-213 | On a chronological queue a record is dropped if and only if it is older than the limit, unless every record is: then none is dropped. |
| `Queue.ReportedDropsAreRightIff` | internal/pusher/v2/queue.go:165-213 | The number limitAge returns is the number it removed if and only if none, all or half of the records have expired. |
| `Queue.ReportedDropsCanBeWrong` | internal/pusher/v2/queue.go:203-212 | A queue of three on which the count is wrong. |
| `Queue.BatchIsGreedy` | internal/pusher/v2/queue.go:228-237 | A batch is one record or within maxPushBytes, and with one record more it would be neither. |
| `Queue.BatchTakesWhole` | internal/pusher/v2/queue.go:219-252 | If the first k records make a batch, the next get takes all of them. |
| `Queue.BatchableSuffix` | internal/pusher/v2/queue.go:172-213 | A batch cut from the front by a limit is still a batch. |
| `Queue.LimitsDropExactly` | internal/pusher/v2/queue.go:165-213 | On a chronological queue a record is dropped if and only if the bytes from it on exceed the limit, or it has expired and some record that fits has not. |
| `Queue.KeptAreFresh` | internal/pusher/v2/queue.go:165-213 | Nothing kept is older than the limit unless everything that fits is; with both limits off nothing is dropped. |
| `Queue.LimitedIsBounded` | internal/pusher/v2/queue.go:165-213 | After applyLimits the queue is within maxQueuedBytes. |
| `Push.RecordsAreConserved` | internal/pusher/v2/queue.go:54-213 | In every state of every run an inserted record is in exactly one of settled, dropped, in flight and queued; its buffer is in the pool exactly once if settled or dropped and not at all otherwise. Restarts of the push loop are included. |
| `Push.SendsAreBounded` | internal/pusher/v2/queue.go:48-101 | Within one push no record is sent more than maxRetries + 1 times, for every interleaving of inserts, drops and outcomes. |
| `Push.GetTakesTried` | internal/pusher/v2/queue.go:59-99 | After a retry the next batch holds every record tried before, and nothing left in the queue was tried. |
| `Push.TriedAfterCut` | internal/pusher/v2/queue.go:254-265 | Limits cut from the front, so the tried records stay a prefix of the queue that makes one batch. |
| `Push.RecordsStayInOrder` | internal/pusher/v2/queue.go:153-265 | Settled, in-flight and queued records are in insertion order and in the order of their timestamps, in every state of every run. |
| `Push.QueueStaysChronological` | internal/pusher/v2/queue.go:202-206 | In every reachable state what limitAge's binary search relies on holds, for the queue with a new record and for a requeued batch. |
| `Push.FirstSendsAreInOrder` | internal/pusher/v2/queue.go:59-75 | A record sent for the first time was inserted after every record sent before it. |
| `Push.NoLostWakeUp` | internal/pusher/v2/condition.go:7-22 | If the queue is not empty a token is pending or the consumer has taken it and not yet called get; the byte bound holds too. |
| `Push.InvHolds` | internal/pusher/v2/queue.go:54-151 | Order, conservation, wake-ups, bounds, retry budget and first sends together hold after every step of every run. |
| `PushLaws.OutcomeDecides` | internal/pusher/v2/queue.go:84-148 | In every run: after an outcome the push has ended if and only if it was a tenant, fatal, wait or terminated error; the batch is retried if and only if it was a network error with retries left; otherwise the batch is settled and the loop waits. |
| `PushLaws.CancellationStops` | internal/pusher/v2/queue.go:56-59 | A cancelled wait or back-off ends the push; taking the token empties the slot. |
| `PushLaws.StoppedSendsNothing` | internal/pusher/v2/queue.go:136-143 | A push that has ended sends nothing until the next one starts. |
| `PushLaws.GivenUpAfterAllRetries` | internal/pusher/v2/options.go:151-167 | A batch is given up on a network error only as the last of maxRetries + 1 network errors in a row. |
| `PushLaws.LimitsHoldInRuns` | internal/pusher/v2/queue.go:153-265 | In every run each insert and each requeue drops exactly the records the limits ask for. |
| `PushLoop.Pusher.constructor` | internal/pusher/v2/queue.go:48-52 | A loop over a queue in some reachable state, with what is still to happen. |
| `PushLoop.Pusher.Drain` | internal/pusher/v2/queue.go:48-151 | The push loop, with its retry counter and flag and with inserts arriving between any two of its operations, takes the queue through exactly the steps of `Push`; it returns at the first cancellation or ending error, and otherwise only where the script ends. |
| `PushLoop.Pusher.Arrivals` | internal/pusher/v2/queue.go:153-163 | Inserts by other goroutines change nothing the loop holds. |
| `PushLoop.Pusher.Select` | internal/pusher/v2/queue.go:55-59 | Either the context is done and the push ends, or the token is taken and the slot is empty. |
| `PushLoop.Pusher.Take` | internal/pusher/v2/queue.go:60-72 | An empty get goes back to waiting; otherwise the retries are reset unless this is a retry. |
| `PushLoop.Pusher.Retry` | internal/pusher/v2/queue.go:84-101 | One retry is used up, the batch is requeued, and the loop goes on after the back-off unless cancelled. |
| `PushLoop.Pusher.PutBack` | internal/pusher/v2/queue.go:93-93 | The batch goes back in front of the queue. |
| `PushLoop.Pusher.Settle` | internal/pusher/v2/queue.go:112-149 | The batch's buffers go back to the pool, and the push ends if and only if the error is a tenant, fatal, wait or terminated one. |
| `Publisher.PublisherImpl.constructor` | internal/pusher/v2/publisher.go:19-30 | No handler is installed and the gauge is 0. |
| `Publisher.PublisherImpl.ReplaceHandler` | internal/pusher/v2/publisher.go:91-134 | The compare-and-swap of a tenant's slot, the handler in effect and whether it swapped; the gauge equals the number of handlers. |
| `Publisher.PublisherImpl.HandlerFor` | internal/pusher/v2/publisher.go:49-62 | Publish finds or installs the handler that is then in effect, and starts a runner if and only if there was none. |
| `Publisher.ReplaceThenLookUp` | internal/pusher/v2/publisher.go:91-143 | What replaceHandler returns is what getHandler finds afterwards; it swaps if and only if the handler in effect was the expected one; no other tenant is touched. |
| `Publisher.OneRunnerPerTenant` | internal/pusher/v2/publisher.go:49-83 | In every interleaving at most one goroutine owns a tenant's slot, and no handler is run by two. |
| `Publisher.InstalledIffOwned` | internal/pusher/v2/publisher.go:49-134 | A tenant is in the handler map if and only if some goroutine owns exactly that handler. |
| `Publisher.NeverHijackedNeverNil` | internal/pusher/v2/publisher.go:49-83 | No exchange ever fails, and Publish never calls a nil handler; the one it calls serves the payload's tenant. |
| `Publisher.TargetKept` | internal/pusher/v2/tenant_pusher.go:47-95 | Between any two states throughout which a tenant keeps its slot, payloads reach the same pusher, through any number of delays, or are discarded. |
| `PublisherLaws.ReturnLeadsTo` | internal/pusher/v2/tenant_pusher.go:47-95 | In every run: a pusher is put behind a delay if and only if it ended with a wait or tenant error, replaced by a discard if and only if with a fatal one, and otherwise given up; a delay not cancelled gives way to its pusher; a discard ends the service. |
| `PublisherLaws.DiscardedOnlyAfterFatal` | internal/pusher/v2/tenant_pusher.go:81-90 | Payloads of a tenant are discarded only after a run of its pusher ended with a fatal error. |
| `PublisherLaws.TargetSameWithoutFatal` | internal/pusher/v2/tenant_pusher.go:63-79 | While a tenant keeps its slot and no run of its pusher ends with a fatal error, payloads reach the very same pusher. |
| `PublisherLaws.SlotGivenUpOnlyAfterEnd` | internal/pusher/v2/tenant_pusher.go:52-95 | A slot is given up only after a run ended with no error that asks for a delay or discard, a delay was cancelled, or a discard ended. |
| `PublisherLaws.DelayThenSamePusher` | internal/pusher/v2/tenant_pusher.go:216-228 | After a wait or tenant error a delay in front of the pusher is in effect, and after the delay the same pusher again, whatever other goroutines do in between. |
| `Varint.RoundTrip` | internal/pusher/v2/snappy_concat.go:57-67 | Reading a written varint gives the value and its length back, for every 64-bit value and whatever follows. |
| `Varint.PutFits` | internal/pusher/v2/snappy_concat.go:22-26 | A varint takes at most n bytes if and only if its value is below 128^n, which is the test Read makes. |
| `Snappy.DecodeBodyShift` | internal/pusher/v2/snappy_concat.go:8-10 | Decoding a block body after other output gives the same bytes after it: copies reach only into their own block. |
| `Snappy.DecodeBodyAppend` | internal/pusher/v2/snappy_concat.go:8-10 | Two bodies one after the other decode one after the other. |
| `SnappyConcat.ConcatenationPreservesMeaning` | internal/pusher/v2/snappy_concat.go:17-67 | For every decoder limit up to 2^64, the format's 2^32 among them, the joint stream decodes to the concatenated decodings if and only if their total length is below the limit. |
| `SnappyConcat.SentBytesDecodeToRecords` | internal/pusher/v2/queue.go:74-75 | Over any sequence of buffer sizes whose first holds the header, the bytes read decode to all records in order, below the decoder's limit. |
| `SnappyConcat.ReadTakesPrefix` | internal/pusher/v2/snappy_concat.go:17-55 | One Read delivers the next bytes, as many as fit, and leaves exactly the others. |
| `SnappyConcat.RunDelivers` | internal/pusher/v2/snappy_concat.go:17-55 | Any sequence of reads delivers the header and all bodies with no gap and no repeat. |
| `SnappyConcat.EofExactlyAtEnd` | internal/pusher/v2/snappy_concat.go:32-54 | Nothing is left to read if and only if every byte has been delivered. |
| `SnappyConcat.AllBytesIffHeaderFits` | internal/pusher/v2/snappy_concat.go:18-30 | Given room for everything, all bytes arrive if and only if the first buffer holds the header; otherwise only bodies do. |
| `SnappyConcat.HeaderCanBeLost` | internal/pusher/v2/snappy_concat.go:18-30 | A well-formed block of 128 bytes, read first into a one-byte buffer: what follows is not the stream. |
| `SnappyConcat.LengthsAdd` | internal/pusher/v2/snappy_concat.go:57-67 | The summed headers of well-formed blocks are the length of their concatenated decodings. |
| `SnappyConcat.BodiesDecode` | internal/pusher/v2/snappy_concat.go:36-52 | The bare bodies in a row decode to the decodings in a row. |
| `SnappyConcat.SnappyConcatReader.constructor` | internal/pusher/v2/queue.go:272-281 | A reader over windows of the records' own buffers, nothing read yet. |
| `SnappyConcat.SnappyConcatReader.StripHeader` | internal/pusher/v2/snappy_concat.go:60-64 | One stream loses its header and nothing else; truncated headers count 0 and stay. |
| `SnappyConcat.SnappyConcatReader.StripHeaders` | internal/pusher/v2/snappy_concat.go:57-67 | All headers are stripped and their sum is returned modulo 2^64. |
| `SnappyConcat.SnappyConcatReader.Read` | internal/pusher/v2/snappy_concat.go:17-55 | Fills the caller's array with the next bytes, moves the reader on by them, and answers ErrShortBuffer and EOF exactly when specified; the records' buffers are not written. |
| `SnappyConcat.SnappyConcatReader.Start` | internal/pusher/v2/snappy_concat.go:18-30 | The header is written if and only if it fits, and the headers are stripped either way. |
| `SnappyConcat.SnappyConcatReader.CopyStreams` | internal/pusher/v2/snappy_concat.go:36-52 | Copies whole streams while they fit and then a part; bytes written and bytes left are the bytes there were. |
| `SnappyConcat.SnappyConcatReader.CopyWhole` | internal/pusher/v2/snappy_concat.go:36-43 | One whole stream moves from the list to the buffer. |
| `SnappyConcat.SnappyConcatReader.CopyPart` | internal/pusher/v2/snappy_concat.go:45-52 | The buffer is filled from the next stream, which keeps its rest. |
| `Ids.ConversionsAreInverse` | pkg/pb/synthetic_monitoring/ids.go:97-123 | Packing gives a global id if and only if splitting that id gives the pair; global ids are negative and never local ids. |
| `Ids.LocalIDToGlobalID` | pkg/pb/synthetic_monitoring/ids.go:97-108 | Succeeds if and only if both parts are valid, within 64 bits; the result is negative and splits back into the pair. |
| `Ids.SplitThenPack` | internal/model/model.go:32-70 | Any 64-bit id survives FromSM followed by GlobalID. |
| `Ids.SplitPairsSurvive` | internal/model/model.go:32-70 | Every pair FromSM makes is given back by GlobalID and splitting. |
| `Ids.PairCanBeLost` | internal/model/model.go:40-70 | The pair (-1001, 0) comes back as (1, 1). |
| `Ids.PackThenSplitIff` | internal/model/model.go:40-70 | A pair survives GlobalID followed by splitting if and only if it is valid, or region 0 with an id that is not global. |
| `Checks.KeyIsId` | internal/model/model.go:16-47 | The key an agent files a check under is the id the API sent. |
| `Checks.VersionIsNanoseconds` | pkg/pb/synthetic_monitoring/checks_extra.go:515-517 | The version is the modification time in whole nanoseconds; equal versions are less than one apart. |
| `Updater.Scraper.Stop` | internal/scraper/scraper.go:410-413 | Closes the channel; may not be called twice. |
| `Updater.Updater.constructor` | internal/checks/checks.go:138-274 | No scraper runs and every gauge is 0. |
| `Updater.Updater.StopAndForget` | internal/checks/checks.go:732-753 | The scraper is stopped, removed and taken off the gauge; the others run on. |
| `Updater.Updater.AddAndStart` | internal/checks/checks.go:917-987 | A scraper is started and filed unless the check is filtered or the factory fails; exactly the filed scrapers run. |
| `Updater.Updater.UpdateWithLock` | internal/checks/checks.go:710-730 | The old scraper, if any, is stopped before the new one is filed. |
| `Updater.Updater.HandleChange` | internal/checks/checks.go:674-753 | One ADD, UPDATE or DELETE, with its failures, has the effect `ChangeEffect` states; the scrapers of other checks are the same objects, and an ADD for a running check touches none. |
| `Updater.Updater.InitialAddWithLock` | internal/checks/checks.go:840-870 | An ADD in a first batch has the effect `InitialAddEffect` states; a scraper of the same version is not restarted. |
| `Updater.Updater.HandleFirstBatch` | internal/checks/checks.go:771-832 | Afterwards exactly the checks the batch added or kept run. |
| `Updater.Updater.StopUnseen` | internal/checks/checks.go:813-831 | In any iteration order exactly the scrapers not seen are stopped. |
| `Updater.Updater.HandleChangeBatch` | internal/checks/checks.go:872-911 | Keeps, over any batch, that the started and not stopped scrapers are exactly the map's values and the gauges count them by type; outside a full first batch a check no change names keeps its very scraper. |
| `Updater.ChangeEffect` | internal/checks/checks.go:674-753 | For every change and check: other checks are untouched, undecodable and invalid changes do nothing, a delete stops the check, an update leaves the new version or none, an add never replaces a running one, and k6 checks start only with the feature. |
| `Updater.InitialAddEffect` | internal/checks/checks.go:840-870 | For an add of a first batch: the same version is kept, another one replaced without validation, a new check started if valid. |
| `Updater.AllowedKept` | internal/checks/checks.go:917-938 | Over any batch, no check that needs k6 runs without the feature. |
| `Updater.ValidKept` | internal/checks/checks.go:674-730 | Changes applied one by one never start an invalid check. |
| `Updater.InitialAddValidIff` | internal/checks/checks.go:840-857 | An add of a first batch starts an invalid check if and only if it replaces another version. |
| `Updater.FirstBatchCanRunInvalid` | internal/checks/checks.go:840-857 | An invalid version 2 replaces version 1. |
| `Updater.OnlyAddedRun` | internal/checks/checks.go:771-832 | After a first batch only checks that some decodable ADD of it named run. |
| `ChecksServer.Session.constructor` | cmd/test-api/internal/grpc/checks.go:104-150 | A session starts with the ids the initial exchange left. |
| `ChecksServer.Session.ProcessUpdate` | cmd/test-api/internal/grpc/checks.go:259-296 | The changes sent and the ids believed to run are those of `Update`. |
| `ChecksServer.FilterUpdateIff` | cmd/test-api/internal/grpc/checks.go:298-416 | The whole table of filterUpdate: something is sent if and only if the check runs there or is to; a delete if and only if it is not to; an ADD if and only if it is new to the probe or was one. |
| `ChecksServer.InitialChanges` | cmd/test-api/internal/grpc/checks.go:421-485 | A change is in the initial message if and only if it is owed: an ADD for an enabled check the probe lacks, an UPDATE for one it knows with another modification time, a DELETE for one it knows that the table does not have enabled. Each id is named once. None is sent when there is nothing on either side. |
| `Sync.OneChange` | cmd/test-api/internal/grpc/checks.go:298-416 | A filtered change, handled by the agent, leaves agent and API with the same ids: the check's id is among them if and only if the change wants it there. |
| `Sync.UpdateAgrees` | cmd/test-api/internal/grpc/checks.go:259-416 | After any update the API's ids are the agent's, and a check runs if and only if the last change naming it wants it. |
| `Sync.NewVersionIff` | internal/checks/checks.go:674-693 | A wanted change leaves its own version running unless it is an ADD for a check that already runs in another. |
| `Sync.AddCanKeepOldVersion` | internal/checks/checks.go:674-693 | An ADD with version 2 leaves version 1 running. |
| `Sync.MissingApplied` | cmd/test-api/internal/grpc/checks.go:439-463 | The adds and updates of a delta bring every enabled check to the table's version and touch no other. |
| `Sync.DeletesApplied` | cmd/test-api/internal/grpc/checks.go:465-473 | The deletes, in any order, remove exactly their ids. |
| `Sync.FullTableAdded` | internal/checks/checks.go:778-812 | A full batch of adds brings every enabled check to the table's version and marks exactly those as seen. |
| `Sync.DeltaConverges` | cmd/test-api/internal/grpc/checks.go:421-485 | From any running set, a reconnect answered with a delta leaves exactly the enabled checks of the table running, in its versions. |
| `Sync.CurrentCheckUntouched` | cmd/test-api/internal/grpc/checks.go:445-451 | On a reconnect a check that runs with the table's modification time is named by no change and keeps its very entry. |
| `Sync.FullBatchConverges` | internal/checks/checks.go:771-832 | The same for a full first batch. |
| `Sync.ConnectionConverges` | internal/checks/checks.go:473-482 | The agent reports what it runs, whatever that is; after the initial exchange agent, API and table agree. |
| `Sync.FirstBatchPendingIff` | internal/checks/checks.go:643-660 | The agent waits for its first batch until something is sent to it. |
| `Sync.SessionAgrees` | internal/checks/checks.go:872-911 | Once the first batch is consumed agent and API agree on the running ids after every update of every session. |
| `Sync.SessionFollowsLastChange` | cmd/test-api/internal/grpc/checks.go:259-416 | Over a whole session a check runs if and only if the last change naming it, in whatever update, wants it. |
| `Sync.UpdateRuns` | cmd/test-api/internal/grpc/checks.go:259-416 | After an update the agent runs, for each check, the version the changes leave: an ADD for a running check keeps the old one. |
| `Sync.SessionRuns` | internal/checks/checks.go:872-911 | The same over a whole session, for all its changes in a row. |
| `Sync.LatestRunsIff` | internal/checks/checks.go:674-693 | The latest version runs if and only if the last change naming the check is not an ADD that found another version running. |
| `Sync.ConnectedSessionAgrees` | cmd/test-api/internal/grpc/checks.go:104-150 | After a reconnect that sends a message and any updates, agent and API agree, and a check runs if and only if the last change naming it wants it or, if none names it, the table has it enabled. |
| `Sync.FirstUpdateAdds` | internal/checks/checks.go:778-812 | What an agent runs after an update that it takes for its first batch: every check some change wanted. |
| `Sync.FirstUpdateAgreesIff` | internal/checks/checks.go:801-810 | Such an update leaves both sides in agreement on the ids if and only if every check it ever wants is still wanted by the last change naming it. |
| `Sync.FirstUpdateCanDiverge` | internal/checks/checks.go:801-810 | A check added and deleted in one such update keeps running. |
| `Sync.FirstUpdateRuns` | internal/checks/checks.go:771-832 | The version of each check that runs after such an update: only ADDs count, and an UPDATE for a check it runs is dropped. |
| `Sync.FirstLatestRunsIff` | internal/checks/checks.go:801-810 | The latest version runs if and only if the last change naming the check was no dropped delete and no dropped UPDATE to another version. |
| `Sync.FirstUpdateCanKeepOldVersion` | internal/checks/checks.go:801-810 | Added in version 1 and updated to 2 in one such update: both sides agree on the ids and version 1 runs. |
| `Interpolation.ToJavaScript` | internal/prober/interpolation/interpolation.go:177-226 | For every template and environment the generated code evaluates to the simultaneous substitution of every leftmost placeholder, byte by byte; as UTF-16 text it is the template with its placeholders replaced if and only if the template is ASCII. |
| `Interpolation.VariableIff` | internal/prober/interpolation/interpolation.go:13-14 | A variable is matched if and only if its placeholder, with a name of the allowed form, stands at that place. |
| `Interpolation.NameByteEdges` | internal/prober/interpolation/interpolation.go:13-14 | Where the character classes of a name begin and end. |
| `Interpolation.EscapeJavaScript` | internal/prober/interpolation/interpolation.go:229-253 | Appends the escape of every byte in order. |
| `Interpolation.EscapeAllReads` | internal/prober/interpolation/interpolation.go:229-253 | An escaped text inside a string literal reads back unchanged, whatever text follows (section 12.9.4 of ECMA-262). |
| `Interpolation.QuotedIsTerm` | internal/prober/interpolation/interpolation.go:220-222 | A quoted, escaped text is a literal of that value and ends where it was closed. |
| `Interpolation.LookupIsTerm` | internal/prober/interpolation/interpolation.go:205-210 | A name the expression can capture needs no escaping in the lookup. |
| `Interpolation.EvalPlus` | internal/prober/interpolation/interpolation.go:194-210 | Adding a term at the end of the code adds its value at the end. |
| `Interpolation.FindAllSubstitutes` | internal/prober/interpolation/interpolation.go:13-17 | Replacing the matches FindAll reports is substituting every leftmost placeholder at once. |
| `Interpolation.WriteTemplate` | internal/prober/interpolation/interpolation.go:182-225 | The code for a template that is not empty evaluates to the substitution. |
| `Interpolation.WritePieces` | internal/prober/interpolation/interpolation.go:187-213 | After the loop the code evaluates to the template up to the last match, with its placeholders replaced. |
| `Interpolation.WritePiece` | internal/prober/interpolation/interpolation.go:194-212 | One round adds the text before a match and the variable. |
| `Interpolation.WriteLast` | internal/prober/interpolation/interpolation.go:215-223 | The text after the last match is added. |
| `Interpolation.TemplatePreservedIff` | internal/prober/interpolation/interpolation.go:177-253 | Code that evaluates to the substitution is the template's text if and only if the template is ASCII, whatever its placeholders. |
| `Interpolation.TemplateCanDiffer` | internal/prober/interpolation/interpolation.go:245-247 | A two-byte character comes out as two code units instead of one. |
| `Interpolation.SecretIff` | internal/prober/interpolation/interpolation.go:16-17 | A secret is matched if and only if its placeholder stands at that place, up to the first closing brace. |
| `Interpolation.SecretNameEdges` | internal/prober/interpolation/interpolation.go:160-173 | Where the classes and the length of a valid secret name begin and end. |
| `Interpolation.Resolve` | internal/prober/interpolation/interpolation.go:51-127 | Succeeds if and only if every secret name is valid and known, and then substitutes all of them at once; otherwise the first offender is reported, invalid names before any fetch. |
| `Interpolation.CheckNames` | internal/prober/interpolation/interpolation.go:62-91 | Finds the first invalid name, if there is one. |
| `Interpolation.Assemble` | internal/prober/interpolation/interpolation.go:93-124 | Joins the text between placeholders with the secrets, or reports the first that cannot be fetched. |
| `CostLabels.RoundTripIff` | internal/telemetry/region_pusher.go:239-275 | The key reads back as the sorted labels if and only if no name and no value holds a comma or an equals sign. |
| `CostLabels.KeyCanReadBackOtherwise` | internal/telemetry/region_pusher.go:265-272 | A value with an equals sign does not read back. |
| `CostLabels.ReadsBackIff` | internal/telemetry/region_pusher.go:258-275 | Reading a key back does not panic if and only if every comma-separated part of every label holds an equals sign. |
| `CostLabels.ReadingBackCanPanic` | internal/telemetry/region_pusher.go:265-271 | The label value b,c makes it panic. |
| `CostLabels.SameKeyIffSameLabels` | internal/telemetry/region_pusher.go:239-256 | Lists with distinct names, no separators in names and no commas in values share a key if and only if they hold the same labels in some order. |
| `CostLabels.ClashIff` | internal/telemetry/region_pusher.go:239-256 | Some list of other labels has the same key if and only if the list has two labels or more, or one with an equals sign of its own. |
| `CostLabels.DifferentLabelsCanShareKey` | internal/telemetry/region_pusher.go:250-255 | Two lists with the same distinct names, both readable, with one key. |
| `CostLabels.SortIsUnique` | internal/telemetry/region_pusher.go:244-248 | With distinct names every way of sorting gives the same list. |
| `CostLabels.SortSorts` | internal/telemetry/region_pusher.go:244-248 | The list is sorted by name. |
| `Telemetry.MinutesRoundUp` | internal/telemetry/region_pusher.go:197-197 | A started minute counts as a whole one. |
| `Telemetry.MinutesCoverDurations` | internal/telemetry/region_pusher.go:197-197 | Together the sampled minutes cover the time taken, with less than one too many for each execution. |
| `Telemetry.SummaryGrows` | internal/telemetry/region_pusher.go:165-203 | One more execution adds 1 and its minutes, modulo 2^32, to the summary of its own tenant, class and key, and to no other. |
| `Telemetry.RegionPusher.constructor` | internal/telemetry/region_pusher.go:64-100 | An empty index is the summary of no executions. |
| `Telemetry.RegionPusher.NewEntry` | internal/telemetry/region_pusher.go:186-193 | The first execution of a place starts a blank entry with the labels its key reads back as. |
| `Telemetry.RegionPusher.AddExecution` | internal/telemetry/region_pusher.go:165-203 | For labels on which reading the key back does not panic, keeps the index equal to the summary of all executions recorded. |
| `Telemetry.RegionPusher.Next` | internal/telemetry/region_pusher.go:205-237 | The message agrees with the log: one part for each tenant in it, and in the part exactly one entry for each place of its executions, with their count and minutes. |
| `Telemetry.ExecutionsAreReported` | internal/telemetry/region_pusher.go:205-237 | Every execution of the log has its entry in such a message. |
| `Telemetry.ReportedNumbers` | internal/telemetry/region_pusher.go:205-237 | An entry of the message shows its class, the number of executions of the log with its place, their minutes, and their labels sorted if clean. |
| `Telemetry.TenantEntries` | internal/telemetry/region_pusher.go:221-231 | In any iteration order each entry of a tenant's index is listed exactly once. |
| `Telemetry.Telemeter.constructor` | internal/telemetry/telemeter.go:57-74 | No pusher and no executions. |
| `Telemetry.Telemeter.AddIfPresent` | internal/telemetry/telemeter.go:77-86 | Under the read lock the execution is recorded if and only if its region has a pusher. |
| `Telemetry.Telemeter.AddOrCreate` | internal/telemetry/telemeter.go:93-123 | Under the write lock the pusher is looked up again; one that is there is never replaced. |
| `Telemetry.Telemeter.Create` | internal/telemetry/telemeter.go:101-123 | A region's first pusher holds its first execution. |
| `Telemetry.Telemeter.AddExecution` | internal/telemetry/telemeter.go:76-124 | A call nobody comes between keeps one pusher a region, holding exactly that region's executions in order. |
| `Telemetry.Telemeter.Section` | internal/telemetry/telemeter.go:77-123 | One locked section of a call: the read-locked one ends the call if and only if the pusher is there, the write-locked one always does; the execution is recorded exactly when the call ends. |
| `Telemetry.Telemeter.AddExecutions` | internal/telemetry/telemeter.go:76-124 | Any number of calls with their locked sections interleaved in any order: one pusher a region, never replaced, and the log grows by exactly the executions of the calls that returned. |
| `Telemetry.PlaceIsLabelSet` | internal/telemetry/region_pusher.go:165-203 | For labels with distinct names, no separators in names and no commas in values: executions are counted together if and only if tenant, class and label set are the same. |
| `Telemetry.EntryCanBeSharedIff` | internal/telemetry/region_pusher.go:165-203 | Some execution with other labels would be counted in the same entry if and only if the execution has two labels or more, or one with an equals sign of its own. |
| `Telemetry.OtherLabelsCountedTogether` | internal/telemetry/region_pusher.go:183-197 | Two executions with the same label names and different values end up in one entry, without a panic. |
| `Telemetry.CleanLabelsShown` | internal/telemetry/region_pusher.go:258-275 | Clean labels never panic and are shown sorted by name. |
| `Labels.MergeLabels` | internal/scraper/scraper.go:1221-1271 | mergeUserLabels and mergeLogLabels, with their index by name, compute `UpsertAll`. |
| `Labels.LastValueWins` | internal/scraper/scraper.go:1221-1271 | The merge has exactly the names of both lists, each with the last value given to it. |
| `Labels.BaseKeepsPlaces` | internal/scraper/scraper.go:1221-1271 | The first list keeps its positions, and distinct names stay distinct. |
| `Labels.NewNamesInOrder` | internal/scraper/scraper.go:1221-1271 | New names follow in the order in which the second list first has them. |
| `Labels.BuildUserLabels` | internal/scraper/scraper.go:1102-1145 | The labels of each mode: prefixed, un-prefixed without reserved names, or both in that order; unknown modes as prefixed. |
| `Labels.UserValue` | internal/scraper/scraper.go:1102-1145 | In every mode a user label appears with the check's value, or else the probe's: under its own name in UNPREFIXED and DUAL_WRITE unless reserved, under the prefixed name otherwise. |
| `Labels.PrefixedFormKeptIff` | internal/scraper/scraper.go:1109-1125 | In DUAL_WRITE a prefixed form keeps its label's value if and only if no user label has that very name with another value. |
| `Labels.PrefixedFormCanChange` | internal/scraper/scraper.go:1109-1125 | With labels x and label_x the prefixed form of x has the other value. |
| `Labels.PrefixedFormsFirst` | internal/scraper/scraper.go:1096-1125 | In DUAL_WRITE all prefixed forms come before all un-prefixed ones, so these spill over first. |
| `Labels.SystemLabelsKept` | internal/scraper/scraper.go:600-608 | In every mode and for every input the six system log labels come first with their own values, and all names are distinct. |
| `Labels.RegionShown` | internal/scraper/scraper.go:1172-1182 | For every input the region is shown as sm_region, never empty, or in PREFIXED mode as region unchanged; no user label overrides it. |
| `Labels.SystemValues` | internal/scraper/scraper.go:600-607 | For every input, probe, instance, job, check_name and source carry the probe's name, the target, the job, the check's name and the agent's own. |
| `Labels.NoReservedPrefix` | pkg/pb/synthetic_monitoring/checks_extra.go:161-192 | No reserved name, nor region, begins with the prefix. |
| `Labels.SplitIsComplete` | internal/scraper/scraper.go:677-698 | At most maxLogLabels stream labels; stream and overflow hold every merged label once, in order; all names are distinct; from a limit of 7 on the system labels stay on the stream. |
| `Labels.SplitLabels` | internal/scraper/scraper.go:679-698 | On the shared backing array: the overflow is intact although appending probe_success overwrites its first slot. |
| `Labels.Append` | internal/scraper/scraper.go:694-694 | Go's append: in place while there is room, otherwise into a new array. |
| `Labels.CollectLogLabels` | internal/scraper/scraper.go:600-698 | From configured labels to the split, the stream labels and overflow are those of `SplitIsComplete`. |
| `Ticker.TickWithOffset` | internal/scraper/scraper.go:427-526 | The loop makes exactly the calls of the step system, for every sequence of ticks, stops and cancellations. |
| `Ticker.PublicationsAreSpaced` | internal/scraper/scraper.go:486-525 | Consecutive calls are less than maxIdle + 2 minGap apart (a period, if no longer than maxIdle), idle calls are minGap away from all work, and a clean-up is the last call, after some work. |
| `Ticker.WorkEveryPeriod` | internal/scraper/scraper.go:471-523 | Work is done at the offset and then once a period, once for each tick. |
| `Ticker.CleanupIff` | internal/scraper/scraper.go:488-504 | The last call is a clean-up if and only if the loop was stopped after some work; it gets the time of the last work. |
| `Ticker.IdleTickKeeps` | internal/scraper/scraper.go:506-519 | An idle tick, run or skipped, keeps the bound on the time since the last call. |
| `Ticker.WorkTickKeeps` | internal/scraper/scraper.go:521-523 | So does a work tick. |
| `Tenants.Manager.constructor` | internal/tenants/manager.go:66-79 | The cache starts empty, no mutex is held and nothing has happened. |
| `Tenants.Manager.UpdateTenant` | internal/tenants/manager.go:186-247 | The tenant is stored if and only if the write succeeds and the read gave nothing or a smaller modification time; the run goes on by exactly that step. |
| `Tenants.Manager.GetTenant` | internal/tenants/manager.go:253-355 | With any steps of other goroutines between its own, the code takes the cache, the mutexes and the clock through exactly the steps of the system, and returns what the system says the call returns. |
| `Tenants.Manager.FetchLocked` | internal/tenants/manager.go:273-287 | The same for the part from taking the mutex to the second look. |
| `Tenants.Manager.Fetch` | internal/tenants/manager.go:289-355 | The same for the request and what comes of it: the mutex is released on every return. |
| `Tenants.Manager.Others` | internal/tenants/manager.go:81-91 | Steps of others, the clock and evictions leave a call's own stage alone. |
| `Tenants.UndisturbedCall` | internal/tenants/manager.go:253-355 | The steps of a call nobody disturbs: a fresh entry is returned and nothing changes; otherwise the API's answer is stored and returned, or on failure the stale entry, or the error; no mutex stays held. |
| `Tenants.OneFetchPerTenant` | internal/tenants/manager.go:273-290 | In every interleaving at most one fetch per tenant is in flight, and a mutex is held exactly by a call that still needs it. |
| `Tenants.CachedTokenOutlivesScript` | internal/tenants/manager.go:96-184 | A call answered from the cache gets a token that outlives MaxScriptedTimeout from its start whenever the token had that much life when cached, and for a call begun after that only then. |
| `Tenants.ShortTokenHandedOut` | internal/tenants/manager.go:146-152 | A token with two minutes left when cached is handed out from the cache. |
| `Tenants.AnswersUntil` | internal/tenants/manager.go:96-184 | Exactly when an entry answers a later call: until timeout and jitter are over without a token; until the timeout is over or the token no longer outlives a script; until a shorter-lived token expires; never with an incomplete store. |
| `Tenants.KeptWithinTimeoutIff` | internal/tenants/manager.go:96-184 | An entry is kept no longer than the timeout if and only if it has no token whose life lies between the timeout and MaxScriptedTimeout and, if it is kept by the timeout alone, drew no jitter. |
| `Tenants.JitterCanOutliveTimeout` | internal/tenants/manager.go:173-183 | A jitter of 15 on a timeout of 60 keeps an entry for 75. |
| `Tenants.EntryCanOutliveTimeout` | internal/tenants/manager.go:146-152 | A token of two minutes outlives a timeout of one. |
| `Tenants.CachedStoreIsUsable` | internal/tenants/manager.go:114-121 | A call begun after caching never gets an entry with an incomplete secret store from the cache. |
| `Tenants.ModifiedNeverDrops` | internal/tenants/manager.go:186-355 | While the cache keeps its entries and the API answers with its current version, no cached tenant is ever replaced by an older one, with fetches and updates racing. |
| `Tenants.UpdateStoredIff` | internal/tenants/manager.go:198-241 | An update that can be written becomes the entry if and only if the read gave nothing or a strictly older version; otherwise nothing changes. |
| `Tenants.UpdateSticks` | internal/tenants/manager.go:186-355 | From an update that was written on, its tenant stays cached in at least that version, while the cache keeps its entries and the API answers with its current version. |
| `Tenants.OlderIff` | internal/tenants/manager.go:186-355 | In general an entry gets older if and only if a fetch answers with an older version, or an update is older and the read before it failed. |
| `Tenants.FetchCanInstallOlder` | internal/tenants/manager.go:329-342 | A call after an update replaces version 2 by version 1. |

## Assumptions of the models

- Clocks do not go back, as Go's monotonic readings guarantee.
- In `Sync` the checks to be run are valid and not filtered by feature, and FromSM and the
  scraper factory succeed; `Updater` covers their failures.
- In `Ticker` tickers are ideal and callbacks take no time.
- `Snappy.Decode` follows Google's format_description.txt, sections 1, 2.1 and 2.2, with the
  limit of section 1 on the decoded length as a parameter.
- `Interpolation` reads the two regular expressions as hand-written matchers on bytes;
  variables hold strings of code units below 256.
- `CostLabels.Sort` is a stable sort. With repeated names Go's sort may order them
  differently; with distinct names `CostLabels.SortIsUnique` makes the choice immaterial.

## Left out

- HTTP, gRPC, TLS, DNS, ICMP and traceroute probers, and the Prometheus and Loki clients: input and output; a send is any outcome.
- Classification of publish errors by their text: a table; the kind of error is an input.
- Back-off delays, idle and lifetime checks of a pusher: they only decide when a step happens.
- The overflow of byte counts beyond 2^64 in limitBytes and get: queues are bounded long before.
- Substitution of variables in Resolve: the only caller passes no variable provider.
- Metric labels (appendUniqueLabels, makeTimeseries) and the check-info limits: they would only add easy members.
- Ordering of stale markers against republished samples.
- Durations summed as float32 in telemetry, and rounding of float timestamps: reals or integers here.
- Pushing telemetry to the API and its retries.
- Decoding a cache entry into a variable that already holds one: the encoding library is not part of this model.
- Registration and liveness of probes in the API, its database, and the choice of k6 versions.
- Logging, metrics other than the gauges and counters named above, flags and wiring.
