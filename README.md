# Sync plugin push pipeline, modelled in Dafny

This project models the two non-trivial pieces of the HunterPie sync plugin.

1. **`PushService`** (`Plugin.Sync/Server/PushService.cs`) relays changed monster snapshots to the session server. It is made of:
   - a snapshot cache, keyed by slot index, that drops pushes equal to what was last accepted;
   - a pending queue, coalesced into one ascending batch per pass;
   - a start/stop lifecycle that cancels the worker's token and clears the cache and queue;
   - a background push loop with a retry counter that gives up after 10 consecutive failed sends.
2. **`ListCompactionConverter`** (`Plugin.Sync/Util/ListCompactionConverter.cs`) is a JSON converter. It writes a list of records as `["$__", [names…], [values…], …]` and reads that form back.

Modules, one per concern:

- `Monsters` (monsters.dfy): `MonsterModel` as a datatype, whose structural equality stands in for the model's `Equals`.
- `Coalescing` (coalescing.dfy): the drain pipeline `GroupBy(Index) / Last / OrderBy(Index)` as the function `Coalesce`. A reference definition (`LastWith`) and a uniqueness lemma pin its meaning.
- `PushLoop` (push_loop.dfy): the push loop as a state machine. One pass is `Next`. Lemmas over whole runs prove the retry ceiling, reset on success, fail-stop, and that nothing is sent without a session, after cancellation, or for an empty batch.
- `Server` (push_service.dfy): `class PushService` with the source's fields and methods. Each locked block is one atomic method. `LoopPass` is proved to be `Next` applied to the batch it drains, and `PushLoop` is the `while` loop over passes.
- `Json`, `ListCompaction` (json.dfy, list_compaction.dfy): a JSON token datatype and the codec. `WriteJson` and `ReadJson` keep the source's loops and are proved equal to the functions `Encode` and `Decode`.

Behaviour of the code that the model keeps, where a reader might expect otherwise:

- `SetState` decides on `thread?.IsAlive` (the `threadAlive` field). The thread's start routine is the `async void PushLoop`, which returns to the thread at its first `await`. Every pass ends in an `await` or a `return`, so the thread ends with the first pass while the loop carries on (the `looping` field).
  - After the first pass, `SetState(false)` finds the thread dead and does nothing: the token is not cancelled and the cache and queue are kept (see Findings). `SetState(true)` then cancels the old token and starts a second loop.
  - `SetStateIntended` decides on `looping` instead. It is the corrected lifecycle, next to the as-written `SetState` that the rest of the model uses.
- Cancellation is checked after the drain. The batch drained in the cancelled pass is discarded.
- `CanConvert`'s comment (ListCompactionConverter.cs:20) says strings are included, but `string` implements `IEnumerable`, so the code rejects `List<string>`; the model follows the code (`CanConvert`).
- The retry counter is compared with `==` against 10. It starts at 0 and is reset on success, so it never passes the ceiling (`RetryCounterTracksFailures`).
- `ReadJson` selects its rows with `Children<JArray>().Skip(2)`. `Children<JArray>()` keeps only the array-typed elements, so the string tag is not among them. `Skip(2)` therefore drops the header and the first value row.
  - The round trip that holds is `Decode(Encode(xs)) == xs[1..]` (`RoundTrip`), not `Decode(Encode(xs)) == xs` as a converter is meant to satisfy.
  - `ReadJson` models the code as written. `DecodeIntended` is the corrected selection, proved to round-trip (see Findings).

## Model

| member | source | states |
|---|---|---|
| `Coalescing.LastWith` | Plugin.Sync/Server/PushService.cs:105-106 | the update kept for index i is an update of the queue with index i, and one exists exactly when i is queued |
| `Coalescing.LastWithIsLast` | Plugin.Sync/Server/PushService.cs:105-106 | the update kept for index i sits at a position of the queue after which no update has index i: it is the last one |
| `Coalescing.Coalesce` | Plugin.Sync/Server/PushService.cs:104-108 | the drained batch is strictly ascending by index, has exactly the queued indices, holds for each index the last update appended with it, and is no longer than the queue |
| `Coalescing.CoalesceOnePerIndex` | Plugin.Sync/Server/PushService.cs:104-106 | the batch has exactly one update per distinct queued index |
| `Coalescing.AscendingPairwise` | Plugin.Sync/Server/PushService.cs:107 | in an ordered batch every earlier update has a smaller index than every later one |
| `Coalescing.CoalesceIsUnique` | Plugin.Sync/Server/PushService.cs:104-108 | any ascending batch with the queued indices and the last update of each is the drained batch, so the result does not depend on grouping order |
| `PushLoop.Next` | Plugin.Sync/Server/PushService.cs:90-145 | one pass: a stopped loop stays stopped; a pass that makes no call leaves the loop as it was unless it saw the cancellation, which ends it; a successful call resets the counter to 0; a failed call adds 1 and ends the loop exactly when that reaches 10 |
| `PushLoop.StoppedIsFinal` | Plugin.Sync/Server/PushService.cs:112-116 | once the loop has returned, no later pass changes anything or calls the transport client |
| `PushLoop.RetryCounterTracksFailures` | Plugin.Sync/Server/PushService.cs:125-144 | the retry counter equals the number of failed sends since the last success, so it resets to 0 on success and grows by 1 per failure; it stays below 10 while running, 10 is never reached before a send, and reaching it stops the loop |
| `PushLoop.FailStop` | Plugin.Sync/Server/PushService.cs:136-144 | from a fresh loop, no send is attempted after 10 consecutive failures, and 10 consecutive failures leave the loop stopped |
| `PushLoop.AttemptsComeFromLiveBatches` | Plugin.Sync/Server/PushService.cs:92-125 | every send carries a non-empty batch drained in a pass that had a session and an uncancelled token |
| `PushLoop.CancelledPassStops` | Plugin.Sync/Server/PushService.cs:112-116 | a pass that sees the token cancelled ends the loop and sends nothing |
| `PushLoop.StopReason` | Plugin.Sync/Server/PushService.cs:112-144 | the loop stops only when a pass saw cancellation or when the last 10 sends all failed |
| `Server.PushService.constructor` | Plugin.Sync/Server/PushService.cs:16-23 | a new service has no session, an empty cache and queue, an uncancelled token, no live thread and no running loop |
| `Server.PushService.SetState` | Plugin.Sync/Server/PushService.cs:25-52 | no-op, token included, when the thread's liveness equals the request; otherwise the old token is cancelled and cache and queue are emptied; a start installs a fresh uncancelled token, a live thread and a running loop; a stop leaves the token object, the thread flag and the loop flag as they were |
| `Server.PushService.SetStateIntended` | Plugin.Sync/Server/PushService.cs:25-52 | the same, deciding on whether the loop is still running instead of on the thread's liveness |
| `Server.PushService.PushMonster` | Plugin.Sync/Server/PushService.cs:65-83 | without a session, or with an equal update cached at its index, nothing changes; otherwise the cache gets the update at its index, every other key is untouched, and the queue is the old queue plus the update; the cache still holds the last queued update of every queued index |
| `Server.PushService.PushObservedMonster` | Plugin.Sync/Server/PushService.cs:54-63 | without a session nothing changes; otherwise it is PushMonster of the update carrying the slot index and the monster's id, parts and ailments |
| `Server.PushService.Drain` | Plugin.Sync/Server/PushService.cs:102-110 | returns the coalesced batch of the queue and empties the queue; every update returned is the one the cache holds at its index |
| `Server.PushService.LoopPass` | Plugin.Sync/Server/PushService.cs:90-145 | one pass: without a session the queue is untouched and nothing is sent; otherwise the queue is drained, and the new loop state and the send made are exactly those of the loop machine for that batch, the token's state and the send outcome |
| `Server.PushService.PushTwice` | Plugin.Sync/Server/PushService.cs:74-81 | pushing the same update twice in a row has the effect of pushing it once: when accepted, the cache holds it at its index, no other key changes, and it is queued once; otherwise nothing changes |
| `Server.PushService.StartTwice` | Plugin.Sync/Server/PushService.cs:27-41 | SetState(true) twice has the effect of once: if the thread is already alive nothing changes, otherwise the old token is cancelled, one fresh uncancelled token is installed, cache and queue are cleared once, and a loop runs; the second call is a no-op |
| `Server.PushService.StopAfterFirstPass` | Plugin.Sync/Server/PushService.cs:27-29 | start, one pass, a push, a stop, one more pass: the loop's token stays uncancelled, the pushed update stays cached, and the loop is still running after the second pass |
| `Server.PushService.StopAfterFirstPassIntended` | Plugin.Sync/Server/PushService.cs:27-29 | the same sequence with the intended stop: the token is cancelled, cache and queue are empty, and the second pass, if it has a session, ends the loop |
| `Server.PushService.PushLoop` | Plugin.Sync/Server/PushService.cs:85-147 | the loop is the loop machine run over one pass per round: a pass finds no session exactly when its round left none and reports its round's send outcome; every send comes from a pass with a session and an uncancelled token and carries a non-empty ascending batch; no send after 10 consecutive failures; the counter is the current run of failures; it ends only on cancellation or at the ceiling, and then the loop is marked returned; once a pass has run the thread is dead |
| `ListCompaction.CanConvert` | Plugin.Sync/Util/ListCompactionConverter.cs:18-30 | the converter applies exactly to `List<T>` with T a non-enumerable class; so never to lists of strings, of lists or arrays, of value types, or to non-lists |
| `ListCompaction.Encode` | Plugin.Sync/Util/ListCompactionConverter.cs:32-60 | an empty list is an empty array with no tag; a list of n records is n + 2 elements: the tag `$__`, the field names of the first record only, then record k's values in its own field order at position k + 2, whatever its shape |
| `ListCompaction.WriteJson` | Plugin.Sync/Util/ListCompactionConverter.cs:32-60 | the array built by the source's loops is Encode of the list |
| `ListCompaction.DecodeRowZips` | Plugin.Sync/Util/ListCompactionConverter.cs:74-78 | a row decodes exactly when the header has only distinct string names and the row has a value for each; the record then pairs header name k with row value k for every k, so its names are the header's, in order |
| `ListCompaction.DecodeRow` | Plugin.Sync/Util/ListCompactionConverter.cs:74-78 | a decoded record has one property per header entry, and a row shorter than the header never decodes |
| `ListCompaction.DecodeRows` | Plugin.Sync/Util/ListCompactionConverter.cs:72-81 | the rows decode exactly when each row does, into one record per row in order |
| `ListCompaction.ChildrenOfEncoding` | Plugin.Sync/Util/ListCompactionConverter.cs:72 | the array-typed children of an encoding are the header followed by one row per record; the tag is not among them |
| `ListCompaction.ReadItem` | Plugin.Sync/Util/ListCompactionConverter.cs:74-78 | the record built by the inner loop, or its first exception, is DecodeRow of the header and the row |
| `ListCompaction.Decode` | Plugin.Sync/Util/ListCompactionConverter.cs:62-84 | reading succeeds only on an array; on a non-empty one, element 1 is the header array, at most n - 2 records come from n elements, and each record has exactly the header's number of properties |
| `ListCompaction.DecodeIntended` | Plugin.Sync/Util/ListCompactionConverter.cs:70-72 | the corrected reading: the same, with at most n - 1 records from n elements |
| `ListCompaction.ReadJson` | Plugin.Sync/Util/ListCompactionConverter.cs:62-84 | the list built by the source's loops, or its first exception, is Decode of the token |
| `ListCompaction.RoundTrip` | Plugin.Sync/Util/ListCompactionConverter.cs:34-83 | for a list whose records all have the first record's distinct field names, decoding its encoding gives the list without its first record (and the empty list for the empty list) |
| `ListCompaction.DecodeDropsFirstRecord` | Plugin.Sync/Util/ListCompactionConverter.cs:72 | no non-empty homogeneous list survives the round trip as written |
| `ListCompaction.OneRecordDecodesToNothing` | Plugin.Sync/Util/ListCompactionConverter.cs:70-72 | the list with the one record `{"id": 1}` encodes to `["$__", ["id"], [1]]`, which decodes to the empty list |
| `ListCompaction.RoundTripIntended` | Plugin.Sync/Util/ListCompactionConverter.cs:70-72 | with the row selection the comment intends, every homogeneous list survives the round trip |

## Left out

- Threads, `async`/`await`, `Task.Delay` (idle, throttle and backoff waits) and `Stopwatch`: only the order of the steps in a pass is kept. The throttle floor between sends is a timing property and is not stated.
- `lock` and `ConcurrentDictionary`: each locked block is one atomic method, and the dictionary is a `map`.
- `CancellationTokenSource` is reduced to a cancellation flag (`TokenSource`).
- Logging (`Logger.*`), including the "connection restored" and "pushing stopped" events: observability only.
- `SyncServerClient.PushChangedMonsters` is not part of this model. Its outcome is an input to each pass (`sendOk`), and any exception it raises counts as a failed send. The session identifier handed to it is not recorded.
- `Server.PushService.PushLoop`: the source loops forever. The model runs it for the rounds it is given and returns `Active` if they run out first. The rest of the program acts only between passes, so a session change between the check at line 92 and the send at line 125 is not modelled.
- `Server.PushService.SetState`: starting a thread is not modelled. A start sets `threadAlive` and `looping`, and `PushLoop` is invoked separately with the new token. A start after the first pass, which leaves the old loop running beside the new one until it sees its cancelled token, is not one of the rounds `PushLoop` is run against; only one loop is modelled at a time.
- `Server.PushService.LoopPass`: every `await` is taken to suspend, so the thread ends with the first pass. A transport call that completes at once is still followed by the 300 ms or 10 s wait, so this holds whatever the transport does.
- `MonsterPartModel.FromDomain`, `AilmentModel.FromDomain` and the domain `Monster` type are not part of this model. A part or ailment is an opaque snapshot compared by value, and `Monster` carries them already mapped.
- `JObject.FromObject`, `ToObject`, `Activator.CreateInstance` and `JsonWriter`/`JsonReader`: a record is given as its ordered property list, and decoding returns property lists. Materialising the target type, and the conversion errors that can raise, are not modelled. JSON text and its parse errors are not modelled either.
- `ListCompaction.DecodeRow`: a header entry that is not a JSON string fails with `KeyNotString`. The source would instead use the entry's `ToString()` text as the property name, and that rendering is not modelled.
- JSON numbers are integers; floating point is left out.
- `CanConvert` ranges over an abstract type descriptor (`TypeDesc`), not .NET reflection.
- Null list elements (`JObject.FromObject(null)` throws) are not modelled, because a record here is never null.

## Findings

| source | as written | input that shows it | evidently intended | confidence | as-written member | corrected member |
|---|---|---|---|---|---|---|
| Plugin.Sync/Util/ListCompactionConverter.cs:72 | rows are `array.Children<JArray>().Skip(2)`, and the type filter leaves out the string tag, so the header and the first value row are skipped | the list `[{"id": 1}]` is written as `["$__", ["id"], [1]]` and read back as the empty list | skip only the header (the comment on line 70 speaks of skipping the tag), so that a written list reads back whole | high; not executed | `ListCompaction.DecodeDropsFirstRecord` | `ListCompaction.RoundTripIntended` |
| Plugin.Sync/Server/PushService.cs:27-29 | the liveness check reads `thread?.IsAlive`, but the thread runs the `async void PushLoop` (lines 34, 85) only up to its first `await`, so after the first pass a stop returns at line 29 | start; one pass with a session and an empty queue (it awaits `Task.Delay(50)`); push an update; stop: the token is not cancelled, the update stays cached, and the next pass sends it and the loop runs on | a stop cancels the running loop and clears the cache and queue, as it does before the first pass | medium; not executed | `Server.PushService.StopAfterFirstPass` | `Server.PushService.StopAfterFirstPassIntended` |
