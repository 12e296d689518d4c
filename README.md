# Live-update broadcast registry

This project models the live-update core of a small web application. The
application shows one piece of server-held text and pushes every change of that
text to the open browser tabs over server-sent events. The model covers two
registries of event streams and proves properties about both.

- **`SSEService`** (`sse_service.dfy`) is the registry of the server-side-rendered
  variant.
  - It keeps an insertion-ordered set of clients and a counter from which client
    ids are made.
  - Each client handle carries a closed flag and a one-shot five-minute expiry
    timer.
  - A client's `write` drops chunks after close. When its enqueue fails, it
    deregisters and closes itself.
  - A client's `cleanup` is idempotent.
  - The registry offers `addClient`, `removeClient`, `broadcastUpdate`,
    `getStats` and `cleanup`.
- **The legacy broadcaster** (`legacy_events.dfy`) is the older event endpoint of the root
  application.
  - It is a module-level set of writers.
  - On connect, a stream gets a greeting event, then the stored text, and is
    only then registered.
  - A writer whose enqueue fails deletes itself.
  - Cancelling a stream only logs, so a cancelled writer stays registered until
    a write to it fails.

The supporting modules are as follows:

- `streams.dfy`: a stream controller as a value. It holds the stream's state
  (readable, closed or errored) and every chunk enqueued so far. An enqueue
  succeeds exactly while the stream is readable. The state is the oracle that
  decides whether a write fails.
- `insertion_ordered_set.dfy`: a JavaScript `Set` as a sequence without
  duplicates, so that iteration order is part of the model.
- `event_format.dfy`: the text of an event, `data: <JSON>\n\n`.
  - JSON quoting of a string follows QuoteJSONString of ECMA-262 (section
    25.5.2.3).
  - The module also has the matching parser, so that round trips can be proved.
- `client_ids.dfy`: the id format `client_<counter>_<timestamp>` and its
  parser.

Clock readings are parameters:

- `AddClient`'s `stamp` for the id and its `connectedAt` for the handle, since `addClient` reads the
  clock twice;
- `GetStats`'s `clock`, one reading per entry;
- `Client.Expire`'s `now`.

 The stream's transport appears as two environment
actions on a client:

- `Disconnect`: the viewer cancels the stream.
- `Break`: the stream fails.

Neither action has source lines of its own. Each only changes the stream's
state, and the next write then observes that state.

Three points of the code shape the model:

- `SSEService` holds no text. The text lives in a file that the HTTP routes read and write.
- A client's own `write` deregisters and closes the client when its enqueue throws. The sweep at
  ssr-solution/src/services/sse-service.ts:97 therefore finds only closed clients, and `CleanupAll`
  proves that it changes nothing.
- `removeClient` only deletes from the set. The timer is cleared by the client's `write` and
  `cleanup`.

## Model

| member | source | states |
|---|---|---|
| Streams.Enqueue | ssr-solution/src/services/sse-service.ts:43 | `controller.enqueue` succeeds exactly on a readable stream and then appends the chunk; otherwise the stream is unchanged |
| Streams.Close | ssr-solution/src/services/sse-service.ts:19 | `controller.close` succeeds exactly on a readable stream and leaves it closed with its chunks; otherwise it throws and changes nothing |
| SseService.SafeClose | ssr-solution/src/services/sse-service.ts:16-26 | a readable stream ends closed; an already closed or errored stream is left as it is (no error escapes); chunks are never lost |
| SseService.Client.constructor | ssr-solution/src/services/sse-service.ts:14-37 | a new handle is open with its expiry timer pending, and belongs to the service that made it |
| SseService.Client.Write | ssr-solution/src/services/sse-service.ts:38-52 | on a closed client the write is dropped, succeeds and changes nothing; on an open client it succeeds exactly when the stream is readable and appends the chunk; otherwise the client is marked closed, its timer is cleared, exactly this client is removed from the set, its stream is closed safely and the failure is reported |
| SseService.Client.Cleanup | ssr-solution/src/services/sse-service.ts:53-60 | the first call closes the client, clears its timer, removes exactly this client from the set and closes its stream safely; a later call changes nothing; the service invariant is kept |
| SseService.Client.Expire | ssr-solution/src/services/sse-service.ts:28-33 | the timer, firing five minutes after connection, runs the same cleanup on an open client and changes nothing on a closed one |
| SseService.SSEService.constructor | ssr-solution/src/services/sse-service.ts:8-10 | an empty set and a zero counter satisfy the invariant: every client is registered exactly while it is open |
| SseService.SSEService.AddClient | ssr-solution/src/services/sse-service.ts:12-66 | the counter is incremented first; exactly one fresh, open client with a pending timer is appended; its id is built from the new counter value and the first clock reading, and its connection time is the second; every previously registered client stays, and the size grows by one |
| SseService.SSEService.RemoveClient | ssr-solution/src/services/sse-service.ts:69-74 | deletes exactly that client and keeps the others in order; `removed` is true exactly when it was registered |
| SseService.SSEService.BroadcastUpdate | ssr-solution/src/services/sse-service.ts:76-98 | every client registered at call time whose stream accepts the write gets exactly one copy of the same update event, and all other clients' streams are untouched; afterwards the set is the old set, in order, minus the clients whose write failed, and those are closed; with no clients nothing changes |
| SseService.SSEService.WriteAll | ssr-solution/src/services/sse-service.ts:82-95 | the fan-out over a snapshot of the set: the same result as above, and `toRemove` lists exactly the registered clients whose write failed |
| SseService.SSEService.WriteNext | ssr-solution/src/services/sse-service.ts:86-93 | one client's write in the fan-out keeps the pass's invariant: written-to reachable clients hold the message once, failed ones are closed, deregistered and pushed onto `toRemove`, the rest are still registered |
| SseService.SSEService.CleanupAll | ssr-solution/src/services/sse-service.ts:97 | the sweep over clients that are already closed changes neither the set nor any client |
| SseService.SSEService.GetStats | ssr-solution/src/services/sse-service.ts:100-109 | one entry per registered client in insertion order with its id, connection time and the time since connection by that entry's own clock reading; the total is the set size |
| SseService.SSEService.StatsCountOpenClients | ssr-solution/src/services/sse-service.ts:100-102 | the reported total equals the number of clients that are open |
| SseService.SSEService.StatsIdsDistinct | ssr-solution/src/services/sse-service.ts:103-107 | no two entries of the statistics carry the same id |
| SseService.SSEService.IdsUnique | ssr-solution/src/services/sse-service.ts:10-13 | two clients of one service have the same id only if they are the same client, because the pre-incremented counter part differs |
| SseService.SSEService.Cleanup | ssr-solution/src/services/sse-service.ts:111-115 | every client ends closed with its timer cleared, and every stream was closed safely; the set ends empty |
| InsertionOrderedSet.Add | ssr-solution/src/services/sse-service.ts:63 | `Set.add` adds the element and keeps every present one in place |
| InsertionOrderedSet.AddKeepsDistinct | ssr-solution/src/services/sse-service.ts:63 | adding keeps the set free of duplicates, and its size grows by one exactly for a new element |
| InsertionOrderedSet.Delete | ssr-solution/src/services/sse-service.ts:70 | `Set.delete` removes exactly that element and leaves the set as it was if the element was absent |
| InsertionOrderedSet.DeleteKeepsDistinct | ssr-solution/src/services/sse-service.ts:70 | deleting keeps the set free of duplicates, and its size shrinks by one exactly when the element was there |
| InsertionOrderedSet.Keep | ssr-solution/src/services/sse-service.ts:86-97 | the subset of the set in a given collection, in the original order |
| InsertionOrderedSet.FilteringFacts | src/pages/events.ts:11-18 | deleting the rejected elements one at a time, in iteration order, ends with exactly the kept ones in order, and the element visited next is still present |
| InsertionOrderedSet.DistinctCardinality | ssr-solution/src/services/sse-service.ts:102 | the size of a set without duplicates is its number of distinct elements |
| EventFormat.UnquoteQuote | ssr-solution/src/services/sse-service.ts:82 | `Quote`, `JSON.stringify` of a string: `JSON.parse(JSON.stringify(s)) == s` for every text |
| EventFormat.ParseUpdateRoundTrip | ssr-solution/src/services/sse-service.ts:82 | `UpdateMessage` and its `DynamicStringPayload`, which the legacy broadcaster builds in the same way (src/pages/events.ts:9): a viewer recovers exactly the published text from the update event |
| EventFormat.UpdateMessageInjective | ssr-solution/src/services/sse-service.ts:82 | distinct texts give distinct update events, and equal texts give the same bytes for every recipient |
| EventFormat.UpdatePayloadIsOneLine | src/pages/events.ts:9 | the JSON payload of `UpdateMessage` has no raw line break, so the event is one `data:` line followed by a blank line |
| EventFormat.ConnectedIsNotUpdate | src/pages/events.ts:30 | the greeting event `ConnectedMessage` is never read as a text update and differs from every update event |
| ClientIds.ParseDecimalRoundTrip | ssr-solution/src/services/sse-service.ts:13 | the decimal form of a counter or timestamp reads back as the same number |
| ClientIds.ParseFormatId | ssr-solution/src/services/sse-service.ts:13 | `FormatId`, the id `client_<counter>_<timestamp>`, gives back its counter and timestamp |
| ClientIds.FormatIdInjective | ssr-solution/src/services/sse-service.ts:13 | two ids are equal exactly when both their counters and their timestamps are equal |
| LegacyEvents.CurrentText | src/pages/events.ts:37 | the stored `dynamicString`, or `default dynamic string` when it is absent or empty |
| LegacyEvents.InitialMessages | src/pages/events.ts:29-41 | a new stream first gets the greeting, then an update event carrying the current text exactly when the stored value could be read |
| LegacyEvents.Writer.constructor | src/pages/events.ts:44-53 | the `customWriter` wraps the stream of its own controller and belongs to the module's set |
| LegacyEvents.Writer.Write | src/pages/events.ts:45-52 | the chunk is enqueued when the stream is readable; otherwise the writer deletes exactly itself from the set and the error goes no further |
| LegacyEvents.Writer.Cleanup | src/pages/events.ts:58-63 | deletes this writer and no other from the set |
| LegacyEvents.Writer.Disconnect | src/pages/events.ts:66-69 | a cancelled stream accepts nothing more, yet the set is unchanged: the writer stays registered |
| LegacyEvents.Broadcaster.constructor | src/pages/events.ts:5 | the set starts empty |
| LegacyEvents.Broadcaster.Connect | src/pages/events.ts:23-55 | the new stream holds the greeting, then the current text when it could be read, and only then is the writer appended to the set |
| LegacyEvents.Broadcaster.BroadcastUpdate | src/pages/events.ts:8-19 | every writer registered at call time whose stream accepts the write gets one copy of the update event; the others are untouched and deleted from the set; the remaining set keeps its order and holds only writers with readable streams |
| LegacyEvents.Broadcaster.WriteNext | src/pages/events.ts:11-18 | one `forEach` callback keeps the pass's invariant: written-to reachable writers hold the message once, failed ones have deleted themselves |

## Left out

- Logging (`console.log`, `console.error`) is not modelled; it has no effect on the registries.
- `TextEncoder` is not modelled: events are modelled as strings. UTF-8 encoding is a foreign encoder.
- Async scheduling is not modelled. `Promise.allSettled` and the `async` callbacks become a sequential
  loop in set order. Each write's enqueue and failure handling run without suspension in the code, so
  the order of effects is the same.
- The live `forEach` over the legacy set is modelled as a loop over a snapshot. Only the element being
  visited is ever deleted during that loop, so the visits are the same.
- `Date.now`, `new Date()`, `setTimeout` and `clearTimeout` are not modelled. The clock is a parameter,
  and the timer is the `timerPending` flag plus the `Expire` event.
- SseService.Client.Expire: does not model cancellation of a callback that was already queued. Its
  requires only says the timer fires no earlier than five minutes after the id's clock reading. The
  timer is set between the two clock readings of `addClient`.
- SseService.SSEService.IdsUnique: rests on an unbounded counter. In the code `clientCounter` is a
  JavaScript number, and `++` stops changing it at 2^53. Beyond that, ids made in the same millisecond
  could repeat. The model's counter is a `nat`.
- SseService.SafeClose: the `ERR_INVALID_STATE` test decides only whether an error is logged, so every
  error from `close` is treated as swallowed.
- Streams.Close: `closeRequested` is not modelled. A close request makes a stream closed at once, which
  is how enqueue observes it.
- Aliasing of one controller between two clients is not modelled. Each client holds its own stream
  value, since `start` always receives a fresh controller.
- A present `dynamicString` field in the stored text file that is not a string is not modelled, because
  JSON.stringify would write it as another JSON type. An unreadable file and a failed parse are both
  modelled as `Unreadable` (the datatype `StoredText`).
- EventFormat.Unquote: surrogate pairs written as two `\u` escapes are not decoded, because a Dafny
  `char` is a scalar value. The parser is used only for round trips of what `Quote` writes, which never
  emits such pairs.
- The HTTP route handlers are not part of this model: `api/events.ts`, `api/update.ts`, `api/text.ts`
  and `api/stats.ts`, with their file reads and writes and the response headers.
- The legacy `GET` handler's `Response` construction is not modelled. The infrastructure definitions
  and the command-line entry points are not part of this model either.
