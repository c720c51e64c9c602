# Pebby event log and transmitter, modelled in Dafny

Pebby is a Pebble watch app that records caregiving events (feed, diaper
change, sleep start, sleep stop) and relays them to the phone. This project
models three parts of it and proves properties of the model:

- `event_log.dfy`, module `EventLog`: the watch's event log. It is a static
  array of 50 events with a size and a first-slot index, logical index `i`
  living in slot `(first + i) % 50`. Class `Log` keeps the `array<Event>` and
  the two counters; `Contents()` is the abstract sequence, oldest first, and
  every operation is proved against it. The 5-byte record encoder is a method
  with the source's 4-iteration loop, proved equal to the function
  `EncodeEvent`, whose inverse `DecodeEvent` gives the round trip (timestamps
  come back mod 2^32).
- `communication.dfy`, module `Communication`: the transmitter. The flags
  `comm_ready`, `transmit_in_progress` and `eventsInMessage` are set and
  cleared by the connection, outbox-sent, outbox-failed and retry-timer
  callbacks. The state machine is stated on values (datatype `Session` and its
  transitions); class `Comm` holds the flags and shares the `Log` object, and
  each of its methods is proved to follow the matching `Session` transition.
  The invariant `Inv` says that while a message is in flight, the events it
  carried are still the oldest events of the log. It is preserved by every
  callback, including appends during the flight. So the purge on
  acknowledgement is never rejected, and it removes exactly the acknowledged
  events.
- `companion.dfy`, module `Companion`: the phone-side `appmessage` handler.
  For each payload key it appends the value to that key's array unless the
  value is already there. It records each changed key once in `updated` and
  writes only those keys back to local storage. The model also covers the
  `webviewclosed` reset branch. The two copies of the script
  (`src/js/pebble-js-app.js` and the older `src/pebble-js-app.js`) have the
  same merge loop and share this model.

Platform calls are parameters. The results of
`bluetooth_connection_service_peek`, `app_message_outbox_begin`, the returned
iterator, `dict_write_data` and `app_message_outbox_send` are the fields of a
`Transport` value. `app_message_open`'s result is a boolean. Retry-timer
arming is a counter of armed timers, and a timer fires only when one is armed.
Logging macros are no-ops. The message the outbox accepted is kept as
`lastSent`.

Points where the code behaves differently from what a reader might expect:

- There is no reset handshake. `inbox_received` is empty, so no inbound
  message changes any state.
- `log_event` does not start a transmission. Only comm_init, a connect, an
  acknowledgement (when events remain) and a retry timer do.
- The bluetooth handler never updates `comm_ready`, and a disconnect changes
  nothing.
- `comm_transmit` sends even when the log is empty, as a count byte 0.
- `log_get_event` returns NULL only for an index of 50 or more, not for an
  index of `size` or more.
- comm_deinit leaves `transmit_in_progress` and armed timers as they are. A
  stale timer then does nothing, because `comm_ready` is false.
- In the companion, a payload key without an array makes `indexOf` throw.
  The handler then stops part-way: pushes already done remain in
  `memoryArray` and nothing is written to storage. The watch's own messages
  use key 0 (`MESSAGE_KEY_EVENT_BLOB`), which the companion never
  initialises, so such a message takes exactly that path.
- `webviewclosed` clears storage but not `memoryArray`.

`log_serialize` and `log_calculate_serialized_size` are called by
`comm_transmit` but are not part of this model's source files. The model
ASSUMES this layout: one count byte, then one
`log_serialize_event` record per event, oldest first (`SerializeLog`). The
reader `DecodeLog`, used only to state the round trip, rests on that same
assumption.

## Model

| member | source | states |
|---|---|---|
| `EventLog.KindOf` | src/event_log.h:10-15 | a type byte names an event type exactly when it is below 4, and then it is that type's code |
| `EventLog.Log.constructor` | src/event_log.c:3-6 | the zero-initialised statics: empty log, first slot 0, invariant `size <= 50 && first < 50` established |
| `EventLog.Log.Size` | src/event_log.c:8-10 | returns the number of events in the abstract log |
| `EventLog.Log.Full` | src/event_log.c:12-14 | true exactly when the abstract log holds 50 events |
| `EventLog.Log.LogEvent` | src/event_log.c:16-30 | on a full log returns false and changes neither size, first nor any slot; otherwise returns true, writes only slot `(first + oldSize) % 50`, and grows size by 1; the abstract log becomes old log + [event]; invariant kept |
| `EventLog.WindowAppend` | src/event_log.c:22-25 | writing slot `(first + size) % 50` appends one logical entry and leaves every earlier logical entry unchanged |
| `EventLog.Log.GetEvent` | src/event_log.c:32-39 | NULL exactly when index >= 50 (not when index >= size); otherwise slot `(first + index) % 50`, which for index < size holds logical entry index |
| `EventLog.Log.PurgeFromStart` | src/event_log.c:41-54 | count > size changes nothing; otherwise first := (first + count) % 50, size := size - count, and the abstract log becomes `s[count..]`; invariant kept |
| `EventLog.WindowPurge` | src/event_log.c:52-53 | after the purge, new logical entry i is old logical entry count + i |
| `EventLog.SerializeEvent` | src/event_log.c:56-64 | writes exactly the five bytes `buffer[at..at+5]`, equal to the record encoding, and no other byte |
| `EventLog.EncodeEventLayout` | src/event_log.c:57-63 | byte 0 is the type code; byte 1 + k is `(timestamp >> 8k) & 0xFF`, least significant first |
| `EventLog.LittleEndianSplit` | src/event_log.c:59-63 | the bytes written and the value left after shifting them out rebuild the timestamp |
| `EventLog.TimestampRoundTrip` | src/event_log.c:59-63 | re-assembling bytes 1-4 gives the timestamp mod 2^32 |
| `EventLog.DecodeEncodeEvent` | src/event_log.c:56-64 | decoding a record gives back the event type and the timestamp mod 2^32 |
| `EventLog.RecordsAt` | src/communication.c:110-112 | (assumed layout) record k of the serialized log is the encoding of event k |
| `EventLog.SerializeLogRoundTrip` | src/communication.c:110-112 | (assumed layout) the serialized log reads back as the same events in the same order, timestamps mod 2^32 |
| `Communication.Comm.constructor` | src/communication.c:14-16 | the statics before comm_init: not ready, nothing in flight, count 0 |
| `Communication.Comm.Transmit` | src/communication.c:90-141 | follows `Session.Transmit`: the log is not changed; the flags change only when every guard and every transport step succeeds |
| `Communication.TransmitOutcome` | src/communication.c:91-140 | comm_transmit changes no state iff it is not ready, a send is in progress, the peek is false, or begin/iterator/write/send fails; a fully successful call sets in-progress, count = log size and sends the whole log; the log is never changed |
| `Communication.EmptyLogIsSent` | src/communication.c:106-112 | an empty log does not stop a transmit: a message with count byte 0 goes out and the count in flight is 0 |
| `Communication.AtMostOneOutstanding` | src/communication.c:96-99 | any series of comm_transmit calls starts at most one send, and none while one is in flight, leaving the state unchanged |
| `Communication.TransmitInv` | src/communication.c:139-140 | a started send captures the count of events it carries, so the invariant holds |
| `Communication.Comm.OutboxSent` | src/communication.c:27-36 | follows `Session.OutboxSent`: purge eventsInMessage, clear in-progress, transmit again only if ready and the log is non-empty |
| `Communication.AckPurgesSentEvents` | src/communication.c:27-36 | with a send in flight, the purge is never rejected and removes exactly the events the message carried; a new send starts iff ready, events remain and the transport accepts |
| `Communication.Comm.OutboxFailed` | src/communication.c:45-51 | follows `Session.OutboxFailed` |
| `Communication.FailureArmsOneRetry` | src/communication.c:45-51 | a failed send leaves the log, readiness and count alone, clears in-progress and arms exactly one retry timer |
| `Communication.Comm.RetryTimerHandler` | src/communication.c:38-43 | follows `Session.RetryTimerFired` |
| `Communication.RetryOnlyWhenReady` | src/communication.c:38-43 | the retry handler never changes the log and transmits only when ready; after comm_deinit a stale timer does nothing |
| `Communication.Comm.BluetoothConnectionHandler` | src/communication.c:18-25 | follows `Session.ConnectionChanged` |
| `Communication.ConnectionEffect` | src/communication.c:18-25 | a disconnect changes nothing; a connect is exactly a comm_transmit |
| `Communication.Comm.Init` | src/communication.c:59-81 | follows `Session.Init`: ready := open result; transmit if the log is non-empty |
| `Communication.Comm.Deinit` | src/communication.c:83-88 | follows `Session.Deinit`: not ready, callbacks unsubscribed, everything else kept |
| `Communication.Comm.RecordEvent` | src/main.c:12-43 | a click handler's log_event while the transmitter runs: the log grows as `Appended` says, no transmit starts, and the invariant holds during a flight |
| `Communication.PrefixOfAppended` | src/event_log.c:22-25 | an append leaves the first n events (n <= size) as they were |
| `Communication.NoSecondSend` | src/communication.c:18-141 | while a send is in flight, any sequence of callbacks other than its outcome (connects, retry fires, direct transmits, comm_init, comm_deinit, logged events) keeps it in flight with the same count and payload: no second send starts |
| `Communication.StepPreservesInv` | src/communication.c:18-51 | every callback keeps the invariant that an in-flight message's events are the oldest events of the log |
| `Communication.RunPreservesInv` | src/communication.c:18-141 | the invariant holds after any sequence of callbacks |
| `Communication.GrowthDuringFlight` | src/communication.c:27-36 | 3 events sent, 2 appended in flight, ack: exactly 3 purged, 2 remain, and a send carrying those 2 starts at once |
| `Companion.Merged` | src/js/pebble-js-app.js:44-51 | the merge keeps the set of keys, and `updated` names only keys that have an array |
| `Companion.MergeStaysAborted` | src/js/pebble-js-app.js:44-45 | once memoryArray[v] is undefined the handler has thrown; the rest of the payload changes nothing |
| `Companion.MergeOnlyAppends` | src/pebble-js-app.js:43 | every array's old contents are a prefix of its new contents: values are only appended at the end |
| `Companion.MergeKeepsNoDuplicates` | src/js/pebble-js-app.js:45-49 | a value already present is never pushed: arrays with no duplicates keep none |
| `Companion.MergeUpdatedExactly` | src/pebble-js-app.js:40-42 | `updated` has no duplicate keys and holds a key iff its array grew |
| `Companion.MergeAppendsPayloadValues` | src/js/pebble-js-app.js:44-51 | every appended value came with that key in the payload |
| `Companion.MergeCompletes` | src/pebble-js-app.js:38-39 | the loop finishes iff every payload key has an array |
| `Companion.MergeContainsPayload` | src/pebble-js-app.js:38-45 | when every payload key has an array, the loop finishes and every payload value is in its key's array |
| `Companion.WrittenBackExactly` | src/pebble-js-app.js:47-50 | exactly the keys in `updated` are written, each with its current array; other storage keys keep their values |
| `Companion.Script.constructor` | src/js/pebble-js-app.js:8 | the handler state starts from the given arrays and storage, with nothing sent |
| `Companion.Script.AppMessage` | src/js/pebble-js-app.js:37-58 | the arrays become the merge result; storage becomes the write-back of `updated` if the loop finished and is untouched if it threw |
| `Companion.Script.WriteBack` | src/js/pebble-js-app.js:53-56 | the write-back loop stores each listed key's array and changes nothing else |
| `Companion.Script.WebviewClosed` | src/js/pebble-js-app.js:66-76 | on "reset" storage is cleared and one reset message is sent, with `memoryArray` untouched; any other response changes nothing |

## Left out

- `log_serialize` and `log_calculate_serialized_size`: not defined in this model's source files. Their layout is an assumption (see above), and `lastSent` records the payload under that assumption.
- Deserialising and restoring the log, and the reset handshake: there is no such code. The C inbox handlers are empty, so there is nothing to model.
- `inbox_received` and `inbox_dropped`: empty functions, with no state effect.
- `comm_init` and `comm_deinit` subscribe and unsubscribe platform callbacks. This is modelled as the `registered` flag: in a callback trace (`Communication.Step`) the connection, outbox-sent and outbox-failed callbacks have an effect only while it is set, while a retry timer still fires after comm_deinit. The class methods themselves do not check it. Who calls `comm_init` is not part of this model's source files.
- `RETRY_TIMEOUT` (5000 ms): time is not modelled. A timer is only counted when armed and when it fires.
- `Communication.Comm.Transmit`: the 251-byte stack buffer and the dictionary iterator are not modelled. The payload the outbox accepts is kept whole as `lastSent`.
- `EventLog.Log.GetEvent`: returns the slot the C pointer designates rather than a pointer, so aliasing through the pointer is not modelled.
- `EventLog.Log.LogEvent`: takes one of the four event types. The C enum parameter could hold other integers, but every caller in `src/main.c` passes one of the four constants.
- Timestamps (`time_t`) are unbounded integers. The encoder keeps their low 32 bits. Byte k is `(t >> 8k) & 0xFF` with an arithmetic shift, which is floor division by 256; this matches both signed and unsigned 32-bit `time_t`.
- The companion's `ready` handler, `showConfiguration`, `localStorage`, `JSON.parse`/`JSON.stringify`, `Pebble.openURL` and `Pebble.sendAppMessage`: storage and messaging I/O. Storage is a map from keys to the arrays the JSON text encodes, and sent messages are recorded in a list.
- `Companion.MergeStep`: `indexOf`'s strict equality `===` is modelled as Dafny value equality, which matches JavaScript only for primitive payload values (numbers and strings other than NaN). Object and array values, such as the byte array the watch writes with `dict_write_data` (src/communication.c:127), are compared by identity in JavaScript, so `indexOf` never finds an equal copy and the handler always pushes them; the model instead treats an equal array as already present. The merge lemmas therefore hold for primitive values only.
- The UI (`src/ui.c`, `src/pebby.c`) and the click handlers' persistence calls and `sleeping` toggle in `src/main.c`.
