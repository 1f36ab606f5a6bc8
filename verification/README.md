# BluetoothExample — a verified model of its core

BluetoothExample is a Wear OS watch app that reads heart-rate and PPG (photoplethysmography)
samples from the Samsung Health Tracking SDK and streams them as JSON text over Bluetooth RFCOMM
to a Python server, which writes them to a CSV file. This project models the parts of the app and
the server that carry logic, as pure Dafny functions over immutable datatypes, and proves what
they promise:

- **Server splitter** (`JsonSplitter`, with the reference serializer `JsonText`): the
  character-by-character scanner `extract_json_objects` that cuts concatenated JSON objects out
  of a receive buffer. It tracks the brace level, a string flag and an escape flag.
- **Server row builder** (`CsvRow`): the mapping in `handle_client` from one parsed object to a
  CSV row `[timestamp, type, value]`, with its key fallbacks.
- **Observer registry** (`Notifier`): `TrackerDataNotifier`, a duplicate-free list of observers.
  Each broadcast goes to a snapshot of that list. An observer that throws an `Exception` is
  skipped; any other throwable ends the broadcast.
- **Tracker lifecycle** (`TrackerLifecycle`): `BaseListener`'s setters, `startTracker` with its
  deferred (posted) install task, and `stopTracker`, together with the constructor and
  `onError` that both sensor listeners share word for word.
- **Sensor decoders** (`HeartRateListener`, `PpgListener`, with `DataPoint` for vendor fields
  and outcomes): one data point becomes a sample, is skipped, or fails and is caught.
- **Value types** (`SensorData`, `Status`, with `Ints` for Kotlin `Int` arithmetic):
  `HeartRateData`, `PpgData`, the status codes and the `getHrIbi` bit packing.
- **Bluetooth sessions** (`BtLink` shared, `DirectSession` for the `com.example` activity that
  connects to a fixed PC address, `ScanSession` for the `com.cookandroid` activity that searches
  paired devices and then discovers by name). Each is a session record with one function per
  event. Coroutine launches become queued tasks that a separate event runs. Sockets are numbered,
  and a link record remembers which sockets are connected and which socket and stream `close()`
  calls were made.

Every operation has a partner that its contract or a lemma ties to it:

- the scanner has the serializer, `ExtractStream`;
- row building has a first-present-key reference, `ValueFallback`;
- `Remove` undoes `Add`, `AddThenRemove`;
- batch decoding splits over concatenation, `BatchSplit`;
- every session event keeps the session invariant `Valid`, the `...KeepsValid` lemmas.

## Model

| member | source | states |
|---|---|---|
| `Status.CodesDistinct` | app/src/main/java/com/example/bluetoothexample/presentation/Status.kt:9-16 | there are eight status codes and they are pairwise distinct |
| `Status.OnlyFindHrPositive` | app/src/main/java/com/example/bluetoothexample/presentation/Status.kt:9-16 | `STATUS_FIND_HR` is the only positive code; every code other than NONE and FIND_HR is negative |
| `SensorData.HeartRateDefaults` | wear-os-app/app/src/main/java/myHealth/HeartRateData.kt:7-13 | the defaults are status `STATUS_NONE`, hr 0, ibi 0, qIbi 1, and a named argument overrides only its own field |
| `SensorData.PpgDefaults` | app/src/main/java/com/example/bluetoothexample/presentation/PpgData.kt:13-20 | only the timestamp must be supplied; green, ir and red default to 0 and both statuses to `STATUS_NONE` |
| `SensorData.HrIbiValue` | wear-os-app/app/src/main/java/myHealth/HeartRateData.kt:26-29 | for an ibi in [0, 0x8000), `getHrIbi` is `qIbi * 0x8000 + ibi` wrapped to 32 bits, for every qIbi |
| `SensorData.HrIbiQualityZero` | wear-os-app/app/src/main/java/myHealth/HeartRateData.kt:28 | with qIbi 0 the packed value is ibi itself, for every ibi |
| `SensorData.HrIbiPacked` | wear-os-app/app/src/main/java/myHealth/HeartRateData.kt:26-29 | for a 15-bit ibi and qIbi 0 or 1 the packed value is `qIbi * 0x8000 + ibi` with no wrap-around |
| `SensorData.DefaultHrIbi` | wear-os-app/app/src/main/java/myHealth/HeartRateData.kt:12-28 | the default record packs to 0x8000 |
| `SensorData.HrIbiRoundTrip` | wear-os-app/app/src/main/java/myHealth/HeartRateData.kt:16-29 | for a 15-bit ibi and qIbi 0 or 1, masking with `IBI_QUALITY_MASK` gives back ibi, and shifting by `IBI_QUALITY_SHIFT` then masking with `IBI_MASK` gives back qIbi |
| `SensorData.HrIbiNegativeIbi` | wear-os-app/app/src/main/java/myHealth/HeartRateData.kt:28 | an ibi of -1 swamps the quality bit: the packed value is -1 |
| `Ints.Shl` | wear-os-app/app/src/main/java/myHealth/HeartRateData.kt:28 | Kotlin `shl` on `Int` multiplies by 2 to the power of the shift count mod 32, modulo 2^32 |
| `Ints.Or` | wear-os-app/app/src/main/java/myHealth/HeartRateData.kt:28 | Kotlin `or` on `Int` is the bitwise or of the two's-complement bit patterns |
| `Ints.OrDisjoint` | wear-os-app/app/src/main/java/myHealth/HeartRateData.kt:28 | or-ing a value shifted past the low k bits with a value below 2^k is addition |
| `Ints.AndLowMask` | wear-os-app/app/src/main/java/myHealth/HeartRateData.kt:18 | and-ing with the mask 2^k - 1 keeps exactly the low k bits |
| `DataPoint.OrDefault` | app/src/main/java/myHealth/HeartRateListener.kt:69-70 | `getValue(key) ?: default`: a missing value gives the default, a present one itself, and a value of another type or a throwing read is an exception |
| `DataPoint.Classify` | app/src/main/java/myHealth/HeartRateListener.kt:41-54 | a permission error and a policy error are told apart, and every other error, null included, is unknown |
| `DataPoint.SamplesAppend` | app/src/main/java/myHealth/HeartRateListener.kt:24-29 | the samples published from a batch are those of its two halves, one after the other |
| `DataPoint.DecodeAll` | app/src/main/java/myHealth/HeartRateListener.kt:26-28 | `list.forEach { readValuesFromDataPoint(it) }` reads every point of the batch once, in list order; the PPG listener loops the same way |
| `DataPoint.DecodeAllAppend` | app/src/main/java/myHealth/HeartRateListener.kt:26-28 | decoding a batch decodes each half independently |
| `HeartRateListener.LastOr` | app/src/main/java/myHealth/HeartRateListener.kt:73-78 | `list?.lastOrNull() ?: default`: the last element of a non-empty list, else the default; a wrongly typed list throws |
| `HeartRateListener.Decode` | app/src/main/java/myHealth/HeartRateListener.kt:64-100 | a heart-rate point is never skipped; decoding fails (and the exception is caught) exactly when some read throws |
| `HeartRateListener.DecodeFields` | app/src/main/java/myHealth/HeartRateListener.kt:69-86 | a missing status is `STATUS_NONE`, a missing hr 0, ibi the last IBI (0 if the list is null or empty), qIbi the last IBI status (1 if null or empty) |
| `HeartRateListener.QualityIndependentOfIbi` | app/src/main/java/myHealth/HeartRateListener.kt:77-78 | changing the IBI list never changes qIbi |
| `HeartRateListener.LastIbiExample` | app/src/main/java/myHealth/HeartRateListener.kt:77 | IBIs 700, 750, 820 give ibi 820 |
| `HeartRateListener.EmptyPointIsDefault` | app/src/main/java/myHealth/HeartRateListener.kt:69-86 | a point with no values decodes to the default `HeartRateData` |
| `HeartRateListener.HrCallsAppend` | app/src/main/java/myHealth/HeartRateListener.kt:26-28 | the notifier calls for two lists of samples are the calls for each, in order |
| `HeartRateListener.BatchSplit` | app/src/main/java/myHealth/HeartRateListener.kt:24-29 | the calls a batch makes are the calls of its parts in list order, so a failing point does not affect the others |
| `HeartRateListener.OnePoint` | app/src/main/java/myHealth/HeartRateListener.kt:64-99 | a point publishes exactly one `onHeartRateTrackerDataChanged` when it reads cleanly and nothing when a read throws |
| `HeartRateListener.OnDataReceived` | app/src/main/java/myHealth/HeartRateListener.kt:24-29 | the loop makes exactly the batch's calls, at most one per point |
| `PpgListener.SafeCast` | app/src/main/java/myHealth/PpgListener.kt:60 | `as? Int` turns a missing value and a value of another type into null; only a throwing read is an exception |
| `PpgListener.Decode` | app/src/main/java/myHealth/PpgListener.kt:53-90 | decoding fails exactly when a read throws, and skips exactly when nothing throws and green is missing or not an `Int` |
| `PpgListener.DecodeFields` | app/src/main/java/myHealth/PpgListener.kt:56-78 | a published sample carries the timestamp, green and green status (`STATUS_NONE` when missing), with ir and red 0 and red status `STATUS_NONE` |
| `PpgListener.MissingGreenSkips` | app/src/main/java/myHealth/PpgListener.kt:60-71 | a missing or non-`Int` green skips the point whatever its status |
| `PpgListener.PpgCallsAppend` | app/src/main/java/myHealth/PpgListener.kt:26-28 | the notifier calls for two lists of samples are the calls for each, in order |
| `PpgListener.BatchSplit` | app/src/main/java/myHealth/PpgListener.kt:24-29 | the calls a batch makes are the calls of its parts in list order |
| `PpgListener.OnePoint` | app/src/main/java/myHealth/PpgListener.kt:53-90 | a point publishes at most one `onPpgDataChanged`, exactly when it decodes |
| `PpgListener.OnDataReceived` | app/src/main/java/myHealth/PpgListener.kt:24-29 | the loop makes exactly the batch's calls, at most one per point |
| `TrackerLifecycle.SettersStoreOnly` | app/src/main/java/myHealth/BaseListener.kt:30-48 | each setter stores the given value, null included, and leaves every other field as it was (each setter is a single-field update of the whole record) |
| `TrackerLifecycle.EnsureHandler` | app/src/main/java/myHealth/BaseListener.kt:55-58 | after the lazy initialisation there is always a handler and an existing one is kept; a missing one is replaced by a new main-looper handler, distinct from every handler made before and so from every handler with a queued task |
| `TrackerLifecycle.StartTracker` | app/src/main/java/myHealth/BaseListener.kt:53-86 | the handler ends non-null (the main looper if it was null); while running nothing is queued; otherwise exactly one install task is queued on the handler; `running` is not set by the call itself |
| `TrackerLifecycle.NoHandlerUnreachable` | app/src/main/java/myHealth/BaseListener.kt:55-85 | once the handler has been ensured, the "handler is null" branch is never taken |
| `TrackerLifecycle.StartWhileRunning` | app/src/main/java/myHealth/BaseListener.kt:64-82 | `startTracker` on a running tracker changes nothing |
| `TrackerLifecycle.RunTask` | app/src/main/java/myHealth/BaseListener.kt:66-80 | the posted task installs the listener and sets `running` only when tracker and listener are both non-null, and otherwise changes nothing but the queue |
| `TrackerLifecycle.DropFor` | app/src/main/java/myHealth/BaseListener.kt:105 | `removeCallbacksAndMessages(null)` drops every task posted to that handler and keeps the others |
| `TrackerLifecycle.StopTracker` | app/src/main/java/myHealth/BaseListener.kt:91-110 | stopping a stopped tracker changes nothing; stopping a running one unsets the tracker's listener, clears `running` and drops the handler's pending tasks |
| `TrackerLifecycle.StopDropsAll` | app/src/main/java/myHealth/BaseListener.kt:98-106 | when every pending task is on the listener's handler, stopping leaves none |
| `TrackerLifecycle.StopIdempotent` | app/src/main/java/myHealth/BaseListener.kt:98-109 | two consecutive stops leave the same state as one |
| `TrackerLifecycle.StopBeforeInstall` | app/src/main/java/myHealth/BaseListener.kt:97-109 | a stop before the posted install task has run is a no-op and leaves that task pending |
| `TrackerLifecycle.StartRunStop` | app/src/main/java/myHealth/BaseListener.kt:53-110 | start, run the posted task, stop: the tracker is installed and running in between, and stopped with an empty queue after |
| `TrackerLifecycle.ReplacedHandlerOutlivesStop` | app/src/main/java/myHealth/BaseListener.kt:35-110 | after `setHandler` hands in a handler of another looper, a second start posts to it; when that task runs first, the stop clears only its queue, so the first handler's install task still runs afterwards and installs the listener again |
| `TrackerLifecycle.New` | app/src/main/java/myHealth/HeartRateListener.kt:20-59 | the constructor registers its own event listener and leaves the tracker stopped with nothing pending; the PPG listener's `init` does the same |
| `TrackerLifecycle.OnError` | app/src/main/java/myHealth/HeartRateListener.kt:36-55 | the error is classified for the log as permission, policy or unknown, null included; the running flag is cleared and nothing else changes: the vendor listener stays installed and queued tasks stay (the PPG listener's `onError` is the same handler) |
| `Notifier.Count` | wear-os-app/app/src/main/java/myHealth/TrackerDataNotifier.kt:26-39 | an observer's count in the registry is 0 exactly when it is absent |
| `Notifier.Add` | wear-os-app/app/src/main/java/myHealth/TrackerDataNotifier.kt:26-31 | after `addObserver(o)`, o is registered and membership of every other observer is unchanged |
| `Notifier.AddOnce` | wear-os-app/app/src/main/java/myHealth/TrackerDataNotifier.kt:26-31 | adding keeps the registry duplicate-free, o then occurs exactly once, and adding a registered observer changes nothing |
| `Notifier.AddIdempotent` | wear-os-app/app/src/main/java/myHealth/TrackerDataNotifier.kt:28-30 | adding the same observer twice is adding it once |
| `Notifier.Remove` | wear-os-app/app/src/main/java/myHealth/TrackerDataNotifier.kt:37-39 | removing an absent observer is a no-op; removing a present one deletes its first occurrence and keeps the rest in order |
| `Notifier.RemoveSpec` | wear-os-app/app/src/main/java/myHealth/TrackerDataNotifier.kt:37-39 | on a duplicate-free registry, removal keeps it duplicate-free, removes o, keeps every other observer and shrinks it by one exactly when o was there |
| `Notifier.AddThenRemove` | wear-os-app/app/src/main/java/myHealth/TrackerDataNotifier.kt:26-39 | removing a just-added observer restores the registry |
| `Notifier.Reached` | wear-os-app/app/src/main/java/myHealth/TrackerDataNotifier.kt:47-54 | the observers called are a prefix of the snapshot: all up to the first whose callback throws something other than an `Exception`, that one included |
| `Notifier.ReachedAll` | wear-os-app/app/src/main/java/myHealth/TrackerDataNotifier.kt:47-54 | every observer is called exactly when none throws past the catch, and otherwise the last one called is the first that did |
| `Notifier.Delivered` | wear-os-app/app/src/main/java/myHealth/TrackerDataNotifier.kt:47-54 | the delivery log lists the reached observers in snapshot order with how each ended, the whole snapshot when nothing escapes, and ends with the escaping observer otherwise |
| `Notifier.DeliveriesSpec` | wear-os-app/app/src/main/java/myHealth/TrackerDataNotifier.kt:47-54 | the i-th delivery goes to the i-th observer of the snapshot with the call, and records how its callback ended |
| `Notifier.Notify` | wear-os-app/app/src/main/java/myHealth/TrackerDataNotifier.kt:45-85 | a broadcast calls the observers of the snapshot taken at the call once each, in order; an `Exception` is caught and the loop goes on, any other throwable ends the loop after that observer and leaves the broadcast; the registry afterwards is the snapshot with the reached observers' own add/remove calls applied in delivery order |
| `Notifier.NotifyHeartRate` | wear-os-app/app/src/main/java/myHealth/TrackerDataNotifier.kt:45-55 | the registered observers get `onHeartRateTrackerDataChanged` with the sample, in registration order: every one of them exactly when none throws past `catch (e: Exception)`, otherwise up to the first that does |
| `Notifier.NotifyPpg` | wear-os-app/app/src/main/java/myHealth/TrackerDataNotifier.kt:61-70 | the registered observers get `onPpgDataChanged` with the sample, in registration order, every one of them exactly when none throws past `catch (e: Exception)` |
| `Notifier.NotifyError` | wear-os-app/app/src/main/java/myHealth/TrackerDataNotifier.kt:76-85 | the registered observers get `onError` with the resource id, in registration order, every one of them exactly when none throws past `catch (e: Exception)` |
| `Notifier.PassiveKeepsRegistry` | wear-os-app/app/src/main/java/myHealth/TrackerDataNotifier.kt:45-85 | when no observer changes the registry from its callback, a broadcast leaves the registry as it was, however far it got |
| `Notifier.SelfRemovalDuringBroadcast` | wear-os-app/app/src/main/java/myHealth/TrackerDataNotifier.kt:47-53 | an observer that removes itself from its callback and then throws an `Exception` does not stop the observer after it from being called, thanks to the snapshot and the catch |
| `Notifier.ErrorEndsBroadcast` | wear-os-app/app/src/main/java/myHealth/TrackerDataNotifier.kt:48-53 | an observer whose callback throws an `Error` is the last one called, and the throwable leaves the broadcast |
| `JsonSplitter.StripLeftSpec` | python-server/server_csv.py:52-59 | Python's left strip drops exactly the leading whitespace |
| `JsonSplitter.StripRightSpec` | python-server/server_csv.py:52-59 | Python's right strip drops exactly the trailing whitespace |
| `JsonSplitter.RunAppend` | python-server/server_csv.py:35-56 | reading `a + b` is reading `a` and then `b` |
| `JsonSplitter.CloseEmits` | python-server/server_csv.py:47-53 | closing the outermost brace outside a string always appends the collected text plus `}` and resets to level 0 |
| `JsonSplitter.StepWf` | python-server/server_csv.py:35-56 | one character keeps the scanner invariant: found objects are braced, the collected text starts with `{` inside an object, escape only inside a string |
| `JsonSplitter.ObjectsBraced` | python-server/server_csv.py:43-54 | every returned object is non-empty, starts with `{` and ends with `}` |
| `JsonSplitter.RemainderShape` | python-server/server_csv.py:58-59 | the remainder is empty exactly when the final level is 0, and otherwise is the unfinished object text starting at its `{` |
| `JsonSplitter.CurrentIsSuffix` | python-server/server_csv.py:35-53 | the collected text is always a suffix of the text read |
| `JsonSplitter.RemainderIsSuffix` | python-server/server_csv.py:58-59 | the remainder is a suffix of the input |
| `JsonSplitter.QuoteStep` | python-server/server_csv.py:37-38 | a quote not preceded by an escaping backslash toggles the string flag |
| `JsonSplitter.EscapedQuoteStep` | python-server/server_csv.py:37-56 | a quote after an escaping backslash stays inside the string and clears the escape |
| `JsonSplitter.InStringRun` | python-server/server_csv.py:37-42 | inside a string, braces and other characters that are not a quote or backslash change neither the level nor the objects |
| `JsonSplitter.EscapeRun` | python-server/server_csv.py:39-41 | an escaped string body is read to its end inside the string; as written the escape flag is left set exactly when the body ends in a backslash |
| `JsonSplitter.StrayClosesRun` | python-server/server_csv.py:47-48 | a `}` at level 0 never makes the level negative and emits no object |
| `JsonSplitter.GapDiscarded` | python-server/server_csv.py:44-45 | a `{` at level 0 restarts the collected text at `{`, dropping the text between objects |
| `JsonSplitter.TopObjectRun` | python-server/server_csv.py:43-54 | a serialized object read at level 0 is appended whole and the scanner returns to level 0 |
| `JsonSplitter.StreamRun` | python-server/server_csv.py:35-56 | objects separated by brace- and quote-free text are appended in order and the scanner ends outside every object |
| `JsonSplitter.ExtractStream` | python-server/server_csv.py:24-60 | a concatenation of serialized objects with plain text between them returns exactly those objects, in order, with remainder `""` |
| `JsonSplitter.TrailingBackslashKeepsString` | python-server/server_csv.py:39-56 | as written, a string ending in a backslash does not end at its closing quote |
| `JsonSplitter.AsWrittenMissesBackslashObject` | python-server/server_csv.py:39-41 | as written, `{"a":"\\"}` yields no object and is kept whole as the remainder |
| `JsonSplitter.Rfc8259FindsBackslashObject` | python-server/server_csv.py:39-41 | with an escaping backslash clearing the escape flag, `{"a":"\\"}` is returned as one object with remainder `""` |
| `JsonSplitter.RunObjects` | python-server/server_csv.py:35-56 | reading never looks at the objects found so far, it only appends to them |
| `JsonSplitter.CurrentReplays` | python-server/server_csv.py:35-59 | inside an object, scanning the remainder from scratch rebuilds the scanner state |
| `JsonSplitter.CarryOver` | python-server/server_csv.py:99-104 | keeping the remainder as the buffer and appending the next chunk finds the same objects and remainder as reading both chunks at once, unless the first ends inside a string outside every object |
| `JsonSplitter.CarryOverAfterOpenQuote` | python-server/server_csv.py:99-104 | the proviso matters: after a lone `"` the buffer is dropped, so a following `{}` is found, while reading both at once finds nothing |
| `CsvRow.Get` | python-server/server_csv.py:114 | `dict.get(k)` is None for a missing key and for a JSON null, and the stored value otherwise |
| `CsvRow.GetOr` | python-server/server_csv.py:112 | `dict.get(k, default)` gives the default only for a missing key; a stored null stays null |
| `CsvRow.FirstPresent` | python-server/server_csv.py:114-118 | the first key whose value is not None, or None when every key's value is None |
| `CsvRow.ValueFallback` | python-server/server_csv.py:114-115 | the value is that of `"value"`, falling back to `"green"` |
| `CsvRow.TimestampFallback` | python-server/server_csv.py:117-118 | the timestamp is that of `"timestamp"`, falling back to `"timestampNs"` |
| `CsvRow.BuildRow` | python-server/server_csv.py:112-124 | a row exists exactly when value and timestamp are both non-None, and is `[timestamp, type, value]` |
| `CsvRow.RowSpec` | python-server/server_csv.py:112-132 | the row's cells in terms of the object's keys; the sensor type is `"Unknown"` when missing, null when stored as null, and the stored value otherwise |
| `CsvRow.OtherKeysIgnored` | python-server/server_csv.py:112-118 | keys other than the five read never change the row |
| `CsvRow.RowsSplit` | python-server/server_csv.py:106-132 | the rows written for a list of chunks are those of its halves, in order |
| `CsvRow.RowsAllComplete` | python-server/server_csv.py:120-132 | every chunk yields a row exactly when every chunk parses and is complete |
| `CsvRow.CollectRows` | python-server/server_csv.py:106-132 | the loop over the chunks writes exactly their rows, at most one each |
| `BtLink.Create` | app/src/main/java/com/example/bluetoothexample/presentation/MainActivity.kt:366 | creating a socket yields a fresh socket number that was never connected or closed |
| `BtLink.CloseSocketOf` | app/src/main/java/com/example/bluetoothexample/presentation/MainActivity.kt:457 | closing a socket records the close and disconnects it, and leaves every other socket as it was |
| `BtLink.CancelJob` | app/src/main/java/com/example/bluetoothexample/presentation/MainActivity.kt:360 | cancelling a job removes its pending connection attempts, keeps every other task, and does nothing when there is no job |
| `BtLink.ConnectCountRemoveAt` | app/src/main/java/com/example/bluetoothexample/presentation/MainActivity.kt:361-394 | running a queued task removes one connection attempt exactly when it was one |
| `BtLink.CancelClears` | app/src/main/java/com/example/bluetoothexample/presentation/MainActivity.kt:436-439 | when every pending attempt belongs to the current job, cancelling it leaves no pending attempt |
| `BtLink.Launch` | app/src/main/java/com/example/bluetoothexample/presentation/MainActivity.kt:360-361 | cancel-then-launch leaves exactly one pending attempt, owned by the new job |
| `BtLink.RunLast` | app/src/main/java/com/example/bluetoothexample/presentation/MainActivity.kt:361-394 | running the one pending attempt leaves none, also when a send is queued after it |
| `BtLink.ContainsAt` | app/src/main/java/com/example/bluetoothexample/presentation/MainActivity.kt:443 | text containing the part at some position satisfies `contains` |
| `BtLink.Lower` | app/src/main/java/com/cookandroid/bluetoothexample/presentation/MainActivity.kt:126 | ASCII lower-casing maps `A`-`Z` to `a`-`z` and nothing else |
| `BtLink.IgnoreCaseIsLowerEquality` | app/src/main/java/com/cookandroid/bluetoothexample/presentation/MainActivity.kt:126 | `equals(ignoreCase = true)` is equality of the lower-cased strings |
| `BtLink.IgnoreCaseEquivalence` | app/src/main/java/com/cookandroid/bluetoothexample/presentation/MainActivity.kt:126 | ignore-case equality is reflexive, symmetric and transitive |
| `DirectSession.InitialValid` | app/src/main/java/com/example/bluetoothexample/presentation/MainActivity.kt:62-69 | the initial session (no socket, not connecting, no job) satisfies the session invariant |
| `DirectSession.CheckEnabled` | app/src/main/java/com/example/bluetoothexample/presentation/MainActivity.kt:247-277 | proceeds exactly when the adapter is enabled; otherwise reports "블루투스 오류" without an adapter, "블루투스 활성화 필요" when the enable request is shown or cannot be made, and "권한 오류" or "오류 발생" when launching it throws a `SecurityException` or another exception |
| `DirectSession.DeviceName` | app/src/main/java/com/example/bluetoothexample/presentation/MainActivity.kt:356 | the device name, the address when reading the name is refused, and "Unknown" when the name is null |
| `DirectSession.Initiate` | app/src/main/java/com/example/bluetoothexample/presentation/MainActivity.kt:351-361 | a no-op without permission or while connecting; otherwise sets `isConnecting`, cancels the old job's attempts and queues one attempt for a new job |
| `DirectSession.ConnectToTargetPC` | app/src/main/java/com/example/bluetoothexample/presentation/MainActivity.kt:294-346 | a no-op while connecting; only reports "이미 연결됨" while connected; reports missing permission; with the adapter off, the status `checkBluetoothEnabled` leaves; a failed lookup sets its own status; a device whose name may not be read aborts the handler at the log line with the session unchanged; any other found device is initiated under its name or "Unknown"; the socket fields never change |
| `DirectSession.RefusedNameStartsNothing` | app/src/main/java/com/example/bluetoothexample/presentation/MainActivity.kt:339-341 | a found device whose name may not be read queues no attempt and starts no connection |
| `DirectSession.CloseSocket` | app/src/main/java/com/example/bluetoothexample/presentation/MainActivity.kt:453-458 | a no-op when both fields are null; otherwise closes the stream and then the socket, and a throwing stream close still closes the socket; both fields end null |
| `DirectSession.SendData` | app/src/main/java/com/example/bluetoothexample/presentation/MainActivity.kt:399-411 | without a stream or a connected socket nothing is written, and a "연결 성공" status becomes "연결 끊김 (전송 시도)"; otherwise one write is queued |
| `DirectSession.RunConnect` | app/src/main/java/com/example/bluetoothexample/presentation/MainActivity.kt:361-394 | on success socket and stream hold the same new connected socket, the status names the device and a greeting is queued; on failure both fields end null and the status names the error; `isConnecting` is cleared either way |
| `DirectSession.RunSend` | app/src/main/java/com/example/bluetoothexample/presentation/MainActivity.kt:411-432 | a successful write records the message; a failing one closes the socket and sets "연결 끊김 (전송 오류)" |
| `DirectSession.Disconnect` | app/src/main/java/com/example/bluetoothexample/presentation/MainActivity.kt:436-450 | cancels the job's pending attempt, closes both fields, clears `isConnecting`, and leaves a status containing "끊김" |
| `DirectSession.OnDestroy` | app/src/main/java/com/example/bluetoothexample/presentation/MainActivity.kt:460-462 | destroying the activity drops every queued coroutine and closes both socket fields; since the lifecycle scope is already cancelled, `disconnect`'s main-thread block never runs, so the status and `isConnecting` keep their values |
| `DirectSession.DestroyIsDisconnectWithoutMainBlock` | app/src/main/java/com/example/bluetoothexample/presentation/MainActivity.kt:436-462 | destroying equals `disconnect` run with nothing queued, minus its main-thread block: the same closes and cleared fields, with the old status and flag |
| `DirectSession.CloseSocketIdempotent` | app/src/main/java/com/example/bluetoothexample/presentation/MainActivity.kt:453-458 | closing twice is closing once, and whether a `close()` throws does not change the result |
| `DirectSession.ConnectKeepsValid` | app/src/main/java/com/example/bluetoothexample/presentation/MainActivity.kt:294-361 | a connect request keeps the invariant: `isConnecting` holds exactly when one attempt, of the current job, is pending, and socket and stream agree |
| `DirectSession.SendDataKeepsValid` | app/src/main/java/com/example/bluetoothexample/presentation/MainActivity.kt:399-411 | queuing a send keeps the invariant |
| `DirectSession.CloseKeepsValid` | app/src/main/java/com/example/bluetoothexample/presentation/MainActivity.kt:453-458 | closing keeps the invariant |
| `DirectSession.RunConnectKeepsValid` | app/src/main/java/com/example/bluetoothexample/presentation/MainActivity.kt:361-394 | running the pending attempt keeps the invariant, whatever its outcome |
| `DirectSession.RunSendKeepsValid` | app/src/main/java/com/example/bluetoothexample/presentation/MainActivity.kt:411-432 | running a queued write keeps the invariant, whatever its outcome |
| `DirectSession.DisconnectKeepsValid` | app/src/main/java/com/example/bluetoothexample/presentation/MainActivity.kt:436-450 | disconnecting keeps the invariant |
| `DirectSession.ConnectingIffQueued` | app/src/main/java/com/example/bluetoothexample/presentation/MainActivity.kt:354-388 | in every valid session, `isConnecting` holds exactly when a connection attempt is pending |
| `DirectSession.DisconnectIdempotent` | app/src/main/java/com/example/bluetoothexample/presentation/MainActivity.kt:436-458 | disconnecting twice is disconnecting once |
| `DirectSession.ConnectFailureLeaks` | app/src/main/java/com/example/bluetoothexample/presentation/MainActivity.kt:363-391 | a socket whose `connect()` throws was never stored, so it is neither held nor closed |
| `DirectSession.AbandonedStaysOpen` | app/src/main/java/com/example/bluetoothexample/presentation/MainActivity.kt:294-458 | no later request, send or disconnect closes such a socket |
| `DirectSession.AbandonedStaysOpenRun` | app/src/main/java/com/example/bluetoothexample/presentation/MainActivity.kt:361-432 | no later connection attempt or write closes such a socket |
| `DirectSession.ConnectScenario` | app/src/main/java/com/example/bluetoothexample/presentation/MainActivity.kt:294-378 | from the initial state a request and a successful attempt leave socket 0 connected, "연결 성공: name", and the greeting queued |
| `ScanSession.InitialValid` | app/src/main/java/com/cookandroid/bluetoothexample/presentation/MainActivity.kt:62-71 | the initial session satisfies the session invariant |
| `ScanSession.FindPaired` | app/src/main/java/com/cookandroid/bluetoothexample/presentation/MainActivity.kt:343-351 | a paired device is returned only when its name equals the target ignoring case, and never when the bonded list is unavailable |
| `ScanSession.FindPairedFirst` | app/src/main/java/com/cookandroid/bluetoothexample/presentation/MainActivity.kt:346-348 | the search finds nothing exactly when no bonded device has the target name, and otherwise returns the first one that does |
| `ScanSession.Unregister` | app/src/main/java/com/cookandroid/bluetoothexample/presentation/MainActivity.kt:406-416 | afterwards no receiver is registered |
| `ScanSession.CancelDiscovery` | app/src/main/java/com/cookandroid/bluetoothexample/presentation/MainActivity.kt:390-403 | returns at once while discovering without permission; otherwise clears `isScanning` and unregisters the receiver |
| `ScanSession.StartDiscovery` | app/src/main/java/com/cookandroid/bluetoothexample/presentation/MainActivity.kt:355-386 | scanning starts only with permission, an idle adapter, a registered receiver and a successful start; each failure leaves its own status ("권한 부족 (스캔/위치)", "수신기 등록 오류", "검색 시작 실패"), and a failed start unregisters; scanning always implies a registered receiver |
| `ScanSession.Initiate` | app/src/main/java/com/cookandroid/bluetoothexample/presentation/MainActivity.kt:420-431 | without permission it only reports; a no-op while connecting; otherwise sets `isConnecting`, cancels the prior job's attempts and queues a new attempt |
| `ScanSession.CloseSocket` | app/src/main/java/com/cookandroid/bluetoothexample/presentation/MainActivity.kt:506-517 | both fields end null; the socket is closed unless a stream close threw first, which skips it |
| `ScanSession.Disconnect` | app/src/main/java/com/cookandroid/bluetoothexample/presentation/MainActivity.kt:490-503 | leaves `foundDevice` and both socket fields null, not connecting, not scanning, "연결 끊김", and the job's pending attempt cancelled |
| `ScanSession.FindAndConnect` | app/src/main/java/com/cookandroid/bluetoothexample/presentation/MainActivity.kt:305-339 | reports missing permission or a disabled adapter; a no-op while connecting or scanning; otherwise disconnects, clears `foundDevice`, reports the search and queues the paired-list lookup |
| `ScanSession.RunLookup` | app/src/main/java/com/cookandroid/bluetoothexample/presentation/MainActivity.kt:321-337 | a paired device of the target name is remembered and connected to, the scan state untouched; otherwise the session is exactly what `startBluetoothDiscovery` makes of it after "주변 기기 검색 시작...", with each outcome's status and receiver state |
| `ScanSession.OnDeviceFound` | app/src/main/java/com/cookandroid/bluetoothexample/presentation/MainActivity.kt:113-137 | a device matches only with a non-null name equal to the target ignoring case and a non-null address; a match stops scanning and starts a connection, anything else changes nothing |
| `ScanSession.OnDiscoveryFinished` | app/src/main/java/com/cookandroid/bluetoothexample/presentation/MainActivity.kt:138-146 | clears `isScanning`, unregisters and reports "not found" only when a scan was in progress, and is otherwise a no-op |
| `ScanSession.SendData` | app/src/main/java/com/cookandroid/bluetoothexample/presentation/MainActivity.kt:463-471 | a silent no-op unless the stream is non-null and the socket connected; otherwise one write is queued |
| `ScanSession.RunConnect` | app/src/main/java/com/cookandroid/bluetoothexample/presentation/MainActivity.kt:432-459 | on success socket and stream hold the new connected socket, "연결 성공", and the greeting is queued; on failure both fields end null with the error named; `isConnecting` is cleared either way |
| `ScanSession.RunSend` | app/src/main/java/com/cookandroid/bluetoothexample/presentation/MainActivity.kt:471-486 | a successful write records the message; a failing one closes the socket and reports "전송 실패" |
| `ScanSession.OnDestroy` | app/src/main/java/com/cookandroid/bluetoothexample/presentation/MainActivity.kt:519-523 | destroying the activity drops every queued coroutine, and `disconnect`'s direct resets leave no socket, no found device, not connecting and not scanning; the "연결 끊김" block never runs, so the status is unchanged |
| `ScanSession.CloseSocketIdempotent` | app/src/main/java/com/cookandroid/bluetoothexample/presentation/MainActivity.kt:506-517 | closing twice is closing once |
| `ScanSession.StreamCloseFailureMatters` | app/src/main/java/com/cookandroid/bluetoothexample/presentation/MainActivity.kt:506-517 | with both fields held, a throwing stream close leaves the socket unclosed, unlike a stream close that succeeds |
| `ScanSession.ConnectFailureCloses` | app/src/main/java/com/cookandroid/bluetoothexample/presentation/MainActivity.kt:434-457 | the failed attempt's socket was stored before `connect()`, so the failure path closes it, unless a held stream's close throws |
| `ScanSession.CloseKeepsValid` | app/src/main/java/com/cookandroid/bluetoothexample/presentation/MainActivity.kt:506-517 | closing keeps the session invariant |
| `ScanSession.DisconnectKeepsValid` | app/src/main/java/com/cookandroid/bluetoothexample/presentation/MainActivity.kt:490-503 | disconnecting keeps the invariant |
| `ScanSession.FindAndConnectKeepsValid` | app/src/main/java/com/cookandroid/bluetoothexample/presentation/MainActivity.kt:305-339 | a search request keeps the invariant |
| `ScanSession.InitiateKeepsValid` | app/src/main/java/com/cookandroid/bluetoothexample/presentation/MainActivity.kt:420-431 | initiating keeps the invariant: exactly one attempt of the current job is pending while connecting |
| `ScanSession.RunLookupKeepsValid` | app/src/main/java/com/cookandroid/bluetoothexample/presentation/MainActivity.kt:321-337 | the lookup keeps the invariant |
| `ScanSession.OnDeviceFoundKeepsValid` | app/src/main/java/com/cookandroid/bluetoothexample/presentation/MainActivity.kt:113-137 | a found device keeps the invariant |
| `ScanSession.OnDiscoveryFinishedKeepsValid` | app/src/main/java/com/cookandroid/bluetoothexample/presentation/MainActivity.kt:138-146 | the end of discovery keeps the invariant |
| `ScanSession.SendDataKeepsValid` | app/src/main/java/com/cookandroid/bluetoothexample/presentation/MainActivity.kt:463-468 | queuing a send keeps the invariant |
| `ScanSession.RunConnectKeepsValid` | app/src/main/java/com/cookandroid/bluetoothexample/presentation/MainActivity.kt:432-459 | running the pending attempt keeps the invariant, whatever its outcome |
| `ScanSession.RunSendKeepsValid` | app/src/main/java/com/cookandroid/bluetoothexample/presentation/MainActivity.kt:471-486 | running a queued write keeps the invariant |
| `ScanSession.DisconnectIdempotent` | app/src/main/java/com/cookandroid/bluetoothexample/presentation/MainActivity.kt:490-517 | disconnecting twice is disconnecting once |
| `ScanSession.LowerCaseTargetMatches` | app/src/main/java/com/cookandroid/bluetoothexample/presentation/MainActivity.kt:121-126 | the target name written in lower case, with an address, matches |
| `ScanSession.DiscoveryScenario` | app/src/main/java/com/cookandroid/bluetoothexample/presentation/MainActivity.kt:305-386 | from the initial state: search, no paired device, discovery starts, a device named like the target stops the scan and starts an attempt |

## Left out

- Kotlin `Int` bit operations are modelled on integers (`Ints`: two's complement wrapped modulo 2^32, with `or`, `and`, `shl` and `shr` defined bit by bit), not on `bv32`. The results are the same, and the integer proofs are stable for the solver.
- `json.loads`, UTF-8 decoding, the socket `recv` loop, CSV file writing and header creation, and the CSV lock are server I/O. A parsed chunk is a map from keys to JSON values, where a failed parse is `None`.
- Compose UI, previews, `Log`, `Toast`, the permission request dialogs and the adapter enable dialog are not modelled. Permission, adapter state, discovery state and the bonded list are inputs to each event.
- RFCOMM socket creation and `connect()`, stream write and flush, and `close()` are opaque I/O. Their outcomes are parameters: `ConnectOutcome`, `writeFails`, `CloseFailures`. Only the close calls made are recorded, whether or not they throw.
- Closing an Android socket's output stream may also close the socket itself. The link record does not model that coupling. It keeps the two kinds of close apart, as the source's code does.
- The byte encoding of messages and the SPP UUID are not modelled. The greeting of the `com.example` activity contains the clock (`System.currentTimeMillis()`), so it is the parameter `hello` of `DirectSession.RunConnect`.
- Concurrency is simplified: coroutine launches (`lifecycleScope.launch(Dispatchers.IO)`) become queued tasks that run one at a time, in any order the caller picks, and thread interleavings are not modelled.
- A cancelled job is modelled as never running. A coroutine cancelled in the middle of a blocking `connect()` is not modelled.
- Updates posted to the main dispatcher are applied at once. In `ScanSession.FindAndConnect`, the deferred "연결 끊김" from `disconnect()` would really land after "기기 찾는 중..." and overwrite it. In `DirectSession.Disconnect`, the clearing of `isConnecting` is really deferred in the same way.
- `Handler.post` threading and `Collections.synchronizedList` are not modelled. Posted tasks are queued events run by `TrackerLifecycle.RunTask`.
- `TrackerLifecycle.RunTask`: the caller picks which pending task runs. Tasks posted to handlers of one looper really run in post order, so a run that takes a later task of the same looper first is more than the source allows. The lemmas about the lifecycle only use such freedom between handlers of different loopers.
- `equals(ignoreCase = true)` is modelled with ASCII case folding only. Full Unicode case folding is not modelled.
- The Samsung `DataPoint.getValue` internals and the SDK connection wrapper (`ConnectionManager.kt`) are not modelled. A data point is a record of fields, each absent, present, of another type, or throwing on read.
- `onFlushCompleted` only logs and is not modelled.
- `DirectSession.ConnectToTargetPC`: a refused name read in the log line before the attempt throws `SecurityException` out of the click handler. The model ends the handler there with the session unchanged. What Android then does with the uncaught exception (the activity crashing) is not modelled, and the `catch` in `initiateConnectionWithDevice` that `DirectSession.DeviceName` models is never reached from this path.
- `DirectSession.OnDestroy`: the model ends at destruction. `isConnecting` may stay set with no attempt queued, so `Valid` is not claimed after it. `ScanSession.OnDestroy` likewise keeps the old status instead of "연결 끊김".
- `Notifier.Notify`: a throwable that escapes a broadcast is reported through `escaped`. Where it goes after that, into the listener that was publishing, is not modelled.
- `JsonSplitter.CarryOver`: proved under the proviso that the first chunk does not end inside a string outside every object. `JsonSplitter.CarryOverAfterOpenQuote` shows that without the proviso the two readings differ.

## Findings

| source | as written | input that shows it | evidently intended | confidence | as-written member | corrected member |
|---|---|---|---|---|---|---|
| python-server/server_csv.py:39-41 | inside a string every backslash sets `escape`, even one that is itself escaped, so after `\\` the closing quote is taken as escaped and the string never ends | `{"a":"\\"}` (a string holding one backslash) gives no object, and the whole text stays in the buffer as an unfinished object | an escaped backslash clears the escape flag (section 7 of RFC 8259), so every serialized object is returned | not executed | `JsonSplitter.AsWrittenMissesBackslashObject` | `JsonSplitter.Rfc8259FindsBackslashObject` |
