# In-memory logger data source

This project models `LoggerInMemoryDataSource`, the in-memory data source of an Android sample app's logging feature. The data source owns one mutable list of `Log(msg, timestamp)` records and has three operations:

- `addLog` puts a new record at the head of the list (`addFirst`), so the list is kept newest first;
- `getAllLogs` hands the current list to a callback, synchronously;
- `removeLogs` clears the list.

There are two modules.

- `LoggerHistory` is pure. It defines the `Log` record and the `Call`s that change the list (`AddLog(msg, now)` and `RemoveLogs`). `Replay` gives the list a sequence of calls leaves behind. `Added` and `LastRemove` give an independent description of that list: the records added since the last clear. The lemmas prove that the two descriptions agree, with the newest record first. They also prove that every record comes from one of the calls, and that a clock that never goes back yields a list sorted by timestamp, newest first.
- `LoggerInMemory` holds the class `LoggerInMemoryDataSource`. Its field `logs: seq<Log>` is reassigned in place by `AddLog` and `RemoveLogs`. A ghost field `history` records the calls that changed the list. The invariant `Valid()` ties `logs` to `Replay(history)`, so every fact proved about `Replay` holds for the object. `Scenario` is a client that, on a fresh object, adds two messages, fetches, clears, fetches, clears again and fetches once more.

The wall-clock read `System.currentTimeMillis()` is replaced by a parameter `now` of `AddLog`. The callback of `getAllLogs` is replaced by the method's return value: the callback is invoked exactly once, inline, with the current list, and a single return value delivers exactly that.

## Model

| member | source | states |
|---|---|---|
| `LoggerInMemory.LoggerInMemoryDataSource.constructor` | app/src/main/java/com/example/android/hilt/data/LoggerInMemoryDataSource.kt:6-7 | a new data source holds an empty list and satisfies its invariant, with no calls recorded |
| `LoggerInMemory.LoggerInMemoryDataSource.AddLog` | app/src/main/java/com/example/android/hilt/data/LoggerInMemoryDataSource.kt:9-11 | keeps the invariant. The new list is the record (msg, supplied clock value) followed by the old list unchanged and in order. The length grows by exactly one, and the head carries the given message and clock value |
| `LoggerInMemory.LoggerInMemoryDataSource.GetAllLogs` | app/src/main/java/com/example/android/hilt/data/LoggerInMemoryDataSource.kt:13-15 | delivers exactly the stored list and changes nothing (no modifies clause). What it delivers is the records added since the last clear, most recent first |
| `LoggerInMemory.LoggerInMemoryDataSource.RemoveLogs` | app/src/main/java/com/example/android/hilt/data/LoggerInMemoryDataSource.kt:17-19 | keeps the invariant and leaves the list empty from any state, so a second call leaves it empty too (idempotent) |
| `LoggerInMemory.Scenario` | app/src/main/java/com/example/android/hilt/data/LoggerInMemoryDataSource.kt:9-19 | add `first`, add `second`, fetch: the result is `[second, first]` with their clock values. Then clear and fetch: empty. Then clear again and fetch: still empty |
| `LoggerHistory.Replay` | app/src/main/java/com/example/android/hilt/data/LoggerInMemoryDataSource.kt:9-19 | the list a sequence of state-changing calls leaves behind, folded from the back: an addition puts its record at the head and a clear empties the list. Its contract states that the list holds one record per call after the last clear. Its independent counterpart (the records added since the last clear, reversed) is proved equal to it in `ReplayNewestFirst` |
| `LoggerHistory.LastRemove` | app/src/main/java/com/example/android/hilt/data/LoggerInMemoryDataSource.kt:17-19 | the position just after the last clear: the call before it is a clear, and every call from it on is an addition |
| `LoggerHistory.ReplayNewestFirst` | app/src/main/java/com/example/android/hilt/data/LoggerInMemoryDataSource.kt:7-19 | the list left by any sequence of calls is the reverse of the records added since the last clear (newest first) |
| `LoggerHistory.ReplayPositions` | app/src/main/java/com/example/android/hilt/data/LoggerInMemoryDataSource.kt:10 | for every sequence of calls, including one that leaves the list empty: the length equals the number of additions since the last clear, and record i is the (i+1)-th most recent of them |
| `LoggerHistory.ReplayFromCalls` | app/src/main/java/com/example/android/hilt/data/LoggerInMemoryDataSource.kt:10 | every record in the list was created by an `addLog` call, with that call's message and clock value |
| `LoggerHistory.ReplayTimestampsNonIncreasing` | app/src/main/java/com/example/android/hilt/data/LoggerInMemoryDataSource.kt:10 | if the clock supplied to the additions never goes back, the list's timestamps never increase from head to tail |

## Left out

- The wall clock (`System.currentTimeMillis()`) is a parameter `now: int` of `AddLog`. The 64-bit width of Kotlin's `Long` is not modelled, because nothing in the data source computes with the timestamp.
- `getAllLogs` passes the live `LinkedList` to its callback, not a copy. The model returns the list's current value. A caller that keeps the list and reads it after a later `addLog` or `removeLogs` would see the change in the source but not in the model. Aliasing is not modelled; calls are taken to be sequential, as on the UI thread.
- The ghost `history` records only the calls that change the list. Fetches are not recorded, because they leave the list as it is.
- `LoggerLocalDataSource` (the database-backed variant) is not part of this model. It runs every operation on a 4-thread executor over the Room `LogDao`, which is not part of this model either, and posts results to the main looper. Its ordering depends on the thread pool and the database.
- The dependency-injection modules (`DatabaseModule`, `NavigationModule`) and the `LogsFragment` UI are not part of this model. They are framework wiring and Android UI with no logic of their own.
