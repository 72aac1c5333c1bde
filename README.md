# Workout store model

A Dafny model of the local data store of a personal workout tracker
(`src/db.js`). The store holds one document, `{exercises, logs}`. An exercise
has an id, a name and a body part. A workout log records the sets (weight ×
reps, with a per-set note) done for one exercise on one date. It also has a
log-level note and a creation timestamp.

The model is split into four modules:

- `Seqs` (`seqs.dfy`): the array operations the store is written with. These are
  `filter` (`Filter`), `findIndex` (`IndexWhere`), order-preserving subsequences
  and key uniqueness, with their lemmas.
- `Records` (`records.dfy`): the document's records, the eight body parts, the
  default catalog of ten exercises, the volume of a set (weight × reps) and the
  document invariant `Consistent`. `Consistent` means exercise ids are unique,
  log ids are unique, and every log names an existing exercise.
- `Queries` (`queries.dfy`): the store's operations as functions of the
  document's sequences, with their lemmas. This covers the date and exercise
  filters, the stable newest-first sort behind `getHistory`, the in-place
  updates, the cascading delete and the specification of the personal-best
  scan. It also covers the logging screen's find-or-create save
  (`src/components/LogView.jsx`), which is built only from store operations.
- `Db` (`store.dfy`): the store as a class `Store` whose fields `exercises` and
  `logs` the methods reassign. `Open` holds the document `Load` gives, which
  seeds an empty slot. The two append methods state the appended record and the
  new fields outright. The update, delete and save methods are proved equal to
  the matching `Queries` function of the old fields. Each state-changing method
  also says when it keeps `Consistent`. `PersonalBest` is the nested scan loop of
  `getPersonalBest`, proved against its specification.

`getAllLogs` and `getExercises` return the document's two arrays. In the model
they are the fields `Store.logs` and `Store.exercises`, read directly.
`getLogsByDate` and `getHistory` only read the document, so they are the
functions `Queries.LogsByDate` and `Queries.History` applied to `Store.logs`.

Environment inputs are parameters: the fresh id from `crypto.randomUUID()`
(`freshId`) and the time from `Date.now()` (`now`). The store does not require a
fresh id to be unused. The contracts only say that ids stay unique when it is.

Behaviour of the code that is easy to mistake; the model follows the code:

- `getPersonalBest` returns nothing when every set has volume ≤ 0, not only when
  there are no sets, because `maxVol` starts at 0 (`src/db.js:97`).
- On equal volumes, the first set in scan order wins. That is the most recent
  log first and, within a log, the earliest set. Logs with equal timestamps stay
  in stored order, because the sort is stable.
- The exercises are an ordered array, not a set. Updates touch only the first
  record with the id. `addWorkoutLog` does not check that the exercise exists.
- The logging screen always passes `''` as the log-level note, so saving over an
  existing log clears its note. The model keeps that behaviour.

## Model

| member | source | states |
|---|---|---|
| Seqs.Filter | src/db.js:56-59 | the result is no longer than the input |
| Seqs.FilterMembers | src/db.js:56-59 | everything a filter keeps passes the test and came from the input, and every input element that passes is kept |
| Seqs.FilterCounts | src/db.js:56-59 | a filter keeps each passing element exactly as often as it occurs in the input, and no failing element; with the subsequence lemma this fixes its result |
| Seqs.IndexWhere | src/db.js:49 | -1 exactly when no element passes the test; otherwise the index of the first element that does |
| Seqs.FilterIsSubsequence | src/db.js:86-93 | a filter keeps the relative order of the elements it keeps |
| Seqs.SubsequenceKeepsUnique | src/db.js:86-93 | dropping elements keeps a key unique, and everything kept came from the original |
| Seqs.FindInFilter | src/components/LogView.jsx:95-97 | searching the day's logs for the exercise finds the first stored log that matches both date and exercise, and finds none exactly when no log matches |
| Records.DefaultCatalogIds | src/db.js:3-14 | the default catalog has ten exercises with distinct ids |
| Records.DefaultCatalogPairs | src/db.js:1-14 | the default exercises are filed two per part under the first five body parts, in display order |
| Records.DefaultCatalogParts | src/db.js:1-14 | every default exercise is filed under one of the first five body parts, none under abs, cardio or other |
| Records.Volume | src/db.js:102 | a set's volume is positive exactly when weight and reps are both positive or both negative |
| Db.Load | src/db.js:18-26 | an empty slot yields exactly the default catalog and no logs, a consistent document; a stored document is used unchanged |
| Db.Store.Open | src/db.js:18-26 | the opened store holds the loaded document |
| Db.Store.AddWorkoutLog | src/db.js:32-45 | returns the log with the given date, exercise, sets and note, the fresh id and the current time; appends it after all earlier logs, which are unchanged; keeps the document consistent when the id is unused and the exercise exists |
| Queries.AppendLogKeepsConsistent | src/db.js:32-45 | appending a log with an unused id and a live exercise keeps ids unique and references resolved |
| Db.Store.UpdateWorkoutLog | src/db.js:47-54 | the logs become `UpdateLog` of the old logs and the exercises are unchanged; consistency is kept when the new exercise exists |
| Queries.LogIndex | src/db.js:49 | -1 exactly when no log has the id; otherwise the index of the first log that has it |
| Queries.UpdateLog | src/db.js:47-54 | the first log with the id gets the new date, exercise, sets and note and keeps its id and timestamp; no other log changes; an unknown id changes nothing |
| Queries.UpdateLogIdempotent | src/db.js:47-54 | applying the same log update twice gives the state after one |
| Queries.UpdateLogKeepsConsistent | src/db.js:47-54 | a log update pointing at a live exercise keeps the document consistent |
| Queries.LogsByDate | src/db.js:56-59 | the result is an order-preserving subsequence of the logs, holds only logs of that date, and holds every log of that date |
| Queries.LogsByDateCounts | src/db.js:56-59 | the day's logs hold every log of that date exactly as often as the store does, and no other log |
| Db.Store.AddExercise | src/db.js:69-75 | returns the exercise with the given name and part and the fresh id; appends it after all earlier exercises, which are unchanged; keeps consistency when the id is unused |
| Queries.AppendExerciseKeepsConsistent | src/db.js:69-75 | appending an exercise with an unused id keeps ids unique and every log's reference resolved |
| Db.Store.UpdateExercise | src/db.js:77-84 | the exercises become `UpdateExercise` of the old ones, the logs are unchanged, consistency is kept |
| Queries.ExerciseIndex | src/db.js:79 | -1 exactly when no exercise has the id; otherwise the index of the first exercise that has it |
| Queries.UpdateExercise | src/db.js:77-84 | only the first exercise with the id changes: it gets the new name and part and keeps its id; an unknown id changes nothing |
| Queries.UpdateExerciseIdempotent | src/db.js:77-84 | applying the same exercise update twice gives the state after one |
| Queries.UpdateExerciseKeepsConsistent | src/db.js:77-84 | an exercise update keeps every id, so the document stays consistent |
| Db.Store.DeleteExercise | src/db.js:86-93 | afterwards no exercise has the id and no log refers to it; the log count falls by the number of logs of the exercise; consistency is kept |
| Queries.ExercisesWithout | src/db.js:89 | the exercises that survive the delete; its meaning is stated by `DeleteExerciseCascades` and `DeleteExerciseCounts` |
| Queries.LogsWithout | src/db.js:91 | the logs that survive the delete; its meaning is stated by `DeleteExerciseCascades`, `DeleteExerciseCounts` and `LogsWithoutCount` |
| Queries.DeleteExerciseCascades | src/db.js:86-93 | the deletion removes the exercise and all its logs; every other exercise and log stays, in its original relative order; the log count falls by exactly the number of removed logs; a consistent document stays consistent |
| Queries.DeleteExerciseCounts | src/db.js:89-91 | every exercise with another id, and every log of another exercise, survives exactly as often as it was stored; nothing else survives |
| Queries.LogsWithoutCount | src/db.js:91 | the logs kept and the logs of the exercise together account for every log |
| Queries.LogsOf | src/db.js:115 | the logs of one exercise: an order-preserving subsequence holding exactly the logs with that exercise id |
| Queries.LogsOfCounts | src/db.js:115 | the exercise's logs hold every log of that exercise exactly as often as the store does, and no other log |
| Queries.SortNewestFirst | src/db.js:116 | the stable insertion sort by non-increasing timestamp; its meaning is stated by `SortNewestFirstSorts` and `SortNewestFirstStable` |
| Queries.SortNewestFirstSorts | src/db.js:116 | the sort yields timestamps that never increase and is a permutation of its input |
| Queries.SortNewestFirstStable | src/db.js:116 | the sort keeps logs with equal timestamps in their input order |
| Queries.History | src/db.js:112-117 | the history is newest first and a permutation of the exercise's logs, so it holds every log of the exercise and no other |
| Queries.HistoryKeepsStoredOrderOnTies | src/db.js:112-117 | logs of the exercise with equal timestamps appear in the history in stored order |
| Db.Store.PersonalBest | src/db.js:95-110 | nothing is returned exactly when no set in the history has positive volume; otherwise the returned weight, reps and date are those of a set whose volume no set exceeds and which every earlier-scanned set falls strictly below |
| Queries.IsPersonalBest | src/db.js:95-110 | the specification of the scan: set `j` of log `i` exists, has positive volume, no set exceeds it, and every set scanned before it is strictly smaller |
| Queries.PersonalBestUnique | src/db.js:95-110 | only one set of a history can be the reported best, so the result is determined |
| Queries.PersonalBestIsMostRecent | src/db.js:95-117 | in a newest-first history, a set that ties with the best is scanned after it and comes from a log that is not newer |
| Queries.PersonalBestOfOneLog | src/db.js:95-110 | of sets 100 × 5 and 80 × 10 in one log, the 80 × 10 set (volume 800) is reported with the log's date |
| Queries.PersonalBestTieGoesToNewer | src/db.js:103 | of two equal volumes, the set from the newer log is reported and the older one is not |
| Queries.SaveForDate | src/components/LogView.jsx:95-97 | the find-or-create save: a search of the day's logs for the exercise, then an update or an append; its meaning is stated by `SaveForDateEffect`, `SaveForDateUpserts`, `SaveForDateKeepsIds` and `SaveForDateIdempotent` |
| Queries.SaveForDateEffect | src/components/LogView.jsx:152-181 | with unique log ids, a save with sets rewrites only the day's first log of the exercise, or appends one new log when there is none; a save without sets changes nothing |
| Queries.SaveForDateUpserts | src/components/LogView.jsx:95-109 | a save keeps log ids unique when the fresh id is unused and keeps at most one log per exercise and day; with sets, a log of that exercise and day then holds them |
| Queries.SaveForDateKeepsIds | src/components/LogView.jsx:150-181 | a save with an unused fresh id keeps log ids unique |
| Queries.SaveForDateIdempotent | src/components/LogView.jsx:152-181 | saving the same sets twice for the same exercise and day gives the state after the first save |
| Db.Store.SaveWorkout | src/components/LogView.jsx:138-181 | the logs become `SaveForDate` of the old logs; log ids stay unique and at most one log per exercise and day is kept, when the fresh id is unused; the document stays consistent when, in addition, the exercise exists |

## Left out

- Persistence: `localStorage` access and the `JSON.stringify`/`JSON.parse` codec (`saveStore`, and the parse in `getStore`). The document lives in the `Store` object, and a stored document is an `Option<Document>` passed to `Open`. A corrupted slot, which makes `JSON.parse` throw, is not modelled.
- `crypto.randomUUID()`, the screen's `Math.random` id fallback and `Date.now()`: they are nondeterministic, so they are the parameters `freshId` and `now`.
- Floating point: weights are real numbers and reps are integers. `parseFloat`/`parseInt`, NaN and rounding in `weight * reps` are not modelled.
- Date formatting with date-fns: dates are opaque string keys.
- Db.Store.SaveWorkout: the screen looks up the day's log when an exercise is selected and saves later. The model does both in one step, so a change between the two is not captured. Parsing of the set rows is also not modelled: `sets` is already the list of valid sets. Editing a log chosen from the history screen is a plain `UpdateWorkoutLog`.
- The React components (calendar, history, navigation, modals): they hold view state only and have no store invariants.
- Concurrent tabs writing the same slot (last write wins): the store has no concurrency of its own.
