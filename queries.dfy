/**
 The store's operations as functions of the document's sequences: the filters
 and the newest-first sort behind the read queries, the in-place updates, the
 cascading delete, the specification of the personal-best scan and the
 find-or-create save used by the logging screen.
 */
module Queries {
  import opened Seqs
  import opened Records

  // ---------------------------------------------------------------------------
  // Read queries

  /** `getLogsByDate`: the logs of one day, in stored order. */
  function LogsByDate(logs: seq<Log>, date: string): (r: seq<Log>)
    ensures IsSubsequence(r, logs)
    ensures forall k :: 0 <= k < |r| ==> r[k].date == date && r[k] in logs
    ensures forall k :: 0 <= k < |logs| && logs[k].date == date ==> logs[k] in r
  {
    FilterIsSubsequence(logs, (l: Log) => l.date == date);
    FilterMembers(logs, (l: Log) => l.date == date);
    Filter(logs, (l: Log) => l.date == date)
  }

  /** The logs of one exercise, in stored order (the filter step of `getHistory`). */
  function LogsOf(logs: seq<Log>, exerciseId: string): (r: seq<Log>)
    ensures IsSubsequence(r, logs)
    ensures forall k :: 0 <= k < |r| ==> r[k].exerciseId == exerciseId && r[k] in logs
    ensures forall k :: 0 <= k < |logs| && logs[k].exerciseId == exerciseId ==> logs[k] in r
  {
    FilterIsSubsequence(logs, (l: Log) => l.exerciseId == exerciseId);
    FilterMembers(logs, (l: Log) => l.exerciseId == exerciseId);
    Filter(logs, (l: Log) => l.exerciseId == exerciseId)
  }

  /** The day's logs hold each log of that date as often as the store does, and
      nothing else: with the subsequence clause, this fixes the result. */
  lemma LogsByDateCounts(logs: seq<Log>, date: string)
    ensures forall x :: multiset(LogsByDate(logs, date))[x] == if x.date == date then multiset(logs)[x] else 0
  {
    FilterCounts(logs, (l: Log) => l.date == date);
  }

  /** The exercise's logs hold each log of that exercise as often as the store
      does, and nothing else. */
  lemma LogsOfCounts(logs: seq<Log>, exerciseId: string)
    ensures forall x :: multiset(LogsOf(logs, exerciseId))[x] ==
              if x.exerciseId == exerciseId then multiset(logs)[x] else 0
  {
    FilterCounts(logs, (l: Log) => l.exerciseId == exerciseId);
  }

  /** Most recent first: timestamps never increase along `s`. */
  predicate NewestFirst(s: seq<Log>) {
    forall i, j :: 0 <= i < j < |s| ==> s[i].timestamp >= s[j].timestamp
  }

  /** Puts `l` in front of the first log that is not newer than it. */
  function InsertByTimestamp(l: Log, s: seq<Log>): seq<Log> {
    if s == [] || l.timestamp >= s[0].timestamp then [l] + s
    else [s[0]] + InsertByTimestamp(l, s[1..])
  }

  /** `sort((a, b) => b.timestamp - a.timestamp)`, a stable sort on descending timestamp. */
  function SortNewestFirst(s: seq<Log>): seq<Log> {
    if s == [] then [] else InsertByTimestamp(s[0], SortNewestFirst(s[1..]))
  }

  /** The logs of `s` created at instant `t`, in the order of `s`. */
  function WithTimestamp(s: seq<Log>, t: int): seq<Log> {
    Filter(s, (l: Log) => l.timestamp == t)
  }

  /** Inserting adds exactly `l`. */
  lemma {:induction false} InsertByTimestampPermutes(l: Log, s: seq<Log>)
    ensures multiset(InsertByTimestamp(l, s)) == multiset(s) + multiset{l}
  {
    if s != [] && l.timestamp < s[0].timestamp {
      InsertByTimestampPermutes(l, s[1..]);
      assert s == [s[0]] + s[1..];
    }
  }

  /** Inserting into logs no newer than `t` a log no newer than `t` gives logs no newer than `t`. */
  lemma {:induction false} InsertByTimestampBounded(l: Log, s: seq<Log>, t: int)
    requires l.timestamp <= t && forall k :: 0 <= k < |s| ==> s[k].timestamp <= t
    ensures forall k :: 0 <= k < |InsertByTimestamp(l, s)| ==> InsertByTimestamp(l, s)[k].timestamp <= t
  {
    if s != [] && l.timestamp < s[0].timestamp {
      InsertByTimestampBounded(l, s[1..], t);
    }
  }

  lemma {:induction false} InsertByTimestampSorts(l: Log, s: seq<Log>)
    requires NewestFirst(s)
    ensures NewestFirst(InsertByTimestamp(l, s))
  {
    if s != [] && l.timestamp < s[0].timestamp {
      InsertByTimestampSorts(l, s[1..]);
      InsertByTimestampBounded(l, s[1..], s[0].timestamp);
    }
  }

  lemma {:induction false} SortNewestFirstSorts(s: seq<Log>)
    ensures NewestFirst(SortNewestFirst(s))
    ensures multiset(SortNewestFirst(s)) == multiset(s)
  {
    if s != [] {
      SortNewestFirstSorts(s[1..]);
      InsertByTimestampSorts(s[0], SortNewestFirst(s[1..]));
      InsertByTimestampPermutes(s[0], SortNewestFirst(s[1..]));
      assert s == [s[0]] + s[1..];
    }
  }

  lemma {:induction false} InsertByTimestampStable(l: Log, s: seq<Log>, t: int)
    ensures WithTimestamp(InsertByTimestamp(l, s), t)
         == (if l.timestamp == t then [l] else []) + WithTimestamp(s, t)
  {
    var p := (x: Log) => x.timestamp == t;
    if s == [] || l.timestamp >= s[0].timestamp {
      FilterCons(l, s, p);
    } else {
      InsertByTimestampStable(l, s[1..], t);
      FilterCons(s[0], InsertByTimestamp(l, s[1..]), p);
      assert s == [s[0]] + s[1..];
      FilterCons(s[0], s[1..], p);
    }
  }

  /** Stability: logs with equal timestamps keep their relative order. */
  lemma {:induction false} SortNewestFirstStable(s: seq<Log>, t: int)
    ensures WithTimestamp(SortNewestFirst(s), t) == WithTimestamp(s, t)
  {
    if s != [] {
      SortNewestFirstStable(s[1..], t);
      InsertByTimestampStable(s[0], SortNewestFirst(s[1..]), t);
    }
  }

  /** `getHistory`: the logs of one exercise, most recent first. */
  function History(logs: seq<Log>, exerciseId: string): (r: seq<Log>)
    ensures NewestFirst(r)
    ensures multiset(r) == multiset(LogsOf(logs, exerciseId))
    ensures forall k :: 0 <= k < |r| ==> r[k].exerciseId == exerciseId && r[k] in logs
    ensures forall k :: 0 <= k < |logs| && logs[k].exerciseId == exerciseId ==> logs[k] in r
  {
    var mine := LogsOf(logs, exerciseId);
    SortNewestFirstSorts(mine);
    SameMembers(SortNewestFirst(mine), mine);
    SortNewestFirst(mine)
  }

  /** Two permutations of each other hold the same elements. */
  lemma SameMembers(a: seq<Log>, b: seq<Log>)
    requires multiset(a) == multiset(b)
    ensures forall k :: 0 <= k < |a| ==> a[k] in b
    ensures forall k :: 0 <= k < |b| ==> b[k] in a
  {
    forall k | 0 <= k < |a| ensures a[k] in b {
      assert a[k] in multiset(a);
    }
    forall k | 0 <= k < |b| ensures b[k] in a {
      assert b[k] in multiset(b);
    }
  }

  /** Logs of the exercise that share a timestamp appear in `History` in the order they were stored. */
  lemma HistoryKeepsStoredOrderOnTies(logs: seq<Log>, exerciseId: string, t: int)
    ensures WithTimestamp(History(logs, exerciseId), t) == WithTimestamp(LogsOf(logs, exerciseId), t)
  {
    SortNewestFirstStable(LogsOf(logs, exerciseId), t);
  }

  // ---------------------------------------------------------------------------
  // In-place updates

  /** `findIndex(l => l.id === id)` over the logs. */
  function LogIndex(logs: seq<Log>, id: string): (r: int)
    ensures -1 <= r < |logs|
    ensures r == -1 <==> forall k :: 0 <= k < |logs| ==> logs[k].id != id
    ensures 0 <= r ==> logs[r].id == id && forall k :: 0 <= k < r ==> logs[k].id != id
  {
    IndexWhere(logs, (l: Log) => l.id == id)
  }

  /** `findIndex(e => e.id === id)` over the exercises. */
  function ExerciseIndex(exercises: seq<Exercise>, id: string): (r: int)
    ensures -1 <= r < |exercises|
    ensures r == -1 <==> forall k :: 0 <= k < |exercises| ==> exercises[k].id != id
    ensures 0 <= r ==> exercises[r].id == id && forall k :: 0 <= k < r ==> exercises[k].id != id
  {
    IndexWhere(exercises, (e: Exercise) => e.id == id)
  }

  /** `updateWorkoutLog`: the first log with `id` gets the new date, exercise, sets
      and note and keeps its id and timestamp; every other log is untouched, and
      an unknown id changes nothing. */
  function UpdateLog(logs: seq<Log>, id: string, date: string, exerciseId: string,
                     sets: seq<WorkoutSet>, note: string): (r: seq<Log>)
    ensures |r| == |logs|
    ensures (forall k :: 0 <= k < |logs| ==> logs[k].id != id) ==> r == logs
    ensures forall k :: 0 <= k < |logs| && k != LogIndex(logs, id) ==> r[k] == logs[k]
    ensures var i := LogIndex(logs, id);
            0 <= i ==> r[i] == Log(id, date, exerciseId, sets, note, logs[i].timestamp)
    ensures forall k :: 0 <= k < |logs| ==> r[k].id == logs[k].id && r[k].timestamp == logs[k].timestamp
  {
    var i := LogIndex(logs, id);
    if i == -1 then logs
    else logs[i := logs[i].(date := date, exerciseId := exerciseId, sets := sets, note := note)]
  }

  /** `updateExercise`: the first exercise with `id` gets the new name and part and
      keeps its id; an unknown id changes nothing. */
  function UpdateExercise(exercises: seq<Exercise>, id: string, name: string, part: string): (r: seq<Exercise>)
    ensures |r| == |exercises|
    ensures (forall k :: 0 <= k < |exercises| ==> exercises[k].id != id) ==> r == exercises
    ensures forall k :: 0 <= k < |exercises| && k != ExerciseIndex(exercises, id) ==> r[k] == exercises[k]
    ensures var i := ExerciseIndex(exercises, id); 0 <= i ==> r[i] == Exercise(id, name, part)
    ensures forall k :: 0 <= k < |exercises| ==> r[k].id == exercises[k].id
  {
    var i := ExerciseIndex(exercises, id);
    if i == -1 then exercises
    else exercises[i := exercises[i].(name := name, part := part)]
  }

  /** Repeating an update of a log gives the state after the first one. */
  lemma UpdateLogIdempotent(logs: seq<Log>, id: string, date: string, exerciseId: string,
                            sets: seq<WorkoutSet>, note: string)
    ensures var once := UpdateLog(logs, id, date, exerciseId, sets, note);
            UpdateLog(once, id, date, exerciseId, sets, note) == once
  {
    var once := UpdateLog(logs, id, date, exerciseId, sets, note);
    var i := LogIndex(logs, id);
    assert LogIndex(once, id) == i by {
      assert forall k :: 0 <= k < |logs| ==> (once[k].id == id <==> logs[k].id == id);
    }
  }

  /** Repeating an update of an exercise gives the state after the first one. */
  lemma UpdateExerciseIdempotent(exercises: seq<Exercise>, id: string, name: string, part: string)
    ensures var once := UpdateExercise(exercises, id, name, part);
            UpdateExercise(once, id, name, part) == once
  {
    var once := UpdateExercise(exercises, id, name, part);
    assert ExerciseIndex(once, id) == ExerciseIndex(exercises, id) by {
      assert forall k :: 0 <= k < |exercises| ==> (once[k].id == id <==> exercises[k].id == id);
    }
  }

  /** A log update that points at a live exercise keeps the document consistent. */
  lemma UpdateLogKeepsConsistent(d: Document, id: string, date: string, exerciseId: string,
                                 sets: seq<WorkoutSet>, note: string)
    requires Consistent(d) && exerciseId in ExerciseIds(d.exercises)
    ensures Consistent(Document(d.exercises, UpdateLog(d.logs, id, date, exerciseId, sets, note)))
  {
    var r := UpdateLog(d.logs, id, date, exerciseId, sets, note);
    forall l | l in r ensures l.exerciseId in ExerciseIds(d.exercises) {
      var k :| 0 <= k < |r| && r[k] == l;
      if k != LogIndex(d.logs, id) {
        assert d.logs[k] in d.logs;
      }
    }
  }

  /** An exercise update keeps every id, so it keeps the document consistent. */
  lemma UpdateExerciseKeepsConsistent(d: Document, id: string, name: string, part: string)
    requires Consistent(d)
    ensures Consistent(Document(UpdateExercise(d.exercises, id, name, part), d.logs))
  {
    var r := UpdateExercise(d.exercises, id, name, part);
    assert ExerciseIds(r) == ExerciseIds(d.exercises) by {
      forall x | x in ExerciseIds(d.exercises) ensures x in ExerciseIds(r) {
        var k :| 0 <= k < |d.exercises| && d.exercises[k].id == x;
        assert r[k] in r;
      }
      forall x | x in ExerciseIds(r) ensures x in ExerciseIds(d.exercises) {
        var k :| 0 <= k < |r| && r[k].id == x;
        assert d.exercises[k] in d.exercises;
      }
    }
  }

  // ---------------------------------------------------------------------------
  // Appending and the cascading delete

  /** Appending a log with an unused id that points at a live exercise keeps the
      document consistent. */
  lemma AppendLogKeepsConsistent(d: Document, l: Log)
    requires Consistent(d) && l.id !in LogIds(d.logs) && l.exerciseId in ExerciseIds(d.exercises)
    ensures Consistent(Document(d.exercises, d.logs + [l]))
  {
    var r := d.logs + [l];
    forall i, j | 0 <= i < j < |r| ensures r[i].id != r[j].id {
      if j == |d.logs| {
        assert r[i] in d.logs;
      }
    }
  }

  /** Appending an exercise with an unused id keeps the document consistent. */
  lemma AppendExerciseKeepsConsistent(d: Document, e: Exercise)
    requires Consistent(d) && e.id !in ExerciseIds(d.exercises)
    ensures Consistent(Document(d.exercises + [e], d.logs))
  {
    var r := d.exercises + [e];
    forall i, j | 0 <= i < j < |r| ensures r[i].id != r[j].id {
      if j == |d.exercises| {
        assert r[i] in d.exercises;
      }
    }
    forall l | l in d.logs ensures l.exerciseId in ExerciseIds(r) {
      var x :| x in d.exercises && x.id == l.exerciseId;
      assert x in r;
    }
  }

  /** The exercises left by `deleteExercise`. */
  function ExercisesWithout(exercises: seq<Exercise>, id: string): seq<Exercise> {
    Filter(exercises, (e: Exercise) => e.id != id)
  }

  /** The logs left by `deleteExercise`. */
  function LogsWithout(logs: seq<Log>, exerciseId: string): seq<Log> {
    Filter(logs, (l: Log) => l.exerciseId != exerciseId)
  }

  lemma {:induction false} LogsWithoutCount(logs: seq<Log>, exerciseId: string)
    ensures |LogsWithout(logs, exerciseId)| == |logs| - |LogsOf(logs, exerciseId)|
  {
    if logs != [] {
      LogsWithoutCount(logs[1..], exerciseId);
    }
  }

  /** `deleteExercise` keeps every other exercise and every log of another
      exercise exactly as often as before. */
  lemma DeleteExerciseCounts(d: Document, id: string)
    ensures forall x :: multiset(ExercisesWithout(d.exercises, id))[x] ==
              if x.id != id then multiset(d.exercises)[x] else 0
    ensures forall x :: multiset(LogsWithout(d.logs, id))[x] ==
              if x.exerciseId != id then multiset(d.logs)[x] else 0
  {
    FilterCounts(d.exercises, (e: Exercise) => e.id != id);
    FilterCounts(d.logs, (l: Log) => l.exerciseId != id);
  }

  /** `deleteExercise`: afterwards no exercise has the id and no log refers to it;
      everything else stays, in its original relative order; the log count drops by
      exactly the number of logs of the exercise; consistency is kept. */
  lemma DeleteExerciseCascades(d: Document, id: string)
    ensures var exercises, logs := ExercisesWithout(d.exercises, id), LogsWithout(d.logs, id);
      && (forall k :: 0 <= k < |exercises| ==> exercises[k].id != id)
      && (forall k :: 0 <= k < |logs| ==> logs[k].exerciseId != id)
      && IsSubsequence(exercises, d.exercises) && IsSubsequence(logs, d.logs)
      && (forall k :: 0 <= k < |d.exercises| && d.exercises[k].id != id ==> d.exercises[k] in exercises)
      && (forall k :: 0 <= k < |d.logs| && d.logs[k].exerciseId != id ==> d.logs[k] in logs)
      && |logs| == |d.logs| - |LogsOf(d.logs, id)|
      && (Consistent(d) ==> Consistent(Document(exercises, logs)))
  {
    var exercises, logs := ExercisesWithout(d.exercises, id), LogsWithout(d.logs, id);
    FilterIsSubsequence(d.exercises, (e: Exercise) => e.id != id);
    FilterIsSubsequence(d.logs, (l: Log) => l.exerciseId != id);
    FilterMembers(d.exercises, (e: Exercise) => e.id != id);
    FilterMembers(d.logs, (l: Log) => l.exerciseId != id);
    LogsWithoutCount(d.logs, id);
    if Consistent(d) {
      SubsequenceKeepsUnique(exercises, d.exercises, (e: Exercise) => e.id);
      SubsequenceKeepsUnique(logs, d.logs, (l: Log) => l.id);
      forall l | l in logs ensures l.exerciseId in ExerciseIds(exercises) {
        var k :| 0 <= k < |logs| && logs[k] == l;
        var x :| x in d.exercises && x.id == l.exerciseId;
        var j :| 0 <= j < |d.exercises| && d.exercises[j] == x;
        assert d.exercises[j] in exercises;
      }
    }
  }

  // ---------------------------------------------------------------------------
  // Personal best

  /** Set `b` of log `a` exists in the history `h`. */
  predicate InHistory(h: seq<Log>, a: int, b: int) {
    0 <= a < |h| && 0 <= b < |h[a].sets|
  }

  /** Set `(a, b)` is met before set `(i, j)` when the history is scanned log by
      log and, within a log, set by set. */
  predicate ScannedBefore(a: int, b: int, i: int, j: int) {
    a < i || (a == i && b < j)
  }

  ghost predicate NoPositiveVolume(h: seq<Log>) {
    forall a, b :: InHistory(h, a, b) ==> Volume(h[a].sets[b]) <= 0.0
  }

  /** Set `(i, j)` is what `getPersonalBest` reports: its volume is positive, no set
      of the history has more, and every set met before it has strictly less. */
  ghost predicate IsPersonalBest(h: seq<Log>, i: int, j: int) {
    && InHistory(h, i, j)
    && 0.0 < Volume(h[i].sets[j])
    && (forall a, b :: InHistory(h, a, b) ==> Volume(h[a].sets[b]) <= Volume(h[i].sets[j]))
    && (forall a, b :: InHistory(h, a, b) && ScannedBefore(a, b, i, j) ==>
          Volume(h[a].sets[b]) < Volume(h[i].sets[j]))
  }

  function BestAt(h: seq<Log>, i: int, j: int): Best
    requires InHistory(h, i, j)
  {
    Best(h[i].sets[j].weight, h[i].sets[j].reps, h[i].date)
  }

  /** At most one set of a history is its personal best. */
  lemma PersonalBestUnique(h: seq<Log>, i: int, j: int, i': int, j': int)
    requires IsPersonalBest(h, i, j) && IsPersonalBest(h, i', j')
    ensures i == i' && j == j'
  {
  }

  /** In a newest-first history, any set with the same volume as the personal best
      is met after it and comes from a log that is not newer. */
  lemma PersonalBestIsMostRecent(h: seq<Log>, i: int, j: int, a: int, b: int)
    requires NewestFirst(h) && IsPersonalBest(h, i, j)
    requires InHistory(h, a, b) && Volume(h[a].sets[b]) == Volume(h[i].sets[j])
    ensures (a, b) == (i, j) || ScannedBefore(i, j, a, b)
    ensures h[a].timestamp <= h[i].timestamp
  {
  }

  /** Two sets of one log, 100 x 5 and 80 x 10: the second, with volume 800, is reported. */
  lemma PersonalBestOfOneLog()
    ensures var h := [Log("a", "2024-01-05", "bp", [WorkoutSet(100.0, 5, ""), WorkoutSet(80.0, 10, "")], "", 1)];
            IsPersonalBest(h, 0, 1) && BestAt(h, 0, 1) == Best(80.0, 10, "2024-01-05")
  {
  }

  /** Equal volumes in two logs: the set of the newer log, met first, is reported. */
  lemma PersonalBestTieGoesToNewer()
    ensures var h := [Log("b", "2024-01-06", "bp", [WorkoutSet(50.0, 10, "")], "", 2),
                      Log("a", "2024-01-05", "bp", [WorkoutSet(100.0, 5, "")], "", 1)];
            IsPersonalBest(h, 0, 0) && !IsPersonalBest(h, 1, 0)
  {
  }

  // ---------------------------------------------------------------------------
  // Saving from the logging screen: one log per exercise per day

  /** The first stored log of `exerciseId` on `date`, or -1. */
  function DayEntry(logs: seq<Log>, date: string, exerciseId: string): int {
    IndexWhere(logs, (l: Log) => l.date == date && l.exerciseId == exerciseId)
  }

  /** No two logs share both a date and an exercise. */
  predicate OnePerDay(logs: seq<Log>) {
    forall i, j :: 0 <= i < j < |logs| ==>
      logs[i].date != logs[j].date || logs[i].exerciseId != logs[j].exerciseId
  }

  /** The logging screen's save: nothing is saved without a set; otherwise look
      among the day's logs for one of the exercise and update it in place (keeping
      its date, clearing the log-level note) or else append a new log with the
      fresh id and the current time. */
  function SaveForDate(logs: seq<Log>, date: string, exerciseId: string, sets: seq<WorkoutSet>,
                       freshId: string, now: int): seq<Log>
  {
    if sets == [] then logs
    else
      var todays := LogsByDate(logs, date);
      var k := IndexWhere(todays, (l: Log) => l.exerciseId == exerciseId);
      if k == -1 then logs + [Log(freshId, date, exerciseId, sets, "", now)]
      else UpdateLog(logs, todays[k].id, todays[k].date, exerciseId, sets, "")
  }

  /** With unique log ids, a save with sets changes exactly one log: the day's
      entry for the exercise gets the new sets and an empty note, or a new entry is
      appended. A save without sets changes nothing. */
  lemma SaveForDateEffect(logs: seq<Log>, date: string, exerciseId: string, sets: seq<WorkoutSet>,
                          freshId: string, now: int)
    requires LogIdsUnique(logs)
    ensures var r, j := SaveForDate(logs, date, exerciseId, sets, freshId, now), DayEntry(logs, date, exerciseId);
      && (sets == [] ==> r == logs)
      && (sets != [] && j == -1 ==> r == logs + [Log(freshId, date, exerciseId, sets, "", now)])
      && (sets != [] && 0 <= j ==> r == logs[j := Log(logs[j].id, date, exerciseId, sets, "", logs[j].timestamp)])
  {
    var p, q := (l: Log) => l.date == date, (l: Log) => l.exerciseId == exerciseId;
    var todays := LogsByDate(logs, date);
    var k := IndexWhere(todays, q);
    var j := FindInFilter(logs, p, q);
    assert j == DayEntry(logs, date, exerciseId);
    if 0 <= j {
      var e := todays[k];
      assert e == logs[j];
      var i := LogIndex(logs, e.id);
      assert i == j;
    }
  }

  /** A save keeps ids unique when the fresh id is unused, keeps at most one log
      per exercise and day, and, when there are sets, leaves a log of the exercise
      on that day holding them. */
  lemma SaveForDateUpserts(logs: seq<Log>, date: string, exerciseId: string, sets: seq<WorkoutSet>,
                           freshId: string, now: int)
    requires LogIdsUnique(logs) && freshId !in LogIds(logs)
    ensures var r := SaveForDate(logs, date, exerciseId, sets, freshId, now);
      && LogIdsUnique(r)
      && (OnePerDay(logs) ==> OnePerDay(r))
      && (sets != [] ==>
            exists k :: 0 <= k < |r| && r[k].date == date && r[k].exerciseId == exerciseId && r[k].sets == sets)
  {
    SaveForDateEffect(logs, date, exerciseId, sets, freshId, now);
    SaveForDateKeepsIds(logs, date, exerciseId, sets, freshId, now);
    var r := SaveForDate(logs, date, exerciseId, sets, freshId, now);
    var j := DayEntry(logs, date, exerciseId);
    if sets == [] {
    } else if j == -1 {
      assert r[|logs|].sets == sets;
    } else {
      assert r[j].sets == sets;
    }
  }

  /** A save with an unused fresh id keeps log ids unique. */
  lemma SaveForDateKeepsIds(logs: seq<Log>, date: string, exerciseId: string, sets: seq<WorkoutSet>,
                            freshId: string, now: int)
    requires LogIdsUnique(logs) && freshId !in LogIds(logs)
    ensures LogIdsUnique(SaveForDate(logs, date, exerciseId, sets, freshId, now))
  {
    SaveForDateEffect(logs, date, exerciseId, sets, freshId, now);
    var r := SaveForDate(logs, date, exerciseId, sets, freshId, now);
    if sets != [] && DayEntry(logs, date, exerciseId) == -1 {
      forall a, b | 0 <= a < b < |r| ensures r[a].id != r[b].id {
        if b == |logs| {
          assert r[a] in logs;
        }
      }
    }
  }

  /** Saving the same sets twice for the same exercise and day leaves the logs as
      after the first save. */
  lemma SaveForDateIdempotent(logs: seq<Log>, date: string, exerciseId: string, sets: seq<WorkoutSet>,
                              freshId: string, now: int, freshId': string, now': int)
    requires LogIdsUnique(logs) && freshId !in LogIds(logs)
    ensures var once := SaveForDate(logs, date, exerciseId, sets, freshId, now);
            SaveForDate(once, date, exerciseId, sets, freshId', now') == once
  {
    var once := SaveForDate(logs, date, exerciseId, sets, freshId, now);
    SaveForDateEffect(logs, date, exerciseId, sets, freshId, now);
    SaveForDateKeepsIds(logs, date, exerciseId, sets, freshId, now);
    SaveForDateEffect(once, date, exerciseId, sets, freshId', now');
    var j := DayEntry(logs, date, exerciseId);
    if sets == [] {
    } else if j == -1 {
      DayEntryAppended(logs, date, exerciseId, Log(freshId, date, exerciseId, sets, "", now));
    } else {
      DayEntryRewritten(logs, date, exerciseId, Log(logs[j].id, date, exerciseId, sets, "", logs[j].timestamp));
    }
  }

  /** A log appended to a day without an entry for its exercise becomes that entry. */
  lemma DayEntryAppended(logs: seq<Log>, date: string, exerciseId: string, e: Log)
    requires DayEntry(logs, date, exerciseId) == -1 && e.date == date && e.exerciseId == exerciseId
    ensures DayEntry(logs + [e], date, exerciseId) == |logs|
  {
    assert (logs + [e])[|logs|] == e;
  }

  /** Rewriting the day's entry for an exercise, keeping its date and exercise,
      leaves it the entry. */
  lemma DayEntryRewritten(logs: seq<Log>, date: string, exerciseId: string, e: Log)
    requires 0 <= DayEntry(logs, date, exerciseId) && e.date == date && e.exerciseId == exerciseId
    ensures var j := DayEntry(logs, date, exerciseId); DayEntry(logs[j := e], date, exerciseId) == j
  {
    var j := DayEntry(logs, date, exerciseId);
    var r := logs[j := e];
    assert r[j] == e;
    assert forall k :: 0 <= k < j ==> r[k] == logs[k];
  }
}
