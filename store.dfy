/**
 The workout store itself: the document held in memory, seeded on first use,
 and the operations that change it in place.
 */
module Db {
  import opened Seqs
  import opened Records
  import opened Queries

  /** `getStore`: an empty storage slot is seeded with the default catalog and no
      logs; otherwise the stored document is used as it is. */
  function Load(slot: Option<Document>): (d: Document)
    ensures slot.None? ==> d.exercises == DefaultExercises && d.logs == [] && Consistent(d)
    ensures slot.Some? ==> d == slot.value
  {
    DefaultCatalogIds();
    if slot.None? then Document(DefaultExercises, []) else slot.value
  }

  class Store {
    var exercises: seq<Exercise>
    var logs: seq<Log>

    /** The document as it would be written back to storage. */
    function Snapshot(): Document
      reads this
    {
      Document(exercises, logs)
    }

    constructor Open(slot: Option<Document>)
      ensures Snapshot() == Load(slot)
    {
      var d := Load(slot);
      exercises := d.exercises;
      logs := d.logs;
    }

    /** `addWorkoutLog`: appends one log with the fresh id and the current time. */
    method AddWorkoutLog(date: string, exerciseId: string, sets: seq<WorkoutSet>, note: string,
                         freshId: string, now: int) returns (newLog: Log)
      modifies this
      ensures newLog == Log(freshId, date, exerciseId, sets, note, now)
      ensures logs == old(logs) + [newLog] && exercises == old(exercises)
      ensures old(Consistent(Snapshot())) && freshId !in LogIds(old(logs)) && exerciseId in ExerciseIds(exercises)
              ==> Consistent(Snapshot())
    {
      newLog := Log(freshId, date, exerciseId, sets, note, now);
      if Consistent(Snapshot()) && freshId !in LogIds(logs) && exerciseId in ExerciseIds(exercises) {
        AppendLogKeepsConsistent(Snapshot(), newLog);
      }
      logs := logs + [newLog];
    }

    /** `updateWorkoutLog`: rewrites the first log with `id` in place. */
    method UpdateWorkoutLog(id: string, date: string, exerciseId: string, sets: seq<WorkoutSet>, note: string)
      modifies this
      ensures logs == UpdateLog(old(logs), id, date, exerciseId, sets, note) && exercises == old(exercises)
      ensures old(Consistent(Snapshot())) && exerciseId in ExerciseIds(exercises) ==> Consistent(Snapshot())
    {
      if Consistent(Snapshot()) && exerciseId in ExerciseIds(exercises) {
        UpdateLogKeepsConsistent(Snapshot(), id, date, exerciseId, sets, note);
      }
      var index := LogIndex(logs, id);
      if index != -1 {
        logs := logs[index := logs[index].(date := date, exerciseId := exerciseId, sets := sets, note := note)];
      }
    }

    /** `addExercise`: appends one exercise with the fresh id. */
    method AddExercise(name: string, part: string, freshId: string) returns (newEx: Exercise)
      modifies this
      ensures newEx == Exercise(freshId, name, part)
      ensures exercises == old(exercises) + [newEx] && logs == old(logs)
      ensures old(Consistent(Snapshot())) && freshId !in ExerciseIds(old(exercises)) ==> Consistent(Snapshot())
    {
      newEx := Exercise(freshId, name, part);
      if Consistent(Snapshot()) && freshId !in ExerciseIds(exercises) {
        AppendExerciseKeepsConsistent(Snapshot(), newEx);
      }
      exercises := exercises + [newEx];
    }

    /** `updateExercise`: renames or re-files the first exercise with `id` in place. */
    method UpdateExercise(id: string, name: string, part: string)
      modifies this
      ensures exercises == Queries.UpdateExercise(old(exercises), id, name, part) && logs == old(logs)
      ensures old(Consistent(Snapshot())) ==> Consistent(Snapshot())
    {
      if Consistent(Snapshot()) {
        UpdateExerciseKeepsConsistent(Snapshot(), id, name, part);
      }
      var index := ExerciseIndex(exercises, id);
      if index != -1 {
        exercises := exercises[index := exercises[index].(name := name, part := part)];
      }
    }

    /** `deleteExercise`: removes the exercise and, in the same write, every log of it. */
    method DeleteExercise(id: string)
      modifies this
      ensures exercises == ExercisesWithout(old(exercises), id) && logs == LogsWithout(old(logs), id)
      ensures forall k :: 0 <= k < |exercises| ==> exercises[k].id != id
      ensures forall k :: 0 <= k < |logs| ==> logs[k].exerciseId != id
      ensures |logs| == |old(logs)| - |LogsOf(old(logs), id)|
      ensures old(Consistent(Snapshot())) ==> Consistent(Snapshot())
    {
      DeleteExerciseCascades(Snapshot(), id);
      exercises := Filter(exercises, (e: Exercise) => e.id != id);
      logs := Filter(logs, (l: Log) => l.exerciseId != id);
    }

    /** `getPersonalBest`: scans the exercise's history, most recent log first and
        each log's sets in order, keeping the first set of largest positive volume. */
    method PersonalBest(exerciseId: string) returns (best: Option<Best>)
      ensures var h := History(logs, exerciseId);
        && (best.None? <==> NoPositiveVolume(h))
        && (best.Some? ==> exists i, j :: IsPersonalBest(h, i, j) && best.value == BestAt(h, i, j))
    {
      var h := History(logs, exerciseId);
      var maxVol: real := 0.0;
      best := None;
      ghost var bi, bj := 0, 0;
      var i := 0;
      while i < |h|
        invariant 0 <= i <= |h|
        invariant ScanState(h, i, 0, maxVol, best, bi, bj)
      {
        var sets := h[i].sets;
        var j := 0;
        while j < |sets|
          invariant 0 <= j <= |sets|
          invariant ScanState(h, i, j, maxVol, best, bi, bj)
        {
          ScanSet(h, i, j, maxVol, best, bi, bj);
          var vol := Volume(sets[j]);
          if vol > maxVol {
            maxVol := vol;
            best := Some(Best(sets[j].weight, sets[j].reps, h[i].date));
            bi, bj := i, j;
          }
          j := j + 1;
        }
        ScanNextLog(h, i, maxVol, best, bi, bj);
        i := i + 1;
      }
      ScanDone(h, maxVol, best, bi, bj);
    }

    /** The logging screen's save (`saveWorkout` after the day's logs were searched
        for the exercise): without sets nothing happens; otherwise the day's log of
        the exercise is updated in place or a new one is appended. */
    method SaveWorkout(date: string, exerciseId: string, sets: seq<WorkoutSet>, freshId: string, now: int)
      modifies this
      ensures logs == SaveForDate(old(logs), date, exerciseId, sets, freshId, now) && exercises == old(exercises)
      ensures old(LogIdsUnique(logs)) && freshId !in LogIds(old(logs)) ==>
                LogIdsUnique(logs) && (old(OnePerDay(logs)) ==> OnePerDay(logs))
      ensures old(Consistent(Snapshot())) && freshId !in LogIds(old(logs)) && exerciseId in ExerciseIds(exercises)
              ==> Consistent(Snapshot())
    {
      if LogIdsUnique(logs) && freshId !in LogIds(logs) {
        SaveForDateUpserts(logs, date, exerciseId, sets, freshId, now);
      }
      if sets == [] {
        return;
      }
      var todays := LogsByDate(logs, date);
      var k := IndexWhere(todays, (l: Log) => l.exerciseId == exerciseId);
      if k == -1 {
        var added := AddWorkoutLog(date, exerciseId, sets, "", freshId, now);
      } else {
        UpdateWorkoutLog(todays[k].id, todays[k].date, exerciseId, sets, "");
      }
    }
  }

  /** What the personal-best scan knows after visiting every set before `(i, j)`:
      `maxVol` bounds them all, and a reported set is the first one to reach `maxVol`. */
  ghost predicate ScanState(h: seq<Log>, i: int, j: int, maxVol: real, best: Option<Best>, bi: int, bj: int) {
    && 0.0 <= maxVol
    && (forall a, b :: InHistory(h, a, b) && ScannedBefore(a, b, i, j) ==> Volume(h[a].sets[b]) <= maxVol)
    && (best.None? ==> maxVol == 0.0)
    && (best.Some? ==>
          && InHistory(h, bi, bj) && ScannedBefore(bi, bj, i, j)
          && maxVol == Volume(h[bi].sets[bj]) && 0.0 < maxVol
          && best.value == BestAt(h, bi, bj)
          && forall a, b :: InHistory(h, a, b) && ScannedBefore(a, b, bi, bj) ==> Volume(h[a].sets[b]) < maxVol)
  }

  /** Visiting set `(i, j)`: a strictly larger volume becomes the new best. */
  lemma ScanSet(h: seq<Log>, i: int, j: int, maxVol: real, best: Option<Best>, bi: int, bj: int)
    requires InHistory(h, i, j) && ScanState(h, i, j, maxVol, best, bi, bj)
    ensures var v := Volume(h[i].sets[j]);
            if v > maxVol then ScanState(h, i, j + 1, v, Some(BestAt(h, i, j)), i, j)
            else ScanState(h, i, j + 1, maxVol, best, bi, bj)
  {
    var v := Volume(h[i].sets[j]);
    if v > maxVol {
      forall a, b | InHistory(h, a, b) && ScannedBefore(a, b, i, j)
        ensures Volume(h[a].sets[b]) < v
      {
      }
    }
  }

  /** Leaving log `i` after its last set is entering log `i + 1` before its first. */
  lemma ScanNextLog(h: seq<Log>, i: int, maxVol: real, best: Option<Best>, bi: int, bj: int)
    requires 0 <= i < |h| && ScanState(h, i, |h[i].sets|, maxVol, best, bi, bj)
    ensures ScanState(h, i + 1, 0, maxVol, best, bi, bj)
  {
  }

  /** After the whole history: no result means no positive volume, and a result is the personal best. */
  lemma ScanDone(h: seq<Log>, maxVol: real, best: Option<Best>, bi: int, bj: int)
    requires ScanState(h, |h|, 0, maxVol, best, bi, bj)
    ensures best.None? <==> NoPositiveVolume(h)
    ensures best.Some? ==> IsPersonalBest(h, bi, bj) && best.value == BestAt(h, bi, bj)
  {
  }
}
