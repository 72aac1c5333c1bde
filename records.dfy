/**
 The persisted document of the workout tracker: exercises, workout logs and the
 sets inside them, the body-part categories and the default exercise catalog.
 */
module Records {
  import opened Seqs

  datatype Option<T> = None | Some(value: T)

  /** One set: `weight` is kept as a real number, `reps` as an integer. */
  datatype WorkoutSet = WorkoutSet(weight: real, reps: int, note: string)

  datatype Exercise = Exercise(id: string, name: string, part: string)

  /** All sets of one exercise on one `date` (an opaque "yyyy-MM-dd" key);
      `timestamp` is the creation time in milliseconds. */
  datatype Log = Log(id: string, date: string, exerciseId: string, sets: seq<WorkoutSet>,
                     note: string, timestamp: int)

  /** The one document held under the storage key. */
  datatype Document = Document(exercises: seq<Exercise>, logs: seq<Log>)

  /** What `getPersonalBest` reports: the set's weight and reps and the date of its log. */
  datatype Best = Best(weight: real, reps: int, date: string)

  /** The eight body-part categories, in display order
      (chest, back, legs, shoulders, arms, abs, cardio, other). */
  const BodyParts: seq<string> := ["胸", "背中", "脚", "肩", "腕", "腹筋", "有酸素", "その他"]

  /** The catalog a fresh store is seeded with. */
  const DefaultExercises: seq<Exercise> := [
    Exercise("bp", "ベンチプレス", "胸"),
    Exercise("fly", "ダンベルフライ", "胸"),
    Exercise("dl", "デッドリフト", "背中"),
    Exercise("pull", "懸垂", "背中"),
    Exercise("sq", "スクワット", "脚"),
    Exercise("ext", "レッグエクステンション", "脚"),
    Exercise("ohp", "ミリタリープレス", "肩"),
    Exercise("lat", "サイドレイズ", "肩"),
    Exercise("cur", "ダンベルカール", "腕"),
    Exercise("tri", "トライセプスエクステンション", "腕")
  ]

  /** The ranking metric of a set: weight times reps. */
  function Volume(s: WorkoutSet): (v: real)
    ensures v > 0.0 <==> (s.weight > 0.0 && s.reps > 0) || (s.weight < 0.0 && s.reps < 0)
  {
    s.weight * s.reps as real
  }

  function ExerciseIds(exercises: seq<Exercise>): set<string> {
    set e | e in exercises :: e.id
  }

  function LogIds(logs: seq<Log>): set<string> {
    set l | l in logs :: l.id
  }

  predicate ExerciseIdsUnique(exercises: seq<Exercise>) {
    UniqueBy(exercises, (e: Exercise) => e.id)
  }

  predicate LogIdsUnique(logs: seq<Log>) {
    UniqueBy(logs, (l: Log) => l.id)
  }

  /** Every log names an exercise that exists. */
  predicate ReferencesResolve(exercises: seq<Exercise>, logs: seq<Log>) {
    forall l :: l in logs ==> l.exerciseId in ExerciseIds(exercises)
  }

  /** The document invariant: unique ids on both sides and no orphan log. */
  predicate Consistent(d: Document) {
    ExerciseIdsUnique(d.exercises) && LogIdsUnique(d.logs) && ReferencesResolve(d.exercises, d.logs)
  }

  /** The default catalog holds ten exercises with distinct ids. */
  lemma DefaultCatalogIds()
    ensures |DefaultExercises| == 10
    ensures ExerciseIdsUnique(DefaultExercises)
  {
    // The ids already differ in their first letters.
    var initials := "bfdpseolct";
    assert forall k :: 0 <= k < 10 ==> DefaultExercises[k].id[0] == initials[k];
    forall i, j | 0 <= i < j < 10 ensures DefaultExercises[i].id != DefaultExercises[j].id {
      assert initials[i] != initials[j];
    }
  }

  /** The default catalog files two exercises under each of the first five body
      parts, in display order. */
  lemma DefaultCatalogPairs()
    ensures forall k :: 0 <= k < 5 ==>
              DefaultExercises[2 * k].part == BodyParts[k] == DefaultExercises[2 * k + 1].part
  {
  }

  /** No default exercise is filed under abs, cardio or other. */
  lemma DefaultCatalogParts()
    ensures forall e :: e in DefaultExercises ==> e.part in BodyParts[..5]
  {
    DefaultCatalogPairs();
    forall e | e in DefaultExercises ensures e.part in BodyParts[..5] {
      var k :| 0 <= k < |DefaultExercises| && DefaultExercises[k] == e;
      assert BodyParts[..5][k / 2] == BodyParts[k / 2];
    }
  }
}
