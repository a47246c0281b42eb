/** Exercises, the rest marker and the in-memory exercise catalog (src/exercise.py). */
module Exercises {
  import opened Wrappers

  /** An exercise, either 2-handed or with 1-handed (left/right) variations. */
  datatype Exercise = Exercise(name: string, singleHandedVariations: bool)

  /** What a phase holds: the `Rest` marker record or an `Exercise`. */
  datatype PhaseType = Rest | Ex(exercise: Exercise)

  /** Every entry of a catalog is filed under its own name. */
  ghost predicate KeyedByName(m: map<string, Exercise>)
  {
    forall k :: k in m ==> m[k].name == k
  }

  lemma MapUpdateCount<V>(m: map<string, V>, k: string, v: V)
    ensures |m[k := v]| == if k in m then |m| else |m| + 1
  {
  }

  lemma MapRemoveCount<V>(m: map<string, V>, k: string)
    requires k in m
    ensures |m - {k}| == |m| - 1
  {
    assert (m - {k}).Keys == m.Keys - {k};
    assert m.Keys == (m.Keys - {k}) + {k};
  }

  /** The library of all exercises, keyed by name. Reading and writing the JSON file is not modelled. */
  class ExerciseManager {
    var exercises: map<string, Exercise>

    /** The in-memory part of `load_exercises`: each stored name becomes an exercise of that name. */
    constructor (stored: map<string, bool>)
      ensures exercises.Keys == stored.Keys
      ensures forall k :: k in stored ==> exercises[k] == Exercise(k, stored[k])
      ensures KeyedByName(exercises)
    {
      exercises := map k | k in stored :: Exercise(k, stored[k]);
    }

    /** `__len__`: the number of names in the catalog. */
    function Len(): nat
      reads this
    {
      |exercises|
    }

    /** Adds an exercise, or overwrites the entry of the same name. */
    method AddExercise(exercise: Exercise)
      modifies this
      ensures exercises == old(exercises)[exercise.name := exercise]
      ensures exercise.name in exercises && exercises[exercise.name] == exercise
      ensures forall k :: k in old(exercises) && k != exercise.name ==> k in exercises && exercises[k] == old(exercises)[k]
      ensures Len() == if exercise.name in old(exercises) then old(Len()) else old(Len()) + 1
      ensures old(KeyedByName(exercises)) ==> KeyedByName(exercises)
    {
      MapUpdateCount(exercises, exercise.name, exercise);
      exercises := exercises[exercise.name := exercise];
    }

    /** Removes an exercise by name; a missing name raises KeyError and changes nothing. */
    method RemoveExercise(exerciseName: string) returns (r: Outcome<Error>)
      modifies this
      ensures exerciseName in old(exercises) ==> r == Pass && exercises == old(exercises) - {exerciseName} && Len() == old(Len()) - 1
      ensures exerciseName !in old(exercises) ==> r == Fail(KeyError(exerciseName)) && exercises == old(exercises)
      ensures exerciseName !in exercises
      ensures old(KeyedByName(exercises)) ==> KeyedByName(exercises)
    {
      if exerciseName !in exercises {
        return Fail(KeyError(exerciseName));
      }
      MapRemoveCount(exercises, exerciseName);
      exercises := exercises - {exerciseName};
      return Pass;
    }
  }
}
