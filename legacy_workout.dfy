/**
 * The older revision of the workout core (workout.py). Its configuration expansion emits one
 * rest per stored name, before the exercise or before both of its sides, so a 1-handed exercise
 * yields rest, left, right: the workout then no longer alternates rests and exercises.
 */
module LegacyWorkouts {
  import opened Wrappers
  import opened Exercises
  import opened WorkoutSpec

  /** The exercise phases workout.py emits after a name's rest: both sides in order, or the exercise. */
  function LegacyExercisePhases(e: Exercise, exerciseSeconds: int): Workout
  {
    if e.singleHandedVariations then
      [Phase(exerciseSeconds, Ex(SidedExercise(e, "left"))), Phase(exerciseSeconds, Ex(SidedExercise(e, "right")))]
    else
      [Phase(exerciseSeconds, Ex(e))]
  }

  /** The phases workout.py's workout_from_config emits for one exercise: one rest, then its exercise phases. */
  function LegacyExpand(e: Exercise, exerciseSeconds: int, restSeconds: int): Workout
  {
    [Phase(restSeconds, Rest)] + LegacyExercisePhases(e, exerciseSeconds)
  }

  /** The phases of a list of exercises, expanded in order the older way. */
  function LegacyExpandAll(es: seq<Exercise>, exerciseSeconds: int, restSeconds: int): Workout
  {
    if es == [] then []
    else LegacyExpandAll(es[..|es| - 1], exerciseSeconds, restSeconds) + LegacyExpand(es[|es| - 1], exerciseSeconds, restSeconds)
  }

  /**
   * workout_from_config of workout.py: for every stored name a rest, then the exercise or its
   * left and right sides; an unknown name raises KeyError.
   */
  method WorkoutFromConfig(catalog: map<string, Exercise>, config: WorkoutConfig) returns (r: Result<Workout, Error>)
    ensures AllKnown(catalog, config.exercises) ==>
      && r.Success?
      && r.value == LegacyExpandAll(Lookup(catalog, config.exercises), config.exerciseDurationSeconds, config.restDurationSeconds)
      && |r.value| == |config.exercises| + ExerciseUnits(Lookup(catalog, config.exercises))
      && UniformDurations(r.value, config.exerciseDurationSeconds, config.restDurationSeconds)
      && (Alternates(r.value) <==> NoSingleHanded(Lookup(catalog, config.exercises)))
    ensures !AllKnown(catalog, config.exercises) ==>
      exists i :: 0 <= i < |config.exercises| && config.exercises[i] !in catalog && AllKnown(catalog, config.exercises[..i])
        && r == Failure(KeyError(config.exercises[i]))
  {
    var names := config.exercises;
    var restPhase := Phase(config.restDurationSeconds, Rest);
    var workout: Workout := [];
    for i := 0 to |names|
      invariant AllKnown(catalog, names[..i])
      invariant workout == LegacyExpandAll(Lookup(catalog, names[..i]), config.exerciseDurationSeconds, config.restDurationSeconds)
    {
      var exerciseName := names[i];
      var withRest := workout + [restPhase];
      if exerciseName !in catalog {
        assert names[i] !in catalog && AllKnown(catalog, names[..i]);
        return Failure(KeyError(exerciseName));
      }
      var exercise := catalog[exerciseName];
      LegacyLookupStep(catalog, names, i, config.exerciseDurationSeconds, config.restDurationSeconds);
      workout := AppendSides(withRest, exercise, config.exerciseDurationSeconds);
      assert workout == workout[..|withRest|] + LegacyExercisePhases(catalog[names[i]], config.exerciseDurationSeconds);
    }
    assert names[..|names|] == names;
    LegacyExpandAllShape(Lookup(catalog, names), config.exerciseDurationSeconds, config.restDurationSeconds);
    return Success(workout);
  }

  /** The exercise phases appended after the rest: both sides in order, or the exercise itself. */
  method AppendSides(workout: Workout, exercise: Exercise, exerciseDurationSeconds: int) returns (r: Workout)
    ensures r == workout + LegacyExercisePhases(exercise, exerciseDurationSeconds)
  {
    var x := LegacyExercisePhases(exercise, exerciseDurationSeconds);
    r := workout;
    if exercise.singleHandedVariations {
      for s := 0 to |Sides|
        invariant r == workout + x[..s]
      {
        var oneSidedExercise := Exercise(exercise.name + " (" + Sides[s] + ")", true);
        assert x[..s + 1] == x[..s] + [Phase(exerciseDurationSeconds, Ex(oneSidedExercise))];
        r := r + [Phase(exerciseDurationSeconds, Ex(oneSidedExercise))];
      }
      assert x[..2] == x;
    } else {
      r := r + [Phase(exerciseDurationSeconds, Ex(exercise))];
    }
  }

  // ---------------------------------------------------------------------------------------
  // Properties of the older expansion

  lemma LegacyExpandAllSnoc(es: seq<Exercise>, e: Exercise, exerciseSeconds: int, restSeconds: int)
    ensures LegacyExpandAll(es + [e], exerciseSeconds, restSeconds)
         == LegacyExpandAll(es, exerciseSeconds, restSeconds) + LegacyExpand(e, exerciseSeconds, restSeconds)
  {
    assert (es + [e])[..|es|] == es;
  }

  /** Expanding one more exercise: a rest, then the exercise phases. */
  lemma LegacyExpandAllStep(es: seq<Exercise>, e: Exercise, exerciseSeconds: int, restSeconds: int)
    ensures LegacyExpandAll(es + [e], exerciseSeconds, restSeconds)
         == LegacyExpandAll(es, exerciseSeconds, restSeconds) + [Phase(restSeconds, Rest)] + LegacyExercisePhases(e, exerciseSeconds)
  {
    LegacyExpandAllSnoc(es, e, exerciseSeconds, restSeconds);
  }

  /** Looking up and expanding one more stored name. */
  lemma LegacyLookupStep(catalog: map<string, Exercise>, names: seq<string>, i: nat, exerciseSeconds: int, restSeconds: int)
    requires i < |names| && AllKnown(catalog, names[..i]) && names[i] in catalog
    ensures AllKnown(catalog, names[..i + 1])
    ensures LegacyExpandAll(Lookup(catalog, names[..i + 1]), exerciseSeconds, restSeconds)
         == LegacyExpandAll(Lookup(catalog, names[..i]), exerciseSeconds, restSeconds) + [Phase(restSeconds, Rest)]
            + LegacyExercisePhases(catalog[names[i]], exerciseSeconds)
  {
    LookupExtend(catalog, names, i);
    LegacyExpandAllStep(Lookup(catalog, names[..i]), catalog[names[i]], exerciseSeconds, restSeconds);
  }

  /** The length, durations and alternation of the older expansion. */
  lemma LegacyExpandAllShape(es: seq<Exercise>, exerciseSeconds: int, restSeconds: int)
    ensures var w := LegacyExpandAll(es, exerciseSeconds, restSeconds);
      && |w| == |es| + ExerciseUnits(es)
      && UniformDurations(w, exerciseSeconds, restSeconds)
      && (Alternates(w) <==> NoSingleHanded(es))
  {
    LegacyExpandAllLength(es, exerciseSeconds, restSeconds);
    LegacyExpandAllDurations(es, exerciseSeconds, restSeconds);
    LegacyAlternates(es, exerciseSeconds, restSeconds);
  }

  /** One rest per name plus one phase per exercise unit. */
  lemma {:induction false} LegacyExpandAllLength(es: seq<Exercise>, exerciseSeconds: int, restSeconds: int)
    ensures |LegacyExpandAll(es, exerciseSeconds, restSeconds)| == |es| + ExerciseUnits(es)
  {
    if es != [] {
      LegacyExpandAllLength(es[..|es| - 1], exerciseSeconds, restSeconds);
    }
  }

  /** Every rest and every exercise phase has its configured duration. */
  lemma {:induction false} LegacyExpandAllDurations(es: seq<Exercise>, exerciseSeconds: int, restSeconds: int)
    ensures UniformDurations(LegacyExpandAll(es, exerciseSeconds, restSeconds), exerciseSeconds, restSeconds)
  {
    if es != [] {
      var p := es[..|es| - 1];
      LegacyExpandAllDurations(p, exerciseSeconds, restSeconds);
      var a, b := LegacyExpandAll(p, exerciseSeconds, restSeconds), LegacyExpand(es[|es| - 1], exerciseSeconds, restSeconds);
      assert forall i :: |a| <= i < |a + b| ==> (a + b)[i] == b[i - |a|];
    }
  }

  /** With only 2-handed exercises the older expansion is the current one. */
  lemma {:induction false} LegacyAgreesWithoutSides(es: seq<Exercise>, exerciseSeconds: int, restSeconds: int)
    requires NoSingleHanded(es)
    ensures LegacyExpandAll(es, exerciseSeconds, restSeconds) == ExpandAll(es, exerciseSeconds, restSeconds)
  {
    if es != [] {
      LegacyAgreesWithoutSides(es[..|es| - 1], exerciseSeconds, restSeconds);
    }
  }

  /** The older expansion alternates rests and exercises exactly when no stored exercise has 1-handed variations. */
  lemma LegacyAlternates(es: seq<Exercise>, exerciseSeconds: int, restSeconds: int)
    ensures Alternates(LegacyExpandAll(es, exerciseSeconds, restSeconds)) <==> NoSingleHanded(es)
  {
    if NoSingleHanded(es) {
      LegacyAgreesWithoutSides(es, exerciseSeconds, restSeconds);
      ExpandAllShape(es, exerciseSeconds, restSeconds);
    } else {
      var k :| 0 <= k < |es| && es[k].singleHandedVariations;
      LegacyRightAfterLeft(es, k, exerciseSeconds, restSeconds);
    }
  }

  /**
   * Where a 1-handed exercise's phases start, the older expansion has one rest, then
   * "<name> (left)" and "<name> (right)" next to each other, both flagged 1-handed: so it does
   * not alternate.
   */
  lemma LegacyRightAfterLeft(es: seq<Exercise>, k: nat, exerciseSeconds: int, restSeconds: int)
    requires k < |es| && es[k].singleHandedVariations
    ensures var w, s := LegacyExpandAll(es, exerciseSeconds, restSeconds), |LegacyExpandAll(es[..k], exerciseSeconds, restSeconds)|;
      && s + 3 <= |w|
      && w[s] == Phase(restSeconds, Rest)
      && w[s + 1] == Phase(exerciseSeconds, Ex(SidedExercise(es[k], "left")))
      && w[s + 2] == Phase(exerciseSeconds, Ex(SidedExercise(es[k], "right")))
    ensures !Alternates(LegacyExpandAll(es, exerciseSeconds, restSeconds))
  {
    var before, after := es[..k], es[k + 1..];
    var a := LegacyExpandAll(before, exerciseSeconds, restSeconds);
    var x := LegacyExpand(es[k], exerciseSeconds, restSeconds);
    var w := LegacyExpandAll(es, exerciseSeconds, restSeconds);
    assert w == a + x + LegacyExpandAll(after, exerciseSeconds, restSeconds) by {
      assert es == before + [es[k]] + after;
      LegacyExpandAllAppend(before + [es[k]], after, exerciseSeconds, restSeconds);
      LegacyExpandAllSnoc(before, es[k], exerciseSeconds, restSeconds);
    }
    assert w[|a|] == x[0] && w[|a| + 1] == x[1] && w[|a| + 2] == x[2];
    AdjacentExercises(w, |a| + 1);
  }

  /** Two exercise phases in a row break the alternation. */
  lemma AdjacentExercises(w: Workout, i: nat)
    requires i + 1 < |w| && !IsRest(w[i]) && !IsRest(w[i + 1])
    ensures !Alternates(w)
  {
  }

  /** The older expansion of a concatenation is the concatenation of the expansions. */
  lemma {:induction false} LegacyExpandAllAppend(a: seq<Exercise>, b: seq<Exercise>, exerciseSeconds: int, restSeconds: int)
    ensures LegacyExpandAll(a + b, exerciseSeconds, restSeconds)
         == LegacyExpandAll(a, exerciseSeconds, restSeconds) + LegacyExpandAll(b, exerciseSeconds, restSeconds)
    decreases |b|
  {
    if b == [] {
      assert a + b == a;
    } else {
      var b', e := b[..|b| - 1], b[|b| - 1];
      calc {
        LegacyExpandAll(a + b, exerciseSeconds, restSeconds);
        { assert a + b == (a + b') + [e];
          LegacyExpandAllSnoc(a + b', e, exerciseSeconds, restSeconds); }
        LegacyExpandAll(a + b', exerciseSeconds, restSeconds) + LegacyExpand(e, exerciseSeconds, restSeconds);
        { LegacyExpandAllAppend(a, b', exerciseSeconds, restSeconds); }
        LegacyExpandAll(a, exerciseSeconds, restSeconds) + LegacyExpandAll(b', exerciseSeconds, restSeconds)
          + LegacyExpand(e, exerciseSeconds, restSeconds);
        { assert b == b' + [e];
          LegacyExpandAllSnoc(b', e, exerciseSeconds, restSeconds); }
        LegacyExpandAll(a, exerciseSeconds, restSeconds) + LegacyExpandAll(b, exerciseSeconds, restSeconds);
      }
    }
  }
}
