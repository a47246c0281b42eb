/**
 * The current revision of the workout core (src/workout.py): counting exercise units, the
 * overshoot correction, the random generator, building a workout from a stored configuration,
 * and the in-memory table of stored workouts.
 */
module Workouts {
  import opened Wrappers
  import opened Exercises
  import opened WorkoutSpec

  /** WorkoutConfig.calculate_num_exercises: 2 per name with 1-handed variations, 1 per other name. */
  method CalculateNumExercises(config: WorkoutConfig, catalog: map<string, Exercise>) returns (r: Result<int, Error>)
    ensures AllKnown(catalog, config.exercises) ==> r == Success(ExerciseUnits(Lookup(catalog, config.exercises)))
    ensures !AllKnown(catalog, config.exercises) ==>
      exists i :: 0 <= i < |config.exercises| && config.exercises[i] !in catalog && AllKnown(catalog, config.exercises[..i])
        && r == Failure(KeyError(config.exercises[i]))
  {
    var names := config.exercises;
    var numExercises := 0;
    for i := 0 to |names|
      invariant AllKnown(catalog, names[..i])
      invariant numExercises == ExerciseUnits(Lookup(catalog, names[..i]))
    {
      var exerciseName := names[i];
      if exerciseName !in catalog {
        assert names[i] !in catalog && AllKnown(catalog, names[..i]);
        return Failure(KeyError(exerciseName));
      }
      var exercise := catalog[exerciseName];
      UnitsExtend(catalog, names, i);
      if exercise.singleHandedVariations {
        numExercises := numExercises + 2;
      } else {
        numExercises := numExercises + 1;
      }
    }
    assert names[..|names|] == names;
    assert AllKnown(catalog, names);
    return Success(numExercises);
  }

  /** apply_workout_correction: drop the first 2-handed exercise and the phase before it. */
  method ApplyWorkoutCorrection(workout: Workout) returns (r: Workout)
    ensures r == Correction(workout)
    ensures NoTwoHanded(workout) ==> r == workout
    ensures Alternates(workout) && !NoTwoHanded(workout) ==> |r| == |workout| - 2 && Alternates(r)
  {
    for index := 0 to |workout|
      invariant forall j :: 0 <= j < index ==> !IsTwoHanded(workout[j])
    {
      var phase := workout[index];
      if phase.kind.Ex? && !phase.kind.exercise.singleHandedVariations {
        if Alternates(workout) {
          CorrectionRemovesPair(workout, index);
        }
        // Python's workout[: index - 1] keeps all but the last phase when index is 0
        var head := if index >= 1 then workout[..index - 1] else workout[..|workout| - 1];
        return head + workout[index + 1..];
      }
    }
    return workout;
  }

  /**
   * The phases generate_workout and workout_from_config append for one exercise: a rest and the
   * left side, a rest and the right side; or a rest and the exercise itself.
   */
  method AppendExercisePhases(workout: Workout, exercise: Exercise, exerciseDurationSeconds: int, restDurationSeconds: int)
    returns (r: Workout)
    ensures r == workout + Expand(exercise, exerciseDurationSeconds, restDurationSeconds)
  {
    var restPhase := Phase(restDurationSeconds, Rest);
    var x := Expand(exercise, exerciseDurationSeconds, restDurationSeconds);
    r := workout;
    if exercise.singleHandedVariations {
      for s := 0 to |Sides|
        invariant r == workout + x[..2 * s]
      {
        var oneSidedExercise := Exercise(exercise.name + " (" + Sides[s] + ")", true);
        assert x[..2 * s + 2] == x[..2 * s] + [restPhase, Phase(exerciseDurationSeconds, Ex(oneSidedExercise))];
        r := r + [restPhase];
        r := r + [Phase(exerciseDurationSeconds, Ex(oneSidedExercise))];
      }
      assert x[..4] == x;
    } else {
      r := r + [restPhase];
      r := r + [Phase(exerciseDurationSeconds, Ex(exercise))];
    }
  }

  /**
   * The rest of one pass of generate_workout's sampling loop once a name is drawn: a name
   * already done is skipped; otherwise it is recorded (without repeats) and its phases appended.
   */
  method TakeDrawn(exercise: Exercise, workout: Workout, alreadyDone: set<string>, allowRepeats: bool,
                   exerciseDurationSeconds: int, restDurationSeconds: int, ghost picked: seq<Exercise>)
    returns (newWorkout: Workout, newDone: set<string>, ghost newPicked: seq<Exercise>)
    requires workout == ExpandAll(picked, exerciseDurationSeconds, restDurationSeconds)
    requires alreadyDone == if allowRepeats then {} else NameSet(picked)
    ensures newPicked == if !allowRepeats && exercise.name in NameSet(picked) then picked else picked + [exercise]
    ensures newWorkout == ExpandAll(newPicked, exerciseDurationSeconds, restDurationSeconds)
    ensures newDone == if allowRepeats then {} else NameSet(newPicked)
    ensures ExerciseUnits(newPicked) <= ExerciseUnits(picked) + 2
  {
    if exercise.name in alreadyDone {
      return workout, alreadyDone, picked;
    }
    newDone := alreadyDone;
    if !allowRepeats {
      newDone := alreadyDone + {exercise.name};
    }
    NameSetStep(picked, exercise);
    ExpandAllStep(picked, exercise, exerciseDurationSeconds, restDurationSeconds);
    UnitsStep(picked, exercise);
    newWorkout := AppendExercisePhases(workout, exercise, exerciseDurationSeconds, restDurationSeconds);
    newPicked := picked + [exercise];
  }

  /**
   * The sampling loop of generate_workout: draw names until the expanded workout reaches
   * 2 * numExercises phases, skipping a name already used when repeats are not allowed.
   */
  method SampleExercises(catalog: map<string, Exercise>, numExercises: int, exerciseDurationSeconds: int,
                         restDurationSeconds: int, allowRepeats: bool, draws: seq<string>)
    returns (r: Result<Workout, Error>, ghost picked: seq<Exercise>, ghost used: nat)
    requires AllKnown(catalog, draws)
    ensures r.Failure? <==>
      if |catalog| == 0 then numExercises >= 1
      else ShortOfTarget(Lookup(catalog, draws), |draws|, RepeatRule(allowRepeats), numExercises)
    ensures r.Failure? ==> r.error == if |catalog| == 0 then IndexError else DrawsExhausted
    ensures r.Success? ==>
      && used <= |draws|
      && picked == Chosen(Lookup(catalog, draws)[..used], RepeatRule(allowRepeats))
      && (used > 0 ==> ShortOfTarget(Lookup(catalog, draws), used - 1, RepeatRule(allowRepeats), numExercises))
      && ExerciseUnits(picked) >= numExercises
      && (ExerciseUnits(picked) <= numExercises + 1 || picked == [])
      && (numExercises <= 0 ==> picked == [])
      && r.value == ExpandAll(picked, exerciseDurationSeconds, restDurationSeconds)
  {
    ghost var drawn := Lookup(catalog, draws);
    var alreadyDone: set<string> := {};
    var workout: Workout := [];
    var i := 0;
    var failure: Option<Error> := None;
    picked := [];
    while |workout| < 2 * numExercises
      invariant 0 <= i <= |draws|
      invariant picked == Chosen(drawn[..i], RepeatRule(allowRepeats))
      invariant workout == ExpandAll(picked, exerciseDurationSeconds, restDurationSeconds)
      invariant alreadyDone == if allowRepeats then {} else NameSet(picked)
      invariant i > 0 ==> ShortOfTarget(drawn, i - 1, RepeatRule(allowRepeats), numExercises)
      invariant ExerciseUnits(picked) <= numExercises + 1 || picked == []
      invariant |catalog| == 0 ==> picked == []
      invariant numExercises <= 0 ==> picked == []
      decreases |draws| - i
    {
      ExpandAllLength(picked, exerciseDurationSeconds, restDurationSeconds);
      if |catalog| == 0 {
        failure := Some(IndexError);
        break;
      }
      if i == |draws| {
        failure := Some(DrawsExhausted);
        break;
      }
      assert ShortOfTarget(drawn, i, RepeatRule(allowRepeats), numExercises);
      var exercise := catalog[draws[i]];
      LookupAt(catalog, draws, i);
      ChosenPrefixStep(drawn, i, RepeatRule(allowRepeats));
      workout, alreadyDone, picked := TakeDrawn(exercise, workout, alreadyDone, allowRepeats,
                                                exerciseDurationSeconds, restDurationSeconds, picked);
      i := i + 1;
    }
    ExpandAllLength(picked, exerciseDurationSeconds, restDurationSeconds);
    used := i;
    if failure.Some? {
      r := Failure(failure.value);
      assert r.Failure? <==> if |catalog| == 0 then numExercises >= 1 else ShortOfTarget(drawn, |draws|, RepeatRule(allowRepeats), numExercises);
    } else {
      r := Success(workout);
      TargetStaysReached(drawn, i, RepeatRule(allowRepeats), numExercises);
    }
  }

  /**
   * generate_workout: with repeats disallowed, numExercises must be below the catalog size
   * (AssertionError); sample, then apply the correction when the workout overshoots.
   * `random.choice` is replaced by the names in `draws`, taken in order; `picked` are the
   * accepted exercises and `used` the number of draws consumed.
   */
  method GenerateWorkout(catalog: map<string, Exercise>, numExercises: int, exerciseDurationSeconds: int,
                         restDurationSeconds: int, allowRepeats: bool, draws: seq<string>)
    returns (r: Result<Workout, Error>, ghost picked: seq<Exercise>, ghost used: nat)
    requires AllKnown(catalog, draws)
    ensures r == Failure(AssertionError) <==> !allowRepeats && numExercises >= |catalog|
    ensures r == Failure(IndexError) <==> allowRepeats && |catalog| == 0 && numExercises >= 1
    ensures r == Failure(DrawsExhausted) <==>
      && (allowRepeats || numExercises < |catalog|) && |catalog| > 0
      && ExerciseUnits(Chosen(Lookup(catalog, draws), RepeatRule(allowRepeats))) < numExercises
    ensures r.Failure? ==> r.error.AssertionError? || r.error.IndexError? || r.error.DrawsExhausted?
    ensures r.Success? ==>
      && used <= |draws|
      && picked == Chosen(Lookup(catalog, draws)[..used], RepeatRule(allowRepeats))
      && (forall c :: 0 <= c < used ==> ShortOfTarget(Lookup(catalog, draws), c, RepeatRule(allowRepeats), numExercises))
      && ExerciseUnits(picked) >= numExercises
      && r.value == FinishWorkout(picked, numExercises, exerciseDurationSeconds, restDurationSeconds)
    ensures r.Success? ==> Alternates(r.value) && UniformDurations(r.value, exerciseDurationSeconds, restDurationSeconds)
    ensures r.Success? && numExercises <= 0 ==> r.value == []
    ensures r.Success? && numExercises >= 0 ==>
      |r.value| == if numExercises % 2 == 1 && NoTwoHanded(r.value) then 2 * numExercises + 2 else 2 * numExercises
    ensures r.Success? && !allowRepeats ==> DistinctNames(picked)
  {
    if !allowRepeats && numExercises >= |catalog| {
      return Failure(AssertionError), [], 0;
    }
    var sampled;
    sampled, picked, used := SampleExercises(catalog, numExercises, exerciseDurationSeconds,
                                             restDurationSeconds, allowRepeats, draws);
    ghost var drawn := Lookup(catalog, draws);
    if sampled.Failure? {
      assert ShortOfTarget(drawn, |draws|, RepeatRule(allowRepeats), numExercises)
         <==> ExerciseUnits(Chosen(drawn, RepeatRule(allowRepeats))) < numExercises by {
        assert drawn[..|draws|] == drawn;
      }
      return sampled, picked, used;
    }
    var workout := sampled.value;
    SamplingStopped(drawn, used, RepeatRule(allowRepeats), numExercises);
    ExpandAllLength(picked, exerciseDurationSeconds, restDurationSeconds);
    if numExercises >= 0 {
      FinishedShape(picked, numExercises, exerciseDurationSeconds, restDurationSeconds);
    }
    if |workout| > 2 * numExercises {
      var corrected := ApplyWorkoutCorrection(workout);
      return Success(corrected), picked, used;
    }
    return Success(workout), picked, used;
  }

  /** workout_from_config: expand the stored names in order; an unknown name raises KeyError. */
  method WorkoutFromConfig(catalog: map<string, Exercise>, config: WorkoutConfig) returns (r: Result<Workout, Error>)
    ensures AllKnown(catalog, config.exercises) ==>
      && r.Success?
      && r.value == ExpandAll(Lookup(catalog, config.exercises), config.exerciseDurationSeconds, config.restDurationSeconds)
      && |r.value| == 2 * ExerciseUnits(Lookup(catalog, config.exercises))
      && Alternates(r.value)
      && UniformDurations(r.value, config.exerciseDurationSeconds, config.restDurationSeconds)
    ensures !AllKnown(catalog, config.exercises) ==>
      exists i :: 0 <= i < |config.exercises| && config.exercises[i] !in catalog && AllKnown(catalog, config.exercises[..i])
        && r == Failure(KeyError(config.exercises[i]))
  {
    var names := config.exercises;
    var restPhase := Phase(config.restDurationSeconds, Rest);
    var workout: Workout := [];
    for i := 0 to |names|
      invariant AllKnown(catalog, names[..i])
      invariant workout == ExpandAll(Lookup(catalog, names[..i]), config.exerciseDurationSeconds, config.restDurationSeconds)
    {
      var exerciseName := names[i];
      if exerciseName !in catalog {
        return Failure(KeyError(exerciseName));
      }
      var exercise := catalog[exerciseName];
      LookupExtend(catalog, names, i);
      ExpandAllStep(Lookup(catalog, names[..i]), exercise, config.exerciseDurationSeconds, config.restDurationSeconds);
      workout := AppendExercisePhases(workout, exercise, config.exerciseDurationSeconds, config.restDurationSeconds);
    }
    assert names[..|names|] == names;
    ExpandAllLength(Lookup(catalog, names), config.exerciseDurationSeconds, config.restDurationSeconds);
    ExpandAllShape(Lookup(catalog, names), config.exerciseDurationSeconds, config.restDurationSeconds);
    return Success(workout);
  }

  /** Every exercise name that appears in some stored workout. */
  ghost function UsedNames(workouts: map<string, WorkoutConfig>): set<string>
  {
    set k, x | k in workouts && x in workouts[k].exercises :: x
  }

  /** Storing a configuration under a name adds its exercises to those of the other stored workouts. */
  lemma UsedNamesAfterAdd(workouts: map<string, WorkoutConfig>, name: string, config: WorkoutConfig)
    ensures UsedNames(workouts[name := config]) == UsedNames(workouts - {name}) + (set x | x in config.exercises)
    ensures name !in workouts ==> UsedNames(workouts[name := config]) == UsedNames(workouts) + (set x | x in config.exercises)
  {
    var after := workouts[name := config];
    forall x | x in UsedNames(after)
      ensures x in UsedNames(workouts - {name}) + (set x | x in config.exercises)
    {
      var k :| k in after && x in after[k].exercises;
      if k != name {
        assert x in (workouts - {name})[k].exercises;
      }
    }
    forall x | x in UsedNames(workouts - {name})
      ensures x in UsedNames(after)
    {
      var k :| k in workouts - {name} && x in (workouts - {name})[k].exercises;
      assert x in after[k].exercises;
    }
    forall x | x in config.exercises
      ensures x in UsedNames(after)
    {
      assert x in after[name].exercises;
    }
    if name !in workouts {
      assert workouts - {name} == workouts;
    }
  }

  /** The stored workouts by name. Reading and writing the JSON file is not modelled. */
  class WorkoutManager {
    var workouts: map<string, WorkoutConfig>

    /** The in-memory result of `load_workouts`. */
    constructor (stored: map<string, WorkoutConfig>)
      ensures workouts == stored
    {
      workouts := stored;
    }

    /** `__len__`: the number of stored workouts. */
    function Len(): nat
      reads this
    {
      |workouts|
    }

    /** add_workout: store a configuration, or replace the one of the same name. */
    method AddWorkout(workoutName: string, config: WorkoutConfig)
      modifies this
      ensures workouts == old(workouts)[workoutName := config]
      ensures Len() == if workoutName in old(workouts) then old(Len()) else old(Len()) + 1
      ensures UsedNames(workouts) == UsedNames(old(workouts) - {workoutName}) + (set x | x in config.exercises)
    {
      MapUpdateCount(workouts, workoutName, config);
      UsedNamesAfterAdd(workouts, workoutName, config);
      workouts := workouts[workoutName := config];
    }

    /** remove_workout: delete a stored workout; a missing name raises KeyError and changes nothing. */
    method RemoveWorkout(workoutName: string) returns (r: Outcome<Error>)
      modifies this
      ensures workoutName in old(workouts) ==> r == Pass && workouts == old(workouts) - {workoutName} && Len() == old(Len()) - 1
      ensures workoutName !in old(workouts) ==> r == Fail(KeyError(workoutName)) && workouts == old(workouts)
    {
      if workoutName !in workouts {
        return Fail(KeyError(workoutName));
      }
      MapRemoveCount(workouts, workoutName);
      workouts := workouts - {workoutName};
      return Pass;
    }

    /** exercises_in_workouts: the union of the exercise lists of all stored workouts. */
    method ExercisesInWorkouts() returns (exercises: set<string>)
      ensures forall x :: x in exercises <==> exists k :: k in workouts && x in workouts[k].exercises
      ensures exercises == UsedNames(workouts)
    {
      exercises := {};
      var todo := workouts.Keys;
      while todo != {}
        invariant todo <= workouts.Keys
        invariant forall x :: x in exercises <==> exists k :: k in workouts && k !in todo && x in workouts[k].exercises
        decreases |todo|
      {
        var workoutName :| workoutName in todo;
        exercises := exercises + (set x | x in workouts[workoutName].exercises);
        todo := todo - {workoutName};
      }
    }
  }
}
