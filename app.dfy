/**
 * The generator of the stand-alone GUI script app.py. It keeps its own list of exercises, loaded
 * in order from the exercise store, and differs from the package generator in three ways: the
 * workout starts with a rest and every exercise (or side) is followed by a rest, the final rest
 * is dropped, and there is no overshoot correction. As written, the name it records as done is
 * not the drawn exercise's but the last name loaded from the store; `GenerateWorkoutAsWritten`
 * models that, `GenerateWorkout` the evidently intended loop.
 */
module AppWorkouts {
  import opened Wrappers
  import opened Exercises
  import opened WorkoutSpec

  /** Every injected draw is an index into the exercise list, as `random.choice` makes one. */
  predicate ValidDraws(exercises: seq<Exercise>, draws: seq<nat>)
  {
    forall i :: 0 <= i < |draws| ==> draws[i] < |exercises|
  }

  /** The exercises the draws pick, in order. */
  function Picks(exercises: seq<Exercise>, draws: seq<nat>): (r: seq<Exercise>)
    requires ValidDraws(exercises, draws)
    ensures |r| == |draws|
  {
    if draws == [] then [] else Picks(exercises, draws[..|draws| - 1]) + [exercises[draws[|draws| - 1]]]
  }

  /** The i-th pick is the exercise at the i-th drawn index. */
  lemma {:induction false} PicksAt(exercises: seq<Exercise>, draws: seq<nat>, i: nat)
    requires ValidDraws(exercises, draws) && i < |draws|
    ensures Picks(exercises, draws)[i] == exercises[draws[i]]
    decreases |draws|
  {
    if i < |draws| - 1 {
      var p := draws[..|draws| - 1];
      assert p[i] == draws[i];
      PicksAt(exercises, p, i);
    }
  }

  /**
   * The name left in the loading loop's variable once the store is read: the last exercise's.
   * With no exercises no draw is made, so the name is never consulted.
   */
  function LastLoadedName(exercises: seq<Exercise>): string
  {
    if exercises == [] then "" else exercises[|exercises| - 1].name
  }

  /** The skipping that app.py's loop does as written. */
  function AsWrittenRule(exercises: seq<Exercise>): SkipRule
  {
    SkipLastLoaded(LastLoadedName(exercises))
  }

  /** The names in the loop's `already_done` set after `prev` were accepted under a rule. */
  function DoneNames(rule: SkipRule, prev: seq<Exercise>): set<string>
  {
    match rule
    case SkipDone => NameSet(prev)
    case SkipNothing => {}
    case SkipLastLoaded(name) => if prev == [] then {} else {name}
  }

  /** A draw is skipped exactly when its name is among the done names. */
  lemma DoneNamesSkips(rule: SkipRule, prev: seq<Exercise>, e: Exercise)
    ensures Skips(rule, prev, e) <==> e.name in DoneNames(rule, prev)
  {
  }

  /** The exercises whose name is not `name`, in order: an independent account of the as-written skipping. */
  function WithoutName(es: seq<Exercise>, name: string): (r: seq<Exercise>)
    ensures forall i :: 0 <= i < |r| ==> r[i].name != name
  {
    if es == [] then []
    else WithoutName(es[..|es| - 1], name) + (if es[|es| - 1].name == name then [] else [es[|es| - 1]])
  }

  // ---------------------------------------------------------------------------------------
  // The phases

  /**
   * The phases one accepted exercise appends in app.py: the left side and a rest, the right side
   * and a rest; or the exercise and a rest. That is the package's expansion of the exercise
   * without its leading rest, followed by a rest.
   */
  method AppendExerciseBlock(workout: Workout, exercise: Exercise, exerciseDurationSeconds: int, restDurationSeconds: int)
    returns (r: Workout)
    ensures r == workout + Expand(exercise, exerciseDurationSeconds, restDurationSeconds)[1..] + [Phase(restDurationSeconds, Rest)]
  {
    var restPhase := Phase(restDurationSeconds, Rest);
    var x := Expand(exercise, exerciseDurationSeconds, restDurationSeconds)[1..] + [restPhase];
    r := workout;
    if exercise.singleHandedVariations {
      for s := 0 to |Sides|
        invariant r == workout + x[..2 * s]
      {
        var oneSidedExercise := Exercise(exercise.name + " (" + Sides[s] + ")", true);
        assert x[..2 * s + 2] == x[..2 * s] + [Phase(exerciseDurationSeconds, Ex(oneSidedExercise)), restPhase];
        r := r + [Phase(exerciseDurationSeconds, Ex(oneSidedExercise))];
        r := r + [restPhase];
      }
      assert x[..4] == x;
    } else {
      r := r + [Phase(exerciseDurationSeconds, Ex(exercise))];
      r := r + [restPhase];
    }
  }

  /** A workout that opens with a rest and closes every exercise with one is the package's expansion plus a rest. */
  lemma BlockStep(picked: seq<Exercise>, e: Exercise, exerciseSeconds: int, restSeconds: int)
    ensures ExpandAll(picked, exerciseSeconds, restSeconds) + [Phase(restSeconds, Rest)]
              + Expand(e, exerciseSeconds, restSeconds)[1..] + [Phase(restSeconds, Rest)]
         == ExpandAll(picked + [e], exerciseSeconds, restSeconds) + [Phase(restSeconds, Rest)]
  {
    var x := Expand(e, exerciseSeconds, restSeconds);
    assert [Phase(restSeconds, Rest)] + x[1..] == x;
    ExpandAllStep(picked, e, exerciseSeconds, restSeconds);
  }

  // ---------------------------------------------------------------------------------------
  // The sampling loop

  /**
   * One pass of the loop with the i-th draw: the drawn exercise is accepted or skipped as the
   * rule says.
   */
  method TakeDrawn(exercises: seq<Exercise>, draws: seq<nat>, i: nat, workout: Workout, alreadyDone: set<string>,
                   rule: SkipRule, exerciseDurationSeconds: int, restDurationSeconds: int, ghost picked: seq<Exercise>)
    returns (newWorkout: Workout, newDone: set<string>, ghost newPicked: seq<Exercise>)
    requires ValidDraws(exercises, draws) && i < |draws|
    requires picked == Chosen(Picks(exercises, draws)[..i], rule)
    requires workout == ExpandAll(picked, exerciseDurationSeconds, restDurationSeconds) + [Phase(restDurationSeconds, Rest)]
    requires alreadyDone == DoneNames(rule, picked)
    ensures newPicked == Chosen(Picks(exercises, draws)[..i + 1], rule)
    ensures newWorkout == ExpandAll(newPicked, exerciseDurationSeconds, restDurationSeconds) + [Phase(restDurationSeconds, Rest)]
    ensures newDone == DoneNames(rule, newPicked)
    ensures ExerciseUnits(newPicked) <= ExerciseUnits(picked) + 2
  {
    var exercise := exercises[draws[i]];
    PicksAt(exercises, draws, i);
    ChosenPrefixStep(Picks(exercises, draws), i, rule);
    newWorkout, newDone, newPicked := TakeExercise(exercise, workout, alreadyDone, rule,
                                                   exerciseDurationSeconds, restDurationSeconds, picked);
  }

  /**
   * The rest of a pass once the exercise is drawn: a name in `already_done` is skipped;
   * otherwise the name the rule records is added and the exercise's phases appended.
   */
  method TakeExercise(exercise: Exercise, workout: Workout, alreadyDone: set<string>, rule: SkipRule,
                      exerciseDurationSeconds: int, restDurationSeconds: int, ghost picked: seq<Exercise>)
    returns (newWorkout: Workout, newDone: set<string>, ghost newPicked: seq<Exercise>)
    requires workout == ExpandAll(picked, exerciseDurationSeconds, restDurationSeconds) + [Phase(restDurationSeconds, Rest)]
    requires alreadyDone == DoneNames(rule, picked)
    ensures newPicked == if Skips(rule, picked, exercise) then picked else picked + [exercise]
    ensures newWorkout == ExpandAll(newPicked, exerciseDurationSeconds, restDurationSeconds) + [Phase(restDurationSeconds, Rest)]
    ensures newDone == DoneNames(rule, newPicked)
    ensures ExerciseUnits(newPicked) <= ExerciseUnits(picked) + 2
  {
    DoneNamesSkips(rule, picked, exercise);
    if exercise.name in alreadyDone {
      return workout, alreadyDone, picked;
    }
    match rule {
      case SkipDone => newDone := alreadyDone + {exercise.name};
      case SkipNothing => newDone := alreadyDone;
      case SkipLastLoaded(name) => newDone := alreadyDone + {name};
    }
    NameSetStep(picked, exercise);
    assert newDone == DoneNames(rule, picked + [exercise]);
    UnitsStep(picked, exercise);
    BlockStep(picked, exercise, exerciseDurationSeconds, restDurationSeconds);
    newWorkout := AppendExerciseBlock(workout, exercise, exerciseDurationSeconds, restDurationSeconds);
    newPicked := picked + [exercise];
  }

  /**
   * The loop of app.py's generate_workout: starting from a single rest, draw while the workout
   * is shorter than 2 * numExercises phases, which is while fewer than numExercises units are
   * accepted. The assertion before it guarantees a draw is only made from a non-empty list.
   */
  method SampleExercises(exercises: seq<Exercise>, numExercises: int, exerciseDurationSeconds: int,
                         restDurationSeconds: int, rule: SkipRule, draws: seq<nat>)
    returns (r: Result<Workout, Error>, ghost picked: seq<Exercise>, ghost used: nat)
    requires ValidDraws(exercises, draws) && numExercises < |exercises|
    ensures r.Failure? <==> ShortOfTarget(Picks(exercises, draws), |draws|, rule, numExercises)
    ensures r.Failure? ==> r.error == DrawsExhausted
    ensures r.Success? ==>
      && used <= |draws|
      && picked == Chosen(Picks(exercises, draws)[..used], rule)
      && (used > 0 ==> ShortOfTarget(Picks(exercises, draws), used - 1, rule, numExercises))
      && ExerciseUnits(picked) >= numExercises
      && (ExerciseUnits(picked) <= numExercises + 1 || picked == [])
      && (numExercises <= 0 ==> picked == [])
      && r.value == ExpandAll(picked, exerciseDurationSeconds, restDurationSeconds) + [Phase(restDurationSeconds, Rest)]
  {
    ghost var drawn := Picks(exercises, draws);
    var restPhase := Phase(restDurationSeconds, Rest);
    var alreadyDone: set<string> := {};
    var workout: Workout := [restPhase];
    var i := 0;
    picked := [];
    while |workout| < 2 * numExercises && i < |draws|
      invariant 0 <= i <= |draws|
      invariant picked == Chosen(drawn[..i], rule)
      invariant workout == ExpandAll(picked, exerciseDurationSeconds, restDurationSeconds) + [restPhase]
      invariant alreadyDone == DoneNames(rule, picked)
      invariant i > 0 ==> ShortOfTarget(drawn, i - 1, rule, numExercises)
      invariant ExerciseUnits(picked) <= numExercises + 1 || picked == []
      invariant numExercises <= 0 ==> picked == []
      decreases |draws| - i
    {
      ExpandAllLength(picked, exerciseDurationSeconds, restDurationSeconds);
      assert ShortOfTarget(drawn, i, rule, numExercises);
      workout, alreadyDone, picked := TakeDrawn(exercises, draws, i, workout, alreadyDone, rule,
                                                exerciseDurationSeconds, restDurationSeconds, picked);
      i := i + 1;
    }
    ExpandAllLength(picked, exerciseDurationSeconds, restDurationSeconds);
    used := i;
    if |workout| < 2 * numExercises {
      // random.choice would go on drawing; the injected draws are used up
      r := Failure(DrawsExhausted);
    } else {
      r := Success(workout);
      TargetStaysReached(drawn, i, rule, numExercises);
    }
  }

  // ---------------------------------------------------------------------------------------
  // The generator

  /**
   * generate_workout of app.py as written, with `random.choice` replaced by the indices in
   * `draws`: numExercises must be below the number of exercises (AssertionError); after the
   * first accepted exercise, every draw of the last loaded name is skipped and every other name
   * is accepted, repeats included; the final rest is dropped.
   */
  method GenerateWorkoutAsWritten(exercises: seq<Exercise>, numExercises: int, exerciseDurationSeconds: int,
                                  restDurationSeconds: int, draws: seq<nat>)
    returns (r: Result<Workout, Error>, ghost picked: seq<Exercise>, ghost used: nat)
    requires ValidDraws(exercises, draws)
    ensures r == Failure(AssertionError) <==> numExercises >= |exercises|
    ensures r == Failure(DrawsExhausted) <==>
      numExercises < |exercises| && ExerciseUnits(Chosen(Picks(exercises, draws), AsWrittenRule(exercises))) < numExercises
    ensures r.Failure? ==> r.error.AssertionError? || r.error.DrawsExhausted?
    ensures r.Success? ==>
      && used <= |draws|
      && picked == Chosen(Picks(exercises, draws)[..used], AsWrittenRule(exercises))
      && (forall c :: 0 <= c < used ==> ShortOfTarget(Picks(exercises, draws), c, AsWrittenRule(exercises), numExercises))
      && numExercises <= ExerciseUnits(picked)
      && r.value == ExpandAll(picked, exerciseDurationSeconds, restDurationSeconds)
    ensures r.Success? ==> Alternates(r.value) && UniformDurations(r.value, exerciseDurationSeconds, restDurationSeconds)
    ensures r.Success? && numExercises <= 0 ==> r.value == []
    ensures r.Success? && numExercises >= 0 ==> |r.value| == 2 * numExercises || |r.value| == 2 * numExercises + 2
  {
    if numExercises >= |exercises| {
      return Failure(AssertionError), [], 0;
    }
    var sampled;
    sampled, picked, used := SampleExercises(exercises, numExercises, exerciseDurationSeconds,
                                             restDurationSeconds, AsWrittenRule(exercises), draws);
    ghost var drawn := Picks(exercises, draws);
    if sampled.Failure? {
      assert ShortOfTarget(drawn, |draws|, AsWrittenRule(exercises), numExercises)
         <==> ExerciseUnits(Chosen(drawn, AsWrittenRule(exercises))) < numExercises by {
        assert drawn[..|draws|] == drawn;
      }
      return sampled, picked, used;
    }
    var workout := sampled.value;
    SamplingStopped(drawn, used, AsWrittenRule(exercises), numExercises);
    ExpandAllLength(picked, exerciseDurationSeconds, restDurationSeconds);
    ExpandAllShape(picked, exerciseDurationSeconds, restDurationSeconds);
    assert workout[..|workout| - 1] == ExpandAll(picked, exerciseDurationSeconds, restDurationSeconds);
    if numExercises >= 0 {
      var units := ExerciseUnits(picked);
      assert units == numExercises || units == numExercises + 1 by {
        if picked == [] {
          assert units == 0;
        }
      }
    }
    // ignore final rest
    return Success(workout[..|workout| - 1]), picked, used;
  }

  /**
   * generate_workout of app.py with the drawn exercise's own name recorded as done: no name is
   * accepted twice; otherwise as `GenerateWorkoutAsWritten`.
   */
  method GenerateWorkout(exercises: seq<Exercise>, numExercises: int, exerciseDurationSeconds: int,
                         restDurationSeconds: int, draws: seq<nat>)
    returns (r: Result<Workout, Error>, ghost picked: seq<Exercise>, ghost used: nat)
    requires ValidDraws(exercises, draws)
    ensures r == Failure(AssertionError) <==> numExercises >= |exercises|
    ensures r == Failure(DrawsExhausted) <==>
      numExercises < |exercises| && ExerciseUnits(Chosen(Picks(exercises, draws), SkipDone)) < numExercises
    ensures r.Failure? ==> r.error.AssertionError? || r.error.DrawsExhausted?
    ensures r.Success? ==>
      && used <= |draws|
      && picked == Chosen(Picks(exercises, draws)[..used], SkipDone)
      && (forall c :: 0 <= c < used ==> ShortOfTarget(Picks(exercises, draws), c, SkipDone, numExercises))
      && numExercises <= ExerciseUnits(picked)
      && r.value == ExpandAll(picked, exerciseDurationSeconds, restDurationSeconds)
    ensures r.Success? ==> Alternates(r.value) && UniformDurations(r.value, exerciseDurationSeconds, restDurationSeconds)
    ensures r.Success? && numExercises <= 0 ==> r.value == []
    ensures r.Success? && numExercises >= 0 ==> |r.value| == 2 * numExercises || |r.value| == 2 * numExercises + 2
    ensures r.Success? ==> DistinctNames(picked)
  {
    if numExercises >= |exercises| {
      return Failure(AssertionError), [], 0;
    }
    var sampled;
    sampled, picked, used := SampleExercises(exercises, numExercises, exerciseDurationSeconds,
                                             restDurationSeconds, SkipDone, draws);
    ghost var drawn := Picks(exercises, draws);
    if sampled.Failure? {
      assert ShortOfTarget(drawn, |draws|, SkipDone, numExercises)
         <==> ExerciseUnits(Chosen(drawn, SkipDone)) < numExercises by {
        assert drawn[..|draws|] == drawn;
      }
      return sampled, picked, used;
    }
    var workout := sampled.value;
    SamplingStopped(drawn, used, SkipDone, numExercises);
    ExpandAllLength(picked, exerciseDurationSeconds, restDurationSeconds);
    ExpandAllShape(picked, exerciseDurationSeconds, restDurationSeconds);
    assert workout[..|workout| - 1] == ExpandAll(picked, exerciseDurationSeconds, restDurationSeconds);
    if numExercises >= 0 {
      var units := ExerciseUnits(picked);
      assert units == numExercises || units == numExercises + 1 by {
        if picked == [] {
          assert units == 0;
        }
      }
    }
    return Success(workout[..|workout| - 1]), picked, used;
  }

  // ---------------------------------------------------------------------------------------
  // What the as-written loop accepts

  /**
   * As written, the first draw is always accepted and after it exactly the draws not named
   * like the last loaded exercise.
   */
  lemma {:induction false} AsWrittenChosen(drawn: seq<Exercise>, name: string)
    ensures Chosen(drawn, SkipLastLoaded(name)) ==
      if drawn == [] then [] else [drawn[0]] + WithoutName(drawn[1..], name)
    decreases |drawn|
  {
    if |drawn| > 1 {
      var p, e := drawn[..|drawn| - 1], drawn[|drawn| - 1];
      AsWrittenChosen(p, name);
      assert drawn[1..] == p[1..] + [e];
      assert (p[1..] + [e])[..|p[1..]|] == p[1..];
    } else if |drawn| == 1 {
      assert drawn[..0] == [];
    }
  }

  /** Three 2-handed exercises, loaded in the order A, B, C. */
  function ThreeExercises(): seq<Exercise>
  {
    [Exercise("A", false), Exercise("B", false), Exercise("C", false)]
  }

  /** Drawing index 0 twice from A, B, C picks A twice; the last loaded name is C. */
  lemma TwoDrawsOfA()
    ensures Picks(ThreeExercises(), [0, 0]) == [Exercise("A", false), Exercise("A", false)]
    ensures AsWrittenRule(ThreeExercises()) == SkipLastLoaded("C")
  {
    assert [0, 0][..1] == [0];
    assert [0][..0] == [];
  }

  /**
   * Skipping only `name` once something is accepted, two draws of a 2-handed exercise with
   * another name are both accepted: one unit after the first draw, two after the second.
   */
  lemma AcceptsRepeat(a: Exercise, name: string)
    requires a.name != name && !a.singleHandedVariations
    ensures Chosen([a, a][..0], SkipLastLoaded(name)) == []
    ensures Chosen([a, a][..1], SkipLastLoaded(name)) == [a] && ExerciseUnits([a]) == 1
    ensures Chosen([a, a], SkipLastLoaded(name)) == [a, a] && ExerciseUnits([a, a]) == 2
  {
    var rule, d := SkipLastLoaded(name), [a, a];
    assert d[..0] == [] && d[..1] == [a];
    assert Chosen([a], rule) == [a] by {
      ChosenStep([], a, rule);
      assert [] + [a] == [a];
    }
    assert Chosen(d, rule) == d by {
      ChosenStep([a], a, rule);
      assert [a] + [a] == d;
    }
    assert ExerciseUnits([a]) == 1 by {
      UnitsStep([], a);
      assert [] + [a] == [a];
    }
    assert ExerciseUnits(d) == 2 by {
      UnitsStep([a], a);
      assert [a] + [a] == d;
    }
  }

  /**
   * As written, two exercises drawn from A, B, C with both draws A: after one draw the loop is
   * still short of 2 units, after both it has accepted A twice, because only C is ever
   * recorded as done. So the generator consumes both draws and returns A, A.
   */
  lemma AsWrittenRepeatsExample()
    ensures var drawn, rule := Picks(ThreeExercises(), [0, 0]), AsWrittenRule(ThreeExercises());
      && ShortOfTarget(drawn, 0, rule, 2)
      && ShortOfTarget(drawn, 1, rule, 2)
      && !ShortOfTarget(drawn, 2, rule, 2)
      && Chosen(drawn, rule) == [Exercise("A", false), Exercise("A", false)]
      && !DistinctNames(Chosen(drawn, rule))
  {
    var a := Exercise("A", false);
    TwoDrawsOfA();
    AcceptsRepeat(a, "C");
    assert [a, a][..2] == [a, a];
  }
}
