/**
 * The values the workout generators produce (Phase, WorkoutConfig of src/workout.py) and the
 * specification functions every revision of the generator is proved against: how one accepted
 * exercise expands into phases, how many exercise units a list is worth, which random draws are
 * accepted, and the overshoot correction.
 */
module WorkoutSpec {
  import opened Wrappers
  import opened Exercises

  /** A workout phase, either an exercise or a rest, with its duration. */
  datatype Phase = Phase(durationSeconds: int, kind: PhaseType)

  type Workout = seq<Phase>

  /** A stored workout: durations and an ordered list of exercise names (duplicates allowed). */
  datatype WorkoutConfig = WorkoutConfig(exerciseDurationSeconds: int, restDurationSeconds: int, exercises: seq<string>)

  predicate IsRest(p: Phase)
  {
    p.kind.Rest?
  }

  /** An exercise phase whose exercise has no 1-handed variations. */
  predicate IsTwoHanded(p: Phase)
  {
    p.kind.Ex? && !p.kind.exercise.singleHandedVariations
  }

  /** The interleaving invariant: a rest at every even index, an exercise at every odd index. */
  predicate Alternates(w: Workout)
  {
    forall i :: 0 <= i < |w| ==> (IsRest(w[i]) <==> i % 2 == 0)
  }

  /** Every rest lasts `restSeconds` and every exercise phase `exerciseSeconds`. */
  predicate UniformDurations(w: Workout, exerciseSeconds: int, restSeconds: int)
  {
    forall i :: 0 <= i < |w| ==> w[i].durationSeconds == if IsRest(w[i]) then restSeconds else exerciseSeconds
  }

  predicate NoTwoHanded(w: Workout)
  {
    forall i :: 0 <= i < |w| ==> !IsTwoHanded(w[i])
  }

  predicate AllSingleHanded(es: seq<Exercise>)
  {
    forall i :: 0 <= i < |es| ==> es[i].singleHandedVariations
  }

  predicate NoSingleHanded(es: seq<Exercise>)
  {
    forall i :: 0 <= i < |es| ==> !es[i].singleHandedVariations
  }

  predicate DistinctNames(es: seq<Exercise>)
  {
    forall i, j :: 0 <= i < j < |es| ==> es[i].name != es[j].name
  }

  predicate AllKnown(catalog: map<string, Exercise>, names: seq<string>)
  {
    forall i :: 0 <= i < |names| ==> names[i] in catalog
  }

  /** The catalog entries of a list of names, in order. */
  function Lookup(catalog: map<string, Exercise>, names: seq<string>): (es: seq<Exercise>)
    requires AllKnown(catalog, names)
    ensures |es| == |names|
  {
    if names == [] then [] else Lookup(catalog, names[..|names| - 1]) + [catalog[names[|names| - 1]]]
  }

  /** The names of a list of exercises. */
  function NameSet(es: seq<Exercise>): set<string>
  {
    if es == [] then {} else NameSet(es[..|es| - 1]) + {es[|es| - 1].name}
  }

  /**
   * Exercise units of a list of exercises (calculate_num_exercises): 2 for an exercise with
   * 1-handed variations, 1 for a 2-handed one.
   */
  function ExerciseUnits(es: seq<Exercise>): nat
  {
    if es == [] then 0
    else ExerciseUnits(es[..|es| - 1]) + (if es[|es| - 1].singleHandedVariations then 2 else 1)
  }

  const Sides: seq<string> := ["left", "right"]

  /** One side of an exercise with 1-handed variations: `"<name> (<side>)"`, flagged 1-handed. */
  function SidedExercise(e: Exercise, side: string): Exercise
  {
    Exercise(e.name + " (" + side + ")", true)
  }

  /** The phases one accepted exercise contributes: a rest before each side, or before the exercise. */
  function Expand(e: Exercise, exerciseSeconds: int, restSeconds: int): Workout
  {
    var rest := Phase(restSeconds, Rest);
    if e.singleHandedVariations then
      [rest, Phase(exerciseSeconds, Ex(SidedExercise(e, "left"))),
       rest, Phase(exerciseSeconds, Ex(SidedExercise(e, "right")))]
    else
      [rest, Phase(exerciseSeconds, Ex(e))]
  }

  /** The phases of a list of exercises, expanded in order. */
  function ExpandAll(es: seq<Exercise>, exerciseSeconds: int, restSeconds: int): Workout
  {
    if es == [] then []
    else ExpandAll(es[..|es| - 1], exerciseSeconds, restSeconds) + Expand(es[|es| - 1], exerciseSeconds, restSeconds)
  }

  /**
   * Which draws a sampling loop skips: those whose name was already accepted (no repeats),
   * none (repeats allowed), or, once something was accepted, those whose name is one fixed name
   * (the loop of app.py, that records the wrong name as done).
   */
  datatype SkipRule = SkipDone | SkipNothing | SkipLastLoaded(name: string)

  /** The rule of the generators of src/workout.py and workout.py. */
  function RepeatRule(allowRepeats: bool): (rule: SkipRule)
    ensures rule == SkipNothing <==> allowRepeats
    ensures rule == SkipDone <==> !allowRepeats
  {
    if allowRepeats then SkipNothing else SkipDone
  }

  /** Does the rule skip drawing e after prev were accepted? */
  predicate Skips(rule: SkipRule, prev: seq<Exercise>, e: Exercise)
  {
    match rule
    case SkipDone => e.name in NameSet(prev)
    case SkipNothing => false
    case SkipLastLoaded(name) => prev != [] && e.name == name
  }

  /**
   * generate_workout's skip test: with repeats allowed no draw is skipped (the done set stays
   * empty); without them a draw is skipped exactly when an accepted exercise has its name.
   */
  lemma RepeatRuleSkips(allowRepeats: bool, prev: seq<Exercise>, e: Exercise)
    ensures Skips(RepeatRule(allowRepeats), prev, e) <==>
      !allowRepeats && exists i :: 0 <= i < |prev| && prev[i].name == e.name
  {
    NameSetMembers(prev);
  }

  /** The draws a sampling loop accepts, in order: every draw its rule does not skip. */
  function Chosen(drawn: seq<Exercise>, rule: SkipRule): (r: seq<Exercise>)
    ensures |r| <= |drawn|
  {
    if drawn == [] then []
    else
      var prev := Chosen(drawn[..|drawn| - 1], rule);
      var e := drawn[|drawn| - 1];
      if Skips(rule, prev, e) then prev else prev + [e]
  }

  /** After the first c draws fewer than n exercise units had been accepted: sampling goes on. */
  predicate ShortOfTarget(drawn: seq<Exercise>, c: nat, rule: SkipRule, n: int)
  {
    c <= |drawn| && ExerciseUnits(Chosen(drawn[..c], rule)) < n
  }

  /** The index of the first 2-handed exercise phase, if any. */
  function FirstTwoHanded(w: Workout): (r: Option<nat>)
    ensures r.Some? ==> r.value < |w| && IsTwoHanded(w[r.value])
    ensures r.Some? ==> forall j :: 0 <= j < r.value ==> !IsTwoHanded(w[j])
    ensures r.None? <==> NoTwoHanded(w)
  {
    if w == [] then None
    else if IsTwoHanded(w[0]) then Some(0)
    else
      match FirstTwoHanded(w[1..])
      case None => None
      case Some(i) => Some(i + 1)
  }

  /** The index of the first exercise without 1-handed variations, if any. */
  function FirstTwoHandedExercise(es: seq<Exercise>): (r: Option<nat>)
    ensures r.Some? ==> r.value < |es| && !es[r.value].singleHandedVariations
    ensures r.Some? ==> forall j :: 0 <= j < r.value ==> es[j].singleHandedVariations
    ensures r.None? <==> AllSingleHanded(es)
  {
    if es == [] then None
    else if !es[0].singleHandedVariations then Some(0)
    else
      match FirstTwoHandedExercise(es[1..])
      case None => None
      case Some(i) => Some(i + 1)
  }

  /**
   * apply_workout_correction: remove the first 2-handed exercise phase and the phase before it;
   * without one, the workout is unchanged. Python reads the slice bound `index - 1` of
   * `workout[: index - 1]` as "all but the last" when index is 0.
   */
  function Correction(w: Workout): Workout
  {
    match FirstTwoHanded(w)
    case None => w
    case Some(i) => (if i >= 1 then w[..i - 1] else w[..|w| - 1]) + w[i + 1..]
  }

  /** What the generator returns once sampling stops: the expansion, corrected on overshoot. */
  function FinishWorkout(picked: seq<Exercise>, numExercises: int, exerciseSeconds: int, restSeconds: int): Workout
  {
    var w := ExpandAll(picked, exerciseSeconds, restSeconds);
    if |w| > 2 * numExercises then Correction(w) else w
  }

  // ---------------------------------------------------------------------------------------
  // Appending one element

  /** Looking up one more name extends the lookup by that name's catalog entry. */
  lemma LookupExtend(catalog: map<string, Exercise>, names: seq<string>, i: nat)
    requires i < |names| && AllKnown(catalog, names[..i]) && names[i] in catalog
    ensures AllKnown(catalog, names[..i + 1])
    ensures Lookup(catalog, names[..i + 1]) == Lookup(catalog, names[..i]) + [catalog[names[i]]]
  {
    assert names[..i + 1][..i] == names[..i];
  }

  /** Looking up one more name adds that exercise's units. */
  lemma UnitsExtend(catalog: map<string, Exercise>, names: seq<string>, i: nat)
    requires i < |names| && AllKnown(catalog, names[..i]) && names[i] in catalog
    ensures AllKnown(catalog, names[..i + 1])
    ensures ExerciseUnits(Lookup(catalog, names[..i + 1]))
      == ExerciseUnits(Lookup(catalog, names[..i])) + (if catalog[names[i]].singleHandedVariations then 2 else 1)
  {
    LookupExtend(catalog, names, i);
    UnitsStep(Lookup(catalog, names[..i]), catalog[names[i]]);
  }

  /** Lookup keeps the order of the names: the i-th entry is the catalog entry of the i-th name. */
  lemma {:induction false} LookupAt(catalog: map<string, Exercise>, names: seq<string>, i: nat)
    requires AllKnown(catalog, names) && i < |names|
    ensures Lookup(catalog, names)[i] == catalog[names[i]]
    decreases |names|
  {
    if i < |names| - 1 {
      var p := names[..|names| - 1];
      assert p[i] == names[i];
      LookupAt(catalog, p, i);
    }
  }

  /** NameSet holds exactly the names of the exercises. */
  lemma {:induction false} NameSetMembers(es: seq<Exercise>)
    ensures forall x :: x in NameSet(es) <==> exists i :: 0 <= i < |es| && es[i].name == x
  {
    if es != [] {
      var p := es[..|es| - 1];
      NameSetMembers(p);
      assert forall i :: 0 <= i < |p| ==> p[i] == es[i];
    }
  }

  lemma ChosenStep(drawn: seq<Exercise>, e: Exercise, rule: SkipRule)
    ensures Chosen(drawn + [e], rule) ==
      if Skips(rule, Chosen(drawn, rule), e) then Chosen(drawn, rule)
      else Chosen(drawn, rule) + [e]
  {
    assert (drawn + [e])[..|drawn|] == drawn;
  }

  /** Accepting or skipping the draw at index i. */
  lemma ChosenPrefixStep(drawn: seq<Exercise>, i: nat, rule: SkipRule)
    requires i < |drawn|
    ensures Chosen(drawn[..i + 1], rule) ==
      if Skips(rule, Chosen(drawn[..i], rule), drawn[i]) then Chosen(drawn[..i], rule)
      else Chosen(drawn[..i], rule) + [drawn[i]]
  {
    assert drawn[..i + 1] == drawn[..i] + [drawn[i]];
    ChosenStep(drawn[..i], drawn[i], rule);
  }

  lemma NameSetStep(es: seq<Exercise>, e: Exercise)
    ensures NameSet(es + [e]) == NameSet(es) + {e.name}
  {
    assert (es + [e])[..|es|] == es;
  }

  lemma UnitsStep(es: seq<Exercise>, e: Exercise)
    ensures ExerciseUnits(es + [e]) == ExerciseUnits(es) + if e.singleHandedVariations then 2 else 1
  {
    assert (es + [e])[..|es|] == es;
  }

  lemma ExpandAllStep(es: seq<Exercise>, e: Exercise, exerciseSeconds: int, restSeconds: int)
    ensures ExpandAll(es + [e], exerciseSeconds, restSeconds)
         == ExpandAll(es, exerciseSeconds, restSeconds) + Expand(e, exerciseSeconds, restSeconds)
  {
    assert (es + [e])[..|es|] == es;
  }

  // ---------------------------------------------------------------------------------------
  // Exercise units

  lemma {:induction false} UnitsAppend(a: seq<Exercise>, b: seq<Exercise>)
    ensures ExerciseUnits(a + b) == ExerciseUnits(a) + ExerciseUnits(b)
    decreases |b|
  {
    if b == [] {
      assert a + b == a;
    } else {
      var b', e := b[..|b| - 1], b[|b| - 1];
      assert b == b' + [e];
      assert a + b == (a + b') + [e];
      UnitsStep(a + b', e);
      UnitsStep(b', e);
      UnitsAppend(a, b');
    }
  }

  /** A list is worth between one and two units per exercise, at the ends exactly when it is uniform. */
  lemma {:induction false} UnitsBounds(es: seq<Exercise>)
    ensures |es| <= ExerciseUnits(es) <= 2 * |es|
    ensures ExerciseUnits(es) == 2 * |es| <==> AllSingleHanded(es)
    ensures ExerciseUnits(es) == |es| <==> NoSingleHanded(es)
  {
    if es != [] {
      var p := es[..|es| - 1];
      UnitsBounds(p);
      assert forall i :: 0 <= i < |p| ==> p[i] == es[i];
      if AllSingleHanded(es) {
        assert AllSingleHanded(p);
      }
      if NoSingleHanded(es) {
        assert NoSingleHanded(p);
      }
    }
  }

  /** calculate_num_exercises on the examples of the test suite. */
  lemma UnitsExamples()
    ensures
      var one, two := Exercise("1-handed-exercise", true), Exercise("2-handed-exercise", false);
      && ExerciseUnits([two]) == 1
      && ExerciseUnits([one]) == 2
      && ExerciseUnits([one, one]) == 4
      && ExerciseUnits([two, two]) == 2
      && ExerciseUnits([two, one]) == 3
  {
    var one, two := Exercise("1-handed-exercise", true), Exercise("2-handed-exercise", false);
    assert [one, one][..1] == [one];
    assert [two, two][..1] == [two];
    assert [two, one][..1] == [two];
  }

  // ---------------------------------------------------------------------------------------
  // The expansion

  lemma {:induction false} ExpandAllAppend(a: seq<Exercise>, b: seq<Exercise>, exerciseSeconds: int, restSeconds: int)
    ensures ExpandAll(a + b, exerciseSeconds, restSeconds)
         == ExpandAll(a, exerciseSeconds, restSeconds) + ExpandAll(b, exerciseSeconds, restSeconds)
    decreases |b|
  {
    if b == [] {
      assert a + b == a;
    } else {
      var b', e := b[..|b| - 1], b[|b| - 1];
      calc {
        ExpandAll(a + b, exerciseSeconds, restSeconds);
        { assert a + b == (a + b') + [e];
          ExpandAllStep(a + b', e, exerciseSeconds, restSeconds); }
        ExpandAll(a + b', exerciseSeconds, restSeconds) + Expand(e, exerciseSeconds, restSeconds);
        { ExpandAllAppend(a, b', exerciseSeconds, restSeconds); }
        ExpandAll(a, exerciseSeconds, restSeconds) + ExpandAll(b', exerciseSeconds, restSeconds)
          + Expand(e, exerciseSeconds, restSeconds);
        { assert b == b' + [e];
          ExpandAllStep(b', e, exerciseSeconds, restSeconds); }
        ExpandAll(a, exerciseSeconds, restSeconds) + ExpandAll(b, exerciseSeconds, restSeconds);
      }
    }
  }

  /** Two phases per exercise unit: the length contract of workout_from_config. */
  lemma {:induction false} ExpandAllLength(es: seq<Exercise>, exerciseSeconds: int, restSeconds: int)
    ensures |ExpandAll(es, exerciseSeconds, restSeconds)| == 2 * ExerciseUnits(es)
  {
    if es != [] {
      ExpandAllLength(es[..|es| - 1], exerciseSeconds, restSeconds);
    }
  }

  lemma AlternatesAppend(a: Workout, b: Workout)
    requires Alternates(a) && |a| % 2 == 0 && Alternates(b)
    ensures Alternates(a + b)
  {
    forall i | 0 <= i < |a + b|
      ensures IsRest((a + b)[i]) <==> i % 2 == 0
    {
      if i >= |a| {
        assert (a + b)[i] == b[i - |a|];
        assert (i - |a|) % 2 == i % 2;
      }
    }
  }

  /** An expansion alternates rest/exercise and uses the two durations throughout. */
  lemma {:induction false} ExpandAllShape(es: seq<Exercise>, exerciseSeconds: int, restSeconds: int)
    ensures Alternates(ExpandAll(es, exerciseSeconds, restSeconds))
    ensures UniformDurations(ExpandAll(es, exerciseSeconds, restSeconds), exerciseSeconds, restSeconds)
  {
    if es != [] {
      var p := es[..|es| - 1];
      ExpandAllShape(p, exerciseSeconds, restSeconds);
      ExpandAllLength(p, exerciseSeconds, restSeconds);
      AlternatesAppend(ExpandAll(p, exerciseSeconds, restSeconds), Expand(es[|es| - 1], exerciseSeconds, restSeconds));
    }
  }

  /** An expansion has a 2-handed phase exactly when some exercise of the list is 2-handed. */
  lemma {:induction false} ExpandAllTwoHanded(es: seq<Exercise>, exerciseSeconds: int, restSeconds: int)
    ensures NoTwoHanded(ExpandAll(es, exerciseSeconds, restSeconds)) <==> AllSingleHanded(es)
  {
    if es != [] {
      var p, e := es[..|es| - 1], es[|es| - 1];
      ExpandAllTwoHanded(p, exerciseSeconds, restSeconds);
      NoTwoHandedAppend(ExpandAll(p, exerciseSeconds, restSeconds), Expand(e, exerciseSeconds, restSeconds));
      ExpandTwoHanded(e, exerciseSeconds, restSeconds);
      assert AllSingleHanded(es) <==> AllSingleHanded(p) && e.singleHandedVariations by {
        assert forall i :: 0 <= i < |p| ==> p[i] == es[i];
      }
    }
  }

  lemma ExpandTwoHanded(e: Exercise, exerciseSeconds: int, restSeconds: int)
    ensures NoTwoHanded(Expand(e, exerciseSeconds, restSeconds)) <==> e.singleHandedVariations
  {
    if !e.singleHandedVariations {
      assert IsTwoHanded(Expand(e, exerciseSeconds, restSeconds)[1]);
    }
  }

  lemma NoTwoHandedAppend(a: Workout, b: Workout)
    ensures NoTwoHanded(a + b) <==> NoTwoHanded(a) && NoTwoHanded(b)
  {
    if NoTwoHanded(a + b) {
      forall i | 0 <= i < |a|
        ensures !IsTwoHanded(a[i])
      {
        assert a[i] == (a + b)[i];
      }
      forall i | 0 <= i < |b|
        ensures !IsTwoHanded(b[i])
      {
        assert b[i] == (a + b)[|a| + i];
      }
    }
    if NoTwoHanded(a) && NoTwoHanded(b) {
      forall i | 0 <= i < |a + b|
        ensures !IsTwoHanded((a + b)[i])
      {
        if i >= |a| {
          assert (a + b)[i] == b[i - |a|];
        }
      }
    }
  }

  /** Where the phases of the k-th exercise sit in the expansion of a list. */
  lemma ExpandAllBlock(es: seq<Exercise>, k: nat, exerciseSeconds: int, restSeconds: int)
    requires k < |es|
    ensures var w, start := ExpandAll(es, exerciseSeconds, restSeconds), 2 * ExerciseUnits(es[..k]);
      && start + |Expand(es[k], exerciseSeconds, restSeconds)| <= |w|
      && w[start..start + |Expand(es[k], exerciseSeconds, restSeconds)|] == Expand(es[k], exerciseSeconds, restSeconds)
  {
    var a, b := es[..k], es[k + 1..];
    assert es == a + [es[k]] + b;
    ExpandAllAppend(a + [es[k]], b, exerciseSeconds, restSeconds);
    ExpandAllStep(a, es[k], exerciseSeconds, restSeconds);
    ExpandAllLength(a, exerciseSeconds, restSeconds);
  }

  // ---------------------------------------------------------------------------------------
  // The acceptance of draws

  /** Skipping names already done, no name is accepted twice. */
  lemma {:induction false} ChosenDistinct(drawn: seq<Exercise>)
    ensures DistinctNames(Chosen(drawn, SkipDone))
  {
    if drawn != [] {
      var p, e := drawn[..|drawn| - 1], drawn[|drawn| - 1];
      ChosenDistinct(p);
      var prev := Chosen(p, SkipDone);
      if e.name !in NameSet(prev) {
        NameSetMembers(prev);
        var r := prev + [e];
        forall i, j | 0 <= i < j < |r|
          ensures r[i].name != r[j].name
        {
          if j == |prev| {
            assert r[i] == prev[i];
          }
        }
      }
    }
  }

  /** Skipping nothing, every draw is accepted. */
  lemma {:induction false} ChosenWithRepeats(drawn: seq<Exercise>)
    ensures Chosen(drawn, SkipNothing) == drawn
  {
    if drawn != [] {
      ChosenWithRepeats(drawn[..|drawn| - 1]);
    }
  }

  /** Accepting more draws never lowers the exercise units sampled so far. */
  lemma {:induction false} ChosenMonotone(drawn: seq<Exercise>, c: nat, rule: SkipRule)
    requires c <= |drawn|
    ensures ExerciseUnits(Chosen(drawn[..c], rule)) <= ExerciseUnits(Chosen(drawn, rule))
    decreases |drawn|
  {
    if c < |drawn| {
      var p, e := drawn[..|drawn| - 1], drawn[|drawn| - 1];
      assert p[..c] == drawn[..c];
      ChosenMonotone(p, c, rule);
      UnitsStep(Chosen(p, rule), e);
    } else {
      assert drawn[..c] == drawn;
    }
  }

  /** Once the first i draws reach n units, all of them do. */
  lemma TargetStaysReached(drawn: seq<Exercise>, i: nat, rule: SkipRule, n: int)
    requires i <= |drawn| && ExerciseUnits(Chosen(drawn[..i], rule)) >= n
    ensures !ShortOfTarget(drawn, |drawn|, rule, n)
  {
    ChosenMonotone(drawn, i, rule);
    assert drawn[..|drawn|] == drawn;
  }

  /** Sampling that is short of its target after d draws was short of it after fewer draws too. */
  lemma ShortEarlier(drawn: seq<Exercise>, d: nat, rule: SkipRule, n: int)
    requires ShortOfTarget(drawn, d, rule, n)
    ensures forall c :: 0 <= c <= d ==> ShortOfTarget(drawn, c, rule, n)
  {
    forall c | 0 <= c <= d
      ensures ShortOfTarget(drawn, c, rule, n)
    {
      assert drawn[..d][..c] == drawn[..c];
      ChosenMonotone(drawn[..d], c, rule);
    }
  }

  /**
   * What holds when the sampling loop of src/workout.py or workout.py stops after i draws: the
   * consumed draws are exactly those needed to reach n units, and without repeats the accepted
   * exercises have distinct names.
   */
  lemma SamplingStopped(drawn: seq<Exercise>, i: nat, rule: SkipRule, n: int)
    requires i <= |drawn| && ExerciseUnits(Chosen(drawn[..i], rule)) >= n
    requires i > 0 ==> ShortOfTarget(drawn, i - 1, rule, n)
    ensures forall c :: 0 <= c < i ==> ShortOfTarget(drawn, c, rule, n)
    ensures ExerciseUnits(Chosen(drawn, rule)) >= n
    ensures rule == SkipDone ==> DistinctNames(Chosen(drawn[..i], rule))
  {
    ChosenMonotone(drawn, i, rule);
    if i > 0 {
      ShortEarlier(drawn, i - 1, rule, n);
    }
    if rule == SkipDone {
      ChosenDistinct(drawn[..i]);
    }
  }

  // ---------------------------------------------------------------------------------------
  // The correction

  /**
   * On an interleaved workout the correction removes the first 2-handed exercise phase and the
   * rest before it: two phases fewer, the others in their order, still interleaved.
   */
  lemma CorrectionRemovesPair(w: Workout, i: nat)
    requires Alternates(w)
    requires i < |w| && IsTwoHanded(w[i]) && forall j :: 0 <= j < i ==> !IsTwoHanded(w[j])
    ensures i >= 1 && IsRest(w[i - 1])
    ensures Correction(w) == w[..i - 1] + w[i + 1..]
    ensures |Correction(w)| == |w| - 2
    ensures Alternates(Correction(w))
  {
    var k := FirstTwoHanded(w).value;
    assert k == i;
    var r := w[..i - 1] + w[i + 1..];
    forall j | 0 <= j < |r|
      ensures IsRest(r[j]) <==> j % 2 == 0
    {
      if j >= i - 1 {
        assert r[j] == w[j + 2];
      }
    }
  }

  /** Without a 2-handed exercise phase the correction changes nothing. */
  lemma CorrectionWithoutTwoHanded(w: Workout)
    requires NoTwoHanded(w)
    ensures Correction(w) == w
  {
  }

  /** A 2-handed pair after a stretch without 2-handed phases is what the correction removes. */
  lemma CorrectionAfterStretch(wa: Workout, x: Workout, wb: Workout)
    requires NoTwoHanded(wa) && |x| == 2 && !IsTwoHanded(x[0]) && IsTwoHanded(x[1])
    ensures Correction(wa + x + wb) == wa + wb
  {
    var w := wa + x + wb;
    var p := |wa| + 1;
    assert w[p] == x[1];
    forall j | 0 <= j < p
      ensures !IsTwoHanded(w[j])
    {
      if j < |wa| {
        assert w[j] == wa[j];
      } else {
        assert w[j] == x[0];
      }
    }
    assert FirstTwoHanded(w) == Some(p);
    assert w[..p - 1] == wa;
    assert w[p + 1..] == wb;
  }

  /** Correcting an expansion is expanding the list without its first 2-handed exercise. */
  lemma CorrectionOfExpandAll(es: seq<Exercise>, k: nat, exerciseSeconds: int, restSeconds: int)
    requires k < |es| && !es[k].singleHandedVariations
    requires forall j :: 0 <= j < k ==> es[j].singleHandedVariations
    ensures Correction(ExpandAll(es, exerciseSeconds, restSeconds))
         == ExpandAll(es[..k] + es[k + 1..], exerciseSeconds, restSeconds)
    ensures ExerciseUnits(es[..k] + es[k + 1..]) + 1 == ExerciseUnits(es)
  {
    var a, b := es[..k], es[k + 1..];
    assert es == (a + [es[k]]) + b;
    ExpandAllAppend(a + [es[k]], b, exerciseSeconds, restSeconds);
    ExpandAllStep(a, es[k], exerciseSeconds, restSeconds);
    ExpandAllAppend(a, b, exerciseSeconds, restSeconds);
    UnitsAppend(a + [es[k]], b);
    UnitsStep(a, es[k]);
    UnitsAppend(a, b);
    assert AllSingleHanded(a);
    ExpandAllTwoHanded(a, exerciseSeconds, restSeconds);
    CorrectionAfterStretch(ExpandAll(a, exerciseSeconds, restSeconds), Expand(es[k], exerciseSeconds, restSeconds),
                           ExpandAll(b, exerciseSeconds, restSeconds));
  }

  /**
   * Once sampling has reached n units and overshot by at most one, the finished workout
   * interleaves, keeps the durations, and is 2n phases long unless n is odd and no 2-handed
   * exercise is left, in which case it is 2n + 2 long (the uncorrectable overshoot).
   */
  lemma FinishedShape(picked: seq<Exercise>, n: int, exerciseSeconds: int, restSeconds: int)
    requires 0 <= n <= ExerciseUnits(picked) <= n + 1
    ensures var f := FinishWorkout(picked, n, exerciseSeconds, restSeconds);
      && Alternates(f)
      && UniformDurations(f, exerciseSeconds, restSeconds)
      && |f| == if n % 2 == 1 && NoTwoHanded(f) then 2 * n + 2 else 2 * n
  {
    var w := ExpandAll(picked, exerciseSeconds, restSeconds);
    ExpandAllLength(picked, exerciseSeconds, restSeconds);
    ExpandAllShape(picked, exerciseSeconds, restSeconds);
    ExpandAllTwoHanded(picked, exerciseSeconds, restSeconds);
    UnitsBounds(picked);
    if ExerciseUnits(picked) == n {
      assert FinishWorkout(picked, n, exerciseSeconds, restSeconds) == w;
    } else if AllSingleHanded(picked) {
      CorrectionWithoutTwoHanded(w);
      assert FinishWorkout(picked, n, exerciseSeconds, restSeconds) == w;
    } else {
      var rest := CorrectedWorkout(picked, n, exerciseSeconds, restSeconds);
      ExpandAllLength(rest, exerciseSeconds, restSeconds);
      ExpandAllShape(rest, exerciseSeconds, restSeconds);
      ExpandAllParity(rest, exerciseSeconds, restSeconds);
    }
  }

  /** The overshooting case of FinishedShape: the correction drops the first 2-handed exercise. */
  lemma CorrectedWorkout(picked: seq<Exercise>, n: int, exerciseSeconds: int, restSeconds: int)
    returns (rest: seq<Exercise>)
    requires 0 <= n && ExerciseUnits(picked) == n + 1 && !AllSingleHanded(picked)
    ensures FinishWorkout(picked, n, exerciseSeconds, restSeconds) == ExpandAll(rest, exerciseSeconds, restSeconds)
    ensures ExerciseUnits(rest) == n
  {
    var k := FirstTwoHandedExercise(picked).value;
    rest := picked[..k] + picked[k + 1..];
    var w := ExpandAll(picked, exerciseSeconds, restSeconds);
    assert FinishWorkout(picked, n, exerciseSeconds, restSeconds) == Correction(w) by {
      ExpandAllLength(picked, exerciseSeconds, restSeconds);
    }
    CorrectionOfExpandAll(picked, k, exerciseSeconds, restSeconds);
  }

  /** An expansion without 2-handed exercises comes from an even number of exercise units. */
  lemma ExpandAllParity(es: seq<Exercise>, exerciseSeconds: int, restSeconds: int)
    ensures NoTwoHanded(ExpandAll(es, exerciseSeconds, restSeconds)) ==> ExerciseUnits(es) % 2 == 0
  {
    ExpandAllTwoHanded(es, exerciseSeconds, restSeconds);
    UnitsBounds(es);
  }
}
