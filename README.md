# HIIT workout construction, modelled in Dafny

The HIIT workout app turns a catalog of exercises into a timed workout: an ordered list of
phases, each either a rest or an exercise. An exercise with 1-handed variations counts as two
"exercise units" and expands into a "(left)" and a "(right)" phase; a 2-handed exercise counts
as one unit and expands into one phase.

This project models the workout-building core in three revisions, plus the in-memory catalogs:

- `wrappers.dfy` (`Wrappers`): `Option`, `Result` and `Outcome`, and the errors the Python code raises:
  `KeyError`, `AssertionError` and `IndexError`. `DrawsExhausted` is an extra error that exists only in the model; see "Left out".
- `exercise.dfy` (`Exercises`): `Exercise` and the `Rest` marker (src/exercise.py), and
  `ExerciseManager`, a class over the name→exercise map that `add_exercise` and
  `remove_exercise` update in place.
- `workout_spec.dfy` (`WorkoutSpec`): the specification functions shared by all revisions, with their lemmas:
  - exercise units;
  - the expansion of exercises into phases;
  - which draws a sampling loop accepts;
  - the overshoot correction.
- src/workout.py, the current revision, in `workout.dfy` (`Workouts`):
  - `calculate_num_exercises`;
  - `apply_workout_correction`;
  - the random generator `generate_workout`;
  - `workout_from_config`;
  - `WorkoutManager`, a class over the name→config map.
- `legacy_workout.dfy` (`LegacyWorkouts`): the older `workout_from_config` of workout.py, which emits one rest per stored name.
- `app.dfy` (`AppWorkouts`): the generator of app.py.
  - Its workout starts with a rest, closes each exercise with a rest, and drops the final rest.
  - It has no correction step.

`random.choice` becomes an injected sequence of draws, consumed in order:
- exercise names for both `workout.py` revisions;
- list indices for `app.py`.

Each generator returns its result together with two ghost values: the exercises it accepted and the number of draws it used.

Each generator is specified against `Chosen`, the function giving the exercises its loop accepts from the drawn sequence.
- The loops differ in their `SkipRule` (which draws they skip):
  - no repeats: skip a name already accepted;
  - repeats allowed: skip nothing;
  - app.py as written: skip one fixed name once anything has been accepted.
- The generator contracts state:
  - the stopping point: every earlier prefix of the draws is short of the target;
  - the exact phases, through `ExpandAll` and `FinishWorkout`;
  - the error cases.
- The lemmas then prove what the source promises:
  - alternation of rests and exercises;
  - uniform durations;
  - the length formula: 2n phases, or 2n+2 when n is odd and every accepted exercise is 1-handed;
  - no repeated name without repeats;
  - the correction removing exactly the first 2-handed exercise and the rest before it.

## Model

| member | source | states |
|---|---|---|
| Exercises.ExerciseManager.constructor | src/exercise.py:35-43 | every stored name becomes an exercise of that name with its stored 1-handed flag; the catalog is keyed by exercise name |
| Exercises.ExerciseManager.AddExercise | src/exercise.py:45-47 | the entry under the exercise's name becomes the exercise; every other entry is unchanged; the count grows by one for a new name and stays the same when it overwrites |
| Exercises.ExerciseManager.RemoveExercise | src/exercise.py:58-60 | a present name is deleted, the count drops by one and the other entries stay; a missing name gives KeyError and changes nothing |
| Exercises.MapUpdateCount | src/exercise.py:31-32 | storing under a key grows the map by one exactly when the key is new |
| Exercises.MapRemoveCount | src/exercise.py:31-32 | deleting a present key shrinks the map by one |
| WorkoutSpec.UnitsBounds | src/workout.py:32-41 | a name list counts between its length and twice its length in units; twice exactly when all are 1-handed, once exactly when none is |
| WorkoutSpec.UnitsAppend | src/workout.py:34-40 | the unit count of two lists concatenated is the sum of their counts |
| WorkoutSpec.UnitsExamples | tests/test_workout.py:71-86 | the test table's counts: [2h]→1, [1h]→2, [1h,1h]→4, [2h,2h]→2, [2h,1h]→3 |
| WorkoutSpec.LookupAt | src/workout.py:165-166 | the i-th looked-up exercise is the catalog entry of the i-th name |
| WorkoutSpec.NameSetMembers | src/workout.py:139-142 | the done-names set holds exactly the names of the accepted exercises |
| WorkoutSpec.ExpandAllLength | src/workout.py:165-177 | a list expands into exactly two phases per exercise unit |
| WorkoutSpec.ExpandAllAppend | src/workout.py:165-177 | the expansion of a concatenation is the concatenation of the expansions |
| WorkoutSpec.ExpandAllShape | src/workout.py:163-177 | an expansion puts rests at exactly the even positions, and every phase has its configured duration |
| WorkoutSpec.ExpandAllBlock | src/workout.py:168-177 | exercise k's phases sit at position 2·(units before k): a rest then "name (left)", a rest then "name (right)"; or a rest then the exercise |
| WorkoutSpec.ExpandAllTwoHanded | src/workout.py:110-111 | an expansion has no 2-handed exercise phase exactly when every exercise is 1-handed |
| WorkoutSpec.ExpandAllParity | src/workout.py:115-118 | an expansion without 2-handed phases has an even unit count |
| WorkoutSpec.FirstTwoHanded | src/workout.py:110-111 | the index found is a 2-handed exercise phase with none before it; none is found exactly when the workout has no 2-handed phase |
| WorkoutSpec.FirstTwoHandedExercise | src/workout.py:110-111 | the same scan over exercises: the first 2-handed one, or none exactly when all are 1-handed |
| WorkoutSpec.RepeatRuleSkips | src/workout.py:139-142 | with repeats allowed no draw is skipped; without them a draw is skipped exactly when an accepted exercise has its name |
| WorkoutSpec.ChosenDistinct | src/workout.py:139-142 | skipping names already done, no name is accepted twice |
| WorkoutSpec.ChosenWithRepeats | src/workout.py:141-142 | with repeats allowed every draw is accepted |
| WorkoutSpec.ChosenMonotone | src/workout.py:137-151 | consuming more draws never lowers the accepted unit count |
| WorkoutSpec.SamplingStopped | src/workout.py:137-151 | where the loop stops, every earlier prefix was short of the target, the whole draw sequence reaches it, and without repeats the accepted names are distinct |
| WorkoutSpec.CorrectionRemovesPair | src/workout.py:110-113 | on an alternating workout, the first 2-handed phase has a rest just before it; the correction removes exactly those two phases and so is 2 shorter and still alternates |
| WorkoutSpec.CorrectionWithoutTwoHanded | src/workout.py:115-118 | with no 2-handed phase the correction returns the workout unchanged |
| WorkoutSpec.CorrectionOfExpandAll | src/workout.py:110-113 | correcting an expansion is expanding the list without its first 2-handed exercise, which has one unit less |
| WorkoutSpec.CorrectedWorkout | src/workout.py:153-154 | an overshoot by one unit with some 2-handed exercise is corrected to the expansion of an exercise list of exactly n units |
| WorkoutSpec.FinishedShape | src/workout.py:153-156 | after sampling n or n+1 units, the finished workout alternates, has uniform durations, and has length 2n, or 2n+2 when n is odd and no 2-handed phase is left |
| Workouts.CalculateNumExercises | src/workout.py:32-41 | with every name known, the unit count of the looked-up exercises; otherwise KeyError for the first unknown name; also the older count of workout.py:42-51, whose global catalog is the catalog argument |
| Workouts.ApplyWorkoutCorrection | src/workout.py:99-118 | the result is the correction: input unchanged without a 2-handed phase; otherwise, on an alternating input, 2 shorter and still alternating; also the inline correction of workout.py:105-119 |
| Workouts.AppendExercisePhases | src/workout.py:144-151 | appends exactly the expansion of one exercise |
| Workouts.TakeDrawn | src/workout.py:139-151 | one pass of the loop: a done name changes nothing; otherwise the exercise is accepted, its phases appended, and its name recorded when repeats are off |
| Workouts.SampleExercises | src/workout.py:134-151 | the loop stops at the first prefix of the draws whose accepted units reach n; the workout is their expansion, with at most n+1 units; an empty catalog gives IndexError |
| Workouts.GenerateWorkout | src/workout.py:121-156 | AssertionError iff repeats are off and n ≥ catalog size; IndexError iff repeats are on, the catalog is empty and n ≥ 1; otherwise the corrected expansion of the accepted draws, alternating, uniform, of length 2n (2n+2 when n is odd and no 2-handed phase), with distinct names when repeats are off; also the older generator of workout.py:74-119 |
| Workouts.WorkoutFromConfig | src/workout.py:159-178 | with every name known, the expansion of the looked-up exercises: 2 phases per unit, alternating, uniform durations; otherwise KeyError for the first unknown name |
| Workouts.UsedNamesAfterAdd | src/workout.py:68-70 | storing a config under a name: the used exercises become those of the other workouts plus the new config's |
| Workouts.WorkoutManager.constructor | src/workout.py:47-52 | the manager holds exactly the loaded workouts |
| Workouts.WorkoutManager.AddWorkout | src/workout.py:68-77 | the workout is stored under its name; the count grows by one for a new name and stays the same when it replaces; the used exercises are updated accordingly |
| Workouts.WorkoutManager.RemoveWorkout | src/workout.py:79-88 | a present name is deleted and the count drops by one; a missing name gives KeyError and changes nothing |
| Workouts.WorkoutManager.ExercisesInWorkouts | src/workout.py:90-96 | a name is in the result exactly when it appears in some stored workout's exercise list |
| LegacyWorkouts.WorkoutFromConfig | workout.py:122-138 | with every name known, the older expansion: length = names + units, uniform durations, alternating exactly when no exercise is 1-handed; otherwise KeyError for the first unknown name |
| LegacyWorkouts.AppendSides | workout.py:128-137 | after the rest, appends both sides in order, or the exercise |
| LegacyWorkouts.LegacyExpandAllAppend | workout.py:126-137 | the older expansion of a concatenation is the concatenation of the expansions |
| LegacyWorkouts.LegacyExpandAllLength | workout.py:124-138 | one rest per name plus one phase per exercise unit |
| LegacyWorkouts.LegacyExpandAllDurations | workout.py:124-138 | every rest and every exercise phase has its configured duration |
| LegacyWorkouts.LegacyAgreesWithoutSides | workout.py:136-137 | with only 2-handed exercises the older expansion equals the current one |
| LegacyWorkouts.LegacyRightAfterLeft | workout.py:127-135 | where a 1-handed exercise starts: a rest, then "name (left)" and "name (right)" next to each other, both flagged 1-handed; so no alternation |
| LegacyWorkouts.LegacyAlternates | workout.py:124-138 | the older expansion alternates exactly when no exercise is 1-handed |
| LegacyWorkouts.LegacyExpandAllShape | workout.py:124-138 | length = names + units, uniform durations, and alternation exactly without 1-handed exercises |
| AppWorkouts.PicksAt | app.py:47 | the i-th pick is the exercise at the i-th drawn index |
| AppWorkouts.AppendExerciseBlock | app.py:52-59 | appends the exercise's sides (or the exercise), each followed by a rest: the current expansion shifted by one rest |
| AppWorkouts.BlockStep | app.py:46-59 | a rest, plus these blocks, equals the current expansion plus a trailing rest |
| AppWorkouts.TakeExercise | app.py:49-59 | a name in the done set changes nothing; otherwise the phases are appended and the rule's name is recorded |
| AppWorkouts.TakeDrawn | app.py:47-59 | one pass of the loop takes the accepted prefix from i draws to i+1 |
| AppWorkouts.SampleExercises | app.py:43-59 | the loop, starting from one rest, stops at the first prefix of the draws reaching n units; the workout is their expansion plus a trailing rest |
| AppWorkouts.GenerateWorkoutAsWritten | app.py:35-62 | AssertionError iff n ≥ number of exercises; otherwise, with the last loaded name as the only skipped name: the accepted draws' expansion without the final rest, alternating, uniform, of length 2n or 2n+2, and empty when n ≤ 0 |
| AppWorkouts.GenerateWorkout | app.py:35-62 | the same loop recording each accepted exercise's own name: the same shape guarantees, and no name accepted twice |
| AppWorkouts.AsWrittenChosen | app.py:48-51 | as written, the first draw is always accepted, and after it exactly the draws not named like the last loaded exercise |
| AppWorkouts.AcceptsRepeat | app.py:48-51 | as written, two draws of the same 2-handed exercise, not the last loaded one, are both accepted |
| AppWorkouts.AsWrittenRepeatsExample | app.py:29-32 | from A, B, C with draws 0, 0 and n = 2: short after one draw, done after two, with A accepted twice |

## Left out

- The GUI, which has nothing to prove:
  - the `App` class of app.py;
  - src/app.py, src/exercise_editor.py, src/workout_editor.py and src/gui_components.py;
  - the countdown callback scheduling.
- JSON reads and writes:
  - `load_exercises` and `load_workouts`;
  - the file updates inside `add_exercise`, `remove_exercise`, `add_workout` and `remove_workout`;
  - the import-time loads of app.py and workout.py.

  The constructors and the catalog and exercise-list parameters take the loaded maps and lists in their place.
- `get_path_to_file` (src/utils.py) and the managers' `path`: these depend on the file system and the packaging environment.
- `random.choice`: replaced by a finite sequence of injected draws. When the draws run out before the target is reached, the model returns the model-only error `DrawsExhausted`; the Python loop would keep drawing. This is why termination needs no probabilistic argument.
- `WorkoutManager.__getitem__` and `__iter__`: plain map reads with nothing to prove.
- Catalog lookup in src/workout.py: the code subscripts `exercise_manager[...]`, but `ExerciseManager` in src/exercise.py defines no `__getitem__` in this revision. The model reads the manager's `exercises` map, which it passes as `catalog`.
- The two `workout.py` revisions have the same `generate_workout` and `calculate_num_exercises`. The older code inlines the correction scan and reads a global catalog. One member models each of these: `Workouts.GenerateWorkout`, `Workouts.CalculateNumExercises` and `Workouts.ApplyWorkoutCorrection`.
- The three revisions' `Exercise` records (`has_left_right` in app.py, `single_handed_variations` elsewhere) are one datatype. The phase, rest and config records are likewise shared.
- Durations are unbounded integers, and nothing checks them, as in the source.
- The Python default arguments are required parameters in the model: `exercise_duration_seconds=5`, `rest_duration_seconds=3` and `allow_repeats=False` (src/workout.py:124-126, workout.py:76-78, app.py:37-38). A caller relying on a default, such as src/app.py:225 for `allow_repeats`, corresponds to passing that value.
- Python's `list(...)` order of the catalog keys plays no part in the model, since the draws name the exercise directly.

## Findings

| source | as written | input that shows it | evidently intended | confidence | as-written member | corrected member |
|---|---|---|---|---|---|---|
| app.py:51 | `already_done.add(exercise_name)` records the module-level loop variable. After the loading loop at app.py:31 that variable holds the last loaded name, so only that name is ever skipped and every other exercise can repeat. | list [A, B, C] of 2-handed exercises, n = 2, draws 0, 0: both draws are accepted and the workout holds A twice | `already_done.add(exercise.name)`, matching the comment "no repeats for now" and the package generator | not executed | AppWorkouts.GenerateWorkoutAsWritten, AppWorkouts.AsWrittenRepeatsExample | AppWorkouts.GenerateWorkout |
