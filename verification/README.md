# Micro-habit tracker: store, selection engine and onboarding steps

This project models the core of a personal micro-habit tracker. A user answers a short onboarding
questionnaire. The app then picks five habits from a fixed catalog, and the user can complete,
skip, add and remove habits. The model covers three parts:

- **The app state store** (`Store.AppStore`). It holds `isOnboarded`, `onboardingStep`,
  `onboardingData`, `userName` and the adopted `userHabits`. Its eight operations replace fields in
  place. Their effect on the habit sequence is given by pure functions: append, filter by id
  (`RemoveById`), per-id map (`MarkCompleted`, `IncrementSkip`).
- **The selection engine** (module `Selection`):
  - *Initial habits*: every catalog entry scores 3 points for the chosen style, 2 for a category
    among the goals' categories and 1 for fitting the preferred duration. The catalog is stably
    sorted by descending score and the first five are taken, each adopted as an active habit with an
    empty history.
  - *Today's habit*: the least-skipped active habit not yet done today. The first such habit wins
    ties.
  - *Recommendations*: unadopted catalog entries of the chosen style, or admitted by a coin flip,
    capped at six.
- **The onboarding step machine** (module `Onboarding`). Seven steps are walked with "continue" and
  "back", both guarded at the ends. "Continue" writes the local answers into the store step by step.
  The module also models the goal toggle and the gate that enables "continue".

`Array.prototype.filter`, `slice(0, n)` and the stable `sort` with a numeric comparator are modelled
once, in module `JsArray`. The sort is stable since ECMAScript 2019, and the model specifies it as a
stable sort:

- the result is sorted;
- it is a permutation of the input;
- for every key, the elements with that key keep their input order.

The habit catalog (`habitLibrary`) is not part of this model. It is a parameter: a sequence of
`Habit` values with unique ids, fixed when the store is built. The current date is a parameter
`today` of type `IsoDate`, a calendar date in the extended form YYYY-MM-DD of ISO 8601 (section
5.2.1.1 of ISO 8601:2004). `Math.random() > 0.5` is a parameter `draws: nat -> bool`, where
`draws(n)` is the outcome of the n-th call. Because `||` short-circuits, only catalog entries of
another style consume a draw.

The model follows the code as written:

- `setOnboardingStep` stores any integer unclamped.
- Completion dates are appended without removing duplicates.
- The name fallback "Friend" applies only to an absent or empty name. A name made only of spaces is
  kept.
- A preferred duration of 0 counts as 3 minutes, because `||` treats 0 as missing.

A property of `getTodaysHabit` as written: once every active habit is done today, it still returns
the first active habit. So `null`, which the dashboard shows as "All done for today!", occurs exactly
when no habit is active (`Selection.TodaysHabit`, `Selection.TodaysHabitAllDone`).

## Model

| member | source | states |
|---|---|---|
| `Types.MergeLaws` | src/store/useAppStore.ts:77-80 | The shallow merge takes every answer the patch gives and keeps every answer it omits. `{}` is neutral on either side, and merging the same patch twice equals merging it once. |
| `Types.MergeAssociative` | src/store/useAppStore.ts:77-80 | Merging two patches one after the other equals merging their merge. |
| `Selection.Score` | src/store/useAppStore.ts:47-53 | A score is in 0..6. It is 6 exactly when style, category and duration all match. A style match scores at least 3, a mismatch at most 3. |
| `Selection.HabitScore` | src/store/useAppStore.ts:29-53 | The score of a catalog entry under the onboarding answers is in 0..6. |
| `Selection.ChosenDuration` | src/store/useAppStore.ts:51 | The duration used for scoring is never 0: an absent or 0 answer becomes 3, and any other answer is used as given. |
| `Selection.NoAnswersScore` | src/store/useAppStore.ts:30-53 | With no answers, only the calm style (3 points) and a duration of at most 3 minutes (1 point) score. |
| `Selection.UnmappedGoalMeansMind` | src/store/useAppStore.ts:44 | A chosen goal missing from the goal table makes mind-category entries earn the 2 category points. |
| `Selection.ZeroDurationMeansDefault` | src/store/useAppStore.ts:51 | A preferred duration of 0 scores exactly like an absent answer. |
| `Selection.FullMatchOutranksSingleMatch` | src/store/useAppStore.ts:47-53 | An entry matching style, category and duration scores 6. An entry matching at most one criterion scores at most 3. |
| `Selection.InitialHabits` | src/store/useAppStore.ts:29-64 | There are at most five initial habits, and all are active. |
| `Selection.InitialHabitsFresh` | src/store/useAppStore.ts:58-63 | There are min(5, catalog size) initial habits. Each is a catalog entry, active, with no completion dates, no skips and no last completion. |
| `Selection.InitialHabitsOrdered` | src/store/useAppStore.ts:56-58 | Initial habits come in non-increasing score order. |
| `Selection.InitialHabitsTopScored` | src/store/useAppStore.ts:56-58 | No catalog entry left out scores higher than any entry taken. |
| `Selection.InitialHabitsStable` | src/store/useAppStore.ts:56 | For every score, the chosen entries with that score are a prefix of the catalog's entries with that score, in catalog order. |
| `Selection.InitialHabitsDistinct` | src/store/useAppStore.ts:47-63 | A catalog with unique ids gives initial habits with unique ids. |
| `Selection.ActiveHabits` | src/store/useAppStore.ts:146 | The active list holds exactly the active habits, in the user's order. |
| `Selection.OpenToday` | src/store/useAppStore.ts:149-151 | The uncompleted list holds only active habits without today among their dates, in the user's order. |
| `Selection.TodaysHabit` | src/store/useAppStore.ts:143-158 | A returned habit is one of the user's habits and active. The result is `null` exactly when no habit is active. |
| `Selection.OpenTodayMembers` | src/store/useAppStore.ts:146-151 | The uncompleted list holds exactly the active habits whose dates lack today. |
| `Selection.TodaysHabitLeastSkipped` | src/store/useAppStore.ts:149-157 | When some active habit is not done today, the result is such a habit. It has the fewest skips among them and is the first of least skips in list order. |
| `Selection.TodaysHabitAllDone` | src/store/useAppStore.ts:153 | When every active habit is done today, the result is the first active habit, already done, or `null` if none is active. |
| `Selection.CompletedHabitNotPickedAgain` | src/store/useAppStore.ts:149-157 | A habit done today comes back as today's habit only when no active habit is left undone. |
| `Selection.FirstDayHabitIsTopRanked` | src/store/useAppStore.ts:143-158 | Right after onboarding with a non-empty catalog, today's habit is the best-scoring initial habit. |
| `Selection.AdmitKeepsOrder` | src/store/useAppStore.ts:133 | The random filter keeps catalog order, and it admits every entry of the chosen style whatever the draws. |
| `Selection.AdmitWithoutDraws` | src/store/useAppStore.ts:133 | When no draw is above 0.5, exactly the entries of the chosen style are admitted. |
| `Selection.AdmitWithDraws` | src/store/useAppStore.ts:133 | When every draw is above 0.5, every entry is admitted. |
| `Selection.AdmitCount` | src/store/useAppStore.ts:133 | The number admitted is the number of the style's entries plus the number of draws above 0.5 among as many draws as there are entries of other styles. |
| `Selection.AdmitSingle` | src/store/useAppStore.ts:133 | A single entry is admitted exactly when it has the chosen style or the next draw is above 0.5. Only an entry of another style consumes a draw. |
| `Selection.AdmitAppend` | src/store/useAppStore.ts:133 | Filtering a list is filtering its first part and then its second part. The second part starts at the first draw the first part did not consume, so the draws are taken in catalog order. |
| `Selection.Unadopted` | src/store/useAppStore.ts:128-132 | The unadopted list holds exactly the catalog entries whose id is not among the user's habits, in catalog order. |
| `Selection.Candidates` | src/store/useAppStore.ts:131-133 | The candidates keep the order of the unadopted entries and include all those of the chosen style. |
| `Selection.Recommend` | src/store/useAppStore.ts:126-141 | There are at most six recommendations. |
| `Selection.RecommendFacts` | src/store/useAppStore.ts:126-141 | Each recommendation is inactive, has an empty history and comes from the catalog with an id not yet adopted. Recommendations keep catalog order, and they are the first six admitted entries. There are exactly min(6, number of admitted entries), and whatever the draws at least min(6, number of unadopted entries of the chosen style). |
| `Selection.StyleMatchesAlwaysAdmitted` | src/store/useAppStore.ts:133 | Every unadopted entry of the chosen style is admitted before the cap, whatever the draws. |
| `Selection.RecommendDistinct` | src/store/useAppStore.ts:131-140 | A catalog with unique ids gives recommendations with unique ids. |
| `JsArray.Filter` | src/store/useAppStore.ts:146 | `filter` keeps exactly the elements satisfying the predicate, in order, and never lengthens. |
| `JsArray.Take` | src/store/useAppStore.ts:134 | `slice(0, n)` is a prefix of length min(n, length). |
| `JsArray.InsertSorted` | src/store/useAppStore.ts:56 | Inserting into a sorted sequence keeps it sorted. |
| `JsArray.InsertStable` | src/store/useAppStore.ts:56 | For every key, inserting an element puts it in front of the elements of its key, as if it had been prepended. |
| `JsArray.SortBy` | src/store/useAppStore.ts:56 | The sort returns a sorted permutation in which elements of equal key keep their input order. |
| `JsArray.WithKeyMembers` | src/store/useAppStore.ts:56 | The elements of one key are exactly the elements of the sequence with that key, in order. |
| `JsArray.FirstMinIndex` | src/store/useAppStore.ts:156-157 | The index of the first element of least key: no key is smaller, and every earlier key is larger. |
| `JsArray.SortHeadIsFirstMin` | src/store/useAppStore.ts:156-157 | The head of the stable ascending sort is the first element of least key. |
| `Store.DisplayName` | src/store/useAppStore.ts:87 | The display name is never empty. It is the given name when that is non-empty, otherwise "Friend". |
| `Store.RemoveById` | src/store/useAppStore.ts:97-100 | Removal keeps exactly the entries with another id, in order, and leaves no entry with the id. |
| `Store.CompletedOn` | src/store/useAppStore.ts:107-111 | A completed entry has today appended to its dates and as its last completion. Its catalog fields, activity and skips are unchanged. |
| `Store.MarkCompleted` | src/store/useAppStore.ts:102-115 | Completion keeps the number of habits. |
| `Store.IncrementSkip` | src/store/useAppStore.ts:117-124 | Skipping keeps the number of habits. |
| `Store.AddThenRemove` | src/store/useAppStore.ts:92-100 | Adding a habit with an unadopted id and then removing that id restores the sequence. |
| `Store.RemoveKeepsOthers` | src/store/useAppStore.ts:97-100 | Removing an absent id changes nothing, and removal never lengthens the habits. |
| `Store.CompleteFacts` | src/store/useAppStore.ts:102-115 | Every matching entry gets today appended to its dates, and its last completion becomes today. Other entries are unchanged. Every entry keeps its catalog fields, activity and skips. An absent id changes nothing. |
| `Store.SkipFacts` | src/store/useAppStore.ts:117-124 | Matching entries gain exactly one skip. Other entries are unchanged. Completion dates, last completion, activity and catalog fields are untouched. An absent id changes nothing. |
| `Store.UpdatesKeepIds` | src/store/useAppStore.ts:97-124 | Remove, complete and skip keep unique ids unique. |
| `Store.AddFreshKeepsDistinct` | src/store/useAppStore.ts:92-95 | Adding a habit with an unadopted id keeps ids unique. |
| `Store.CompleteThenToday` | src/store/useAppStore.ts:102-158 | After completing an id, today's habit has that id only if every active habit is done today. |
| `Store.AppStore.constructor` | src/store/useAppStore.ts:69-73 | A new store is not onboarded and sits at step 0, with no answers, an empty name and no habits. |
| `Store.AppStore.SetOnboardingStep` | src/store/useAppStore.ts:75 | The step becomes the argument, unclamped, and nothing else changes. |
| `Store.AppStore.UpdateOnboardingData` | src/store/useAppStore.ts:77-80 | The answers become the shallow merge with the patch, and nothing else changes. |
| `Store.AppStore.CompleteOnboarding` | src/store/useAppStore.ts:82-90 | The store is onboarded. The name becomes the stored name, or "Friend" when it is absent or empty. The habits become the initial habits of the stored answers, with unique ids. Step and answers are unchanged. |
| `Store.AppStore.AddHabit` | src/store/useAppStore.ts:92-95 | The habit is appended at the end and nothing else changes. |
| `Store.AppStore.RemoveHabit` | src/store/useAppStore.ts:97-100 | The habits are filtered by id, no entry with the id remains, and nothing else changes. |
| `Store.AppStore.CompleteHabit` | src/store/useAppStore.ts:102-115 | The habits become the per-id completion map for today, and nothing else changes. |
| `Store.AppStore.SkipHabit` | src/store/useAppStore.ts:117-124 | The habits become the per-id skip increment, and nothing else changes. |
| `Store.AppStore.GetRecommendedHabits` | src/store/useAppStore.ts:126-141 | It returns at most six inactive catalog entries, none already adopted, with unique ids. |
| `Store.AppStore.GetTodaysHabit` | src/store/useAppStore.ts:143-158 | It returns an active habit of the user, or `null` exactly when none is active. |
| `Store.AppStore.ResetApp` | src/store/useAppStore.ts:160-167 | Every field returns to the first-run defaults. |
| `Onboarding.CurrentStep` | src/components/OnboardingFlow.tsx:39 | The current step is defined exactly for indices 0..6 and is the step at that index. |
| `Onboarding.NextIndex` | src/components/OnboardingFlow.tsx:54-56 | "Continue" moves one step on below the last step (6) and stays put otherwise, so it never leaves 0..6. |
| `Onboarding.PrevIndex` | src/components/OnboardingFlow.tsx:59-63 | "Back" moves one step back above 0 and stays put otherwise, so it never leaves 0..6. |
| `Onboarding.WalkStaysInRange` | src/components/OnboardingFlow.tsx:54-63 | From any step in 0..6, every sequence of "continue" and "back" stays in 0..6. |
| `Onboarding.ContinueAtLastStep` | src/components/OnboardingFlow.tsx:54-56 | "Continue" at the last step leaves the step there, however often it is pressed. |
| `Onboarding.Toggled` | src/components/OnboardingFlow.tsx:69-75 | The toggled goal is in the result exactly when it was not in the list. Every other goal keeps its membership. |
| `Onboarding.ToggleTwice` | src/components/OnboardingFlow.tsx:69-75 | Toggling twice restores membership. It restores the list itself when the goal was absent. |
| `Onboarding.ToggleKeepsDistinct` | src/components/OnboardingFlow.tsx:69-75 | Toggling never puts a duplicate into a duplicate-free list. |
| `Onboarding.TrimStart` | src/components/OnboardingFlow.tsx:87 | Trimming the front removes only whitespace. It leaves a suffix that starts with a non-whitespace character, or nothing when all was whitespace. |
| `Onboarding.TrimEnd` | src/components/OnboardingFlow.tsx:87 | Trimming the end removes only whitespace. It leaves a prefix that ends with a non-whitespace character, or nothing when all was whitespace. |
| `Onboarding.Trim` | src/components/OnboardingFlow.tsx:87 | `trim()` yields nothing exactly when the name is all whitespace. Otherwise the result neither starts nor ends with whitespace. |
| `Onboarding.TrimmedNonEmpty` | src/components/OnboardingFlow.tsx:87 | The trimmed name is non-empty exactly when the name holds a non-whitespace character. |
| `Onboarding.CanProceed` | src/components/OnboardingFlow.tsx:84-95 | "Continue" is enabled exactly when three conditions hold. At "name" the name must hold a non-whitespace character. At "goals" a goal must be selected. At "style" a style must be chosen. Every other step is open. |
| `Onboarding.NextStepWrites` | src/components/OnboardingFlow.tsx:41-53 | "Continue" writes the name at "name" when it is non-empty, and the goals at "goals" always. It writes the style at "style" when one is chosen, and the duration at "duration" always. No other answer and no other step writes. |
| `Onboarding.StepAnswers` | src/components/OnboardingFlow.tsx:41-53 | "Continue" writes no answer exactly at an empty name, at a missing style, and at the welcome, energy and complete steps. The energy step asks a question, but its answers have no handler. A written patch never carries energy levels, frequency or dislikes. |
| `Onboarding.Answered` | src/components/OnboardingFlow.tsx:41-53 | Without a patch the stored answers stay as they are. Writing the same patch again changes nothing. |
| `Onboarding.OnboardingFlow.constructor` | src/components/OnboardingFlow.tsx:28-37 | The local answers start from the stored ones. An absent name is "", absent goals are [], an absent style is null, and an absent or 0 duration is 3. |
| `Onboarding.OnboardingFlow.NextStep` | src/components/OnboardingFlow.tsx:41-57 | The store's answers become the merge with this step's patch, the step becomes the guarded next index, and the rest of the store is unchanged. |
| `Onboarding.OnboardingFlow.PrevStep` | src/components/OnboardingFlow.tsx:59-63 | The step becomes the guarded previous index, and the rest of the store is unchanged. |
| `Onboarding.OnboardingFlow.ToggleGoal` | src/components/OnboardingFlow.tsx:69-75 | The selected goals become the toggled list. |
| `Onboarding.OnboardingFlow.HandleComplete` | src/components/OnboardingFlow.tsx:65-67 | Completing the questionnaire completes onboarding in the store, with the effects listed for `CompleteOnboarding`. |

## Left out

- Persistence: the `persist` middleware and its local-storage record are I/O. The store is in-memory state only.
- Wall-clock reads: `new Date().toISOString()` is replaced by the `today` parameter. Years outside 0000..9999, which `toISOString` writes in expanded form, are not modelled.
- Randomness: `Math.random()` is replaced by the injected `draws`. The model does not state the 50% probability.
- `undefined` values written explicitly into a patch: the model does not distinguish them from absent keys. In JavaScript such a key would overwrite a stored answer with `undefined`, but every caller in the questionnaire passes defined values.
- Goal ids that name `Object.prototype` members (such as "constructor"): in JavaScript these read an inherited function from the goal table. The model treats every goal outside the table as "mind". Goal ids come from the catalog module, which is not part of this model.
- Numbers: durations, steps and skip counts are unbounded integers. Fractional values and NaN are not modelled.
- The local setters of the questionnaire (typing the name, picking a style or a duration) are plain writes of the `OnboardingFlow` fields. They are not separate methods. Stale render closures, where `nextStep` reads the step of the last render, are not modelled.
- Rendering, toasts, timers, navigation, the dashboard and profile statistics, and the discover and active-habit views are presentation. They only read the store and call its operations.
- The catalog contents (`habitLibrary`, `goalOptions`, `styleDescriptions`) are not part of this model.
