/** The habit selection engine of the store (src/store/useAppStore.ts): the
    initial habits picked at the end of onboarding, today's habit and the
    recommended habits. The habit catalog is a parameter. */
module Selection {
  import opened Types
  import opened JsArray

  const InitialCount := 5
  const RecommendedCount := 6
  const DefaultStyle := Calm
  const DefaultDuration := 3

  /** The fixed goal-to-category table. */
  const GoalToCategory: map<string, Category> := map[
    "mental-health" := Mind,
    "focus" := Focus,
    "fitness" := Body,
    "creativity" := Creativity,
    "confidence" := Social,
    "sleep" := Mind,
    "relationships" := Social
  ]

  /** `goalToCategory[g] || "mind"`. */
  function GoalCategory(goal: string): Category
  {
    if goal in GoalToCategory then GoalToCategory[goal] else Mind
  }

  /** `goals.map(g => goalToCategory[g] || "mind")`. */
  function PreferredCategories(goals: seq<string>): seq<Category>
  {
    seq(|goals|, i requires 0 <= i < |goals| => GoalCategory(goals[i]))
  }

  /** `data.habitStyle || "calm"`. */
  function ChosenStyle(data: OnboardingData): Style
  {
    if data.habitStyle.Some? then data.habitStyle.value else DefaultStyle
  }

  /** `data.goals || []`. */
  function ChosenGoals(data: OnboardingData): seq<string>
  {
    if data.goals.Some? then data.goals.value else []
  }

  /** `data.preferredDuration || 3`: an absent answer and the falsy 0 both
      fall back to 3 minutes. */
  function ChosenDuration(data: OnboardingData): (d: int)
    ensures d != 0
    ensures data.preferredDuration.None? || data.preferredDuration == Some(0) ==> d == DefaultDuration
    ensures data.preferredDuration.Some? && data.preferredDuration.value != 0 ==> d == data.preferredDuration.value
  {
    if data.preferredDuration.Some? && data.preferredDuration.value != 0
    then data.preferredDuration.value
    else DefaultDuration
  }

  /** 3 points for the chosen style, 2 for a preferred category, 1 for
      fitting the preferred duration. */
  function Score(h: Habit, style: Style, categories: seq<Category>, maxDuration: int): (s: int)
    ensures 0 <= s <= 6
    ensures s == 6 <==> h.style == style && h.category in categories && h.duration <= maxDuration
    ensures h.style == style ==> s >= 3
    ensures h.style != style ==> s <= 3
  {
    (if h.style == style then 3 else 0)
    + (if h.category in categories then 2 else 0)
    + (if h.duration <= maxDuration then 1 else 0)
  }

  /** The score of a catalog entry under the onboarding answers. */
  function HabitScore(h: Habit, data: OnboardingData): (s: int)
    ensures 0 <= s <= 6
  {
    Score(h, ChosenStyle(data), PreferredCategories(ChosenGoals(data)), ChosenDuration(data))
  }

  /** Without any answer, only the calm style (3 points) and a duration of
      at most 3 minutes (1 point) score. */
  lemma NoAnswersScore(h: Habit)
    ensures HabitScore(h, NoAnswers) == (if h.style == Calm then 3 else 0) + (if h.duration <= 3 then 1 else 0)
  {
    assert PreferredCategories(ChosenGoals(NoAnswers)) == [];
  }

  /** A chosen goal missing from the table counts as the mind category. */
  lemma UnmappedGoalMeansMind(h: Habit, data: OnboardingData, goal: string)
    requires goal in ChosenGoals(data) && goal !in GoalToCategory
    requires h.category == Mind
    ensures h.category in PreferredCategories(ChosenGoals(data))
    ensures HabitScore(h, data) >= 2
  {
    var goals := ChosenGoals(data);
    var i :| 0 <= i < |goals| && goals[i] == goal;
    assert PreferredCategories(goals)[i] == Mind;
  }

  /** A preferred duration of 0 scores exactly like no answer at all. */
  lemma ZeroDurationMeansDefault(h: Habit, data: OnboardingData)
    requires data.preferredDuration == Some(0)
    ensures ChosenDuration(data) == DefaultDuration
    ensures HabitScore(h, data) == HabitScore(h, data.(preferredDuration := None))
  {
  }

  /** A catalog entry matching style, category and duration outranks one
      that matches a single criterion. */
  lemma FullMatchOutranksSingleMatch(a: Habit, b: Habit, data: OnboardingData)
    requires a.style == ChosenStyle(data)
    requires a.category in PreferredCategories(ChosenGoals(data))
    requires a.duration <= ChosenDuration(data)
    requires (if b.style == ChosenStyle(data) then 1 else 0)
             + (if b.category in PreferredCategories(ChosenGoals(data)) then 1 else 0)
             + (if b.duration <= ChosenDuration(data) then 1 else 0) <= 1
    ensures HabitScore(a, data) == 6
    ensures HabitScore(b, data) <= 3
  {
  }

  datatype Scored = Scored(habit: Habit, score: int)

  /** The comparator `(a, b) => b.score - a.score` as an ascending key. */
  function Rank(s: Scored): int { -s.score }

  function ScoredHabitId(s: Scored): string { s.habit.id }

  function ScoreAll(library: seq<Habit>, data: OnboardingData): seq<Scored>
  {
    seq(|library|, i requires 0 <= i < |library| => Scored(library[i], HabitScore(library[i], data)))
  }

  /** The catalog sorted by descending score, ties in catalog order. */
  function Ranked(library: seq<Habit>, data: OnboardingData): seq<Scored>
  {
    SortBy(ScoreAll(library, data), Rank)
  }

  function Chosen(library: seq<Habit>, data: OnboardingData): seq<Scored>
  {
    Take(Ranked(library, data), InitialCount)
  }

  /** `generateInitialHabits`: the five best-scoring entries, each adopted
      as an active habit with an empty history. */
  function InitialHabits(library: seq<Habit>, data: OnboardingData): (r: seq<UserHabit>)
    ensures |r| <= InitialCount
    ensures forall u :: u in r ==> u.isActive
  {
    var chosen := Chosen(library, data);
    seq(|chosen|, i requires 0 <= i < |chosen| => Adopt(chosen[i].habit, true))
  }

  lemma ScoredEntries(library: seq<Habit>, data: OnboardingData)
    ensures forall s :: s in ScoreAll(library, data) ==> s.habit in library && s.score == HabitScore(s.habit, data)
  {
  }

  /** There are min(5, |library|) initial habits, each a catalog entry,
      active, never completed and never skipped. */
  lemma InitialHabitsFresh(library: seq<Habit>, data: OnboardingData)
    ensures |InitialHabits(library, data)| == if |library| < InitialCount then |library| else InitialCount
    ensures forall u :: u in InitialHabits(library, data) ==>
      && u.habit in library
      && u.isActive
      && u.completedDates == []
      && u.skippedCount == 0
      && u.lastCompleted == None
  {
    var r := InitialHabits(library, data);
    var chosen := Chosen(library, data);
    ScoredEntries(library, data);
    forall u | u in r
      ensures u.habit in library && u.isActive && u.completedDates == [] && u.skippedCount == 0 && u.lastCompleted == None
    {
      var i :| 0 <= i < |r| && r[i] == u;
      assert chosen[i] in Ranked(library, data);
    }
  }

  /** The initial habits come in non-increasing score order. */
  lemma InitialHabitsOrdered(library: seq<Habit>, data: OnboardingData)
    ensures forall i, j :: 0 <= i < j < |InitialHabits(library, data)| ==>
      HabitScore(InitialHabits(library, data)[i].habit, data) >= HabitScore(InitialHabits(library, data)[j].habit, data)
  {
    var r := InitialHabits(library, data);
    var ranked := Ranked(library, data);
    ScoredEntries(library, data);
    forall i, j | 0 <= i < j < |r|
      ensures HabitScore(r[i].habit, data) >= HabitScore(r[j].habit, data)
    {
      assert ranked[i] in ScoreAll(library, data) && ranked[j] in ScoreAll(library, data);
      assert Rank(ranked[i]) <= Rank(ranked[j]);
    }
  }

  /** No catalog entry left out scores higher than an entry taken. */
  lemma InitialHabitsTopScored(library: seq<Habit>, data: OnboardingData, h: Habit)
    requires h in library
    requires forall u :: u in InitialHabits(library, data) ==> u.habit != h
    ensures forall u :: u in InitialHabits(library, data) ==> HabitScore(u.habit, data) >= HabitScore(h, data)
  {
    var r := InitialHabits(library, data);
    var ranked := Ranked(library, data);
    var all := ScoreAll(library, data);
    ScoredEntries(library, data);
    var k :| 0 <= k < |library| && library[k] == h;
    assert all[k] in ranked;
    var j :| 0 <= j < |ranked| && ranked[j] == all[k];
    forall i | 0 <= i < |r| ensures ranked[i] != all[k] {
      assert r[i] in r;
    }
    assert j >= |r|;
    forall u | u in r ensures HabitScore(u.habit, data) >= HabitScore(h, data) {
      var i :| 0 <= i < |r| && r[i] == u;
      assert ranked[i] in all;
      assert Rank(ranked[i]) <= Rank(ranked[j]);
    }
  }

  /** Ties keep catalog order: for every score, the chosen entries with
      that score are the first catalog entries with that score. */
  lemma InitialHabitsStable(library: seq<Habit>, data: OnboardingData, score: int)
    ensures WithKey(Chosen(library, data), Rank, -score) <= WithKey(ScoreAll(library, data), Rank, -score)
  {
    var ranked := Ranked(library, data);
    if |ranked| > InitialCount {
      WithKeyOfPrefix(ranked, InitialCount, Rank, -score);
    }
  }

  /** A catalog with unique ids yields initial habits with unique ids. */
  lemma InitialHabitsDistinct(library: seq<Habit>, data: OnboardingData)
    requires DistinctBy(library, HabitId)
    ensures DistinctBy(InitialHabits(library, data), UserHabitId)
  {
    var all := ScoreAll(library, data);
    assert DistinctBy(all, ScoredHabitId) by {
      forall i, j | 0 <= i < j < |all| ensures ScoredHabitId(all[i]) != ScoredHabitId(all[j]) {
        assert HabitId(library[i]) != HabitId(library[j]);
      }
    }
    SortKeepsDistinctBy(all, Rank, ScoredHabitId);
    var ranked := Ranked(library, data);
    var chosen := Chosen(library, data);
    var r := InitialHabits(library, data);
    forall i, j | 0 <= i < j < |r| ensures UserHabitId(r[i]) != UserHabitId(r[j]) {
      assert ScoredHabitId(ranked[i]) != ScoredHabitId(ranked[j]);
    }
  }

  // ---------------------------------------------------------------------
  // getTodaysHabit

  function IsActive(h: UserHabit): bool { h.isActive }

  function SkipKey(h: UserHabit): int { h.skippedCount }

  /** `userHabits.filter(h => h.isActive)`. */
  function ActiveHabits(hs: seq<UserHabit>): (r: seq<UserHabit>)
    ensures forall h :: h in r <==> h in hs && h.isActive
    ensures IsSubsequence(r, hs)
  {
    Filter(hs, IsActive)
  }

  /** The active habits whose completion dates do not contain `today`. */
  function OpenToday(hs: seq<UserHabit>, today: IsoDate): (r: seq<UserHabit>)
    ensures forall h :: h in r ==> h.isActive && today !in h.completedDates
    ensures IsSubsequence(r, hs)
  {
    var active := ActiveHabits(hs);
    var r := Filter(active, (h: UserHabit) => today !in h.completedDates);
    SubsequenceTransitive(r, active, hs);
    r
  }

  /** `getTodaysHabit`: the least-skipped active habit not yet done today;
      when every active habit is done, the first active habit; `null` only
      without active habits. */
  function TodaysHabit(hs: seq<UserHabit>, today: IsoDate): (r: Option<UserHabit>)
    ensures r.Some? ==> r.value in hs && r.value.isActive
    ensures r.None? <==> forall h :: h in hs ==> !h.isActive
  {
    var active := ActiveHabits(hs);
    var open := OpenToday(hs, today);
    if |open| == 0 then
      if |active| > 0 then Some(active[0]) else None
    else
      assert open[0] in open;
      Some(SortBy(open, SkipKey)[0])
  }

  /** When some active habit is not done today, today's habit is one of
      them, with the fewest skips, and the first such one in order. */
  lemma TodaysHabitLeastSkipped(hs: seq<UserHabit>, today: IsoDate)
    requires exists h :: h in hs && h.isActive && today !in h.completedDates
    ensures OpenToday(hs, today) != []
    ensures TodaysHabit(hs, today) == Some(OpenToday(hs, today)[FirstMinIndex(OpenToday(hs, today), SkipKey)])
    ensures TodaysHabit(hs, today).value.isActive
    ensures today !in TodaysHabit(hs, today).value.completedDates
    ensures forall h :: h in hs && h.isActive && today !in h.completedDates ==>
      TodaysHabit(hs, today).value.skippedCount <= h.skippedCount
  {
    var open := OpenToday(hs, today);
    var h :| h in hs && h.isActive && today !in h.completedDates;
    OpenTodayMembers(hs, today);
    assert h in open;
    SortHeadIsFirstMin(open, SkipKey);
    var i := FirstMinIndex(open, SkipKey);
    var t := open[i];
    assert TodaysHabit(hs, today) == Some(t);
    assert t in open;
    forall g | g in hs && g.isActive && today !in g.completedDates
      ensures t.skippedCount <= g.skippedCount
    {
      assert g in open;
      var k :| 0 <= k < |open| && open[k] == g;
      assert SkipKey(t) <= SkipKey(open[k]);
    }
  }

  lemma OpenTodayMembers(hs: seq<UserHabit>, today: IsoDate)
    ensures forall h :: h in OpenToday(hs, today) <==> h in hs && h.isActive && today !in h.completedDates
  {
  }

  /** When every active habit is done today, today's habit is still the
      first active habit: "all done" is never signalled while a habit is
      active. */
  lemma TodaysHabitAllDone(hs: seq<UserHabit>, today: IsoDate)
    requires forall h :: h in hs && h.isActive ==> today in h.completedDates
    ensures TodaysHabit(hs, today) == if ActiveHabits(hs) == [] then None else Some(ActiveHabits(hs)[0])
    ensures ActiveHabits(hs) != [] ==> ActiveHabits(hs)[0].isActive && today in TodaysHabit(hs, today).value.completedDates
  {
    var active := ActiveHabits(hs);
    FilterDropsAll(active, (h: UserHabit) => today !in h.completedDates);
    if active != [] {
      assert active[0] in active;
    }
  }

  /** The same day, a habit just completed comes back as today's habit only
      when no active habit is left undone. */
  lemma CompletedHabitNotPickedAgain(hs: seq<UserHabit>, today: IsoDate, id: string)
    requires forall h :: h in hs && h.habit.id == id ==> today in h.completedDates
    requires TodaysHabit(hs, today).Some? && TodaysHabit(hs, today).value.habit.id == id
    ensures forall h :: h in hs && h.isActive ==> today in h.completedDates
  {
    if exists h :: h in hs && h.isActive && today !in h.completedDates {
      TodaysHabitLeastSkipped(hs, today);
    }
  }

  /** Right after onboarding, today's habit is the best-scoring initial
      habit. */
  lemma FirstDayHabitIsTopRanked(library: seq<Habit>, data: OnboardingData, today: IsoDate)
    requires library != []
    ensures TodaysHabit(InitialHabits(library, data), today) == Some(InitialHabits(library, data)[0])
  {
    var r := InitialHabits(library, data);
    InitialHabitsFresh(library, data);
    assert r[0] in r;
    FilterKeepsAll(r, IsActive);
    var open := OpenToday(r, today);
    FilterKeepsAll(r, (h: UserHabit) => today !in h.completedDates);
    assert open == r;
    SortHeadIsFirstMin(open, SkipKey);
    var i := FirstMinIndex(open, SkipKey);
    assert open[0] in r && open[i] in r;
    assert SkipKey(open[0]) == 0 == SkipKey(open[i]);
    assert i == 0;
  }

  // ---------------------------------------------------------------------
  // getRecommendedHabits

  /** `activeHabitIds.includes(id)`. */
  predicate Adopted(hs: seq<UserHabit>, id: string)
  {
    exists i :: 0 <= i < |hs| && hs[i].habit.id == id
  }

  /** Catalog entries whose id is not among the user's habits. */
  function Unadopted(library: seq<Habit>, hs: seq<UserHabit>): (r: seq<Habit>)
    ensures forall h :: h in r <==> h in library && !Adopted(hs, h.id)
    ensures IsSubsequence(r, library)
  {
    Filter(library, (h: Habit) => !Adopted(hs, h.id))
  }

  function MatchingStyle(xs: seq<Habit>, style: Style): seq<Habit>
  {
    Filter(xs, (h: Habit) => h.style == style)
  }

  lemma MatchingStyleStep(xs: seq<Habit>, style: Style)
    requires xs != []
    ensures MatchingStyle(xs, style)
      == if xs[0].style == style then [xs[0]] + MatchingStyle(xs[1..], style) else MatchingStyle(xs[1..], style)
  {
  }

  /** `.filter(h => h.style === style || Math.random() > 0.5)`. The random
      source is `draws`: `draws(n)` says whether the n-th call to
      `Math.random()` returned more than 0.5. Because `||` short-circuits,
      only entries of another style consume a draw. */
  function Admit(xs: seq<Habit>, style: Style, draws: nat -> bool, n: nat): seq<Habit>
  {
    if xs == [] then []
    else if xs[0].style == style then [xs[0]] + Admit(xs[1..], style, draws, n)
    else if draws(n) then [xs[0]] + Admit(xs[1..], style, draws, n + 1)
    else Admit(xs[1..], style, draws, n + 1)
  }

  /** One step of the random filter over a non-empty list. */
  lemma AdmitStep(xs: seq<Habit>, style: Style, draws: nat -> bool, n: nat)
    requires xs != []
    ensures Admit(xs, style, draws, n)
      == (if xs[0].style == style || draws(n) then [xs[0]] else [])
         + Admit(xs[1..], style, draws, if xs[0].style == style then n else n + 1)
    ensures OtherStyleCount(xs, style) == (if xs[0].style == style then 0 else 1) + OtherStyleCount(xs[1..], style)
  {
    if xs[0].style != style && !draws(n) {
      assert [] + Admit(xs[1..], style, draws, n + 1) == Admit(xs[1..], style, draws, n + 1);
    }
  }

  /** The random filter keeps the order of `xs` and, whatever the draws,
      admits every entry of the style. */
  lemma {:induction false} AdmitKeepsOrder(xs: seq<Habit>, style: Style, draws: nat -> bool, n: nat)
    ensures IsSubsequence(Admit(xs, style, draws, n), xs)
    ensures IsSubsequence(MatchingStyle(xs, style), Admit(xs, style, draws, n))
  {
    if xs != [] {
      var m := if xs[0].style == style then n else n + 1;
      var rest := Admit(xs[1..], style, draws, m);
      AdmitKeepsOrder(xs[1..], style, draws, m);
      MatchingStyleStep(xs, style);
      var r := Admit(xs, style, draws, n);
      if xs[0].style == style || draws(n) {
        assert r == [xs[0]] + rest && r[1..] == rest;
      } else {
        assert r == rest;
      }
      if xs[0].style == style {
        assert MatchingStyle(xs, style)[1..] == MatchingStyle(xs[1..], style);
      }
    }
  }

  /** When every draw is "not above 0.5", only the entries of the style are
      admitted. */
  lemma {:induction false} AdmitWithoutDraws(xs: seq<Habit>, style: Style, draws: nat -> bool, n: nat)
    requires forall k :: !draws(k)
    ensures Admit(xs, style, draws, n) == MatchingStyle(xs, style)
  {
    if xs != [] {
      AdmitWithoutDraws(xs[1..], style, draws, if xs[0].style == style then n else n + 1);
    }
  }

  /** When every draw is "above 0.5", every entry is admitted. */
  lemma {:induction false} AdmitWithDraws(xs: seq<Habit>, style: Style, draws: nat -> bool, n: nat)
    requires forall k :: draws(k)
    ensures Admit(xs, style, draws, n) == xs
  {
    if xs != [] {
      AdmitWithDraws(xs[1..], style, draws, if xs[0].style == style then n else n + 1);
      assert xs == [xs[0]] + xs[1..];
    }
  }

  /** The random filter over a concatenation is the filter over each part,
      the second part starting at the draw after those the first consumed. */
  lemma {:induction false} AdmitAppend(a: seq<Habit>, b: seq<Habit>, style: Style, draws: nat -> bool, n: nat)
    ensures Admit(a + b, style, draws, n)
      == Admit(a, style, draws, n) + Admit(b, style, draws, n + OtherStyleCount(a, style))
  {
    if a == [] {
      assert a + b == b;
    } else {
      var m := if a[0].style == style then n else n + 1;
      var head := if a[0].style == style || draws(n) then [a[0]] else [];
      var rest := a[1..];
      assert (a + b)[0] == a[0] && (a + b)[1..] == rest + b;
      AdmitStep(a + b, style, draws, n);
      AdmitStep(a, style, draws, n);
      AdmitAppend(rest, b, style, draws, m);
      calc {
        Admit(a + b, style, draws, n);
        head + Admit(rest + b, style, draws, m);
        head + (Admit(rest, style, draws, m) + Admit(b, style, draws, m + OtherStyleCount(rest, style)));
        (head + Admit(rest, style, draws, m)) + Admit(b, style, draws, n + OtherStyleCount(a, style));
        Admit(a, style, draws, n) + Admit(b, style, draws, n + OtherStyleCount(a, style));
      }
    }
  }

  /** A single entry is admitted when it has the style, or else when the
      next draw is above 0.5. */
  lemma AdmitSingle(x: Habit, style: Style, draws: nat -> bool, n: nat)
    ensures Admit([x], style, draws, n) == if x.style == style || draws(n) then [x] else []
    ensures OtherStyleCount([x], style) == if x.style == style then 0 else 1
  {
    assert [x][1..] == [];
  }

  /** How many of the `m` draws from the n-th on come out "above 0.5". */
  function CountDraws(draws: nat -> bool, n: nat, m: nat): (c: nat)
    ensures c <= m
    decreases m
  {
    if m == 0 then 0 else (if draws(n) then 1 else 0) + CountDraws(draws, n + 1, m - 1)
  }

  /** How many entries of `xs` are not of `style`. */
  function OtherStyleCount(xs: seq<Habit>, style: Style): nat
  {
    if xs == [] then 0 else (if xs[0].style == style then 0 else 1) + OtherStyleCount(xs[1..], style)
  }

  /** Every entry of another style consumes exactly one draw, in order, and
      is admitted exactly when its draw is "above 0.5": the admitted entries
      are the style's entries plus one per favourable draw. */
  lemma {:induction false} AdmitCount(xs: seq<Habit>, style: Style, draws: nat -> bool, n: nat)
    ensures |Admit(xs, style, draws, n)|
      == |MatchingStyle(xs, style)| + CountDraws(draws, n, OtherStyleCount(xs, style))
  {
    if xs == [] {
      assert MatchingStyle(xs, style) == [];
    } else {
      var tail := xs[1..];
      MatchingStyleStep(xs, style);
      AdmitStep(xs, style, draws, n);
      if xs[0].style == style {
        AdmitCount(tail, style, draws, n);
      } else {
        AdmitCount(tail, style, draws, n + 1);
      }
    }
  }

  /** The admitted entries before the cap. */
  function Candidates(library: seq<Habit>, hs: seq<UserHabit>, data: OnboardingData, draws: nat -> bool): (r: seq<Habit>)
    ensures IsSubsequence(r, Unadopted(library, hs))
    ensures IsSubsequence(MatchingStyle(Unadopted(library, hs), ChosenStyle(data)), r)
  {
    AdmitKeepsOrder(Unadopted(library, hs), ChosenStyle(data), draws, 0);
    Admit(Unadopted(library, hs), ChosenStyle(data), draws, 0)
  }

  /** `getRecommendedHabits`: at most six unadopted catalog entries, each
      offered as an inactive habit with an empty history. */
  function Recommend(library: seq<Habit>, hs: seq<UserHabit>, data: OnboardingData, draws: nat -> bool): (r: seq<UserHabit>)
    ensures |r| <= RecommendedCount
  {
    var top := Take(Candidates(library, hs, data, draws), RecommendedCount);
    seq(|top|, i requires 0 <= i < |top| => Adopt(top[i], false))
  }

  function HabitsOf(us: seq<UserHabit>): seq<Habit>
  {
    seq(|us|, i requires 0 <= i < |us| => us[i].habit)
  }

  /** Recommendations are inactive, fresh, not yet adopted, in catalog
      order; whatever the draws, there are at least as many as there are
      unadopted entries of the chosen style, up to six. */
  lemma RecommendFacts(library: seq<Habit>, hs: seq<UserHabit>, data: OnboardingData, draws: nat -> bool)
    ensures var r := Recommend(library, hs, data, draws);
      && (forall u :: u in r ==>
            && !u.isActive && u.completedDates == [] && u.skippedCount == 0 && u.lastCompleted == None
            && u.habit in library && !Adopted(hs, u.habit.id))
      && IsSubsequence(HabitsOf(r), library)
      && HabitsOf(r) <= Candidates(library, hs, data, draws)
      && |r| == (var c := |Candidates(library, hs, data, draws)|; if c < RecommendedCount then c else RecommendedCount)
      && |r| >= (var m := |MatchingStyle(Unadopted(library, hs), ChosenStyle(data))|;
                 if m < RecommendedCount then m else RecommendedCount)
  {
    var r := Recommend(library, hs, data, draws);
    var un := Unadopted(library, hs);
    var cands := Candidates(library, hs, data, draws);
    var top := Take(cands, RecommendedCount);
    assert HabitsOf(r) == top;
    PrefixIsSubsequence(top, cands);
    SubsequenceTransitive(top, cands, un);
    SubsequenceTransitive(top, un, library);
    SubsequenceLength(top, library);
    SubsequenceLength(top, un);
    SubsequenceLength(MatchingStyle(un, ChosenStyle(data)), cands);
    forall u | u in r
      ensures !u.isActive && u.completedDates == [] && u.skippedCount == 0 && u.lastCompleted == None
      ensures u.habit in library && !Adopted(hs, u.habit.id)
    {
      var i :| 0 <= i < |r| && r[i] == u;
      assert top[i] in top;
    }
  }

  /** Every unadopted entry of the chosen style passes the random filter. */
  lemma StyleMatchesAlwaysAdmitted(library: seq<Habit>, hs: seq<UserHabit>, data: OnboardingData, draws: nat -> bool, h: Habit)
    requires h in library && !Adopted(hs, h.id) && h.style == ChosenStyle(data)
    ensures h in Candidates(library, hs, data, draws)
  {
    var un := Unadopted(library, hs);
    assert h in MatchingStyle(un, ChosenStyle(data));
    SubsequenceLength(MatchingStyle(un, ChosenStyle(data)), Candidates(library, hs, data, draws));
  }

  /** A catalog with unique ids yields recommendations with unique ids. */
  lemma RecommendDistinct(library: seq<Habit>, hs: seq<UserHabit>, data: OnboardingData, draws: nat -> bool)
    requires DistinctBy(library, HabitId)
    ensures DistinctBy(Recommend(library, hs, data, draws), UserHabitId)
  {
    var r := Recommend(library, hs, data, draws);
    RecommendFacts(library, hs, data, draws);
    SubsequenceDistinctBy(HabitsOf(r), library, HabitId);
    forall i, j | 0 <= i < j < |r| ensures UserHabitId(r[i]) != UserHabitId(r[j]) {
      assert HabitId(HabitsOf(r)[i]) != HabitId(HabitsOf(r)[j]);
    }
  }
}
