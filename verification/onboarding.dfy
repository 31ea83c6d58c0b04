/** The onboarding questionnaire (src/components/OnboardingFlow.tsx): a
    linear list of seven steps walked with "continue" and "back", the
    answers kept locally and written into the store step by step, a goal
    toggle and the gate that enables "continue". Rendering is not modelled. */
module Onboarding {
  import opened Types
  import opened JsArray
  import opened Selection
  import opened Store

  datatype StepName =
    | WelcomeStep | NameStep | GoalsStep | StyleStep | EnergyStep | DurationStep | CompleteStep

  const Steps: seq<StepName> :=
    [WelcomeStep, NameStep, GoalsStep, StyleStep, EnergyStep, DurationStep, CompleteStep]

  const LastIndex: int := |Steps| - 1

  /** `steps[onboardingStep]`, which is `undefined` outside the list. */
  function CurrentStep(index: int): (s: Option<StepName>)
    ensures s.Some? <==> 0 <= index <= LastIndex
    ensures s.Some? ==> s.value == Steps[index]
  {
    if 0 <= index < |Steps| then Some(Steps[index]) else None
  }

  /** The step index after "continue": one further, but never past the
      last step. */
  function NextIndex(index: int): (j: int)
    ensures index < LastIndex ==> j == index + 1
    ensures index >= LastIndex ==> j == index
    ensures 0 <= index <= LastIndex ==> 0 <= j <= LastIndex
  {
    if index < |Steps| - 1 then index + 1 else index
  }

  /** The step index after "back": one back, but never before the first
      step. */
  function PrevIndex(index: int): (j: int)
    ensures index > 0 ==> j == index - 1
    ensures index <= 0 ==> j == index
    ensures 0 <= index <= LastIndex ==> 0 <= j <= LastIndex
  {
    if index > 0 then index - 1 else index
  }

  datatype Move = Next | Back

  function Walk(index: int, moves: seq<Move>): int
    decreases |moves|
  {
    if moves == [] then index
    else Walk(if moves[0] == Next then NextIndex(index) else PrevIndex(index), moves[1..])
  }

  /** From any step of the list, no run of "continue" and "back" leaves
      the list. */
  lemma {:induction false} WalkStaysInRange(index: int, moves: seq<Move>)
    requires 0 <= index <= LastIndex
    ensures 0 <= Walk(index, moves) <= LastIndex
    decreases |moves|
  {
    if moves != [] {
      WalkStaysInRange(if moves[0] == Next then NextIndex(index) else PrevIndex(index), moves[1..]);
    }
  }

  /** Continuing from the last step stays there, however often. */
  lemma {:induction false} ContinueAtLastStep(moves: seq<Move>)
    requires forall i :: 0 <= i < |moves| ==> moves[i] == Next
    ensures Walk(LastIndex, moves) == LastIndex
    decreases |moves|
  {
    if moves != [] {
      ContinueAtLastStep(moves[1..]);
    }
  }

  // ---------------------------------------------------------------------
  // Goal toggle

  /** `prev.includes(goal) ? prev.filter(g => g !== goal) : [...prev, goal]`. */
  function Toggled(goals: seq<string>, goal: string): (r: seq<string>)
    ensures goal in r <==> goal !in goals
    ensures forall g :: g != goal ==> (g in r <==> g in goals)
  {
    if goal in goals then Filter(goals, (g: string) => g != goal) else goals + [goal]
  }

  /** Toggling twice restores membership, and restores the list itself
      when the goal was absent. */
  lemma ToggleTwice(goals: seq<string>, goal: string)
    ensures forall g :: g in Toggled(Toggled(goals, goal), goal) <==> g in goals
    ensures goal !in goals ==> Toggled(Toggled(goals, goal), goal) == goals
  {
    if goal !in goals {
      var p := (g: string) => g != goal;
      FilterAppend(goals, [goal], p);
      FilterKeepsAll(goals, p);
      assert Filter([goal], p) == [];
    }
  }

  /** Toggling never duplicates a goal in a list without duplicates. */
  lemma ToggleKeepsDistinct(goals: seq<string>, goal: string)
    requires Distinct(goals)
    ensures Distinct(Toggled(goals, goal))
  {
    var r := Toggled(goals, goal);
    if goal in goals {
      SubsequenceDistinctBy(r, goals, Identity);
    } else {
      forall i, j | 0 <= i < j < |r| ensures Identity(r[i]) != Identity(r[j]) {
        if j == |goals| {
          assert r[i] == goals[i];
        } else {
          assert r[i] == goals[i] && r[j] == goals[j];
        }
      }
    }
  }

  // ---------------------------------------------------------------------
  // The "continue" gate

  /** The characters `String.prototype.trim` removes: ECMAScript's
      WhiteSpace (tab, vertical tab, form feed, the byte order mark and
      every space separator of Unicode category Zs) and LineTerminator. */
  predicate IsJsWhitespace(c: char)
  {
    || c == '\t' || c == '\U{000B}' || c == '\U{000C}' || c == '\U{FEFF}'
    || c == ' ' || c == '\U{00A0}' || c == '\U{1680}' || ('\U{2000}' <= c <= '\U{200A}')
    || c == '\U{202F}' || c == '\U{205F}' || c == '\U{3000}'
    || c == '\n' || c == '\r' || c == '\U{2028}' || c == '\U{2029}'
  }

  predicate AllWhitespace(s: string)
  {
    forall i :: 0 <= i < |s| ==> IsJsWhitespace(s[i])
  }

  lemma WhitespaceCons(c: char, t: string)
    ensures AllWhitespace([c] + t) <==> IsJsWhitespace(c) && AllWhitespace(t)
  {
    var u := [c] + t;
    if AllWhitespace(u) {
      assert IsJsWhitespace(u[0]);
      forall k | 0 <= k < |t| ensures IsJsWhitespace(t[k]) {
        assert t[k] == u[k + 1];
      }
    }
    if IsJsWhitespace(c) && AllWhitespace(t) {
      forall k | 0 <= k < |u| ensures IsJsWhitespace(u[k]) {
        if k > 0 {
          assert u[k] == t[k - 1];
        }
      }
    }
  }

  lemma WhitespaceSnoc(t: string, c: char)
    ensures AllWhitespace(t + [c]) <==> AllWhitespace(t) && IsJsWhitespace(c)
  {
    var u := t + [c];
    if AllWhitespace(u) {
      assert IsJsWhitespace(u[|t|]);
      forall k | 0 <= k < |t| ensures IsJsWhitespace(t[k]) {
        assert t[k] == u[k];
      }
    }
    if AllWhitespace(t) && IsJsWhitespace(c) {
      forall k | 0 <= k < |u| ensures IsJsWhitespace(u[k]) {
        if k < |t| {
          assert u[k] == t[k];
        }
      }
    }
  }

  /** One step of `TrimStart`: a leading whitespace character joins the
      trimmed prefix. */
  lemma TrimStartStep(s: string, r: string)
    requires s != [] && IsJsWhitespace(s[0])
    requires |r| <= |s| - 1 && r == s[1..][|s| - 1 - |r|..]
    requires AllWhitespace(s[1..][..|s| - 1 - |r|])
    requires r == [] <==> AllWhitespace(s[1..])
    ensures r == s[|s| - |r|..]
    ensures AllWhitespace(s[..|s| - |r|])
    ensures r == [] <==> AllWhitespace(s)
  {
    var t := s[1..];
    var k := |t| - |r|;
    assert s == [s[0]] + t;
    assert s[..|s| - |r|] == [s[0]] + t[..k];
    assert s[|s| - |r|..] == t[k..];
    WhitespaceCons(s[0], t);
    WhitespaceCons(s[0], t[..k]);
  }

  function TrimStart(s: string): (r: string)
    ensures |r| <= |s| && r == s[|s| - |r|..]
    ensures AllWhitespace(s[..|s| - |r|])
    ensures r != [] ==> !IsJsWhitespace(r[0])
    ensures r == [] <==> AllWhitespace(s)
  {
    if s != [] && IsJsWhitespace(s[0]) then
      var r := TrimStart(s[1..]);
      TrimStartStep(s, r);
      r
    else
      assert s[..0] == [];
      s
  }

  function TrimEnd(s: string): (r: string)
    ensures |r| <= |s| && r == s[..|r|]
    ensures AllWhitespace(s[|r|..])
    ensures r != [] ==> !IsJsWhitespace(r[|r| - 1])
    ensures r == [] <==> AllWhitespace(s)
  {
    if s != [] && IsJsWhitespace(s[|s| - 1]) then
      var t := s[..|s| - 1];
      var r := TrimEnd(t);
      assert s == t + [s[|s| - 1]];
      assert s[..|r|] == t[..|r|];
      assert s[|r|..] == t[|r|..] + [s[|s| - 1]];
      WhitespaceSnoc(t, s[|s| - 1]);
      WhitespaceSnoc(t[|r|..], s[|s| - 1]);
      r
    else
      assert s[|s|..] == [];
      s
  }

  /** `s.trim()`. That the result is the slice of `s` between the leading
      and the trailing whitespace is stated by `TrimStart` and `TrimEnd`. */
  function Trim(s: string): (r: string)
    ensures |r| <= |s|
    ensures r == [] <==> AllWhitespace(s)
    ensures r != [] ==> !IsJsWhitespace(r[0]) && !IsJsWhitespace(r[|r| - 1])
  {
    var t := TrimStart(s);
    var r := TrimEnd(t);
    assert r != [] ==> r[0] == t[0];
    assert t != [] ==> !AllWhitespace(t);
    r
  }

  /** A trimmed name is non-empty exactly when the name holds a character
      that is not whitespace. */
  lemma TrimmedNonEmpty(s: string)
    ensures |Trim(s)| > 0 <==> exists i :: 0 <= i < |s| && !IsJsWhitespace(s[i])
  {
    var t := TrimStart(s);
    if t != [] {
      assert !IsJsWhitespace(t[0]);
      assert !AllWhitespace(t);
    }
  }

  /** `canProceed()`: "continue" is blocked at the name step until the name
      holds a visible character, at the goals step until a goal is picked
      and at the style step until a style is picked; nowhere else. */
  function CanProceed(step: Option<StepName>, localName: string, selectedGoals: seq<string>, selectedStyle: Option<Style>): (r: bool)
    ensures r <==>
      && (step == Some(NameStep) ==> exists i :: 0 <= i < |localName| && !IsJsWhitespace(localName[i]))
      && (step == Some(GoalsStep) ==> selectedGoals != [])
      && (step == Some(StyleStep) ==> selectedStyle.Some?)
  {
    match step
    case Some(NameStep) =>
      TrimmedNonEmpty(localName);
      |Trim(localName)| > 0
    case Some(GoalsStep) => |selectedGoals| > 0
    case Some(StyleStep) => selectedStyle.Some?
    case _ => true
  }

  // ---------------------------------------------------------------------
  // Answers written by "continue"

  /** The patch `nextStep` hands to `updateOnboardingData`, if any. */
  function StepAnswers(step: Option<StepName>, localName: string, selectedGoals: seq<string>,
                       selectedStyle: Option<Style>, duration: int): (r: Option<OnboardingData>)
    ensures r.None? <==>
      || (step == Some(NameStep) && localName == "")
      || (step == Some(StyleStep) && selectedStyle.None?)
      || step !in {Some(NameStep), Some(GoalsStep), Some(StyleStep), Some(DurationStep)}
    ensures r.Some? ==> r.value.energyLevels.None? && r.value.frequency.None? && r.value.dislikes.None?
  {
    match step
    case Some(NameStep) =>
      if localName != "" then Some(NoAnswers.(name := Some(localName))) else None
    case Some(GoalsStep) => Some(NoAnswers.(goals := Some(selectedGoals)))
    case Some(StyleStep) =>
      if selectedStyle.Some? then Some(NoAnswers.(habitStyle := selectedStyle)) else None
    case Some(DurationStep) => Some(NoAnswers.(preferredDuration := Some(duration)))
    case _ => None
  }

  /** The stored answers after the step's patch, if any, is written. */
  function Answered(data: OnboardingData, patch: Option<OnboardingData>): (r: OnboardingData)
    ensures patch.None? ==> r == data
    ensures patch.Some? ==> Merge(r, patch.value) == r
  {
    if patch.Some? then Merge(data, patch.value) else data
  }

  /** "Continue" writes the name at the name step when it is non-empty,
      the goals at the goals step, the style at the style step when one is
      picked, the duration at the duration step, and nothing else. */
  lemma NextStepWrites(data: OnboardingData, step: Option<StepName>, localName: string,
                       selectedGoals: seq<string>, selectedStyle: Option<Style>, duration: int)
    ensures var d := Answered(data, StepAnswers(step, localName, selectedGoals, selectedStyle, duration));
      && d.name == (if step == Some(NameStep) && localName != "" then Some(localName) else data.name)
      && d.goals == (if step == Some(GoalsStep) then Some(selectedGoals) else data.goals)
      && d.habitStyle == (if step == Some(StyleStep) && selectedStyle.Some? then selectedStyle else data.habitStyle)
      && d.preferredDuration == (if step == Some(DurationStep) then Some(duration) else data.preferredDuration)
      && d.energyLevels == data.energyLevels
      && d.frequency == data.frequency
      && d.dislikes == data.dislikes
  {
  }

  /** The questionnaire screen, bound to the store. Its local answers start
      from what the store already holds. */
  class OnboardingFlow {
    const store: AppStore
    var localName: string
    var selectedGoals: seq<string>
    var selectedStyle: Option<Style>
    var preferredDuration: int

    constructor (store: AppStore)
      ensures this.store == store
      ensures localName == if store.onboardingData.name.Some? then store.onboardingData.name.value else ""
      ensures selectedGoals == ChosenGoals(store.onboardingData)
      ensures selectedStyle == store.onboardingData.habitStyle
      ensures preferredDuration == ChosenDuration(store.onboardingData)
    {
      this.store := store;
      localName := if store.onboardingData.name.Some? then store.onboardingData.name.value else "";
      selectedGoals := ChosenGoals(store.onboardingData);
      selectedStyle := store.onboardingData.habitStyle;
      preferredDuration := ChosenDuration(store.onboardingData);
    }

    method NextStep()
      modifies store
      ensures store.onboardingData == Answered(old(store.onboardingData),
        StepAnswers(CurrentStep(old(store.onboardingStep)), localName, selectedGoals, selectedStyle, preferredDuration))
      ensures store.onboardingStep == NextIndex(old(store.onboardingStep))
      ensures store.isOnboarded == old(store.isOnboarded) && store.userName == old(store.userName)
      ensures store.userHabits == old(store.userHabits)
    {
      var index := store.onboardingStep;
      var current := CurrentStep(index);
      if current == Some(NameStep) && localName != "" {
        store.UpdateOnboardingData(NoAnswers.(name := Some(localName)));
      }
      if current == Some(GoalsStep) {
        store.UpdateOnboardingData(NoAnswers.(goals := Some(selectedGoals)));
      }
      if current == Some(StyleStep) && selectedStyle.Some? {
        store.UpdateOnboardingData(NoAnswers.(habitStyle := selectedStyle));
      }
      if current == Some(DurationStep) {
        store.UpdateOnboardingData(NoAnswers.(preferredDuration := Some(preferredDuration)));
      }
      if index < |Steps| - 1 {
        store.SetOnboardingStep(index + 1);
      }
    }

    method PrevStep()
      modifies store
      ensures store.onboardingStep == PrevIndex(old(store.onboardingStep))
      ensures store.onboardingData == old(store.onboardingData)
      ensures store.isOnboarded == old(store.isOnboarded) && store.userName == old(store.userName)
      ensures store.userHabits == old(store.userHabits)
    {
      if store.onboardingStep > 0 {
        store.SetOnboardingStep(store.onboardingStep - 1);
      }
    }

    method ToggleGoal(goal: string)
      modifies this`selectedGoals
      ensures selectedGoals == Toggled(old(selectedGoals), goal)
    {
      selectedGoals := Toggled(selectedGoals, goal);
    }

    method HandleComplete()
      requires store.Valid()
      modifies store
      ensures store.isOnboarded
      ensures store.userName == DisplayName(old(store.onboardingData).name)
      ensures store.userHabits == InitialHabits(store.library, old(store.onboardingData))
      ensures store.onboardingStep == old(store.onboardingStep)
      ensures store.onboardingData == old(store.onboardingData)
    {
      store.CompleteOnboarding();
    }
  }
}
