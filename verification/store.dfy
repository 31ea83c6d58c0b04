/** The application state store (src/store/useAppStore.ts): onboarding
    progress, the onboarding answers, the user's name and adopted habits,
    and the operations that replace them. Persistence is not modelled. */
module Store {
  import opened Types
  import opened JsArray
  import opened Selection

  /** `onboardingData.name || "Friend"`. */
  function DisplayName(name: Option<string>): (r: string)
    ensures r != ""
    ensures name.Some? && name.value != "" ==> r == name.value
    ensures name.None? || name.value == "" ==> r == "Friend"
  {
    if name.Some? && name.value != "" then name.value else "Friend"
  }

  function HasOtherId(id: string): UserHabit -> bool
  {
    (h: UserHabit) => h.habit.id != id
  }

  /** `userHabits.filter(h => h.id !== id)`. */
  function RemoveById(hs: seq<UserHabit>, id: string): (r: seq<UserHabit>)
    ensures forall h :: h in r <==> h in hs && h.habit.id != id
    ensures IsSubsequence(r, hs)
    ensures !Adopted(r, id)
  {
    var r := Filter(hs, HasOtherId(id));
    assert forall i :: 0 <= i < |r| ==> r[i] in r;
    r
  }

  /** An entry after `completeHabit` on `today`. */
  function CompletedOn(h: UserHabit, today: IsoDate): (r: UserHabit)
    ensures r.completedDates == h.completedDates + [today]
    ensures r.lastCompleted == Option<string>.Some(today)
    ensures r.habit == h.habit && r.isActive == h.isActive && r.skippedCount == h.skippedCount
  {
    h.(completedDates := h.completedDates + [today], lastCompleted := Option<string>.Some(today))
  }

  /** `completeHabit`'s map: every entry with the id records `today`. */
  function MarkCompleted(hs: seq<UserHabit>, id: string, today: IsoDate): (r: seq<UserHabit>)
    ensures |r| == |hs|
  {
    seq(|hs|, i requires 0 <= i < |hs| => if hs[i].habit.id == id then CompletedOn(hs[i], today) else hs[i])
  }

  /** `skipHabit`'s map: every entry with the id counts one more skip. */
  function IncrementSkip(hs: seq<UserHabit>, id: string): (r: seq<UserHabit>)
    ensures |r| == |hs|
  {
    seq(|hs|, i requires 0 <= i < |hs| =>
      if hs[i].habit.id == id then hs[i].(skippedCount := hs[i].skippedCount + 1) else hs[i])
  }

  /** Removing a fresh id right after adding it restores the habits. */
  lemma AddThenRemove(hs: seq<UserHabit>, h: UserHabit)
    requires !Adopted(hs, h.habit.id)
    ensures RemoveById(hs + [h], h.habit.id) == hs
  {
    var p := HasOtherId(h.habit.id);
    FilterAppend(hs, [h], p);
    forall x | x in hs ensures p(x) {
      var i :| 0 <= i < |hs| && hs[i] == x;
    }
    FilterKeepsAll(hs, p);
    assert Filter([h], p) == [];
  }

  /** Removing an absent id changes nothing. */
  lemma RemoveKeepsOthers(hs: seq<UserHabit>, id: string)
    ensures !Adopted(hs, id) ==> RemoveById(hs, id) == hs
    ensures |RemoveById(hs, id)| <= |hs|
  {
    if !Adopted(hs, id) {
      forall x | x in hs ensures HasOtherId(id)(x) {
        var i :| 0 <= i < |hs| && hs[i] == x;
      }
      FilterKeepsAll(hs, HasOtherId(id));
    }
  }

  /** Completing a habit adds exactly one date, `today`, to every matching
      entry, sets its last completion, and keeps ids, activity and skips;
      an absent id changes nothing. */
  lemma CompleteFacts(hs: seq<UserHabit>, id: string, today: IsoDate)
    ensures forall i :: 0 <= i < |hs| && hs[i].habit.id == id ==>
      && MarkCompleted(hs, id, today)[i].completedDates == hs[i].completedDates + [today]
      && MarkCompleted(hs, id, today)[i].lastCompleted == Option<string>.Some(today)
    ensures forall i :: 0 <= i < |hs| && hs[i].habit.id != id ==> MarkCompleted(hs, id, today)[i] == hs[i]
    ensures forall i :: 0 <= i < |hs| ==>
      && MarkCompleted(hs, id, today)[i].habit == hs[i].habit
      && MarkCompleted(hs, id, today)[i].isActive == hs[i].isActive
      && MarkCompleted(hs, id, today)[i].skippedCount == hs[i].skippedCount
    ensures !Adopted(hs, id) ==> MarkCompleted(hs, id, today) == hs
  {
  }

  /** Skipping adds exactly one to the skips of every matching entry and
      never touches completion dates; an absent id changes nothing. */
  lemma SkipFacts(hs: seq<UserHabit>, id: string)
    ensures forall i :: 0 <= i < |hs| ==>
      && IncrementSkip(hs, id)[i].completedDates == hs[i].completedDates
      && IncrementSkip(hs, id)[i].lastCompleted == hs[i].lastCompleted
      && IncrementSkip(hs, id)[i].habit == hs[i].habit
      && IncrementSkip(hs, id)[i].isActive == hs[i].isActive
      && IncrementSkip(hs, id)[i].skippedCount == hs[i].skippedCount + (if hs[i].habit.id == id then 1 else 0)
    ensures forall i :: 0 <= i < |hs| && hs[i].habit.id != id ==> IncrementSkip(hs, id)[i] == hs[i]
    ensures !Adopted(hs, id) ==> IncrementSkip(hs, id) == hs
  {
  }

  /** Completing and skipping keep the ids, so unique ids stay unique. */
  lemma UpdatesKeepIds(hs: seq<UserHabit>, id: string, today: IsoDate)
    requires DistinctBy(hs, UserHabitId)
    ensures DistinctBy(MarkCompleted(hs, id, today), UserHabitId)
    ensures DistinctBy(IncrementSkip(hs, id), UserHabitId)
    ensures DistinctBy(RemoveById(hs, id), UserHabitId)
  {
    var c := MarkCompleted(hs, id, today);
    var s := IncrementSkip(hs, id);
    forall i, j | 0 <= i < j < |hs| ensures UserHabitId(c[i]) != UserHabitId(c[j]) && UserHabitId(s[i]) != UserHabitId(s[j]) {
      assert UserHabitId(hs[i]) != UserHabitId(hs[j]);
    }
    SubsequenceDistinctBy(RemoveById(hs, id), hs, UserHabitId);
  }

  /** Adding a habit whose id is not yet adopted keeps ids unique. */
  lemma AddFreshKeepsDistinct(hs: seq<UserHabit>, h: UserHabit)
    requires DistinctBy(hs, UserHabitId) && !Adopted(hs, h.habit.id)
    ensures DistinctBy(hs + [h], UserHabitId)
  {
    var r := hs + [h];
    forall i, j | 0 <= i < j < |r| ensures UserHabitId(r[i]) != UserHabitId(r[j]) {
      if j < |hs| {
        assert r[i] == hs[i] && r[j] == hs[j];
      } else {
        assert r[i] == hs[i];
      }
    }
  }

  /** After completing a habit, today's habit is that habit again only
      when every active habit is already done today. */
  lemma CompleteThenToday(hs: seq<UserHabit>, id: string, today: IsoDate)
    requires TodaysHabit(MarkCompleted(hs, id, today), today).Some?
    requires TodaysHabit(MarkCompleted(hs, id, today), today).value.habit.id == id
    ensures forall h :: h in MarkCompleted(hs, id, today) && h.isActive ==> today in h.completedDates
  {
    var r := MarkCompleted(hs, id, today);
    CompleteFacts(hs, id, today);
    forall h | h in r && h.habit.id == id ensures today in h.completedDates {
      var i :| 0 <= i < |r| && r[i] == h;
    }
    CompletedHabitNotPickedAgain(r, today, id);
  }

  /** The store. The habit catalog is fixed when the store is built. */
  class AppStore {
    const library: seq<Habit>
    var isOnboarded: bool
    var onboardingStep: int
    var onboardingData: OnboardingData
    var userName: string
    var userHabits: seq<UserHabit>

    /** Catalog ids are unique. */
    predicate Valid()
    {
      DistinctBy(library, HabitId)
    }

    /** The first-run state. */
    predicate IsInitial()
      reads this
    {
      && !isOnboarded
      && onboardingStep == 0
      && onboardingData == NoAnswers
      && userName == ""
      && userHabits == []
    }

    constructor (library: seq<Habit>)
      requires DistinctBy(library, HabitId)
      ensures Valid() && this.library == library
      ensures IsInitial()
    {
      this.library := library;
      isOnboarded := false;
      onboardingStep := 0;
      onboardingData := NoAnswers;
      userName := "";
      userHabits := [];
    }

    /** Stores the step as given: no clamping. */
    method SetOnboardingStep(step: int)
      modifies this
      ensures onboardingStep == step
      ensures isOnboarded == old(isOnboarded) && onboardingData == old(onboardingData)
      ensures userName == old(userName) && userHabits == old(userHabits)
    {
      onboardingStep := step;
    }

    method UpdateOnboardingData(data: OnboardingData)
      modifies this
      ensures onboardingData == Merge(old(onboardingData), data)
      ensures isOnboarded == old(isOnboarded) && onboardingStep == old(onboardingStep)
      ensures userName == old(userName) && userHabits == old(userHabits)
    {
      onboardingData := Merge(onboardingData, data);
    }

    method CompleteOnboarding()
      requires Valid()
      modifies this
      ensures isOnboarded
      ensures userName == DisplayName(old(onboardingData).name) && userName != ""
      ensures userHabits == InitialHabits(library, old(onboardingData))
      ensures DistinctBy(userHabits, UserHabitId)
      ensures onboardingStep == old(onboardingStep) && onboardingData == old(onboardingData)
    {
      var initialHabits := InitialHabits(library, onboardingData);
      InitialHabitsDistinct(library, onboardingData);
      isOnboarded := true;
      userName := DisplayName(onboardingData.name);
      userHabits := initialHabits;
    }

    /** Appends without checking the id. */
    method AddHabit(habit: UserHabit)
      modifies this
      ensures userHabits == old(userHabits) + [habit]
      ensures isOnboarded == old(isOnboarded) && onboardingStep == old(onboardingStep)
      ensures onboardingData == old(onboardingData) && userName == old(userName)
    {
      userHabits := userHabits + [habit];
    }

    method RemoveHabit(id: string)
      modifies this
      ensures userHabits == RemoveById(old(userHabits), id)
      ensures !Adopted(userHabits, id)
      ensures isOnboarded == old(isOnboarded) && onboardingStep == old(onboardingStep)
      ensures onboardingData == old(onboardingData) && userName == old(userName)
    {
      userHabits := RemoveById(userHabits, id);
    }

    method CompleteHabit(id: string, today: IsoDate)
      modifies this
      ensures userHabits == MarkCompleted(old(userHabits), id, today)
      ensures isOnboarded == old(isOnboarded) && onboardingStep == old(onboardingStep)
      ensures onboardingData == old(onboardingData) && userName == old(userName)
    {
      userHabits := MarkCompleted(userHabits, id, today);
    }

    method SkipHabit(id: string)
      modifies this
      ensures userHabits == IncrementSkip(old(userHabits), id)
      ensures isOnboarded == old(isOnboarded) && onboardingStep == old(onboardingStep)
      ensures onboardingData == old(onboardingData) && userName == old(userName)
    {
      userHabits := IncrementSkip(userHabits, id);
    }

    method GetRecommendedHabits(draws: nat -> bool) returns (r: seq<UserHabit>)
      requires Valid()
      ensures r == Recommend(library, userHabits, onboardingData, draws)
      ensures |r| <= RecommendedCount
      ensures forall u :: u in r ==> !u.isActive && u.habit in library && !Adopted(userHabits, u.habit.id)
      ensures DistinctBy(r, UserHabitId)
    {
      r := Recommend(library, userHabits, onboardingData, draws);
      RecommendFacts(library, userHabits, onboardingData, draws);
      RecommendDistinct(library, userHabits, onboardingData, draws);
    }

    method GetTodaysHabit(today: IsoDate) returns (r: Option<UserHabit>)
      ensures r == TodaysHabit(userHabits, today)
      ensures r.Some? ==> r.value in userHabits && r.value.isActive
      ensures r.None? <==> forall h :: h in userHabits ==> !h.isActive
    {
      r := TodaysHabit(userHabits, today);
    }

    method ResetApp()
      modifies this
      ensures IsInitial()
    {
      isOnboarded := false;
      onboardingStep := 0;
      onboardingData := NoAnswers;
      userName := "";
      userHabits := [];
    }
  }
}
