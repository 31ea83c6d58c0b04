/** Data shapes of the habit tracker: catalog habits, adopted habits and the
    partial onboarding answers (src/types/habit.ts). */
module Types {

  datatype Option<T> = None | Some(value: T)

  datatype Category = Mind | Body | Social | Creativity | Focus

  datatype Style = Calm | Playful | Productive | Reflective

  datatype Difficulty = Easy | Medium | Challenging

  /** "low" | "medium" | "high" of the energy questionnaire. */
  datatype Energy = LowEnergy | MediumEnergy | HighEnergy

  datatype EnergyLevels = EnergyLevels(morning: Energy, afternoon: Energy, evening: Energy)

  datatype Frequency = Daily | Weekly | Flexible

  /** A catalog entry. Durations are whole minutes. */
  datatype Habit = Habit(
    id: string,
    title: string,
    description: string,
    category: Category,
    duration: int,
    difficulty: Difficulty,
    benefit: string,
    emoji: string,
    style: Style)

  /** A catalog entry adopted by the user, with its history. The catalog
      fields are kept together in `habit` instead of being spread out. */
  datatype UserHabit = UserHabit(
    habit: Habit,
    isActive: bool,
    completedDates: seq<string>,
    skippedCount: nat,
    lastCompleted: Option<string>)

  function HabitId(h: Habit): string { h.id }

  function UserHabitId(h: UserHabit): string { h.habit.id }

  /** A catalog entry as a fresh adoption: no completions and no skips. */
  function Adopt(h: Habit, active: bool): UserHabit
  {
    UserHabit(h, active, [], 0, None)
  }

  /** `Partial<OnboardingData>`: every answer may be absent. */
  datatype OnboardingData = OnboardingData(
    name: Option<string>,
    goals: Option<seq<string>>,
    habitStyle: Option<Style>,
    energyLevels: Option<EnergyLevels>,
    preferredDuration: Option<int>,
    frequency: Option<Frequency>,
    dislikes: Option<seq<string>>)

  /** The empty object `{}`. */
  const NoAnswers := OnboardingData(None, None, None, None, None, None, None)

  function Pick<T>(base: Option<T>, patch: Option<T>): Option<T>
  {
    if patch.Some? then patch else base
  }

  /** `{ ...base, ...patch }`: a shallow merge in which the keys present in
      `patch` win. */
  function Merge(base: OnboardingData, patch: OnboardingData): (r: OnboardingData)
  {
    OnboardingData(
      Pick(base.name, patch.name),
      Pick(base.goals, patch.goals),
      Pick(base.habitStyle, patch.habitStyle),
      Pick(base.energyLevels, patch.energyLevels),
      Pick(base.preferredDuration, patch.preferredDuration),
      Pick(base.frequency, patch.frequency),
      Pick(base.dislikes, patch.dislikes))
  }

  /** The merge keeps every answer the patch leaves out, takes every answer
      the patch gives, is neutral for `{}` on either side, and repeating it
      changes nothing. */
  lemma MergeLaws(base: OnboardingData, patch: OnboardingData)
    ensures patch.name.Some? ==> Merge(base, patch).name == patch.name
    ensures patch.name.None? ==> Merge(base, patch).name == base.name
    ensures patch.goals.Some? ==> Merge(base, patch).goals == patch.goals
    ensures patch.goals.None? ==> Merge(base, patch).goals == base.goals
    ensures patch.habitStyle.Some? ==> Merge(base, patch).habitStyle == patch.habitStyle
    ensures patch.habitStyle.None? ==> Merge(base, patch).habitStyle == base.habitStyle
    ensures patch.preferredDuration.Some? ==> Merge(base, patch).preferredDuration == patch.preferredDuration
    ensures patch.preferredDuration.None? ==> Merge(base, patch).preferredDuration == base.preferredDuration
    ensures patch.energyLevels.Some? ==> Merge(base, patch).energyLevels == patch.energyLevels
    ensures patch.energyLevels.None? ==> Merge(base, patch).energyLevels == base.energyLevels
    ensures patch.frequency.Some? ==> Merge(base, patch).frequency == patch.frequency
    ensures patch.frequency.None? ==> Merge(base, patch).frequency == base.frequency
    ensures patch.dislikes.Some? ==> Merge(base, patch).dislikes == patch.dislikes
    ensures patch.dislikes.None? ==> Merge(base, patch).dislikes == base.dislikes
    ensures Merge(base, NoAnswers) == base
    ensures Merge(NoAnswers, patch) == patch
    ensures Merge(Merge(base, patch), patch) == Merge(base, patch)
  {
  }

  /** Merging two patches one after the other is merging their merge. */
  lemma MergeAssociative(a: OnboardingData, b: OnboardingData, c: OnboardingData)
    ensures Merge(Merge(a, b), c) == Merge(a, Merge(b, c))
  {
  }

  predicate IsDigit(c: char) { '0' <= c <= '9' }

  function DigitValue(c: char): nat
    requires IsDigit(c)
  {
    (c as int) - ('0' as int)
  }

  function TwoDigits(a: char, b: char): nat
    requires IsDigit(a) && IsDigit(b)
  {
    10 * DigitValue(a) + DigitValue(b)
  }

  predicate IsLeapYear(y: nat)
  {
    y % 4 == 0 && (y % 100 != 0 || y % 400 == 0)
  }

  function DaysInMonth(y: nat, m: nat): nat
    requires 1 <= m <= 12
  {
    if m == 2 then (if IsLeapYear(y) then 29 else 28)
    else if m == 4 || m == 6 || m == 9 || m == 11 then 30
    else 31
  }

  /** A calendar date in the extended form YYYY-MM-DD of ISO 8601
      (section 5.2.1.1 of ISO 8601:2004), as `toISOString().split("T")[0]`
      yields it for four-digit years of the proleptic Gregorian calendar. */
  predicate IsCalendarDate(s: string)
  {
    && |s| == 10
    && IsDigit(s[0]) && IsDigit(s[1]) && IsDigit(s[2]) && IsDigit(s[3])
    && s[4] == '-'
    && IsDigit(s[5]) && IsDigit(s[6])
    && s[7] == '-'
    && IsDigit(s[8]) && IsDigit(s[9])
    && var year := 100 * TwoDigits(s[0], s[1]) + TwoDigits(s[2], s[3]);
       var month := TwoDigits(s[5], s[6]);
       var day := TwoDigits(s[8], s[9]);
       1 <= month <= 12 && 1 <= day <= DaysInMonth(year, month)
  }

  type IsoDate = s: string | IsCalendarDate(s) witness "2000-01-01"
}
