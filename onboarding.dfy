/** The first-run questionnaire (src/components/Onboarding.tsx): a fixed sequence of screens, the
    name, study level and stress source it collects, and the preferences it hands on at the end. */
module Onboarding {
  import opened Common
  import opened Text
  import opened Moods

  /** The `Step` type (line 12); `Complete` is declared but no button leads to it. */
  datatype Step = Welcome | Disclaimer | Name | Level | Stress | Complete

  /** The option values of the `studyLevels` and `stressSources` lists (lines 29-40). */
  const StudyLevels: seq<string> := ["high-school", "undergraduate", "graduate", "other"]
  const StressSources: seq<string> := ["academics", "personal", "both"]

  /** The screen a Continue or Skip button leads to; the stress screen's buttons finish instead. */
  function NextStep(s: Step): Option<Step>
  {
    match s
    case Welcome => Some(Disclaimer)
    case Disclaimer => Some(Name)
    case Name => Some(Level)
    case Level => Some(Stress)
    case Stress => None
    case Complete => None
  }

  /** The position of a screen in the order the user sees them. */
  function Position(s: Step): nat
  {
    match s
    case Welcome => 0
    case Disclaimer => 1
    case Name => 2
    case Level => 3
    case Stress => 4
    case Complete => 5
  }

  /** The screens follow one another in the order welcome, disclaimer, name, level, stress, each
      button moving one screen on, and no button ever leads to `Complete`. */
  lemma StepOrder(s: Step)
    ensures NextStep(s).Some? ==> Position(NextStep(s).value) == Position(s) + 1
    ensures NextStep(s).Some? ==> NextStep(s).value != Complete
    ensures NextStep(s).None? <==> s == Stress || s == Complete
  {
  }

  /** The object `handleComplete` (lines 20-27) passes to `onComplete`: the trimmed name, or none
      when it is blank, the selections as they are, and onboarding marked as done. */
  function CompletedPreferences(name: string, studyLevel: Option<string>, stressSource: Option<string>)
    : (p: UserPreferences)
    ensures p.name.None? <==> AllWhitespace(name)
    ensures p.name.Some? ==> p.name.value == Trim(name) && p.name.value != ""
    ensures p.studyLevel == studyLevel && p.stressSource == stressSource && p.hasCompletedOnboarding
  {
    UserPreferences(TrimmedOrNone(name), studyLevel, stressSource, true)
  }

  class OnboardingForm {
    var step: Step
    var name: string
    var studyLevel: Option<string>
    var stressSource: Option<string>

    /** The screens the buttons can reach, and selections taken from the option lists. */
    ghost predicate Valid()
      reads this
    {
      step != Complete &&
      (studyLevel.Some? ==> studyLevel.value in StudyLevels) &&
      (stressSource.Some? ==> stressSource.value in StressSources)
    }

    constructor ()
      ensures step == Welcome && name == "" && studyLevel.None? && stressSource.None? && Valid()
    {
      step, name, studyLevel, stressSource := Welcome, "", None, None;
    }

    /** The Continue and Skip buttons of the first four screens (lines 64, 105, 128-131, 165-168):
        both move to the next screen and leave the answers as they are. */
    method Advance()
      requires Valid() && NextStep(step).Some?
      modifies this`step
      ensures step == NextStep(old(step)).value && Position(step) == Position(old(step)) + 1
      ensures Valid()
    {
      step := NextStep(step).value;
    }

    /** Typing in the name field (line 122). */
    method SetName(text: string)
      modifies this`name
      ensures name == text
    {
      name := text;
    }

    /** Clicking a study level (line 150): replaces any earlier choice. */
    method SelectStudyLevel(k: nat)
      requires Valid() && k < |StudyLevels|
      modifies this`studyLevel
      ensures studyLevel == Some(StudyLevels[k]) && Valid()
    {
      studyLevel := Some(StudyLevels[k]);
    }

    /** Clicking a stress source (line 187): replaces any earlier choice. */
    method SelectStressSource(k: nat)
      requires Valid() && k < |StressSources|
      modifies this`stressSource
      ensures stressSource == Some(StressSources[k]) && Valid()
    {
      stressSource := Some(StressSources[k]);
    }

    /** The Skip and Complete buttons of the stress screen (lines 207-210), which call
        `handleComplete` alike: the preferences handed to `onComplete`. */
    method HandleComplete() returns (prefs: UserPreferences)
      ensures prefs.name.None? <==> AllWhitespace(name)
      ensures prefs.name.Some? ==> prefs.name.value == Trim(name)
      ensures prefs.studyLevel == studyLevel && prefs.stressSource == stressSource
      ensures prefs.hasCompletedOnboarding
    {
      prefs := CompletedPreferences(name, studyLevel, stressSource);
    }
  }
}
