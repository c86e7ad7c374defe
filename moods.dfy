/** The client's data types (src/types/mood.ts): the six moods of `MoodType` and `moodConfig`, the
    mood and journal entries the client keeps, and the user's preferences. */
module Moods {
  import opened Common

  datatype MoodType = Happy | Neutral | Stressed | Anxious | Tired | Angry

  /** The moods in the order of `moodConfig`, which is also the order the summary counts them in. */
  const AllMoods: seq<MoodType> := [Happy, Neutral, Stressed, Anxious, Tired, Angry]

  /** The wire name of a mood. */
  function MoodName(m: MoodType): string
  {
    match m
    case Happy => "happy"
    case Neutral => "neutral"
    case Stressed => "stressed"
    case Anxious => "anxious"
    case Tired => "tired"
    case Angry => "angry"
  }

  /** The valid mood names, as the server's `validMoods` lists them. */
  const MoodNames: seq<string> := ["happy", "neutral", "stressed", "anxious", "tired", "angry"]

  /** Reads a wire name back; anything other than the six names is not a mood. */
  function ParseMood(name: string): (m: Option<MoodType>)
    ensures m.Some? <==> name in MoodNames
    ensures m.Some? ==> MoodName(m.value) == name
  {
    if name == "happy" then Some(Happy)
    else if name == "neutral" then Some(Neutral)
    else if name == "stressed" then Some(Stressed)
    else if name == "anxious" then Some(Anxious)
    else if name == "tired" then Some(Tired)
    else if name == "angry" then Some(Angry)
    else None
  }

  /** Every mood is listed once, and its name is a valid one that reads back as the same mood. */
  lemma MoodNamesRoundTrip(m: MoodType)
    ensures m in AllMoods && MoodName(m) in MoodNames
    ensures ParseMood(MoodName(m)) == Some(m)
  {
  }

  lemma AllMoodsDistinct()
    ensures |AllMoods| == 6
    ensures forall i, j :: 0 <= i < j < |AllMoods| ==> AllMoods[i] != AllMoods[j]
    ensures forall i :: 0 <= i < |AllMoods| ==> MoodNames[i] == MoodName(AllMoods[i])
  {
  }

  /** A mood entry (`MoodEntry`). Dates are day numbers, so that "the same calendar day" is equality;
      the time of day is kept as the text the app shows. */
  datatype MoodEntry = MoodEntry(id: string, day: int, time: string, mood: MoodType, note: Option<string>)

  /** A journal entry (`JournalEntry`), dated by its day number like a mood entry. */
  datatype JournalEntry = JournalEntry(id: string, day: int, prompt: string, content: string)

  /** The preferences gathered by onboarding and edited on the profile page (`UserPreferences`);
      the study level and the stress source are kept as the option values the forms submit. */
  datatype UserPreferences = UserPreferences(name: Option<string>, studyLevel: Option<string>,
                                             stressSource: Option<string>, hasCompletedOnboarding: bool)
}
