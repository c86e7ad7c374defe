/** The mood check-in form (src/components/MoodSelector.tsx): one of the six moods, an optional
    note, and a submit that hands them on and resets the form. */
module MoodSelector {
  import opened Common
  import opened Text
  import opened Moods

  /** The arguments of `onSubmit`. */
  datatype Submission = Submission(mood: MoodType, note: Option<string>)

  /** The buttons (line 42) list the keys of `moodConfig`, which are exactly the six moods, each
      once. */
  lemma SelectableMoods(m: MoodType)
    ensures m in AllMoods && |AllMoods| == 6
    ensures forall i, j :: 0 <= i < j < |AllMoods| ==> AllMoods[i] != AllMoods[j]
  {
    AllMoodsDistinct();
  }

  class MoodForm {
    var selectedMood: Option<MoodType>
    var note: string
    var isSubmitting: bool

    constructor ()
      ensures selectedMood.None? && note == "" && !isSubmitting
    {
      selectedMood, note, isSubmitting := None, "", false;
    }

    /** A mood button (line 45): the `k`-th entry of `moodConfig` becomes the selection. */
    method SelectMood(k: nat)
      requires k < |AllMoods|
      modifies this`selectedMood
      ensures selectedMood == Some(AllMoods[k])
    {
      selectedMood := Some(AllMoods[k]);
    }

    /** Typing in the note field. */
    method SetNote(text: string)
      modifies this`note
      ensures note == text
    {
      note := text;
    }

    /** `handleSubmit` (lines 17-28), with its animation delay left out: nothing happens without a
        selection; otherwise `onSubmit` gets the mood and the trimmed note, or none for a blank
        note, while the form is marked as submitting, and the form is then cleared. `submitted` is
        the call made, and `busyDuringCall` the `isSubmitting` flag at that moment. */
    method HandleSubmit() returns (submitted: Option<Submission>, busyDuringCall: bool)
      modifies this
      ensures old(selectedMood).None? ==>
                submitted.None? && selectedMood.None? && note == old(note) && isSubmitting == old(isSubmitting)
      ensures old(selectedMood).Some? ==>
                submitted == Some(Submission(old(selectedMood).value, TrimmedOrNone(old(note)))) &&
                busyDuringCall && selectedMood.None? && note == "" && !isSubmitting
    {
      if selectedMood.None? {
        return None, false;
      }
      isSubmitting := true;
      submitted := Some(Submission(selectedMood.value, TrimmedOrNone(note)));
      busyDuringCall := isSubmitting;
      selectedMood := None;
      note := "";
      isSubmitting := false;
    }
  }
}
