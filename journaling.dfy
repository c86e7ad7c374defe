/** The journal card (src/components/Journaling.tsx): a rotating writing prompt, the text typed
    against it, the save guard and today's entry. The random prompt pick is a parameter, the
    sequence of indices `Math.random` would produce. */
module Journaling {
  import opened Common
  import opened Text
  import opened Moods

  /** The `prompts` list (lines 16-25). */
  const Prompts: seq<string> := [
    "What went well today?",
    "What's worrying me most right now?",
    "What am I grateful for in this moment?",
    "What would make tomorrow better?",
    "How can I show myself kindness today?",
    "What's one small win I can celebrate?",
    "What's draining my energy, and what could help?",
    "If I could tell my stressed self one thing, what would it be?"
  ]

  /** The prompts are eight different questions, so another prompt always exists. */
  lemma PromptsDistinct()
    ensures |Prompts| == 8
    ensures forall i, j :: 0 <= i < j < |Prompts| ==> Prompts[i] != Prompts[j]
  {
  }

  /** What `handleSave` passes to `onSave`: a journal entry without its id. */
  datatype Draft = Draft(day: int, prompt: string, content: string)

  /** `todayEntry` (lines 59-61): the first entry written today. */
  function TodayEntry(entries: seq<JournalEntry>, today: int): (r: Option<JournalEntry>)
    ensures r.None? <==> forall i :: 0 <= i < |entries| ==> entries[i].day != today
    ensures r.Some? ==> exists i :: 0 <= i < |entries| && entries[i] == r.value && r.value.day == today &&
                                   forall j :: 0 <= j < i ==> entries[j].day != today
  {
    FindFirst(entries, (e: JournalEntry) => e.day == today)
  }

  /** Some draw names a prompt other than `current`. */
  ghost predicate SomeOtherDraw(draws: seq<nat>, current: string, from: nat)
  {
    exists k :: from <= k < |draws| && draws[k] < |Prompts| && Prompts[draws[k]] != current
  }

  class JournalingCard {
    var currentPrompt: string
    var content: string
    var isSaved: bool

    ghost predicate Valid()
      reads this
    {
      currentPrompt in Prompts
    }

    constructor ()
      ensures currentPrompt == Prompts[0] && content == "" && !isSaved && Valid()
    {
      currentPrompt, content, isSaved := Prompts[0], "", false;
    }

    /** Typing in the text area. */
    method SetContent(text: string)
      modifies this`content
      ensures content == text
    {
      content := text;
    }

    /** `getNewPrompt` (lines 32-40): draws until a prompt other than the current one comes up,
        takes it, and clears the text and the saved flag. `draws` are the random indices in the
        order they are drawn; some draw differs from the current prompt. */
    method GetNewPrompt(draws: seq<nat>)
      requires Valid()
      requires forall k :: 0 <= k < |draws| ==> draws[k] < |Prompts|
      requires SomeOtherDraw(draws, currentPrompt, 0)
      modifies this
      ensures currentPrompt != old(currentPrompt) && Valid()
      ensures exists k :: 0 <= k < |draws| && currentPrompt == Prompts[draws[k]] &&
                          forall j :: 0 <= j < k ==> Prompts[draws[j]] == old(currentPrompt)
      ensures content == "" && !isSaved
    {
      var current := currentPrompt;
      var newPrompt := current;
      var k := 0;
      while newPrompt == current
        invariant 0 <= k <= |draws|
        invariant forall j :: 0 <= j < k && (newPrompt == current || j < k - 1) ==> Prompts[draws[j]] == current
        invariant newPrompt == current ==> SomeOtherDraw(draws, current, k)
        invariant newPrompt != current ==> 0 < k && newPrompt == Prompts[draws[k - 1]]
        decreases |draws| - k, if newPrompt == current then 1 else 0
      {
        newPrompt := Prompts[draws[k]];
        k := k + 1;
      }
      currentPrompt := newPrompt;
      content := "";
      isSaved := false;
    }

    /** `handleSave` (lines 42-57) on day `today`, up to its timer: nothing happens for blank text;
        otherwise the current prompt and the trimmed text are handed to `onSave` and the card shows
        that it saved. */
    method HandleSave(today: int) returns (saved: Option<Draft>)
      modifies this`isSaved
      ensures AllWhitespace(content) ==> saved.None? && isSaved == old(isSaved)
      ensures !AllWhitespace(content) ==> saved == Some(Draft(today, currentPrompt, Trim(content))) && isSaved
    {
      var trimmed := Trim(content);
      if trimmed == "" {
        return None;
      }
      saved := Some(Draft(today, currentPrompt, trimmed));
      isSaved := true;
    }
  }
}
