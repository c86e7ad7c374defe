# MindMate core, modelled in Dafny

MindMate is a student wellbeing app. It has a React client (mood check-ins, a journal, breathing
and grounding exercises, a streamed support chat) and an Express/Mongoose server that stores moods
and journal entries. This project models the decision logic of that core and proves what it
promises:

- **Support chat.** The centre of the model is the incremental decoder of the newline-delimited
  `data: ` event stream in `streamChat`. The text arrives in chunks and is kept in a buffer.
  Complete lines are cut off the front of the buffer. A line that does not parse is put back and
  the pass stops. At the end of the stream the rest of the buffer is flushed.
  - `SupportChat.ChatPanel.StreamChat` proves the headline property: the reply shown is the
    in-order concatenation of what every `\n`-separated line of the whole stream text adds.
    That includes the unterminated last segment, so the reply does not depend on where the chunk
    boundaries fall.
  - The invariant behind the proof is `Agrees`. Two decoder states agree when what they have
    shown plus what their complete lines settle is the same, and their unterminated segments are
    equal.
  - The JSON parse of a payload and its `choices[0].delta.content` lookup are one arbitrary
    deterministic function, the parameter `parse`.
- **Breathing and grounding exercises.** The breathing exercise is a phase table, a cyclic phase
  order that skips empty phases, and a one-second countdown. The 5-4-3-2-1 grounding exercise is a
  stepper through the five senses.
- **Mood history.** The card shows the last seven days and a weekly summary: counts, the maximum,
  and the tie-break by mood order, which comes from the stable sort.
- **Utility functions.** The time-of-day greeting, with a table whose last range wraps past
  midnight. The week-day names. The mood statistics, with the percentage rounded half-up in
  integers. The e-mail and password validators.
- **Home screen.** Its local lists: one mood per day, journal entries put in front, and the
  history slice.
- **Server controllers.** The mood and journal controllers run over a store that is a sequence of
  records. The model covers:
  - the validation that comes before storing;
  - the ownership guard, whose existence check comes before the owner check;
  - the updates and deletes that follow the guard;
  - the statistics.
- **Small forms.** The onboarding, journaling, mood-selector, profile and sign-in forms are
  modelled as classes whose methods are their event handlers.

Every component whose state the source changes in place is a `class` with `modifies` clauses.
Pure helpers are functions with lemmas. JavaScript's array and string built-ins are modelled in
`Common`, `Text` and `Sorting`:
- `filter`, `find` and `reduce`;
- `trim`, `indexOf`, `split` on a character, and `split(/\s+/)`;
- `sort` with a descending numeric comparator, which is stable.

In these places the code does something other than its names suggest, and the model follows the code:
- `[DONE]` is not a session terminator. In the stream it only ends the current pass over the
  buffer. The final flush skips it, so frames after it are still shown
  (`SupportChat.DrainLines`, `SupportChat.FlushBuffer`).
- `updateMood` does not check the mood against the six names: `findByIdAndUpdate` runs no schema
  validators (`MoodController.UpdateSkipsValidation`).
- Fields an update request omits are left unchanged (`MoodController.Patched`,
  `JournalController.JournalStore.UpdateEntry`). This assumes the
  object-document mapper drops `undefined` fields from the update; see "## Left out".
- The `lastEntry` of both statistics handlers is the first of the user's records in store order,
  not the newest, because the query is not sorted. This assumes an unsorted `find` returns records
  in insertion order; see "## Left out".

## Model

| member | source | states |
|---|---|---|
| SupportChat.StripCR | src/components/SupportChat.tsx:84 | a line ending in a carriage return loses exactly that one character; any other line is unchanged |
| SupportChat.Partial | src/components/SupportChat.tsx:79-82 | the part of the buffer that waits for more text is what follows the last newline and holds no newline |
| SupportChat.LineDeltaEmits | src/components/SupportChat.tsx:84-101 | a line adds text exactly when, after stripping the carriage return, it starts with `data: `, its trimmed payload is not `[DONE]`, and the parser returns a non-empty content string; the text added is then that string |
| SupportChat.DataLineNotBlank | src/components/SupportChat.tsx:85-86 | a line with the `data: ` prefix is neither a comment nor blank, so only the prefix test decides it |
| SupportChat.CutAt | src/components/SupportChat.tsx:80-82 | a buffer whose first newline is at `i` is the line before it, the newline and the rest, which is what the two slices keep |
| SupportChat.SplitAppend | src/components/SupportChat.tsx:77 | appending a chunk keeps the lines already complete and extends only the unterminated segment |
| SupportChat.SettledAppend | src/components/SupportChat.tsx:77 | what the complete lines add after an append is what they added before plus what the old segment and the new text complete |
| SupportChat.SettledFirstLine | src/components/SupportChat.tsx:80-82 | cutting the first line off a buffer settles that line's text and leaves the rest of the buffer to settle the remainder |
| SupportChat.EmittedIsSettledPlusPartial | src/components/SupportChat.tsx:73-131 | the reply to a whole text is what its complete lines add followed by what its last segment adds |
| SupportChat.AgreesFinal | src/components/SupportChat.tsx:73-131 | two agreeing decoder states produce the same reply from the rest of the stream |
| SupportChat.AgreesExtend | src/components/SupportChat.tsx:77 | appending the same chunk to both buffers keeps two decoder states in agreement |
| SupportChat.AgreesCutLine | src/components/SupportChat.tsx:80-101 | cutting a complete line off and appending what it adds keeps the decoder in agreement with where it started |
| SupportChat.AgreesRebuffer | src/components/SupportChat.tsx:102-105 | putting a line that does not parse back in front of the buffer, without its carriage return, keeps the decoder in agreement |
| SupportChat.RebufferedLineEmitsNothing | src/components/SupportChat.tsx:102-105 | a line that was put back still adds nothing once cut off again |
| SupportChat.MalformedWithoutCR | src/components/SupportChat.tsx:84-103 | stripping a carriage return again does not change a line that failed to parse |
| SupportChat.DataPrefixKept | src/components/SupportChat.tsx:84-88 | stripping a carriage return keeps the `data: ` prefix and the trimmed payload of a data line |
| SupportChat.DeltasAppend | src/components/SupportChat.tsx:79-106 | the text added by two runs of lines is the text of the first followed by the text of the second |
| SupportChat.WhitespaceEmitsNothing | src/components/SupportChat.tsx:110 | a buffer made only of whitespace adds nothing, so skipping the flush for it loses nothing |
| SupportChat.BlankLinesEmitNothing | src/components/SupportChat.tsx:85 | lines made only of whitespace add nothing |
| SupportChat.DrainLines | src/components/SupportChat.tsx:79-106 | the inner loop, with its early exits at `[DONE]` and at a line that does not parse, leaves the decoder in agreement with the state it started from |
| SupportChat.FlushBuffer | src/components/SupportChat.tsx:110-131 | the final flush adds exactly the text every line of the buffer adds, the unterminated one included; lines that do not parse add nothing |
| SupportChat.FlushLine | src/components/SupportChat.tsx:111-130 | one line of the flush adds what the per-line classification gives: nothing for empty, comment, blank, non-data, `[DONE]` and unparsable lines |
| SupportChat.DeltasSnoc | src/components/SupportChat.tsx:111-130 | the flush's text after one more line is the text so far followed by that line's text |
| SupportChat.AgreesTrans | src/components/SupportChat.tsx:73-107 | agreement carries over from one pass of the inner loop to the next |
| SupportChat.ConcatSnoc | src/components/SupportChat.tsx:73-77 | the stream text after one more read is the text so far followed by the chunk |
| SupportChat.DecodedSoFar | src/components/SupportChat.tsx:73-131 | while the stream is read, the reply shown so far is a prefix of the reply to everything read, and flushing the buffer completes it |
| SupportChat.RefusalMessage | src/components/SupportChat.tsx:60-63 | a refused request throws the response's `error` field when it is a non-empty string, and the fixed connection message otherwise; the message is never empty |
| SupportChat.ReplaceLast | src/components/SupportChat.tsx:96-100 | the update has as many messages, keeps every message but the last and puts the new one last |
| SupportChat.SubmittedText | src/components/SupportChat.tsx:135 | the explicit text is sent when non-empty, otherwise the trimmed input; the text is empty exactly when there is no explicit text and the input is blank |
| SupportChat.ChatPanel.StreamChat | src/components/SupportChat.tsx:45-132 | refused: nothing is added and the refusal message is thrown; streamed to the end: one assistant message is added, holding the concatenated text of every line of the whole stream, whatever the chunks; failed while reading: the assistant message holds a prefix of that text and earlier messages are unchanged |
| SupportChat.ChatPanel.SendMessage | src/components/SupportChat.tsx:134-143 | nothing changes for an empty text or while loading; otherwise the user's message is appended, the input cleared and loading started |
| SupportChat.ChatPanel.ReceiveReply | src/components/SupportChat.tsx:145-153 | after a full stream the reply is appended; after a failure the error is recorded and every empty message removed; loading ends in every case |
| Breathing.PhaseIndex | src/components/BreathingExercise.tsx:42-43 | every phase occurs exactly once in the order |
| Breathing.NextPhaseUnique | src/components/BreathingExercise.tsx:41-52 | at most one phase is the next one after a phase |
| Breathing.GetNextPhase | src/components/BreathingExercise.tsx:41-52 | the result is the first phase after the given one, going round the order, whose duration is positive; every phase it passes over lasts zero seconds |
| Breathing.CalmCycle | src/components/BreathingExercise.tsx:14-23 | in the 4-4-6 exercise, whose rest lasts zero seconds, inhaling follows exhaling, and hold and exhale follow in order |
| Breathing.BoxCycle | src/components/BreathingExercise.tsx:14-23 | in box breathing each phase is followed by the next in order, and resting by inhaling |
| Breathing.BreathingTimer.constructor | src/components/BreathingExercise.tsx:33-37 | the timer starts stopped on the 4-4-6 exercise, inhaling, with countdown and cycles at 0 |
| Breathing.BreathingTimer.SelectExercise | src/components/BreathingExercise.tsx:113-118 | the exercise changes only while stopped |
| Breathing.BreathingTimer.Start | src/components/BreathingExercise.tsx:54-59 | running, inhaling, the countdown at the inhale duration, no cycles |
| Breathing.BreathingTimer.Stop | src/components/BreathingExercise.tsx:61-66 | stopped, inhaling, countdown and cycles at 0 |
| Breathing.BreathingTimer.Tick | src/components/BreathingExercise.tsx:71-84 | a countdown above 1 goes down by one; otherwise the next phase starts with its full duration; a cycle is counted exactly when the tick moves into inhaling; the countdown stays between 1 and the phase's duration |
| Grounding.SenseIds | src/components/GroundingExercise.tsx:11-17 | the ids of the first `k` senses, in the table's order |
| Grounding.CountsDescend | src/components/GroundingExercise.tsx:11-17 | the senses ask for 5, 4, 3, 2 and 1 things |
| Grounding.GroundingExercise.constructor | src/components/GroundingExercise.tsx:19-21 | step 0, nothing done, not started |
| Grounding.GroundingExercise.Begin | src/components/GroundingExercise.tsx:56 | the exercise is started |
| Grounding.GroundingExercise.HandleComplete | src/components/GroundingExercise.tsx:24-31 | the current sense's id is recorded and the step moves on unless it is the last; after `k` completions the record is the first `k` ids and the step is `min(k, 4)` |
| Grounding.GroundingExercise.Reset | src/components/GroundingExercise.tsx:33-37 | step 0, nothing recorded, not started |
| Grounding.CompleteMeansAllSenses | src/components/GroundingExercise.tsx:39 | once complete, all five senses are recorded in order and the step rests on the last |
| Grounding.CurrentStepInRange | src/components/GroundingExercise.tsx:28-30 | the step always names a sense, and it is the next one to do while the exercise is not complete |
| MoodHistory.Last7Days | src/components/MoodHistory.tsx:14-20 | seven consecutive days, from six days ago up to today |
| MoodHistory.GetMoodForDay | src/components/MoodHistory.tsx:22-24 | the first entry of that day, and none exactly when no entry is of that day |
| MoodHistory.Window | src/components/MoodHistory.tsx:36 | only the first seven entries are counted |
| MoodHistory.CountsSum | src/components/MoodHistory.tsx:27-38 | the six counts add up to the number of entries counted |
| MoodHistory.CountMoods | src/components/MoodHistory.tsx:27-38 | every mood is counted with the number of its entries among the first seven |
| MoodHistory.Pairs | src/components/MoodHistory.tsx:40 | the pairs list every mood once, in the order of the moods, with its count |
| MoodHistory.MoodSummary | src/components/MoodHistory.tsx:26-45 | none exactly when there are no entries; otherwise the pair of the first mood, in mood order, whose count is the largest |
| MoodHistory.SummaryIsFirstMax | src/components/MoodHistory.tsx:40-43 | after the stable sort and the filter, the list is empty exactly when nothing was counted, and otherwise starts with the first largest pair |
| MoodHistory.PairsFirstMax | src/components/MoodHistory.tsx:40-41 | the first largest pair is the pair of the first mood with the largest count |
| MoodHistory.EmptyWindowNoPositive | src/components/MoodHistory.tsx:42 | with no entries the filter keeps no pair |
| MoodHistory.PositiveHead | src/components/MoodHistory.tsx:41-42 | with some entry the filter keeps the first largest pair as its head |
| Helpers.ExactlyOneRange | src/constants/index.ts:42-47 | every hour from 0 to 23 is in exactly one range of the greeting table, the one its time of day names |
| Helpers.Salute | src/utils/helpers.ts:21 | a name is added only when it is a non-empty string |
| Helpers.GetGreeting | src/utils/helpers.ts:3-22 | the greeting of the time of day the hour falls in, so the fallback `'day'` is never used; wrapping ranges are checked as wrapping |
| Helpers.DayNameSuccessor | src/utils/helpers.ts:44-56 | the name of the next day is the cyclic successor of today's name |
| Helpers.GetWeekDays | src/utils/helpers.ts:44-56 | seven names, the last today's, each the cyclic successor of the one before |
| Helpers.DominantIsFirstMax | src/utils/helpers.ts:62 | the dominant mood is the first key in `Object.entries` order with the largest count, or `'neutral'` when there is none or that key is empty |
| Helpers.EntriesOrderPermutation | src/utils/helpers.ts:62 | `Object.entries` lists the entries of the record and no others, each as often as it occurs (a multiset permutation) |
| Helpers.EntriesOrderIndicesFirst | src/utils/helpers.ts:62 | `Object.entries` lists the array-index keys before all others, in ascending numeric order |
| Helpers.EntriesOrderPlain | src/utils/helpers.ts:62 | a record with no array-index key is listed in insertion order |
| Helpers.DominantIndexKeyFirst | src/utils/helpers.ts:62 | for `{happy: 2, "1": 2}` the dominant is `"1"`, an array-index key that wins the tie with a key added before it |
| Helpers.RoundHalfUp | src/utils/helpers.ts:63 | the integer nearest to the quotient, halves rounded up |
| Helpers.Percentage | src/utils/helpers.ts:63 | 0 when the total is 0; otherwise undefined for a mood with no count, and its share of the total in percent, rounded half-up |
| Helpers.LookupBelowTotal | src/utils/helpers.ts:59 | every count is at most the total |
| Helpers.PercentageAtMost100 | src/utils/helpers.ts:63 | a percentage is at most 100 |
| Helpers.GetMoodStats | src/utils/helpers.ts:58-65 | the total is the sum of the counts and the dominant mood is `'neutral'` when there are none |
| Helpers.ValidateEmailMatchesPattern | src/utils/helpers.ts:67-69 | `validateEmail`, computed as no whitespace, one `@` with something before it, and a `.` after it that is neither first nor last, accepts exactly the strings the regular expression matches |
| Helpers.PatternFromCheck | src/utils/helpers.ts:68 | every string the check accepts matches the regular expression |
| Helpers.CheckFromPattern | src/utils/helpers.ts:68 | every string the regular expression matches is accepted by the check |
| Helpers.SplitPlain | src/utils/helpers.ts:68 | a match of the regular expression has no whitespace and no `@` other than its separator |
| Helpers.Utf16Length | src/utils/helpers.ts:72 | the `length` of a string is its number of characters plus one for each character outside the Basic Multilingual Plane, so it equals the character count when there is none, and lies between that count and twice it |
| Helpers.Utf16LengthAppend | src/utils/helpers.ts:72 | the `length` of a concatenation is the sum of the lengths |
| Helpers.ValidatePassword | src/utils/helpers.ts:71-76 | valid exactly when the length is at least 6; otherwise the fixed error |
| Helpers.PasswordLengthBounds | src/utils/helpers.ts:72 | six characters always pass and fewer than three never do |
| Dashboard.TodaysMood | src/components/Dashboard.tsx:36 | the first entry dated today, none exactly when there is none |
| Dashboard.SubmitMoodReplacesToday | src/components/Dashboard.tsx:48 | the new entry comes first and is the only one dated today; the entries of other days keep their order, and no other entry is added |
| Dashboard.SubmitMoodOnePerDay | src/components/Dashboard.tsx:48 | submitting keeps at most one entry per day |
| Dashboard.FilterOnePerDay | src/components/Dashboard.tsx:48 | removing entries keeps at most one entry per day |
| Dashboard.RemoveTodaysMood | src/components/Dashboard.tsx:123-125 | exactly the entries with today's entry's id go, so the list shrinks; with one entry per day none is dated today afterwards |
| Dashboard.RecentCheckIns | src/components/Dashboard.tsx:210 | the first ten entries, or all when there are fewer |
| Dashboard.GetGreeting | src/components/Dashboard.tsx:306-315 | morning before 12, afternoon before 17, evening otherwise; `", name"` only for a non-empty name; never `'Hello'` |
| Dashboard.DashboardState.HandleMoodSubmit | src/components/Dashboard.tsx:39-51 | the new entry replaces today's and is today's mood; one entry per day is kept; the success notice shows |
| Dashboard.DashboardState.UpdateMood | src/components/Dashboard.tsx:122-125 | today's entry is removed, so that with one entry per day no mood is left for today |
| Dashboard.DashboardState.HandleJournalSave | src/components/Dashboard.tsx:53-59 | one entry goes in front and the others are unchanged |
| Store.IndexOfId | server/controllers/moodController.js:38 | the position of a record with the id, none exactly when no record has it |
| Store.IndexOfUnique | server/controllers/moodController.js:38 | with unique ids the lookup finds the one record carrying the id |
| Store.Authorize | server/controllers/moodController.js:38-47 | not found exactly when no record has the id, forbidden when it belongs to someone else, owned when it is the requester's |
| Store.AuthorizeUnique | server/controllers/moodController.js:38-47 | an id nobody has is not found whoever asks; an existing record is the requester's or forbidden to them |
| Store.OwnedBy | server/controllers/moodController.js:104 | the query yields the requester's records and all of them |
| Store.RemoveAt | server/controllers/moodController.js:94 | deleting removes one record |
| Store.RemoveAtExactly | server/controllers/moodController.js:94 | deleting removes exactly the record with the id, keeps the others in order and keeps the ids unique |
| Store.ReplaceKeepsUnique | server/controllers/moodController.js:69-73 | replacing a record by one with the same id keeps the ids unique and changes no id |
| MoodController.BumpLookup | server/controllers/moodController.js:113 | counting a mood adds one to its count, or lists it with one, and changes no other count |
| MoodController.BumpSame | server/controllers/moodController.js:113 | counting a mood adds one to that mood's count |
| MoodController.BumpOther | server/controllers/moodController.js:113 | counting a mood leaves every other count unchanged |
| MoodController.BumpSum | server/controllers/moodController.js:113 | counting a mood adds one to the sum of the counts |
| MoodController.BumpShape | server/controllers/moodController.js:113 | counting keeps the keys distinct and every count positive |
| MoodController.TallyShape | server/controllers/moodController.js:112-114 | the tally's keys are distinct, its counts positive, and they add up to the number of records |
| MoodController.TallyCount | server/controllers/moodController.js:112-114 | the tally lists a mood exactly when it occurs, with its number of occurrences (for mood names that are not `Object.prototype` members; see "## Left out") |
| MoodController.TallyStep | server/controllers/moodController.js:112-114 | the tally of one more record counts that record's mood |
| MoodController.TallyFacts | server/controllers/moodController.js:106-114 | the tally is a census of the records' moods |
| MoodController.MoodStore.CreateMood | server/controllers/moodController.js:3-24 | a mood outside the six names is refused with 400 and nothing is stored; otherwise the mood is stored for the requester under a fresh id and returned with 201 |
| MoodController.MoodStore.GetMoods | server/controllers/moodController.js:26-34 | the requester's moods, all of them and no others, newest first |
| MoodController.MoodStore.GetMoodById | server/controllers/moodController.js:36-53 | 404 for an id nobody has, 403 for someone else's mood, the mood otherwise |
| MoodController.MoodStore.UpdateMood | server/controllers/moodController.js:55-79 | 404 before 403 with the store unchanged; for the requester's mood only the fields given are replaced, and the updated record is returned |
| MoodController.MoodStore.DeleteMood | server/controllers/moodController.js:81-99 | 404 before 403 with the store unchanged; for the requester's mood exactly that record is removed |
| MoodController.MoodStore.GetMoodStats | server/controllers/moodController.js:102-120 | the number of the requester's moods, a census of their moods that sums to it (for mood names that are not `Object.prototype` members; see "## Left out"), and the first of them in store order or none |
| MoodController.Patched | server/controllers/moodController.js:69-73 | id, owner and date are kept; mood, note and time are replaced when given |
| MoodController.UpdateSkipsValidation | server/controllers/moodController.js:69-73 | an update can store a mood outside the six names, which creation refuses |
| JournalController.BlankContentMeans | server/controllers/journalController.js:7 | content is refused exactly when it is missing or only whitespace |
| JournalController.WordCount | server/controllers/journalController.js:110 | every stored content counts as at least one word |
| JournalController.TotalWordsCountsRuns | server/controllers/journalController.js:110 | each entry adds its number of maximal whitespace runs plus one, so the total is at least the number of entries |
| JournalController.RunsPlusOneSnoc | server/controllers/journalController.js:110 | one more entry adds its runs plus one |
| JournalController.JournalStore.CreateEntry | server/controllers/journalController.js:3-21 | blank content is refused with 400 and nothing is stored; otherwise the entry is stored for the requester with the content as sent and returned with 201 |
| JournalController.JournalStore.GetEntries | server/controllers/journalController.js:23-31 | the requester's entries, all of them and no others, newest first |
| JournalController.JournalStore.GetEntryById | server/controllers/journalController.js:33-50 | 404 for an id nobody has, 403 for someone else's entry, the entry otherwise |
| JournalController.JournalStore.UpdateEntry | server/controllers/journalController.js:52-80 | blank content is refused with 400 before the lookup; then 404 before 403 with the store unchanged; for the requester's entry the content, and the prompt when given, are replaced |
| JournalController.JournalStore.DeleteEntry | server/controllers/journalController.js:82-100 | 404 before 403 with the store unchanged; for the requester's entry exactly that entry is removed |
| JournalController.JournalStore.GetJournalStats | server/controllers/journalController.js:102-117 | the number of the requester's entries, the first of them in store order or none, and their word total, which is at least their number |
| Onboarding.StepOrder | src/components/Onboarding.tsx:12 | each button moves one screen on in the order welcome, disclaimer, name, level, stress, and none leads to `complete` |
| Onboarding.CompletedPreferences | src/components/Onboarding.tsx:20-27 | the name trimmed, or none when blank; the selections as they are; onboarding done |
| Onboarding.OnboardingForm.constructor | src/components/Onboarding.tsx:15-18 | the welcome screen with no answers |
| Onboarding.OnboardingForm.Advance | src/components/Onboarding.tsx:128-131 | Continue and Skip both move to the next screen and keep the answers |
| Onboarding.OnboardingForm.SetName | src/components/Onboarding.tsx:122 | the name is what was typed |
| Onboarding.OnboardingForm.SelectStudyLevel | src/components/Onboarding.tsx:150 | the chosen level replaces any earlier one |
| Onboarding.OnboardingForm.SelectStressSource | src/components/Onboarding.tsx:187 | the chosen source replaces any earlier one |
| Onboarding.OnboardingForm.HandleComplete | src/components/Onboarding.tsx:207-210 | both final buttons hand on the trimmed name, or none when blank, the selections, and onboarding done |
| Journaling.PromptsDistinct | src/components/Journaling.tsx:16-25 | eight different prompts |
| Journaling.TodayEntry | src/components/Journaling.tsx:59-61 | the first entry written today, none exactly when there is none |
| Journaling.JournalingCard.GetNewPrompt | src/components/Journaling.tsx:32-40 | the new prompt is the first draw that differs from the current one, the text is cleared and the card is not saved |
| Journaling.JournalingCard.HandleSave | src/components/Journaling.tsx:42-57 | nothing for blank text; otherwise the current prompt and the trimmed text are handed on and the card shows it saved |
| Journaling.JournalingCard.SetContent | src/components/Journaling.tsx:94 | the text is what was typed |
| MoodSelector.SelectableMoods | src/components/MoodSelector.tsx:42 | the buttons offer each of the six moods once |
| MoodSelector.MoodForm.SelectMood | src/components/MoodSelector.tsx:45 | the clicked mood becomes the selection |
| MoodSelector.MoodForm.HandleSubmit | src/components/MoodSelector.tsx:17-28 | nothing without a selection; otherwise the mood and the trimmed note, or none when blank, are handed on while the form is busy, and the form is cleared |
| Moods.ParseMood | server/models/Mood.js:9-13 | a name is read back exactly when it is one of the six, as the mood it names |
| Moods.MoodNamesRoundTrip | src/types/mood.ts:1 | every mood's name is valid and reads back as the same mood |
| Moods.AllMoodsDistinct | src/types/mood.ts:25 | six different moods, listed in the same order as their names |
| Profile.Chosen | src/pages/Profile.tsx:51-52 | a select value is sent only when it is non-empty and not `'not-specified'` |
| Profile.ProfilePreferences | src/pages/Profile.tsx:50-54 | the level and the stress source only when chosen; the onboarding flag carried over, false when missing |
| Profile.PasswordError | src/pages/Profile.tsx:70-78 | a mismatch is reported before the length; no error exactly when the two match and the password is valid |
| Profile.ProfileForm.constructor | src/pages/Profile.tsx:35-41 | the fields are filled from the user, missing values as empty fields |
| Profile.ProfileForm.HandleProfileUpdate | src/pages/Profile.tsx:43-63 | the name and the preferences are sent; success or the failure message is shown, the other message cleared; loading ends |
| Profile.ProfileForm.HandlePasswordChange | src/pages/Profile.tsx:65-95 | on a guard error the message is shown and no call made; otherwise the call is made, and on success the fields are cleared and the form hidden |
| Profile.ProfileForm.CancelPasswordChange | src/pages/Profile.tsx:297-302 | the three fields are cleared and the form hidden |
| SignIn.FailedToast | src/pages/SignIn.tsx:51-55 | the error's message when non-empty, the fixed one otherwise |
| SignIn.Precheck | src/pages/SignIn.tsx:22-38 | a blank field first, then an address the check refuses; nothing exactly when both fields are filled and the address matches |
| SignIn.SurroundingSpaceIsInvalid | src/pages/SignIn.tsx:31-38 | the address is checked as typed, so a valid address with a space around it is refused |
| SignIn.SignInForm.HandleSignIn | src/pages/SignIn.tsx:19-59 | an early exit makes no call; otherwise the trimmed address and the password as typed are sent, the outcome's notice and route follow, and loading ends |
| Sorting.Insert | src/utils/helpers.ts:62 | one element more, and the same elements |
| Sorting.InsertSorted | src/utils/helpers.ts:62 | inserting into a sorted list keeps it sorted and puts the element after every one whose key is at least its own |
| Sorting.SortDescSorted | src/utils/helpers.ts:62 | the sort puts its input in descending key order |
| Sorting.SortDescPermutation | src/utils/helpers.ts:62 | the sort rearranges its input |
| Sorting.SortDescHead | src/components/MoodHistory.tsx:41 | the first element after the sort is the first element with the largest key |
| Sorting.FirstMaxSnoc | src/components/MoodHistory.tsx:41 | appending keeps the first maximum unless the new key is larger |
| Sorting.FirstMaxUnique | src/components/MoodHistory.tsx:41 | there is one first maximum |
| Common.Filter | src/components/SupportChat.tsx:150 | the kept elements are those of the input that satisfy the test |
| Common.FilterAppend | src/components/Dashboard.tsx:48 | filtering a concatenation filters each part, in order |
| Common.FilterMultiset | src/components/SupportChat.tsx:150 | filtering keeps every occurrence of an element that passes and none of one that fails |
| Common.FindFirst | src/components/Dashboard.tsx:36 | the first element that passes, none exactly when none does |
| Common.SumAppend | src/utils/helpers.ts:59 | the sum of a concatenation is the sum of the sums |
| Common.Lookup | src/utils/helpers.ts:63 | a key's count, none exactly when the key is not listed |
| Text.TrimStart | src/pages/SignIn.tsx:22 | the suffix left once leading whitespace is dropped |
| Text.TrimEnd | src/pages/SignIn.tsx:22 | the prefix left once trailing whitespace is dropped |
| Text.Trim | src/pages/SignIn.tsx:22 | empty exactly when the string is all whitespace, and otherwise neither starting nor ending with whitespace |
| Text.TrimIsMiddle | src/pages/SignIn.tsx:22 | the trimmed string is the slice of the string between a leading and a trailing run of whitespace |
| Text.TrimmedOrNone | src/components/MoodSelector.tsx:24 | none exactly for blank text, otherwise the trimmed text |
| Text.IndexOf | src/components/SupportChat.tsx:80 | the first position of the character, -1 exactly when it is absent |
| Text.SplitPiecesLackSeparator | src/components/SupportChat.tsx:111 | no piece of a split holds the separator |
| Text.JoinSplit | src/components/SupportChat.tsx:111 | joining the pieces of a split gives back the string |
| Text.SplitJoin | src/components/SupportChat.tsx:111 | splitting a join of separator-free pieces gives back the pieces |
| Text.SplitFirst | src/components/SupportChat.tsx:80-82 | a piece followed by the separator is the first piece of the split |
| Text.SplitAllWhitespace | src/components/SupportChat.tsx:110 | the pieces of a whitespace text are whitespace |
| Text.SplitOnWhitespace | server/controllers/journalController.js:110 | at least one piece, and no piece holds whitespace |
| Text.SplitOnWhitespaceRebuilds | server/controllers/journalController.js:110 | the pieces joined back with a non-empty whitespace run between each two give the input, so the runs are the maximal ones and the pieces are those between them |
| Text.SplitOnWhitespaceCount | server/controllers/journalController.js:110 | one piece more than there are maximal whitespace runs |

## Left out

- Network I/O: `fetch`, the stream reader and `TextDecoder` are not modelled. A reply is a refusal or a sequence of already-decoded text chunks, optionally ending in a read failure.
- `JSON.parse` and the lookup of `choices[0].delta.content` are the parameter `parse`, an arbitrary deterministic function. Whether a content value is a string is part of what it returns.
- React batches state updates. The model makes one message-list update per chunk and one after the flush, which leaves the same final state.
- SupportChat.ChatPanel.ReceiveReply: every thrown value is modelled as an `Error` with a message, so the `'Something went wrong'` fallback for other thrown values is not modelled.
- Timers are not modelled: `setTimeout` message resets, the journal card's post-save reset and the mood selector's animation delay. The breathing interval is the method `Tick`, called once per second while running.
- `Math.random` is the `draws` parameter of `GetNewPrompt`: the indices the random draws produce.
- Journaling.JournalingCard.GetNewPrompt: requires that some draw differs from the current prompt. Without it the source's loop might never end.
- Dates and locale formatting are not modelled (date-fns, `toLocale…String`, `formatTime`, `formatDate`). A day is an integer key, so "the same day" is equality, and the week day is the key mod 7 with key 0 a Sunday. The hour of the day and the creation time are parameters.
- Floating point is not modelled. `Math.round(count / total * 100)` is integer half-up rounding of the exact share, so float rounding error is not captured. `getCircleScale` and its scale factors are not modelled.
- Helpers.Percentage: a key missing from the counts gives `NaN` in the source; the model returns none. Lookups of `Object.prototype` names such as `"toString"` are not modelled.
- Mongoose is not modelled: schema casting, ObjectId parsing, the 500 responses of the `catch` blocks, and non-string request fields. A request field is present or absent.
- Store ids are natural numbers handed out in order.
- MongoDB does not promise an order among records with equal dates. The model's sort is stable.
- MongoDB does not promise any order for a `find` without a sort. The model assumes insertion order, and the `lastEntry` of `getMoodStats` and `getJournalStats` (the first record in that order) relies on this assumption.
- MoodController.Patched: assumes that an update field the request omits is left unchanged. That holds when Mongoose drops `undefined` fields from an update, which depends on its version and settings.
- JournalController.JournalStore.UpdateEntry: assumes, like `Patched`, that an omitted `prompt` is left unchanged. This also depends on Mongoose dropping `undefined` fields from `findByIdAndUpdate`.
- MoodController.TallyCount: `byType` is a plain JavaScript object, and `stats.byType[m.mood] || 0` reads the members it inherits from `Object.prototype`. The model's tally counts every mood name the same way. In the source, a stored mood named after an inherited method, such as `"constructor"`, becomes that method's source text with `"1"` appended, not a count. A mood named `"__proto__"` is never listed, because assigning a number to `__proto__` is ignored. Such moods can be stored through `updateMood` (see `MoodController.UpdateSkipsValidation`). MoodController.TallyShape, MoodController.TallyStep and MoodController.TallyFacts are exact only for the other names.
- MoodController.MoodStore.GetMoodStats: the census of `byType` holds only for mood names that are not `Object.prototype` members, as under `TallyCount`. The model also states no order for `byType`. When it is serialised, keys that are array indices come first.
- Authentication, sessions and the route wiring are not modelled: the requester's id is a parameter. server/routes/moodRoutes.js:7-9 and server/routes/journalRoutes.js:7-9 expose only create, list and delete. So the by-id get, update and statistics handlers of both controllers, modelled here, are not reachable in the shipped server. src/contexts/AuthContext.tsx, src/components/ProtectedRoute.tsx, server/index.js and server/routes/ are not part of this model.
- The account and data services (src/services/index.ts) are not modelled. `signIn`, `updateProfile` and `changePassword` are replaced by their outcome, given as a parameter.
- Rendering is not modelled: src/pages/Landing.tsx, src/pages/Index.tsx, src/pages/Dashboard.tsx, src/components/EmergencyHelpButton.tsx and src/components/ui/button.tsx.
