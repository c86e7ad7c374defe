/** The home screen's local lists (src/components/Dashboard.tsx): one mood entry per day, journal
    entries prepended on save, the recent check-ins and the header greeting. The clock is a
    parameter: the current day number, the `HH:mm` time text and the `Date.now()` id. */
module Dashboard {
  import opened Common
  import opened Moods

  /** The filter `e => !isToday(new Date(e.date))`. */
  function NotOn(today: int): MoodEntry -> bool
  {
    (e: MoodEntry) => e.day != today
  }

  /** `todaysMood` (line 36): the first entry dated today. */
  function TodaysMood(entries: seq<MoodEntry>, today: int): (r: Option<MoodEntry>)
    ensures r.None? <==> forall i :: 0 <= i < |entries| ==> entries[i].day != today
    ensures r.Some? ==> exists i :: 0 <= i < |entries| && entries[i] == r.value && r.value.day == today &&
                                   forall j :: 0 <= j < i ==> entries[j].day != today
  {
    FindFirst(entries, (e: MoodEntry) => e.day == today)
  }

  /** The list `handleMoodSubmit` stores (line 48): the new entry, then every earlier entry not
      dated today. */
  function SubmitMood(entries: seq<MoodEntry>, entry: MoodEntry, today: int): seq<MoodEntry>
  {
    [entry] + Filter(entries, NotOn(today))
  }

  /** The list after "Update mood" (lines 123-125): every entry whose id differs from `id`. */
  function RemoveById(entries: seq<MoodEntry>, id: string): seq<MoodEntry>
  {
    Filter(entries, (e: MoodEntry) => e.id != id)
  }

  /** At most one entry for any day. */
  ghost predicate OnePerDay(entries: seq<MoodEntry>)
  {
    forall i, j :: 0 <= i < j < |entries| ==> entries[i].day != entries[j].day
  }

  /** A mood submitted today is the first entry and the only one dated today; the entries of other
      days are kept, in their original order, and none is added. */
  lemma SubmitMoodReplacesToday(entries: seq<MoodEntry>, entry: MoodEntry, today: int)
    requires entry.day == today
    ensures var r := SubmitMood(entries, entry, today);
            r[0] == entry &&
            (forall k :: 1 <= k < |r| ==> r[k].day != today) &&
            TodaysMood(r, today) == Some(entry) &&
            Filter(r, NotOn(today)) == Filter(entries, NotOn(today)) &&
            (forall e :: e in entries && e.day != today ==> e in r) &&
            (forall e :: e in r ==> e == entry || e in entries)
  {
    var kept := Filter(entries, NotOn(today));
    var r := SubmitMood(entries, entry, today);
    FilterAppend([entry], kept, NotOn(today));
    assert Filter([entry], NotOn(today)) == [];
    FilterAll(kept, NotOn(today));
    forall k | 1 <= k < |r| ensures r[k].day != today {
      assert r[k] == kept[k - 1];
    }
  }

  /** Submitting keeps the list at one entry per day. */
  lemma SubmitMoodOnePerDay(entries: seq<MoodEntry>, entry: MoodEntry, today: int)
    requires entry.day == today && OnePerDay(entries)
    ensures OnePerDay(SubmitMood(entries, entry, today))
  {
    var kept := Filter(entries, NotOn(today));
    FilterOnePerDay(entries, NotOn(today));
    var r := SubmitMood(entries, entry, today);
    forall i, j | 0 <= i < j < |r| ensures r[i].day != r[j].day {
      assert r[j] == kept[j - 1];
      if i > 0 {
        assert r[i] == kept[i - 1];
      }
    }
  }

  lemma {:induction false} FilterOnePerDay(s: seq<MoodEntry>, p: MoodEntry -> bool)
    requires OnePerDay(s)
    ensures OnePerDay(Filter(s, p))
  {
    if s != [] {
      var tail := s[1..];
      assert OnePerDay(tail) by {
        forall i, j | 0 <= i < j < |tail| ensures tail[i].day != tail[j].day {
          assert tail[i] == s[i + 1] && tail[j] == s[j + 1];
        }
      }
      FilterOnePerDay(tail, p);
      var rest := Filter(tail, p);
      forall k | 0 <= k < |rest| ensures rest[k].day != s[0].day {
        var x := rest[k];
        var m :| 0 <= m < |tail| && tail[m] == x;
        assert x == s[m + 1];
      }
      var r := Filter(s, p);
      if p(s[0]) {
        forall i, j | 0 <= i < j < |r| ensures r[i].day != r[j].day {
          assert r[j] == rest[j - 1];
          if i > 0 {
            assert r[i] == rest[i - 1];
          }
        }
      } else {
        assert r == rest;
      }
    }
  }

  /** "Update mood" removes exactly the entries carrying today's entry's id; with one entry per day,
      no entry is dated today afterwards, so the mood selector is offered again. */
  lemma RemoveTodaysMood(entries: seq<MoodEntry>, today: int)
    requires TodaysMood(entries, today).Some?
    ensures var id := TodaysMood(entries, today).value.id;
            var r := RemoveById(entries, id);
            (forall e :: e in r <==> e in entries && e.id != id) &&
            |r| < |entries|
    ensures OnePerDay(entries) ==> TodaysMood(RemoveById(entries, TodaysMood(entries, today).value.id), today).None?
  {
    var m := TodaysMood(entries, today).value;
    var r := RemoveById(entries, m.id);
    var i :| 0 <= i < |entries| && entries[i] == m;
    FilterMultiset(entries, (e: MoodEntry) => e.id != m.id, m);
    assert multiset(entries)[m] > 0;
    assert multiset(r)[m] == 0;
    FilterShorter(entries, (e: MoodEntry) => e.id != m.id, i);
    if OnePerDay(entries) {
      forall k | 0 <= k < |r| ensures r[k].day != today {
        var x := r[k];
        var n :| 0 <= n < |entries| && entries[n] == x;
        assert entries[n].day == today ==> n == i;
      }
    }
  }

  /** A filter that drops some element is strictly shorter than its input. */
  lemma {:induction false} FilterShorter<T>(s: seq<T>, p: T -> bool, i: int)
    requires 0 <= i < |s| && !p(s[i])
    ensures |Filter(s, p)| < |s|
  {
    if i > 0 {
      FilterShorter(s[1..], p, i - 1);
    }
  }

  /** The check-ins listed in the history tab (line 210): `slice(0, 10)`. */
  function RecentCheckIns(entries: seq<MoodEntry>): (r: seq<MoodEntry>)
    ensures |r| == Min(10, |entries|)
    ensures r == entries[..|r|]
  {
    if |entries| <= 10 then entries else entries[..10]
  }

  /** The part of the day `getGreeting` names for an hour. */
  function DayPart(hour: int): string
  {
    if hour < 12 then "Good morning" else if hour < 17 then "Good afternoon" else "Good evening"
  }

  /** `getGreeting` (lines 306-315): the initial `'Hello'` is overwritten on every path, and a name
      is appended, without an exclamation mark, only when it is a non-empty string. */
  method GetGreeting(hour: int, name: Option<string>) returns (r: string)
    ensures name.Some? && name.value != "" ==> r == DayPart(hour) + ", " + name.value
    ensures name.None? || name.value == "" ==> r == DayPart(hour)
    ensures r != "Hello" && r[..|DayPart(hour)|] == DayPart(hour)
  {
    var greeting := "Hello";
    if hour < 12 {
      greeting := "Good morning";
    } else if hour < 17 {
      greeting := "Good afternoon";
    } else {
      greeting := "Good evening";
    }
    if name.Some? && name.value != "" {
      r := greeting + ", " + name.value;
    } else {
      r := greeting;
    }
    assert r[..|greeting|] == greeting;
    assert r[0] == 'G';
  }

  /** The component's state. */
  class DashboardState {
    var moodEntries: seq<MoodEntry>
    var journalEntries: seq<JournalEntry>
    var showMoodSuccess: bool

    /** The stored lists as `useLocalStorage` reads them back. */
    constructor (moods: seq<MoodEntry>, journal: seq<JournalEntry>)
      ensures moodEntries == moods && journalEntries == journal && !showMoodSuccess
    {
      moodEntries, journalEntries, showMoodSuccess := moods, journal, false;
    }

    /** `handleMoodSubmit` (lines 39-51), with the clock's id, day and time given: stores the new
        entry in place of today's and shows the success note. */
    method HandleMoodSubmit(id: string, today: int, time: string, mood: MoodType, note: Option<string>)
      modifies this`moodEntries, this`showMoodSuccess
      ensures moodEntries == SubmitMood(old(moodEntries), MoodEntry(id, today, time, mood, note), today)
      ensures TodaysMood(moodEntries, today) == Some(MoodEntry(id, today, time, mood, note))
      ensures old(OnePerDay(moodEntries)) ==> OnePerDay(moodEntries)
      ensures showMoodSuccess
    {
      var entry := MoodEntry(id, today, time, mood, note);
      SubmitMoodReplacesToday(moodEntries, entry, today);
      if OnePerDay(moodEntries) {
        SubmitMoodOnePerDay(moodEntries, entry, today);
      }
      moodEntries := SubmitMood(moodEntries, entry, today);
      showMoodSuccess := true;
    }

    /** The "Update mood" button (lines 122-125), shown only while today has an entry. */
    method UpdateMood(today: int)
      requires TodaysMood(moodEntries, today).Some?
      modifies this`moodEntries
      ensures moodEntries == RemoveById(old(moodEntries), old(TodaysMood(moodEntries, today)).value.id)
      ensures old(OnePerDay(moodEntries)) ==> TodaysMood(moodEntries, today).None?
    {
      RemoveTodaysMood(moodEntries, today);
      moodEntries := RemoveById(moodEntries, TodaysMood(moodEntries, today).value.id);
    }

    /** `handleJournalSave` (lines 53-59): the entry, given its id, goes in front of the others. */
    method HandleJournalSave(id: string, day: int, prompt: string, content: string)
      modifies this`journalEntries
      ensures journalEntries == [JournalEntry(id, day, prompt, content)] + old(journalEntries)
      ensures |journalEntries| == |old(journalEntries)| + 1 && journalEntries[1..] == old(journalEntries)
    {
      journalEntries := [JournalEntry(id, day, prompt, content)] + journalEntries;
    }
  }
}
