/** The mood history card (src/components/MoodHistory.tsx): the last seven days, the entry shown for
    each day, and the summary of the most common recent mood. */
module MoodHistory {
  import opened Common
  import opened Moods
  import opened Sorting

  /** `last7Days` (lines 14-20): the days from six days ago up to today, pushed in a loop. */
  method Last7Days(today: int) returns (days: seq<int>)
    ensures |days| == 7
    ensures days[0] == today - 6 && days[6] == today
    ensures forall k :: 0 <= k < 6 ==> days[k + 1] == days[k] + 1
  {
    days := [];
    var i := 6;
    while i >= 0
      invariant -1 <= i <= 6
      invariant |days| == 6 - i
      invariant forall k :: 0 <= k < |days| ==> days[k] == today - 6 + k
    {
      days := days + [today - i];
      i := i - 1;
    }
  }

  /** `getMoodForDay` (lines 22-24): the first entry made on the given day, if any. */
  function GetMoodForDay(entries: seq<MoodEntry>, day: int): (r: Option<MoodEntry>)
    ensures r.None? <==> forall i :: 0 <= i < |entries| ==> entries[i].day != day
    ensures r.Some? ==> exists i :: 0 <= i < |entries| && entries[i] == r.value && r.value.day == day &&
                                   forall j :: 0 <= j < i ==> entries[j].day != day
  {
    FindFirst(entries, (e: MoodEntry) => e.day == day)
  }

  /** How many of the entries have mood `m`. */
  function CountOf(entries: seq<MoodEntry>, m: MoodType): nat
  {
    if entries == [] then 0 else (if entries[0].mood == m then 1 else 0) + CountOf(entries[1..], m)
  }

  /** The entries the summary looks at: `entries.slice(0, 7)`. */
  function Window(entries: seq<MoodEntry>): (w: seq<MoodEntry>)
    ensures |w| == Min(7, |entries|) && w == entries[..|w|]
  {
    entries[..Min(7, |entries|)]
  }

  /** The six counts, in the order of the moods. */
  function Counts(entries: seq<MoodEntry>): seq<nat>
  {
    [CountOf(entries, Happy), CountOf(entries, Neutral), CountOf(entries, Stressed),
     CountOf(entries, Anxious), CountOf(entries, Tired), CountOf(entries, Angry)]
  }

  /** Every entry is counted under exactly one mood, so the six counts add up to the number of
      entries. */
  lemma {:induction false} CountsSum(entries: seq<MoodEntry>)
    ensures Sum(Counts(entries)) == |entries|
  {
    var c := Counts(entries);
    Sum6(c);
    if entries != [] {
      CountsSum(entries[1..]);
      Sum6(Counts(entries[1..]));
    }
  }

  lemma Sum6(c: seq<nat>)
    requires |c| == 6
    ensures Sum(c) == c[0] + c[1] + c[2] + c[3] + c[4] + c[5]
  {
    var c1 := c[1..];
    var c2 := c1[1..];
    var c3 := c2[1..];
    var c4 := c3[1..];
    var c5 := c4[1..];
    assert c5[1..] == [];
    assert Sum(c5) == c[5];
    assert Sum(c4) == c[4] + c[5];
    assert Sum(c3) == c[3] + c[4] + c[5];
    assert Sum(c2) == c[2] + c[3] + c[4] + c[5];
    assert Sum(c1) == c[1] + c[2] + c[3] + c[4] + c[5];
  }

  /** The `forEach` that fills `moodCounts` (lines 27-38). */
  method CountMoods(entries: seq<MoodEntry>) returns (moodCounts: map<MoodType, nat>)
    ensures forall m :: m in moodCounts && moodCounts[m] == CountOf(Window(entries), m)
  {
    moodCounts := map[Happy := 0, Neutral := 0, Stressed := 0, Anxious := 0, Tired := 0, Angry := 0];
    var window := entries[..Min(7, |entries|)];
    assert window[0..] == window;
    forall m: MoodType ensures m in moodCounts && moodCounts[m] == 0 {
      match m
      case Happy => case Neutral => case Stressed => case Anxious => case Tired => case Angry =>
    }
    for k := 0 to |window|
      invariant forall m :: m in moodCounts && moodCounts[m] + CountOf(window[k..], m) == CountOf(window, m)
    {
      var entry := window[k];
      assert window[k..][1..] == window[k + 1..];
      moodCounts := moodCounts[entry.mood := moodCounts[entry.mood] + 1];
    }
  }

  /** The `[mood, count]` pairs of `Object.entries(moodCounts)`, in insertion order. */
  function Pairs(moodCounts: map<MoodType, nat>): (pairs: seq<(MoodType, nat)>)
    requires forall m :: m in moodCounts
    ensures |pairs| == |AllMoods| && forall k :: 0 <= k < |pairs| ==> pairs[k] == (AllMoods[k], moodCounts[AllMoods[k]])
  {
    seq(|AllMoods|, k requires 0 <= k < |AllMoods| => (AllMoods[k], moodCounts[AllMoods[k]]))
  }

  function PairCount(p: (MoodType, nat)): int { p.1 }

  predicate PositiveCount(p: (MoodType, nat)) { p.1 > 0 }

  /** `moodSummary` (lines 26-45): the mood counted most often among the seven most recent entries,
      with its count; ties go to the mood listed first, since the sort is stable; none when there
      are no entries. */
  method MoodSummary(entries: seq<MoodEntry>) returns (summary: Option<(MoodType, nat)>)
    ensures summary.None? <==> entries == []
    ensures summary.Some? ==>
              var (mood, count) := summary.value;
              count == CountOf(Window(entries), mood) &&
              exists i :: IsFirstMax(AllMoods, (m: MoodType) => CountOf(Window(entries), m), i) && AllMoods[i] == mood
  {
    var moodCounts := CountMoods(entries);
    var pairs := Pairs(moodCounts);
    var sorted := SortDesc(pairs, PairCount);
    var positive := Filter(sorted, PositiveCount);
    summary := if positive == [] then None else Some(positive[0]);
    SummaryIsFirstMax(Window(entries), moodCounts, pairs, sorted, positive);
  }

  lemma SummaryIsFirstMax(window: seq<MoodEntry>, moodCounts: map<MoodType, nat>, pairs: seq<(MoodType, nat)>,
                          sorted: seq<(MoodType, nat)>, positive: seq<(MoodType, nat)>)
    requires forall m :: m in moodCounts && moodCounts[m] == CountOf(window, m)
    requires pairs == Pairs(moodCounts) && sorted == SortDesc(pairs, PairCount)
    requires positive == Filter(sorted, PositiveCount)
    ensures positive == [] <==> window == []
    ensures positive != [] ==>
              positive[0].1 == CountOf(window, positive[0].0) &&
              exists i :: IsFirstMax(AllMoods, (m: MoodType) => CountOf(window, m), i) && AllMoods[i] == positive[0].0
  {
    SortDescHead(pairs, PairCount);
    var i :| IsFirstMax(pairs, PairCount, i) && sorted[0] == pairs[i];
    PairsFirstMax(window, moodCounts, pairs, i);
    if window == [] {
      EmptyWindowNoPositive(window, moodCounts, pairs, sorted, positive);
    } else {
      PositiveHead(window, moodCounts, pairs, sorted, positive, i);
    }
  }

  /** The first maximum of the pairs is the first maximum of the moods by their counts. */
  lemma PairsFirstMax(window: seq<MoodEntry>, moodCounts: map<MoodType, nat>, pairs: seq<(MoodType, nat)>, i: int)
    requires forall m :: m in moodCounts && moodCounts[m] == CountOf(window, m)
    requires pairs == Pairs(moodCounts) && IsFirstMax(pairs, PairCount, i)
    ensures IsFirstMax(AllMoods, (m: MoodType) => CountOf(window, m), i)
  {
    var key := (m: MoodType) => CountOf(window, m);
    forall j | 0 <= j < |AllMoods| ensures key(AllMoods[j]) == PairCount(pairs[j]) {
    }
  }

  /** With no entries every count is zero, so no pair is kept. */
  lemma EmptyWindowNoPositive(window: seq<MoodEntry>, moodCounts: map<MoodType, nat>, pairs: seq<(MoodType, nat)>,
                              sorted: seq<(MoodType, nat)>, positive: seq<(MoodType, nat)>)
    requires window == [] && forall m :: m in moodCounts && moodCounts[m] == CountOf(window, m)
    requires pairs == Pairs(moodCounts) && sorted == SortDesc(pairs, PairCount)
    requires positive == Filter(sorted, PositiveCount)
    ensures positive == []
  {
    SortDescPermutation(pairs, PairCount);
    forall k | 0 <= k < |sorted| ensures !PositiveCount(sorted[k]) {
      assert sorted[k] in multiset(pairs);
    }
    FilterNone(sorted, PositiveCount);
  }

  /** With some entry the largest count is positive, so the sorted pairs start with a kept pair. */
  lemma PositiveHead(window: seq<MoodEntry>, moodCounts: map<MoodType, nat>, pairs: seq<(MoodType, nat)>,
                     sorted: seq<(MoodType, nat)>, positive: seq<(MoodType, nat)>, i: int)
    requires window != [] && forall m :: m in moodCounts && moodCounts[m] == CountOf(window, m)
    requires pairs == Pairs(moodCounts) && sorted == SortDesc(pairs, PairCount)
    requires IsFirstMax(pairs, PairCount, i) && sorted != [] && sorted[0] == pairs[i]
    requires positive == Filter(sorted, PositiveCount)
    ensures positive != [] && positive[0] == pairs[i]
  {
    CountsSum(window);
    assert Counts(window) == [pairs[0].1, pairs[1].1, pairs[2].1, pairs[3].1, pairs[4].1, pairs[5].1];
    Sum6(Counts(window));
    assert pairs[i].1 > 0;
    HeadTail(sorted);
  }


  /** A filter that keeps nothing yields the empty list. */
  lemma {:induction false} FilterNone<T>(s: seq<T>, p: T -> bool)
    requires forall k :: 0 <= k < |s| ==> !p(s[k])
    ensures Filter(s, p) == []
  {
    if s != [] {
      FilterNone(s[1..], p);
    }
  }
}
