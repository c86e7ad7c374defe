/** The utility functions of src/utils/helpers.ts: the time-of-day greeting, the names of the last
    seven week days, the mood statistics and the two form validators. */
module Helpers {
  import opened Common
  import opened Text
  import opened Sorting

  // ---------------------------------------------------------------------------------------------
  // Greeting

  /** One row of `GREETING_TIMES` (src/constants/index.ts:42-47): the hours `start` up to `end`,
      wrapping past midnight when `start > end`. */
  datatype GreetingTime = GreetingTime(start: int, end: int, greeting: string)

  const GreetingTimes: seq<GreetingTime> := [
    GreetingTime(5, 12, "Good morning"),
    GreetingTime(12, 17, "Good afternoon"),
    GreetingTime(17, 21, "Good evening"),
    GreetingTime(21, 5, "Good night")
  ]

  /** Whether a row covers the hour: `start <= hour < end`, or for a wrapping row
      `hour >= start || hour < end`. */
  predicate InRange(t: GreetingTime, hour: int)
  {
    if t.start <= t.end then t.start <= hour < t.end else hour >= t.start || hour < t.end
  }

  /** The time of day the greeting table describes, stated independently of the table. */
  function TimeOfDay(hour: int): string
  {
    if 5 <= hour < 12 then "Good morning"
    else if 12 <= hour < 17 then "Good afternoon"
    else if 17 <= hour < 21 then "Good evening"
    else "Good night"
  }

  /** Every hour of the day is covered by exactly one row of the table, the row of `TimeOfDay`. */
  lemma ExactlyOneRange(hour: int)
    requires 0 <= hour < 24
    ensures exists i :: 0 <= i < |GreetingTimes| && InRange(GreetingTimes[i], hour) &&
                        GreetingTimes[i].greeting == TimeOfDay(hour)
    ensures forall i, j :: 0 <= i < j < |GreetingTimes| ==>
              !(InRange(GreetingTimes[i], hour) && InRange(GreetingTimes[j], hour))
  {
    if 5 <= hour < 12 {
      assert InRange(GreetingTimes[0], hour);
    } else if 12 <= hour < 17 {
      assert InRange(GreetingTimes[1], hour);
    } else if 17 <= hour < 21 {
      assert InRange(GreetingTimes[2], hour);
    } else {
      assert InRange(GreetingTimes[3], hour);
    }
  }

  /** `name ? `${g}, ${name}!` : `${g}!``: a name is shown only when it is a non-empty string. */
  function Salute(greeting: string, name: Option<string>): (r: string)
    ensures name.Some? && name.value != "" ==> r == greeting + ", " + name.value + "!"
    ensures name.None? || name.value == "" ==> r == greeting + "!"
  {
    if name.Some? && name.value != "" then greeting + ", " + name.value + "!" else greeting + "!"
  }

  /** `getGreeting` (lines 3-22), given the current hour: the greeting of the first row covering the
      hour, which is never the fallback `'day'`. */
  method GetGreeting(hour: int, name: Option<string>) returns (r: string)
    requires 0 <= hour < 24
    ensures r == Salute(TimeOfDay(hour), name)
  {
    var timeOfDay := "day";
    var k := 0;
    while k < |GreetingTimes|
      invariant 0 <= k <= |GreetingTimes|
      invariant forall i :: 0 <= i < k ==> !InRange(GreetingTimes[i], hour)
      invariant timeOfDay == "day"
    {
      var t := GreetingTimes[k];
      if t.start <= t.end {
        if hour >= t.start && hour < t.end {
          timeOfDay := t.greeting;
          break;
        }
      } else {
        if hour >= t.start || hour < t.end {
          timeOfDay := t.greeting;
          break;
        }
      }
      k := k + 1;
    }
    ExactlyOneRange(hour);
    r := Salute(timeOfDay, name);
  }

  // ---------------------------------------------------------------------------------------------
  // Week days

  const DayNames: seq<string> := ["Sun", "Mon", "Tue", "Wed", "Thu", "Fri", "Sat"]

  /** The name of a day: day numbers count from a Sunday, as `getDay` does. */
  function DayName(day: int): string
  {
    DayNames[day % 7]
  }

  /** The day after the named one. */
  function NextDayName(name: string): string
  {
    if name == "Sun" then "Mon" else if name == "Mon" then "Tue" else if name == "Tue" then "Wed"
    else if name == "Wed" then "Thu" else if name == "Thu" then "Fri" else if name == "Fri" then "Sat"
    else "Sun"
  }

  lemma DayNameSuccessor(day: int)
    ensures DayName(day + 1) == NextDayName(DayName(day))
  {
    assert (day + 1) % 7 == (day % 7 + 1) % 7;
  }

  /** `getWeekDays` (lines 44-56): the names of the seven days ending today, oldest first. */
  method GetWeekDays(today: int) returns (weekDays: seq<string>)
    ensures |weekDays| == 7
    ensures weekDays[6] == DayName(today)
    ensures forall k :: 0 <= k < 6 ==> weekDays[k + 1] == NextDayName(weekDays[k])
  {
    weekDays := [];
    var i := 6;
    while i >= 0
      invariant -1 <= i <= 6
      invariant |weekDays| == 6 - i
      invariant forall k :: 0 <= k < |weekDays| ==> weekDays[k] == DayName(today - 6 + k)
    {
      var date := today - i;
      weekDays := weekDays + [DayNames[date % 7]];
      i := i - 1;
    }
    forall k | 0 <= k < 6 ensures weekDays[k + 1] == NextDayName(weekDays[k]) {
      DayNameSuccessor(today - 6 + k);
    }
  }

  // ---------------------------------------------------------------------------------------------
  // Mood statistics

  function CountOfPair(p: (string, nat)): int { p.1 }

  predicate IsDigit(c: char) { '0' <= c <= '9' }

  /** The number a string of decimal digits denotes. */
  function DecimalValue(s: string): nat
  {
    if s == [] then 0
    else DecimalValue(s[..|s| - 1]) * 10 + DigitValue(s[|s| - 1])
  }

  function DigitValue(c: char): nat
  {
    if IsDigit(c) then (c - '0') as int else 0
  }

  /** An array index in the sense of ECMAScript: the canonical decimal numeral (no sign, no
      leading zero) of an integer below 2^32 - 1. */
  predicate IsArrayIndex(key: string)
  {
    key != [] && (forall i :: 0 <= i < |key| ==> IsDigit(key[i])) && (key[0] != '0' || |key| == 1) &&
    DecimalValue(key) < 0xFFFF_FFFF
  }

  predicate IndexEntry(p: (string, nat)) { IsArrayIndex(p.0) }

  predicate NamedEntry(p: (string, nat)) { !IsArrayIndex(p.0) }

  function MinusIndex(p: (string, nat)): int { -(DecimalValue(p.0) as int) }

  /** `Object.entries` of a record whose own keys were added in the order of `counts`: the keys that
      are array indices come first, in ascending numeric order, and the other keys follow in the
      order they were added (the property order of section 10.1.11.1 of ECMAScript 2020). */
  function EntriesOrder(counts: Counts): seq<(string, nat)>
  {
    SortDesc(Filter(counts, IndexEntry), MinusIndex) + Filter(counts, NamedEntry)
  }

  /** The entries are those of the record, each as often as it was added. */
  lemma EntriesOrderPermutation(counts: Counts)
    ensures multiset(EntriesOrder(counts)) == multiset(counts)
  {
    var idx, named := Filter(counts, IndexEntry), Filter(counts, NamedEntry);
    SortDescPermutation(idx, MinusIndex);
    forall x ensures multiset(EntriesOrder(counts))[x] == multiset(counts)[x] {
      FilterMultiset(counts, IndexEntry, x);
      FilterMultiset(counts, NamedEntry, x);
    }
  }

  /** Array-index keys come before every other key, in ascending numeric order. */
  ghost predicate IndicesFirst(entries: seq<(string, nat)>)
  {
    forall i, j :: 0 <= i < j < |entries| && IsArrayIndex(entries[j].0) ==>
      IsArrayIndex(entries[i].0) && DecimalValue(entries[i].0) <= DecimalValue(entries[j].0)
  }

  /** `Object.entries` lists the array-index keys first, in ascending numeric order. */
  lemma EntriesOrderIndicesFirst(counts: Counts)
    ensures IndicesFirst(EntriesOrder(counts))
  {
    var idx := Filter(counts, IndexEntry);
    var sorted := SortDesc(idx, MinusIndex);
    SortDescSorted(idx, MinusIndex);
    SortDescPermutation(idx, MinusIndex);
    forall k | 0 <= k < |sorted| ensures IsArrayIndex(sorted[k].0) {
      assert sorted[k] in multiset(idx);
    }
    IndicesThenNames(sorted, Filter(counts, NamedEntry));
  }

  lemma IndicesThenNames(sorted: seq<(string, nat)>, named: seq<(string, nat)>)
    requires SortedDesc(sorted, MinusIndex)
    requires forall k :: 0 <= k < |sorted| ==> IsArrayIndex(sorted[k].0)
    requires forall k :: 0 <= k < |named| ==> !IsArrayIndex(named[k].0)
    ensures IndicesFirst(sorted + named)
  {
    var e := sorted + named;
    forall i, j | 0 <= i < j < |e| && IsArrayIndex(e[j].0)
      ensures IsArrayIndex(e[i].0) && DecimalValue(e[i].0) <= DecimalValue(e[j].0)
    {
      assert j < |sorted|;
      assert e[i] == sorted[i] && e[j] == sorted[j];
      assert MinusIndex(sorted[i]) >= MinusIndex(sorted[j]);
    }
  }

  /** A record with no array-index key lists its entries in insertion order. */
  lemma EntriesOrderPlain(counts: Counts)
    requires forall k :: 0 <= k < |counts| ==> !IsArrayIndex(counts[k].0)
    ensures EntriesOrder(counts) == counts
  {
    FilterAll(counts, NamedEntry);
  }

  /** The `dominant` field: the key of the first entry of `Object.entries` once sorted by descending
      count, or `'neutral'` when there is none or when that key is the (falsy) empty string. */
  function Dominant(counts: Counts): string
  {
    var sorted := SortDesc(EntriesOrder(counts), CountOfPair);
    if sorted == [] || sorted[0].0 == "" then "neutral" else sorted[0].0
  }

  /** The dominant mood is the first key, in `Object.entries` order, with the largest count. */
  lemma DominantIsFirstMax(counts: Counts)
    ensures counts == [] ==> Dominant(counts) == "neutral"
    ensures counts != [] ==>
              var entries := EntriesOrder(counts);
              exists i :: IsFirstMax(entries, CountOfPair, i) &&
                          Dominant(counts) == if entries[i].0 == "" then "neutral" else entries[i].0
  {
    EntriesOrderPermutation(counts);
    var entries := EntriesOrder(counts);
    if counts != [] {
      assert counts[0] in multiset(entries);
      SortDescHead(entries, CountOfPair);
    } else {
      assert entries == [];
    }
  }

  /** An array-index key is listed first, so it wins a tie with a key added before it. */
  lemma DominantIndexKeyFirst()
    ensures Dominant([("happy", 2), ("1", 2)]) == "1"
  {
    var counts: Counts := [("happy", 2), ("1", 2)];
    var entries: Counts := [("1", 2), ("happy", 2)];
    EntriesOfExample();
    DominantIsFirstMax(counts);
    var i :| IsFirstMax(entries, CountOfPair, i) &&
             Dominant(counts) == if entries[i].0 == "" then "neutral" else entries[i].0;
    assert IsFirstMax(entries, CountOfPair, 0);
    FirstMaxUnique(entries, CountOfPair, i, 0);
  }

  lemma EntriesOfExample()
    ensures EntriesOrder([("happy", 2), ("1", 2)]) == [("1", 2), ("happy", 2)]
  {
    var counts: Counts := [("happy", 2), ("1", 2)];
    ExampleKeys();
    FilterTwo(counts, IndexEntry);
    FilterTwo(counts, NamedEntry);
    var one: Counts := [("1", 2)];
    assert SortDesc(one, MinusIndex) == one by {
      assert one[..0] == [];
    }
  }

  lemma ExampleKeys()
    ensures IsArrayIndex("1") && !IsArrayIndex("happy")
  {
    assert "happy"[0] == 'h';
  }

  lemma FilterTwo(s: Counts, p: ((string, nat)) -> bool)
    requires |s| == 2
    ensures Filter(s, p) == (if p(s[0]) then [s[0]] else []) + (if p(s[1]) then [s[1]] else [])
  {
    assert s[1..][1..] == [];
  }

  /** `Math.round(x)` for a non-negative rational `x = num / den`: the integer nearest to `x`,
      halves rounded up. */
  function RoundHalfUp(num: nat, den: nat): (r: nat)
    requires den > 0
    ensures 2 * r * den <= 2 * num + den < 2 * r * den + 2 * den
  {
    (2 * num + den) / (2 * den)
  }

  /** The `percentage(mood)` closure: 0 when the total is 0; the rounded share of the mood in
      percent otherwise, or `NaN` (`None`) for a key the record does not have. */
  function Percentage(counts: Counts, mood: string): (r: Option<nat>)
    ensures Sum(Values(counts)) == 0 ==> r == Some(0)
    ensures Sum(Values(counts)) > 0 ==> (r.None? <==> Lookup(counts, mood).None?)
    ensures Sum(Values(counts)) > 0 && r.Some? ==>
              var c, total := Lookup(counts, mood).value, Sum(Values(counts));
              2 * r.value * total <= 200 * c + total < 2 * r.value * total + 2 * total
  {
    var total := Sum(Values(counts));
    if total > 0 then
      match Lookup(counts, mood)
      case None => None
      case Some(c) => Some(RoundHalfUp(100 * c, total))
    else Some(0)
  }

  /** A count is part of the total, so a share is at most 100 percent. */
  lemma {:induction false} LookupBelowTotal(counts: Counts, mood: string)
    requires Lookup(counts, mood).Some?
    ensures Lookup(counts, mood).value <= Sum(Values(counts))
  {
    if counts[0].0 != mood {
      LookupBelowTotal(counts[1..], mood);
    }
  }

  /** A rounded share of at most the whole is at most 100 percent. */
  lemma ShareAtMost100(c: nat, total: nat, r: nat)
    requires 0 < total && c <= total && 2 * r * total <= 200 * c + total
    ensures r <= 100
  {
    assert 200 * c <= 200 * total;
    assert r * (2 * total) < 101 * (2 * total);
  }

  lemma PercentageAtMost100(counts: Counts, mood: string)
    requires Percentage(counts, mood).Some?
    ensures Percentage(counts, mood).value <= 100
  {
    var total := Sum(Values(counts));
    if total > 0 {
      LookupBelowTotal(counts, mood);
      ShareAtMost100(Lookup(counts, mood).value, total, Percentage(counts, mood).value);
    }
  }

  datatype MoodStats = MoodStats(total: nat, dominant: string)

  /** `getMoodStats` (lines 58-65) without its `percentage` closure, which is `Percentage`. */
  function GetMoodStats(counts: Counts): (stats: MoodStats)
    ensures stats.total == Sum(Values(counts))
    ensures counts == [] ==> stats.dominant == "neutral"
  {
    MoodStats(Sum(Values(counts)), Dominant(counts))
  }

  // ---------------------------------------------------------------------------------------------
  // Validators

  /** A character the class `[^\s@]` matches. */
  predicate PlainChar(c: char)
  {
    !IsWhitespace(c) && c != '@'
  }

  /** A non-empty run of `[^\s@]`. */
  predicate PlainRun(s: string)
  {
    |s| > 0 && forall k :: 0 <= k < |s| ==> PlainChar(s[k])
  }

  /** The pattern `/^[^\s@]+@[^\s@]+\.[^\s@]+$/` matches `s`: it splits at an `@` and a later `.`
      into three non-empty runs without whitespace or `@`. */
  ghost predicate MatchesEmailPattern(s: string)
  {
    exists i, j :: EmailSplitsAt(s, i, j)
  }

  /** `validateEmail` (lines 67-69), computed: no whitespace, exactly one `@` and not first, and a
      `.` strictly inside the part after it. */
  function ValidateEmail(email: string): (ok: bool)
  {
    var at := IndexOf(email, '@');
    NoWhitespace(email) && at > 0 &&
    var domain := email[at + 1..];
    '@' !in domain && |domain| >= 3 && '.' in domain[1..|domain| - 1]
  }

  /** The computed check accepts exactly the strings the pattern matches. */
  lemma ValidateEmailMatchesPattern(email: string)
    ensures ValidateEmail(email) <==> MatchesEmailPattern(email)
  {
    if ValidateEmail(email) {
      PatternFromCheck(email);
    }
    if MatchesEmailPattern(email) {
      CheckFromPattern(email);
    }
  }

  lemma PatternFromCheck(email: string)
    requires ValidateEmail(email)
    ensures MatchesEmailPattern(email)
  {
    var at := IndexOf(email, '@');
    var domain := email[at + 1..];
    var inner := domain[1..|domain| - 1];
    var t :| 0 <= t < |inner| && inner[t] == '.';
    var j := at + 2 + t;
    assert email[j] == inner[t];
    assert email[at + 1..j] == domain[..t + 1] && email[j + 1..] == domain[t + 2..];
    PlainSlice(email, 0, at);
    PlainSlice(email, at + 1, j);
    PlainSlice(email, j + 1, |email|);
    assert email[0..at] == email[..at] && email[j + 1..|email|] == email[j + 1..];
    assert EmailSplitsAt(email, at, j);
  }

  /** The pattern's split at the `@` at `i` and the `.` at `j`. */
  ghost predicate EmailSplitsAt(s: string, i: int, j: int)
  {
    0 < i < j < |s| && s[i] == '@' && s[j] == '.' &&
    PlainRun(s[..i]) && PlainRun(s[i + 1..j]) && PlainRun(s[j + 1..])
  }

  /** A non-empty slice of a string without whitespace, holding no `@`, is a plain run. */
  lemma PlainSlice(s: string, lo: int, hi: int)
    requires 0 <= lo < hi <= |s| && NoWhitespace(s) && '@' !in s[lo..hi]
    ensures PlainRun(s[lo..hi])
  {
    var p := s[lo..hi];
    forall k | 0 <= k < |p| ensures PlainChar(p[k]) {
      assert p[k] == s[lo + k];
    }
  }

  lemma CheckFromPattern(email: string)
    requires MatchesEmailPattern(email)
    ensures ValidateEmail(email)
  {
    var i, j :| EmailSplitsAt(email, i, j);
    var local, host, top := email[..i], email[i + 1..j], email[j + 1..];
    SplitPlain(email, i, j, local, host, top);
    IndexOfAt(email, '@', i);
    var domain := email[i + 1..];
    assert |host| >= 1 && |top| >= 1;
    assert |domain| >= 3;
    var inner := domain[1..|domain| - 1];
    assert inner[j - i - 2] == email[j];
  }

  /** The characters of a pattern match other than its `@` are plain. */
  lemma SplitPlain(email: string, i: int, j: int, local: string, host: string, top: string)
    requires 0 < i < j < |email| && email[i] == '@' && email[j] == '.'
    requires local == email[..i] && host == email[i + 1..j] && top == email[j + 1..]
    requires PlainRun(local) && PlainRun(host) && PlainRun(top)
    ensures NoWhitespace(email)
    ensures '@' !in email[..i] && '@' !in email[i + 1..]
  {
    forall k | 0 <= k < |email| ensures !IsWhitespace(email[k]) && (k != i ==> email[k] != '@') {
      if k < i {
        assert email[k] == local[k];
      } else if i < k < j {
        assert email[k] == host[k - i - 1];
      } else if j < k {
        assert email[k] == top[k - j - 1];
      }
    }
    var domain := email[i + 1..];
    forall k | 0 <= k < |domain| ensures domain[k] != '@' {
      assert domain[k] == email[i + 1 + k];
    }
    forall k | 0 <= k < i ensures local[k] != '@' {
    }
  }

  /** The number of UTF-16 code units of a string, which is what `length` counts: characters
      beyond the Basic Multilingual Plane take two. */
  function Utf16Length(s: string): (n: nat)
    ensures |s| <= n <= 2 * |s|
    ensures n == |s| + |Filter(s, BeyondBmp)|
    ensures (forall i :: 0 <= i < |s| ==> s[i] as int <= 0xFFFF) ==> n == |s|
  {
    if s == [] then 0 else (if BeyondBmp(s[0]) then 2 else 1) + Utf16Length(s[1..])
  }

  /** A character outside the Basic Multilingual Plane, which UTF-16 writes as a surrogate pair. */
  predicate BeyondBmp(c: char)
  {
    c as int > 0xFFFF
  }

  /** The length of a concatenation is the sum of the lengths. */
  lemma {:induction false} Utf16LengthAppend(a: string, b: string)
    ensures Utf16Length(a + b) == Utf16Length(a) + Utf16Length(b)
  {
    if a == [] {
      assert a + b == b;
    } else {
      assert (a + b)[0] == a[0];
      assert (a + b)[1..] == a[1..] + b;
      Utf16LengthAppend(a[1..], b);
    }
  }

  const MinPasswordLength: nat := 6
  const PasswordTooShort: string := "Password must be at least 6 characters"

  datatype PasswordCheck = PasswordCheck(valid: bool, error: Option<string>)

  /** `validatePassword` (lines 71-76). */
  function ValidatePassword(password: string): (r: PasswordCheck)
    ensures r.valid <==> Utf16Length(password) >= MinPasswordLength
    ensures r.valid ==> r.error.None?
    ensures !r.valid ==> r.error == Some(PasswordTooShort)
  {
    if Utf16Length(password) < MinPasswordLength then PasswordCheck(false, Some(PasswordTooShort))
    else PasswordCheck(true, None)
  }

  /** Six characters always make a valid password; three characters beyond the Basic Multilingual
      Plane already do, as each counts twice. */
  lemma PasswordLengthBounds(password: string)
    ensures |password| >= MinPasswordLength ==> ValidatePassword(password).valid
    ensures |password| < 3 ==> !ValidatePassword(password).valid
  {
  }
}
