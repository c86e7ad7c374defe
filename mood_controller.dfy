/** The mood API handlers (server/controllers/moodController.js) over the store: creation with the
    mood validated against the six names, the user's moods newest first, the by-id handlers with
    their not-found-then-not-authorized guard, and the per-user statistics. A request body field is
    `None` when the request leaves it out. */
module MoodController {
  import opened Common
  import opened Moods
  import opened Sorting
  import opened Store

  /** A stored mood (server/models/Mood.js); `date` is the creation timestamp. */
  datatype MoodRecord = MoodRecord(id: nat, userId: string, mood: string, note: Option<string>, date: int,
                                   time: Option<string>)

  function IdOf(r: MoodRecord): nat { r.id }
  function OwnerOf(r: MoodRecord): string { r.userId }
  function DateOf(r: MoodRecord): int { r.date }

  /** What a handler sends: a status with a `{ message }` body, or a status with a record. */
  datatype Reply = Message(status: nat, message: string) | Record(status: nat, record: MoodRecord)

  datatype MoodStats = MoodStats(total: nat, byType: Counts, lastEntry: Option<MoodRecord>)

  // ---------------------------------------------------------------------------------------------
  // The `byType` tally

  /** `byType[key] = (byType[key] || 0) + 1` on a record whose keys are listed in insertion order. */
  function Bump(counts: Counts, key: string): Counts
  {
    if counts == [] then [(key, 1)]
    else if counts[0].0 == key then [(key, counts[0].1 + 1)] + counts[1..]
    else [counts[0]] + Bump(counts[1..], key)
  }

  /** The object the `forEach` (lines 112-114) builds from the moods of a sequence of records,
      for mood names that are not members of `Object.prototype`: every key starts from 0 here. */
  function Tally(records: seq<MoodRecord>): Counts
  {
    if records == [] then [] else Bump(Tally(records[..|records| - 1]), records[|records| - 1].mood)
  }

  /** The records with a given mood. */
  function WithMood(mood: string): MoodRecord -> bool
  {
    (r: MoodRecord) => r.mood == mood
  }

  /** Bumping adds one to the key's count, or lists the key with count one, and changes no other
      count. */
  lemma BumpLookup(counts: Counts, key: string, other: string)
    ensures Lookup(Bump(counts, key), other) == if other != key then Lookup(counts, other) else Incremented(Lookup(counts, key))
  {
    if other == key {
      BumpSame(counts, key);
    } else {
      BumpOther(counts, key, other);
    }
  }

  /** `(count || 0) + 1`. */
  function Incremented(count: Option<nat>): Option<nat>
  {
    if count.Some? then Some(count.value + 1) else Some(1)
  }

  lemma {:induction false} BumpSame(counts: Counts, key: string)
    ensures Lookup(Bump(counts, key), key) == Incremented(Lookup(counts, key))
  {
    var r := Bump(counts, key);
    if counts == [] {
      assert r == [(key, 1)];
      assert Lookup(r, key) == Some(1);
    } else if counts[0].0 == key {
      assert r[0] == (key, counts[0].1 + 1);
      assert Lookup(counts, key) == Some(counts[0].1);
      assert Lookup(r, key) == Some(counts[0].1 + 1);
    } else {
      assert r[0] == counts[0] && r[1..] == Bump(counts[1..], key);
      assert Lookup(counts, key) == Lookup(counts[1..], key);
      assert Lookup(r, key) == Lookup(r[1..], key);
      BumpSame(counts[1..], key);
    }
  }

  lemma {:induction false} BumpOther(counts: Counts, key: string, other: string)
    requires other != key
    ensures Lookup(Bump(counts, key), other) == Lookup(counts, other)
  {
    if counts != [] {
      var r := Bump(counts, key);
      if counts[0].0 == key {
        assert r[0] == (key, counts[0].1 + 1) && r[1..] == counts[1..];
      } else {
        assert r[0] == counts[0] && r[1..] == Bump(counts[1..], key);
        BumpOther(counts[1..], key, other);
      }
    }
  }

  lemma {:induction false} BumpSum(counts: Counts, key: string)
    ensures Sum(Values(Bump(counts, key))) == Sum(Values(counts)) + 1
  {
    if counts != [] && counts[0].0 != key {
      BumpSum(counts[1..], key);
    }
  }

  /** Putting a new key with a positive count in front of a list keeps the shape. */
  lemma ConsShape(head: (string, nat), tail: Counts)
    requires head.1 >= 1 && DistinctKeys(tail) && forall k :: 0 <= k < |tail| ==> tail[k].1 >= 1
    requires forall k :: 0 <= k < |tail| ==> tail[k].0 != head.0
    ensures DistinctKeys([head] + tail) && forall k :: 0 <= k < |[head] + tail| ==> ([head] + tail)[k].1 >= 1
  {
    var r := [head] + tail;
    assert forall k :: 1 <= k < |r| ==> r[k] == tail[k - 1];
  }

  /** The tail of a well-shaped list is well shaped and does not list its head's key. */
  lemma TailShape(counts: Counts)
    requires counts != [] && DistinctKeys(counts) && forall k :: 0 <= k < |counts| ==> counts[k].1 >= 1
    ensures var tail := counts[1..];
            DistinctKeys(tail) && (forall k :: 0 <= k < |tail| ==> tail[k].1 >= 1) &&
            (forall k :: 0 <= k < |tail| ==> tail[k].0 != counts[0].0) && counts[0].1 >= 1
  {
    var tail := counts[1..];
    assert forall k :: 0 <= k < |tail| ==> tail[k] == counts[k + 1];
  }

  /** Bumping keeps every count positive and the keys distinct. */
  lemma {:induction false} BumpShape(counts: Counts, key: string)
    requires DistinctKeys(counts) && forall k :: 0 <= k < |counts| ==> counts[k].1 >= 1
    ensures DistinctKeys(Bump(counts, key)) && forall k :: 0 <= k < |Bump(counts, key)| ==> Bump(counts, key)[k].1 >= 1
  {
    if counts != [] {
      var tail := counts[1..];
      TailShape(counts);
      if counts[0].0 == key {
        ConsShape((key, counts[0].1 + 1), tail);
      } else {
        BumpShape(tail, key);
        var b := Bump(tail, key);
        assert Lookup(tail, counts[0].0).None?;
        BumpOther(tail, key, counts[0].0);
        ConsShape(counts[0], b);
      }
    }
  }

  /** The tally's counts are positive, its keys distinct, and they add up to the number of
      records. */
  lemma {:induction false} TallyShape(records: seq<MoodRecord>)
    ensures var t := Tally(records);
            Sum(Values(t)) == |records| && DistinctKeys(t) && forall k :: 0 <= k < |t| ==> t[k].1 >= 1
  {
    if records != [] {
      var init := records[..|records| - 1];
      TallyShape(init);
      BumpSum(Tally(init), records[|records| - 1].mood);
      BumpShape(Tally(init), records[|records| - 1].mood);
    }
  }

  /** A number of occurrences as the tally shows it: absent when zero. */
  function Occurrences(n: nat): Option<nat>
  {
    if n == 0 then None else Some(n)
  }

  /** Appending a record adds one to the number of records with its mood. */
  lemma MoodCountSnoc(init: seq<MoodRecord>, last: MoodRecord, mood: string)
    ensures |Filter(init + [last], WithMood(mood))| == |Filter(init, WithMood(mood))| + if last.mood == mood then 1 else 0
  {
    FilterAppend(init, [last], WithMood(mood));
    assert [last][1..] == [];
  }

  /** The tally lists a mood exactly when it occurs, with its number of occurrences. */
  lemma {:induction false} TallyCount(records: seq<MoodRecord>, mood: string)
    ensures Lookup(Tally(records), mood) == Occurrences(|Filter(records, WithMood(mood))|)
  {
    if records != [] {
      var init, last := records[..|records| - 1], records[|records| - 1];
      assert records == init + [last];
      var before, n := Tally(init), |Filter(init, WithMood(mood))|;
      assert Tally(records) == Bump(before, last.mood);
      TallyCount(init, mood);
      MoodCountSnoc(init, last, mood);
      if last.mood == mood {
        BumpSame(before, mood);
        assert Incremented(Occurrences(n)) == Occurrences(n + 1);
      } else {
        BumpOther(before, last.mood, mood);
      }
    }
  }

  /** The tally of one more record bumps that record's mood. */
  lemma TallyStep(records: seq<MoodRecord>, k: nat)
    requires k < |records|
    ensures Tally(records[..k + 1]) == Bump(Tally(records[..k]), records[k].mood)
  {
    assert records[..k + 1][..k] == records[..k];
  }

  /** `counts` is a census of the moods of `records`: each mood that occurs is listed once, with
      its number of occurrences, no other is listed, and the counts add up to the number of
      records. */
  ghost predicate Census(counts: Counts, records: seq<MoodRecord>)
  {
    Sum(Values(counts)) == |records| && DistinctKeys(counts) && (forall k :: 0 <= k < |counts| ==> counts[k].1 >= 1) &&
    forall mood :: Lookup(counts, mood) == Occurrences(|Filter(records, WithMood(mood))|)
  }

  /** The tally is a census. */
  lemma TallyFacts(records: seq<MoodRecord>)
    ensures Census(Tally(records), records)
  {
    TallyShape(records);
    forall mood ensures Lookup(Tally(records), mood) == Occurrences(|Filter(records, WithMood(mood))|) {
      TallyCount(records, mood);
    }
  }

  // ---------------------------------------------------------------------------------------------
  // The handlers

  class MoodStore {
    var records: seq<MoodRecord>
    var nextId: nat

    /** Ids are unique and below the next one to hand out. */
    ghost predicate Valid()
      reads this
    {
      UniqueIds(records, IdOf) && forall k :: 0 <= k < |records| ==> records[k].id < nextId
    }

    constructor ()
      ensures records == [] && nextId == 0 && Valid()
    {
      records, nextId := [], 0;
    }

    /** `createMood` (lines 3-24), at time `now`: a mood outside the six names is refused with 400;
        otherwise the mood is stored for the requester under a fresh id and returned with 201. */
    method CreateMood(userId: string, mood: Option<string>, note: Option<string>, time: Option<string>, now: int)
      returns (reply: Reply)
      requires Valid()
      modifies this
      ensures Valid()
      ensures !(mood.Some? && mood.value in MoodNames) ==>
                reply == Message(400, "Invalid mood type") && records == old(records) && nextId == old(nextId)
      ensures mood.Some? && mood.value in MoodNames ==>
                var saved := MoodRecord(old(nextId), userId, mood.value, note, now, time);
                reply == Record(201, saved) && records == old(records) + [saved] && nextId == old(nextId) + 1
    {
      if !(mood.Some? && mood.value in MoodNames) {
        return Message(400, "Invalid mood type");
      }
      var saved := MoodRecord(nextId, userId, mood.value, note, now, time);
      records := records + [saved];
      nextId := nextId + 1;
      reply := Record(201, saved);
    }

    /** `getMoods` (lines 26-34): the requester's moods and no others, newest first. */
    method GetMoods(userId: string) returns (moods: seq<MoodRecord>)
      ensures SortedDesc(moods, DateOf)
      ensures multiset(moods) == multiset(OwnedBy(records, OwnerOf, userId))
      ensures forall k :: 0 <= k < |moods| ==> moods[k].userId == userId
    {
      var mine := OwnedBy(records, OwnerOf, userId);
      moods := SortDesc(mine, DateOf);
      SortDescSorted(mine, DateOf);
      SortDescPermutation(mine, DateOf);
      forall k | 0 <= k < |moods| ensures moods[k].userId == userId {
        assert moods[k] in multiset(mine);
      }
    }

    /** `getMoodById` (lines 36-53). */
    method GetMoodById(id: nat, userId: string) returns (reply: Reply)
      ensures Authorize(records, IdOf, OwnerOf, id, userId).Missing? ==> reply == Message(404, "Mood not found")
      ensures Authorize(records, IdOf, OwnerOf, id, userId).Forbidden? ==>
                reply == Message(403, "Not authorized to access this mood")
      ensures Authorize(records, IdOf, OwnerOf, id, userId).Owned? ==>
                reply == Record(200, records[Authorize(records, IdOf, OwnerOf, id, userId).index])
    {
      match Authorize(records, IdOf, OwnerOf, id, userId)
      case Missing => reply := Message(404, "Mood not found");
      case Forbidden => reply := Message(403, "Not authorized to access this mood");
      case Owned(i) => reply := Record(200, records[i]);
    }

    /** `updateMood` (lines 55-79): after the guard, sets the fields the request gives among mood,
        note and time, leaving out the ones it omits. The new mood is not checked against the six
        names. */
    method UpdateMood(id: nat, userId: string, mood: Option<string>, note: Option<string>, time: Option<string>)
      returns (reply: Reply)
      requires Valid()
      modifies this`records
      ensures Valid()
      ensures Authorize(old(records), IdOf, OwnerOf, id, userId).Missing? ==>
                reply == Message(404, "Mood not found") && records == old(records)
      ensures Authorize(old(records), IdOf, OwnerOf, id, userId).Forbidden? ==>
                reply == Message(403, "Not authorized to update this mood") && records == old(records)
      ensures Authorize(old(records), IdOf, OwnerOf, id, userId).Owned? ==>
                var i := Authorize(old(records), IdOf, OwnerOf, id, userId).index;
                records == old(records)[i := Patched(old(records)[i], mood, note, time)] &&
                reply == Record(200, records[i])
    {
      match Authorize(records, IdOf, OwnerOf, id, userId)
      case Missing => reply := Message(404, "Mood not found");
      case Forbidden => reply := Message(403, "Not authorized to update this mood");
      case Owned(i) =>
        var updated := Patched(records[i], mood, note, time);
        ReplaceKeepsUnique(records, IdOf, i, updated);
        records := records[i := updated];
        reply := Record(200, updated);
    }

    /** `deleteMood` (lines 81-99): after the guard, removes the record. */
    method DeleteMood(id: nat, userId: string) returns (reply: Reply)
      requires Valid()
      modifies this`records
      ensures Valid()
      ensures Authorize(old(records), IdOf, OwnerOf, id, userId).Missing? ==>
                reply == Message(404, "Mood not found") && records == old(records)
      ensures Authorize(old(records), IdOf, OwnerOf, id, userId).Forbidden? ==>
                reply == Message(403, "Not authorized to delete this mood") && records == old(records)
      ensures Authorize(old(records), IdOf, OwnerOf, id, userId).Owned? ==>
                reply == Message(200, "Mood deleted successfully") &&
                records == RemoveAt(old(records), Authorize(old(records), IdOf, OwnerOf, id, userId).index) &&
                forall r :: r in records <==> r in old(records) && r.id != id
    {
      match Authorize(records, IdOf, OwnerOf, id, userId)
      case Missing => reply := Message(404, "Mood not found");
      case Forbidden => reply := Message(403, "Not authorized to delete this mood");
      case Owned(i) =>
        RemoveAtExactly(records, IdOf, i);
        records := RemoveAt(records, i);
        reply := Message(200, "Mood deleted successfully");
    }

    /** `getMoodStats` (lines 102-120): the number of the requester's moods, the count of each
        mood among them, and the first of them in store order. */
    method GetMoodStats(userId: string) returns (stats: MoodStats)
      ensures var mine := OwnedBy(records, OwnerOf, userId);
              stats.total == |mine| &&
              stats.lastEntry == (if mine == [] then None else Some(mine[0])) &&
              stats.byType == Tally(mine)
      ensures Census(stats.byType, OwnedBy(records, OwnerOf, userId))
    {
      var moods := OwnedBy(records, OwnerOf, userId);
      var byType: Counts := [];
      for k := 0 to |moods|
        invariant byType == Tally(moods[..k])
      {
        TallyStep(moods, k);
        byType := Bump(byType, moods[k].mood);
      }
      TakeAll(moods);
      TallyFacts(moods);
      stats := MoodStats(|moods|, byType, if moods == [] then None else Some(moods[0]));
    }
  }

  /** The fields `findByIdAndUpdate` sets: those the request gives. */
  function Patched(r: MoodRecord, mood: Option<string>, note: Option<string>, time: Option<string>): (p: MoodRecord)
    ensures p.id == r.id && p.userId == r.userId && p.date == r.date
    ensures p.mood == (if mood.Some? then mood.value else r.mood)
    ensures p.note == (if note.Some? then note else r.note) && p.time == (if time.Some? then time else r.time)
  {
    r.(mood := if mood.Some? then mood.value else r.mood,
       note := if note.Some? then note else r.note,
       time := if time.Some? then time else r.time)
  }

  /** An update may store a mood outside the six names, which creation refuses. */
  lemma UpdateSkipsValidation()
    ensures var r := Patched(MoodRecord(0, "u", "happy", None, 0, None), Some("bored"), None, None);
            r.mood == "bored" && r.mood !in MoodNames
  {
  }
}
