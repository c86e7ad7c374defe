/** The journal API handlers (server/controllers/journalController.js) over the store: creation and
    update refuse missing or blank content, the by-id handlers run the not-found-then-not-authorized
    guard, entries are listed newest first, and the statistics count entries and words. A request
    body field is `None` when the request leaves it out. */
module JournalController {
  import opened Common
  import opened Text
  import opened Sorting
  import opened Store

  /** A stored journal entry (server/models/Journal.js); `date` is the creation timestamp. */
  datatype JournalRecord = JournalRecord(id: nat, userId: string, prompt: Option<string>, content: string, date: int)

  function IdOf(r: JournalRecord): nat { r.id }
  function OwnerOf(r: JournalRecord): string { r.userId }
  function DateOf(r: JournalRecord): int { r.date }

  /** What a handler sends: a status with a `{ message }` body, or a status with an entry. */
  datatype Reply = Message(status: nat, message: string) | Entry(status: nat, entry: JournalRecord)

  datatype JournalStats = JournalStats(total: nat, lastEntry: Option<JournalRecord>, totalWords: nat)

  /** `!content || content.trim() === ''`: no content, or content made only of whitespace. */
  predicate BlankContent(content: Option<string>)
  {
    content.None? || Trim(content.value) == ""
  }

  /** The blank test refuses exactly the missing content and the content with no visible
      character. */
  lemma BlankContentMeans(content: Option<string>)
    ensures BlankContent(content) <==> content.None? || AllWhitespace(content.value)
  {
  }

  /** `e.content?.split(/\s+/).length || 0`: the number of pieces of a stored content. */
  function WordCount(content: string): (n: nat)
    ensures n >= 1
  {
    |SplitOnWhitespace(content)|
  }

  /** The `reduce` of `totalWords` (line 110), adding the entries' word counts from the left. */
  function TotalWords(entries: seq<JournalRecord>): nat
  {
    if entries == [] then 0 else TotalWords(entries[..|entries| - 1]) + WordCount(entries[|entries| - 1].content)
  }

  /** One more than the number of whitespace runs per entry, independent of the fold. */
  function RunsPlusOne(entries: seq<JournalRecord>): nat
  {
    if entries == [] then 0 else WhitespaceRuns(entries[0].content) + 1 + RunsPlusOne(entries[1..])
  }

  lemma {:induction false} RunsPlusOneSnoc(entries: seq<JournalRecord>, e: JournalRecord)
    ensures RunsPlusOne(entries + [e]) == RunsPlusOne(entries) + WhitespaceRuns(e.content) + 1
  {
    if entries == [] {
      assert [e][1..] == [];
    } else {
      assert (entries + [e])[1..] == entries[1..] + [e];
      RunsPlusOneSnoc(entries[1..], e);
    }
  }

  /** Each entry adds its number of maximal whitespace runs plus one, so the total is at least the
      number of entries. */
  lemma {:induction false} TotalWordsCountsRuns(entries: seq<JournalRecord>)
    ensures TotalWords(entries) == RunsPlusOne(entries)
    ensures TotalWords(entries) >= |entries|
  {
    if entries != [] {
      var init, last := entries[..|entries| - 1], entries[|entries| - 1];
      assert entries == init + [last];
      TotalWordsCountsRuns(init);
      SplitOnWhitespaceCount(last.content);
      RunsPlusOneSnoc(init, last);
    }
  }

  class JournalStore {
    var records: seq<JournalRecord>
    var nextId: nat

    /** Ids are unique and below the next one to hand out. */
    ghost predicate Valid()
      reads this
    {
      UniqueIds(records, IdOf) && forall k :: 0 <= k < |records| ==> records[k].id < nextId
    }

    constructor ()
      ensures records == [] && nextId == 0 && Valid()
    {
      records, nextId := [], 0;
    }

    /** `createEntry` (lines 3-21), at time `now`: blank content is refused with 400; otherwise the
        entry is stored for the requester, with its content as sent (not trimmed), and returned
        with 201. */
    method CreateEntry(userId: string, prompt: Option<string>, content: Option<string>, now: int)
      returns (reply: Reply)
      requires Valid()
      modifies this
      ensures Valid()
      ensures BlankContent(content) ==>
                reply == Message(400, "Journal content is required") && records == old(records) && nextId == old(nextId)
      ensures !BlankContent(content) ==>
                var saved := JournalRecord(old(nextId), userId, prompt, content.value, now);
                reply == Entry(201, saved) && records == old(records) + [saved] && nextId == old(nextId) + 1
    {
      if BlankContent(content) {
        return Message(400, "Journal content is required");
      }
      var saved := JournalRecord(nextId, userId, prompt, content.value, now);
      records := records + [saved];
      nextId := nextId + 1;
      reply := Entry(201, saved);
    }

    /** `getEntries` (lines 23-31): the requester's entries and no others, newest first. */
    method GetEntries(userId: string) returns (entries: seq<JournalRecord>)
      ensures SortedDesc(entries, DateOf)
      ensures multiset(entries) == multiset(OwnedBy(records, OwnerOf, userId))
      ensures forall k :: 0 <= k < |entries| ==> entries[k].userId == userId
    {
      var mine := OwnedBy(records, OwnerOf, userId);
      entries := SortDesc(mine, DateOf);
      SortDescSorted(mine, DateOf);
      SortDescPermutation(mine, DateOf);
      forall k | 0 <= k < |entries| ensures entries[k].userId == userId {
        assert entries[k] in multiset(mine);
      }
    }

    /** `getEntryById` (lines 33-50). */
    method GetEntryById(id: nat, userId: string) returns (reply: Reply)
      ensures Authorize(records, IdOf, OwnerOf, id, userId).Missing? ==> reply == Message(404, "Entry not found")
      ensures Authorize(records, IdOf, OwnerOf, id, userId).Forbidden? ==>
                reply == Message(403, "Not authorized to access this entry")
      ensures Authorize(records, IdOf, OwnerOf, id, userId).Owned? ==>
                reply == Entry(200, records[Authorize(records, IdOf, OwnerOf, id, userId).index])
    {
      match Authorize(records, IdOf, OwnerOf, id, userId)
      case Missing => reply := Message(404, "Entry not found");
      case Forbidden => reply := Message(403, "Not authorized to access this entry");
      case Owned(i) => reply := Entry(200, records[i]);
    }

    /** `updateEntry` (lines 52-80): the content is checked before the entry is looked up, so blank
        content is refused with 400 even for an id nobody has; after the guard the prompt, when
        sent, and the content are replaced. */
    method UpdateEntry(id: nat, userId: string, prompt: Option<string>, content: Option<string>)
      returns (reply: Reply)
      requires Valid()
      modifies this`records
      ensures Valid()
      ensures BlankContent(content) ==> reply == Message(400, "Journal content is required") && records == old(records)
      ensures !BlankContent(content) && Authorize(old(records), IdOf, OwnerOf, id, userId).Missing? ==>
                reply == Message(404, "Entry not found") && records == old(records)
      ensures !BlankContent(content) && Authorize(old(records), IdOf, OwnerOf, id, userId).Forbidden? ==>
                reply == Message(403, "Not authorized to update this entry") && records == old(records)
      ensures !BlankContent(content) && Authorize(old(records), IdOf, OwnerOf, id, userId).Owned? ==>
                var i := Authorize(old(records), IdOf, OwnerOf, id, userId).index;
                var updated := old(records)[i].(prompt := if prompt.Some? then prompt else old(records)[i].prompt,
                                                 content := content.value);
                records == old(records)[i := updated] && reply == Entry(200, updated)
    {
      if BlankContent(content) {
        return Message(400, "Journal content is required");
      }
      match Authorize(records, IdOf, OwnerOf, id, userId)
      case Missing => reply := Message(404, "Entry not found");
      case Forbidden => reply := Message(403, "Not authorized to update this entry");
      case Owned(i) =>
        var updated := records[i].(prompt := if prompt.Some? then prompt else records[i].prompt,
                                   content := content.value);
        ReplaceKeepsUnique(records, IdOf, i, updated);
        records := records[i := updated];
        reply := Entry(200, updated);
    }

    /** `deleteEntry` (lines 82-100): after the guard, removes the entry. */
    method DeleteEntry(id: nat, userId: string) returns (reply: Reply)
      requires Valid()
      modifies this`records
      ensures Valid()
      ensures Authorize(old(records), IdOf, OwnerOf, id, userId).Missing? ==>
                reply == Message(404, "Entry not found") && records == old(records)
      ensures Authorize(old(records), IdOf, OwnerOf, id, userId).Forbidden? ==>
                reply == Message(403, "Not authorized to delete this entry") && records == old(records)
      ensures Authorize(old(records), IdOf, OwnerOf, id, userId).Owned? ==>
                reply == Message(200, "Entry deleted successfully") &&
                records == RemoveAt(old(records), Authorize(old(records), IdOf, OwnerOf, id, userId).index) &&
                forall r :: r in records <==> r in old(records) && r.id != id
    {
      match Authorize(records, IdOf, OwnerOf, id, userId)
      case Missing => reply := Message(404, "Entry not found");
      case Forbidden => reply := Message(403, "Not authorized to delete this entry");
      case Owned(i) =>
        RemoveAtExactly(records, IdOf, i);
        records := RemoveAt(records, i);
        reply := Message(200, "Entry deleted successfully");
    }

    /** `getJournalStats` (lines 102-117): the number of the requester's entries, the first of them
        in store order, and their words. */
    method GetJournalStats(userId: string) returns (stats: JournalStats)
      ensures var mine := OwnedBy(records, OwnerOf, userId);
              stats.total == |mine| &&
              stats.lastEntry == (if mine == [] then None else Some(mine[0])) &&
              stats.totalWords == RunsPlusOne(mine) &&
              stats.totalWords >= stats.total
    {
      var entries := OwnedBy(records, OwnerOf, userId);
      TotalWordsCountsRuns(entries);
      stats := JournalStats(|entries|, if entries == [] then None else Some(entries[0]), TotalWords(entries));
    }
  }
}
