/** The record store behind the two server controllers, with the Mongoose queries they use:
    `find({ userId })`, `findById`, `findByIdAndUpdate` and `findByIdAndDelete`. A collection is the
    sequence of its records in insertion order. MongoDB promises no order for a `find` without a
    sort; the model takes it to be insertion order. Every record carries a numeric id and the id of
    the user who owns it. */
module Store {
  import opened Common

  /** No two records share an id. */
  ghost predicate UniqueIds<R>(records: seq<R>, idOf: R -> nat)
  {
    forall i, j :: 0 <= i < j < |records| ==> idOf(records[i]) != idOf(records[j])
  }

  /** `findById`: the position of the record with the id, if there is one. */
  function IndexOfId<R>(records: seq<R>, idOf: R -> nat, id: nat): (r: Option<nat>)
    ensures r.None? <==> forall k :: 0 <= k < |records| ==> idOf(records[k]) != id
    ensures r.Some? ==> r.value < |records| && idOf(records[r.value]) == id
  {
    if records == [] then None
    else if idOf(records[0]) == id then Some(0)
    else
      var r := IndexOfId(records[1..], idOf, id);
      assert forall k :: 1 <= k < |records| ==> records[k] == records[1..][k - 1];
      if r.None? then None else Some(r.value + 1)
  }

  /** With unique ids the record `findById` finds is the only one carrying the id. */
  lemma IndexOfUnique<R>(records: seq<R>, idOf: R -> nat, i: int)
    requires UniqueIds(records, idOf) && 0 <= i < |records|
    ensures IndexOfId(records, idOf, idOf(records[i])) == Some(i)
  {
    var r := IndexOfId(records, idOf, idOf(records[i]));
    assert r.Some?;
    assert idOf(records[r.value]) == idOf(records[i]);
  }

  /** The outcome of the ownership guard every by-id handler runs: no record with the id (404),
      a record of another user (403), or the requester's own record at the given position. */
  datatype Access = Missing | Forbidden | Owned(index: nat)

  function Authorize<R>(records: seq<R>, idOf: R -> nat, ownerOf: R -> string, id: nat, user: string): (a: Access)
    ensures a.Missing? <==> forall k :: 0 <= k < |records| ==> idOf(records[k]) != id
    ensures a.Forbidden? <==> exists k :: 0 <= k < |records| && idOf(records[k]) == id && ownerOf(records[k]) != user &&
                                         IndexOfId(records, idOf, id) == Some(k)
    ensures a.Owned? <==> exists k :: 0 <= k < |records| && idOf(records[k]) == id && ownerOf(records[k]) == user &&
                                     IndexOfId(records, idOf, id) == Some(k)
    ensures a.Owned? ==> a.index < |records| && idOf(records[a.index]) == id && ownerOf(records[a.index]) == user
  {
    match IndexOfId(records, idOf, id)
    case None => Missing
    case Some(k) => if ownerOf(records[k]) != user then Forbidden else Owned(k)
  }

  /** The existence check comes first: an id nobody has is "not found" whoever asks, and a record
      of another user is refused only once it has been found. With unique ids the guard decides on
      the one record carrying the id. */
  lemma AuthorizeUnique<R>(records: seq<R>, idOf: R -> nat, ownerOf: R -> string, i: int, user: string)
    requires UniqueIds(records, idOf) && 0 <= i < |records|
    ensures var a := Authorize(records, idOf, ownerOf, idOf(records[i]), user);
            (a.Forbidden? <==> ownerOf(records[i]) != user) &&
            (a.Owned? <==> ownerOf(records[i]) == user) &&
            (a.Owned? ==> a.index == i)
  {
    IndexOfUnique(records, idOf, i);
  }

  /** `find({ userId })`: the user's records, in store order. */
  function OwnedBy<R>(records: seq<R>, ownerOf: R -> string, user: string): (r: seq<R>)
    ensures forall k :: 0 <= k < |r| ==> r[k] in records && ownerOf(r[k]) == user
    ensures forall k :: 0 <= k < |records| && ownerOf(records[k]) == user ==> records[k] in r
  {
    Filter(records, (x: R) => ownerOf(x) == user)
  }

  /** `findByIdAndDelete` on the record at position `i`. */
  function RemoveAt<R>(records: seq<R>, i: nat): (r: seq<R>)
    requires i < |records|
    ensures |r| == |records| - 1
  {
    records[..i] + records[i + 1..]
  }

  /** Deleting by position removes exactly the record carrying that id and nothing else, and the
      remaining ids stay unique. */
  lemma RemoveAtExactly<R>(records: seq<R>, idOf: R -> nat, i: nat)
    requires UniqueIds(records, idOf) && i < |records|
    ensures var r := RemoveAt(records, i);
            (forall x :: x in r <==> x in records && idOf(x) != idOf(records[i])) &&
            UniqueIds(r, idOf)
  {
    var r := RemoveAt(records, i);
    assert forall k :: 0 <= k < i ==> r[k] == records[k];
    assert forall k :: i <= k < |r| ==> r[k] == records[k + 1];
    forall x | x in records && idOf(x) != idOf(records[i]) ensures x in r {
      var k :| 0 <= k < |records| && records[k] == x;
      if k < i {
        assert r[k] == x;
      } else {
        assert k != i;
        assert r[k - 1] == x;
      }
    }
  }

  /** Replacing a record by one with the same id keeps the ids unique. */
  lemma ReplaceKeepsUnique<R>(records: seq<R>, idOf: R -> nat, i: nat, x: R)
    requires UniqueIds(records, idOf) && i < |records| && idOf(x) == idOf(records[i])
    ensures UniqueIds(records[i := x], idOf)
    ensures forall k :: 0 <= k < |records| ==> idOf(records[i := x][k]) == idOf(records[k])
  {
  }
}
