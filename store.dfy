/**
 * The metadata collection as a value: id assignment, the first-match lookup and the
 * filter that deletes by id, with the properties the gallery relies on.
 */
module MetadataStore {
  import opened Photos

  /** Some record of `s` carries `id`. */
  predicate HasId(s: seq<Record>, id: int) {
    exists k :: 0 <= k < |s| && s[k].id == id
  }

  /** `k` is the position of the first record of `s` that carries `id`. */
  predicate IsFirstWithId(s: seq<Record>, id: int, k: int) {
    0 <= k < |s| && s[k].id == id && forall j :: 0 <= j < k ==> s[j].id != id
  }

  /** No two records of `s` share an id. */
  predicate UniqueIds(s: seq<Record>) {
    forall i, j :: 0 <= i < j < |s| ==> s[i].id != s[j].id
  }

  /** Ids grow strictly along the collection, as appends with fresh ids leave them. */
  predicate IncreasingIds(s: seq<Record>) {
    forall i, j :: 0 <= i < j < |s| ==> s[i].id < s[j].id
  }

  /** Python's `max(photo['id'] for photo in photos_data)` on a non-empty collection. */
  function MaxId(s: seq<Record>): (m: int)
    requires s != []
    ensures forall k :: 0 <= k < |s| ==> s[k].id <= m
    ensures exists k :: 0 <= k < |s| && s[k].id == m
  {
    if |s| == 1 then s[0].id
    else
      var rest := MaxId(s[1..]);
      assert forall k :: 1 <= k < |s| ==> s[k] == s[1..][k - 1];
      if s[0].id >= rest then s[0].id else rest
  }

  /**
   * The id the next upload receives: 1 for an empty collection, otherwise one more than
   * the largest id. It is above every id in the collection, and it is the least such
   * number once the collection is not empty.
   */
  function NextPhotoId(s: seq<Record>): (n: int)
    ensures forall k :: 0 <= k < |s| ==> s[k].id < n
    ensures s == [] ==> n == 1
    ensures s != [] ==> exists k :: 0 <= k < |s| && s[k].id == n - 1
  {
    if s == [] then 1 else MaxId(s) + 1
  }

  /** Python's `next((p for p in photos_data if p['id'] == id), None)`, as a position. */
  function FindFirst(s: seq<Record>, id: int): (r: Option<nat>)
    ensures r.None? <==> !HasId(s, id)
    ensures r.Some? ==> IsFirstWithId(s, id, r.value)
  {
    if s == [] then None
    else if s[0].id == id then Some(0)
    else
      match FindFirst(s[1..], id)
      case None =>
        assert forall k :: 1 <= k < |s| ==> s[k] == s[1..][k - 1];
        None
      case Some(k) => Some(k + 1)
  }

  /**
   * Python's `[p for p in photos_data if p['id'] != id]`: every record without that id,
   * as many times as before; RemoveIdAppend adds that their order is kept.
   */
  function RemoveId(s: seq<Record>, id: int): (r: seq<Record>)
    ensures forall k :: 0 <= k < |r| ==> r[k].id != id
    ensures |r| <= |s|
  {
    if s == [] then []
    else
      (if s[0].id == id then [] else [s[0]]) + RemoveId(s[1..], id)
  }

  /** The filter keeps every record without the id exactly as many times as it occurs. */
  lemma {:induction false} RemoveIdCounts(s: seq<Record>, id: int)
    ensures multiset(RemoveId(s, id)) <= multiset(s)
    ensures forall x: Record :: x.id != id ==> multiset(RemoveId(s, id))[x] == multiset(s)[x]
  {
    if s != [] {
      RemoveIdCounts(s[1..], id);
      var kept := if s[0].id == id then [] else [s[0]];
      assert s == [s[0]] + s[1..];
      assert multiset(s) == multiset{s[0]} + multiset(s[1..]);
      assert RemoveId(s, id) == kept + RemoveId(s[1..], id);
      assert multiset(RemoveId(s, id)) == multiset(kept) + multiset(RemoveId(s[1..], id));
    }
  }

  /** The filter works piece by piece, so it keeps the relative order of what it keeps. */
  lemma {:induction false} RemoveIdAppend(a: seq<Record>, b: seq<Record>, id: int)
    ensures RemoveId(a + b, id) == RemoveId(a, id) + RemoveId(b, id)
  {
    if a == [] {
      assert a + b == b;
    } else {
      assert (a + b)[0] == a[0] && (a + b)[1..] == a[1..] + b;
      RemoveIdAppend(a[1..], b, id);
    }
  }

  /** Filtering out an id nobody has changes nothing. */
  lemma {:induction false} RemoveIdAbsent(s: seq<Record>, id: int)
    requires !HasId(s, id)
    ensures RemoveId(s, id) == s
  {
    if s != [] {
      assert forall k :: 0 <= k < |s[1..]| ==> s[1..][k] == s[k + 1];
      RemoveIdAbsent(s[1..], id);
      assert s == [s[0]] + s[1..];
    }
  }

  /** Deleting keeps the ids of what remains unique. */
  lemma {:induction false} RemoveIdKeepsUnique(s: seq<Record>, id: int)
    ensures UniqueIds(s) ==> UniqueIds(RemoveId(s, id))
  {
    if s != [] && UniqueIds(s) {
      var tail := s[1..];
      TailKeepsUnique(s);
      RemoveIdKeepsUnique(tail, id);
      if s[0].id != id {
        var rest := RemoveId(tail, id);
        forall k | 0 <= k < |rest| ensures rest[k].id != s[0].id {
          KeptComesFrom(tail, id, k);
        }
        ConsKeepsUnique(s[0], rest);
        assert RemoveId(s, id) == [s[0]] + rest;
      }
    }
  }

  /** Every record the filter keeps is one of the input's. */
  lemma KeptComesFrom(s: seq<Record>, id: int, k: int)
    requires 0 <= k < |RemoveId(s, id)|
    ensures exists j :: 0 <= j < |s| && s[j] == RemoveId(s, id)[k]
  {
    RemoveIdCounts(s, id);
    assert RemoveId(s, id)[k] in multiset(RemoveId(s, id));
    assert RemoveId(s, id)[k] in s;
  }

  lemma ConsKeepsUnique(x: Record, s: seq<Record>)
    requires UniqueIds(s)
    requires forall k :: 0 <= k < |s| ==> s[k].id != x.id
    ensures UniqueIds([x] + s)
  {
  }

  lemma TailKeepsUnique(s: seq<Record>)
    requires s != [] && UniqueIds(s)
    ensures UniqueIds(s[1..])
  {
  }

  /** A record given the next id may be appended without breaking uniqueness. */
  lemma AppendNextIdKeepsUnique(s: seq<Record>, rec: Record)
    requires rec.id == NextPhotoId(s)
    ensures UniqueIds(s) ==> UniqueIds(s + [rec])
    ensures IsFirstWithId(s + [rec], rec.id, |s|)
  {
  }

  /** Appending with the next id keeps ids increasing in order of assignment. */
  lemma AppendNextIdKeepsIncreasing(s: seq<Record>, rec: Record)
    requires IncreasingIds(s)
    requires rec.id == NextPhotoId(s)
    ensures IncreasingIds(s + [rec])
  {
  }

  /**
   * Starting from an empty store, uploads number the photos 1, 2, 3, ...: when the ids
   * are exactly 1..n in order, the next one is n + 1.
   */
  lemma SequentialNextId(s: seq<Record>)
    requires forall k :: 0 <= k < |s| ==> s[k].id == k + 1
    ensures NextPhotoId(s) == |s| + 1
  {
    if s != [] {
      var n := NextPhotoId(s);
      assert s[|s| - 1].id < n;
      var k :| 0 <= k < |s| && s[k].id == n - 1;
    }
  }

  /** Deleting the record an upload just appended gives back the collection before it. */
  lemma DeleteUndoesAppend(s: seq<Record>, rec: Record)
    requires rec.id == NextPhotoId(s)
    ensures RemoveId(s + [rec], rec.id) == s
  {
    RemoveIdAppend(s, [rec], rec.id);
    RemoveIdAbsent(s, rec.id);
    assert RemoveId([rec], rec.id) == [] by {
      assert [rec][1..] == [];
    }
  }
}
