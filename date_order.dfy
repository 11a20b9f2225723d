/**
 * The order the photo list is served in: by `upload_date`, newest first, a record
 * without a date counting as the empty string. Python compares `str` values code point
 * by code point, a proper prefix first; for ISO-8601 timestamps that is time order.
 */
module DateOrder {
  import opened Photos

  /** Python's `a <= b` on strings. */
  predicate StrLe(a: string, b: string) {
    a == [] || (b != [] && (a[0] < b[0] || (a[0] == b[0] && StrLe(a[1..], b[1..]))))
  }

  lemma {:induction false} StrLeTotal(a: string, b: string)
    ensures StrLe(a, b) || StrLe(b, a)
  {
    if a != [] && b != [] && a[0] == b[0] {
      StrLeTotal(a[1..], b[1..]);
    }
  }

  lemma {:induction false} StrLeReflexive(a: string)
    ensures StrLe(a, a)
  {
    if a != [] {
      StrLeReflexive(a[1..]);
    }
  }

  lemma {:induction false} StrLeTransitive(a: string, b: string, c: string)
    requires StrLe(a, b) && StrLe(b, c)
    ensures StrLe(a, c)
  {
    if a != [] && a[0] == b[0] && b[0] == c[0] {
      StrLeTransitive(a[1..], b[1..], c[1..]);
    }
  }

  lemma {:induction false} StrLeAntisymmetric(a: string, b: string)
    requires StrLe(a, b) && StrLe(b, a)
    ensures a == b
  {
    if a != [] {
      StrLeAntisymmetric(a[1..], b[1..]);
      assert a == [a[0]] + a[1..] && b == [b[0]] + b[1..];
    }
  }

  /** Python's `x.get('upload_date', '')`, the sort key. */
  function DateKey(r: Record): string {
    r.uploadDate.GetOr("")
  }

  /** The records of `s` dated `d`, in their order in `s`. */
  function WithDate(s: seq<Record>, d: string): seq<Record> {
    if s == [] then []
    else (if DateKey(s[0]) == d then [s[0]] else []) + WithDate(s[1..], d)
  }

  /** For every date, the records of that date come in the same order in both. */
  ghost predicate SameOrderPerDate(s: seq<Record>, t: seq<Record>) {
    forall d :: WithDate(s, d) == WithDate(t, d)
  }

  lemma {:induction false} WithDateAppend(a: seq<Record>, b: seq<Record>, d: string)
    ensures WithDate(a + b, d) == WithDate(a, d) + WithDate(b, d)
  {
    if a == [] {
      assert a + b == b;
    } else {
      assert (a + b)[0] == a[0] && (a + b)[1..] == a[1..] + b;
      WithDateAppend(a[1..], b, d);
    }
  }

  /** A sequence with no record dated `d` has none to list. */
  lemma {:induction false} WithDateNone(s: seq<Record>, d: string)
    requires forall k :: 0 <= k < |s| ==> DateKey(s[k]) != d
    ensures WithDate(s, d) == []
  {
    if s != [] {
      assert forall k :: 0 <= k < |s[1..]| ==> s[1..][k] == s[k + 1];
      WithDateNone(s[1..], d);
    }
  }

  /** `t` is `s` with `s[i]` moved left to position `j` and the records in between shifted right. */
  predicate MovedLeft(s: seq<Record>, t: seq<Record>, i: nat, j: nat) {
    && j <= i < |s| == |t|
    && (forall k :: 0 <= k < j ==> t[k] == s[k])
    && t[j] == s[i]
    && (forall k :: j < k <= i ==> t[k] == s[k - 1])
    && (forall k :: i < k < |s| ==> t[k] == s[k])
  }

  lemma MovedLeftShape(s: seq<Record>, t: seq<Record>, i: nat, j: nat)
    requires MovedLeft(s, t, i, j)
    ensures s == s[..j] + (s[j..i] + [s[i]]) + s[i + 1..]
    ensures t == s[..j] + ([s[i]] + s[j..i]) + s[i + 1..]
  {
  }

  /** Moving a record is a permutation. */
  lemma MovedLeftPermutes(s: seq<Record>, t: seq<Record>, i: nat, j: nat)
    requires MovedLeft(s, t, i, j)
    ensures multiset(t) == multiset(s)
  {
    MovedLeftShape(s, t, i, j);
  }

  /** The step of MovedLeftKeepsOrderPerDate for one date `d`. */
  lemma MoveKeepsDate(front: seq<Record>, mid: seq<Record>, x: Record, back: seq<Record>, d: string)
    requires forall k :: 0 <= k < |mid| ==> !StrLe(DateKey(x), DateKey(mid[k]))
    ensures WithDate(front + ([x] + mid) + back, d) == WithDate(front + (mid + [x]) + back, d)
  {
    WithDateAppend(front + (mid + [x]), back, d);
    WithDateAppend(front, mid + [x], d);
    WithDateAppend(mid, [x], d);
    WithDateAppend(front + ([x] + mid), back, d);
    WithDateAppend(front, [x] + mid, d);
    WithDateAppend([x], mid, d);
    if DateKey(x) == d {
      StrLeReflexive(d);
      WithDateNone(mid, d);
    }
  }

  /**
   * Moving `s[i]` left past records all dated strictly earlier keeps the order within
   * every date.
   */
  lemma MovedLeftKeepsOrderPerDate(s: seq<Record>, t: seq<Record>, i: nat, j: nat)
    requires MovedLeft(s, t, i, j)
    requires forall k :: j <= k < i ==> !StrLe(DateKey(s[i]), DateKey(s[k]))
    ensures SameOrderPerDate(t, s)
  {
    MovedLeftShape(s, t, i, j);
    var mid := s[j..i];
    assert forall k :: 0 <= k < |mid| ==> mid[k] == s[j + k];
    forall d ensures WithDate(t, d) == WithDate(s, d) {
      MoveKeepsDate(s[..j], mid, s[i], s[i + 1..], d);
    }
  }

  /**
   * Moving `s[i]` left into a sorted prefix, past exactly the records dated strictly
   * earlier, leaves the prefix one longer and still sorted.
   */
  lemma MovedLeftKeepsSorted(s: seq<Record>, t: seq<Record>, i: nat, j: nat)
    requires MovedLeft(s, t, i, j)
    requires NewestFirstAdjacent(s[..i])
    requires forall k :: j <= k < i ==> !StrLe(DateKey(s[i]), DateKey(s[k]))
    requires j > 0 ==> StrLe(DateKey(s[i]), DateKey(s[j - 1]))
    ensures NewestFirstAdjacent(t[..i + 1])
  {
    forall k | 0 < k < i + 1 ensures StrLe(DateKey(t[k]), DateKey(t[k - 1])) {
      if k < j {
        assert s[..i][k] == t[k] && s[..i][k - 1] == t[k - 1];
      } else if k == j + 1 {
        StrLeTotal(DateKey(s[i]), DateKey(s[j]));
      } else if k > j + 1 {
        assert s[..i][k - 1] == t[k] && s[..i][k - 2] == t[k - 1];
      }
    }
  }

  lemma SameOrderPerDateTrans(s: seq<Record>, t: seq<Record>, u: seq<Record>)
    requires SameOrderPerDate(s, t) && SameOrderPerDate(t, u)
    ensures SameOrderPerDate(s, u)
  {
  }

  /** Each record is dated no later than the one before it. */
  predicate NewestFirstAdjacent(s: seq<Record>) {
    forall k :: 0 < k < |s| ==> StrLe(DateKey(s[k]), DateKey(s[k - 1]))
  }

  /** Every record is dated no later than every record before it. */
  predicate NewestFirst(s: seq<Record>) {
    forall i, j :: 0 <= i < j < |s| ==> StrLe(DateKey(s[j]), DateKey(s[i]))
  }

  lemma {:induction false} AdjacentChain(s: seq<Record>, i: int, j: int)
    requires NewestFirstAdjacent(s)
    requires 0 <= i < j < |s|
    ensures StrLe(DateKey(s[j]), DateKey(s[i]))
    decreases j - i
  {
    if j > i + 1 {
      AdjacentChain(s, i, j - 1);
      StrLeTransitive(DateKey(s[j]), DateKey(s[j - 1]), DateKey(s[i]));
    }
  }

  /** Order between neighbours is order throughout, since the string order is transitive. */
  lemma AdjacentIsNewestFirst(s: seq<Record>)
    requires NewestFirstAdjacent(s)
    ensures NewestFirst(s)
  {
    forall i, j | 0 <= i < j < |s| ensures StrLe(DateKey(s[j]), DateKey(s[i])) {
      AdjacentChain(s, i, j);
    }
  }

  lemma SameOrderPerDateTail(s: seq<Record>, t: seq<Record>)
    requires s != [] && t != [] && s[0] == t[0]
    requires SameOrderPerDate(s, t)
    ensures SameOrderPerDate(s[1..], t[1..])
  {
    forall d ensures WithDate(s[1..], d) == WithDate(t[1..], d) {
      var head := if DateKey(s[0]) == d then [s[0]] else [];
      assert WithDate(s, d) == head + WithDate(s[1..], d);
      assert WithDate(t, d) == head + WithDate(t[1..], d);
      assert (head + WithDate(s[1..], d))[|head|..] == WithDate(s[1..], d);
      assert (head + WithDate(t[1..], d))[|head|..] == WithDate(t[1..], d);
    }
  }

  /**
   * When `t` is newest first and keeps the records of every date in the order `s` has
   * them, the first record of `s` is dated no later than the first of `t`.
   */
  lemma HeadNoLaterThanNewest(s: seq<Record>, t: seq<Record>)
    requires s != [] && t != []
    requires NewestFirst(t)
    requires SameOrderPerDate(s, t)
    ensures StrLe(DateKey(s[0]), DateKey(t[0]))
  {
    var d := DateKey(s[0]);
    if forall k :: 0 <= k < |t| ==> DateKey(t[k]) != d {
      WithDateNone(t, d);
    } else {
      var k :| 0 <= k < |t| && DateKey(t[k]) == d;
      if k == 0 {
        StrLeReflexive(d);
      }
    }
  }

  /**
   * A newest-first order that keeps every date's records in a given order is unique, so
   * the sort's result is the one Python's stable sort returns.
   */
  lemma {:induction false} StableNewestFirstUnique(s: seq<Record>, t: seq<Record>)
    requires NewestFirst(s) && NewestFirst(t)
    requires SameOrderPerDate(s, t)
    ensures s == t
  {
    if s == [] && t == [] {
    } else if s == [] {
      WithDateNone(s, DateKey(t[0]));
    } else if t == [] {
      WithDateNone(t, DateKey(s[0]));
    } else {
      var d := DateKey(s[0]);
      HeadNoLaterThanNewest(s, t);
      HeadNoLaterThanNewest(t, s);
      StrLeAntisymmetric(d, DateKey(t[0]));
      assert WithDate(s, d)[0] == s[0] && WithDate(t, d)[0] == t[0];
      SameOrderPerDateTail(s, t);
      assert NewestFirst(s[1..]) by {
        assert forall k :: 0 <= k < |s[1..]| ==> s[1..][k] == s[k + 1];
      }
      assert NewestFirst(t[1..]) by {
        assert forall k :: 0 <= k < |t[1..]| ==> t[1..][k] == t[k + 1];
      }
      StableNewestFirstUnique(s[1..], t[1..]);
      assert s == [s[0]] + s[1..] && t == [t[0]] + t[1..];
    }
  }

  /**
   * Python's `photos_data.sort(key=lambda x: x.get('upload_date', ''), reverse=True)`,
   * done in place by insertion. Like Python's sort it is stable: records with the same
   * date keep their order.
   */
  method SortNewestFirst(a: array<Record>)
    modifies a
    ensures NewestFirstAdjacent(a[..])
    ensures multiset(a[..]) == old(multiset(a[..]))
    ensures SameOrderPerDate(a[..], old(a[..]))
  {
    var i := 0;
    while i < a.Length
      invariant 0 <= i <= a.Length
      invariant NewestFirstAdjacent(a[..i])
      invariant multiset(a[..]) == old(multiset(a[..]))
      invariant SameOrderPerDate(a[..], old(a[..]))
    {
      ghost var before := a[..];
      var j := Insert(a, i);
      MovedLeftPermutes(before, a[..], i, j);
      MovedLeftKeepsOrderPerDate(before, a[..], i, j);
      SameOrderPerDateTrans(a[..], before, old(a[..]));
      i := i + 1;
    }
    assert a[..a.Length] == a[..];
  }

  /**
   * Moves `a[i]` left past the records dated strictly earlier, to position `j`, shifting
   * them one place right, so that the sorted prefix grows by one.
   */
  method Insert(a: array<Record>, i: nat) returns (j: nat)
    requires i < a.Length
    requires NewestFirstAdjacent(a[..i])
    modifies a
    ensures MovedLeft(old(a[..]), a[..], i, j)
    ensures forall k :: j <= k < i ==> !StrLe(DateKey(old(a[i])), DateKey(old(a[k])))
    ensures NewestFirstAdjacent(a[..i + 1])
  {
    ghost var o := a[..];
    j := i;
    while j > 0 && !StrLe(DateKey(a[j]), DateKey(a[j - 1]))
      invariant 0 <= j <= i
      invariant forall k :: 0 <= k < j ==> a[k] == old(a[k])
      invariant a[j] == old(a[i])
      invariant forall k :: j < k <= i ==> a[k] == old(a[k - 1])
      invariant forall k :: i < k < a.Length ==> a[k] == old(a[k])
      invariant forall k :: j <= k < i ==> !StrLe(DateKey(old(a[i])), DateKey(old(a[k])))
    {
      Swap(a, j - 1);
      j := j - 1;
    }
    MovedLeftKeepsSorted(o, a[..], i, j);
  }

  /** Exchanges the neighbours `a[i]` and `a[i + 1]`. */
  method Swap(a: array<Record>, i: nat)
    requires i + 1 < a.Length
    modifies a
    ensures a[i] == old(a[i + 1]) && a[i + 1] == old(a[i])
    ensures forall k :: 0 <= k < a.Length && k != i && k != i + 1 ==> a[k] == old(a[k])
  {
    a[i], a[i + 1] := a[i + 1], a[i];
  }
}
