/**
  Sequence facts the service proofs share: duplicate-freedom and removal of one element
  (`List.remove`), with the permutation that closing a rental performs.
*/
module Seqs {

  predicate Distinct<T(==)>(s: seq<T>)
  {
    forall i, j :: 0 <= i < |s| && 0 <= j < |s| && s[i] == s[j] ==> i == j
  }

  /** The list without its element at index `i`. */
  function RemoveAt<T>(s: seq<T>, i: nat): (r: seq<T>)
    requires i < |s|
    ensures |r| == |s| - 1
    ensures forall j :: 0 <= j < |r| ==> r[j] == s[if j < i then j else j + 1]
  {
    s[..i] + s[i + 1..]
  }

  /** Removal keeps every other element and the list's duplicate-freedom. */
  lemma RemoveAtMembers<T>(s: seq<T>, i: nat, x: T)
    requires i < |s|
    ensures x in RemoveAt(s, i) ==> x in s
    ensures x in s && x != s[i] ==> x in RemoveAt(s, i)
    ensures Distinct(s) ==> Distinct(RemoveAt(s, i)) && s[i] !in RemoveAt(s, i)
  {
    var r := RemoveAt(s, i);
    if x in r {
      var j :| 0 <= j < |r| && r[j] == x;
      assert s[if j < i then j else j + 1] == x;
    }
    if x in s && x != s[i] {
      var j :| 0 <= j < |s| && s[j] == x;
      assert r[if j < i then j else j - 1] == x;
    }
    if Distinct(s) {
      forall a, b | 0 <= a < |r| && 0 <= b < |r| && r[a] == r[b]
        ensures a == b
      {
        assert s[if a < i then a else a + 1] == s[if b < i then b else b + 1];
      }
      forall j | 0 <= j < |r|
        ensures r[j] != s[i]
      {
        assert r[j] == s[if j < i then j else j + 1];
      }
    }
  }

  lemma DistinctAppend<T>(s: seq<T>, x: T)
    requires Distinct(s) && x !in s
    ensures Distinct(s + [x])
  {
    var r := s + [x];
    forall a, b | 0 <= a < |r| && 0 <= b < |r| && r[a] == r[b]
      ensures a == b
    {
      assert a < |s| ==> r[a] == s[a];
      assert b < |s| ==> r[b] == s[b];
    }
  }

  /**
    Moving the element at index `i` of the first part to the very end keeps the whole list
    duplicate-free (a rental ID moving from the open list to the closed list).
  */
  lemma DistinctMoveToEnd<T>(a: seq<T>, b: seq<T>, i: nat)
    requires i < |a|
    requires Distinct(a + b)
    ensures Distinct(RemoveAt(a, i) + b + [a[i]])
  {
    var s := a + b;
    var r := RemoveAt(a, i) + b + [a[i]];
    assert |r| == |s|;
    forall j | 0 <= j < |r|
      ensures r[j] == s[if j == |r| - 1 then i else if j < i then j else j + 1]
    {
      if j < |a| - 1 {
        assert r[j] == RemoveAt(a, i)[j];
      } else if j < |r| - 1 {
        assert r[j] == b[j - (|a| - 1)];
      }
    }
    forall x, y | 0 <= x < |r| && 0 <= y < |r| && r[x] == r[y]
      ensures x == y
    {
      var px := if x == |r| - 1 then i else if x < i then x else x + 1;
      var py := if y == |r| - 1 then i else if y < i then y else y + 1;
      assert s[px] == s[py];
    }
  }
}
