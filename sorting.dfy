/** Numeric ascending sort (`sort((a, b) => a - b)`) on integer lists. */
module Sorting {
  import Seqs

  predicate Sorted(s: seq<int>)
  {
    forall i, j :: 0 <= i < j < |s| ==> s[i] <= s[j]
  }

  /** Sorted and free of duplicates. */
  predicate StrictlySorted(s: seq<int>)
  {
    forall i, j :: 0 <= i < j < |s| ==> s[i] < s[j]
  }

  /** A list whose first element is at most every later one, and whose tail is sorted, is sorted. */
  lemma SortedCons(a: int, t: seq<int>)
    requires Sorted(t)
    requires forall k :: 0 <= k < |t| ==> a <= t[k]
    ensures Sorted([a] + t)
  {
    var s := [a] + t;
    forall i, j | 0 <= i < j < |s|
      ensures s[i] <= s[j]
    {
      if i > 0 { assert s[i] == t[i - 1] && s[j] == t[j - 1]; }
      else { assert s[j] == t[j - 1]; }
    }
  }

  /** The same for the duplicate-free variant. */
  lemma StrictlySortedCons(a: int, t: seq<int>)
    requires StrictlySorted(t)
    requires forall k :: 0 <= k < |t| ==> a < t[k]
    ensures StrictlySorted([a] + t)
  {
    var s := [a] + t;
    forall i, j | 0 <= i < j < |s|
      ensures s[i] < s[j]
    {
      if i > 0 { assert s[i] == t[i - 1] && s[j] == t[j - 1]; }
      else { assert s[j] == t[j - 1]; }
    }
  }

  /** Inserts `x` into a list before the first element not below it. */
  function Insert(x: int, s: seq<int>): (r: seq<int>)
    ensures |r| == |s| + 1
    ensures forall k :: 0 <= k < |r| ==> r[k] == x || r[k] in s
    ensures multiset(r) == multiset(s) + multiset{x}
    decreases |s|
  {
    if s == [] then [x]
    else if x <= s[0] then [x] + s
    else
      assert s == [s[0]] + s[1..];
      [s[0]] + Insert(x, s[1..])
  }

  /** Inserting into a sorted list keeps it sorted. */
  lemma {:induction false} InsertSorted(x: int, s: seq<int>)
    requires Sorted(s)
    ensures Sorted(Insert(x, s))
    decreases |s|
  {
    if s == [] {
    } else if x <= s[0] {
      SortedCons(x, s);
    } else {
      var t := Insert(x, s[1..]);
      InsertSorted(x, s[1..]);
      forall k | 0 <= k < |t|
        ensures s[0] <= t[k]
      {
        if t[k] != x {
          var m :| 0 <= m < |s[1..]| && s[1..][m] == t[k];
          assert s[m + 1] == t[k];
        }
      }
      SortedCons(s[0], t);
    }
  }

  /** Inserting a new value into a duplicate-free sorted list keeps it duplicate-free. */
  lemma {:induction false} InsertStrictlySorted(x: int, s: seq<int>)
    requires StrictlySorted(s) && x !in s
    ensures StrictlySorted(Insert(x, s))
    decreases |s|
  {
    if s == [] {
    } else if x <= s[0] {
      assert x != s[0];
      StrictlySortedCons(x, s);
    } else {
      var t := Insert(x, s[1..]);
      InsertStrictlySorted(x, s[1..]);
      forall k | 0 <= k < |t|
        ensures s[0] < t[k]
      {
        if t[k] != x {
          var m :| 0 <= m < |s[1..]| && s[1..][m] == t[k];
          assert s[m + 1] == t[k];
        }
      }
      StrictlySortedCons(s[0], t);
    }
  }

  /** The ascending permutation of `s`. */
  function Sort(s: seq<int>): (r: seq<int>)
    ensures Sorted(r)
    ensures multiset(r) == multiset(s)
    decreases |s|
  {
    if s == [] then []
    else
      var init := Sort(s[..|s| - 1]);
      assert s == s[..|s| - 1] + [s[|s| - 1]];
      InsertSorted(s[|s| - 1], init);
      Insert(s[|s| - 1], init)
  }

  /** The head of a sorted list is at most every value the list contains. */
  lemma SortedHeadIsLeast(s: seq<int>, v: int)
    requires Sorted(s) && v in s
    ensures s[0] <= v
  {
    var i :| 0 <= i < |s| && s[i] == v;
    if i > 0 { assert s[0] <= s[i]; }
  }

  /** A sorted list is determined by its multiset of elements. */
  lemma {:induction false} SortedUnique(a: seq<int>, b: seq<int>)
    requires Sorted(a) && Sorted(b)
    requires multiset(a) == multiset(b)
    ensures a == b
    decreases |a|
  {
    if a == [] {
      assert |multiset(b)| == 0;
    } else {
      assert a[0] in multiset(b);
      assert b != [];
      assert b[0] in multiset(a);
      SortedHeadIsLeast(b, a[0]);
      SortedHeadIsLeast(a, b[0]);
      var x := a[0];
      assert a == [x] + a[1..];
      assert b == [x] + b[1..];
      assert multiset(a[1..]) == multiset(a) - multiset{x};
      assert multiset(b[1..]) == multiset(b) - multiset{x};
      assert Sorted(a[1..]) && Sorted(b[1..]);
      SortedUnique(a[1..], b[1..]);
    }
  }

  lemma HeadIsMember(s: seq<int>)
    ensures s != [] ==> s[0] in s
  {
  }

  /** A duplicate-free sorted list is determined by which values it contains. */
  lemma {:induction false} StrictlySortedUnique(a: seq<int>, b: seq<int>)
    requires StrictlySorted(a) && StrictlySorted(b)
    requires forall x :: x in a <==> x in b
    ensures a == b
    decreases |a|
  {
    if a == [] {
      HeadIsMember(b);
    } else {
      assert a[0] in a;
      assert b != [];
      assert b[0] in b;
      SortedHeadIsLeast(b, a[0]);
      SortedHeadIsLeast(a, b[0]);
      forall x
        ensures x in a[1..] <==> x in b[1..]
      {
        if x in a[1..] {
          var k :| 0 <= k < |a[1..]| && a[1..][k] == x;
          assert a[0] < a[k + 1];
          assert x in b;
          assert b == [b[0]] + b[1..];
        }
        if x in b[1..] {
          var k :| 0 <= k < |b[1..]| && b[1..][k] == x;
          assert b[0] < b[k + 1];
          assert x in a;
          assert a == [a[0]] + a[1..];
        }
      }
      StrictlySortedUnique(a[1..], b[1..]);
    }
  }

  /** Sorting a sorted list extended by one value is inserting that value. */
  lemma SortAppendIsInsert(s: seq<int>, x: int)
    requires Sorted(s)
    ensures Sort(s + [x]) == Insert(x, s)
  {
    InsertSorted(x, s);
    SortedUnique(Sort(s + [x]), Insert(x, s));
  }

  /** Every subsequence of a duplicate-free sorted list is duplicate-free and sorted. */
  lemma {:induction false} SubsequenceStrictlySorted(r: seq<int>, s: seq<int>)
    requires StrictlySorted(s)
    requires Seqs.IsSubsequence(r, s)
    ensures StrictlySorted(r)
    ensures forall k :: 0 <= k < |r| ==> r[k] in s
    decreases |s|
  {
    if s != [] {
      assert StrictlySorted(s[1..]);
      if r != [] && r[0] == s[0] && Seqs.IsSubsequence(r[1..], s[1..]) {
        SubsequenceStrictlySorted(r[1..], s[1..]);
        forall k | 0 <= k < |r[1..]|
          ensures r[0] < r[1..][k]
        {
          var m :| 0 <= m < |s[1..]| && s[1..][m] == r[1..][k];
          assert s[0] < s[m + 1];
        }
        StrictlySortedCons(r[0], r[1..]);
        assert r == [r[0]] + r[1..];
      } else {
        SubsequenceStrictlySorted(r, s[1..]);
      }
    }
  }
}
