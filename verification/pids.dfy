/**
 * Orders on pids: the ascending order in which a std::map<int, ...> is iterated, and the
 * order std::sort leaves a list of pids in when it compares them with `<`.
 */
module PidOrder {

  /** Strictly ascending: the order of a std::map's keys. */
  predicate Ascending(s: seq<int>) {
    forall i, j :: 0 <= i < j < |s| ==> s[i] < s[j]
  }

  /** Non-decreasing: what std::sort leaves behind with `<` as the comparison. */
  predicate NonDecreasing(s: seq<int>) {
    forall i, j :: 0 <= i < j < |s| ==> s[i] <= s[j]
  }

  lemma {:induction false} MinExists(s: set<int>) returns (m: int)
    requires s != {}
    ensures m in s && forall y | y in s :: m <= y
    decreases |s|
  {
    assert (forall x :: x !in s) ==> s == {};
    var x :| x in s;
    if s == {x} {
      m := x;
      assert forall y | y in s :: m <= y;
    } else {
      var rest := s - {x};
      assert |rest| < |s|;
      var m' := MinExists(rest);
      m := if x < m' then x else m';
      assert forall y | y in s :: y == x || y in rest;
    }
  }

  /** The keys of a std::map in the order iterating it visits them: ascending. */
  method AscendingKeys(s: set<int>) returns (ks: seq<int>)
    ensures Ascending(ks) && forall x :: x in ks <==> x in s
  {
    ks := [];
    var rest := s;
    while rest != {}
      invariant rest <= s && forall x :: x in ks <==> x in s && x !in rest
      invariant Ascending(ks) && forall i, y | 0 <= i < |ks| && y in rest :: ks[i] < y
      decreases |rest|
    {
      ghost var least := MinExists(rest);
      var m :| m in rest && forall y | y in rest :: m <= y;
      ks := ks + [m];
      rest := rest - {m};
    }
  }

  /** x put at position k of a sorted list, after the elements up to x and before the rest. */
  lemma InsertedSorted(r: seq<int>, k: int, x: int)
    requires NonDecreasing(r) && 0 <= k <= |r|
    requires (forall m | 0 <= m < k :: r[m] <= x) && (k < |r| ==> x < r[k])
    ensures NonDecreasing(r[..k] + [x] + r[k..])
  {
    var r' := r[..k] + [x] + r[k..];
    forall i, j | 0 <= i < j < |r'|
      ensures r'[i] <= r'[j]
    {
      if j == k {
        assert r'[i] == r[i];
      } else if i == k {
        assert r'[j] == r[j - 1] && r[k] <= r[j - 1];
      } else if i < k < j {
        assert r'[i] == r[i] && r'[j] == r[j - 1];
      }
    }
  }

  /** One insertion step: x goes in front of the first element greater than it. */
  method InsertPid(r: seq<int>, x: int) returns (r': seq<int>)
    requires NonDecreasing(r)
    ensures multiset(r') == multiset(r) + multiset{x} && NonDecreasing(r')
  {
    var k := 0;
    while k < |r| && r[k] <= x
      invariant 0 <= k <= |r| && forall m :: 0 <= m < k ==> r[m] <= x
    {
      k := k + 1;
    }
    InsertedSorted(r, k, x);
    assert r == r[..k] + r[k..];
    r' := r[..k] + [x] + r[k..];
  }

  /**
   * The std::sort of one child list by pid (a child node's pid is the key it is stored under):
   * a non-decreasing permutation of the list.
   */
  method SortPids(s: seq<int>) returns (r: seq<int>)
    ensures multiset(r) == multiset(s) && NonDecreasing(r)
  {
    r := [];
    for i := 0 to |s|
      invariant multiset(r) == multiset(s[..i]) && NonDecreasing(r)
    {
      assert s[..i + 1] == s[..i] + [s[i]];
      r := InsertPid(r, s[i]);
    }
    assert s[..|s|] == s;
  }

  /** Two sorted arrangements of the same elements start with the same, least, element. */
  lemma SameHead(a: seq<int>, b: seq<int>)
    requires NonDecreasing(a) && NonDecreasing(b) && multiset(a) == multiset(b) && a != []
    ensures b != [] && a[0] == b[0]
  {
    assert a[0] in multiset(b);
    assert b != [] && b[0] in multiset(a);
  }

  /** Taking the same first element off two arrangements of the same elements. */
  lemma SameTail(a: seq<int>, b: seq<int>)
    requires a != [] && b != [] && a[0] == b[0] && multiset(a) == multiset(b)
    ensures multiset(a[1..]) == multiset(b[1..])
  {
    assert a == [a[0]] + a[1..] && b == [b[0]] + b[1..];
    assert multiset(a) == multiset{a[0]} + multiset(a[1..]);
    assert multiset(b) == multiset{a[0]} + multiset(b[1..]);
    assert multiset(a[1..]) == multiset(a) - multiset{a[0]};
    assert multiset(b[1..]) == multiset(b) - multiset{a[0]};
  }

  /** A strictly ascending list is the only non-decreasing arrangement of its elements. */
  lemma {:induction false} SortedUnique(a: seq<int>, b: seq<int>)
    requires NonDecreasing(a) && Ascending(b) && multiset(a) == multiset(b)
    ensures a == b
  {
    if a != [] {
      SameHead(a, b);
      SameTail(a, b);
      SortedUnique(a[1..], b[1..]);
      assert a == [a[0]] + a[1..] && b == [b[0]] + b[1..];
    } else {
      assert |multiset(b)| == 0;
    }
  }

  /** The tail of an ascending list holds everything but its head. */
  lemma AscendingTail(a: seq<int>, x: int)
    requires Ascending(a) && a != []
    ensures x in a[1..] <==> x in a && x != a[0]
  {
    assert a == [a[0]] + a[1..];
    if x in a[1..] {
      var k :| 0 <= k < |a[1..]| && a[1..][k] == x;
      assert a[k + 1] == x;
    }
  }

  /** Two ascending lists with the same elements are the same list. */
  lemma {:induction false} AscendingSameSet(a: seq<int>, b: seq<int>)
    requires Ascending(a) && Ascending(b) && forall x :: x in a <==> x in b
    ensures a == b
    decreases |a|
  {
    assert a != [] ==> a[0] in a && a[0] in b;
    assert b != [] ==> b[0] in b && b[0] in a;
    if a != [] {
      assert a[0] == b[0];
      forall x
        ensures x in a[1..] <==> x in b[1..]
      {
        AscendingTail(a, x);
        AscendingTail(b, x);
      }
      AscendingSameSet(a[1..], b[1..]);
      assert a == [a[0]] + a[1..] && b == [b[0]] + b[1..];
    }
  }

  /** An ascending list of the elements of a set is as long as the set is large. */
  lemma {:induction false} AscendingCard(a: seq<int>, s: set<int>)
    requires Ascending(a) && forall x :: x in a <==> x in s
    ensures |a| == |s|
    decreases |a|
  {
    if a != [] {
      var front := a[..|a| - 1];
      var last := a[|a| - 1];
      forall x
        ensures x in front <==> x in s - {last}
      {
        assert x in a <==> x in front || x == last by {
          assert a == front + [last];
        }
        assert x in front ==> x != last;
      }
      AscendingCard(front, s - {last});
    } else {
      assert (forall x :: x !in s) ==> s == {};
    }
  }
}
