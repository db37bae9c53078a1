/**
 * ProcessSorter (lpm/src/process_filter.cpp): sorting a process list on one field and the
 * top-N views built on it.
 *
 * The C++ hands one of seven compare* functions to std::sort. std::sort promises a
 * permutation that no later element compares before an earlier one, and nothing about
 * the order of equal keys; that promise is what `Sort` states. The body is an insertion
 * sort, one way of keeping that promise.
 */
module ProcessSorter {
  import opened Text
  import opened ProcessModel

  /** ProcessSorter::SortField. */
  datatype SortField = ByPid | ByName | ByUser | ByCpu | ByMemory | ByState | ByPpid

  /** The field's own `<`: numbers numerically, strings lexicographically. */
  predicate KeyLess(a: Process, b: Process, field: SortField) {
    match field
    case ByPid => a.pid < b.pid
    case ByName => StrLess(a.name, b.name)
    case ByUser => StrLess(a.user, b.user)
    case ByCpu => a.cpuPercent < b.cpuPercent
    case ByMemory => a.vmRSS < b.vmRSS
    case ByState => StrLess(a.state, b.state)
    case ByPpid => a.ppid < b.ppid
  }

  /** The two processes agree on the field. */
  predicate SameKey(a: Process, b: Process, field: SortField) {
    match field
    case ByPid => a.pid == b.pid
    case ByName => a.name == b.name
    case ByUser => a.user == b.user
    case ByCpu => a.cpuPercent == b.cpuPercent
    case ByMemory => a.vmRSS == b.vmRSS
    case ByState => a.state == b.state
    case ByPpid => a.ppid == b.ppid
  }

  /** comparePID .. comparePPID: `a` goes strictly before `b`. */
  predicate Compare(a: Process, b: Process, field: SortField, ascending: bool) {
    if ascending then KeyLess(a, b, field) else KeyLess(b, a, field)
  }

  lemma KeyLessIrreflexive(a: Process, field: SortField)
    ensures !KeyLess(a, a, field)
  {
    match field
    case ByName => StrLessIrreflexive(a.name);
    case ByUser => StrLessIrreflexive(a.user);
    case ByState => StrLessIrreflexive(a.state);
    case _ =>
  }

  lemma KeyLessTransitive(a: Process, b: Process, c: Process, field: SortField)
    requires KeyLess(a, b, field) && KeyLess(b, c, field)
    ensures KeyLess(a, c, field)
  {
    match field
    case ByName => StrLessTransitive(a.name, b.name, c.name);
    case ByUser => StrLessTransitive(a.user, b.user, c.user);
    case ByState => StrLessTransitive(a.state, b.state, c.state);
    case _ =>
  }

  /** Every field is totally ordered: two processes either compare or agree on it. */
  lemma KeyLessTotal(a: Process, b: Process, field: SortField)
    ensures KeyLess(a, b, field) || KeyLess(b, a, field) || SameKey(a, b, field)
  {
    match field
    case ByName => StrLessTotal(a.name, b.name);
    case ByUser => StrLessTotal(a.user, b.user);
    case ByState => StrLessTotal(a.state, b.state);
    case _ =>
  }

  /** No later element compares strictly before an earlier one. */
  predicate SortedBy(s: seq<Process>, field: SortField, ascending: bool) {
    forall i, j :: 0 <= i < j < |s| ==> !Compare(s[j], s[i], field, ascending)
  }

  /**
   * What sortedness means field by field: ascending is non-decreasing and descending is
   * non-increasing in the field's own order.
   */
  lemma SortedMeansMonotone(s: seq<Process>, field: SortField, ascending: bool, i: int, j: int)
    requires SortedBy(s, field, ascending)
    requires 0 <= i < j < |s|
    ensures ascending ==> KeyLess(s[i], s[j], field) || SameKey(s[i], s[j], field)
    ensures !ascending ==> KeyLess(s[j], s[i], field) || SameKey(s[i], s[j], field)
  {
    KeyLessTotal(s[i], s[j], field);
  }

  /** Places `x` before the first element it compares strictly before. */
  method InsertSorted(r: seq<Process>, x: Process, field: SortField, ascending: bool)
    returns (t: seq<Process>)
    requires SortedBy(r, field, ascending)
    ensures SortedBy(t, field, ascending)
    ensures multiset(t) == multiset(r) + multiset{x}
  {
    var k := 0;
    while k < |r| && !Compare(x, r[k], field, ascending)
      invariant 0 <= k <= |r|
      invariant forall i :: 0 <= i < k ==> !Compare(x, r[i], field, ascending)
    {
      k := k + 1;
    }
    t := r[..k] + [x] + r[k..];
    assert r == r[..k] + r[k..];
    InsertKeepsSorted(r, x, k, field, ascending);
  }

  lemma InsertKeepsSorted(r: seq<Process>, x: Process, k: int, field: SortField, ascending: bool)
    requires SortedBy(r, field, ascending) && 0 <= k <= |r|
    requires forall i :: 0 <= i < k ==> !Compare(x, r[i], field, ascending)
    requires k < |r| ==> Compare(x, r[k], field, ascending)
    ensures SortedBy(r[..k] + [x] + r[k..], field, ascending)
  {
    var t := r[..k] + [x] + r[k..];
    forall i, j | 0 <= i < j < |t|
      ensures !Compare(t[j], t[i], field, ascending)
    {
      if j <= k {
        assert t[i] == r[i];
      } else if i == k {
        assert t[i] == x && t[j] == r[j - 1];
        if Compare(r[j - 1], x, field, ascending) {
          CompareTransitive(r[j - 1], x, r[k], field, ascending);
          if j - 1 == k {
            CompareIrreflexive(r[k], field, ascending);
          }
        }
      } else if i < k {
        assert t[i] == r[i] && t[j] == r[j - 1];
      } else {
        assert t[i] == r[i - 1] && t[j] == r[j - 1];
      }
    }
  }

  lemma CompareIrreflexive(a: Process, field: SortField, ascending: bool)
    ensures !Compare(a, a, field, ascending)
  {
    KeyLessIrreflexive(a, field);
  }

  lemma CompareTransitive(a: Process, b: Process, c: Process, field: SortField, ascending: bool)
    requires Compare(a, b, field, ascending) && Compare(b, c, field, ascending)
    ensures Compare(a, c, field, ascending)
  {
    if ascending {
      KeyLessTransitive(a, b, c, field);
    } else {
      KeyLessTransitive(c, b, a, field);
    }
  }

  /** ProcessSorter::sort: a permutation of the input, sorted on the field in the direction. */
  method Sort(ps: seq<Process>, field: SortField, ascending: bool) returns (r: seq<Process>)
    ensures multiset(r) == multiset(ps) && |r| == |ps|
    ensures SortedBy(r, field, ascending)
  {
    r := [];
    for i := 0 to |ps|
      invariant multiset(r) == multiset(ps[..i])
      invariant SortedBy(r, field, ascending)
    {
      assert ps[..i + 1] == ps[..i] + [ps[i]];
      r := InsertSorted(r, ps[i], field, ascending);
    }
    assert ps[..|ps|] == ps;
    assert |r| == |multiset(r)| == |multiset(ps)| == |ps|;
  }

  /** Cutting a sorted list after `n` elements: nothing cut off compares before anything kept. */
  lemma SortedPrefixBeatsRest(s: seq<Process>, n: nat, field: SortField, ascending: bool)
    requires SortedBy(s, field, ascending) && n <= |s|
    ensures multiset(s) - multiset(s[..n]) == multiset(s[n..])
    ensures forall x, y :: x in s[..n] && y in multiset(s[n..]) ==> !Compare(y, x, field, ascending)
  {
    assert s == s[..n] + s[n..];
    forall x, y | x in s[..n] && y in multiset(s[n..])
      ensures !Compare(y, x, field, ascending)
    {
      var i :| 0 <= i < n && s[..n][i] == x;
      var j :| 0 <= j < |s[n..]| && s[n..][j] == y;
      assert s[i] == x && s[n + j] == y;
    }
  }

  /** ProcessSorter::topByMemory: the min(count, |ps|) processes with the largest resident memory. */
  method TopByMemory(ps: seq<Process>, count: nat) returns (r: seq<Process>)
    ensures |r| == if |ps| < count then |ps| else count
    ensures multiset(r) <= multiset(ps)
    ensures forall i, j :: 0 <= i < j < |r| ==> r[j].vmRSS <= r[i].vmRSS
    ensures forall x, y :: x in r && y in multiset(ps) - multiset(r) ==> y.vmRSS <= x.vmRSS
  {
    var sorted := Sort(ps, ByMemory, false);
    var n := if |sorted| > count then count else |sorted|;
    SortedPrefixBeatsRest(sorted, n, ByMemory, false);
    r := sorted[..n];
    assert sorted == r + sorted[n..];
    forall i, j | 0 <= i < j < |r| ensures r[j].vmRSS <= r[i].vmRSS {
      assert r[i] == sorted[i] && r[j] == sorted[j];
      assert !Compare(sorted[j], sorted[i], ByMemory, false);
    }
    forall x, y | x in r && y in multiset(ps) - multiset(r)
      ensures y.vmRSS <= x.vmRSS
    {
      assert !Compare(y, x, ByMemory, false);
    }
  }

  /** ProcessSorter::topByCPU: the min(count, |ps|) processes with the largest CPU share. */
  method TopByCpu(ps: seq<Process>, count: nat) returns (r: seq<Process>)
    ensures |r| == if |ps| < count then |ps| else count
    ensures multiset(r) <= multiset(ps)
    ensures forall i, j :: 0 <= i < j < |r| ==> r[j].cpuPercent <= r[i].cpuPercent
    ensures forall x, y :: x in r && y in multiset(ps) - multiset(r) ==> y.cpuPercent <= x.cpuPercent
  {
    var sorted := Sort(ps, ByCpu, false);
    var n := if |sorted| > count then count else |sorted|;
    SortedPrefixBeatsRest(sorted, n, ByCpu, false);
    r := sorted[..n];
    assert sorted == r + sorted[n..];
    forall i, j | 0 <= i < j < |r| ensures r[j].cpuPercent <= r[i].cpuPercent {
      assert r[i] == sorted[i] && r[j] == sorted[j];
      assert !Compare(sorted[j], sorted[i], ByCpu, false);
    }
    forall x, y | x in r && y in multiset(ps) - multiset(r)
      ensures y.cpuPercent <= x.cpuPercent
    {
      assert !Compare(y, x, ByCpu, false);
    }
  }
}
