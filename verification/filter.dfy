/**
 * ProcessFilter (lpm/src/process_filter.cpp): order-preserving filters over a process list.
 *
 * Every filter in the C++ is the same loop -- walk the input, push_back the processes
 * that pass a test -- with a different test. Here the tests are the constructors of
 * `Criterion`, `Matches` decides one, `Filtered` is the specification of the loop, and
 * `FilterWhere` is the loop itself.
 */
module ProcessFilter {
  import opened Text
  import opened ProcessModel

  /** std::tolower of one character in the "C" locale. */
  function LowerChar(c: char): char {
    if 'A' <= c <= 'Z' then (c as int + 32) as char else c
  }

  /** ProcessFilter::toLower: only ASCII 'A'..'Z' change, each to its lower-case letter. */
  function ToLower(s: string): (r: string)
    ensures |r| == |s|
    ensures forall i :: 0 <= i < |s| ==> ('A' <= s[i] <= 'Z' <==> r[i] != s[i])
    ensures forall i :: 0 <= i < |s| && 'A' <= s[i] <= 'Z' ==> r[i] as int == s[i] as int + 32
    ensures forall i :: 0 <= i < |s| ==> !('A' <= r[i] <= 'Z')
  {
    if s == [] then [] else [LowerChar(s[0])] + ToLower(s[1..])
  }

  lemma {:induction false} ToLowerIdempotent(s: string)
    ensures ToLower(ToLower(s)) == ToLower(s)
  {
    var t := ToLower(s);
    var u := ToLower(t);
    assert |u| == |t|;
    forall i | 0 <= i < |t|
      ensures u[i] == t[i]
    {
      assert !('A' <= t[i] <= 'Z');
    }
  }

  /** The test each filter of process_filter.cpp applies to one process. */
  datatype Criterion =
    | NameLike(pattern: string)                 // filterByName
    | UserIs(user: string)                      // filterByUser
    | StateIs(state: string)                    // filterByState
    | PidIn(minPid: int, maxPid: int)           // filterByPIDRange
    | MemoryIn(minMemory: int, maxMemory: int)  // filterByMemory
    | CpuIn(minCpu: real, maxCpu: real)         // filterByCPU
    | ParentIs(ppid: int)                       // filterByParent, getChildren
    | NameOrUserLike(query: string)             // search
    | Custom(test: Process -> bool)             // filterCustom

  predicate Matches(c: Criterion, p: Process) {
    match c
    case NameLike(pattern) => Contains(ToLower(p.name), ToLower(pattern))
    case UserIs(user) => p.user == user
    case StateIs(state) => p.state == state
    case PidIn(lo, hi) => lo <= p.pid && p.pid <= hi
    case MemoryIn(lo, hi) => lo <= p.vmRSS && p.vmRSS <= hi
    case CpuIn(lo, hi) => lo <= p.cpuPercent && p.cpuPercent <= hi
    case ParentIs(ppid) => p.ppid == ppid
    case NameOrUserLike(query) =>
      Contains(ToLower(p.name), ToLower(query)) || Contains(ToLower(p.user), ToLower(query))
    case Custom(test) => test(p)
  }

  /** What the filter loop leaves in its result vector after reading all of `ps`. */
  function Filtered(ps: seq<Process>, c: Criterion): seq<Process> {
    if ps == [] then []
    else
      var last := ps[|ps| - 1];
      Filtered(ps[..|ps| - 1], c) + (if Matches(c, last) then [last] else [])
  }

  /** `a` is `b` with some elements left out and the rest in their original order. */
  predicate IsSubsequence<T(==)>(a: seq<T>, b: seq<T>)
    decreases |b|
  {
    if a == [] then true
    else if b == [] then false
    else
      (a[|a| - 1] == b[|b| - 1] && IsSubsequence(a[..|a| - 1], b[..|b| - 1]))
      || IsSubsequence(a, b[..|b| - 1])
  }

  /** The filter keeps every passing occurrence and nothing else: exact counts, hence exact membership. */
  lemma {:induction false} FilteredCounts(ps: seq<Process>, c: Criterion, x: Process)
    ensures multiset(Filtered(ps, c))[x] == if Matches(c, x) then multiset(ps)[x] else 0
  {
    if ps != [] {
      var init, last := ps[..|ps| - 1], ps[|ps| - 1];
      FilteredCounts(init, c, x);
      assert ps == init + [last];
    }
  }

  /** The filter keeps the order of its input. */
  lemma {:induction false} FilteredIsSubsequence(ps: seq<Process>, c: Criterion)
    ensures IsSubsequence(Filtered(ps, c), ps)
  {
    if ps != [] {
      var init, last := ps[..|ps| - 1], ps[|ps| - 1];
      FilteredIsSubsequence(init, c);
      var f := Filtered(ps, c);
      if Matches(c, last) {
        assert f[..|f| - 1] == Filtered(init, c);
        assert f[|f| - 1] == ps[|ps| - 1];
      } else {
        assert f == Filtered(init, c);
        assert f == [] || IsSubsequence(f, ps[..|ps| - 1]);
      }
    }
  }

  /** Everything the two lemmas above say about one filter call. */
  lemma FilteredSpec(ps: seq<Process>, c: Criterion)
    ensures IsSubsequence(Filtered(ps, c), ps)
    ensures forall x :: x in Filtered(ps, c) <==> x in ps && Matches(c, x)
    ensures |Filtered(ps, c)| <= |ps|
  {
    FilteredIsSubsequence(ps, c);
    forall x ensures x in Filtered(ps, c) <==> x in ps && Matches(c, x) {
      FilteredCounts(ps, c, x);
    }
    FilteredLength(ps, c);
  }

  lemma {:induction false} FilteredLength(ps: seq<Process>, c: Criterion)
    ensures |Filtered(ps, c)| <= |ps|
  {
    if ps != [] {
      FilteredLength(ps[..|ps| - 1], c);
    }
  }

  /** When every process passes, the filter returns its input unchanged. */
  lemma {:induction false} FilteredKeepsAll(ps: seq<Process>, c: Criterion)
    requires forall i :: 0 <= i < |ps| ==> Matches(c, ps[i])
    ensures Filtered(ps, c) == ps
  {
    if ps != [] {
      var init, last := ps[..|ps| - 1], ps[|ps| - 1];
      assert forall i :: 0 <= i < |init| ==> init[i] == ps[i];
      FilteredKeepsAll(init, c);
      assert Matches(c, ps[|ps| - 1]);
      assert Filtered(ps, c) == init + [last];
      assert ps == init + [last];
    }
  }

  /** A weaker test keeps a superset, in the same order: what a stricter filter keeps is a subsequence. */
  lemma {:induction false} FilteredMonotone(ps: seq<Process>, c1: Criterion, c2: Criterion)
    requires forall i :: 0 <= i < |ps| && Matches(c1, ps[i]) ==> Matches(c2, ps[i])
    ensures IsSubsequence(Filtered(ps, c1), Filtered(ps, c2))
  {
    if ps != [] {
      var init, last := ps[..|ps| - 1], ps[|ps| - 1];
      FilteredMonotone(init, c1, c2);
      var f1, f2 := Filtered(ps, c1), Filtered(ps, c2);
      if Matches(c1, last) {
        assert f1[..|f1| - 1] == Filtered(init, c1);
        assert f2[..|f2| - 1] == Filtered(init, c2);
      } else if Matches(c2, last) {
        assert f1 == Filtered(init, c1);
        assert f2[..|f2| - 1] == Filtered(init, c2);
        assert f1 == [] || IsSubsequence(f1, f2[..|f2| - 1]);
      } else {
        assert f1 == Filtered(init, c1) && f2 == Filtered(init, c2);
      }
    }
  }

  /** An empty pattern occurs in every name, so filterByName("") keeps every process. */
  lemma EmptyNamePatternKeepsAll(ps: seq<Process>)
    ensures Filtered(ps, NameLike("")) == ps
  {
    forall i | 0 <= i < |ps| ensures Matches(NameLike(""), ps[i]) {
      EmptyPatternOccurs(ToLower(ps[i].name));
    }
    FilteredKeepsAll(ps, NameLike(""));
  }

  /** search("") keeps every process. */
  lemma EmptyQueryKeepsAll(ps: seq<Process>)
    ensures Filtered(ps, NameOrUserLike("")) == ps
  {
    forall i | 0 <= i < |ps| ensures Matches(NameOrUserLike(""), ps[i]) {
      EmptyPatternOccurs(ToLower(ps[i].name));
    }
    FilteredKeepsAll(ps, NameOrUserLike(""));
  }

  /** The name filter ignores the case of the pattern. */
  lemma NamePatternCaseInsensitive(ps: seq<Process>, pattern: string)
    ensures Filtered(ps, NameLike(pattern)) == Filtered(ps, NameLike(ToLower(pattern)))
  {
    ToLowerIdempotent(pattern);
    FilteredSameTest(ps, NameLike(pattern), NameLike(ToLower(pattern)));
  }

  lemma {:induction false} FilteredSameTest(ps: seq<Process>, c1: Criterion, c2: Criterion)
    requires forall i :: 0 <= i < |ps| ==> (Matches(c1, ps[i]) <==> Matches(c2, ps[i]))
    ensures Filtered(ps, c1) == Filtered(ps, c2)
  {
    if ps != [] {
      FilteredSameTest(ps[..|ps| - 1], c1, c2);
    }
  }

  /** Every process filterByName keeps, search keeps too, in the same relative order. */
  lemma NameMatchesAreSearchMatches(ps: seq<Process>, query: string)
    ensures IsSubsequence(Filtered(ps, NameLike(query)), Filtered(ps, NameOrUserLike(query)))
  {
    FilteredMonotone(ps, NameLike(query), NameOrUserLike(query));
  }

  /** The loop shared by every filter: push_back each process that passes. */
  method FilterWhere(ps: seq<Process>, c: Criterion) returns (r: seq<Process>)
    ensures r == Filtered(ps, c)
    ensures IsSubsequence(r, ps)
    ensures forall x :: x in r <==> x in ps && Matches(c, x)
  {
    r := [];
    for i := 0 to |ps|
      invariant r == Filtered(ps[..i], c)
    {
      assert ps[..i + 1][..i] == ps[..i];
      if Matches(c, ps[i]) {
        r := r + [ps[i]];
      }
    }
    assert ps[..|ps|] == ps;
    FilteredSpec(ps, c);
  }

  method FilterByName(ps: seq<Process>, namePattern: string) returns (r: seq<Process>)
    ensures r == Filtered(ps, NameLike(namePattern)) && IsSubsequence(r, ps)
    ensures forall x :: x in r <==> x in ps && Contains(ToLower(x.name), ToLower(namePattern))
  {
    r := FilterWhere(ps, NameLike(namePattern));
  }

  method FilterByUser(ps: seq<Process>, username: string) returns (r: seq<Process>)
    ensures r == Filtered(ps, UserIs(username)) && IsSubsequence(r, ps)
    ensures forall x :: x in r <==> x in ps && x.user == username
  {
    r := FilterWhere(ps, UserIs(username));
  }

  method FilterByState(ps: seq<Process>, state: string) returns (r: seq<Process>)
    ensures r == Filtered(ps, StateIs(state)) && IsSubsequence(r, ps)
    ensures forall x :: x in r <==> x in ps && x.state == state
  {
    r := FilterWhere(ps, StateIs(state));
  }

  method FilterByPidRange(ps: seq<Process>, minPid: int, maxPid: int) returns (r: seq<Process>)
    ensures r == Filtered(ps, PidIn(minPid, maxPid)) && IsSubsequence(r, ps)
    ensures forall x :: x in r <==> x in ps && minPid <= x.pid <= maxPid
  {
    r := FilterWhere(ps, PidIn(minPid, maxPid));
  }

  method FilterByMemory(ps: seq<Process>, minMemory: int, maxMemory: int) returns (r: seq<Process>)
    ensures r == Filtered(ps, MemoryIn(minMemory, maxMemory)) && IsSubsequence(r, ps)
    ensures forall x :: x in r <==> x in ps && minMemory <= x.vmRSS <= maxMemory
  {
    r := FilterWhere(ps, MemoryIn(minMemory, maxMemory));
  }

  method FilterByCpu(ps: seq<Process>, minCpu: real, maxCpu: real) returns (r: seq<Process>)
    ensures r == Filtered(ps, CpuIn(minCpu, maxCpu)) && IsSubsequence(r, ps)
    ensures forall x :: x in r <==> x in ps && minCpu <= x.cpuPercent <= maxCpu
  {
    r := FilterWhere(ps, CpuIn(minCpu, maxCpu));
  }

  method FilterByParent(ps: seq<Process>, ppid: int) returns (r: seq<Process>)
    ensures r == Filtered(ps, ParentIs(ppid)) && IsSubsequence(r, ps)
    ensures forall x :: x in r <==> x in ps && x.ppid == ppid
  {
    r := FilterWhere(ps, ParentIs(ppid));
  }

  /** getChildren is filterByParent under another name. */
  method GetChildren(ps: seq<Process>, ppid: int) returns (r: seq<Process>)
    ensures r == Filtered(ps, ParentIs(ppid))
    ensures forall x :: x in r <==> x in ps && x.ppid == ppid
  {
    r := FilterByParent(ps, ppid);
  }

  method FilterCustom(ps: seq<Process>, test: Process -> bool) returns (r: seq<Process>)
    ensures r == Filtered(ps, Custom(test)) && IsSubsequence(r, ps)
    ensures forall x :: x in r <==> x in ps && test(x)
  {
    r := FilterWhere(ps, Custom(test));
  }

  method Search(ps: seq<Process>, query: string) returns (r: seq<Process>)
    ensures r == Filtered(ps, NameOrUserLike(query)) && IsSubsequence(r, ps)
    ensures forall x :: x in r <==>
      x in ps && (Contains(ToLower(x.name), ToLower(query)) || Contains(ToLower(x.user), ToLower(query)))
  {
    r := FilterWhere(ps, NameOrUserLike(query));
  }
}
