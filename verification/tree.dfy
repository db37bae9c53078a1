/**
 * ProcessTree (lpm/src/process_tree.cpp): the parent/child forest built from a process list,
 * its depths, the descendants of a process and the text lines that draw the forest.
 *
 * The C++ allocates one ProcessTreeNode per pid and links them by address; here the nodes
 * live in a map from pid to node (the map the C++ already keeps as nodeMap), and a node's
 * children are the pids of its child nodes. Everything about the shape of the forest is
 * said in terms of the ancestor chain: the parent of a node is the node named by its ppid,
 * when there is one.
 */
module ProcessTree {
  import opened Wrappers
  import opened Text
  import opened ProcessModel
  import opened PidOrder

  /** ProcessTreeNode: the process, the pids of its children, its depth. */
  datatype TreeNode = TreeNode(process: Process, children: seq<int>, depth: int)

  type Nodes = map<int, TreeNode>

  /** The processes of a forest by pid: all the parent links depend on. */
  type Procs = map<int, Process>

  function ProcsOf(t: Nodes): (p: Procs)
    ensures p.Keys == t.Keys && |p| == |t|
    ensures forall x | x in t :: p[x] == t[x].process
  {
    var p := map x | x in t :: t[x].process;
    assert p.Keys == t.Keys;
    p
  }

  /** The node's parent in the forest: the node its ppid names, if there is one. */
  function ParentOf(t: Procs, x: int): (r: Option<int>)
    ensures r.Some? ==> x in t && r.value in t && r.value == t[x].ppid
  {
    if x in t && t[x].ppid in t then Some(t[x].ppid) else None
  }

  /** The k-th ancestor of x (x itself for k = 0), as long as the chain stays in the forest. */
  function Ancestor(t: Procs, x: int, k: nat): (r: Option<int>)
    ensures r.Some? ==> x in t && r.value in t
  {
    if k == 0 then (if x in t then Some(x) else None)
    else
      match Ancestor(t, x, k - 1)
      case None => None
      case Some(a) => ParentOf(t, a)
  }

  /** A node no parent is found for: buildTree puts it among the roots. */
  predicate IsRoot(t: Procs, x: int) {
    x in t && t[x].ppid !in t
  }

  /** Following parents from x comes back to x. */
  ghost predicate OnCycle(t: Procs, x: int) {
    exists k: nat :: 1 <= k && Ancestor(t, x, k) == Some(x)
  }

  /** x is d steps below a root. */
  predicate RootAt(t: Procs, x: int, d: nat) {
    Ancestor(t, x, d).Some? && IsRoot(t, Ancestor(t, x, d).value)
  }

  /** Going up a steps and then b steps is going up a + b steps. */
  lemma {:induction false} AncestorCompose(t: Procs, y: int, a: nat, b: nat)
    requires Ancestor(t, y, a).Some?
    ensures Ancestor(t, y, a + b) == Ancestor(t, Ancestor(t, y, a).value, b)
    decreases b
  {
    if b > 0 {
      AncestorCompose(t, y, a, b - 1);
    }
  }

  /** The c-th ancestor seen from the a-th one. */
  lemma AncestorSplit(t: Procs, y: int, a: nat, c: nat)
    requires a <= c && Ancestor(t, y, a).Some?
    ensures Ancestor(t, y, c) == Ancestor(t, Ancestor(t, y, a).value, c - a)
  {
    AncestorCompose(t, y, a, c - a);
  }

  /** One step up, then k more: the k-th ancestor of the parent. */
  lemma AncestorOfParent(t: Procs, c: int, k: nat)
    requires ParentOf(t, c).Some?
    ensures Ancestor(t, c, k + 1) == Ancestor(t, ParentOf(t, c).value, k)
  {
    AncestorCompose(t, c, 1, k);
  }

  /** Nothing is found above a root. */
  lemma RootNotOnCycle(t: Procs, r: int)
    requires IsRoot(t, r)
    ensures !OnCycle(t, r)
  {
    forall k: nat | 1 <= k
      ensures Ancestor(t, r, k) != Some(r)
    {
      NoneAfter(t, r, 1, k - 1);
    }
  }

  /** A chain that has left the forest does not come back. */
  lemma {:induction false} NoneAfter(t: Procs, y: int, a: nat, b: nat)
    requires Ancestor(t, y, a) == None
    ensures Ancestor(t, y, a + b) == None
    decreases b
  {
    if b > 0 {
      NoneAfter(t, y, a, b - 1);
    }
  }

  /**
   * Below a node that is not on a cycle every chain of ancestors is made of distinct nodes,
   * so it is shorter than the number of nodes.
   */
  lemma ChainBound(t: Procs, y: int, k: nat)
    requires Ancestor(t, y, k).Some? && !OnCycle(t, Ancestor(t, y, k).value)
    ensures k < |t|
  {
    forall i: nat | i <= k
      ensures Ancestor(t, y, i).Some?
    {
      if Ancestor(t, y, i) == None {
        NoneAfter(t, y, i, k - i);
      }
    }
    var chain := seq(k + 1, i requires 0 <= i <= k => Ancestor(t, y, i).value);
    forall i, j | 0 <= i < j < |chain|
      ensures chain[i] != chain[j]
    {
      if chain[i] == chain[j] {
        Periodic(t, y, i, j, k);
      }
    }
    DistinctBound(chain, t.Keys);
  }

  /** A repeated node on the chain puts the k-th ancestor on a cycle. */
  lemma Periodic(t: Procs, y: int, i: nat, j: nat, k: nat)
    requires i < j <= k && Ancestor(t, y, k).Some?
    requires Ancestor(t, y, i).Some? && Ancestor(t, y, i) == Ancestor(t, y, j)
    ensures OnCycle(t, Ancestor(t, y, k).value)
  {
    var x := Ancestor(t, y, k).value;
    var z := Ancestor(t, y, i).value;
    var n := j - i;
    AncestorSplit(t, y, i, k);
    AncestorSplit(t, y, j, k + n);
    AncestorSplit(t, y, k, k + n);
  }

  /** A sequence of distinct members of a set is no longer than the set. */
  lemma {:induction false} DistinctBound(s: seq<int>, keys: set<int>)
    requires forall i :: 0 <= i < |s| ==> s[i] in keys
    requires forall i, j :: 0 <= i < j < |s| ==> s[i] != s[j]
    ensures |s| <= |keys|
  {
    if s != [] {
      var rest := s[1..];
      assert forall i :: 0 <= i < |rest| ==> rest[i] in keys - {s[0]} by {
        forall i | 0 <= i < |rest|
          ensures rest[i] in keys - {s[0]}
        {
          assert rest[i] == s[i + 1];
        }
      }
      DistinctBound(rest, keys - {s[0]});
    }
  }

  /** x is some number of steps below a root: buildTree reaches it from that root. */
  ghost predicate Rooted(t: Procs, x: int) {
    exists d: nat :: RootAt(t, x, d)
  }

  /** y is x itself or one of x's descendants. */
  ghost predicate Under(t: Procs, y: int, x: int) {
    exists j: nat :: Ancestor(t, y, j) == Some(x)
  }

  /** y is below one of the pids of cs from the i-th on. */
  ghost predicate UnderFrom(t: Procs, y: int, cs: seq<int>, i: int) {
    exists m: nat, j: nat :: i <= m < |cs| && Ancestor(t, y, j) == Some(cs[m])
  }

  /** Going round a cycle m times comes back to the start. */
  lemma {:induction false} CycleRepeats(t: Procs, x: int, k: nat, m: nat)
    requires 1 <= k && Ancestor(t, x, k) == Some(x)
    ensures Ancestor(t, x, m * k) == Some(x)
    decreases m
  {
    if m > 0 {
      CycleRepeats(t, x, k, m - 1);
      AncestorCompose(t, x, (m - 1) * k, k);
      assert (m - 1) * k + k == m * k;
    }
  }

  /** Every node above a node on a cycle is on that cycle too. */
  lemma AboveCycle(t: Procs, x: int, k: nat)
    requires OnCycle(t, x) && Ancestor(t, x, k).Some?
    ensures OnCycle(t, Ancestor(t, x, k).value)
  {
    var n: nat :| 1 <= n && Ancestor(t, x, n) == Some(x);
    AncestorCompose(t, x, k, n);
    AncestorCompose(t, x, n, k);
  }

  /** A node is below at most one root, at one distance. */
  lemma UnderOneRoot(t: Procs, r1: int, r2: int, y: int, j1: nat, j2: nat)
    requires IsRoot(t, r1) && IsRoot(t, r2)
    requires Ancestor(t, y, j1) == Some(r1) && Ancestor(t, y, j2) == Some(r2)
    ensures j1 == j2 && r1 == r2
  {
    if j1 < j2 {
      assert Ancestor(t, y, j1 + 1) == None;
      NoneAfter(t, y, j1 + 1, j2 - j1 - 1);
    } else if j2 < j1 {
      assert Ancestor(t, y, j2 + 1) == None;
      NoneAfter(t, y, j2 + 1, j1 - j2 - 1);
    }
  }

  /** Below a node that is not on a cycle, a descendant sits under only one of its children. */
  lemma UnderOneChild(t: Procs, x: int, c1: int, c2: int, y: int, j1: nat, j2: nat)
    requires ParentOf(t, c1) == Some(x) && ParentOf(t, c2) == Some(x) && !OnCycle(t, x)
    requires Ancestor(t, y, j1) == Some(c1) && Ancestor(t, y, j2) == Some(c2)
    ensures c1 == c2
  {
    assert Ancestor(t, y, j1 + 1) == Some(x);
    assert Ancestor(t, y, j2 + 1) == Some(x);
    if j1 < j2 {
      Periodic(t, y, j1 + 1, j2 + 1, j2 + 1);
    } else if j2 < j1 {
      Periodic(t, y, j2 + 1, j1 + 1, j1 + 1);
    }
  }

  /** A node that is not on a cycle is not below its own child. */
  lemma NotUnderChild(t: Procs, x: int, c: int)
    requires ParentOf(t, c) == Some(x) && !OnCycle(t, x)
    ensures !Under(t, x, c)
  {
    forall j: nat
      ensures Ancestor(t, x, j) != Some(c)
    {
      assert Ancestor(t, x, j) == Some(c) ==> Ancestor(t, x, j + 1) == Some(x);
    }
  }

  /**
   * The child lists agree with the parent links: the children of n are exactly the nodes whose
   * ppid is n, in ascending pid order.
   */
  ghost predicate ChildrenRight(t: Nodes) {
    (forall n, c | n in t :: c in t[n].children <==> c in t && t[c].process.ppid == n) &&
    (forall n | n in t :: Ascending(t[n].children))
  }

  /** p holds the processes of t. */
  predicate Matches(t: Nodes, p: Procs) {
    t.Keys == p.Keys && forall y | y in t :: t[y].process == p[y]
  }

  lemma ProcsOfMatches(t: Nodes)
    ensures Matches(t, ProcsOf(t))
  {
  }

  lemma ChildParent(t: Nodes, p: Procs, x: int, m: int)
    requires Matches(t, p) && ChildrenRight(t) && x in t && 0 <= m < |t[x].children|
    ensures ParentOf(p, t[x].children[m]) == Some(x)
  {
    assert t[x].children[m] in t[x].children;
  }

  /** Below the m-th child of x is below x, one step further. */
  lemma UnderParent(t: Nodes, p: Procs, x: int, m: int, y: int, j: nat)
    requires Matches(t, p) && ChildrenRight(t) && x in t && 0 <= m < |t[x].children|
    requires Ancestor(p, y, j) == Some(t[x].children[m])
    ensures Ancestor(p, y, j + 1) == Some(x)
  {
    ChildParent(t, p, x, m);
  }

  /** One step below x is below one of x's children. */
  lemma UnderChild(t: Nodes, p: Procs, x: int, y: int, j: nat) returns (m: nat)
    requires Matches(t, p) && ChildrenRight(t) && x in t && 1 <= j && Ancestor(p, y, j) == Some(x)
    ensures m < |t[x].children| && Ancestor(p, y, j - 1) == Some(t[x].children[m])
  {
    var c := Ancestor(p, y, j - 1).value;
    assert ParentOf(p, c) == Some(x);
    assert c in t[x].children;
    m :| 0 <= m < |t[x].children| && t[x].children[m] == c;
  }

  /** Siblings have no descendant in common. */
  lemma SiblingsApart(t: Nodes, p: Procs, x: int, m: nat, i: nat, y: int, j: nat)
    requires Matches(t, p) && ChildrenRight(t) && x in t && !OnCycle(p, x)
    requires m < |t[x].children| && i < |t[x].children| && m != i
    requires Ancestor(p, y, j) == Some(t[x].children[m])
    ensures !Under(p, y, t[x].children[i])
  {
    var cs := t[x].children;
    ChildParent(t, p, x, m);
    ChildParent(t, p, x, i);
    forall j2: nat
      ensures Ancestor(p, y, j2) != Some(cs[i])
    {
      if Ancestor(p, y, j2) == Some(cs[i]) {
        UnderOneChild(p, x, cs[m], cs[i], y, j, j2);
      }
    }
  }

  /** The two maps differ at most in depths. */
  predicate SameLinks(r: Nodes, t: Nodes) {
    r.Keys == t.Keys &&
    forall y | y in t :: r[y].process == t[y].process && r[y].children == t[y].children
  }

  /**
   * The links of the forest are right and x hangs k steps below a node that is not on a cycle:
   * such a node for k = 0, otherwise a node whose parent hangs one step less below it.
   */
  ghost predicate Hangs(t: Nodes, p: Procs, x: int, k: nat)
    ensures Hangs(t, p, x, k) ==> Matches(t, p) && ChildrenRight(t) && x in t
    decreases k
  {
    if k == 0 then Matches(t, p) && ChildrenRight(t) && x in t && !OnCycle(p, x)
    else ParentOf(p, x).Some? && Hangs(t, p, ParentOf(p, x).value, k - 1)
  }

  /** Hangs in terms of the k-th ancestor. */
  lemma {:induction false} HangsIff(t: Nodes, p: Procs, x: int, k: nat)
    ensures Hangs(t, p, x, k) <==>
      Matches(t, p) && ChildrenRight(t) && Ancestor(p, x, k).Some? && !OnCycle(p, Ancestor(p, x, k).value)
    decreases k
  {
    if k > 0 {
      if ParentOf(p, x).Some? {
        HangsIff(t, p, ParentOf(p, x).value, k - 1);
        AncestorOfParent(p, x, k - 1);
      } else {
        assert Ancestor(p, x, 1) == None;
        NoneAfter(p, x, 1, k - 1);
      }
    }
  }

  /** What the proofs about a hanging node draw on. */
  lemma HangsFacts(t: Nodes, p: Procs, x: int, k: nat)
    requires Hangs(t, p, x, k)
    ensures Matches(t, p) && ChildrenRight(t) && x in t && k < |p| && !OnCycle(p, x)
  {
    HangsIff(t, p, x, k);
    ChainBound(p, x, k);
    if OnCycle(p, x) {
      AboveCycle(p, x, k);
    }
  }

  /** Changing depths keeps a node hanging where it was. */
  lemma SameLinksHangs(r: Nodes, t: Nodes, p: Procs, x: int, depth: nat)
    requires Hangs(t, p, x, depth) && SameLinks(r, t)
    ensures Hangs(r, p, x, depth) && r[x].children == t[x].children
  {
    HangsIff(t, p, x, depth);
    HangsIff(r, p, x, depth);
  }

  /** The i-th child of a hanging node hangs one step further down. */
  lemma ChildHangs(t: Nodes, p: Procs, x: int, depth: nat, i: nat)
    requires Hangs(t, p, x, depth) && i < |t[x].children|
    ensures Hangs(t, p, t[x].children[i], depth + 1)
  {
    HangsFacts(t, p, x, depth);
    ChildParent(t, p, x, i);
  }

  /**
   * ProcessTree::buildTreeRecursive(node, depth), with the node named by its pid: x gets the
   * depth, then each child in turn, with its subtree, the depth one more. The recursion ends
   * because x hangs depth steps below a node that is not on a cycle (a root, when buildTree
   * calls it), so no chain of children is longer than the forest. `p` names the processes of
   * the forest, which no step changes.
   */
  function SetDepths(t: Nodes, ghost p: Procs, x: int, depth: nat): (r: Nodes)
    requires Hangs(t, p, x, depth)
    ensures SameLinks(r, t)
    decreases |p| - depth, 1
  {
    HangsFacts(t, p, x, depth);
    var t' := t[x := t[x].(depth := depth)];
    SameLinksHangs(t', t, p, x, depth);
    SetChildDepths(t', p, x, depth, 0)
  }

  /** The loop of buildTreeRecursive over x's children, from the i-th on. */
  function SetChildDepths(t: Nodes, ghost p: Procs, x: int, depth: nat, i: nat): (r: Nodes)
    requires Hangs(t, p, x, depth) && i <= |t[x].children| && depth < |p|
    ensures SameLinks(r, t)
    decreases |p| - depth, 0, |t[x].children| - i
  {
    if i == |t[x].children| then t
    else
      ChildHangs(t, p, x, depth, i);
      var t' := SetDepths(t, p, t[x].children[i], depth + 1);
      SameLinksHangs(t', t, p, x, depth);
      SetChildDepths(t', p, x, depth, i + 1)
  }

  /** buildTreeRecursive(x, depth) leaves every node not below x as it was. */
  lemma {:induction false} SetDepthsOff(t: Nodes, p: Procs, x: int, depth: nat, y: int)
    requires Hangs(t, p, x, depth) && y in t && !Under(p, y, x)
    ensures SetDepths(t, p, x, depth)[y] == t[y]
    decreases |p| - depth, 1
  {
    HangsFacts(t, p, x, depth);
    var cs := t[x].children;
    var t1 := t[x := t[x].(depth := depth)];
    SameLinksHangs(t1, t, p, x, depth);
    assert Ancestor(p, x, 0) == Some(x);
    forall m, j: nat | 0 <= m < |cs|
      ensures Ancestor(p, y, j) != Some(cs[m])
    {
      if Ancestor(p, y, j) == Some(cs[m]) {
        UnderParent(t, p, x, m, y, j);
      }
    }
    SetChildDepthsOff(t1, p, x, depth, 0, y);
  }

  /** The loop over x's children from the i-th on leaves every node below none of them as it was. */
  lemma {:induction false} SetChildDepthsOff(t: Nodes, p: Procs, x: int, depth: nat, i: nat, y: int)
    requires Hangs(t, p, x, depth) && i <= |t[x].children| && depth < |p|
    requires y in t && !UnderFrom(p, y, t[x].children, i)
    ensures SetChildDepths(t, p, x, depth, i)[y] == t[y]
    decreases |p| - depth, 0, |t[x].children| - i
  {
    var cs := t[x].children;
    if i < |cs| {
      ChildHangs(t, p, x, depth, i);
      var t' := SetDepths(t, p, cs[i], depth + 1);
      SameLinksHangs(t', t, p, x, depth);
      forall j: nat
        ensures Ancestor(p, y, j) != Some(cs[i])
      {
        assert Ancestor(p, y, j) == Some(cs[i]) ==> UnderFrom(p, y, cs, i);
      }
      SetDepthsOff(t, p, cs[i], depth + 1, y);
      SetChildDepthsOff(t', p, x, depth, i + 1, y);
    }
  }

  /** buildTreeRecursive(x, depth) gives the node j steps below x the depth depth + j. */
  lemma {:induction false} SetDepthsAt(t: Nodes, p: Procs, x: int, depth: nat, y: int, j: nat)
    requires Hangs(t, p, x, depth) && Ancestor(p, y, j) == Some(x)
    ensures SetDepths(t, p, x, depth)[y].depth == depth + j
    decreases |p| - depth, 1
  {
    HangsFacts(t, p, x, depth);
    var cs := t[x].children;
    var t1 := t[x := t[x].(depth := depth)];
    SameLinksHangs(t1, t, p, x, depth);
    if j == 0 {
      NotUnderChildren(t, p, x, depth);
      SetChildDepthsOff(t1, p, x, depth, 0, x);
    } else {
      var m := UnderChild(t, p, x, y, j);
      SetChildDepthsAt(t1, p, x, depth, 0, m, y, j - 1);
    }
  }

  /**
   * The loop over x's children from the i-th on gives the node j steps below the m-th child
   * (m >= i) the depth depth + 1 + j.
   */
  lemma {:induction false} SetChildDepthsAt(t: Nodes, p: Procs, x: int, depth: nat, i: nat, m: nat, y: int, j: nat)
    requires Hangs(t, p, x, depth) && i <= m < |t[x].children| && depth < |p|
    requires Ancestor(p, y, j) == Some(t[x].children[m])
    ensures SetChildDepths(t, p, x, depth, i)[y].depth == depth + 1 + j
    decreases |p| - depth, 0, |t[x].children| - i
  {
    var cs := t[x].children;
    ChildHangs(t, p, x, depth, i);
    var t' := SetDepths(t, p, cs[i], depth + 1);
    SameLinksHangs(t', t, p, x, depth);
    if m == i {
      SetDepthsAt(t, p, cs[i], depth + 1, y, j);
      NotUnderLater(t, p, x, depth, i, y, j);
      SetChildDepthsOff(t', p, x, depth, i + 1, y);
    } else {
      SetChildDepthsAt(t', p, x, depth, i + 1, m, y, j);
    }
  }

  /** A hanging node is below none of its children. */
  lemma NotUnderChildren(t: Nodes, p: Procs, x: int, depth: nat)
    requires Hangs(t, p, x, depth)
    ensures !UnderFrom(p, x, t[x].children, 0)
  {
    HangsFacts(t, p, x, depth);
    forall m | 0 <= m < |t[x].children|
      ensures !Under(p, x, t[x].children[m])
    {
      ChildParent(t, p, x, m);
      NotUnderChild(p, x, t[x].children[m]);
    }
  }

  /** A node below the i-th child of x is below none of the later children. */
  lemma NotUnderLater(t: Nodes, p: Procs, x: int, depth: nat, i: nat, y: int, j: nat)
    requires Hangs(t, p, x, depth) && i < |t[x].children| && Ancestor(p, y, j) == Some(t[x].children[i])
    ensures !UnderFrom(p, y, t[x].children, i + 1)
  {
    HangsFacts(t, p, x, depth);
    forall m | i + 1 <= m < |t[x].children|
      ensures !Under(p, y, t[x].children[m])
    {
      SiblingsApart(t, p, x, i, m, y, j);
    }
  }

  // ---------------------------------------------------------------------------------------
  // buildTree, pass by pass

  /** ps[i] is the last process of the list with its pid. */
  predicate LastWithPid(ps: seq<Process>, i: int) {
    0 <= i < |ps| && forall j | i < j < |ps| :: ps[j].pid != ps[i].pid
  }

  /** The processes of a list by pid, a later process replacing an earlier one with its pid. */
  function Index(ps: seq<Process>): (r: Procs)
    ensures ps != [] ==> r == Index(ps[..|ps| - 1])[ps[|ps| - 1].pid := ps[|ps| - 1]]
  {
    if ps == [] then map[] else Index(ps[..|ps| - 1])[ps[|ps| - 1].pid := ps[|ps| - 1]]
  }

  /** Every pid of the list is in the index. */
  lemma {:induction false} IndexHas(ps: seq<Process>, i: int)
    requires 0 <= i < |ps|
    ensures ps[i].pid in Index(ps)
  {
    if i < |ps| - 1 {
      IndexHas(ps[..|ps| - 1], i);
    }
  }

  /** Every pid in the index is that of the last process of the list with that pid. */
  lemma {:induction false} IndexLast(ps: seq<Process>, x: int) returns (i: int)
    requires x in Index(ps)
    ensures LastWithPid(ps, i) && ps[i].pid == x && Index(ps)[x] == ps[i]
  {
    var front := ps[..|ps| - 1];
    if ps[|ps| - 1].pid == x {
      i := |ps| - 1;
    } else {
      i := IndexLast(front, x);
      assert forall j | 0 <= j < |front| :: front[j] == ps[j];
    }
  }

  /** The last process with a pid is the one the index holds for it. */
  lemma IndexOfLast(ps: seq<Process>, i: int)
    requires LastWithPid(ps, i)
    ensures ps[i].pid in Index(ps) && Index(ps)[ps[i].pid] == ps[i]
  {
    IndexHas(ps, i);
    var k := IndexLast(ps, ps[i].pid);
    assert k == i;
  }

  /**
   * The first pass of buildTree: one node per process, with no children and depth 0 (the
   * ProcessTreeNode constructor), a later process overwriting the node of an earlier one with
   * the same pid.
   */
  method CreateNodes(processes: seq<Process>) returns (t: Nodes)
    ensures Matches(t, Index(processes))
    ensures forall x | x in t :: t[x].children == [] && t[x].depth == 0
  {
    t := map[];
    for i := 0 to |processes|
      invariant Matches(t, Index(processes[..i]))
      invariant forall x | x in t :: t[x].children == [] && t[x].depth == 0
    {
      assert processes[..i + 1][..i] == processes[..i];
      t := t[processes[i].pid := TreeNode(processes[i], [], 0)];
    }
    assert processes[..|processes|] == processes;
  }

  /** The pids of ks, in order, whose parent in the forest is h (None: the roots). */
  function WithParent(p: Procs, ks: seq<int>, h: Option<int>): (r: seq<int>)
    ensures |r| <= |ks|
  {
    if ks == [] then []
    else
      var c := ks[|ks| - 1];
      WithParent(p, ks[..|ks| - 1], h) + (if c in p && ParentOf(p, c) == h then [c] else [])
  }

  /** One more pid of ks: WithParent grows by it or stays. */
  lemma WithParentPrefix(p: Procs, ks: seq<int>, i: int, h: Option<int>)
    requires 0 <= i < |ks|
    ensures WithParent(p, ks[..i + 1], h) ==
      WithParent(p, ks[..i], h) + (if ks[i] in p && ParentOf(p, ks[i]) == h then [ks[i]] else [])
  {
    assert ks[..i + 1][..i] == ks[..i];
  }

  /**
   * What one more pid c of ks changes: c joins the children of its parent when it has one,
   * the roots otherwise, and nothing else.
   */
  lemma LinkStep(p: Procs, ks: seq<int>, i: int)
    requires 0 <= i < |ks| && ks[i] in p
    ensures forall n :: (WithParent(p, ks[..i + 1], Some(n)) ==
      WithParent(p, ks[..i], Some(n)) + (if n == p[ks[i]].ppid && n in p then [ks[i]] else []))
    ensures WithParent(p, ks[..i + 1], None) ==
      WithParent(p, ks[..i], None) + (if p[ks[i]].ppid !in p then [ks[i]] else [])
  {
    forall h: Option<int> {
      WithParentPrefix(p, ks, i, h);
    }
  }

  /** WithParent keeps exactly the pids of ks that are in the forest and have parent h. */
  lemma {:induction false} WithParentHas(p: Procs, ks: seq<int>, h: Option<int>, c: int)
    ensures c in WithParent(p, ks, h) <==> c in ks && c in p && ParentOf(p, c) == h
  {
    if ks != [] {
      var front := ks[..|ks| - 1];
      WithParentHas(p, front, h, c);
      assert ks == front + [ks[|ks| - 1]];
    }
  }

  /** WithParent of an ascending list is ascending. */
  lemma {:induction false} WithParentAscending(p: Procs, ks: seq<int>, h: Option<int>)
    requires Ascending(ks)
    ensures Ascending(WithParent(p, ks, h))
  {
    if ks != [] {
      var front := ks[..|ks| - 1];
      var c := ks[|ks| - 1];
      WithParentAscending(p, front, h);
      var r' := WithParent(p, front, h);
      forall i | 0 <= i < |r'|
        ensures r'[i] < c
      {
        WithParentHas(p, front, h, r'[i]);
      }
    }
  }

  /**
   * The second pass of buildTree, over the pids ks in the order of nodeMap: a node whose ppid
   * names a node is appended to that node's children, any other node to the roots.
   */
  method LinkNodes(t0: Nodes, ghost p: Procs, ks: seq<int>) returns (t: Nodes, roots: seq<int>)
    requires Matches(t0, p) && forall x | x in t0 :: t0[x].children == []
    requires forall i | 0 <= i < |ks| :: ks[i] in t0
    ensures t.Keys == t0.Keys
    ensures forall n | n in t :: t[n] == t0[n].(children := WithParent(p, ks, Some(n)))
    ensures roots == WithParent(p, ks, None)
  {
    t, roots := t0, [];
    for i := 0 to |ks|
      invariant t.Keys == t0.Keys
      invariant forall n | n in t :: t[n] == t0[n].(children := WithParent(p, ks[..i], Some(n)))
      invariant roots == WithParent(p, ks[..i], None)
    {
      LinkStep(p, ks, i);
      var c := ks[i];
      var ppid := t[c].process.ppid;
      if ppid in t {
        t := t[ppid := t[ppid].(children := t[ppid].children + [c])];
      } else {
        roots := roots + [c];
      }
    }
    assert ks[..|ks|] == ks;
  }

  /** After the second pass the child lists agree with the parent links. */
  lemma LinksRight(t: Nodes, p: Procs, ks: seq<int>)
    requires Matches(t, p) && Ascending(ks) && forall x :: x in ks <==> x in t
    requires forall n | n in t :: t[n].children == WithParent(p, ks, Some(n))
    ensures ChildrenRight(t)
  {
    forall n, c | n in t
      ensures c in t[n].children <==> c in t && t[c].process.ppid == n
    {
      WithParentHas(p, ks, Some(n), c);
    }
    forall n | n in t
      ensures Ascending(t[n].children)
    {
      WithParentAscending(p, ks, Some(n));
    }
  }

  /** After the second pass the roots are the nodes without a parent, in ascending order. */
  lemma RootsRight(p: Procs, ks: seq<int>)
    requires Ascending(ks) && forall x :: x in ks <==> x in p
    ensures Ascending(WithParent(p, ks, None))
    ensures forall x :: x in WithParent(p, ks, None) <==> IsRoot(p, x)
  {
    WithParentAscending(p, ks, None);
    forall x
      ensures x in WithParent(p, ks, None) <==> IsRoot(p, x)
    {
      WithParentHas(p, ks, None, x);
    }
  }

  /** The number of children of the nodes ns. */
  ghost function ChildTotal(t: Nodes, ns: seq<int>): nat {
    if ns == [] then 0
    else ChildTotal(t, ns[..|ns| - 1]) + (if ns[|ns| - 1] in t then |t[ns[|ns| - 1]].children| else 0)
  }

  /** The number of pids of ks whose parent is one of ns. */
  ghost function ParentedTotal(p: Procs, ks: seq<int>, ns: seq<int>): nat {
    if ns == [] then 0 else ParentedTotal(p, ks, ns[..|ns| - 1]) + |WithParent(p, ks, Some(ns[|ns| - 1]))|
  }

  /** Appending c to the pids appends it to the list of its parent's children. */
  lemma WithParentSnoc(p: Procs, ks: seq<int>, c: int, h: Option<int>)
    ensures WithParent(p, ks + [c], h) == WithParent(p, ks, h) + (if c in p && ParentOf(p, c) == h then [c] else [])
  {
    assert (ks + [c])[..|ks|] == ks;
  }

  /** One more pid c: the total grows by one exactly when the parent of c is one of ns. */
  lemma {:induction false} ParentedStep(p: Procs, ks: seq<int>, c: int, ns: seq<int>)
    requires Ascending(ns)
    ensures ParentedTotal(p, ks + [c], ns) ==
      ParentedTotal(p, ks, ns) + (if ParentOf(p, c).Some? && ParentOf(p, c).value in ns then 1 else 0)
    decreases |ns|
  {
    if ns != [] {
      var front := ns[..|ns| - 1];
      var n := ns[|ns| - 1];
      assert Ascending(front) by {
        assert forall i | 0 <= i < |front| :: front[i] == ns[i];
      }
      ParentedStep(p, ks, c, front);
      WithParentSnoc(p, ks, c, Some(n));
      assert ns == front + [n];
      assert n !in front by {
        assert forall i | 0 <= i < |front| :: front[i] < n;
      }
    }
  }

  /** No pids, no children. */
  lemma {:induction false} ParentedNone(p: Procs, ns: seq<int>)
    ensures ParentedTotal(p, [], ns) == 0
    decreases |ns|
  {
    if ns != [] {
      ParentedNone(p, ns[..|ns| - 1]);
    }
  }

  /** Every pid of ks is placed once: among the roots, or among the children of its parent. */
  lemma {:induction false} PlacedOnceLinks(p: Procs, ks: seq<int>, ns: seq<int>)
    requires Ascending(ns) && (forall x :: x in ns <==> x in p)
    requires forall i | 0 <= i < |ks| :: ks[i] in p
    ensures |WithParent(p, ks, None)| + ParentedTotal(p, ks, ns) == |ks|
    decreases |ks|
  {
    if ks != [] {
      var front := ks[..|ks| - 1];
      var c := ks[|ks| - 1];
      assert ks == front + [c];
      assert forall i | 0 <= i < |front| :: front[i] == ks[i];
      PlacedOnceLinks(p, front, ns);
      ParentedStep(p, front, c, ns);
      assert c in p;
      assert WithParent(p, ks, None) == WithParent(p, front, None) + (if ParentOf(p, c) == None then [c] else []);
      assert ParentOf(p, c).Some? ==> ParentOf(p, c).value in ns;
    } else {
      ParentedNone(p, ns);
    }
  }

  /** The child total of the nodes ns, when their children are those WithParent finds. */
  lemma {:induction false} ChildTotalLinks(t: Nodes, p: Procs, ks: seq<int>, ns: seq<int>)
    requires forall i | 0 <= i < |ns| :: ns[i] in t && t[ns[i]].children == WithParent(p, ks, Some(ns[i]))
    ensures ChildTotal(t, ns) == ParentedTotal(p, ks, ns)
    decreases |ns|
  {
    if ns != [] {
      var front := ns[..|ns| - 1];
      assert forall i | 0 <= i < |front| :: front[i] == ns[i];
      ChildTotalLinks(t, p, ks, front);
    }
  }

  /**
   * The last pass of buildTree, over the pids ks in the order of nodeMap: each child list is
   * sorted by pid. The lists the second pass built are already ascending, so nothing changes.
   */
  method SortChildren(t0: Nodes, ks: seq<int>) returns (t: Nodes)
    requires forall i | 0 <= i < |ks| :: ks[i] in t0
    requires forall n | n in t0 :: Ascending(t0[n].children)
    ensures t == t0
  {
    t := t0;
    for i := 0 to |ks|
      invariant t == t0
    {
      var n := ks[i];
      var sorted := SortPids(t[n].children);
      assert Ascending(t0[n].children);
      SortedUnique(sorted, t[n].children);
      t := t[n := t[n].(children := sorted)];
    }
  }

  /** Every pid of roots is a root of the forest t, whose links agree with p. */
  ghost predicate RootList(t: Nodes, p: Procs, roots: seq<int>) {
    forall m | 0 <= m < |roots| :: Matches(t, p) && ChildrenRight(t) && IsRoot(p, roots[m])
  }

  /** The depths of a forest after the depth pass of buildTree over the first i roots. */
  ghost function RootDepths(t: Nodes, p: Procs, roots: seq<int>, i: nat): (r: Nodes)
    requires i <= |roots|
    ensures SameLinks(r, t)
  {
    if i == 0 then t
    else
      var r := RootDepths(t, p, roots, i - 1);
      if Hangs(r, p, roots[i - 1], 0) then SetDepths(r, p, roots[i - 1], 0) else r
  }

  /** A root hangs 0 steps below itself, in any forest with the same links. */
  lemma RootHangs(r: Nodes, t: Nodes, p: Procs, x: int)
    requires Matches(t, p) && ChildrenRight(t) && SameLinks(r, t) && IsRoot(p, x)
    ensures Hangs(r, p, x, 0)
  {
    RootNotOnCycle(p, x);
  }

  /** One step of the depth pass: the i-th root hangs in the forest the earlier roots left. */
  lemma RootDepthsStep(t: Nodes, p: Procs, roots: seq<int>, i: nat)
    requires RootList(t, p, roots) && 0 < i <= |roots|
    ensures Hangs(RootDepths(t, p, roots, i - 1), p, roots[i - 1], 0)
    ensures RootDepths(t, p, roots, i) == SetDepths(RootDepths(t, p, roots, i - 1), p, roots[i - 1], 0)
  {
    RootHangs(RootDepths(t, p, roots, i - 1), t, p, roots[i - 1]);
  }

  /** A node below one root is below no other root. */
  lemma OtherRoot(p: Procs, r1: int, r2: int, y: int, j: nat)
    requires IsRoot(p, r1) && IsRoot(p, r2) && r1 != r2 && Ancestor(p, y, j) == Some(r1)
    ensures !Under(p, y, r2)
  {
    forall j2: nat
      ensures Ancestor(p, y, j2) != Some(r2)
    {
      if Ancestor(p, y, j2) == Some(r2) {
        UnderOneRoot(p, r1, r2, y, j, j2);
      }
    }
  }

  /** The i-th step of the depth pass gives a node j steps below the i-th root the depth j. */
  lemma RootDepthsLast(t: Nodes, p: Procs, roots: seq<int>, i: nat, y: int, j: nat)
    requires RootList(t, p, roots) && 0 < i <= |roots| && Ancestor(p, y, j) == Some(roots[i - 1])
    ensures RootDepths(t, p, roots, i)[y].depth == j
  {
    RootDepthsStep(t, p, roots, i);
    SetDepthsAt(RootDepths(t, p, roots, i - 1), p, roots[i - 1], 0, y, j);
  }

  /** The i-th step of the depth pass leaves a node not below the i-th root as it was. */
  lemma RootDepthsKeep(t: Nodes, p: Procs, roots: seq<int>, i: nat, y: int)
    requires RootList(t, p, roots) && 0 < i <= |roots| && y in t && !Under(p, y, roots[i - 1])
    ensures RootDepths(t, p, roots, i)[y] == RootDepths(t, p, roots, i - 1)[y]
  {
    RootDepthsStep(t, p, roots, i);
    SetDepthsOff(RootDepths(t, p, roots, i - 1), p, roots[i - 1], 0, y);
  }

  /** The depth pass gives a node j steps below the m-th root (m < i) the depth j. */
  lemma {:induction false} RootDepthsAt(t: Nodes, p: Procs, roots: seq<int>, i: nat, m: nat, y: int, j: nat)
    requires RootList(t, p, roots) && i <= |roots| && Ascending(roots)
    requires m < i && Ancestor(p, y, j) == Some(roots[m])
    ensures RootDepths(t, p, roots, i)[y].depth == j
  {
    if m == i - 1 {
      RootDepthsLast(t, p, roots, i, y, j);
    } else {
      RootDepthsAt(t, p, roots, i - 1, m, y, j);
      OtherRoot(p, roots[m], roots[i - 1], y, j);
      RootDepthsKeep(t, p, roots, i, y);
    }
  }

  /** The depth pass over the first i roots leaves a node below none of them as it was. */
  lemma {:induction false} RootDepthsOff(t: Nodes, p: Procs, roots: seq<int>, i: nat, y: int)
    requires RootList(t, p, roots) && i <= |roots|
    requires y in t && forall m | 0 <= m < i :: !Under(p, y, roots[m])
    ensures RootDepths(t, p, roots, i)[y] == t[y]
  {
    if i > 0 {
      RootDepthsOff(t, p, roots, i - 1, y);
      RootDepthsKeep(t, p, roots, i, y);
    }
  }

  /** buildTreeRecursive(root, 0) for the i-th root, on the forest the earlier roots left. */
  function DepthsFromRoot(t0: Nodes, ghost p: Procs, roots: seq<int>, i: nat, t: Nodes): (r: Nodes)
    requires RootList(t0, p, roots) && i < |roots| && t == RootDepths(t0, p, roots, i)
    ensures r == RootDepths(t0, p, roots, i + 1)
  {
    RootDepthsStep(t0, p, roots, i + 1);
    SetDepths(t, p, roots[i], 0)
  }

  /** The third pass of buildTree: buildTreeRecursive(root, 0) for each root in turn. */
  method SetRootDepths(t0: Nodes, ghost p: Procs, roots: seq<int>) returns (t: Nodes)
    requires RootList(t0, p, roots)
    ensures t == RootDepths(t0, p, roots, |roots|)
  {
    t := t0;
    for i := 0 to |roots|
      invariant t == RootDepths(t0, p, roots, i)
    {
      t := DepthsFromRoot(t0, p, roots, i, t);
    }
  }

  /**
   * The depths buildTree leaves: a node d steps below a root has depth d, and a node below
   * no root (on a cycle of ppids, or below one) keeps the depth 0 it was created with.
   */
  ghost predicate DepthsRight(t: Nodes, p: Procs) {
    (forall y, d: nat | RootAt(p, y, d) :: y in t && t[y].depth == d) &&
    (forall y | y in t && !Rooted(p, y) :: t[y].depth == 0)
  }

  /** The depth pass over all the roots, in a forest created with depth 0 everywhere. */
  lemma RootDepthsRight(t: Nodes, p: Procs, roots: seq<int>)
    requires RootList(t, p, roots) && Ascending(roots)
    requires forall x :: x in roots <==> IsRoot(p, x)
    requires forall x | x in t :: t[x].depth == 0
    ensures DepthsRight(RootDepths(t, p, roots, |roots|), p)
  {
    var r := RootDepths(t, p, roots, |roots|);
    forall y, d: nat | RootAt(p, y, d)
      ensures y in r && r[y].depth == d
    {
      var m :| 0 <= m < |roots| && roots[m] == Ancestor(p, y, d).value;
      RootDepthsAt(t, p, roots, |roots|, m, y, d);
    }
    forall y | y in r && !Rooted(p, y)
      ensures r[y].depth == 0
    {
      forall m | 0 <= m < |roots|
        ensures !Under(p, y, roots[m])
      {
        forall j: nat
          ensures Ancestor(p, y, j) != Some(roots[m])
        {
          assert Ancestor(p, y, j) == Some(roots[m]) ==> RootAt(p, y, j);
        }
      }
      RootDepthsOff(t, p, roots, |roots|, y);
    }
  }

  // ---------------------------------------------------------------------------------------
  // The tree as buildTree leaves it

  /** The index keeps each process under its own pid. */
  lemma IndexPids(ps: seq<Process>, x: int)
    requires x in Index(ps)
    ensures Index(ps)[x].pid == x
  {
    var i := IndexLast(ps, x);
  }

  lemma MatchesProcsOf(t: Nodes, p: Procs)
    requires Matches(t, p)
    ensures ProcsOf(t) == p
  {
    assert ProcsOf(t).Keys == p.Keys;
    assert forall x | x in p :: ProcsOf(t)[x] == p[x];
  }

  /** Changing depths keeps the links right. */
  lemma SameLinksRight(r: Nodes, t: Nodes, p: Procs)
    requires SameLinks(r, t) && Matches(t, p) && ChildrenRight(t)
    ensures Matches(r, p) && ChildrenRight(r)
  {
  }

  /**
   * A tree as buildTree leaves it: each node stored under its pid, the child lists agreeing
   * with the parent links, the roots exactly the nodes without a parent, in ascending order,
   * and every depth right.
   */
  ghost predicate Built(t: Nodes, roots: seq<int>) {
    (forall x | x in t :: t[x].process.pid == x) &&
    ChildrenRight(t) && Ascending(roots) &&
    (forall x :: x in roots <==> IsRoot(ProcsOf(t), x)) &&
    DepthsRight(t, ProcsOf(t))
  }

  /**
   * The second pass of buildTree: t holds the nodes the first pass created for the processes
   * p, ks their pids in ascending order, t2 and rs what the second pass makes of them.
   */
  lemma LinkRight(t: Nodes, p: Procs, ks: seq<int>, t2: Nodes, rs: seq<int>)
    requires Matches(t, p) && (forall x | x in t :: t[x].children == [] && t[x].depth == 0)
    requires Ascending(ks) && forall x :: x in ks <==> x in t
    requires t2.Keys == t.Keys && forall n | n in t2 :: t2[n] == t[n].(children := WithParent(p, ks, Some(n)))
    requires rs == WithParent(p, ks, None)
    ensures Matches(t2, p) && ChildrenRight(t2) && RootList(t2, p, rs)
    ensures Ascending(rs) && (forall x :: x in rs <==> IsRoot(p, x))
    ensures forall x | x in t2 :: t2[x].depth == 0
  {
    assert Matches(t2, p);
    LinksRight(t2, p, ks);
    RootsRight(p, ks);
  }

  /** The third pass of buildTree, on the forest the second pass left. */
  lemma DepthsPassRight(t: Nodes, p: Procs, rs: seq<int>)
    requires Matches(t, p) && ChildrenRight(t) && RootList(t, p, rs)
    requires Ascending(rs) && (forall x :: x in rs <==> IsRoot(p, x))
    requires forall x | x in t :: t[x].depth == 0
    requires forall x | x in p :: p[x].pid == x
    ensures Built(RootDepths(t, p, rs, |rs|), rs) && ProcsOf(RootDepths(t, p, rs, |rs|)) == p
    ensures RootDepths(t, p, rs, |rs|).Keys == t.Keys
  {
    RootDepthsRight(t, p, rs);
    var r := RootDepths(t, p, rs, |rs|);
    SameLinksRight(r, t, p);
    MatchesProcsOf(r, p);
  }

  /** The four passes of buildTree over a process list, from an empty tree. */
  method BuildPasses(processes: seq<Process>) returns (t: Nodes, roots: seq<int>)
    ensures Built(t, roots) && ProcsOf(t) == Index(processes)
  {
    ghost var p := Index(processes);
    var t1 := CreateNodes(processes);
    var ks := AscendingKeys(t1.Keys);
    forall i | 0 <= i < |ks|
      ensures ks[i] in t1
    {
      assert ks[i] in ks;
    }
    var t2, rs := LinkNodes(t1, p, ks);
    forall x | x in p
      ensures p[x].pid == x
    {
      IndexPids(processes, x);
    }
    LinkRight(t1, p, ks, t2, rs);
    DepthsPassRight(t2, p, rs);
    var t3 := SetRootDepths(t2, p, rs);
    t := SortChildren(t3, ks);
    roots := rs;
  }

  /** A child list that agrees with the parent links is the one the second pass finds. */
  lemma ChildrenAre(t: Nodes, p: Procs, ks: seq<int>, n: int)
    requires Matches(t, p) && ChildrenRight(t) && n in t
    requires Ascending(ks) && forall x :: x in ks <==> x in t
    ensures t[n].children == WithParent(p, ks, Some(n))
  {
    WithParentAscending(p, ks, Some(n));
    forall c
      ensures c in t[n].children <==> c in WithParent(p, ks, Some(n))
    {
      WithParentHas(p, ks, Some(n), c);
    }
    AscendingSameSet(t[n].children, WithParent(p, ks, Some(n)));
  }

  /** The links of a built tree are the ones the second pass of buildTree finds. */
  lemma BuiltLinks(t: Nodes, roots: seq<int>, ks: seq<int>)
    requires Built(t, roots) && Ascending(ks) && forall x :: x in ks <==> x in t
    ensures roots == WithParent(ProcsOf(t), ks, None)
    ensures forall n | n in t :: t[n].children == WithParent(ProcsOf(t), ks, Some(n))
  {
    var p := ProcsOf(t);
    ProcsOfMatches(t);
    RootsRight(p, ks);
    AscendingSameSet(roots, WithParent(p, ks, None));
    forall n | n in t
      ensures t[n].children == WithParent(p, ks, Some(n))
    {
      ChildrenAre(t, p, ks, n);
    }
  }

  /**
   * Each node of a built tree is placed exactly once, among the roots or among the children
   * of its parent: the roots and all the child lists together are as many as the nodes.
   */
  lemma PlacedOnce(t: Nodes, roots: seq<int>, ks: seq<int>)
    requires Built(t, roots) && Ascending(ks) && forall x :: x in ks <==> x in t
    ensures |roots| + ChildTotal(t, ks) == |t|
  {
    BuiltLinks(t, roots, ks);
    forall i | 0 <= i < |ks|
      ensures ks[i] in t
    {
      assert ks[i] in ks;
    }
    ChildTotalLinks(t, ProcsOf(t), ks, ks);
    PlacedOnceLinks(ProcsOf(t), ks, ks);
    AscendingCard(ks, t.Keys);
  }

  // ---------------------------------------------------------------------------------------
  // getDescendants

  /** y is strictly below x: some number of parent steps, at least one, lead from y to x. */
  ghost predicate Below(t: Procs, y: int, x: int) {
    exists j: nat :: 1 <= j && Ancestor(t, y, j) == Some(x)
  }

  /** No pid occurs twice. */
  predicate Distinct(s: seq<int>) {
    forall i, j | 0 <= i < j < |s| :: s[i] != s[j]
  }

  /**
   * What getDescendantsRecursive appends for the node x: each child of x in turn, followed by
   * what it appends for that child. It ends for the same reason buildTreeRecursive does.
   */
  ghost function Desc(t: Nodes, p: Procs, x: int, depth: nat): (r: seq<int>)
    requires Hangs(t, p, x, depth)
    ensures forall y | y in r :: y in t
    decreases |p| - depth, 1
  {
    HangsFacts(t, p, x, depth);
    DescFrom(t, p, x, depth, 0)
  }

  /** The loop of getDescendantsRecursive over x's children, from the i-th on. */
  ghost function DescFrom(t: Nodes, p: Procs, x: int, depth: nat, i: nat): (r: seq<int>)
    requires Hangs(t, p, x, depth) && i <= |t[x].children| && depth < |p|
    ensures forall y | y in r :: y in t
    decreases |p| - depth, 0, |t[x].children| - i
  {
    if i == |t[x].children| then []
    else
      ChildHangs(t, p, x, depth, i);
      var c := t[x].children[i];
      [c] + Desc(t, p, c, depth + 1) + DescFrom(t, p, x, depth, i + 1)
  }

  /** The nodes getDescendantsRecursive collects for x are exactly the nodes below x. */
  lemma {:induction false} DescHas(t: Nodes, p: Procs, x: int, depth: nat, y: int)
    requires Hangs(t, p, x, depth)
    ensures y in Desc(t, p, x, depth) <==> Below(p, y, x)
    decreases |p| - depth, 1
  {
    HangsFacts(t, p, x, depth);
    DescFromHas(t, p, x, depth, 0, y);
    if Below(p, y, x) {
      var j: nat :| 1 <= j && Ancestor(p, y, j) == Some(x);
      var m := UnderChild(t, p, x, y, j);
      assert UnderFrom(p, y, t[x].children, 0);
    }
    if UnderFrom(p, y, t[x].children, 0) {
      var m: nat, j: nat :| m < |t[x].children| && Ancestor(p, y, j) == Some(t[x].children[m]);
      UnderParent(t, p, x, m, y, j);
    }
  }

  /** The loop from the i-th child on collects exactly the nodes under the i-th child or a later one. */
  lemma {:induction false} DescFromHas(t: Nodes, p: Procs, x: int, depth: nat, i: nat, y: int)
    requires Hangs(t, p, x, depth) && i <= |t[x].children| && depth < |p|
    ensures y in DescFrom(t, p, x, depth, i) <==> UnderFrom(p, y, t[x].children, i)
    decreases |p| - depth, 0, |t[x].children| - i
  {
    var cs := t[x].children;
    if i < |cs| {
      ChildHangs(t, p, x, depth, i);
      DescHas(t, p, cs[i], depth + 1, y);
      DescFromHas(t, p, x, depth, i + 1, y);
      UnderStep(p, y, cs, i);
    }
  }

  /** Under the i-th pid of cs or a later one: under the i-th itself, or under a later one. */
  lemma UnderStep(p: Procs, y: int, cs: seq<int>, i: nat)
    requires i < |cs| && cs[i] in p
    ensures UnderFrom(p, y, cs, i) <==> y == cs[i] || Below(p, y, cs[i]) || UnderFrom(p, y, cs, i + 1)
  {
    if UnderFrom(p, y, cs, i) {
      var m: nat, j: nat :| i <= m < |cs| && Ancestor(p, y, j) == Some(cs[m]);
      assert m == i && j == 0 ==> y == cs[i];
      assert m == i && j >= 1 ==> Below(p, y, cs[i]);
    }
    if y == cs[i] {
      assert Ancestor(p, y, 0) == Some(cs[i]);
    }
  }

  /** Two lists without repeats and with no pid in common make a list without repeats. */
  lemma DistinctJoin(a: seq<int>, b: seq<int>)
    requires Distinct(a) && Distinct(b) && forall y | y in a :: y !in b
    ensures Distinct(a + b)
  {
    forall i, j | 0 <= i < j < |a + b|
      ensures (a + b)[i] != (a + b)[j]
    {
      if i < |a| <= j {
        assert (a + b)[i] in a && (a + b)[j] == b[j - |a|];
      }
    }
  }

  /** getDescendantsRecursive collects no node twice. */
  lemma {:induction false} DescDistinct(t: Nodes, p: Procs, x: int, depth: nat)
    requires Hangs(t, p, x, depth)
    ensures Distinct(Desc(t, p, x, depth))
    decreases |p| - depth, 1
  {
    HangsFacts(t, p, x, depth);
    DescFromDistinct(t, p, x, depth, 0);
  }

  /** The loop from the i-th child on collects no node twice. */
  lemma {:induction false} DescFromDistinct(t: Nodes, p: Procs, x: int, depth: nat, i: nat)
    requires Hangs(t, p, x, depth) && i <= |t[x].children| && depth < |p|
    ensures Distinct(DescFrom(t, p, x, depth, i))
    decreases |p| - depth, 0, |t[x].children| - i
  {
    var cs := t[x].children;
    if i < |cs| {
      ChildHangs(t, p, x, depth, i);
      var head := Desc(t, p, cs[i], depth + 1);
      var rest := DescFrom(t, p, x, depth, i + 1);
      DescDistinct(t, p, cs[i], depth + 1);
      DescFromDistinct(t, p, x, depth, i + 1);
      forall y | y in [cs[i]] + head
        ensures y !in rest
      {
        DescFromHas(t, p, x, depth, i + 1, y);
        DescHas(t, p, cs[i], depth + 1, y);
        LaterApart(t, p, x, depth, i, y);
      }
      forall y | y in head
        ensures y != cs[i]
      {
        DescHas(t, p, cs[i], depth + 1, y);
        HangsFacts(t, p, cs[i], depth + 1);
      }
      DistinctJoin([cs[i]], head);
      DistinctJoin([cs[i]] + head, rest);
    }
  }

  /** A node that is the i-th child of x or below it is under none of the later children. */
  lemma LaterApart(t: Nodes, p: Procs, x: int, depth: nat, i: nat, y: int)
    requires Hangs(t, p, x, depth) && i < |t[x].children|
    requires y == t[x].children[i] || Below(p, y, t[x].children[i])
    ensures !UnderFrom(p, y, t[x].children, i + 1)
  {
    if y == t[x].children[i] {
      assert Ancestor(p, y, 0) == Some(t[x].children[i]);
      NotUnderLater(t, p, x, depth, i, y, 0);
    } else {
      var j: nat :| 1 <= j && Ancestor(p, y, j) == Some(t[x].children[i]);
      NotUnderLater(t, p, x, depth, i, y, j);
    }
  }

  // ---------------------------------------------------------------------------------------
  // getTreeLines / getNodeLines

  /** The connector drawn before a node: the last of its siblings closes the branch. */
  function Connector(isLast: bool): string {
    if isLast then "└── " else "├── "
  }

  /** What the lines below a node add to its prefix: the branch goes on unless it was the last. */
  function Indent(isLast: bool): string {
    if isLast then "    " else "│   "
  }

  /** The start of every label: the pid, a space, the name. */
  function LabelHead(proc: Process): string {
    IntToString(proc.pid) + " " + proc.name
  }

  /** The thread count getNodeLines shows: only when asked to and only for more than one thread. */
  function ThreadsPart(proc: Process, showThreads: bool): string {
    if showThreads && proc.numThreads > 1 then " [" + IntToString(proc.numThreads) + " threads]" else ""
  }

  /** The state getNodeLines shows, in parentheses. */
  function StatePart(proc: Process): string {
    " (" + proc.state + ")"
  }

  /** The resident memory getNodeLines shows: only when positive. */
  function MemoryPart(proc: Process): string {
    if proc.vmRSS > 0 then " " + IntToString(proc.vmRSS) + "kB" else ""
  }

  /**
   * The text getNodeLines writes after the connector: the pid and the name, the thread count
   * when threads are shown and there is more than one, the state in parentheses, and the
   * resident memory in kB when it is positive.
   */
  function Label(proc: Process, showThreads: bool): string {
    LabelHead(proc) + ThreadsPart(proc, showThreads) + StatePart(proc) + MemoryPart(proc)
  }

  /** What each part of a label is made of, at the ends that LabelShape looks at. */
  lemma PartsShape(proc: Process, showThreads: bool)
    ensures var r := ThreadsPart(proc, showThreads);
      (r != [] <==> showThreads && proc.numThreads > 1) && (r != [] ==> |r| > 2 && r[..2] == " [")
    ensures var r := StatePart(proc); |r| >= 2 && r[..2] == " (" && r[|r| - 1] == ')'
    ensures var r := MemoryPart(proc);
      (r != [] <==> proc.vmRSS > 0) && (r != [] ==> EndsWith(r, " " + IntToString(proc.vmRSS) + "kB"))
  {
  }

  /**
   * A label starts with the pid and the name; the character after them and a space is '['
   * exactly when the thread count is shown; it ends with "kB" exactly when the memory is
   * shown and with the state's closing parenthesis otherwise.
   */
  lemma LabelParts(proc: Process, showThreads: bool)
    ensures var r := Label(proc, showThreads);
      StartsWith(r, LabelHead(proc)) && |r| > |LabelHead(proc)| + 1 &&
      (r[|LabelHead(proc)| + 1] == '[' <==> showThreads && proc.numThreads > 1) &&
      (EndsWith(r, "kB") <==> proc.vmRSS > 0) &&
      (EndsWith(r, ")") <==> proc.vmRSS <= 0)
  {
    PartsShape(proc, showThreads);
    LabelShape(LabelHead(proc), ThreadsPart(proc, showThreads), StatePart(proc), MemoryPart(proc));
  }

  /** How the four parts of a label show at its start and at its end. */
  lemma LabelShape(head: string, threads: string, state: string, memory: string)
    requires threads != [] ==> |threads| > 2 && threads[..2] == " ["
    requires |state| >= 2 && state[..2] == " (" && state[|state| - 1] == ')'
    requires memory != [] ==> EndsWith(memory, "kB")
    ensures var r := head + threads + state + memory;
      StartsWith(r, head) && |r| > |head| + 1 &&
      (r[|head| + 1] == '[' <==> threads != []) &&
      (EndsWith(r, "kB") <==> memory != []) &&
      (EndsWith(r, ")") <==> memory == [])
  {
    var r := head + threads + state + memory;
    assert r == head + (threads + state + memory);
    LabelStart(head, threads + state + memory, threads, state);
    assert r == (head + threads + state) + memory;
    LabelEnd(head + threads + state, memory);
  }

  /** The character after the head and its space tells whether the thread count is shown. */
  lemma LabelStart(head: string, rest: string, threads: string, state: string)
    requires threads != [] ==> |threads| > 2 && threads[..2] == " ["
    requires |state| >= 2 && state[..2] == " ("
    requires |rest| >= |threads + state| && rest[..|threads + state|] == threads + state
    ensures StartsWith(head + rest, head) && |head + rest| > |head| + 1
    ensures (head + rest)[|head| + 1] == '[' <==> threads != []
  {
    JoinEnds(head, rest);
    assert (head + rest)[|head| + 1] == rest[1] == (threads + state)[1];
    if threads == [] {
      assert (threads + state)[1] == state[..2][1];
    } else {
      assert (threads + state)[1] == threads[..2][1];
    }
  }

  /** A label ends with "kB" when the memory is shown and with the state's parenthesis otherwise. */
  lemma LabelEnd(front: string, memory: string)
    requires |front| >= 1 && front[|front| - 1] == ')'
    requires memory != [] ==> EndsWith(memory, "kB")
    ensures EndsWith(front + memory, "kB") <==> memory != []
    ensures EndsWith(front + memory, ")") <==> memory == []
  {
    var r := front + memory;
    if memory == [] {
      assert r == front;
      assert r[|r| - 1..] == ")";
    } else {
      assert r[|r| - 2..] == memory[|memory| - 2..];
      assert r[|r| - 1] == 'B';
      assert r[|r| - 1..] != ")";
    }
  }

  /** The line getNodeLines writes for a node: the prefix, the connector, the label. */
  function OwnLine(prefix: string, isLast: bool, proc: Process, showThreads: bool): string {
    prefix + Connector(isLast) + Label(proc, showThreads)
  }

  /**
   * The lines getNodeLines appends for x: its own line (prefix, connector, label), then the
   * lines of each child in turn, drawn with the prefix extended by x's indent. Only a node that
   * hangs in its forest has lines here.
   */
  ghost function NodeLines(t: Nodes, p: Procs, x: int, depth: nat, prefix: string, isLast: bool, showThreads: bool): seq<string>
    decreases |p| - depth, 1
  {
    if !Hangs(t, p, x, depth) then []
    else
      HangsFacts(t, p, x, depth);
      [OwnLine(prefix, isLast, t[x].process, showThreads)] +
        ChildLines(t, p, x, depth, prefix + Indent(isLast), showThreads, 0)
  }

  /** The loop of getNodeLines over x's children from the i-th on; only the last child is drawn as last. */
  ghost function ChildLines(t: Nodes, p: Procs, x: int, depth: nat, prefix: string, showThreads: bool, i: nat): seq<string>
    decreases |p| - depth, 0, if x in t then |t[x].children| - i else 0
  {
    if !Hangs(t, p, x, depth) || i >= |t[x].children| then []
    else
      var cs := t[x].children;
      HangsFacts(t, p, x, depth);
      ChildHangs(t, p, x, depth, i);
      NodeLines(t, p, cs[i], depth + 1, prefix, i == |cs| - 1, showThreads) +
        ChildLines(t, p, x, depth, prefix, showThreads, i + 1)
  }

  /**
   * lines draw the nodes of order one for one: line k starts with the prefix and ends with the
   * label of the k-th node.
   */
  ghost predicate Draws(t: Nodes, lines: seq<string>, order: seq<int>, prefix: string, showThreads: bool) {
    |lines| == |order| &&
    forall k | 0 <= k < |lines| ::
      order[k] in t && StartsWith(lines[k], prefix) && EndsWith(lines[k], Label(t[order[k]].process, showThreads))
  }

  lemma DrawsJoin(t: Nodes, l1: seq<string>, o1: seq<int>, l2: seq<string>, o2: seq<int>, prefix: string, showThreads: bool)
    requires Draws(t, l1, o1, prefix, showThreads) && Draws(t, l2, o2, prefix, showThreads)
    ensures Draws(t, l1 + l2, o1 + o2, prefix, showThreads)
  {
    forall k | 0 <= k < |l1 + l2|
      ensures (o1 + o2)[k] in t && StartsWith((l1 + l2)[k], prefix)
      ensures EndsWith((l1 + l2)[k], Label(t[(o1 + o2)[k]].process, showThreads))
    {
      if k < |l1| {
        assert (l1 + l2)[k] == l1[k] && (o1 + o2)[k] == o1[k];
      } else {
        assert (l1 + l2)[k] == l2[k - |l1|] && (o1 + o2)[k] == o2[k - |o1|];
      }
    }
  }

  lemma DrawsShorter(t: Nodes, lines: seq<string>, order: seq<int>, prefix: string, indent: string, showThreads: bool)
    requires Draws(t, lines, order, prefix + indent, showThreads)
    ensures Draws(t, lines, order, prefix, showThreads)
  {
    forall k | 0 <= k < |lines|
      ensures StartsWith(lines[k], prefix)
    {
      StartsWithJoin(lines[k], prefix, indent);
    }
  }

  /**
   * A node's lines draw the node and then the nodes below it, in pre-order, all starting with
   * the prefix; the lines after the first start with the prefix extended by the node's indent.
   */
  lemma {:induction false} NodeLinesDraw(t: Nodes, p: Procs, x: int, depth: nat, prefix: string, isLast: bool, showThreads: bool)
    requires Hangs(t, p, x, depth)
    ensures Draws(t, NodeLines(t, p, x, depth, prefix, isLast, showThreads), [x] + Desc(t, p, x, depth), prefix, showThreads)
    ensures Draws(t, NodeLines(t, p, x, depth, prefix, isLast, showThreads)[1..], Desc(t, p, x, depth), prefix + Indent(isLast), showThreads)
    decreases |p| - depth, 1
  {
    HangsFacts(t, p, x, depth);
    var own := OwnLine(prefix, isLast, t[x].process, showThreads);
    var below := ChildLines(t, p, x, depth, prefix + Indent(isLast), showThreads, 0);
    ChildLinesDraw(t, p, x, depth, prefix + Indent(isLast), showThreads, 0);
    DrawsShorter(t, below, Desc(t, p, x, depth), prefix, Indent(isLast), showThreads);
    FirstLine(prefix, Connector(isLast), Label(t[x].process, showThreads));
    assert Draws(t, [own], [x], prefix, showThreads);
    DrawsJoin(t, [own], [x], below, Desc(t, p, x, depth), prefix, showThreads);
    assert NodeLines(t, p, x, depth, prefix, isLast, showThreads)[1..] == below;
  }

  /** The loop from the i-th child on draws the nodes it collects, in the order it collects them. */
  lemma {:induction false} ChildLinesDraw(t: Nodes, p: Procs, x: int, depth: nat, prefix: string, showThreads: bool, i: nat)
    requires Hangs(t, p, x, depth) && i <= |t[x].children| && depth < |p|
    ensures Draws(t, ChildLines(t, p, x, depth, prefix, showThreads, i), DescFrom(t, p, x, depth, i), prefix, showThreads)
    decreases |p| - depth, 0, |t[x].children| - i
  {
    var cs := t[x].children;
    if i < |cs| {
      ChildHangs(t, p, x, depth, i);
      var c := cs[i];
      var last := i == |cs| - 1;
      NodeLinesDraw(t, p, c, depth + 1, prefix, last, showThreads);
      ChildLinesDraw(t, p, x, depth, prefix, showThreads, i + 1);
      DrawsJoin(t, NodeLines(t, p, c, depth + 1, prefix, last, showThreads), [c] + Desc(t, p, c, depth + 1),
        ChildLines(t, p, x, depth, prefix, showThreads, i + 1), DescFrom(t, p, x, depth, i + 1), prefix, showThreads);
      assert DescFrom(t, p, x, depth, i) == ([c] + Desc(t, p, c, depth + 1)) + DescFrom(t, p, x, depth, i + 1);
    }
  }

  /** A hanging node's lines: its own line, then the lines of the loop over its children. */
  lemma NodeLinesUnfold(t: Nodes, p: Procs, x: int, depth: nat, prefix: string, isLast: bool, showThreads: bool)
    requires Hangs(t, p, x, depth)
    ensures x in t && depth < |p| && |p| == |t|
    ensures NodeLines(t, p, x, depth, prefix, isLast, showThreads) ==
      [OwnLine(prefix, isLast, t[x].process, showThreads)] + ChildLines(t, p, x, depth, prefix + Indent(isLast), showThreads, 0)
  {
    HangsFacts(t, p, x, depth);
  }

  /** One turn of the loop over x's children: the lines of the i-th child, then those of the later ones. */
  lemma ChildLinesUnfold(t: Nodes, p: Procs, x: int, depth: nat, prefix: string, showThreads: bool, i: nat)
    requires Hangs(t, p, x, depth) && i < |t[x].children|
    ensures Hangs(t, p, t[x].children[i], depth + 1) && depth + 1 < |p|
    ensures ChildLines(t, p, x, depth, prefix, showThreads, i) ==
      NodeLines(t, p, t[x].children[i], depth + 1, prefix, i == |t[x].children| - 1, showThreads) +
      ChildLines(t, p, x, depth, prefix, showThreads, i + 1)
  {
    ChildHangs(t, p, x, depth, i);
    HangsFacts(t, p, t[x].children[i], depth + 1);
  }

  lemma JoinAssoc(a: seq<string>, b: seq<string>, c: seq<string>)
    ensures (a + b) + c == a + (b + c)
  {
  }

  /** A node's own line starts with the prefix and ends with the label. */
  lemma FirstLine(prefix: string, connector: string, text: string)
    ensures StartsWith(prefix + connector + text, prefix) && EndsWith(prefix + connector + text, text)
  {
    JoinEnds(prefix, connector + text);
    JoinEnds(prefix + connector, text);
    assert prefix + connector + text == prefix + (connector + text);
  }

  /** The i-th root of a built tree hangs at depth 0. */
  lemma BuiltRootHangs(t: Nodes, roots: seq<int>, i: nat)
    requires Built(t, roots) && i < |roots|
    ensures Hangs(t, ProcsOf(t), roots[i], 0)
  {
    assert roots[i] in roots;
    RootNotOnCycle(ProcsOf(t), roots[i]);
  }

  /** The lines getTreeLines writes for the roots from the i-th on; only the last root is drawn as last. */
  ghost function TreeLines(t: Nodes, roots: seq<int>, showThreads: bool, i: nat): seq<string>
    decreases |roots| - i
  {
    if !Built(t, roots) || i >= |roots| then []
    else
      BuiltRootHangs(t, roots, i);
      NodeLines(t, ProcsOf(t), roots[i], 0, "", i == |roots| - 1, showThreads) + TreeLines(t, roots, showThreads, i + 1)
  }

  /** The nodes of a built tree in pre-order from the i-th root on: each root, then the nodes below it. */
  ghost function ForestOrder(t: Nodes, roots: seq<int>, i: nat): (r: seq<int>)
    requires Built(t, roots) && i <= |roots|
    ensures forall y | y in r :: y in t
    decreases |roots| - i
  {
    if i == |roots| then []
    else
      BuiltRootHangs(t, roots, i);
      [roots[i]] + Desc(t, ProcsOf(t), roots[i], 0) + ForestOrder(t, roots, i + 1)
  }

  /** getTreeLines draws the nodes of the pre-order one for one, each line ending with its node's label. */
  lemma {:induction false} TreeLinesDraw(t: Nodes, roots: seq<int>, showThreads: bool, i: nat)
    requires Built(t, roots) && i <= |roots|
    ensures Draws(t, TreeLines(t, roots, showThreads, i), ForestOrder(t, roots, i), "", showThreads)
    decreases |roots| - i
  {
    if i < |roots| {
      BuiltRootHangs(t, roots, i);
      var p := ProcsOf(t);
      var r := roots[i];
      NodeLinesDraw(t, p, r, 0, "", i == |roots| - 1, showThreads);
      TreeLinesDraw(t, roots, showThreads, i + 1);
      DrawsJoin(t, NodeLines(t, p, r, 0, "", i == |roots| - 1, showThreads), [r] + Desc(t, p, r, 0),
        TreeLines(t, roots, showThreads, i + 1), ForestOrder(t, roots, i + 1), "", showThreads);
      assert ForestOrder(t, roots, i) == ([r] + Desc(t, p, r, 0)) + ForestOrder(t, roots, i + 1);
    }
  }

  /** The pre-order from the i-th root on holds exactly the nodes under the i-th root or a later one. */
  lemma {:induction false} ForestFromHas(t: Nodes, roots: seq<int>, i: nat, y: int)
    requires Built(t, roots) && i <= |roots|
    ensures y in ForestOrder(t, roots, i) <==> UnderFrom(ProcsOf(t), y, roots, i)
    decreases |roots| - i
  {
    if i < |roots| {
      BuiltRootHangs(t, roots, i);
      DescHas(t, ProcsOf(t), roots[i], 0, y);
      ForestFromHas(t, roots, i + 1, y);
      UnderStep(ProcsOf(t), y, roots, i);
    }
  }

  /** The lines of getTreeLines draw exactly the nodes some root leads down to. */
  lemma ForestHas(t: Nodes, roots: seq<int>, y: int)
    requires Built(t, roots)
    ensures y in ForestOrder(t, roots, 0) <==> Rooted(ProcsOf(t), y)
  {
    var p := ProcsOf(t);
    ForestFromHas(t, roots, 0, y);
    if UnderFrom(p, y, roots, 0) {
      var m: nat, j: nat :| m < |roots| && Ancestor(p, y, j) == Some(roots[m]);
      assert roots[m] in roots;
      assert RootAt(p, y, j);
    }
    if Rooted(p, y) {
      var d: nat :| RootAt(p, y, d);
      var r := Ancestor(p, y, d).value;
      assert r in roots;
      var m :| 0 <= m < |roots| && roots[m] == r;
      assert UnderFrom(p, y, roots, 0);
    }
  }

  /** Two different roots have no node in common below them. */
  lemma RootsApart(t: Nodes, roots: seq<int>, i: nat, y: int)
    requires Built(t, roots) && i < |roots|
    requires Under(ProcsOf(t), y, roots[i])
    ensures !UnderFrom(ProcsOf(t), y, roots, i + 1)
  {
    var p := ProcsOf(t);
    var j: nat :| Ancestor(p, y, j) == Some(roots[i]);
    assert roots[i] in roots;
    forall m, j2: nat | i + 1 <= m < |roots|
      ensures Ancestor(p, y, j2) != Some(roots[m])
    {
      assert roots[m] in roots;
      assert roots[i] < roots[m];
      if Ancestor(p, y, j2) == Some(roots[m]) {
        UnderOneRoot(p, roots[i], roots[m], y, j, j2);
      }
    }
  }

  /** getTreeLines draws no node twice. */
  lemma {:induction false} ForestDistinct(t: Nodes, roots: seq<int>, i: nat)
    requires Built(t, roots) && i <= |roots|
    ensures Distinct(ForestOrder(t, roots, i))
    decreases |roots| - i
  {
    if i < |roots| {
      var p := ProcsOf(t);
      var r := roots[i];
      BuiltRootHangs(t, roots, i);
      var head := Desc(t, p, r, 0);
      var rest := ForestOrder(t, roots, i + 1);
      DescDistinct(t, p, r, 0);
      ForestDistinct(t, roots, i + 1);
      forall y | y in [r] + head
        ensures y !in rest
      {
        ForestFromHas(t, roots, i + 1, y);
        DescHas(t, p, r, 0, y);
        assert y == r ==> Ancestor(p, y, 0) == Some(r);
        RootsApart(t, roots, i, y);
      }
      forall y | y in head
        ensures y != r
      {
        DescHas(t, p, r, 0, y);
        HangsFacts(t, p, r, 0);
      }
      DistinctJoin([r], head);
      DistinctJoin([r] + head, rest);
    }
  }

  // ---------------------------------------------------------------------------------------
  // The recursive helpers; they follow the child links only, never the tree object

  /** getDescendantsRecursive: append each child of x, then what lies below it, child by child. */
  method GetDescendantsRecursive(t: Nodes, ghost p: Procs, x: int, ghost depth: nat, descendants: seq<int>) returns (out: seq<int>)
    requires Hangs(t, p, x, depth)
    ensures out == descendants + Desc(t, p, x, depth)
    decreases |p| - depth
  {
    HangsFacts(t, p, x, depth);
    var children := t[x].children;
    out := descendants;
    var i := 0;
    while i < |children|
      invariant i <= |children|
      invariant out + DescFrom(t, p, x, depth, i) == descendants + Desc(t, p, x, depth)
    {
      ChildHangs(t, p, x, depth, i);
      HangsFacts(t, p, children[i], depth + 1);
      out := out + [children[i]];
      out := GetDescendantsRecursive(t, p, children[i], depth + 1, out);
      i := i + 1;
    }
  }

  /**
   * getNodeLines: append x's line, then the lines of its children with the prefix extended by
   * x's indent, the last child drawn as last.
   */
  method GetNodeLines(t: Nodes, ghost p: Procs, x: int, ghost depth: nat, prefix: string, isLast: bool, showThreads: bool,
    lines: seq<string>) returns (out: seq<string>)
    requires Hangs(t, p, x, depth)
    ensures out == lines + NodeLines(t, p, x, depth, prefix, isLast, showThreads)
    decreases |p| - depth
  {
    NodeLinesUnfold(t, p, x, depth, prefix, isLast, showThreads);
    var node := t[x];
    out := lines + [OwnLine(prefix, isLast, node.process, showThreads)];
    var childPrefix := prefix + Indent(isLast);
    var i := 0;
    while i < |node.children|
      invariant i <= |node.children|
      invariant out + ChildLines(t, p, x, depth, childPrefix, showThreads, i) ==
        lines + NodeLines(t, p, x, depth, prefix, isLast, showThreads)
    {
      ChildLinesUnfold(t, p, x, depth, childPrefix, showThreads, i);
      ghost var before := out;
      out := GetNodeLines(t, p, node.children[i], depth + 1, childPrefix, i == |node.children| - 1, showThreads, out);
      JoinAssoc(before, NodeLines(t, p, node.children[i], depth + 1, childPrefix, i == |node.children| - 1, showThreads),
        ChildLines(t, p, x, depth, childPrefix, showThreads, i + 1));
      i := i + 1;
    }
  }

  /**
   * ProcessTree: the node of every process by pid (nodeMap) and the pids of the root nodes
   * (roots). A node's children are the pids of its child nodes.
   */
  class ProcessTree {
    var nodeMap: Nodes
    var roots: seq<int>

    ghost predicate Valid()
      reads this
    {
      Built(nodeMap, roots)
    }

    /** An empty tree. */
    constructor()
      ensures nodeMap == map[] && roots == [] && Valid()
    {
      nodeMap, roots := map[], [];
    }

    /** clear: no roots and no nodes (the C++ also frees the nodes reachable from the roots). */
    method Clear()
      modifies this
      ensures nodeMap == map[] && roots == [] && Valid()
    {
      roots := [];
      nodeMap := map[];
    }

    /**
     * buildTree: one node per pid holding the last process of the list with that pid, the
     * children and roots found from the ppids, the depths set from the roots down, and the
     * child lists sorted by pid.
     */
    method BuildTree(processes: seq<Process>)
      modifies this
      ensures Valid() && ProcsOf(nodeMap) == Index(processes)
    {
      Clear();
      nodeMap, roots := BuildPasses(processes);
    }

    /** findProcess: the node stored under pid, or none. */
    function FindProcess(pid: int): (r: Option<TreeNode>)
      reads this
      ensures r.Some? <==> pid in ProcsOf(nodeMap)
      ensures r.Some? ==> r.value.process == ProcsOf(nodeMap)[pid]
      ensures Valid() && r.Some? ==> r.value.process.pid == pid
    {
      if pid in nodeMap then Some(nodeMap[pid]) else None
    }

    /**
     * getDescendants: nothing for an unknown pid, otherwise every node below it, in pre-order,
     * each once. The C++ recursion ends exactly when pid is not on a ppid cycle.
     */
    method GetDescendants(pid: int) returns (descendants: seq<int>)
      requires Valid() && (pid in nodeMap ==> !OnCycle(ProcsOf(nodeMap), pid))
      ensures pid !in nodeMap ==> descendants == []
      ensures pid in nodeMap ==> descendants == Desc(nodeMap, ProcsOf(nodeMap), pid, 0)
      ensures forall y :: y in descendants <==> Below(ProcsOf(nodeMap), y, pid)
      ensures Distinct(descendants)
    {
      descendants := [];
      var node := FindProcess(pid);
      if node.Some? {
        descendants := GetDescendantsRecursive(nodeMap, ProcsOf(nodeMap), pid, 0, descendants);
        DescDistinct(nodeMap, ProcsOf(nodeMap), pid, 0);
        forall y
          ensures y in descendants <==> Below(ProcsOf(nodeMap), y, pid)
        {
          DescHas(nodeMap, ProcsOf(nodeMap), pid, 0, y);
        }
      } else {
        forall y, j: nat
          ensures Ancestor(ProcsOf(nodeMap), y, j) != Some(pid)
        {
        }
      }
    }

    /** getTreeLines: the lines of each root in turn, from the empty prefix, the last root drawn as last. */
    method GetTreeLines(showThreads: bool) returns (lines: seq<string>)
      requires Valid()
      ensures lines == TreeLines(nodeMap, roots, showThreads, 0)
    {
      lines := [];
      var i := 0;
      while i < |roots|
        invariant i <= |roots|
        invariant lines + TreeLines(nodeMap, roots, showThreads, i) == TreeLines(nodeMap, roots, showThreads, 0)
      {
        BuiltRootHangs(nodeMap, roots, i);
        ghost var drawn := NodeLines(nodeMap, ProcsOf(nodeMap), roots[i], 0, "", i == |roots| - 1, showThreads);
        ghost var rest := TreeLines(nodeMap, roots, showThreads, i + 1);
        assert TreeLines(nodeMap, roots, showThreads, i) == drawn + rest;
        ghost var before := lines;
        lines := GetNodeLines(nodeMap, ProcsOf(nodeMap), roots[i], 0, "", i == |roots| - 1, showThreads, lines);
        assert lines == before + drawn;
        JoinAssoc(before, drawn, rest);
        i := i + 1;
      }
    }
  }
}
