/**
 * The graph the dependency graph's own test builds, and what its traversals, searches,
 * path queries and failing edits give on it.
 */
module DependencyGraphExamples {
  import opened Wrappers
  import opened Errors
  import opened DependencyGraph
  import opened DependencyGraphFacts
  import opened DependencyGraphStore

  const R := "root"
  const C1 := "rootChild1"
  const C2 := "rootChild2"
  const C3 := "rootChild3"
  const C21 := "rootChild2Child1"
  const C211 := "rootChild2Child1Child1"

  /** root -> (C1, C2, C3), C2 -> C21 -> C211, and C3 -> C2, so C2's subtree is shared. */
  function TestArena(): Arena
  {
    map[
      R := Node([C1, C2, C3], {}),
      C1 := Node([], {R}),
      C2 := Node([C21], {R, C3}),
      C3 := Node([C2], {R}),
      C21 := Node([C211], {C2}),
      C211 := Node([], {C21})
    ]
  }

  /** The six IDs of the test graph are pairwise different. */
  lemma NamesDiffer()
    ensures R != C1 && R != C2 && R != C3 && R != C21 && R != C211
    ensures C1 != C2 && C1 != C3 && C1 != C21 && C1 != C211
    ensures C2 != C3 && C2 != C21 && C2 != C211
    ensures C3 != C21 && C3 != C211 && C21 != C211
  {
  }

  /** The entries of the test graph, one by one. */
  ghost predicate IsTestArena(a: Arena)
  {
    && a.Keys == {R, C1, C2, C3, C21, C211}
    && a[R] == Node([C1, C2, C3], {})
    && a[C1] == Node([], {R})
    && a[C2] == Node([C21], {R, C3})
    && a[C3] == Node([C2], {R})
    && a[C21] == Node([C211], {C2})
    && a[C211] == Node([], {C21})
  }

  lemma TestArenaEntries()
    ensures IsTestArena(TestArena())
  {
  }

  /** A visitor that stops at the node it is shown after `k` others, like the test's counter. */
  function CountVisitor(k: nat): Visitor
  {
    (seen: seq<string>, n: string) => if |seen| == k then Stop else Continue
  }

  // ---------------------------------------------------------------------------
  // Unfolding one node at a time

  lemma FromLeaf(a: Arena, id: string, onPath: set<string>)
    requires id in a && id !in onPath && a[id].childs == []
    ensures PreOrderFrom(a, id, onPath) == [id]
    ensures PostOrderFrom(a, id, onPath) == [id]
  {
    assert PreOrderAll(a, [], onPath + {id}) == [];
    assert PostOrderAll(a, [], onPath + {id}) == [];
  }

  lemma FromOne(a: Arena, id: string, c: string, onPath: set<string>)
    requires id in a && id !in onPath && a[id].childs == [c]
    ensures PreOrderFrom(a, id, onPath) == [id] + PreOrderFrom(a, c, onPath + {id})
    ensures PostOrderFrom(a, id, onPath) == PostOrderFrom(a, c, onPath + {id}) + [id]
  {
    var cs := a[id].childs;
    assert cs[1..] == [];
    assert PreOrderAll(a, cs, onPath + {id}) == PreOrderFrom(a, c, onPath + {id}) + [];
    assert PostOrderAll(a, cs, onPath + {id}) == PostOrderFrom(a, c, onPath + {id}) + [];
  }

  lemma FromThree(a: Arena, id: string, c1: string, c2: string, c3: string, onPath: set<string>)
    requires id in a && id !in onPath && a[id].childs == [c1, c2, c3]
    ensures var p := onPath + {id};
      PreOrderFrom(a, id, onPath) == [id] + (PreOrderFrom(a, c1, p) + (PreOrderFrom(a, c2, p) + PreOrderFrom(a, c3, p)))
    ensures var p := onPath + {id};
      PostOrderFrom(a, id, onPath) == PostOrderFrom(a, c1, p) + (PostOrderFrom(a, c2, p) + (PostOrderFrom(a, c3, p) + [id]))
  {
    var p := onPath + {id};
    var cs := a[id].childs;
    AllCons(a, cs, p);
    assert cs[1..] == [c2, c3];
    AllCons(a, [c2, c3], p);
    assert [c2, c3][1..] == [c3];
    AllCons(a, [c3], p);
    assert [c3][1..] == [];
    AppendNil(PreOrderFrom(a, c3, p));
    AppendNil(PostOrderFrom(a, c3, p));
    AppendShift3(PostOrderFrom(a, c1, p), PostOrderFrom(a, c2, p), PostOrderFrom(a, c3, p), [id]);
  }

  lemma AllCons(a: Arena, cs: seq<string>, p: set<string>)
    requires cs != []
    ensures PreOrderAll(a, cs, p) == PreOrderFrom(a, cs[0], p) + PreOrderAll(a, cs[1..], p)
    ensures PostOrderAll(a, cs, p) == PostOrderFrom(a, cs[0], p) + PostOrderAll(a, cs[1..], p)
  {
  }

  lemma AppendShift3(s: seq<string>, t: seq<string>, u: seq<string>, v: seq<string>)
    ensures s + (t + u) + v == s + (t + (u + v))
  {
  }

  // ---------------------------------------------------------------------------
  // Traversals and searches

  /** The pre-order the test expects: the shared subtree of C2 appears under C2 and under C3. */
  lemma TestPreOrder()
    ensures PreOrder(TestArena(), R) == [R, C1, C2, C21, C211, C3, C2, C21, C211]
  {
    TestArenaEntries();
    PreOrderOf(TestArena());
  }

  lemma PreOrderOf(a: Arena)
    requires IsTestArena(a)
    ensures PreOrder(a, R) == [R, C1, C2, C21, C211, C3, C2, C21, C211]
  {
    NamesDiffer();
    var top: set<string> := {};
    var p := top + {R};
    BelowC2(a, p);
    BelowC2(a, p + {C3});
    FromOne(a, C3, C2, p);
    FromLeaf(a, C1, p);
    FromThree(a, R, C1, C2, C3, top);
    TraversalsInOrder(R, C1, C2, C21, C211, C3);
  }

  /** Both traversals of the subtree below C2, from any path that does not enter it. */
  lemma BelowC2(a: Arena, p: set<string>)
    requires IsTestArena(a) && C2 !in p && C21 !in p && C211 !in p
    ensures PreOrderFrom(a, C2, p) == [C2, C21, C211]
    ensures PostOrderFrom(a, C2, p) == [C211, C21, C2]
  {
    FromLeaf(a, C211, p + {C2} + {C21});
    FromOne(a, C21, C211, p + {C2});
    FromOne(a, C2, C21, p);
  }

  /** How the pieces of the two traversals of the test graph fit together. */
  lemma TraversalsInOrder(r: string, c1: string, c2: string, c21: string, c211: string, c3: string)
    ensures [r] + ([c1] + ([c2, c21, c211] + ([c3] + [c2, c21, c211])))
      == [r, c1, c2, c21, c211, c3, c2, c21, c211]
    ensures [c1] + ([c211, c21, c2] + (([c211, c21, c2] + [c3]) + [r]))
      == [c1, c211, c21, c2, c211, c21, c2, c3, r]
  {
  }

  /** The post-order the test expects. */
  lemma TestPostOrder()
    ensures PostOrder(TestArena(), R) == [C1, C211, C21, C2, C211, C21, C2, C3, R]
  {
    TestArenaEntries();
    PostOrderOf(TestArena());
  }

  lemma PostOrderOf(a: Arena)
    requires IsTestArena(a)
    ensures PostOrder(a, R) == [C1, C211, C21, C2, C211, C21, C2, C3, R]
  {
    NamesDiffer();
    var top: set<string> := {};
    var p := top + {R};
    BelowC2(a, p);
    BelowC2(a, p + {C3});
    FromOne(a, C3, C2, p);
    FromLeaf(a, C1, p);
    FromThree(a, R, C1, C2, C3, top);
    TraversalsInOrder(R, C1, C2, C21, C211, C3);
  }

  /** A visitor that never aborts and stops at the `k`-th node shown finds exactly that node. */
  lemma CountVisitorFinds(order: seq<string>, k: nat)
    requires k < |order|
    ensures Scan(order, CountVisitor(k), []) == Found(order[k])
  {
    var r := Scan(order, CountVisitor(k), []);
    assert |[] + order[..k]| == k;
    if r.Found? {
      var i :| 0 <= i < |order| && order[i] == r.id && CountVisitor(k)([] + order[..i], order[i]) == Stop
        && forall j :: 0 <= j < i ==> CountVisitor(k)([] + order[..j], order[j]) == Continue;
      assert |[] + order[..i]| == i;
    }
  }

  /** The test's counting searches: the sixth node in pre-order and in post-order. */
  lemma TestCountingSearches()
    ensures PreOrderSearch(TestArena(), R, CountVisitor(5)) == Found(C3)
    ensures PostOrderSearch(TestArena(), R, CountVisitor(5)) == Found(C21)
  {
    TestArenaEntries();
    CountingOf(TestArena());
  }

  lemma CountingOf(a: Arena)
    requires IsTestArena(a)
    ensures PreOrderSearch(a, R, CountVisitor(5)) == Found(C3)
    ensures PostOrderSearch(a, R, CountVisitor(5)) == Found(C21)
  {
    PreOrderOf(a);
    PostOrderOf(a);
    CountVisitorFinds(PreOrder(a, R), 5);
    CountVisitorFinds(PostOrder(a, R), 5);
  }

  /** The first node without children below the root is C1. */
  lemma TestNextLeaf()
    ensures GetNextLeaf(TestArena(), R) == Some(C1)
  {
    TestArenaEntries();
    PreOrderOf(TestArena());
    NextLeafOf(TestArena());
  }

  lemma NextLeafOf(a: Arena)
    requires IsTestArena(a) && PreOrder(a, R) == [R, C1, C2, C21, C211, C3, C2, C21, C211]
    ensures GetNextLeaf(a, R) == Some(C1)
  {
    var order := PreOrder(a, R);
    GetNextLeafFirst(a, R);
    assert order[1] == C1 && a[C1].childs == [];
    var r := GetNextLeaf(a, R);
    var i :| 0 <= i < |order| && order[i] == r.value && forall j :: 0 <= j < i ==> |a[order[j]].childs| > 0;
    assert i == 1;
  }

  // ---------------------------------------------------------------------------
  // Paths and failing edits

  /** `r` with `id` put in front of the path it holds. */
  function Prefixed(id: string, r: Option<seq<string>>): Option<seq<string>>
  {
    match r
    case None => None
    case Some(q) => Some([id] + q)
  }

  lemma PathStep(a: Arena, id: string, target: string, onPath: set<string>)
    requires id != target && id in a && id !in onPath
    ensures FindFirstPathFrom(a, id, target, onPath) == Prefixed(id, FirstPathAmong(a, a[id].childs, target, onPath + {id}))
  {
  }

  lemma AmongStep(a: Arena, cs: seq<string>, target: string, onPath: set<string>)
    requires cs != []
    ensures FirstPathAmong(a, cs, target, onPath) ==
      if FindFirstPathFrom(a, cs[0], target, onPath).Some? then FindFirstPathFrom(a, cs[0], target, onPath)
      else FirstPathAmong(a, cs[1..], target, onPath)
  {
  }

  /** C1 has no children, so no path leads from it to C2. */
  lemma TestNoPath()
    ensures FindFirstPath(TestArena(), C1, C2) == None
  {
    TestArenaEntries();
    NoPathOf(TestArena());
  }

  lemma NoPathOf(a: Arena)
    requires IsTestArena(a)
    ensures FindFirstPath(a, C1, C2) == None
  {
    PathStep(a, C1, C2, {});
  }

  /** The first path from the root to C211 goes through C2, not through C3. */
  lemma TestFirstPath()
    ensures FindFirstPath(TestArena(), R, C211) == Some([R, C2, C21, C211])
  {
    TestArenaEntries();
    FirstPathOf(TestArena());
  }

  lemma FirstPathOf(a: Arena)
    requires IsTestArena(a)
    ensures FindFirstPath(a, R, C211) == Some([R, C2, C21, C211])
  {
    var top: set<string> := {};
    var p := top + {R};
    PathBelowC2(a, p);
    PathStep(a, C1, C211, p);
    assert FirstPathAmong(a, [], C211, p + {C1}) == None;
    AmongStep(a, [C1, C2, C3], C211, p);
    assert [C1, C2, C3][1..] == [C2, C3];
    AmongStep(a, [C2, C3], C211, p);
    assert FirstPathAmong(a, [C1, C2, C3], C211, p) == Some([C2, C21, C211]);
    PathStep(a, R, C211, top);
    assert [R] + [C2, C21, C211] == [R, C2, C21, C211];
  }

  /** From C2, with C2 and C21 off the search path, the path to C211 is C2 -> C21 -> C211. */
  lemma PathBelowC2(a: Arena, p: set<string>)
    requires IsTestArena(a) && C2 !in p && C21 !in p
    ensures FindFirstPathFrom(a, C2, C211, p) == Some([C2, C21, C211])
  {
    assert FindFirstPathFrom(a, C211, C211, p + {C2} + {C21}) == Some([C211]);
    AmongStep(a, [C211], C211, p + {C2} + {C21});
    PathStep(a, C21, C211, p + {C2});
    assert [C21] + [C211] == [C21, C211];
    assert FindFirstPathFrom(a, C21, C211, p + {C2}) == Some([C21, C211]);
    AmongStep(a, [C21], C211, p + {C2});
    PathStep(a, C2, C211, p);
    assert [C2] + [C21, C211] == [C2, C21, C211];
  }

  /** Linking C3 under C211 would close C211 -> C3 -> C2 -> C21 -> C211; the error lists it. */
  lemma TestCycle()
    ensures InsertNodeAt(TestArena(), C211, C3) == Failure(Cyclic([C211, C3, C2, C21, C211]))
  {
    TestArenaEntries();
    CycleOf(TestArena());
  }

  /** The message of that error, as the test expects it. */
  lemma TestCycleText()
    ensures Text(Cyclic([C211, C3, C2, C21, C211])) ==
      "Cyclic dependency found: \n" + C211 + "\n" + C3 + "\n" + C2 + "\n" + C21 + "\n" + C211
  {
    assert JoinLines([C211]) == C211;
    JoinLinesCons(C21, [C211]);
    JoinLinesCons(C2, [C21, C211]);
    JoinLinesCons(C3, [C2, C21, C211]);
    JoinLinesCons(C211, [C3, C2, C21, C211]);
  }

  lemma JoinLinesCons(id: string, ids: seq<string>)
    requires ids != []
    ensures JoinLines([id] + ids) == id + "\n" + JoinLines(ids)
  {
    assert ([id] + ids)[1..] == ids;
  }

  lemma CycleOf(a: Arena)
    requires IsTestArena(a)
    ensures InsertNodeAt(a, C211, C3) == Failure(Cyclic([C211, C3, C2, C21, C211]))
  {
    var top: set<string> := {};
    var q := top + {C3};
    PathBelowC2(a, q);
    AmongStep(a, [C2], C211, q);
    PathStep(a, C3, C211, top);
    assert [C3] + [C2, C21, C211] == [C3, C2, C21, C211];
    assert FindFirstPath(a, C3, C211) == Some([C3, C2, C21, C211]);
    assert [C211] + [C3, C2, C21, C211] == [C211, C3, C2, C21, C211];
  }

  /** Inserting under an unknown parent fails, and so does an edge from or to an unknown node. */
  lemma TestUnknownIDs()
    ensures InsertNodeAt(map[R := Node([], {})], "does not exits", C1).Failure?
    ensures AddEdge(TestArena(), "NotThere", C1) == Failure(NodeNotFound("NotThere"))
    ensures AddEdge(TestArena(), C1, "NotThere") == Failure(NodeNotFound("NotThere"))
  {
  }

  // ---------------------------------------------------------------------------
  // Building the test graph

  /** What inserting a new `id` under a registered parent does to each entry. */
  lemma InsertFreshEntries(a: Arena, p: string, id: string)
    requires p in a && id !in a
    ensures var r := InsertNodeAt(a, p, id);
      && r.Success? && r.value.Keys == a.Keys + {id}
      && r.value[id] == Node([], {p})
      && r.value[p] == a[p].(childs := a[p].childs + [id])
      && forall x :: x in a && x != p ==> r.value[x] == a[x]
  {
    var a0 := a[id := Node([], {})];
    forall x | x in a && x != p
      ensures Link(a0, p, id)[x] == a[x]
    {
      LinkAt(a0, p, id, x);
    }
    LinkAt(a0, p, id, p);
    LinkAt(a0, p, id, id);
  }

  /** The test's six insertions, the last one giving C2 a second parent, build the test graph. */
  lemma TestBuild()
    ensures var a0 := map[R := Node([], {})];
      var a1 := InsertNodeAt(a0, R, C1).value;
      var a2 := InsertNodeAt(a1, R, C2).value;
      var a3 := InsertNodeAt(a2, R, C3).value;
      var a4 := InsertNodeAt(a3, C2, C21).value;
      var a5 := InsertNodeAt(a4, C21, C211).value;
      && InsertNodeAt(a0, R, C1).Success?
      && InsertNodeAt(a1, R, C2).Success?
      && InsertNodeAt(a2, R, C3).Success?
      && InsertNodeAt(a3, C2, C21).Success?
      && InsertNodeAt(a4, C21, C211).Success?
      && InsertNodeAt(a5, C3, C2) == Success(TestArena())
  {
    var a0 := map[R := Node([], {})];
    InsertFreshEntries(a0, R, C1);
    var a1 := InsertNodeAt(a0, R, C1).value;
    assert a1.Keys == {R, C1} && a1[R] == Node([C1], {}) && a1[C1] == Node([], {R});
    InsertFreshEntries(a1, R, C2);
    var a2 := InsertNodeAt(a1, R, C2).value;
    assert a2.Keys == {R, C1, C2} && a2[R] == Node([C1, C2], {}) && a2[C2] == Node([], {R});
    InsertFreshEntries(a2, R, C3);
    var a3 := InsertNodeAt(a2, R, C3).value;
    assert a3.Keys == {R, C1, C2, C3} && a3[R] == Node([C1, C2, C3], {}) && a3[C3] == Node([], {R});
    assert a3[C1] == Node([], {R}) && a3[C2] == Node([], {R});
    FirstInsertsBelowC2(a3);
    var a5 := InsertNodeAt(InsertNodeAt(a3, C2, C21).value, C21, C211).value;
    LastInsert(a5);
    TestArenaEntries();
    SameTestArena(InsertNodeAt(a5, C3, C2).value, TestArena());
  }

  /** The graph after the first three insertions, and the two insertions below C2. */
  lemma FirstInsertsBelowC2(a3: Arena)
    requires a3.Keys == {R, C1, C2, C3}
    requires a3[R] == Node([C1, C2, C3], {}) && a3[C1] == Node([], {R})
    requires a3[C2] == Node([], {R}) && a3[C3] == Node([], {R})
    ensures InsertNodeAt(a3, C2, C21).Success?
    ensures var a4 := InsertNodeAt(a3, C2, C21).value;
      InsertNodeAt(a4, C21, C211).Success? && IsStageFive(InsertNodeAt(a4, C21, C211).value)
  {
    InsertFreshEntries(a3, C2, C21);
    var a4 := InsertNodeAt(a3, C2, C21).value;
    assert a4.Keys == {R, C1, C2, C3, C21} && a4[C2] == Node([C21], {R}) && a4[C21] == Node([], {C2});
    InsertFreshEntries(a4, C21, C211);
  }

  /** The graph before C3 -> C2 is added: the test graph without that edge. */
  ghost predicate IsStageFive(a: Arena)
  {
    && a.Keys == {R, C1, C2, C3, C21, C211}
    && a[R] == Node([C1, C2, C3], {})
    && a[C1] == Node([], {R})
    && a[C2] == Node([C21], {R})
    && a[C3] == Node([], {R})
    && a[C21] == Node([C211], {C2})
    && a[C211] == Node([], {C21})
  }

  /** C2 does not reach C3, so the edge C3 -> C2 is added to the existing node. */
  lemma LastInsert(a: Arena)
    requires IsStageFive(a)
    ensures InsertNodeAt(a, C3, C2).Success? && IsTestArena(InsertNodeAt(a, C3, C2).value)
  {
    var top: set<string> := {};
    var p := top + {C2};
    PathStep(a, C211, C3, p + {C21});
    assert FirstPathAmong(a, [], C3, p + {C21} + {C211}) == None;
    AmongStep(a, [C211], C3, p + {C21});
    PathStep(a, C21, C3, p);
    AmongStep(a, [C21], C3, p);
    PathStep(a, C2, C3, top);
    assert FindFirstPath(a, C2, C3) == None;
    forall x | x in a
      ensures Link(a, C3, C2)[x] == if x == C3 then Node([C2], {R}) else if x == C2 then Node([C21], {R, C3}) else a[x]
    {
      LinkAt(a, C3, C2, x);
    }
  }

  /** Two registries with the test graph's entries are the same registry. */
  lemma SameTestArena(a: Arena, b: Arena)
    requires IsTestArena(a) && IsTestArena(b)
    ensures a == b
  {
    forall x | x in a
      ensures a[x] == b[x]
    {
    }
  }

  // ---------------------------------------------------------------------------
  // Pruning the test graph

  lemma FromTwo(a: Arena, id: string, c1: string, c2: string, onPath: set<string>)
    requires id in a && id !in onPath && a[id].childs == [c1, c2]
    ensures var p := onPath + {id};
      PreOrderFrom(a, id, onPath) == [id] + (PreOrderFrom(a, c1, p) + PreOrderFrom(a, c2, p))
  {
    var p := onPath + {id};
    var cs := a[id].childs;
    AllCons(a, cs, p);
    assert cs[1..] == [c2];
    AllCons(a, [c2], p);
    assert [c2][1..] == [];
    AppendNil(PreOrderFrom(a, c2, p));
  }

  /** The node at `k` in the pre-order is `getNextLeaf`'s answer when it is the first without children. */
  lemma NextLeafAt(a: Arena, id: string, k: nat)
    requires k < |PreOrder(a, id)|
    requires PreOrder(a, id)[k] in a && a[PreOrder(a, id)[k]].childs == []
    requires forall j :: 0 <= j < k ==> PreOrder(a, id)[j] in a && |a[PreOrder(a, id)[j]].childs| > 0
    ensures GetNextLeaf(a, id) == Some(PreOrder(a, id)[k])
  {
    var order := PreOrder(a, id);
    GetNextLeafFinds(a, id, order[k]);
    GetNextLeafFirst(a, id);
    var r := GetNextLeaf(a, id);
    var i :| 0 <= i < |order| && order[i] == r.value && forall j :: 0 <= j < i ==> |a[order[j]].childs| > 0;
  }

  /** The test graph without C1. */
  ghost predicate IsStageOne(a: Arena)
  {
    && a.Keys == {R, C2, C3, C21, C211}
    && a[R] == Node([C2, C3], {})
    && a[C2] == Node([C21], {R, C3})
    && a[C3] == Node([C2], {R})
    && a[C21] == Node([C211], {C2})
    && a[C211] == Node([], {C21})
  }

  /** ... and without C211. */
  ghost predicate IsStageTwo(a: Arena)
  {
    && a.Keys == {R, C2, C3, C21}
    && a[R] == Node([C2, C3], {})
    && a[C2] == Node([C21], {R, C3})
    && a[C3] == Node([C2], {R})
    && a[C21] == Node([], {C2})
  }

  /** ... and without C21. */
  ghost predicate IsStageThree(a: Arena)
  {
    && a.Keys == {R, C2, C3}
    && a[R] == Node([C2, C3], {})
    && a[C2] == Node([], {R, C3})
    && a[C3] == Node([C2], {R})
  }

  /** ... and without C2, which leaves both of its parents. */
  ghost predicate IsStageFour(a: Arena)
  {
    && a.Keys == {R, C3}
    && a[R] == Node([C3], {})
    && a[C3] == Node([], {R})
  }

  lemma PruneC1(a: Arena)
    requires IsTestArena(a)
    ensures GetNextLeaf(a, R) == Some(C1)
    ensures RemoveNode(a, C1).Success? && IsStageOne(RemoveNode(a, C1).value)
  {
    PreOrderOf(a);
    NextLeafOf(a);
    RemoveC1(a);
  }

  lemma RemoveC1(a: Arena)
    requires IsTestArena(a)
    ensures RemoveNode(a, C1).Success? && IsStageOne(RemoveNode(a, C1).value)
  {
    var b := Detached(a, C1);
    assert Without([C3], C1) == [C3];
    assert Without([C2, C3], C1) == [C2, C3];
    assert Without([C1, C2, C3], C1) == [C2, C3];
    assert b[R] == Node([C2, C3], {});
  }

  lemma PruneC211(a: Arena)
    requires IsStageOne(a)
    ensures GetNextLeaf(a, R) == Some(C211)
    ensures RemoveNode(a, C211).Success? && IsStageTwo(RemoveNode(a, C211).value)
  {
    StageOneOrder(a);
    NextLeafAt(a, R, 3);
    RemoveC211(a);
  }

  lemma RemoveC211(a: Arena)
    requires IsStageOne(a)
    ensures RemoveNode(a, C211).Success? && IsStageTwo(RemoveNode(a, C211).value)
  {
    var b := Detached(a, C211);
    assert Without([C211], C211) == [];
    assert b[C21] == Node([], {C2});
  }

  lemma StageOneOrder(a: Arena)
    requires IsStageOne(a)
    ensures PreOrder(a, R) == [R, C2, C21, C211, C3, C2, C21, C211]
  {
    var top: set<string> := {};
    var p := top + {R};
    FromLeaf(a, C211, p + {C2} + {C21});
    FromOne(a, C21, C211, p + {C2});
    FromOne(a, C2, C21, p);
    assert PreOrderFrom(a, C2, p) == [C2, C21, C211];
    FromLeaf(a, C211, p + {C3} + {C2} + {C21});
    FromOne(a, C21, C211, p + {C3} + {C2});
    FromOne(a, C2, C21, p + {C3});
    FromOne(a, C3, C2, p);
    assert PreOrderFrom(a, C3, p) == [C3, C2, C21, C211];
    FromTwo(a, R, C2, C3, top);
  }

  lemma PruneC21(a: Arena)
    requires IsStageTwo(a)
    ensures GetNextLeaf(a, R) == Some(C21)
    ensures RemoveNode(a, C21).Success? && IsStageThree(RemoveNode(a, C21).value)
  {
    StageTwoOrder(a);
    NextLeafAt(a, R, 2);
    RemoveC21(a);
  }

  lemma RemoveC21(a: Arena)
    requires IsStageTwo(a)
    ensures RemoveNode(a, C21).Success? && IsStageThree(RemoveNode(a, C21).value)
  {
    var b := Detached(a, C21);
    assert Without([C21], C21) == [];
    assert b[C2] == Node([], {R, C3});
  }

  lemma StageTwoOrder(a: Arena)
    requires IsStageTwo(a)
    ensures PreOrder(a, R) == [R, C2, C21, C3, C2, C21]
  {
    var top: set<string> := {};
    var p := top + {R};
    FromLeaf(a, C21, p + {C2});
    FromOne(a, C2, C21, p);
    assert PreOrderFrom(a, C2, p) == [C2, C21];
    FromLeaf(a, C21, p + {C3} + {C2});
    FromOne(a, C2, C21, p + {C3});
    FromOne(a, C3, C2, p);
    assert PreOrderFrom(a, C3, p) == [C3, C2, C21];
    FromTwo(a, R, C2, C3, top);
  }

  lemma PruneC2(a: Arena)
    requires IsStageThree(a)
    ensures GetNextLeaf(a, R) == Some(C2)
    ensures RemoveNode(a, C2).Success? && IsStageFour(RemoveNode(a, C2).value)
  {
    StageThreeOrder(a);
    NextLeafAt(a, R, 1);
    RemoveC2(a);
  }

  lemma StageThreeOrder(a: Arena)
    requires IsStageThree(a)
    ensures PreOrder(a, R) == [R, C2, C3, C2]
  {
    var top: set<string> := {};
    var p := top + {R};
    FromLeaf(a, C2, p);
    FromLeaf(a, C2, p + {C3});
    FromOne(a, C3, C2, p);
    FromTwo(a, R, C2, C3, top);
    FourInOrder(R, C2, C3, C2);
  }

  lemma RemoveC2(a: Arena)
    requires IsStageThree(a)
    ensures RemoveNode(a, C2).Success? && IsStageFour(RemoveNode(a, C2).value)
  {
    var b := Detached(a, C2);
    assert Without([C3], C2) == [C3];
    assert Without([C2, C3], C2) == [C3];
    assert Without([C2], C2) == [];
    assert b[R] == Node([C3], {}) && b[C3] == Node([], {R});
  }

  lemma PruneC3(a: Arena)
    requires IsStageFour(a)
    ensures GetNextLeaf(a, R) == Some(C3)
    ensures RemoveNode(a, C3).Success? && RemoveNode(a, C3).value.Keys == {R}
  {
    var top: set<string> := {};
    var p := top + {R};
    FromLeaf(a, C3, p);
    FromOne(a, R, C3, top);
    assert PreOrder(a, R) == [R, C3];
    NextLeafAt(a, R, 1);
  }

  /** The test graph is well-formed and acyclic, since insertions that succeed keep both. */
  lemma TestArenaValid()
    ensures WellFormed(TestArena(), R) && Acyclic(TestArena())
  {
    var a0 := map[R := Node([], {})];
    assert Ranked(a0, map[R := 0]);
    TestBuild();
    var a1 := InsertNodeAt(a0, R, C1).value;
    InsertNodeAtKeeps(a0, R, R, C1);
    var a2 := InsertNodeAt(a1, R, C2).value;
    InsertNodeAtKeeps(a1, R, R, C2);
    var a3 := InsertNodeAt(a2, R, C3).value;
    InsertNodeAtKeeps(a2, R, R, C3);
    var a4 := InsertNodeAt(a3, C2, C21).value;
    InsertNodeAtKeeps(a3, R, C2, C21);
    var a5 := InsertNodeAt(a4, C21, C211).value;
    InsertNodeAtKeeps(a4, R, C21, C211);
    InsertNodeAtKeeps(a5, R, C3, C2);
  }

  /** Pruning the test graph, as the test's loop does, takes off C1, C211, C21, C2 and C3 in that order. */
  lemma TestPruneOrder()
    ensures Len(TestArena(), R) == 5
    ensures WellFormed(TestArena(), R) && Acyclic(TestArena())
    ensures PruneOrder(TestArena(), R) == [C1, C211, C21, C2, C3]
  {
    TestArenaEntries();
    TestArenaValid();
    PruneOrderOf(TestArena());
    FiveInOrder(C1, C211, C21, C2, C3);
    TestArenaLen(TestArena());
  }

  lemma TestArenaLen(a: Arena)
    requires IsTestArena(a)
    ensures Len(a, R) == 5
  {
    assert a.Keys - {R} == {C1, C2, C3, C21, C211};
  }

  lemma FourInOrder(x1: string, x2: string, x3: string, x4: string)
    ensures [x1] + ([x2] + ([x3] + [x4])) == [x1, x2, x3, x4]
  {
  }

  lemma FiveInOrder(x1: string, x2: string, x3: string, x4: string, x5: string)
    ensures [x1] + ([x2] + ([x3] + ([x4] + [x5]))) == [x1, x2, x3, x4, x5]
  {
  }

  /** One step of the pruning order, for a leaf that `getNextLeaf` is known to pick. */
  lemma PruneOrderVia(a: Arena, root: string, leaf: string)
    requires WellFormed(a, root) && Acyclic(a) && Len(a, root) > 0 && GetNextLeaf(a, root) == Some(leaf)
    ensures RemoveNode(a, leaf).Success?
    ensures WellFormed(RemoveNode(a, leaf).value, root) && Acyclic(RemoveNode(a, leaf).value)
    ensures PruneOrder(a, root) == [leaf] + PruneOrder(RemoveNode(a, leaf).value, root)
  {
    PruneOrderStep(a, root);
  }

  lemma PruneOrderOf(a: Arena)
    requires IsTestArena(a) && WellFormed(a, R) && Acyclic(a)
    ensures PruneOrder(a, R) == [C1] + ([C211] + ([C21] + ([C2] + [C3])))
  {
    assert C1 in a.Keys - {R};
    PruneC1(a);
    PruneOrderVia(a, R, C1);
    PruneFromStageOne(RemoveNode(a, C1).value);
  }

  lemma PruneFromStageOne(a: Arena)
    requires IsStageOne(a) && WellFormed(a, R) && Acyclic(a)
    ensures PruneOrder(a, R) == [C211] + ([C21] + ([C2] + [C3]))
  {
    assert C2 in a.Keys - {R};
    PruneC211(a);
    PruneOrderVia(a, R, C211);
    PruneFromStageTwo(RemoveNode(a, C211).value);
  }

  lemma PruneFromStageTwo(a: Arena)
    requires IsStageTwo(a) && WellFormed(a, R) && Acyclic(a)
    ensures PruneOrder(a, R) == [C21] + ([C2] + [C3])
  {
    assert C2 in a.Keys - {R};
    PruneC21(a);
    PruneOrderVia(a, R, C21);
    PruneFromStageThree(RemoveNode(a, C21).value);
  }

  lemma PruneFromStageThree(a: Arena)
    requires IsStageThree(a) && WellFormed(a, R) && Acyclic(a)
    ensures PruneOrder(a, R) == [C2] + [C3]
  {
    assert C2 in a.Keys - {R};
    PruneC2(a);
    PruneOrderVia(a, R, C2);
    PruneFromStageFour(RemoveNode(a, C2).value);
  }

  lemma PruneFromStageFour(a: Arena)
    requires IsStageFour(a) && WellFormed(a, R) && Acyclic(a)
    ensures PruneOrder(a, R) == [C3]
  {
    assert C3 in a.Keys - {R};
    PruneC3(a);
    PruneOrderVia(a, R, C3);
    var b := RemoveNode(a, C3).value;
    assert b.Keys - {R} == {};
    assert PruneOrder(b, R) == [];
  }
}
