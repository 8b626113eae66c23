/**
 * What the graph operations guarantee: traversals reach every node, a non-empty graph
 * always has a removable leaf, removal and insertion keep the registry consistent and
 * acyclic, and `findFirstPath` finds a path whenever one exists.
 */
module DependencyGraphFacts {
  import opened Wrappers
  import opened Errors
  import opened DependencyGraph

  // ---------------------------------------------------------------------------
  // Traversals reach along chains

  lemma {:induction false} PreOrderAllContains(a: Arena, cs: seq<string>, c: string, onPath: set<string>)
    requires c in cs
    ensures forall y :: y in PreOrderFrom(a, c, onPath) ==> y in PreOrderAll(a, cs, onPath)
    decreases |cs|
  {
    if cs[0] != c {
      PreOrderAllContains(a, cs[1..], c, onPath);
    }
  }

  lemma {:induction false} PostOrderAllContains(a: Arena, cs: seq<string>, c: string, onPath: set<string>)
    requires c in cs
    ensures forall y :: y in PostOrderFrom(a, c, onPath) ==> y in PostOrderAll(a, cs, onPath)
    decreases |cs|
  {
    if cs[0] != c {
      PostOrderAllContains(a, cs[1..], c, onPath);
    }
  }

  /** In an acyclic graph the end of every chain from `p[0]` is in the pre-order from `p[0]`. */
  lemma {:induction false} ChainInPreOrder(a: Arena, rank: map<string, nat>, p: seq<string>, onPath: set<string>)
    requires Ranked(a, rank) && IsChain(a, p)
    requires forall g :: g in onPath ==> g in rank && rank[g] > rank[p[0]]
    ensures p[|p| - 1] in PreOrderFrom(a, p[0], onPath)
    decreases |p|
  {
    if |p| > 1 {
      var x := p[0];
      assert p[1] in a[x].childs;
      var q := p[1..];
      assert IsChain(a, q) by {
        assert forall i :: 0 <= i < |q| ==> q[i] == p[i + 1];
      }
      ChainInPreOrder(a, rank, q, onPath + {x});
      PreOrderAllContains(a, a[x].childs, p[1], onPath + {x});
    }
  }

  /** In an acyclic graph the end of every chain from `p[0]` is in the post-order from `p[0]`. */
  lemma {:induction false} ChainInPostOrder(a: Arena, rank: map<string, nat>, p: seq<string>, onPath: set<string>)
    requires Ranked(a, rank) && IsChain(a, p)
    requires forall g :: g in onPath ==> g in rank && rank[g] > rank[p[0]]
    ensures p[|p| - 1] in PostOrderFrom(a, p[0], onPath)
    decreases |p|
  {
    if |p| > 1 {
      var x := p[0];
      assert p[1] in a[x].childs;
      var q := p[1..];
      assert IsChain(a, q) by {
        assert forall i :: 0 <= i < |q| ==> q[i] == p[i + 1];
      }
      ChainInPostOrder(a, rank, q, onPath + {x});
      PostOrderAllContains(a, a[x].childs, p[1], onPath + {x});
    }
  }

  // ---------------------------------------------------------------------------
  // Chains in a well-formed acyclic graph

  /** Following parents upwards from any node ends at the root. */
  lemma {:induction false} ChainFromRoot(a: Arena, root: string, rank: map<string, nat>, n: string) returns (p: seq<string>)
    requires WellFormed(a, root) && Ranked(a, rank) && n in a
    ensures IsChain(a, p) && p[0] == root && p[|p| - 1] == n
    decreases set x | x in a.Keys && rank[x] > rank[n]
  {
    if n == root {
      p := [root];
    } else {
      var q :| q in a[n].parents;
      assert n in a[q].childs;
      ghost var above := set x | x in a.Keys && rank[x] > rank[n];
      ghost var aboveQ := set x | x in a.Keys && rank[x] > rank[q];
      assert aboveQ <= above;
      assert q in above && q !in aboveQ;
      var up := ChainFromRoot(a, root, rank, q);
      p := up + [n];
      ChainSnoc(a, up, n);
    }
  }

  /** A chain extended by a child of its last node is a chain. */
  lemma ChainSnoc(a: Arena, p: seq<string>, n: string)
    requires IsChain(a, p) && n in a && n in a[p[|p| - 1]].childs
    ensures IsChain(a, p + [n])
  {
    var r := p + [n];
    assert forall i :: 0 <= i < |p| ==> r[i] == p[i];
  }

  /** Following first children downwards from any node ends at a node without children. */
  lemma {:induction false} ChainToLeaf(a: Arena, root: string, rank: map<string, nat>, n: string) returns (p: seq<string>)
    requires WellFormed(a, root) && Ranked(a, rank) && n in a
    ensures IsChain(a, p) && p[0] == n && |a[p[|p| - 1]].childs| == 0
    decreases rank[n]
  {
    if |a[n].childs| == 0 {
      p := [n];
    } else {
      var c := a[n].childs[0];
      var down := ChainToLeaf(a, root, rank, c);
      p := [n] + down;
      ChainCons(a, n, down);
    }
  }

  /** A chain preceded by a parent of its first node is a chain. */
  lemma ChainCons(a: Arena, n: string, p: seq<string>)
    requires IsChain(a, p) && n in a && p[0] in a[n].childs
    ensures IsChain(a, [n] + p)
  {
    var r := [n] + p;
    assert forall i :: 0 <= i < |p| ==> r[i + 1] == p[i];
  }

  /** Two chains, the second starting where the first ends, make one. */
  lemma JoinChains(a: Arena, p: seq<string>, q: seq<string>) returns (r: seq<string>)
    requires IsChain(a, p) && IsChain(a, q) && p[|p| - 1] == q[0]
    ensures r == p + q[1..] && IsChain(a, r) && r[|r| - 1] == q[|q| - 1]
  {
    r := p + q[1..];
    forall i | 0 <= i < |r|
      ensures r[i] == if i < |p| then p[i] else q[i - |p| + 1]
    {
    }
  }

  /** Every registered node appears in the pre-order and the post-order from the root. */
  lemma EveryNodeReached(a: Arena, root: string, n: string)
    requires WellFormed(a, root) && Acyclic(a) && n in a
    ensures n in PreOrder(a, root) && n in PostOrder(a, root)
  {
    var rank :| Ranked(a, rank);
    var p := ChainFromRoot(a, root, rank, n);
    ChainInPreOrder(a, rank, p, {});
    ChainInPostOrder(a, rank, p, {});
  }

  /** A graph with a node besides the root has a non-root node without children that both traversals reach. */
  lemma LeafReached(a: Arena, root: string) returns (leaf: string)
    requires WellFormed(a, root) && Acyclic(a) && Len(a, root) > 0
    ensures leaf in a && leaf != root && |a[leaf].childs| == 0
    ensures leaf in PreOrder(a, root) && leaf in PostOrder(a, root)
    ensures |a[root].childs| > 0
  {
    var rank :| Ranked(a, rank);
    var n :| n in a.Keys - {root};
    var up := ChainFromRoot(a, root, rank, n);
    var down := ChainToLeaf(a, root, rank, n);
    var p := JoinChains(a, up, down);
    leaf := p[|p| - 1];
    assert |up| > 1 && p[1] in a[root].childs;
    ChainInPreOrder(a, rank, p, {});
    ChainInPostOrder(a, rank, p, {});
  }

  /**
   * `getNextLeaf` returns the first node without children in the pre-order, and nothing
   * only when every node of the pre-order has children.
   */
  lemma GetNextLeafFirst(a: Arena, id: string)
    ensures var r := GetNextLeaf(a, id);
      && (r.Some? ==>
           exists i :: 0 <= i < |PreOrder(a, id)| && PreOrder(a, id)[i] == r.value &&
             forall j :: 0 <= j < i ==> |a[PreOrder(a, id)[j]].childs| > 0)
      && (r.None? ==> forall x :: x in PreOrder(a, id) ==> |a[x].childs| > 0)
  {
  }

  /** A node without children in the pre-order below `id` makes `getNextLeaf(id)` succeed. */
  lemma GetNextLeafFinds(a: Arena, id: string, leaf: string)
    requires leaf in a && |a[leaf].childs| == 0 && leaf in PreOrder(a, id)
    ensures GetNextLeaf(a, id).Some?
  {
    GetNextLeafFirst(a, id);
  }

  /** A search that stops inside `u` stops at the same node when more IDs follow `u`. */
  lemma {:induction false} ScanPrefix(u: seq<string>, w: seq<string>, visit: Visitor, seen: seq<string>, x: string)
    requires Scan(u, visit, seen) == Found(x)
    ensures Scan(u + w, visit, seen) == Found(x)
    decreases |u|
  {
    assert (u + w)[0] == u[0];
    if visit(seen, u[0]) == Continue {
      assert (u + w)[1..] == u[1..] + w;
      ScanPrefix(u[1..], w, visit, seen + [u[0]], x);
    }
  }

  /**
   * In an acyclic graph, the walk below `id` follows first children down to a leaf.
   * That leaf opens the post-order, and it is the first leaf of the pre-order.
   */
  lemma {:induction false} FirstLeaf(a: Arena, root: string, rank: map<string, nat>, id: string, onPath: set<string>, seen: seq<string>)
    requires WellFormed(a, root) && Ranked(a, rank) && id in a
    requires forall g :: g in onPath ==> g in rank && rank[g] > rank[id]
    ensures |PostOrderFrom(a, id, onPath)| > 0
    ensures var x := PostOrderFrom(a, id, onPath)[0];
      x in a && |a[x].childs| == 0 && Scan(PreOrderFrom(a, id, onPath), LeafVisitor(a), seen) == Found(x)
    decreases rank[id]
  {
    assert RankedAt(a, rank, id);
    var onPath' := onPath + {id};
    var cs := a[id].childs;
    if cs == [] {
      assert PostOrderFrom(a, id, onPath) == PostOrderAll(a, cs, onPath') + [id] == [id];
      assert PreOrderFrom(a, id, onPath) == [id] + PreOrderAll(a, cs, onPath') == [id];
    } else {
      var c := cs[0];
      assert c in a && c in rank && rank[c] < rank[id];
      FirstLeaf(a, root, rank, c, onPath', seen + [id]);
      var post := PostOrderFrom(a, c, onPath');
      var pre := PreOrderFrom(a, c, onPath');
      assert PostOrderFrom(a, id, onPath) == (post + PostOrderAll(a, cs[1..], onPath')) + [id];
      ScanPrefix(pre, PreOrderAll(a, cs[1..], onPath'), LeafVisitor(a), seen + [id], post[0]);
      var order := PreOrderFrom(a, id, onPath);
      assert order == [id] + (pre + PreOrderAll(a, cs[1..], onPath'));
      assert order[0] == id && order[1..] == pre + PreOrderAll(a, cs[1..], onPath');
    }
  }

  // ---------------------------------------------------------------------------
  // Removal

  /**
   * Removing a non-root node without children succeeds, deletes exactly that node,
   * takes it out of every parent's child list and keeps the graph well-formed and acyclic.
   */
  lemma RemoveLeaf(a: Arena, root: string, id: string) returns (b: Arena)
    requires WellFormed(a, root) && id in a && id != root && |a[id].childs| == 0
    ensures RemoveNode(a, id) == Success(b)
    ensures b.Keys == a.Keys - {id} && Len(b, root) == Len(a, root) - 1
    ensures forall y :: y in b ==> b[y].parents == a[y].parents
    ensures forall y, c :: y in b ==> (c in b[y].childs <==> c in a[y].childs && c != id)
    ensures WellFormed(b, root)
    ensures Acyclic(a) ==> Acyclic(b)
  {
    b := Detached(a, id);
    assert a.Keys - {root} == (b.Keys - {root}) + {id};
    DetachedChilds(a, root, id);
    DetachedWellFormed(a, root, id);
    DetachedAcyclic(a, root, id);
  }

  lemma DetachedAcyclic(a: Arena, root: string, id: string)
    requires WellFormed(a, root) && id in a
    ensures Acyclic(a) ==> Acyclic(Detached(a, id))
  {
    var b := Detached(a, id);
    if Acyclic(a) {
      var rank :| Ranked(a, rank);
      forall x, c | x in b && c in b[x].childs
        ensures c in rank && rank[c] < rank[x]
      {
        DetachedChildAt(a, root, id, x, c);
      }
      assert Ranked(b, rank);
    }
  }

  lemma DetachedWellFormed(a: Arena, root: string, id: string)
    requires WellFormed(a, root) && id in a && id != root && |a[id].childs| == 0
    ensures WellFormed(Detached(a, id), root)
  {
    DetachedChildsListed(a, root, id);
    DetachedParentsListed(a, root, id);
    var b := Detached(a, id);
    forall x | x in b && x != root
      ensures b[x].parents != {}
    {
      DetachedChildAt(a, root, id, x, x);
    }
  }

  lemma DetachedChildsListed(a: Arena, root: string, id: string)
    requires WellFormed(a, root) && id in a
    ensures var b := Detached(a, id);
      forall x, c :: x in b && c in b[x].childs ==> c in b && x in b[c].parents
  {
    var b := Detached(a, id);
    forall x, c | x in b && c in b[x].childs
      ensures c in b && x in b[c].parents
    {
      DetachedChildAt(a, root, id, x, c);
      DetachedChildAt(a, root, id, c, x);
    }
  }

  lemma DetachedParentsListed(a: Arena, root: string, id: string)
    requires WellFormed(a, root) && id in a && |a[id].childs| == 0
    ensures var b := Detached(a, id);
      forall x, p :: x in b && p in b[x].parents ==> p in b && x in b[p].childs
  {
    var b := Detached(a, id);
    forall x, p | x in b && p in b[x].parents
      ensures p in b && x in b[p].childs
    {
      DetachedChildAt(a, root, id, x, p);
      assert p in a[x].parents && x in a[p].childs && p != id;
      DetachedChildAt(a, root, id, p, x);
    }
  }

  lemma DetachedChildAt(a: Arena, root: string, id: string, y: string, c: string)
    requires WellFormed(a, root) && id in a && y in a && y != id
    ensures Detached(a, id)[y].parents == a[y].parents
    ensures c in Detached(a, id)[y].childs <==> c in a[y].childs && c != id
  {
  }

  lemma DetachedChilds(a: Arena, root: string, id: string)
    requires WellFormed(a, root) && id in a
    ensures forall y :: y in Detached(a, id) ==> Detached(a, id)[y].parents == a[y].parents
    ensures forall y, c :: y in Detached(a, id) ==> (c in Detached(a, id)[y].childs <==> c in a[y].childs && c != id)
  {
    forall y, c | y in Detached(a, id)
      ensures Detached(a, id)[y].parents == a[y].parents
      ensures c in Detached(a, id)[y].childs <==> c in a[y].childs && c != id
    {
      DetachedChildAt(a, root, id, y, c);
    }
  }

  // ---------------------------------------------------------------------------
  // Paths and insertion

  /** `y` is reachable from `x` along child edges (`x` itself included). */
  ghost predicate Reaches(a: Arena, x: string, y: string)
  {
    exists p :: IsChain(a, p) && p[0] == x && p[|p| - 1] == y
  }

  lemma {:induction false} FirstPathAmongFinds(a: Arena, cs: seq<string>, c: string, target: string, onPath: set<string>)
    requires c in cs && FindFirstPathFrom(a, c, target, onPath).Some?
    ensures FirstPathAmong(a, cs, target, onPath).Some?
    decreases |cs|
  {
    if cs[0] != c && FindFirstPathFrom(a, cs[0], target, onPath).None? {
      FirstPathAmongFinds(a, cs[1..], c, target, onPath);
    }
  }

  /** In an acyclic graph the depth-first search finds a path along every chain. */
  lemma {:induction false} ChainFound(a: Arena, rank: map<string, nat>, p: seq<string>, onPath: set<string>)
    requires Ranked(a, rank) && IsChain(a, p)
    requires forall g :: g in onPath ==> g in rank && rank[g] > rank[p[0]]
    ensures FindFirstPathFrom(a, p[0], p[|p| - 1], onPath).Some?
    decreases |p|
  {
    if p[0] != p[|p| - 1] {
      var x := p[0];
      assert p[1] in a[x].childs;
      var q := p[1..];
      assert IsChain(a, q) by {
        assert forall i :: 0 <= i < |q| ==> q[i] == p[i + 1];
      }
      ChainFound(a, rank, q, onPath + {x});
      FirstPathAmongFinds(a, a[x].childs, p[1], p[|p| - 1], onPath + {x});
    }
  }

  /** `findFirstPath` finds a path exactly when the target is reachable from the start. */
  lemma FindFirstPathComplete(a: Arena, root: string, start: string, target: string)
    requires WellFormed(a, root) && Acyclic(a) && start in a
    ensures FindFirstPath(a, start, target).Some? <==> Reaches(a, start, target)
  {
    var r := FindFirstPath(a, start, target);
    if r.Some? {
      var p := r.value;
      forall i | 0 <= i < |p|
        ensures p[i] in a
      {
        if i > 0 {
          assert p[i] in a[p[i - 1]].childs;
        }
      }
      assert IsChain(a, p);
    }
    if Reaches(a, start, target) {
      var rank :| Ranked(a, rank);
      var p :| IsChain(a, p) && p[0] == start && p[|p| - 1] == target;
      ChainFound(a, rank, p, {});
    }
  }

  lemma LinkAt(a: Arena, p: string, c: string, x: string)
    requires p in a && c in a && x in a
    ensures Link(a, p, c)[x].childs == if x == p then a[x].childs + [c] else a[x].childs
    ensures Link(a, p, c)[x].parents == if x == c then a[x].parents + {p} else a[x].parents
  {
  }

  /** Linking two nodes of a well-formed graph keeps it well-formed. */
  lemma LinkWellFormed(a: Arena, root: string, p: string, c: string)
    requires WellFormed(a, root) && p in a && c in a
    ensures WellFormed(Link(a, p, c), root)
  {
    var b := Link(a, p, c);
    forall x, y | x in b && y in b[x].childs
      ensures y in b && x in b[y].parents
    {
      LinkAt(a, p, c, x);
      if y in a[x].childs {
        LinkAt(a, p, c, y);
      } else {
        LinkAt(a, p, c, c);
      }
    }
    forall x, q | x in b && q in b[x].parents
      ensures q in b && x in b[q].childs
    {
      LinkAt(a, p, c, x);
      if q in a[x].parents {
        LinkAt(a, p, c, q);
      } else {
        LinkAt(a, p, c, p);
      }
    }
    forall x | x in b && x != root
      ensures b[x].parents != {}
    {
      LinkAt(a, p, c, x);
    }
  }

  /** Linking a fresh node without children under a registered parent keeps the graph well-formed. */
  lemma LinkFreshWellFormed(a: Arena, root: string, p: string, c: string)
    requires WellFormed(a, root) && p in a && c !in a
    ensures WellFormed(Link(a[c := Node([], {})], p, c), root)
  {
    var a0 := a[c := Node([], {})];
    var b := Link(a0, p, c);
    forall x, y | x in b && y in b[x].childs
      ensures y in b && x in b[y].parents
    {
      LinkAt(a0, p, c, x);
      if y in a0[x].childs {
        LinkAt(a0, p, c, y);
      } else {
        LinkAt(a0, p, c, c);
      }
    }
    forall x, q | x in b && q in b[x].parents
      ensures q in b && x in b[q].childs
    {
      LinkAt(a0, p, c, x);
      if q in a0[x].parents {
        LinkAt(a0, p, c, q);
      } else {
        LinkAt(a0, p, c, p);
      }
    }
    forall x | x in b && x != root
      ensures b[x].parents != {}
    {
      LinkAt(a0, p, c, x);
    }
  }

  /** A fresh node has no children, so linking it cannot close a cycle. */
  lemma LinkFreshAcyclic(a: Arena, p: string, c: string)
    requires Acyclic(a) && p in a && c !in a
    ensures Acyclic(Link(a[c := Node([], {})], p, c))
  {
    var rank :| Ranked(a, rank);
    var a0 := a[c := Node([], {})];
    var b := Link(a0, p, c);
    var rank' := map x | x in rank.Keys + {c} :: if x == c then 0 else rank[x] + 1;
    forall x | x in b
      ensures RankedAt(b, rank', x)
    {
      LinkAt(a0, p, c, x);
    }
    assert Ranked(b, rank');
  }

  /** An edge into a node that reaches `t` starts a path to `t`. */
  lemma ReachesThrough(a: Arena, x: string, y: string, t: string)
    requires x in a && y in a[x].childs && Reaches(a, y, t)
    ensures Reaches(a, x, t)
  {
    var q :| IsChain(a, q) && q[0] == y && q[|q| - 1] == t;
    ChainCons(a, x, q);
    var p := [x] + q;
    assert p[|p| - 1] == t;
  }

  /**
   * Linking `p -> c` when `c` does not reach `p` keeps the graph acyclic: shifting up
   * the ranks of everything that reaches `p` makes room for the new edge.
   */
  lemma LinkAcyclic(a: Arena, p: string, c: string)
    requires Acyclic(a) && p in a && c in a && !Reaches(a, c, p)
    ensures Acyclic(Link(a, p, c))
  {
    var rank :| Ranked(a, rank);
    var up := set x | x in a && Reaches(a, x, p);
    assert p in up by {
      assert IsChain(a, [p]);
    }
    forall x, y | x in a && y in a[x].childs && y in up
      ensures x in up
    {
      ReachesThrough(a, x, y, p);
    }
    LinkRanked(a, rank, up, p, c);
  }

  /**
   * Raising by `rank[c] + 1` the ranks of a set `up` that holds `p`, not `c`, and every
   * parent of its members, makes room for the new edge `p -> c`.
   */
  lemma LinkRanked(a: Arena, rank: map<string, nat>, up: set<string>, p: string, c: string)
    requires Ranked(a, rank) && p in a && c in a && p in up && c !in up
    requires forall x, y :: x in a && y in a[x].childs && y in up ==> x in up
    ensures Ranked(Link(a, p, c), Shifted(rank, up, rank[c] + 1))
  {
    var b := Link(a, p, c);
    var rank' := Shifted(rank, up, rank[c] + 1);
    forall x | x in b
      ensures RankedAt(b, rank', x)
    {
      LinkAt(a, p, c, x);
    }
  }

  /** `rank`, raised by `k` on the members of `up`. */
  ghost function Shifted(rank: map<string, nat>, up: set<string>, k: nat): (r: map<string, nat>)
    ensures r.Keys == rank.Keys
    ensures forall x :: x in rank ==> r[x] == rank[x] + if x in up then k else 0
  {
    map x | x in rank :: rank[x] + (if x in up then k else 0)
  }

  /** `insertNodeAt` under an unknown parent fails with "not found". */
  lemma InsertNodeAtMissingParent(a: Arena, parentID: string, id: string)
    requires parentID !in a
    ensures InsertNodeAt(a, parentID, id) == Failure(NodeNotFound(parentID))
  {
  }

  /**
   * `insertNodeAt` of a registered `id` that already reaches the parent fails with the
   * cycle: the parent, then the first path `findFirstPath` finds from `id` back to the
   * parent.
   */
  lemma InsertNodeAtCycle(a: Arena, root: string, parentID: string, id: string)
    requires WellFormed(a, root) && Acyclic(a)
    requires parentID in a && id in a && Reaches(a, id, parentID)
    ensures
      var r := InsertNodeAt(a, parentID, id);
      && r.Failure? && r.error.Cyclic?
      && |r.error.path| >= 2 && r.error.path[0] == parentID && r.error.path[1] == id
      && r.error.path[|r.error.path| - 1] == parentID && IsChain(a, r.error.path[1..])
      && FindFirstPath(a, id, parentID).Some? && r.error.path[1..] == FindFirstPath(a, id, parentID).value
  {
    FindFirstPathComplete(a, root, id, parentID);
    var found := FindFirstPath(a, id, parentID);
    var path := [parentID] + found.value;
    assert path[1..] == found.value;
    assert IsChain(a, found.value) by {
      forall i | 0 <= i < |found.value|
        ensures found.value[i] in a
      {
        if i > 0 {
          assert found.value[i] in a[found.value[i - 1]].childs;
        }
      }
    }
  }

  /**
   * `insertNodeAt` of a registered `id` that does not reach the parent reuses the node:
   * it gains the parent, nothing is registered, and the graph stays well-formed and acyclic.
   */
  lemma InsertNodeAtReuses(a: Arena, root: string, parentID: string, id: string)
    requires WellFormed(a, root) && Acyclic(a)
    requires parentID in a && id in a && !Reaches(a, id, parentID)
    ensures
      var r := InsertNodeAt(a, parentID, id);
      && r.Success? && WellFormed(r.value, root) && Acyclic(r.value)
      && r.value.Keys == a.Keys && Len(r.value, root) == Len(a, root)
      && r.value[parentID].childs == a[parentID].childs + [id]
      && r.value[id].parents == a[id].parents + {parentID}
  {
    FindFirstPathComplete(a, root, id, parentID);
    LinkWellFormed(a, root, parentID, id);
    LinkAcyclic(a, parentID, id);
    LinkAt(a, parentID, id, parentID);
    LinkAt(a, parentID, id, id);
  }

  /**
   * `insertNodeAt` of a new `id` registers one node, linked under the parent, and the
   * graph stays well-formed and acyclic.
   */
  lemma InsertNodeAtRegisters(a: Arena, root: string, parentID: string, id: string)
    requires WellFormed(a, root) && Acyclic(a)
    requires parentID in a && id !in a
    ensures
      var r := InsertNodeAt(a, parentID, id);
      && r.Success? && WellFormed(r.value, root) && Acyclic(r.value)
      && r.value.Keys == a.Keys + {id} && Len(r.value, root) == Len(a, root) + 1
      && r.value[parentID].childs == a[parentID].childs + [id]
      && r.value[id] == Node([], {parentID})
  {
    LinkFreshWellFormed(a, root, parentID, id);
    LinkFreshAcyclic(a, parentID, id);
    LinkFreshShape(a, root, parentID, id);
    assert InsertNodeAt(a, parentID, id) == Success(Link(a[id := Node([], {})], parentID, id));
  }

  /** Whatever `insertNodeAt` makes of a well-formed acyclic graph is well-formed and acyclic. */
  lemma InsertNodeAtKeeps(a: Arena, root: string, parentID: string, id: string)
    requires WellFormed(a, root) && Acyclic(a)
    ensures var r := InsertNodeAt(a, parentID, id);
      r.Success? ==> WellFormed(r.value, root) && Acyclic(r.value)
  {
    if parentID in a {
      if id !in a {
        InsertNodeAtRegisters(a, root, parentID, id);
      } else if !Reaches(a, id, parentID) {
        InsertNodeAtReuses(a, root, parentID, id);
      } else {
        InsertNodeAtCycle(a, root, parentID, id);
      }
    }
  }

  /** Linking a fresh node under a registered parent adds one node, with the parent as its only parent. */
  lemma LinkFreshShape(a: Arena, root: string, p: string, c: string)
    requires root in a && p in a && c !in a
    ensures
      var b := Link(a[c := Node([], {})], p, c);
      && b.Keys == a.Keys + {c} && Len(b, root) == Len(a, root) + 1
      && b[p].childs == a[p].childs + [c]
      && b[c] == Node([], {p})
  {
    var a0 := a[c := Node([], {})];
    var b := Link(a0, p, c);
    LinkAt(a0, p, c, p);
    LinkAt(a0, p, c, c);
    assert b.Keys - {root} == (a.Keys - {root}) + {c};
  }

  /** `addEdge` fails exactly when an endpoint is unknown; otherwise it appends the child and keeps the registry consistent. */
  lemma AddEdgeOutcome(a: Arena, root: string, fromID: string, toID: string)
    requires WellFormed(a, root)
    ensures AddEdge(a, fromID, toID).Failure? <==> fromID !in a || toID !in a
    ensures fromID !in a ==> AddEdge(a, fromID, toID) == Failure(NodeNotFound(fromID))
    ensures fromID in a && toID !in a ==> AddEdge(a, fromID, toID) == Failure(NodeNotFound(toID))
    ensures fromID in a && toID in a ==>
      var r := AddEdge(a, fromID, toID);
      && r.Success? && WellFormed(r.value, root) && r.value.Keys == a.Keys
      && r.value[fromID].childs == a[fromID].childs + [toID]
      && fromID in r.value[toID].parents
  {
    if fromID in a && toID in a {
      LinkWellFormed(a, root, fromID, toID);
      LinkAt(a, fromID, toID, fromID);
      LinkAt(a, fromID, toID, toID);
    }
  }
}
