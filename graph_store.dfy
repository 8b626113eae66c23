/**
 * The graph as an object whose registry is updated in place, and the pruning loop that
 * repeatedly takes the next leaf off the graph until only the root is left.
 */
module DependencyGraphStore {
  import opened Wrappers
  import opened Errors
  import opened DependencyGraph
  import opened DependencyGraphFacts

  // ---------------------------------------------------------------------------
  // Pruning, as a function of the registry

  /** In a graph with a node besides the root, `getNextLeaf(root)` finds a non-root leaf. */
  lemma NextLeafFound(a: Arena, root: string)
    requires WellFormed(a, root) && Acyclic(a) && Len(a, root) > 0
    ensures GetNextLeaf(a, root).Some?
    ensures GetNextLeaf(a, root).value != root
  {
    var leaf := LeafReached(a, root);
    GetNextLeafFinds(a, root, leaf);
  }

  /** The leaf the pruning loop takes off next. */
  ghost function NextLeaf(a: Arena, root: string): (leaf: string)
    requires WellFormed(a, root) && Acyclic(a) && Len(a, root) > 0
    ensures GetNextLeaf(a, root) == Some(leaf)
    ensures leaf in a && leaf != root && |a[leaf].childs| == 0
  {
    NextLeafFound(a, root);
    GetNextLeaf(a, root).value
  }

  /** The first node of the post-order from the root is that leaf. */
  lemma PostOrderStartsWithNextLeaf(a: Arena, root: string)
    requires WellFormed(a, root) && Acyclic(a) && Len(a, root) > 0
    ensures |PostOrder(a, root)| > 0 && PostOrder(a, root)[0] == NextLeaf(a, root)
  {
    var rank :| Ranked(a, rank);
    FirstLeaf(a, root, rank, root, {}, []);
  }

  /** Removing that leaf succeeds, keeps the graph well-formed and acyclic and shortens it by one. */
  lemma PruneStep(a: Arena, root: string)
    requires WellFormed(a, root) && Acyclic(a) && Len(a, root) > 0
    ensures RemoveNode(a, NextLeaf(a, root)).Success?
    ensures WellFormed(RemoveNode(a, NextLeaf(a, root)).value, root)
    ensures Acyclic(RemoveNode(a, NextLeaf(a, root)).value)
    ensures RemoveNode(a, NextLeaf(a, root)).value.Keys == a.Keys - {NextLeaf(a, root)}
    ensures Len(RemoveNode(a, NextLeaf(a, root)).value, root) == Len(a, root) - 1
  {
    var b := RemoveLeaf(a, root, NextLeaf(a, root));
  }

  /** The graph once the pruning loop has taken the next leaf off. */
  ghost function Pruned(a: Arena, root: string): (b: Arena)
    requires WellFormed(a, root) && Acyclic(a) && Len(a, root) > 0
    ensures RemoveNode(a, NextLeaf(a, root)) == Success(b)
    ensures WellFormed(b, root) && Acyclic(b)
    ensures b.Keys == a.Keys - {NextLeaf(a, root)} && Len(b, root) == Len(a, root) - 1
  {
    PruneStep(a, root);
    RemoveNode(a, NextLeaf(a, root)).value
  }

  /** The IDs the pruning loop takes off, in order: next leaf, remove, until only the root is left. */
  ghost function PruneOrder(a: Arena, root: string): (r: seq<string>)
    requires WellFormed(a, root) && Acyclic(a)
    ensures |r| == Len(a, root)
    decreases Len(a, root), 1
  {
    if Len(a, root) == 0 then [] else PruneFrom(a, root)
  }

  /** The pruning order of a graph with a node besides the root: its next leaf, then the rest. */
  ghost function PruneFrom(a: Arena, root: string): (r: seq<string>)
    requires WellFormed(a, root) && Acyclic(a) && Len(a, root) > 0
    ensures |r| == Len(a, root)
    decreases Len(a, root), 0
  {
    [NextLeaf(a, root)] + PruneOrder(Pruned(a, root), root)
  }

  lemma PruneOrderStep(a: Arena, root: string)
    requires WellFormed(a, root) && Acyclic(a) && Len(a, root) > 0
    ensures GetNextLeaf(a, root) == Some(NextLeaf(a, root))
    ensures PruneOrder(a, root) == [NextLeaf(a, root)] + PruneOrder(Pruned(a, root), root)
  {
    assert PruneOrder(a, root) == PruneFrom(a, root);
  }

  /** Pruning takes off exactly the non-root nodes. */
  lemma {:induction false} PruneOrderCovers(a: Arena, root: string)
    requires WellFormed(a, root) && Acyclic(a)
    ensures forall x :: x in PruneOrder(a, root) <==> x in a && x != root
    decreases Len(a, root)
  {
    if Len(a, root) > 0 {
      var b := Pruned(a, root);
      PruneOrderCovers(b, root);
      PruneOrderStep(a, root);
      CoversCons(a.Keys, b.Keys, root, NextLeaf(a, root), PruneOrder(b, root));
    }
  }

  lemma CoversCons(keys: set<string>, rest: set<string>, root: string, x: string, s: seq<string>)
    requires x in keys && x != root && rest == keys - {x}
    requires forall y :: y in s <==> y in rest && y != root
    ensures forall y :: y in [x] + s <==> y in keys && y != root
  {
  }

  /** No ID occurs twice in `s`. */
  ghost predicate Distinct(s: seq<string>)
  {
    forall i, j :: 0 <= i < j < |s| ==> s[i] != s[j]
  }

  /** Pruning takes off each node once. */
  lemma {:induction false} PruneOrderDistinct(a: Arena, root: string)
    requires WellFormed(a, root) && Acyclic(a)
    ensures Distinct(PruneOrder(a, root))
    decreases Len(a, root)
  {
    if Len(a, root) > 0 {
      var leaf := NextLeaf(a, root);
      var b := Pruned(a, root);
      PruneOrderDistinct(b, root);
      PruneOrderCovers(b, root);
      DistinctCons(leaf, PruneOrder(b, root));
    }
  }

  lemma DistinctCons(x: string, s: seq<string>)
    requires Distinct(s) && x !in s
    ensures Distinct([x] + s)
  {
    var r := [x] + s;
    forall i, j | 0 <= i < j < |r|
      ensures r[i] != r[j]
    {
      assert r[j] == s[j - 1];
      if i > 0 {
        assert r[i] == s[i - 1];
      }
    }
  }

  /** Every child of a node in `r` occurs in `r` before that node. */
  ghost predicate ChildrenFirst(a: Arena, r: seq<string>)
  {
    forall i, c :: 0 <= i < |r| && r[i] in a && c in a[r[i]].childs ==> c in r[..i]
  }

  /** Leaves first: a node is taken off only after every one of its original children. */
  lemma {:induction false} PruneOrderLeavesFirst(a: Arena, root: string)
    requires WellFormed(a, root) && Acyclic(a)
    ensures ChildrenFirst(a, PruneOrder(a, root))
    decreases Len(a, root)
  {
    if Len(a, root) > 0 {
      var leaf := NextLeaf(a, root);
      var b := RemoveLeaf(a, root, leaf);
      PruneOrderLeavesFirst(b, root);
      PruneOrderCovers(b, root);
      ChildrenFirstCons(a, b, leaf, PruneOrder(b, root));
    }
  }

  lemma ChildrenFirstCons(a: Arena, b: Arena, leaf: string, s: seq<string>)
    requires leaf in a && |a[leaf].childs| == 0 && b.Keys <= a.Keys
    requires forall y, c :: y in b ==> (c in b[y].childs <==> c in a[y].childs && c != leaf)
    requires forall x :: x in s ==> x in b
    requires ChildrenFirst(b, s)
    ensures ChildrenFirst(a, [leaf] + s)
  {
    var r := [leaf] + s;
    forall i, c | 0 <= i < |r| && r[i] in a && c in a[r[i]].childs
      ensures c in r[..i]
    {
      assert r[i] == s[i - 1] && s[i - 1] in b;
      assert r[..i] == [leaf] + s[..i - 1];
      if c != leaf {
        assert c in b[s[i - 1]].childs;
      }
    }
  }

  lemma AppendShift(s: seq<string>, x: string, t: seq<string>)
    ensures (s + [x]) + t == s + ([x] + t)
  {
  }

  /** A well-formed acyclic graph that holds only the root has no edge left: the root is a leaf. */
  lemma OnlyRootIsLeaf(a: Arena, root: string)
    requires WellFormed(a, root) && Acyclic(a) && a.Keys - {root} == {}
    ensures a[root].childs == []
  {
    var rank :| Ranked(a, rank);
    assert RankedAt(a, rank, root);
    forall c | c in a
      ensures c == root
    {
      assert c !in a.Keys - {root};
    }
    forall c | c in a[root].childs
      ensures c == root && rank[c] < rank[root]
    {
      assert c in a;
    }
    HeadListed(a[root].childs);
  }

  /** A non-empty list holds its first element. */
  lemma HeadListed(cs: seq<string>)
    ensures cs != [] ==> cs[0] in cs
  {
  }

  lemma AppendNil(s: seq<string>)
    ensures s + [] == s && [] + s == s
  {
  }

  // ---------------------------------------------------------------------------
  // The graph object

  /** A dependency graph whose node registry the operations update in place. */
  class Graph {
    /** The sentinel root's ID. */
    const root: string
    /** The node registry, the root included. */
    var nodes: Arena

    /** Every operation keeps the registry and the adjacency consistent. */
    ghost predicate Valid()
      reads this
    {
      WellFormed(nodes, root)
    }

    /** `newGraph(root)`: a graph holding only the root. */
    constructor(rootID: string)
      ensures root == rootID && nodes == map[rootID := Node([], {})]
      ensures Valid() && Acyclic(nodes) && Len() == 0
    {
      root := rootID;
      nodes := map[rootID := Node([], {})];
      new;
      assert Ranked(nodes, map[rootID := 0]);
      assert nodes.Keys - {root} == {};
    }

    /** `len()`: the number of distinct nodes, the root excluded. */
    function Len(): (n: nat)
      reads this
      ensures n == |nodes.Keys - {root}|
      ensures n == 0 <==> nodes.Keys <= {root}
    {
      assert nodes.Keys <= {root} <==> nodes.Keys - {root} == {};
      DependencyGraph.Len(nodes, root)
    }

    /**
     * `insertNodeAt(parentID, id)`: links `id` under `parentID`, registering `id` when it
     * is new; on error the registry is unchanged.
     */
    method InsertNodeAt(parentID: string, id: string) returns (err: Option<Error>)
      modifies this
      ensures match DependencyGraph.InsertNodeAt(old(nodes), parentID, id)
        case Success(b) => err == None && nodes == b
        case Failure(e) => err == Some(e) && nodes == old(nodes)
      ensures old(Valid()) && old(Acyclic(nodes)) ==> Valid() && Acyclic(nodes)
    {
      err := None;
      if parentID !in nodes {
        return Some(NodeNotFound(parentID));
      }
      if id in nodes {
        var path := FindFirstPath(nodes, id, parentID);
        if path.Some? {
          return Some(Cyclic([parentID] + path.value));
        }
      } else {
        nodes := nodes[id := Node([], {})];
      }
      var p := nodes[parentID];
      nodes := nodes[parentID := p.(childs := p.childs + [id])];
      var c := nodes[id];
      nodes := nodes[id := c.(parents := c.parents + {parentID})];
      if old(Valid()) && old(Acyclic(nodes)) {
        InsertNodeAtKeeps(old(nodes), root, parentID, id);
      }
    }

    /** `addEdge(fromID, toID)`: links two registered nodes; no cycle check. */
    method AddEdge(fromID: string, toID: string) returns (err: Option<Error>)
      modifies this
      ensures match DependencyGraph.AddEdge(old(nodes), fromID, toID)
        case Success(b) => err == None && nodes == b
        case Failure(e) => err == Some(e) && nodes == old(nodes)
      ensures old(Valid()) ==> Valid()
    {
      err := None;
      if fromID !in nodes {
        return Some(NodeNotFound(fromID));
      }
      if toID !in nodes {
        return Some(NodeNotFound(toID));
      }
      if Valid() {
        LinkWellFormed(nodes, root, fromID, toID);
      }
      var p := nodes[fromID];
      nodes := nodes[fromID := p.(childs := p.childs + [toID])];
      var c := nodes[toID];
      nodes := nodes[toID := c.(parents := c.parents + {fromID})];
    }

    /**
     * `removeNode(id)`: deletes a node without children and detaches it from each of its
     * parents, one parent at a time; an unknown ID changes nothing.
     */
    method RemoveNode(id: string) returns (err: Option<Error>)
      modifies this
      ensures match DependencyGraph.RemoveNode(old(nodes), id)
        case Success(b) => err == None && nodes == b
        case Failure(e) => err == Some(e) && nodes == old(nodes)
    {
      err := None;
      if id !in nodes {
        return;
      }
      var n := nodes[id];
      if |n.childs| > 0 {
        return Some(StillHasChildren(id));
      }
      var b := nodes - {id};
      var todo := n.parents;
      while todo != {}
        invariant todo <= n.parents
        invariant b.Keys == nodes.Keys - {id}
        invariant forall x :: x in b ==>
          b[x] == if x in n.parents && x !in todo then nodes[x].(childs := Without(nodes[x].childs, id)) else nodes[x]
        decreases todo
      {
        var p :| p in todo;
        if p in b {
          b := b[p := b[p].(childs := Without(b[p].childs, id))];
        }
        todo := todo - {p};
      }
      assert b == Detached(nodes, id);
      nodes := b;
    }

    /**
     * One round of the pruning loop: takes the next leaf below the root off the graph,
     * which is the first ID of the pruning order.
     */
    method TakeNextLeaf() returns (leaf: string)
      requires Valid() && Acyclic(nodes) && Len() > 0
      modifies this
      ensures leaf == NextLeaf(old(nodes), root) && nodes == Pruned(old(nodes), root)
      ensures Valid() && Acyclic(nodes) && Len() == old(Len()) - 1
      ensures PruneOrder(old(nodes), root) == [leaf] + PruneOrder(nodes, root)
    {
      PruneOrderStep(nodes, root);
      leaf := GetNextLeaf(nodes, root).value;
      var err := RemoveNode(leaf);
    }

    /**
     * The pruning loop: while nodes besides the root remain, take the next leaf below the
     * root and remove it. Returns the IDs in the order they were taken off.
     */
    method Prune() returns (order: seq<string>)
      requires Valid() && Acyclic(nodes)
      modifies this
      ensures order == PruneOrder(old(nodes), root)
      ensures Valid() && Acyclic(nodes)
      ensures nodes.Keys == {root} && nodes[root].childs == []
    {
      order := [];
      ghost var full := PruneOrder(nodes, root);
      AppendNil(full);
      while Len() > 0
        invariant Valid() && Acyclic(nodes)
        invariant order + PruneOrder(nodes, root) == full
        decreases Len()
      {
        ghost var done := order;
        var leaf := TakeNextLeaf();
        order := order + [leaf];
        AppendShift(done, leaf, PruneOrder(nodes, root));
      }
      AppendNil(order);
      assert root in nodes;
      OnlyRootIsLeaf(nodes, root);
    }
  }
}
