/**
 * The dependency graph: a registry (arena) of nodes keyed by ID under a sentinel root.
 * Each node keeps its children in insertion order and the set of its parents.
 * Traversals walk the unfolded tree, so a node shared by several parents is visited
 * once per path that reaches it.
 */
module DependencyGraph {
  import opened Wrappers
  import opened Errors

  /** A registered node: its children in insertion order and the IDs of its parents. */
  datatype Node = Node(childs: seq<string>, parents: set<string>)

  /** The node registry, the root included. */
  type Arena = map<string, Node>

  /** What a search visitor answers for one node. */
  datatype Verdict = Continue | Stop | Abort(err: Error)

  /** What a search returns: the node the visitor stopped at, nothing, or the visitor's error. */
  datatype SearchResult = NotFound | Found(id: string) | Failed(err: Error)

  /**
   * A visitor: called with the IDs it has already been shown in this search and the
   * current node's ID. A visitor that keeps state (a counter, a visited map) is a
   * function of that history.
   */
  type Visitor = (seq<string>, string) -> Verdict

  // ---------------------------------------------------------------------------
  // Well-formedness and acyclicity

  /** The registry and the adjacency agree, and every node but the root has a parent. */
  ghost predicate WellFormed(a: Arena, root: string)
  {
    && root in a
    && (forall x, c :: x in a && c in a[x].childs ==> c in a && x in a[c].parents)
    && (forall x, p :: x in a && p in a[x].parents ==> p in a && x in a[p].childs)
    && (forall x :: x in a && x != root ==> a[x].parents != {})
  }

  /** `rank` strictly decreases along every edge. */
  ghost predicate Ranked(a: Arena, rank: map<string, nat>)
  {
    forall x :: x in a ==> RankedAt(a, rank, x)
  }

  /** `x` is ranked, and above each of its children. */
  ghost predicate RankedAt(a: Arena, rank: map<string, nat>, x: string)
  {
    && x in a && x in rank
    && forall c :: c in a[x].childs ==> c in rank && rank[c] < rank[x]
  }

  /** There is no cycle: some ranking decreases along every edge. */
  ghost predicate Acyclic(a: Arena)
  {
    exists rank :: Ranked(a, rank)
  }

  /** `p` is a non-empty sequence of registered nodes, each a child of the one before. */
  ghost predicate IsChain(a: Arena, p: seq<string>)
  {
    && |p| > 0
    && (forall i :: 0 <= i < |p| ==> p[i] in a)
    && (forall i :: 0 <= i < |p| - 1 ==> p[i + 1] in a[p[i]].childs)
  }

  /** The number of distinct registered nodes, the root excluded. */
  function Len(a: Arena, root: string): nat
  {
    |a.Keys - {root}|
  }

  // ---------------------------------------------------------------------------
  // Traversals over the unfolded tree

  /**
   * Pre-order from `id`. `onPath` holds the ancestors on the current path; a node
   * already on it (only possible in a cyclic graph) is not entered again.
   */
  function PreOrderFrom(a: Arena, id: string, onPath: set<string>): (r: seq<string>)
    ensures forall x :: x in r ==> x in a && x !in onPath
    ensures id in a && id !in onPath ==> |r| > 0 && r[0] == id
    decreases a.Keys - onPath, 0
  {
    if id !in a || id in onPath then []
    else
      assert a.Keys - (onPath + {id}) < a.Keys - onPath;
      [id] + PreOrderAll(a, a[id].childs, onPath + {id})
  }

  function PreOrderAll(a: Arena, cs: seq<string>, onPath: set<string>): (r: seq<string>)
    ensures forall x :: x in r ==> x in a && x !in onPath
    decreases a.Keys - onPath, |cs|
  {
    if cs == [] then [] else PreOrderFrom(a, cs[0], onPath) + PreOrderAll(a, cs[1..], onPath)
  }

  /** Post-order from `id`: every child's subtree, in child order, then the node. */
  function PostOrderFrom(a: Arena, id: string, onPath: set<string>): (r: seq<string>)
    ensures forall x :: x in r ==> x in a && x !in onPath
    ensures id in a && id !in onPath ==> |r| > 0 && r[|r| - 1] == id
    decreases a.Keys - onPath, 0
  {
    if id !in a || id in onPath then []
    else
      assert a.Keys - (onPath + {id}) < a.Keys - onPath;
      PostOrderAll(a, a[id].childs, onPath + {id}) + [id]
  }

  function PostOrderAll(a: Arena, cs: seq<string>, onPath: set<string>): (r: seq<string>)
    ensures forall x :: x in r ==> x in a && x !in onPath
    decreases a.Keys - onPath, |cs|
  {
    if cs == [] then [] else PostOrderFrom(a, cs[0], onPath) + PostOrderAll(a, cs[1..], onPath)
  }

  function PreOrder(a: Arena, id: string): seq<string>
  {
    PreOrderFrom(a, id, {})
  }

  function PostOrder(a: Arena, id: string): seq<string>
  {
    PostOrderFrom(a, id, {})
  }

  // ---------------------------------------------------------------------------
  // Searches

  /**
   * Shows `order` to `visit` one ID at a time (`seen` is what it was shown before) and
   * stops at the first ID it accepts or at its first error.
   */
  function Scan(order: seq<string>, visit: Visitor, seen: seq<string>): (r: SearchResult)
    ensures r.Found? ==>
      exists i :: 0 <= i < |order| && order[i] == r.id && visit(seen + order[..i], order[i]) == Stop
        && forall j :: 0 <= j < i ==> visit(seen + order[..j], order[j]) == Continue
    ensures r.Failed? ==>
      exists i :: 0 <= i < |order| && visit(seen + order[..i], order[i]) == Abort(r.err)
        && forall j :: 0 <= j < i ==> visit(seen + order[..j], order[j]) == Continue
    ensures r.NotFound? ==> forall j :: 0 <= j < |order| ==> visit(seen + order[..j], order[j]) == Continue
    decreases |order|
  {
    if order == [] then NotFound
    else
      assert seen + order[..0] == seen;
      match visit(seen, order[0])
      case Stop => Found(order[0])
      case Abort(e) => Failed(e)
      case Continue =>
        var r := Scan(order[1..], visit, seen + [order[0]]);
        assert forall j :: 0 <= j < |order| - 1 ==>
          (seen + [order[0]]) + order[1..][..j] == seen + order[..j + 1] && order[1..][j] == order[j + 1];
        r
  }

  /** `preOrderSearch`: visits the unfolded tree below `id` in pre-order. */
  function PreOrderSearch(a: Arena, id: string, visit: Visitor): SearchResult
  {
    Scan(PreOrder(a, id), visit, [])
  }

  /** `postOrderSearch`: visits the unfolded tree below `id` in post-order. */
  function PostOrderSearch(a: Arena, id: string, visit: Visitor): SearchResult
  {
    Scan(PostOrder(a, id), visit, [])
  }

  /** Accepts the first node without children. */
  function LeafVisitor(a: Arena): Visitor
  {
    (seen: seq<string>, n: string) => if n in a && |a[n].childs| == 0 then Stop else Continue
  }

  /** `getNextLeaf`: the first node without children in pre-order below `id`. */
  function GetNextLeaf(a: Arena, id: string): (r: Option<string>)
    ensures r.Some? ==> r.value in a && |a[r.value].childs| == 0
  {
    match PreOrderSearch(a, id, LeafVisitor(a))
    case Found(x) => Some(x)
    case _ => None
  }

  // ---------------------------------------------------------------------------
  // Paths

  /**
   * `findFirstPath`: depth-first, children in insertion order, the first path from
   * `start` to `target`, both included; None when the search finds none.
   */
  function FindFirstPathFrom(a: Arena, start: string, target: string, onPath: set<string>): (r: Option<seq<string>>)
    ensures r.Some? ==> |r.value| > 0 && r.value[0] == start && r.value[|r.value| - 1] == target
    ensures r.Some? ==> forall i :: 0 <= i < |r.value| - 1 ==> r.value[i] in a && r.value[i + 1] in a[r.value[i]].childs
    decreases a.Keys - onPath, 0
  {
    if start == target then Some([start])
    else if start !in a || start in onPath then None
    else
      assert a.Keys - (onPath + {start}) < a.Keys - onPath;
      match FirstPathAmong(a, a[start].childs, target, onPath + {start})
      case None => None
      case Some(p) =>
        assert forall i :: 0 <= i < |p| ==> ([start] + p)[i + 1] == p[i];
        Some([start] + p)
  }

  /** The first path to `target` from the first child in `cs` that has one. */
  function FirstPathAmong(a: Arena, cs: seq<string>, target: string, onPath: set<string>): (r: Option<seq<string>>)
    ensures r.Some? ==> |r.value| > 0 && r.value[0] in cs && r.value[|r.value| - 1] == target
    ensures r.Some? ==> forall i :: 0 <= i < |r.value| - 1 ==> r.value[i] in a && r.value[i + 1] in a[r.value[i]].childs
    decreases a.Keys - onPath, |cs|
  {
    if cs == [] then None
    else
      match FindFirstPathFrom(a, cs[0], target, onPath)
      case Some(p) => Some(p)
      case None => FirstPathAmong(a, cs[1..], target, onPath)
  }

  function FindFirstPath(a: Arena, start: string, target: string): Option<seq<string>>
  {
    FindFirstPathFrom(a, start, target, {})
  }

  // ---------------------------------------------------------------------------
  // Mutation

  /** `s` with every occurrence of `x` taken out, the order of the rest kept. */
  function Without(s: seq<string>, x: string): (r: seq<string>)
    ensures forall y :: y in r <==> y in s && y != x
    ensures |r| <= |s|
  {
    if s == [] then []
    else if s[0] == x then Without(s[1..], x)
    else [s[0]] + Without(s[1..], x)
  }

  /** Appends `c` to the children of `p` and records `p` among the parents of `c`. */
  function Link(a: Arena, p: string, c: string): (r: Arena)
    requires p in a && c in a
    ensures r.Keys == a.Keys
  {
    var a1 := a[p := a[p].(childs := a[p].childs + [c])];
    a1[c := a1[c].(parents := a1[c].parents + {p})]
  }

  /**
   * `insertNodeAt(parentID, id)`: links `id` under `parentID`, reusing the node when `id`
   * is registered already. Fails when the parent is missing or when `id` already reaches
   * the parent, with the cycle parent, id, ..., parent.
   */
  function InsertNodeAt(a: Arena, parentID: string, id: string): Result<Arena, Error>
  {
    if parentID !in a then Failure(NodeNotFound(parentID))
    else if id in a then
      match FindFirstPath(a, id, parentID)
      case Some(path) => Failure(Cyclic([parentID] + path))
      case None => Success(Link(a, parentID, id))
    else Success(Link(a[id := Node([], {})], parentID, id))
  }

  /** `addEdge(fromID, toID)`: links two registered nodes, without a cycle check. */
  function AddEdge(a: Arena, fromID: string, toID: string): Result<Arena, Error>
  {
    if fromID !in a then Failure(NodeNotFound(fromID))
    else if toID !in a then Failure(NodeNotFound(toID))
    else Success(Link(a, fromID, toID))
  }

  /** The registry once `id` is deleted and detached from each of its parents. */
  function Detached(a: Arena, id: string): (r: Arena)
    requires id in a
    ensures r.Keys == a.Keys - {id}
  {
    map x | x in a && x != id ::
      if x in a[id].parents then a[x].(childs := Without(a[x].childs, id)) else a[x]
  }

  /**
   * `removeNode(id)`: deletes a node without children from the registry and from the
   * child list of every parent; an unknown ID changes nothing.
   */
  function RemoveNode(a: Arena, id: string): Result<Arena, Error>
  {
    if id !in a then Success(a)
    else if |a[id].childs| > 0 then Failure(StillHasChildren(id))
    else Success(Detached(a, id))
  }
}
