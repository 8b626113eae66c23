/**
 * One dependency command (`handleDependencies`): the resolved graph is worked off by the
 * scheduler through a provider that hands out one dependency at a time, and the action
 * runs on every dependency that passes the root, filter and skip checks.
 *
 * Forward (build, deploy, render, ...): the provider hands out the first unvisited
 * non-root node without children in post-order, and the work removes the node from the
 * graph after the action, so parents become leaves in turn. Reverse (purge): the
 * provider hands out the first unvisited non-root node in pre-order and removes nothing.
 */
module DependencyManager {
  import opened Wrappers
  import opened Errors
  import opened DependencyGraph
  import opened DependencyGraphFacts
  import opened DependencyGraphStore
  import opened Scheduler

  // ---------------------------------------------------------------------------
  // Filters

  /** `name` occurs in `names`: the loop `skipDependency` and `foundDependency` share. */
  function Listed(name: string, names: seq<string>): (r: bool)
    ensures r <==> name in names
  {
    if names == [] then false else names[0] == name || Listed(name, names[1..])
  }

  /** `skipDependency`. */
  function SkipDependency(name: string, skipDependencies: seq<string>): (r: bool)
    ensures r <==> name in skipDependencies
  {
    Listed(name, skipDependencies)
  }

  /** `foundDependency`: an empty filter lets every name through. */
  function FoundDependency(name: string, dependencies: seq<string>): (r: bool)
    ensures |dependencies| == 0 ==> r
    ensures |dependencies| > 0 ==> (r <==> name in dependencies)
  {
    if |dependencies| == 0 then true else Listed(name, dependencies)
  }

  // ---------------------------------------------------------------------------
  // One command's settings and state

  /** What the orchestration reads of a resolved dependency: `Name()`, `Root()`, and whether `Config()` is set. */
  datatype Info = Info(name: string, isRoot: bool, configured: bool)

  /**
   * What the foreign calls answer for one dependency: the before, error and after plugin
   * hooks (run only when the dependency has a config), the action, the text of the
   * dependency's log stream, and whether the action gets as far as setting Command's
   * `found` flag.
   */
  datatype Outcome = Outcome(
    before: Option<Error>, action: Option<Error>, onError: Option<Error>, after: Option<Error>,
    log: string, found: bool)

  /** The arguments of one `handleDependencies` call, the resolved graph's root, and the oracles. */
  datatype Settings = Settings(
    root: string,
    skipDependencies: seq<string>,
    filterDependencies: seq<string>,
    reverse: bool,
    actionName: string,
    info: string -> Info,
    outcome: string -> Outcome)

  /**
   * The variables the provider and the work capture: the graph, the `visited` IDs in the
   * order they were marked, `executedDependencies`, and Command's `found` flag.
   */
  datatype RunState = RunState(graph: Arena, visited: seq<string>, executed: seq<string>, found: bool)

  /** The state a run starts from. */
  function Start(g: Arena): RunState
  {
    RunState(g, [], [], false)
  }

  // ---------------------------------------------------------------------------
  // performAction

  /** The action is run for `id`: it is not the root, it passes the filter and it is not skipped. */
  predicate Selected(cfg: Settings, id: string)
  {
    && id != cfg.root
    && FoundDependency(cfg.info(id).name, cfg.filterDependencies)
    && !SkipDependency(cfg.info(id).name, cfg.skipDependencies)
  }

  /** The before hook lets the action start. */
  predicate Starts(cfg: Settings, id: string)
  {
    !(cfg.info(id).configured && cfg.outcome(id).before.Some?)
  }

  /** The before hook, the action and the after hook all succeed. */
  predicate Succeeds(cfg: Settings, id: string)
  {
    && Starts(cfg, id)
    && cfg.outcome(id).action.None?
    && !(cfg.info(id).configured && cfg.outcome(id).after.Some?)
  }

  /** The action of `id` is started and sets Command's `found` flag. */
  predicate Reached(cfg: Settings, id: string)
  {
    Selected(cfg, id) && Starts(cfg, id) && cfg.outcome(id).found
  }

  /** The message `errors.Wrapf` puts in front of a failed action's error. */
  function ActionFailure(cfg: Settings, id: string): string
  {
    cfg.actionName + " dependency " + cfg.info(id).name + " error " + cfg.outcome(id).log
  }

  /**
   * `performAction`: nothing for the root, for a name outside a non-empty filter and for
   * a skipped name; otherwise the hooks and the action, and `id` is appended to the
   * executed list when all of them succeed.
   */
  function PerformAction(cfg: Settings, id: string, s: RunState): (r: (RunState, Option<Error>))
    ensures r.0.graph == s.graph && r.0.visited == s.visited
    ensures !Selected(cfg, id) ==> r == (s, None)
    ensures r.0.executed == if Selected(cfg, id) && Succeeds(cfg, id) then s.executed + [id] else s.executed
    ensures r.1.None? <==> !Selected(cfg, id) || Succeeds(cfg, id)
    ensures r.0.found <==> s.found || Reached(cfg, id)
    ensures (&& Selected(cfg, id) && Starts(cfg, id) && cfg.outcome(id).action.Some?
             && !(cfg.info(id).configured && cfg.outcome(id).onError.Some?)) ==>
      r.1 == Some(Wrapped(ActionFailure(cfg, id), cfg.outcome(id).action.value))
  {
    var d := cfg.info(id);
    var o := cfg.outcome(id);
    if id == cfg.root then (s, None)
    else if !FoundDependency(d.name, cfg.filterDependencies) then (s, None)
    else if SkipDependency(d.name, cfg.skipDependencies) then (s, None)
    else if d.configured && o.before.Some? then (s, o.before)
    else
      var s1 := s.(found := s.found || o.found);
      if o.action.Some? then
        if d.configured && o.onError.Some? then (s1, o.onError)
        else (s1, Some(Wrapped(ActionFailure(cfg, id), o.action.value)))
      else if d.configured && o.after.Some? then (s1, o.after)
      else (s1.(executed := s.executed + [id]), None)
  }

  /** A failed action's error reads "<action> dependency <name> error <log>: <cause>". */
  lemma ActionErrorText(cfg: Settings, id: string, s: RunState)
    requires Selected(cfg, id) && Starts(cfg, id) && cfg.outcome(id).action.Some?
    requires !(cfg.info(id).configured && cfg.outcome(id).onError.Some?)
    ensures PerformAction(cfg, id, s).1.Some?
    ensures Text(PerformAction(cfg, id, s).1.value)
      == cfg.actionName + " dependency " + cfg.info(id).name + " error " + cfg.outcome(id).log
         + ": " + Text(cfg.outcome(id).action.value)
  {
  }

  // ---------------------------------------------------------------------------
  // The provider

  /** The forward visitor: the first non-root node without children that is not visited yet. */
  function ForwardVisitor(cfg: Settings, s: RunState): Visitor
  {
    (seen: seq<string>, n: string) =>
      if n == cfg.root then Continue
      else if n in s.graph && |s.graph[n].childs| == 0 && n !in s.visited then Stop
      else Continue
  }

  /** Accepts the first ID that is neither `root` nor in `visited`. */
  function FreshVisitor(root: string, visited: seq<string>): Visitor
  {
    (seen: seq<string>, n: string) =>
      if n == root then Continue
      else if n !in visited then Stop
      else Continue
  }

  /** The reverse visitor: the first non-root node that is not visited yet. */
  function ReverseVisitor(cfg: Settings, s: RunState): Visitor
  {
    FreshVisitor(cfg.root, s.visited)
  }

  /**
   * The provider's lookup: searches the graph from the root and marks the node found as
   * visited. It hands out a registered, unvisited, non-root node (without children when
   * forward) or reports that none is left; its visitors never fail.
   */
  function Next(cfg: Settings, s: RunState): (r: (RunState, Lookup<string>))
    ensures r.1.Work? ==>
      && r.1.unit in s.graph && r.1.unit != cfg.root && r.1.unit !in s.visited
      && r.0 == s.(visited := s.visited + [r.1.unit])
    ensures r.1.Work? && !cfg.reverse ==> |s.graph[r.1.unit].childs| == 0
    ensures !r.1.Work? ==> r.0 == s && r.1.NoWork?
  {
    var found :=
      if cfg.reverse then PreOrderSearch(s.graph, cfg.root, ReverseVisitor(cfg, s))
      else PostOrderSearch(s.graph, cfg.root, ForwardVisitor(cfg, s));
    match found
    case Failed(e) => (s, LookupFailed(e))
    case NotFound => (s, NoWork)
    case Found(id) => (s.(visited := s.visited + [id]), Work(id))
  }

  /**
   * The work handed out for `id`: the action, and when forward, `removeNode(id)` after it
   * whatever the action returned (a failed removal leaves the graph as it is).
   */
  function Exec(cfg: Settings, s: RunState, id: string): (r: (RunState, Option<Error>))
    ensures r.0.visited == s.visited && r.0.graph.Keys <= s.graph.Keys
    ensures cfg.reverse ==> r.0.graph == s.graph
    ensures !cfg.reverse && id in s.graph && |s.graph[id].childs| == 0 ==> r.0.graph == Detached(s.graph, id)
    ensures r.0.executed == PerformAction(cfg, id, s).0.executed
    ensures r.0.found == PerformAction(cfg, id, s).0.found
    ensures r.1 == PerformAction(cfg, id, s).1
  {
    var (s1, err) := PerformAction(cfg, id, s);
    if cfg.reverse then (s1, err)
    else
      var g := match RemoveNode(s1.graph, id) case Success(b) => b case Failure(_) => s1.graph;
      (s1.(graph := g), err)
  }

  /** The set of visited IDs. */
  function VisitedSet(s: RunState): set<string>
  {
    set x | x in s.visited
  }

  /** The registered nodes not visited yet: each lookup that hands out work lowers it. */
  function Unvisited(s: RunState): nat
  {
    |s.graph.Keys - VisitedSet(s)|
  }

  lemma SubsetSize(a: set<string>, b: set<string>)
    requires a <= b
    ensures |a| <= |b|
  {
    assert b == a + (b - a);
  }

  /** Handing out a unit and running it lowers the number of unvisited nodes. */
  lemma StepShrinks(cfg: Settings, s: RunState)
    requires Next(cfg, s).1.Work?
    ensures Unvisited(Exec(cfg, Next(cfg, s).0, Next(cfg, s).1.unit).0) < Unvisited(s)
  {
    var (s1, l) := Next(cfg, s);
    var t := Exec(cfg, s1, l.unit).0;
    assert VisitedSet(t) == VisitedSet(s) + {l.unit};
    var before := s.graph.Keys - VisitedSet(s);
    var after := t.graph.Keys - VisitedSet(t);
    assert after <= before - {l.unit};
    SubsetSize(after, before - {l.unit});
  }

  /** The provider `handleDependencies` hands the scheduler. */
  function DependencyProvider(cfg: Settings): (p: Provider<RunState, string>)
    ensures Terminating(p)
  {
    var p := Provider(
      (s: RunState) => Next(cfg, s),
      (s: RunState, id: string) => Exec(cfg, s, id),
      (s: RunState) => Unvisited(s));
    assert Terminating(p) by {
      forall s | p.next(s).1.Work?
        ensures p.measure(p.exec(p.next(s).0, p.next(s).1.unit).0) < p.measure(s)
      {
        StepShrinks(cfg, s);
      }
    }
    p
  }

  // ---------------------------------------------------------------------------
  // What every run keeps

  /** The IDs among `ids` whose action ran to the end, in order. */
  function Performed(cfg: Settings, ids: seq<string>): (r: seq<string>)
    ensures forall x :: x in r <==> x in ids && Selected(cfg, x) && Succeeds(cfg, x)
    ensures |r| <= |ids|
  {
    if ids == [] then []
    else
      var r := Performed(cfg, ids[..|ids| - 1]);
      var x := ids[|ids| - 1];
      assert forall y :: y in ids <==> y in ids[..|ids| - 1] || y == x;
      if Selected(cfg, x) && Succeeds(cfg, x) then r + [x] else r
  }

  /**
   * The executed list holds exactly the handed-out IDs whose action ran to the end, in
   * hand-out order, and `found` is set iff one of them reached it.
   */
  ghost predicate Tracks(cfg: Settings, s: RunState)
  {
    && s.executed == Performed(cfg, s.visited)
    && (s.found <==> exists x :: x in s.visited && Reached(cfg, x))
  }

  /** Only nodes of the resolved graph `g` are handed out, and the graph only shrinks. */
  ghost predicate Within(cfg: Settings, g: Arena, s: RunState)
  {
    && s.graph.Keys <= g.Keys
    && (forall x :: x in s.visited ==> x in g)
    && Tracks(cfg, s)
  }

  lemma TracksStep(cfg: Settings, s: RunState, id: string)
    requires Tracks(cfg, s)
    ensures Tracks(cfg, Exec(cfg, s.(visited := s.visited + [id]), id).0)
  {
    var s1 := s.(visited := s.visited + [id]);
    var t := Exec(cfg, s1, id).0;
    assert s1.visited[..|s1.visited| - 1] == s.visited;
    assert forall y :: y in t.visited <==> y in s.visited || y == id;
  }

  /** Each turn of a worker keeps `Within`. */
  lemma WithinStep(cfg: Settings, g: Arena, s: RunState)
    requires Within(cfg, g, s)
    ensures var (s1, l) := Next(cfg, s);
      if l.Work? then Within(cfg, g, Exec(cfg, s1, l.unit).0) else Within(cfg, g, s1)
  {
    var (s1, l) := Next(cfg, s);
    if l.Work? {
      TracksStep(cfg, s, l.unit);
    }
  }

  lemma WithinKept(cfg: Settings, g: Arena)
    ensures Keeps(DependencyProvider(cfg), (s: RunState) => Within(cfg, g, s))
  {
    var p := DependencyProvider(cfg);
    forall s | Within(cfg, g, s)
      ensures if p.next(s).1.Work? then Within(cfg, g, p.exec(p.next(s).0, p.next(s).1.unit).0)
        else Within(cfg, g, p.next(s).0)
    {
      WithinStep(cfg, g, s);
    }
  }

  /**
   * Whatever the actions return and however many workers run, only nodes of the
   * resolved graph are handed out, and the executed list and `found` follow the actions
   * of the nodes handed out.
   */
  lemma RunWithin(cfg: Settings, g: Arena, k: int)
    ensures var s := Workers(DependencyProvider(cfg), Start(g), k).0;
      && (forall x :: x in s.visited ==> x in g)
      && s.executed == Performed(cfg, s.visited)
      && (s.found <==> exists x :: x in s.visited && Reached(cfg, x))
  {
    WithinKept(cfg, g);
    WorkersKeep(DependencyProvider(cfg), (s: RunState) => Within(cfg, g, s), Start(g), k);
  }

  /** No lookup ever fails, and when every selected action succeeds no unit fails either. */
  lemma NothingFails(cfg: Settings, inv: RunState -> bool)
    requires forall x :: Selected(cfg, x) ==> Succeeds(cfg, x)
    ensures !Fails(DependencyProvider(cfg), inv)
  {
  }

  // ---------------------------------------------------------------------------
  // Forward runs

  /** A search stops at the first ID when the visitor accepts it. */
  lemma ScanHead(order: seq<string>, visit: Visitor, seen: seq<string>)
    requires |order| > 0 && visit(seen, order[0]) == Stop
    ensures Scan(order, visit, seen) == Found(order[0])
  {
  }

  /**
   * With nothing visited left in the graph, the forward search finds what the pruning
   * loop takes off next: the first post-order node is the first pre-order leaf.
   */
  lemma ForwardFinds(cfg: Settings, s: RunState)
    requires WellFormed(s.graph, cfg.root) && Acyclic(s.graph) && Len(s.graph, cfg.root) > 0
    requires forall x :: x in s.visited ==> x !in s.graph
    ensures PostOrderSearch(s.graph, cfg.root, ForwardVisitor(cfg, s)) == Found(NextLeaf(s.graph, cfg.root))
  {
    var leaf := NextLeaf(s.graph, cfg.root);
    PostOrderStartsWithNextLeaf(s.graph, cfg.root);
    assert ForwardVisitor(cfg, s)([], leaf) == Stop;
    ScanHead(PostOrder(s.graph, cfg.root), ForwardVisitor(cfg, s), []);
  }

  /** Below a path holding every registered node, the traversal shows nothing more. */
  lemma {:induction false} NothingBelow(a: Arena, cs: seq<string>, onPath: set<string>)
    requires forall x :: x in a ==> x in onPath
    ensures PostOrderAll(a, cs, onPath) == []
    decreases |cs|
  {
    if cs != [] {
      NothingBelow(a, cs[1..], onPath);
    }
  }

  /** With only the root left, the forward search finds nothing. */
  lemma ForwardIdle(cfg: Settings, s: RunState)
    requires cfg.root in s.graph && Len(s.graph, cfg.root) == 0
    ensures PostOrderSearch(s.graph, cfg.root, ForwardVisitor(cfg, s)) == NotFound
  {
    var g := s.graph;
    assert g.Keys - {cfg.root} == {};
    NothingBelow(g, g[cfg.root].childs, {cfg.root});
    assert PostOrder(g, cfg.root) == [] + [cfg.root];
  }

  /**
   * A forward run so far: the graph is well-formed and acyclic, the handed-out IDs are
   * gone from it, and they followed by its pruning order make up the original graph's
   * pruning order.
   */
  ghost predicate ForwardInv(cfg: Settings, g: Arena, s: RunState)
  {
    && Within(cfg, g, s)
    && WellFormed(g, cfg.root) && Acyclic(g)
    && WellFormed(s.graph, cfg.root) && Acyclic(s.graph)
    && s.visited + PruneOrder(s.graph, cfg.root) == PruneOrder(g, cfg.root)
    && (forall x :: x in s.visited ==> x !in s.graph)
  }

  lemma ForwardStart(cfg: Settings, g: Arena)
    requires WellFormed(g, cfg.root) && Acyclic(g)
    ensures ForwardInv(cfg, g, Start(g))
  {
    assert [] + PruneOrder(g, cfg.root) == PruneOrder(g, cfg.root);
  }

  /** A forward turn with nodes left hands out the next leaf of the pruning loop and removes it. */
  lemma ForwardAdvance(cfg: Settings, g: Arena, s: RunState)
    requires !cfg.reverse && ForwardInv(cfg, g, s) && Len(s.graph, cfg.root) > 0
    ensures Next(cfg, s) == (s.(visited := s.visited + [NextLeaf(s.graph, cfg.root)]), Work(NextLeaf(s.graph, cfg.root)))
    ensures ForwardInv(cfg, g, Exec(cfg, Next(cfg, s).0, NextLeaf(s.graph, cfg.root)).0)
  {
    var a := s.graph;
    var leaf := NextLeaf(a, cfg.root);
    ForwardFinds(cfg, s);
    var s1 := s.(visited := s.visited + [leaf]);
    var t := Exec(cfg, s1, leaf).0;
    var b := Pruned(a, cfg.root);
    assert t.graph == b;
    PruneOrderStep(a, cfg.root);
    AppendShift(s.visited, leaf, PruneOrder(b, cfg.root));
    WithinStep(cfg, g, s);
  }

  /** Each forward turn takes the next leaf off; with only the root left, there is no work. */
  lemma ForwardStep(cfg: Settings, g: Arena, s: RunState)
    requires !cfg.reverse && ForwardInv(cfg, g, s)
    ensures Next(cfg, s).1.Work? ==> ForwardInv(cfg, g, Exec(cfg, Next(cfg, s).0, Next(cfg, s).1.unit).0)
    ensures !Next(cfg, s).1.Work? ==> Next(cfg, s).0 == s && Len(s.graph, cfg.root) == 0
  {
    if Len(s.graph, cfg.root) == 0 {
      ForwardIdle(cfg, s);
    } else {
      ForwardAdvance(cfg, g, s);
    }
  }

  lemma ForwardKept(cfg: Settings, g: Arena)
    requires !cfg.reverse
    ensures Keeps(DependencyProvider(cfg), (s: RunState) => ForwardInv(cfg, g, s))
    ensures EndsWith(DependencyProvider(cfg), (s: RunState) => ForwardInv(cfg, g, s),
      (s: RunState) => ForwardInv(cfg, g, s) && Len(s.graph, cfg.root) == 0)
  {
    var p := DependencyProvider(cfg);
    forall s | ForwardInv(cfg, g, s)
      ensures if p.next(s).1.Work? then ForwardInv(cfg, g, p.exec(p.next(s).0, p.next(s).1.unit).0)
        else (ForwardInv(cfg, g, p.next(s).0) && Len(p.next(s).0.graph, cfg.root) == 0)
    {
      ForwardStep(cfg, g, s);
    }
  }

  /** A prefix of a distinct, children-first order is distinct and children-first. */
  lemma PrefixKeeps(g: Arena, r: seq<string>, n: nat)
    requires n <= |r| && Distinct(r) && ChildrenFirst(g, r)
    ensures Distinct(r[..n]) && ChildrenFirst(g, r[..n])
  {
    var q := r[..n];
    forall i, c | 0 <= i < |q| && q[i] in g && c in g[q[i]].childs
      ensures c in q[..i]
    {
      assert q[..i] == r[..i];
    }
  }

  /** The handed-out IDs of a forward run are a prefix of the pruning order. */
  lemma ForwardOrder(cfg: Settings, g: Arena, s: RunState)
    requires ForwardInv(cfg, g, s)
    ensures s.visited <= PruneOrder(g, cfg.root)
    ensures Distinct(s.visited) && ChildrenFirst(g, s.visited)
  {
    var full := PruneOrder(g, cfg.root);
    assert s.visited == full[..|s.visited|];
    PruneOrderDistinct(g, cfg.root);
    PruneOrderLeavesFirst(g, cfg.root);
    PrefixKeeps(g, full, |s.visited|);
  }

  /** A forward run with only the root left has handed out the whole pruning order. */
  lemma ForwardDone(cfg: Settings, g: Arena, s: RunState)
    requires ForwardInv(cfg, g, s) && Len(s.graph, cfg.root) == 0
    ensures s.graph.Keys == {cfg.root}
    ensures s.visited == PruneOrder(g, cfg.root)
    ensures forall x :: x in s.visited <==> x in g && x != cfg.root
  {
    assert s.graph.Keys - {cfg.root} == {};
    assert PruneOrder(s.graph, cfg.root) == [];
    assert s.visited + [] == s.visited;
    PruneOrderCovers(g, cfg.root);
  }

  /**
   * Whatever the actions return and however many workers run, a forward run hands out
   * nodes in the order the pruning loop takes them off, each at most once, and only
   * after all of the node's children.
   */
  lemma ForwardRun(cfg: Settings, g: Arena, k: int)
    requires !cfg.reverse && WellFormed(g, cfg.root) && Acyclic(g)
    ensures var s := Workers(DependencyProvider(cfg), Start(g), k).0;
      && s.visited <= PruneOrder(g, cfg.root)
      && Distinct(s.visited) && ChildrenFirst(g, s.visited)
      && s.executed == Performed(cfg, s.visited)
  {
    var p := DependencyProvider(cfg);
    ForwardKept(cfg, g);
    ForwardStart(cfg, g);
    WorkersKeep(p, (s: RunState) => ForwardInv(cfg, g, s), Start(g), k);
    ForwardOrder(cfg, g, Workers(p, Start(g), k).0);
  }

  /**
   * When every selected action succeeds, a forward run with at least one worker returns
   * nil and hands out every non-root node exactly once, in pruning order, each after all
   * of its children; only the root is left in the graph.
   */
  lemma ForwardDrains(cfg: Settings, g: Arena, k: int)
    requires !cfg.reverse && WellFormed(g, cfg.root) && Acyclic(g) && k >= 1
    requires forall x :: Selected(cfg, x) ==> Succeeds(cfg, x)
    ensures var (s, err) := Workers(DependencyProvider(cfg), Start(g), k);
      && err == None
      && s.graph.Keys == {cfg.root}
      && s.visited == PruneOrder(g, cfg.root)
      && (forall x :: x in s.visited <==> x in g && x != cfg.root)
      && Distinct(s.visited) && ChildrenFirst(g, s.visited)
      && s.executed == Performed(cfg, PruneOrder(g, cfg.root))
  {
    var p := DependencyProvider(cfg);
    var inv := (s: RunState) => ForwardInv(cfg, g, s);
    var done := (s: RunState) => ForwardInv(cfg, g, s) && Len(s.graph, cfg.root) == 0;
    ForwardKept(cfg, g);
    NothingFails(cfg, inv);
    ForwardStart(cfg, g);
    WorkersSucceed(p, inv, Start(g), k);
    WorkersEnd(p, inv, done, Start(g), k);
    var s := Workers(p, Start(g), k).0;
    ForwardDone(cfg, g, s);
    ForwardOrder(cfg, g, s);
  }

  // ---------------------------------------------------------------------------
  // Reverse runs

  /** The distinct IDs of `s` other than `root`, in the order they first occur. */
  function FirstOccurrences(s: seq<string>, root: string): (r: seq<string>)
    ensures forall x :: x in r <==> x in s && x != root
    ensures Distinct(r)
  {
    if s == [] then []
    else
      var r := FirstOccurrences(s[..|s| - 1], root);
      var x := s[|s| - 1];
      assert forall y :: y in s <==> y in s[..|s| - 1] || y == x;
      if x == root || x in r then r else r + [x]
  }

  /** IDs already counted change nothing. */
  lemma {:induction false} FirstOccurrencesStable(order: seq<string>, root: string, seen: seq<string>, n: nat, m: nat)
    requires n <= m <= |order| && seen == FirstOccurrences(order[..n], root)
    requires forall j :: n <= j < m ==> order[j] == root || order[j] in seen
    ensures FirstOccurrences(order[..m], root) == seen
    decreases m
  {
    if m > n {
      FirstOccurrencesStable(order, root, seen, n, m - 1);
      assert order[..m][..m - 1] == order[..m - 1];
    }
  }

  /** The first ID past the counted ones that is new lies beyond the prefix, and is counted next. */
  lemma FirstOccurrencesNext(order: seq<string>, root: string, seen: seq<string>, n: nat, i: nat)
    requires n <= |order| && i < |order| && seen == FirstOccurrences(order[..n], root)
    requires order[i] != root && order[i] !in seen
    requires forall j :: 0 <= j < i ==> order[j] == root || order[j] in seen
    ensures n <= i
    ensures FirstOccurrences(order[..i + 1], root) == seen + [order[i]]
  {
    FirstOccurrencesStable(order, root, seen, n, i);
    assert order[..i + 1][..i] == order[..i];
  }

  /** When a search for a fresh ID finds nothing, every first occurrence is already visited. */
  lemma FreshIdle(order: seq<string>, root: string, visited: seq<string>, n: nat)
    requires n <= |order| && visited == FirstOccurrences(order[..n], root)
    requires Scan(order, FreshVisitor(root, visited), []).NotFound?
    ensures visited == FirstOccurrences(order, root)
  {
    var visit := FreshVisitor(root, visited);
    forall j | n <= j < |order|
      ensures order[j] == root || order[j] in visited
    {
      assert visit([] + order[..j], order[j]) == Continue;
    }
    FirstOccurrencesStable(order, root, visited, n, |order|);
    assert order[..|order|] == order;
  }

  /** Where a search for a fresh ID stops: the first ID that is neither the root nor visited. */
  lemma FreshAt(order: seq<string>, root: string, visited: seq<string>, id: string) returns (i: nat)
    requires Scan(order, FreshVisitor(root, visited), []) == Found(id)
    ensures i < |order| && order[i] == id && id != root && id !in visited
    ensures forall j :: 0 <= j < i ==> order[j] == root || order[j] in visited
  {
    var visit := FreshVisitor(root, visited);
    i :| 0 <= i < |order| && order[i] == id && visit([] + order[..i], order[i]) == Stop
      && forall j :: 0 <= j < i ==> visit([] + order[..j], order[j]) == Continue;
    forall j | 0 <= j < i
      ensures order[j] == root || order[j] in visited
    {
      assert visit([] + order[..j], order[j]) == Continue;
    }
  }

  /** When a search for a fresh ID finds one, it is the next first occurrence. */
  lemma FreshFound(order: seq<string>, root: string, visited: seq<string>, n: nat, id: string) returns (m: nat)
    requires n <= |order| && visited == FirstOccurrences(order[..n], root)
    requires Scan(order, FreshVisitor(root, visited), []) == Found(id)
    ensures m <= |order| && visited + [id] == FirstOccurrences(order[..m], root)
  {
    var i := FreshAt(order, root, visited, id);
    FirstOccurrencesNext(order, root, visited, n, i);
    m := i + 1;
  }

  /** A reverse run so far: the graph is untouched and the handed-out IDs are the first occurrences of a pre-order prefix. */
  ghost predicate ReverseInv(cfg: Settings, g: Arena, s: RunState)
  {
    && Within(cfg, g, s)
    && s.graph == g
    && exists n :: 0 <= n <= |PreOrder(g, cfg.root)| && s.visited == FirstOccurrences(PreOrder(g, cfg.root)[..n], cfg.root)
  }

  lemma ReverseStart(cfg: Settings, g: Arena)
    ensures ReverseInv(cfg, g, Start(g))
  {
    assert Start(g).visited == FirstOccurrences(PreOrder(g, cfg.root)[..0], cfg.root);
  }

  /** Each reverse turn hands out the next first occurrence of the pre-order; when none is left, all were handed out. */
  lemma ReverseStep(cfg: Settings, g: Arena, s: RunState)
    requires cfg.reverse && ReverseInv(cfg, g, s)
    ensures Next(cfg, s).1.NoWork? ==> s.visited == FirstOccurrences(PreOrder(g, cfg.root), cfg.root)
    ensures Next(cfg, s).1.Work? ==> ReverseInv(cfg, g, Exec(cfg, Next(cfg, s).0, Next(cfg, s).1.unit).0)
  {
    var order := PreOrder(g, cfg.root);
    var n :| 0 <= n <= |order| && s.visited == FirstOccurrences(order[..n], cfg.root);
    assert PreOrderSearch(g, cfg.root, ReverseVisitor(cfg, s)) == Scan(order, ReverseVisitor(cfg, s), []);
    if Next(cfg, s).1.NoWork? {
      FreshIdle(order, cfg.root, s.visited, n);
    } else if Next(cfg, s).1.Work? {
      var m := FreshFound(order, cfg.root, s.visited, n, Next(cfg, s).1.unit);
      var t := Exec(cfg, Next(cfg, s).0, Next(cfg, s).1.unit).0;
      assert t.visited == FirstOccurrences(order[..m], cfg.root);
      WithinStep(cfg, g, s);
    }
  }

  lemma ReverseKept(cfg: Settings, g: Arena)
    requires cfg.reverse
    ensures Keeps(DependencyProvider(cfg), (s: RunState) => ReverseInv(cfg, g, s))
    ensures EndsWith(DependencyProvider(cfg), (s: RunState) => ReverseInv(cfg, g, s),
      (s: RunState) => s.visited == FirstOccurrences(PreOrder(g, cfg.root), cfg.root))
  {
    var p := DependencyProvider(cfg);
    forall s | ReverseInv(cfg, g, s)
      ensures if p.next(s).1.Work? then ReverseInv(cfg, g, p.exec(p.next(s).0, p.next(s).1.unit).0)
        else (&& ReverseInv(cfg, g, p.next(s).0)
              && (p.next(s).1.NoWork? ==> p.next(s).0.visited == FirstOccurrences(PreOrder(g, cfg.root), cfg.root)))
    {
      ReverseStep(cfg, g, s);
    }
  }

  /**
   * Whatever the actions return and however many workers run, a reverse run leaves the
   * graph as it is and hands out each non-root node at most once, in the order of first
   * occurrence in the pre-order.
   */
  lemma ReverseRun(cfg: Settings, g: Arena, k: int)
    requires cfg.reverse
    ensures var s := Workers(DependencyProvider(cfg), Start(g), k).0;
      && s.graph == g
      && (exists n :: 0 <= n <= |PreOrder(g, cfg.root)|
            && s.visited == FirstOccurrences(PreOrder(g, cfg.root)[..n], cfg.root))
      && Distinct(s.visited)
      && s.executed == Performed(cfg, s.visited)
  {
    ReverseKept(cfg, g);
    ReverseStart(cfg, g);
    WorkersKeep(DependencyProvider(cfg), (s: RunState) => ReverseInv(cfg, g, s), Start(g), k);
  }

  /**
   * When every selected action succeeds, a reverse run with at least one worker returns
   * nil and hands out every non-root node the pre-order reaches exactly once, in the
   * order of first occurrence.
   */
  lemma ReverseCovers(cfg: Settings, g: Arena, k: int)
    requires cfg.reverse && k >= 1
    requires forall x :: Selected(cfg, x) ==> Succeeds(cfg, x)
    ensures var (s, err) := Workers(DependencyProvider(cfg), Start(g), k);
      && err == None
      && s.visited == FirstOccurrences(PreOrder(g, cfg.root), cfg.root)
      && (forall x :: x in s.visited <==> x in PreOrder(g, cfg.root) && x != cfg.root)
      && s.executed == Performed(cfg, s.visited)
  {
    var p := DependencyProvider(cfg);
    var inv := (s: RunState) => ReverseInv(cfg, g, s);
    var done := (s: RunState) => s.visited == FirstOccurrences(PreOrder(g, cfg.root), cfg.root);
    ReverseKept(cfg, g);
    NothingFails(cfg, inv);
    ReverseStart(cfg, g);
    WorkersKeep(p, inv, Start(g), k);
    WorkersSucceed(p, inv, Start(g), k);
    WorkersEnd(p, inv, done, Start(g), k);
  }

  // ---------------------------------------------------------------------------
  // Runs that return nil

  /** Each handed-out ID was passed over, or its hooks and action succeeded. */
  ghost predicate Clean(cfg: Settings, s: RunState)
  {
    forall x :: x in s.visited ==> !Selected(cfg, x) || Succeeds(cfg, x)
  }

  /** A unit that returns nil was passed over or succeeded, so it keeps `Clean`. */
  lemma CleanKept(cfg: Settings)
    ensures KeepsOnSuccess(DependencyProvider(cfg), (s: RunState) => Clean(cfg, s))
  {
    var p := DependencyProvider(cfg);
    forall s | Clean(cfg, s)
      ensures if p.next(s).1.Work? then
          p.exec(p.next(s).0, p.next(s).1.unit).1.None? ==> Clean(cfg, p.exec(p.next(s).0, p.next(s).1.unit).0)
        else p.next(s).1.NoWork? ==> Clean(cfg, p.next(s).0)
    {
      var (s1, l) := Next(cfg, s);
      if l.Work? {
        var t := Exec(cfg, s1, l.unit).0;
        assert forall y :: y in t.visited <==> y in s.visited || y == l.unit;
      }
    }
  }

  /**
   * Whatever the actions return and however many workers run, a run that returns nil
   * handed out no selected ID whose hooks or action failed.
   */
  lemma RunClean(cfg: Settings, g: Arena, k: int)
    ensures var (s, err) := Workers(DependencyProvider(cfg), Start(g), k);
      err.None? ==> forall x :: x in s.visited && Selected(cfg, x) ==> Succeeds(cfg, x)
  {
    CleanKept(cfg);
    WorkersKeepOnSuccess(DependencyProvider(cfg), (s: RunState) => Clean(cfg, s), Start(g), k);
  }

  /** A forward run with at least one worker that returns nil handed out every non-root node. */
  lemma ForwardEnds(cfg: Settings, g: Arena, k: int)
    requires !cfg.reverse && WellFormed(g, cfg.root) && Acyclic(g) && k >= 1
    ensures var (s, err) := Workers(DependencyProvider(cfg), Start(g), k);
      err.None? ==> forall x :: x in g && x != cfg.root ==> x in s.visited
  {
    var p := DependencyProvider(cfg);
    var (s, err) := Workers(p, Start(g), k);
    if err.None? {
      var inv := (s: RunState) => ForwardInv(cfg, g, s);
      var done := (s: RunState) => ForwardInv(cfg, g, s) && Len(s.graph, cfg.root) == 0;
      ForwardKept(cfg, g);
      ForwardStart(cfg, g);
      WorkersEnd(p, inv, done, Start(g), k);
      ForwardDone(cfg, g, s);
    }
  }

  /** A reverse run with at least one worker that returns nil handed out every non-root node of the pre-order. */
  lemma ReverseEnds(cfg: Settings, g: Arena, k: int)
    requires cfg.reverse && k >= 1
    ensures var (s, err) := Workers(DependencyProvider(cfg), Start(g), k);
      err.None? ==> forall x :: x in PreOrder(g, cfg.root) && x != cfg.root ==> x in s.visited
  {
    var p := DependencyProvider(cfg);
    var (s, err) := Workers(p, Start(g), k);
    if err.None? {
      var inv := (s: RunState) => ReverseInv(cfg, g, s);
      var done := (s: RunState) => s.visited == FirstOccurrences(PreOrder(g, cfg.root), cfg.root);
      ReverseKept(cfg, g);
      ReverseStart(cfg, g);
      WorkersEnd(p, inv, done, Start(g), k);
    }
  }

  // ---------------------------------------------------------------------------
  // handleDependencies and Command

  /** `concurrency == 0` stands for the number of CPUs. */
  function Concurrency(concurrency: int, numCPU: int): (c: int)
    ensures concurrency != 0 ==> c == concurrency
    ensures concurrency == 0 ==> c == numCPU
  {
    if concurrency == 0 then numCPU else concurrency
  }

  /** The executed IDs whose dependency is a root dependency, in execution order. */
  function RootsOnly(cfg: Settings, ids: seq<string>): (r: seq<string>)
    ensures forall x :: x in r <==> x in ids && cfg.info(x).isRoot
    ensures |r| <= |ids|
  {
    if ids == [] then []
    else
      var r := RootsOnly(cfg, ids[..|ids| - 1]);
      var x := ids[|ids| - 1];
      assert forall y :: y in ids <==> y in ids[..|ids| - 1] || y == x;
      if cfg.info(x).isRoot then r + [x] else r
  }

  /** Filtering keeps the order: it filters each part of a list separately, and keeps one ID iff it is a root. */
  lemma {:induction false} RootsOnlyAppend(cfg: Settings, a: seq<string>, b: seq<string>)
    ensures RootsOnly(cfg, a + b) == RootsOnly(cfg, a) + RootsOnly(cfg, b)
    ensures forall x :: RootsOnly(cfg, [x]) == if cfg.info(x).isRoot then [x] else []
    decreases |b|
  {
    assert forall x: string :: [x][..0] == [];
    if b != [] {
      var b' := b[..|b| - 1];
      assert (a + b)[..|a + b| - 1] == a + b';
      RootsOnlyAppend(cfg, a, b');
    } else {
      assert a + b == a;
    }
  }

  /**
   * What `handleDependencies` returns: nil and nil without a configured dependency, the
   * wrapped resolve error, nil and the scheduler's error, or the root dependencies among
   * the executed ones. The third component is Command's `found` flag after the run.
   */
  function Handle(cfg: Settings, configured: bool, resolved: Result<Arena, Error>, concurrency: int, numCPU: int)
    : (r: (Option<seq<string>>, Option<Error>, bool))
    ensures !configured ==> r == (None, None, false)
    ensures configured && resolved.Failure? ==> r == (None, Some(Wrapped("resolve dependencies", resolved.error)), false)
    ensures r.0.None? || r.1.None?
  {
    if !configured then (None, None, false)
    else match resolved
      case Failure(e) => (None, Some(Wrapped("resolve dependencies", e)), false)
      case Success(g) =>
        var (s, err) := Workers(DependencyProvider(cfg), Start(g), Concurrency(concurrency, numCPU));
        if err.Some? then (None, err, s.found) else (Some(RootsOnly(cfg, s.executed)), None, s.found)
  }

  /**
   * `handleDependencies`. `configured` says whether the config declares dependencies,
   * `resolved` is what the resolver returns, and `numCPU` the number of CPUs.
   */
  method HandleDependencies(cfg: Settings, configured: bool, resolved: Result<Arena, Error>, concurrency: int, numCPU: int)
    returns (dependencies: Option<seq<string>>, err: Option<Error>, found: bool)
    ensures (dependencies, err, found) == Handle(cfg, configured, resolved, concurrency, numCPU)
  {
    if !configured {
      return None, None, false;
    }
    if resolved.Failure? {
      return None, Some(Wrapped("resolve dependencies", resolved.error)), false;
    }
    var c := concurrency;
    if c == 0 {
      c := numCPU;
    }
    var scheduler := new Scheduler(c, DependencyProvider(cfg));
    var s, runErr := scheduler.Run(Start(resolved.value));
    found := s.found;
    if runErr.Some? {
      return None, runErr, found;
    }
    var roots: seq<string> := [];
    var i := 0;
    while i < |s.executed|
      invariant 0 <= i <= |s.executed|
      invariant roots == RootsOnly(cfg, s.executed[..i])
    {
      assert s.executed[..i + 1][..i] == s.executed[..i];
      if cfg.info(s.executed[i]).isRoot {
        roots := roots + [s.executed[i]];
      }
      i := i + 1;
    }
    assert s.executed[..i] == s.executed;
    return Some(roots), None, found;
  }

  /**
   * A forward command over a well-formed acyclic graph in which every selected action
   * succeeds returns the root dependencies among the selected ones, in pruning order.
   */
  lemma HandleForward(cfg: Settings, g: Arena, concurrency: int, numCPU: int)
    requires !cfg.reverse && WellFormed(g, cfg.root) && Acyclic(g) && Concurrency(concurrency, numCPU) >= 1
    requires forall x :: Selected(cfg, x) ==> Succeeds(cfg, x)
    ensures Handle(cfg, true, Success(g), concurrency, numCPU).0
      == Some(RootsOnly(cfg, Performed(cfg, PruneOrder(g, cfg.root))))
    ensures Handle(cfg, true, Success(g), concurrency, numCPU).1 == None
  {
    ForwardDrains(cfg, g, Concurrency(concurrency, numCPU));
  }

  /**
   * A reverse command (purge) in which every selected action succeeds returns the root
   * dependencies among the selected ones, in order of first occurrence in the pre-order.
   */
  lemma HandleReverse(cfg: Settings, g: Arena, concurrency: int, numCPU: int)
    requires cfg.reverse && Concurrency(concurrency, numCPU) >= 1
    requires forall x :: Selected(cfg, x) ==> Succeeds(cfg, x)
    ensures Handle(cfg, true, Success(g), concurrency, numCPU).0
      == Some(RootsOnly(cfg, Performed(cfg, FirstOccurrences(PreOrder(g, cfg.root), cfg.root))))
    ensures Handle(cfg, true, Success(g), concurrency, numCPU).1 == None
  {
    ReverseCovers(cfg, g, Concurrency(concurrency, numCPU));
  }

  /**
   * A command in which some selected dependency the pre-order reaches fails its before
   * hook, its action or its after hook returns no dependencies and an error.
   */
  lemma HandleFails(cfg: Settings, g: Arena, concurrency: int, numCPU: int, x: string)
    requires Concurrency(concurrency, numCPU) >= 1
    requires !cfg.reverse ==> WellFormed(g, cfg.root) && Acyclic(g)
    requires x in PreOrder(g, cfg.root) && Selected(cfg, x) && !Succeeds(cfg, x)
    ensures Handle(cfg, true, Success(g), concurrency, numCPU).0 == None
    ensures Handle(cfg, true, Success(g), concurrency, numCPU).1.Some?
  {
    var k := Concurrency(concurrency, numCPU);
    if cfg.reverse {
      ReverseEnds(cfg, g, k);
    } else {
      ForwardEnds(cfg, g, k);
    }
    RunClean(cfg, g, k);
  }

  /** The settings Command passes: only the named dependency, nothing skipped, forward. */
  function CommandSettings(root: string, dependency: string, info: string -> Info, outcome: string -> Outcome): Settings
  {
    Settings(root, [], [dependency], false, "Command", info, outcome)
  }

  /**
   * `Command`: runs the named dependency's command with one worker, and reports that the
   * dependency could not be found when no action set `found`, whatever the run returned.
   */
  method Command(root: string, dependency: string, info: string -> Info, outcome: string -> Outcome,
                 configured: bool, resolved: Result<Arena, Error>)
    returns (err: Option<Error>)
    ensures var (_, runErr, found) := Handle(CommandSettings(root, dependency, info, outcome), configured, resolved, 1, 1);
      err == if found then runErr else Some(External("couldn't find dependency " + dependency))
  {
    var _, runErr, found := HandleDependencies(CommandSettings(root, dependency, info, outcome), configured, resolved, 1, 1);
    if !found {
      return Some(External("couldn't find dependency " + dependency));
    }
    return runErr;
  }

  /** When no node of the resolved graph carries the name, no action sets `found`. */
  lemma CommandNotFound(root: string, dependency: string, info: string -> Info, outcome: string -> Outcome,
                        configured: bool, resolved: Result<Arena, Error>)
    requires resolved.Success? ==> forall x :: x in resolved.value ==> info(x).name != dependency
    ensures !Handle(CommandSettings(root, dependency, info, outcome), configured, resolved, 1, 1).2
  {
    if configured && resolved.Success? {
      var cfg := CommandSettings(root, dependency, info, outcome);
      RunWithin(cfg, resolved.value, 1);
    }
  }
}
