/**
 * The scheduler: `concurrency` workers each ask a shared, stateful provider for the next
 * unit of work and execute it, until the provider has nothing left or something fails.
 *
 * The provider and the work it hands out act on an explicit state `S` (the variables
 * the Go closures capture). The workers run one after another: each is one legal
 * interleaving of the goroutines, and with one worker it is exactly what Go does.
 */
module Scheduler {
  import opened Wrappers
  import opened Errors

  /** What `next()` answers: a unit of work, no work (nil, nil), or a lookup error. */
  datatype Lookup<W> = Work(unit: W) | NoWork | LookupFailed(err: Error)

  /**
   * A provider over state `S`: `next` looks up a unit, `exec` runs one. `measure` bounds
   * how often a worker can loop; it is what makes the model's loops terminate.
   */
  datatype Provider<!S, !W> = Provider(
    next: S -> (S, Lookup<W>),
    exec: (S, W) -> (S, Option<Error>),
    measure: S -> nat)

  /** Looking up a unit and executing it always brings the measure down. */
  ghost predicate Terminating<S(!new), W>(p: Provider<S, W>)
  {
    forall s :: p.next(s).1.Work? ==> p.measure(p.exec(p.next(s).0, p.next(s).1.unit).0) < p.measure(s)
  }

  /**
   * One worker from state `s`: the final state and the error the worker returns. It
   * stops with the lookup's error, with nothing when there is no work left, and with
   * the work's error when a unit fails; otherwise it asks again.
   */
  function Worker<S(!new), W>(p: Provider<S, W>, s: S): (S, Option<Error>)
    requires Terminating(p)
    decreases p.measure(s)
  {
    var (s1, l) := p.next(s);
    match l
    case LookupFailed(e) => (s1, Some(e))
    case NoWork => (s1, None)
    case Work(w) =>
      var (s2, err) := p.exec(s1, w);
      if err.Some? then (s2, err) else Worker(p, s2)
  }

  /**
   * `k` workers one after another from `s`: the final state and the first error any of
   * them returned, in worker order. No worker is started when `k <= 0`.
   */
  function Workers<S(!new), W>(p: Provider<S, W>, s: S, k: int): (S, Option<Error>)
    requires Terminating(p)
    decreases if k < 0 then 0 else k
  {
    if k <= 0 then (s, None)
    else
      var (s1, e1) := Workers(p, s, k - 1);
      var (s2, e2) := Worker(p, s1);
      (s2, if e1.Some? then e1 else e2)
  }

  /** The outcome of worker number `i` (from 0), started where the workers before it stopped. */
  function WorkerAt<S(!new), W>(p: Provider<S, W>, s: S, i: nat): (S, Option<Error>)
    requires Terminating(p)
  {
    Worker(p, Workers(p, s, i).0)
  }

  /** A run without workers never asks the provider and succeeds. */
  lemma NoWorkers<S(!new), W>(p: Provider<S, W>, s: S, k: int)
    requires Terminating(p) && k <= 0
    ensures Workers(p, s, k) == (s, None)
  {
  }

  /**
   * The run succeeds iff every worker returned nil; when it fails, its error is the one
   * returned by the first worker that failed.
   */
  lemma {:induction false} RunError<S(!new), W>(p: Provider<S, W>, s: S, k: nat)
    requires Terminating(p)
    ensures Workers(p, s, k).1.None? <==> forall i :: 0 <= i < k ==> WorkerAt(p, s, i).1.None?
    ensures Workers(p, s, k).1.Some? ==>
      exists i :: 0 <= i < k && WorkerAt(p, s, i).1 == Workers(p, s, k).1
        && forall j :: 0 <= j < i ==> WorkerAt(p, s, j).1.None?
  {
    if k > 0 {
      RunError(p, s, k - 1);
      var e1 := Workers(p, s, k - 1).1;
      assert WorkerAt(p, s, k - 1) == Worker(p, Workers(p, s, k - 1).0);
    }
  }

  /**
   * `inv` holds each time a worker is about to call `next`: a lookup that hands out no
   * work keeps it, and so does a lookup followed by running the unit it hands out.
   */
  ghost predicate Keeps<S(!new), W>(p: Provider<S, W>, inv: S -> bool)
  {
    forall s {:trigger p.next(s)} :: inv(s) ==>
      if p.next(s).1.Work? then inv(p.exec(p.next(s).0, p.next(s).1.unit).0) else inv(p.next(s).0)
  }

  /** Whenever `inv` holds and `next` answers that there is no work left, `done` holds after. */
  ghost predicate EndsWith<S(!new), W>(p: Provider<S, W>, inv: S -> bool, done: S -> bool)
  {
    forall s {:trigger p.next(s)} :: inv(s) && p.next(s).1.NoWork? ==> done(p.next(s).0)
  }

  /** From some state satisfying `inv`, the lookup fails or the unit it hands out fails. */
  ghost predicate Fails<S(!new), W>(p: Provider<S, W>, inv: S -> bool)
  {
    exists s {:trigger p.next(s)} :: inv(s) &&
      if p.next(s).1.Work? then p.exec(p.next(s).0, p.next(s).1.unit).1.Some? else p.next(s).1.LookupFailed?
  }

  /**
   * `inv` holds each time a worker is about to call `next`, as long as nothing failed: a
   * unit that returns nil keeps it, and so does a lookup that answers no work.
   */
  ghost predicate KeepsOnSuccess<S(!new), W>(p: Provider<S, W>, inv: S -> bool)
  {
    forall s {:trigger p.next(s)} :: inv(s) ==>
      if p.next(s).1.Work? then
        p.exec(p.next(s).0, p.next(s).1.unit).1.None? ==> inv(p.exec(p.next(s).0, p.next(s).1.unit).0)
      else p.next(s).1.NoWork? ==> inv(p.next(s).0)
  }

  /** A worker keeps every invariant its provider keeps. */
  lemma {:induction false} WorkerKeeps<S(!new), W>(p: Provider<S, W>, inv: S -> bool, s: S)
    requires Terminating(p) && Keeps(p, inv) && inv(s)
    ensures inv(Worker(p, s).0)
    decreases p.measure(s)
  {
    var (s1, l) := p.next(s);
    if l.Work? {
      var (s2, err) := p.exec(s1, l.unit);
      if err.None? {
        WorkerKeeps(p, inv, s2);
      }
    }
  }

  /** A worker that returns nil stops where `next` answered that no work is left. */
  lemma {:induction false} WorkerEnds<S(!new), W>(p: Provider<S, W>, inv: S -> bool, done: S -> bool, s: S)
    requires Terminating(p) && Keeps(p, inv) && EndsWith(p, inv, done) && inv(s)
    ensures Worker(p, s).1.None? ==> done(Worker(p, s).0)
    decreases p.measure(s)
  {
    var (s1, l) := p.next(s);
    if l.Work? {
      var (s2, err) := p.exec(s1, l.unit);
      if err.None? {
        WorkerEnds(p, inv, done, s2);
      }
    }
  }

  /** A worker for which nothing can fail returns nil. */
  lemma {:induction false} WorkerSucceeds<S(!new), W>(p: Provider<S, W>, inv: S -> bool, s: S)
    requires Terminating(p) && Keeps(p, inv) && !Fails(p, inv) && inv(s)
    ensures Worker(p, s).1.None?
    decreases p.measure(s)
  {
    var (s1, l) := p.next(s);
    if l.Work? {
      var (s2, err) := p.exec(s1, l.unit);
      WorkerSucceeds(p, inv, s2);
    }
  }

  /** So does a whole run of `k` workers. */
  lemma {:induction false} WorkersKeep<S(!new), W>(p: Provider<S, W>, inv: S -> bool, s: S, k: int)
    requires Terminating(p) && Keeps(p, inv) && inv(s)
    ensures inv(Workers(p, s, k).0)
    decreases if k < 0 then 0 else k
  {
    if k > 0 {
      WorkersKeep(p, inv, s, k - 1);
      WorkerKeeps(p, inv, Workers(p, s, k - 1).0);
    }
  }

  /** A worker that returns nil keeps every invariant its provider keeps while nothing fails. */
  lemma {:induction false} WorkerKeepsOnSuccess<S(!new), W>(p: Provider<S, W>, inv: S -> bool, s: S)
    requires Terminating(p) && KeepsOnSuccess(p, inv) && inv(s)
    ensures Worker(p, s).1.None? ==> inv(Worker(p, s).0)
    decreases p.measure(s)
  {
    var (s1, l) := p.next(s);
    if l.Work? {
      var (s2, err) := p.exec(s1, l.unit);
      if err.None? {
        WorkerKeepsOnSuccess(p, inv, s2);
      }
    }
  }

  /** So does a whole run that returns nil: every unit it ran returned nil. */
  lemma {:induction false} WorkersKeepOnSuccess<S(!new), W>(p: Provider<S, W>, inv: S -> bool, s: S, k: int)
    requires Terminating(p) && KeepsOnSuccess(p, inv) && inv(s)
    ensures Workers(p, s, k).1.None? ==> inv(Workers(p, s, k).0)
    decreases if k < 0 then 0 else k
  {
    if k > 0 {
      var r1 := Workers(p, s, k - 1);
      WorkersKeepOnSuccess(p, inv, s, k - 1);
      if r1.1.None? {
        WorkerKeepsOnSuccess(p, inv, r1.0);
      }
    }
  }

  /** A run of at least one worker that returns nil ends where `next` found no work left. */
  lemma {:induction false} WorkersEnd<S(!new), W>(p: Provider<S, W>, inv: S -> bool, done: S -> bool, s: S, k: int)
    requires Terminating(p) && Keeps(p, inv) && EndsWith(p, inv, done) && inv(s)
    requires k >= 1 && Workers(p, s, k).1.None?
    ensures done(Workers(p, s, k).0)
  {
    var r1 := Workers(p, s, k - 1);
    WorkersKeep(p, inv, s, k - 1);
    WorkerEnds(p, inv, done, r1.0);
  }

  /** A run in which nothing can fail returns nil. */
  lemma {:induction false} WorkersSucceed<S(!new), W>(p: Provider<S, W>, inv: S -> bool, s: S, k: int)
    requires Terminating(p) && Keeps(p, inv) && !Fails(p, inv) && inv(s)
    ensures Workers(p, s, k).1.None?
    decreases if k < 0 then 0 else k
  {
    if k > 0 {
      var r1 := Workers(p, s, k - 1);
      WorkersSucceed(p, inv, s, k - 1);
      WorkersKeep(p, inv, s, k - 1);
      WorkerSucceeds(p, inv, r1.0);
      assert Workers(p, s, k).1 == if r1.1.Some? then r1.1 else Worker(p, r1.0).1;
    }
  }

  /** `scheduler`: the number of workers to start and the provider they share. */
  class Scheduler<S(!new), W> {
    const concurrency: int
    const provider: Provider<S, W>

    /** `NewScheduler`. */
    constructor(concurrency: int, provider: Provider<S, W>)
      ensures this.concurrency == concurrency && this.provider == provider
    {
      this.concurrency := concurrency;
      this.provider := provider;
    }

    /** One worker's loop, from state `s`. */
    method RunWorker(s: S) returns (s': S, err: Option<Error>)
      requires Terminating(provider)
      ensures (s', err) == Worker(provider, s)
    {
      var cur := s;
      while true
        invariant Worker(provider, cur) == Worker(provider, s)
        decreases provider.measure(cur)
      {
        var (s1, l) := provider.next(cur);
        match l {
          case LookupFailed(e) =>
            return s1, Some(e);
          case NoWork =>
            return s1, None;
          case Work(w) =>
            var (s2, e) := provider.exec(s1, w);
            if e.Some? {
              return s2, e;
            }
            cur := s2;
        }
      }
    }

    /** `Run`: starts `concurrency` workers and reports the first error. */
    method Run(s0: S) returns (s: S, err: Option<Error>)
      requires Terminating(provider)
      ensures (s, err) == Workers(provider, s0, concurrency)
    {
      s, err := s0, None;
      var idx := 0;
      while idx < concurrency
        invariant 0 <= idx && (idx <= concurrency || idx == 0)
        invariant (s, err) == Workers(provider, s0, idx)
      {
        var s2, e2 := RunWorker(s);
        s, err := s2, if err.Some? then err else e2;
        idx := idx + 1;
      }
    }
  }
}
