/**
 * The scheduler driven by a queue of named work items, the provider its tests use: `next`
 * pops the head of the queue, and running an item records its name.
 */
module SchedulerExamples {
  import opened Wrappers
  import opened Errors
  import opened Scheduler

  /** The work still queued and the names recorded by the items run so far. */
  datatype Queue = Queue(work: seq<string>, results: seq<string>)

  /**
   * Pops the head of the queue; an item for which `badLookup` holds makes the lookup fail
   * (after the pop), one for which `badWork` holds fails when run, with `e` in both cases.
   */
  function QueueProvider(badLookup: string -> bool, badWork: string -> bool, e: Error): (p: Provider<Queue, string>)
    ensures Terminating(p)
  {
    Provider(
      (q: Queue) =>
        if |q.work| > 0 then (q.(work := q.work[1..]), if badLookup(q.work[0]) then LookupFailed(e) else Work(q.work[0]))
        else (q, NoWork),
      (q: Queue, w: string) => if badWork(w) then (q, Some(e)) else (q.(results := q.results + [w]), None),
      (q: Queue) => |q.work|)
  }

  /** `w` fails, at lookup or when run. */
  predicate Bad(badLookup: string -> bool, badWork: string -> bool, w: string)
  {
    badLookup(w) || badWork(w)
  }

  /** One turn of a worker's loop over a queue. */
  lemma QueueStep(badLookup: string -> bool, badWork: string -> bool, e: Error, q: Queue)
    ensures |q.work| == 0 ==> Worker(QueueProvider(badLookup, badWork, e), q) == (q, None)
    ensures |q.work| > 0 && Bad(badLookup, badWork, q.work[0]) ==>
      Worker(QueueProvider(badLookup, badWork, e), q) == (Queue(q.work[1..], q.results), Some(e))
    ensures |q.work| > 0 && !Bad(badLookup, badWork, q.work[0]) ==>
      Worker(QueueProvider(badLookup, badWork, e), q)
        == Worker(QueueProvider(badLookup, badWork, e), Queue(q.work[1..], q.results + [q.work[0]]))
  {
  }

  /** One worker over a queue without bad items runs them all, in order, and returns nil. */
  lemma {:induction false} QueueWorkerAll(badLookup: string -> bool, badWork: string -> bool, e: Error, q: Queue)
    requires forall x :: x in q.work ==> !Bad(badLookup, badWork, x)
    ensures Worker(QueueProvider(badLookup, badWork, e), q) == (Queue([], q.results + q.work), None)
    decreases |q.work|
  {
    QueueStep(badLookup, badWork, e, q);
    if |q.work| == 0 {
      assert q.results + q.work == q.results;
    } else {
      var q2 := Queue(q.work[1..], q.results + [q.work[0]]);
      QueueWorkerAll(badLookup, badWork, e, q2);
      assert q2.results + q2.work == q.results + q.work;
    }
  }

  /**
   * One worker over a queue runs the items before the first bad one, in order, consumes
   * the bad one without recording it, and stops there with `e`.
   */
  lemma {:induction false} QueueWorkerStops(badLookup: string -> bool, badWork: string -> bool, e: Error, q: Queue, i: nat)
    requires i < |q.work| && Bad(badLookup, badWork, q.work[i])
    requires forall j :: 0 <= j < i ==> !Bad(badLookup, badWork, q.work[j])
    ensures Worker(QueueProvider(badLookup, badWork, e), q) == (Queue(q.work[i + 1..], q.results + q.work[..i]), Some(e))
    decreases i
  {
    QueueStep(badLookup, badWork, e, q);
    if i == 0 {
      assert q.results + q.work[..0] == q.results;
    } else {
      var q2 := Queue(q.work[1..], q.results + [q.work[0]]);
      assert forall j :: 0 <= j < i - 1 ==> q2.work[j] == q.work[j + 1];
      QueueWorkerStops(badLookup, badWork, e, q2, i - 1);
      PoppedQueue(q, i);
    }
  }

  /** The queue after popping its head, seen from the `i`-th item of the original queue. */
  lemma PoppedQueue(q: Queue, i: nat)
    requires 0 < i < |q.work|
    ensures q.work[1..][i - 1 + 1..] == q.work[i + 1..]
    ensures (q.results + [q.work[0]]) + q.work[1..][..i - 1] == q.results + q.work[..i]
  {
    assert q.work[1..][..i - 1] == q.work[1..i];
    assert q.work[..i] == [q.work[0]] + q.work[1..i];
  }

  /**
   * With at least one worker, a queue without bad items is run completely: every item is
   * run once, in queue order, however many workers there are, and the run returns nil.
   */
  lemma {:induction false} QueueRunsAll(badLookup: string -> bool, badWork: string -> bool, e: Error, items: seq<string>, k: int)
    requires k >= 1
    requires forall x :: x in items ==> !Bad(badLookup, badWork, x)
    ensures Workers(QueueProvider(badLookup, badWork, e), Queue(items, []), k) == (Queue([], items), None)
    decreases k
  {
    var p := QueueProvider(badLookup, badWork, e);
    if k == 1 {
      QueueWorkerAll(badLookup, badWork, e, Queue(items, []));
      assert [] + items == items;
    } else {
      QueueRunsAll(badLookup, badWork, e, items, k - 1);
      QueueStep(badLookup, badWork, e, Queue([], items));
    }
  }

  /** With at least one worker, a queue holding a bad item makes the run return `e`. */
  lemma QueueRunFails(badLookup: string -> bool, badWork: string -> bool, e: Error, items: seq<string>, k: nat)
    requires k >= 1
    requires exists x :: x in items && Bad(badLookup, badWork, x)
    ensures Workers(QueueProvider(badLookup, badWork, e), Queue(items, []), k).1 == Some(e)
  {
    var p := QueueProvider(badLookup, badWork, e);
    var i := FirstBad(badLookup, badWork, items);
    QueueWorkerStops(badLookup, badWork, e, Queue(items, []), i);
    assert WorkerAt(p, Queue(items, []), 0).1 == Some(e);
    RunError(p, Queue(items, []), k);
  }

  /** The index of the first bad item. */
  lemma FirstBad(badLookup: string -> bool, badWork: string -> bool, items: seq<string>) returns (i: nat)
    requires exists x :: x in items && Bad(badLookup, badWork, x)
    ensures i < |items| && Bad(badLookup, badWork, items[i])
    ensures forall j :: 0 <= j < i ==> !Bad(badLookup, badWork, items[j])
  {
    i := 0;
    while !Bad(badLookup, badWork, items[i])
      invariant i < |items|
      invariant forall j :: 0 <= j < i ==> !Bad(badLookup, badWork, items[j])
      invariant exists x :: x in items[i..] && Bad(badLookup, badWork, x)
      decreases |items| - i
    {
      assert items[i..] == [items[i]] + items[i + 1..];
      i := i + 1;
    }
  }

  function Five(): seq<string>
  {
    ["one", "two", "three", "four", "five"]
  }

  function Never(): string -> bool
  {
    (w: string) => false
  }

  function IsThree(): string -> bool
  {
    (w: string) => w == "three"
  }

  /** `TestRun`: five items, two workers, five results. */
  lemma TestRun()
    ensures var (q, err) := Workers(QueueProvider(Never(), Never(), External("work error!")), Queue(Five(), []), 2);
      err == None && |q.results| == 5
  {
    QueueRunsAll(Never(), Never(), External("work error!"), Five(), 2);
  }

  /** `TestRunLess`: two items, five workers, two results. */
  lemma TestRunLess()
    ensures var (q, err) := Workers(QueueProvider(Never(), Never(), External("work error!")), Queue(["one", "two"], []), 5);
      err == None && |q.results| == 2
  {
    QueueRunsAll(Never(), Never(), External("work error!"), ["one", "two"], 5);
  }

  /** `TestRunWorkErrors`: running "three" fails, and the run returns that error. */
  lemma TestRunWorkErrors()
    ensures Workers(QueueProvider(Never(), IsThree(), External("work error!")), Queue(Five(), []), 2).1
      == Some(External("work error!"))
  {
    assert "three" in Five() && Bad(Never(), IsThree(), "three");
    QueueRunFails(Never(), IsThree(), External("work error!"), Five(), 2);
  }

  /** `TestRunLookupWorkErrors`: looking up "three" fails, and the run returns that error. */
  lemma TestRunLookupWorkErrors()
    ensures Workers(QueueProvider(IsThree(), Never(), External("work error!")), Queue(Five(), []), 2).1
      == Some(External("work error!"))
  {
    assert "three" in Five() && Bad(IsThree(), Never(), "three");
    QueueRunFails(IsThree(), Never(), External("work error!"), Five(), 2);
  }
}
