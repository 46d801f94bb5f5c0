/** The worker pool that verifies the shards: whichever worker takes which shard and however
    their reports interleave, every report of every shard arrives exactly once. */
module WorkerPool {

  /** A worker is waiting for a shard, has reports of its shard still to make, or has left. */
  datatype Worker<T> = Waiting | Busy(todo: seq<T>) | Gone

  /** queue: the shards not yet handed out, each given by the reports it will make, in order. */
  datatype Pool<T> = Pool(queue: seq<seq<T>>, workers: seq<Worker<T>>, log: seq<T>)

  datatype Step =
    | Take(w: nat)    // worker w receives the next shard from the channel
    | Report(w: nat)  // worker w makes the next report of its shard
    | Done(w: nat)    // worker w has finished its shard
    | Leave(w: nat)   // worker w finds the channel closed and empty

  predicate Enabled<T>(p: Pool<T>, s: Step) {
    s.w < |p.workers| &&
    match s
    case Take(w) => p.workers[w].Waiting? && p.queue != []
    case Report(w) => p.workers[w].Busy? && p.workers[w].todo != []
    case Done(w) => p.workers[w].Busy? && p.workers[w].todo == []
    case Leave(w) => p.workers[w].Waiting? && p.queue == []
  }

  function Apply<T>(p: Pool<T>, s: Step): Pool<T>
    requires Enabled(p, s)
  {
    match s
    case Take(w) => p.(queue := p.queue[1..], workers := p.workers[w := Busy(p.queue[0])])
    case Report(w) =>
      p.(workers := p.workers[w := Busy(p.workers[w].todo[1..])], log := p.log + [p.workers[w].todo[0]])
    case Done(w) => p.(workers := p.workers[w := Waiting])
    case Leave(w) => p.(workers := p.workers[w := Gone])
  }

  function Start<T>(queue: seq<seq<T>>, numWorkers: nat): Pool<T> {
    Pool(queue, seq(numWorkers, _ => Waiting), [])
  }

  predicate CanRun<T>(p: Pool<T>, steps: seq<Step>)
    decreases |steps|
  {
    steps == [] || (Enabled(p, steps[0]) && CanRun(Apply(p, steps[0]), steps[1..]))
  }

  function Run<T>(p: Pool<T>, steps: seq<Step>): Pool<T>
    requires CanRun(p, steps)
    decreases |steps|
  {
    if steps == [] then p else Run(Apply(p, steps[0]), steps[1..])
  }

  function Owes<T(==)>(w: Worker<T>, x: T): nat {
    if w.Busy? then multiset(w.todo)[x] else 0
  }

  function Outstanding<T(==)>(workers: seq<Worker<T>>, x: T): nat {
    if workers == [] then 0 else Owes(workers[0], x) + Outstanding(workers[1..], x)
  }

  /** How often the queued shards report x. */
  function Queued<T(==)>(queue: seq<seq<T>>, x: T): nat {
    if queue == [] then 0 else multiset(queue[0])[x] + Queued(queue[1..], x)
  }

  /** All reports of x: made, being made, and still in the queue. */
  function Everything<T(==)>(p: Pool<T>, x: T): nat {
    multiset(p.log)[x] + Outstanding(p.workers, x) + Queued(p.queue, x)
  }

  lemma {:induction false} OutstandingUpdate<T>(workers: seq<Worker<T>>, w: nat, v: Worker<T>, x: T)
    requires w < |workers|
    ensures Outstanding(workers[w := v], x) + Owes(workers[w], x) == Outstanding(workers, x) + Owes(v, x)
  {
    if w > 0 {
      OutstandingUpdate(workers[1..], w - 1, v, x);
      assert workers[w := v][1..] == workers[1..][w - 1 := v];
    } else {
      assert workers[w := v][1..] == workers[1..];
    }
  }

  lemma MultisetParts<T>(a: seq<T>, b: seq<T>, x: T)
    ensures multiset(a + b)[x] == multiset(a)[x] + multiset(b)[x]
  {
  }

  lemma StepKeeps<T>(p: Pool<T>, s: Step, x: T)
    requires Enabled(p, s)
    ensures Everything(Apply(p, s), x) == Everything(p, x)
  {
    var p' := Apply(p, s);
    OutstandingUpdate(p.workers, s.w, p'.workers[s.w], x);
    if s.Report? {
      var todo := p.workers[s.w].todo;
      assert todo == [todo[0]] + todo[1..];
      MultisetParts([todo[0]], todo[1..], x);
      MultisetParts(p.log, [todo[0]], x);
    }
  }

  lemma {:induction false} RunKeeps<T>(p: Pool<T>, steps: seq<Step>, x: T)
    requires CanRun(p, steps)
    ensures Everything(Run(p, steps), x) == Everything(p, x)
    decreases |steps|
  {
    if steps != [] {
      StepKeeps(p, steps[0], x);
      RunKeeps(Apply(p, steps[0]), steps[1..], x);
    }
  }

  /** Every worker has left. */
  ghost predicate Finished<T>(p: Pool<T>) {
    forall w :: 0 <= w < |p.workers| ==> p.workers[w].Gone?
  }

  lemma {:induction false} IdleOwesNothing<T>(workers: seq<Worker<T>>, x: T)
    requires forall w :: 0 <= w < |workers| ==> !workers[w].Busy?
    ensures Outstanding(workers, x) == 0
  {
    if workers != [] {
      IdleOwesNothing(workers[1..], x);
    }
  }

  /** A worker leaves only once the queue is empty, and it stays empty. */
  lemma {:induction false} GoneMeansEmpty<T>(p: Pool<T>, steps: seq<Step>)
    requires CanRun(p, steps)
    requires (exists w :: 0 <= w < |p.workers| && p.workers[w].Gone?) ==> p.queue == []
    ensures |Run(p, steps).workers| == |p.workers|
    ensures (exists w :: 0 <= w < |Run(p, steps).workers| && Run(p, steps).workers[w].Gone?) ==> Run(p, steps).queue == []
    decreases |steps|
  {
    if steps != [] {
      var s, p' := steps[0], Apply(p, steps[0]);
      if w :| 0 <= w < |p'.workers| && p'.workers[w].Gone? {
        assert w != s.w ==> p.workers[w].Gone?;
      }
      GoneMeansEmpty(p', steps[1..]);
    }
  }

  /** When all workers of a pool of at least one have left, every report has been made exactly as
      often as the shards together make it: no shard is skipped and none is verified twice. */
  lemma PoolReportsAll<T>(queue: seq<seq<T>>, numWorkers: nat, steps: seq<Step>, x: T)
    requires numWorkers >= 1
    requires CanRun(Start(queue, numWorkers), steps)
    requires Finished(Run(Start(queue, numWorkers), steps))
    ensures multiset(Run(Start(queue, numWorkers), steps).log)[x] == Queued(queue, x)
  {
    var p := Start(queue, numWorkers);
    var end := Run(p, steps);
    GoneMeansEmpty(p, steps);
    assert end.workers[0].Gone?;
    IdleOwesNothing(end.workers, x);
    IdleOwesNothing(p.workers, x);
    RunKeeps(p, steps, x);
  }

  /** While a worker is left some step is possible, and every step brings the end nearer. */
  function Work<T>(p: Pool<T>): nat {
    QueueWork(p.queue) + WorkersWork(p.workers)
  }

  function QueueWork<T>(queue: seq<seq<T>>): nat {
    if queue == [] then 0 else |queue[0]| + 2 + QueueWork(queue[1..])
  }

  function WorkerWork<T>(w: Worker<T>): nat {
    match w
    case Waiting => 1
    case Busy(todo) => |todo| + 2
    case Gone => 0
  }

  function WorkersWork<T>(workers: seq<Worker<T>>): nat {
    if workers == [] then 0 else WorkerWork(workers[0]) + WorkersWork(workers[1..])
  }

  lemma {:induction false} WorkersWorkUpdate<T>(workers: seq<Worker<T>>, w: nat, v: Worker<T>)
    requires w < |workers|
    ensures WorkersWork(workers[w := v]) + WorkerWork(workers[w]) == WorkersWork(workers) + WorkerWork(v)
  {
    if w > 0 {
      WorkersWorkUpdate(workers[1..], w - 1, v);
      assert workers[w := v][1..] == workers[1..][w - 1 := v];
    } else {
      assert workers[w := v][1..] == workers[1..];
    }
  }

  lemma PoolProgress<T>(p: Pool<T>)
    ensures Finished(p) || exists s :: Enabled(p, s)
    ensures forall s :: Enabled(p, s) ==> Work(Apply(p, s)) < Work(p)
  {
    if !Finished(p) {
      var w :| 0 <= w < |p.workers| && !p.workers[w].Gone?;
      var s := if p.workers[w].Waiting? then (if p.queue == [] then Leave(w) else Take(w))
               else if p.workers[w].todo == [] then Done(w) else Report(w);
      assert Enabled(p, s);
    }
    forall s | Enabled(p, s)
      ensures Work(Apply(p, s)) < Work(p)
    {
      WorkersWorkUpdate(p.workers, s.w, Apply(p, s).workers[s.w]);
    }
  }
}
