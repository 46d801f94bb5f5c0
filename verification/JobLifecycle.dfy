/** What happens to verify jobs: stop requests interleaved with the goroutines that run the jobs. */
module JobLifecycle {
  import opened Options

  datatype Status = Running | Stopping | Succeeded | Failed | Stopped

  type JobId = string

  /** One database of a job; mismatched says that a report of a mismatch was recorded. */
  datatype DatabaseView = DatabaseView(name: string, status: Status, finishedAt: Option<int>, mismatched: bool)

  /** cancellable: the job still has its cancel function. */
  datatype JobView = JobView(databases: seq<DatabaseView>, finishedAt: Option<int>, cancellable: bool)

  type Jobs = map<JobId, JobView>

  predicate Terminal(s: Status) {
    s.Succeeded? || s.Failed? || s.Stopped?
  }

  // ---- Databases ----

  function NewDatabase(name: string): DatabaseView {
    DatabaseView(name, Running, None, false)
  }

  function Completed(d: DatabaseView, now: int): DatabaseView {
    d.(status := if d.mismatched then Failed else Succeeded, finishedAt := Some(now))
  }

  function FailedAt(d: DatabaseView, now: int): DatabaseView {
    d.(status := Failed, finishedAt := Some(now))
  }

  function MarkedStopping(d: DatabaseView): DatabaseView {
    if d.status.Running? then d.(status := Stopping) else d
  }

  function MarkedStopped(d: DatabaseView, now: int): DatabaseView {
    if Terminal(d.status) then d else d.(status := Stopped, finishedAt := Some(now))
  }

  function Recorded(d: DatabaseView, mismatch: bool): DatabaseView {
    d.(mismatched := d.mismatched || mismatch)
  }

  // ---- Jobs ----

  function NewJob(names: seq<string>): JobView {
    JobView(seq(|names|, i requires 0 <= i < |names| => NewDatabase(names[i])), None, true)
  }

  predicate HasStatus(databases: seq<DatabaseView>, s: Status) {
    exists i :: 0 <= i < |databases| && databases[i].status == s
  }

  /** The worst news first: a stop under way, then work under way, then failures, then stops. */
  function StatusOf(databases: seq<DatabaseView>): Status {
    if HasStatus(databases, Stopping) then Stopping
    else if HasStatus(databases, Running) then Running
    else if HasStatus(databases, Failed) then Failed
    else if HasStatus(databases, Stopped) then Stopped
    else Succeeded
  }

  predicate Active(j: JobView) {
    !Terminal(StatusOf(j.databases))
  }

  /** A job is active exactly while one of its databases is. */
  lemma ActiveMeans(j: JobView)
    ensures Active(j) <==> exists i :: 0 <= i < |j.databases| && !Terminal(j.databases[i].status)
  {
    if i :| 0 <= i < |j.databases| && !Terminal(j.databases[i].status) {
      assert HasStatus(j.databases, j.databases[i].status);
    }
  }

  function Finished(j: JobView, now: int): JobView {
    j.(finishedAt := Some(now), cancellable := false)
  }

  function StopMarked(j: JobView): JobView {
    j.(databases := seq(|j.databases|, i requires 0 <= i < |j.databases| => MarkedStopping(j.databases[i])))
  }

  function StoppedAll(j: JobView, now: int): JobView {
    Finished(j.(databases := seq(|j.databases|, i requires 0 <= i < |j.databases| => MarkedStopped(j.databases[i], now))), now)
  }

  /** The first database of that name, or the number of databases. */
  function IndexOf(databases: seq<DatabaseView>, name: string): (i: nat)
    ensures i <= |databases| && (i < |databases| ==> databases[i].name == name)
    ensures forall k :: 0 <= k < i ==> databases[k].name != name
  {
    if databases == [] || databases[0].name == name then 0 else 1 + IndexOf(databases[1..], name)
  }

  datatype DatabaseEvent = Report(mismatch: bool) | Complete(now: int) | Fail(now: int)

  function DatabaseAfter(d: DatabaseView, e: DatabaseEvent): DatabaseView {
    match e
    case Report(mismatch) => Recorded(d, mismatch)
    case Complete(now) => Completed(d, now)
    case Fail(now) => FailedAt(d, now)
  }

  /** An event of the named database; without such a database nothing happens. */
  function JobAfter(j: JobView, name: string, e: DatabaseEvent): JobView {
    var i := IndexOf(j.databases, name);
    if i < |j.databases| then j.(databases := j.databases[i := DatabaseAfter(j.databases[i], e)]) else j
  }

  // ---- The service ----

  /** The goroutine of a job: it works through the names; at the head of the loop, or inside the run of name number at. */
  datatype Runner = Runner(names: seq<string>, at: nat, inRun: bool, ended: bool)

  /** Jobs with their goroutines, the jobs whose context is cancelled, and how many jobs were started. */
  datatype Service = Service(jobs: Jobs, order: seq<JobId>, runners: map<JobId, Runner>, cancelled: set<JobId>, counter: nat)

  datatype RunOutcome = RunSucceeds | RunFails | RunCancelled

  /** What can happen to one job: a stop request, the check at the head of its goroutine's loop, the end of a
      database's run, and a report of a run. */
  datatype Act =
    | StopRequest
    | LoopHead(now: int)
    | RunEnds(outcome: RunOutcome, now: int)
    | Recording(name: string, mismatch: bool)

  datatype Step = Start(names: seq<string>) | Cancel(id: JobId) | Of(id: JobId, act: Act)

  // ---- Job ids ----

  function Digits(n: nat): string {
    if n < 10 then [DigitChar(n)] else Digits(n / 10) + [DigitChar(n % 10)]
  }

  function DigitChar(d: nat): char
    requires d < 10
  {
    "0123456789"[d]
  }

  function Zeros(n: nat): string {
    seq(n, _ => '0')
  }

  /** The id of job number n: padded to six digits, and longer when need be. */
  function IdOf(n: nat): JobId {
    var digits := Digits(n);
    "job-" + Zeros(if |digits| < 6 then 6 - |digits| else 0) + digits
  }

  function ValueOf(s: string): nat {
    if s == [] then 0 else 10 * ValueOf(s[..|s| - 1]) + DigitValue(s[|s| - 1])
  }

  function DigitValue(c: char): nat {
    if '0' <= c <= '9' then c as nat - '0' as nat else 0
  }

  lemma {:induction false} DigitsValue(n: nat)
    ensures ValueOf(Digits(n)) == n
  {
    if n < 10 {
      assert [DigitChar(n)][..0] == [];
    } else {
      DigitsValue(n / 10);
      assert (Digits(n / 10) + [DigitChar(n % 10)])[..|Digits(n / 10)|] == Digits(n / 10);
    }
  }

  lemma {:induction false} PaddedValue(k: nat, s: string)
    ensures ValueOf(Zeros(k) + s) == ValueOf(s)
  {
    if s == [] {
      if k > 0 {
        PaddedValue(k - 1, []);
        assert (Zeros(k) + [])[..k - 1] == Zeros(k - 1) + [];
      } else {
        assert Zeros(0) + s == [];
      }
    } else {
      PaddedValue(k, s[..|s| - 1]);
      assert (Zeros(k) + s)[..|Zeros(k) + s| - 1] == Zeros(k) + s[..|s| - 1];
    }
  }

  /** No two jobs get the same id, however many there are. */
  lemma IdsDiffer(m: nat, n: nat)
    requires IdOf(m) == IdOf(n)
    ensures m == n
  {
    var a, b := IdOf(m)[4..], IdOf(n)[4..];
    var i, j := if |Digits(m)| < 6 then 6 - |Digits(m)| else 0, if |Digits(n)| < 6 then 6 - |Digits(n)| else 0;
    assert a == Zeros(i) + Digits(m) && b == Zeros(j) + Digits(n);
    PaddedValue(i, Digits(m));
    PaddedValue(j, Digits(n));
    DigitsValue(m);
    DigitsValue(n);
  }

  // ---- Steps ----

  predicate ActEnabled(r: Runner, act: Act) {
    match act
    case LoopHead(_) => !r.inRun && !r.ended
    case RunEnds(_, _) => r.inRun && r.at < |r.names|
    case StopRequest => true
    case Recording(_, _) => true
  }

  function Acted(j: JobView, r: Runner, cancelled: bool, act: Act): (JobView, Runner)
    requires ActEnabled(r, act)
  {
    match act
    case StopRequest => (if Active(j) && j.cancellable then StopMarked(j) else j, r)
    case LoopHead(now) =>
      if r.at >= |r.names| then (Finished(j, now), r.(ended := true))
      else if cancelled then (StoppedAll(j, now), r.(ended := true))
      else (j, r.(inRun := true))
    case RunEnds(RunCancelled, now) => (StoppedAll(j, now), r.(inRun := false, ended := true))
    case RunEnds(RunFails, now) => (JobAfter(j, r.names[r.at], Fail(now)), r.(inRun := false, at := r.at + 1))
    case RunEnds(RunSucceeds, now) => (JobAfter(j, r.names[r.at], Complete(now)), r.(inRun := false, at := r.at + 1))
    case Recording(name, mismatch) => (JobAfter(j, name, Report(mismatch)), r)
  }

  predicate Enabled(sv: Service, step: Step) {
    match step
    case Start(_) => true
    case Cancel(_) => true
    case Of(id, act) => id in sv.jobs && id in sv.runners ==> ActEnabled(sv.runners[id], act)
  }

  function After(sv: Service, step: Step): Service
    requires Enabled(sv, step)
  {
    match step
    case Start(names) =>
      var id := IdOf(sv.counter + 1);
      sv.(jobs := sv.jobs[id := NewJob(names)], order := sv.order + [id],
          runners := sv.runners[id := Runner(names, 0, false, false)], counter := sv.counter + 1)
    case Cancel(id) => sv.(cancelled := sv.cancelled + {id})
    case Of(id, act) =>
      if id in sv.jobs && id in sv.runners then
        var (j, r) := Acted(sv.jobs[id], sv.runners[id], id in sv.cancelled, act);
        sv.(jobs := sv.jobs[id := j], runners := sv.runners[id := r])
      else sv
  }

  /** The configuration was validated before: no database name twice. */
  predicate Validated(step: Step) {
    step.Start? ==> forall i, j :: 0 <= i < j < |step.names| ==> step.names[i] != step.names[j]
  }

  const NOTHING := Service(map[], [], map[], {}, 0)

  // ---- What every interleaving keeps ----

  /** Databases before the goroutine's position are terminal, the others are not; once it has ended all are. */
  ghost predicate InStep(j: JobView, r: Runner) {
    && |j.databases| == |r.names| && r.at <= |r.names| && (r.inRun ==> r.at < |r.names| && !r.ended)
    && (forall i, k :: 0 <= i < k < |r.names| ==> r.names[i] != r.names[k])
    && (forall i :: 0 <= i < |r.names| ==> j.databases[i].name == r.names[i])
    && (forall i :: 0 <= i < |r.names| ==> (Terminal(j.databases[i].status) <==> r.ended || i < r.at))
    && (forall i :: 0 <= i < |r.names| ==> (j.databases[i].finishedAt.Some? <==> Terminal(j.databases[i].status)))
    && (r.ended <==> j.finishedAt.Some?) && (r.ended <==> !j.cancellable)
  }

  /** Every job is listed once. */
  ghost predicate Listed(ids: set<JobId>, order: seq<JobId>) {
    && (forall id :: id in ids <==> id in order)
    && (forall a, b :: 0 <= a < b < |order| ==> order[a] != order[b])
  }

  ghost predicate Numbered(ids: set<JobId>, counter: nat) {
    forall id :: id in ids ==> exists n: nat :: IsNumber(id, n) && 1 <= n <= counter
  }

  ghost predicate AllInStep(jobs: Jobs, runners: map<JobId, Runner>) {
    jobs.Keys == runners.Keys && forall id :: id in jobs ==> InStep(jobs[id], runners[id])
  }

  ghost predicate Inv(sv: Service) {
    Listed(sv.jobs.Keys, sv.order) && Numbered(sv.jobs.Keys, sv.counter) && AllInStep(sv.jobs, sv.runners)
  }

  predicate IsNumber(id: JobId, n: nat) {
    id == IdOf(n)
  }

  lemma NewInStep(names: seq<string>)
    requires forall i, j :: 0 <= i < j < |names| ==> names[i] != names[j]
    ensures InStep(NewJob(names), Runner(names, 0, false, false))
  {
  }

  lemma NameFound(j: JobView, r: Runner)
    requires InStep(j, r) && r.at < |r.names|
    ensures IndexOf(j.databases, r.names[r.at]) == r.at
  {
    assert j.databases[r.at].name == r.names[r.at];
    forall i | 0 <= i < r.at
      ensures j.databases[i].name != r.names[r.at]
    {
      assert j.databases[i].name == r.names[i];
    }
  }

  lemma EndedRunKeeps(j: JobView, r: Runner, e: DatabaseEvent)
    requires InStep(j, r) && r.inRun && !e.Report?
    ensures InStep(JobAfter(j, r.names[r.at], e), r.(inRun := false, at := r.at + 1))
  {
    NameFound(j, r);
  }

  lemma StoppedKeeps(j: JobView, r: Runner, now: int)
    requires InStep(j, r) && !r.ended
    ensures InStep(StoppedAll(j, now), r.(inRun := false, ended := true))
  {
  }

  lemma ActKeeps(j: JobView, r: Runner, cancelled: bool, act: Act)
    requires InStep(j, r) && ActEnabled(r, act)
    ensures var (j', r') := Acted(j, r, cancelled, act); InStep(j', r')
  {
    match act {
      case RunEnds(RunCancelled, now) => StoppedKeeps(j, r, now);
      case RunEnds(RunFails, now) => EndedRunKeeps(j, r, Fail(now));
      case RunEnds(RunSucceeds, now) => EndedRunKeeps(j, r, Complete(now));
      case LoopHead(now) =>
        if r.at < |r.names| && cancelled {
          StoppedKeeps(j, r, now);
        }
      case StopRequest =>
      case Recording(_, _) =>
    }
  }

  /** A database that has ended keeps its status and finish time, whatever happens to its job. */
  lemma ActKeepsTerminal(j: JobView, r: Runner, cancelled: bool, act: Act, i: nat)
    requires InStep(j, r) && ActEnabled(r, act) && i < |j.databases| && Terminal(j.databases[i].status)
    ensures var j' := Acted(j, r, cancelled, act).0;
      && |j'.databases| == |j.databases| && j'.databases[i].name == j.databases[i].name
      && j'.databases[i].status == j.databases[i].status && j'.databases[i].finishedAt == j.databases[i].finishedAt
  {
    if act.RunEnds? {
      NameFound(j, r);
    }
  }

  lemma OneJobKeeps(sv: Service, id: JobId, j: JobView, r: Runner)
    requires Inv(sv) && id in sv.jobs && InStep(j, r)
    ensures Inv(sv.(jobs := sv.jobs[id := j], runners := sv.runners[id := r]))
  {
    hide InStep, Listed, Numbered, AllInStep;
    InStepWith(sv.jobs, sv.runners, id, j, r);
    assert sv.jobs[id := j].Keys == sv.jobs.Keys;
  }

  lemma FreshId(sv: Service)
    requires Inv(sv)
    ensures IdOf(sv.counter + 1) !in sv.jobs
  {
    var id := IdOf(sv.counter + 1);
    if id in sv.jobs {
      var n: nat :| IsNumber(id, n) && 1 <= n <= sv.counter;
      IdsDiffer(n, sv.counter + 1);
    }
  }

  lemma StartKeeps(sv: Service, names: seq<string>)
    requires Inv(sv) && Validated(Start(names))
    ensures Inv(After(sv, Start(names))) && IdOf(sv.counter + 1) !in sv.jobs
  {
    FreshId(sv);
    NewInStep(names);
    hide InStep, IdOf, NewJob, Listed, Numbered, AllInStep;
    var id := IdOf(sv.counter + 1);
    var j, r := NewJob(names), Runner(names, 0, false, false);
    ListedOnce(sv.jobs.Keys, sv.order, id);
    NumberedNext(sv.jobs.Keys, sv.counter);
    InStepWith(sv.jobs, sv.runners, id, j, r);
  }

  lemma InStepWith(jobs: Jobs, runners: map<JobId, Runner>, id: JobId, j: JobView, r: Runner)
    requires AllInStep(jobs, runners) && InStep(j, r)
    ensures AllInStep(jobs[id := j], runners[id := r]) && jobs[id := j].Keys == jobs.Keys + {id}
  {
    hide InStep;
  }

  lemma ListedOnce(ids: set<JobId>, order: seq<JobId>, id: JobId)
    requires Listed(ids, order) && id !in ids
    ensures Listed(ids + {id}, order + [id])
  {
  }

  lemma NumberedNext(ids: set<JobId>, counter: nat)
    requires Numbered(ids, counter)
    ensures Numbered(ids + {IdOf(counter + 1)}, counter + 1)
  {
    var id := IdOf(counter + 1);
    assert IsNumber(id, counter + 1);
    hide IsNumber, IdOf;
    forall other | other in ids + {id} && other != id
      ensures exists n: nat :: IsNumber(other, n) && 1 <= n <= counter + 1
    {
      var n: nat :| IsNumber(other, n) && 1 <= n <= counter;
    }
  }

  lemma StepKeeps(sv: Service, step: Step)
    requires Inv(sv) && Enabled(sv, step) && Validated(step)
    ensures Inv(After(sv, step))
  {
    match step {
      case Start(names) =>
        StartKeeps(sv, names);
      case Cancel(_) =>
      case Of(id, act) =>
        if id in sv.jobs {
          ActKeeps(sv.jobs[id], sv.runners[id], id in sv.cancelled, act);
          hide Acted, InStep;
          var (j, r) := Acted(sv.jobs[id], sv.runners[id], id in sv.cancelled, act);
          OneJobKeeps(sv, id, j, r);
        }
    }
  }

  // ---- Whole runs ----

  ghost predicate Possible(steps: seq<Step>) {
    steps != [] ==>
      var last := steps[|steps| - 1];
      Possible(steps[..|steps| - 1]) && Enabled(Run(steps[..|steps| - 1]), last) && Validated(last)
  }

  /** The service after a run from nothing. */
  ghost function Run(steps: seq<Step>): Service {
    if steps == [] then NOTHING
    else
      var before := Run(steps[..|steps| - 1]);
      if Enabled(before, steps[|steps| - 1]) then After(before, steps[|steps| - 1]) else before
  }

  lemma {:induction false} RunKeeps(steps: seq<Step>)
    requires Possible(steps)
    ensures Inv(Run(steps))
  {
    if steps != [] {
      RunKeeps(steps[..|steps| - 1]);
      StepKeeps(Run(steps[..|steps| - 1]), steps[|steps| - 1]);
    }
  }

  /** At any moment of any run: an active job has a cancel function and no finish time, and a job with a finish
      time has only terminal databases, each of which has a finish time itself. */
  lemma JobsAreSound(steps: seq<Step>, id: JobId)
    requires Possible(steps) && id in Run(steps).jobs
    ensures var j := Run(steps).jobs[id];
      && (Active(j) ==> j.cancellable && j.finishedAt.None?)
      && (j.finishedAt.Some? ==> !j.cancellable && forall i :: 0 <= i < |j.databases| ==> Terminal(j.databases[i].status))
      && (forall i :: 0 <= i < |j.databases| ==> (Terminal(j.databases[i].status) <==> j.databases[i].finishedAt.Some?))
  {
    RunKeeps(steps);
    var j, r := Run(steps).jobs[id], Run(steps).runners[id];
    assert InStep(j, r);
    ActiveMeans(j);
  }

  /** A step is about one job at most. */
  lemma StepLocal(sv: Service, step: Step, id: JobId)
    requires Inv(sv) && Enabled(sv, step) && id in sv.jobs
    ensures id in After(sv, step).jobs && id in After(sv, step).runners
    ensures (After(sv, step).jobs[id], After(sv, step).runners[id])
      == if step.Of? && step.id == id then Acted(sv.jobs[id], sv.runners[id], id in sv.cancelled, step.act)
         else (sv.jobs[id], sv.runners[id])
  {
    hide Acted, InStep, IdOf, NewJob;
    if step.Start? {
      FreshId(sv);
    }
  }

  /** What was final stays final: no step changes the status or finish time of a database that has ended. */
  lemma TerminalStays(sv: Service, step: Step, id: JobId, i: nat)
    requires Inv(sv) && Enabled(sv, step) && id in sv.jobs && i < |sv.jobs[id].databases|
    requires Terminal(sv.jobs[id].databases[i].status)
    ensures id in After(sv, step).jobs && |After(sv, step).jobs[id].databases| == |sv.jobs[id].databases|
    ensures var before, after := sv.jobs[id].databases[i], After(sv, step).jobs[id].databases[i];
      after.name == before.name && after.status == before.status && after.finishedAt == before.finishedAt
  {
    StepLocal(sv, step, id);
    assert InStep(sv.jobs[id], sv.runners[id]);
    hide Acted, InStep, Inv, After, Terminal;
    if step.Of? && step.id == id {
      ActKeepsTerminal(sv.jobs[id], sv.runners[id], id in sv.cancelled, step.act, i);
    }
  }

  // ---- Why database names are validated ----

  lemma NextAct(steps: seq<Step>, id: JobId, act: Act, j: JobView, r: Runner)
    requires var sv := Run(steps); id in sv.jobs && id in sv.runners && sv.jobs[id] == j && sv.runners[id] == r && id !in sv.cancelled
    requires ActEnabled(r, act)
    ensures var sv, after := Run(steps + [Of(id, act)]), Acted(j, r, false, act);
      id in sv.jobs && id in sv.runners && sv.jobs[id] == after.0 && sv.runners[id] == after.1 && id !in sv.cancelled
  {
    assert (steps + [Of(id, act)])[..|steps|] == steps;
    hide Acted;
  }

  /** A job with one database twice: the first run succeeds, the second fails. */
  function TwiceRun(id: JobId): seq<Step> {
    [Start(["a", "a"]), Of(id, LoopHead(0)), Of(id, RunEnds(RunSucceeds, 1)),
     Of(id, LoopHead(2)), Of(id, RunEnds(RunFails, 3)), Of(id, LoopHead(4))]
  }

  lemma TwiceStarted(id: JobId)
    requires id == IdOf(1)
    ensures var sv := Run(TwiceRun(id)[..1]);
      && id in sv.jobs && sv.jobs[id] == NewJob(["a", "a"]) && id in sv.runners
      && sv.runners[id] == Runner(["a", "a"], 0, false, false) && id !in sv.cancelled
  {
    assert TwiceRun(id)[..1] == [Start(["a", "a"])] && [Start(["a", "a"])][..0] == [];
    hide NewJob, IdOf;
  }

  /** If the configuration let one name in twice, both ends would go to the first database: its status would change
      after it was final, and the job would finish while the second one still counts as running. */
  lemma DuplicateNamesBreak(id: JobId)
    requires id == IdOf(1)
    ensures var early, late := Run(TwiceRun(id)[..3]), Run(TwiceRun(id));
      && id in early.jobs && early.jobs[id].databases != [] && early.jobs[id].databases[0].status == Succeeded
      && id in late.jobs && |late.jobs[id].databases| == 2 && late.jobs[id].databases[0].status == Failed
      && late.jobs[id].finishedAt == Some(4) && late.jobs[id].databases[1].status == Running
      && Active(late.jobs[id]) && !late.jobs[id].cancellable
  {
    var steps := TwiceRun(id);
    var j0, r0 := NewJob(["a", "a"]), Runner(["a", "a"], 0, false, false);
    TwiceStarted(id);
    var (j1, r1) := Acted(j0, r0, false, LoopHead(0));
    var (j2, r2) := Acted(j1, r1, false, RunEnds(RunSucceeds, 1));
    assert IndexOf(j1.databases, "a") == 0 && IndexOf(j2.databases, "a") == 0;
    var (j3, r3) := Acted(j2, r2, false, LoopHead(2));
    var (j4, r4) := Acted(j3, r3, false, RunEnds(RunFails, 3));
    var (j5, r5) := Acted(j4, r4, false, LoopHead(4));
    assert j2.databases[0].status == Succeeded && j5.databases[1].status == Running;
    ActiveMeans(j5);
    hide Run, Acted, NewJob, IdOf, IndexOf;
    assert steps[..2] == steps[..1] + [steps[1]] && steps[..3] == steps[..2] + [steps[2]] && steps[..4] == steps[..3] + [steps[3]]
      && steps[..5] == steps[..4] + [steps[4]] && steps == steps[..5] + [steps[5]];
    NextAct(steps[..1], id, LoopHead(0), j0, r0);
    NextAct(steps[..2], id, RunEnds(RunSucceeds, 1), j1, r1);
    NextAct(steps[..3], id, LoopHead(2), j2, r2);
    NextAct(steps[..4], id, RunEnds(RunFails, 3), j3, r3);
    NextAct(steps[..5], id, LoopHead(4), j4, r4);
  }

  // ---- Goroutines end ----

  /** How many steps a goroutine has left at most. */
  function Effort(r: Runner): nat
    requires r.at <= |r.names|
  {
    if r.ended then 0 else 2 * (|r.names| - r.at) + (if r.inRun then 0 else 1)
  }

  lemma ActUsesUp(j: JobView, r: Runner, cancelled: bool, act: Act)
    requires InStep(j, r) && ActEnabled(r, act)
    ensures var r' := Acted(j, r, cancelled, act).1;
      && r.at <= |r.names| && r'.at <= |r'.names|
      && (if act.LoopHead? || act.RunEnds? then Effort(r') < Effort(r) else r' == r)
    ensures Effort(r) > 0 ==> ActEnabled(r, LoopHead(0)) || ActEnabled(r, RunEnds(RunFails, 0))
  {
  }

  predicate MovesGoroutine(step: Step, id: JobId) {
    step.Of? && step.id == id && (step.act.LoopHead? || step.act.RunEnds?)
  }

  /** Every step of a job's goroutine uses up effort and no other step does: each job ends after finitely many steps. */
  lemma GoroutinesEnd(sv: Service, step: Step, id: JobId)
    requires Inv(sv) && Enabled(sv, step) && id in sv.jobs
    ensures var r, after := sv.runners[id], After(sv, step).runners;
      && id in after && r.at <= |r.names| && after[id].at <= |after[id].names|
      && (if MovesGoroutine(step, id) then Effort(after[id]) < Effort(r) else after[id] == r)
  {
    StepLocal(sv, step, id);
    assert InStep(sv.jobs[id], sv.runners[id]);
    hide Acted, Inv, After;
    if step.Of? && step.id == id {
      ActUsesUp(sv.jobs[id], sv.runners[id], id in sv.cancelled, step.act);
    }
  }

  /** Once a job's context is cancelled, the next time its goroutine looks the job ends and all its work is terminal. */
  lemma CancelledJobEnds(sv: Service, id: JobId, now: int)
    requires Inv(sv) && id in sv.jobs && Enabled(sv, Of(id, LoopHead(now))) && id in sv.cancelled
    ensures var after := After(sv, Of(id, LoopHead(now)));
      after.runners[id].ended && !Active(after.jobs[id]) && after.jobs[id].finishedAt == Some(now)
  {
    ActKeeps(sv.jobs[id], sv.runners[id], true, LoopHead(now));
    var (j, r) := Acted(sv.jobs[id], sv.runners[id], true, LoopHead(now));
    assert InStep(j, r);
    ActiveMeans(j);
  }

  // ---- The metrics snapshot ----

  /** How many of the listed jobs have a status. */
  function CountStatus(jobs: Jobs, order: seq<JobId>, s: Status): nat {
    if order == [] then 0
    else
      var id := order[|order| - 1];
      CountStatus(jobs, order[..|order| - 1], s) + if id in jobs && StatusOf(jobs[id].databases) == s then 1 else 0
  }

  function CountActive(jobs: Jobs, order: seq<JobId>): nat {
    if order == [] then 0
    else
      var id := order[|order| - 1];
      CountActive(jobs, order[..|order| - 1]) + if id in jobs && Active(jobs[id]) then 1 else 0
  }

  lemma {:induction false} CountsAddUp(jobs: Jobs, order: seq<JobId>)
    requires forall i :: 0 <= i < |order| ==> order[i] in jobs
    ensures CountStatus(jobs, order, Running) + CountStatus(jobs, order, Stopping) + CountStatus(jobs, order, Succeeded)
      + CountStatus(jobs, order, Failed) + CountStatus(jobs, order, Stopped) == |order|
    ensures CountActive(jobs, order) == CountStatus(jobs, order, Running) + CountStatus(jobs, order, Stopping)
  {
    if order != [] {
      CountsAddUp(jobs, order[..|order| - 1]);
    }
  }

  lemma {:induction false} OrderSize(jobs: Jobs, order: seq<JobId>)
    requires forall id :: id in jobs <==> id in order
    requires forall a, b :: 0 <= a < b < |order| ==> order[a] != order[b]
    ensures |order| == |jobs|
  {
    if order == [] {
      assert jobs == map[];
    } else {
      var last := order[|order| - 1];
      var rest := jobs - {last};
      assert order == order[..|order| - 1] + [last];
      OrderSize(rest, order[..|order| - 1]);
      assert jobs.Keys == rest.Keys + {last};
      assert |jobs| == |rest| + 1;
    }
  }

  /** In every run the snapshot's counts add up to the number of jobs, and active means running or stopping. */
  lemma SnapshotAddsUp(steps: seq<Step>)
    requires Possible(steps)
    ensures var sv := Run(steps);
      && CountStatus(sv.jobs, sv.order, Running) + CountStatus(sv.jobs, sv.order, Stopping) + CountStatus(sv.jobs, sv.order, Succeeded)
           + CountStatus(sv.jobs, sv.order, Failed) + CountStatus(sv.jobs, sv.order, Stopped) == |sv.jobs|
      && CountActive(sv.jobs, sv.order)
           == CountStatus(sv.jobs, sv.order, Running) + CountStatus(sv.jobs, sv.order, Stopping)
  {
    RunKeeps(steps);
    var sv := Run(steps);
    hide InStep, IsNumber;
    OrderSize(sv.jobs, sv.order);
    CountsAddUp(sv.jobs, sv.order);
  }
}
