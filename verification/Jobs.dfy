/** The job objects and the store that guards them. */
module JobStores {
  import opened JobLifecycle
  import opened Options

  class DatabaseJob {
    const name: string
    var status: Status
    var finishedAt: Option<int>
    var mismatched: bool

    function View(): DatabaseView
      reads this
    {
      DatabaseView(name, status, finishedAt, mismatched)
    }

    constructor (name: string)
      ensures View() == NewDatabase(name)
    {
      this.name, status, finishedAt, mismatched := name, Running, None, false;
    }

    method RecordReport(mismatch: bool)
      modifies this
      ensures View() == Recorded(old(View()), mismatch)
    {
      if mismatch {
        mismatched := true;
      }
    }

    method Complete(now: int) returns (failure: bool)
      modifies this
      ensures View() == Completed(old(View()), now) && failure == old(mismatched)
    {
      finishedAt := Some(now);
      if mismatched {
        status := Failed;
        return true;
      }
      status := Succeeded;
      failure := false;
    }

    method Fail(now: int)
      modifies this
      ensures View() == FailedAt(old(View()), now)
    {
      status, finishedAt := Failed, Some(now);
    }

    method MarkStopping()
      modifies this
      ensures View() == MarkedStopping(old(View()))
    {
      if status.Running? {
        status := Stopping;
      }
    }

    method MarkStopped(now: int)
      modifies this
      ensures View() == MarkedStopped(old(View()), now)
    {
      if !status.Running? && !status.Stopping? {
        return;
      }
      status, finishedAt := Stopped, Some(now);
    }
  }

  class Job {
    const id: JobId
    const databases: seq<DatabaseJob>
    var finishedAt: Option<int>
    var cancel: bool

    ghost predicate Valid() {
      forall i, j :: 0 <= i < j < |databases| ==> databases[i] != databases[j]
    }

    function View(): JobView
      reads this, databases
    {
      JobView(seq(|databases|, i requires 0 <= i < |databases| reads this, databases => databases[i].View()), finishedAt, cancel)
    }

    constructor (id: JobId, databases: seq<DatabaseJob>)
      requires forall i, j :: 0 <= i < j < |databases| ==> databases[i] != databases[j]
      ensures Valid() && this.id == id && this.databases == databases && finishedAt.None? && cancel
    {
      this.id, this.databases, finishedAt, cancel := id, databases, None, true;
    }

    /** One pass over the databases, then the flags decide. */
    method Status() returns (s: JobLifecycle.Status)
      ensures s == StatusOf(View().databases)
    {
      var hasStopping, hasRunning, hasFailed, hasStopped, allSucceeded := false, false, false, false, true;
      var views := View().databases;
      var i := 0;
      while i < |databases|
        invariant 0 <= i <= |databases| == |views|
        invariant hasStopping == HasStatus(views[..i], Stopping) && hasRunning == HasStatus(views[..i], Running)
        invariant hasFailed == HasStatus(views[..i], Failed) && hasStopped == HasStatus(views[..i], Stopped)
        invariant allSucceeded == !(hasStopping || hasRunning || hasFailed || hasStopped)
      {
        StatusSnoc(views, i);
        match databases[i].status {
          case Stopping => hasStopping, allSucceeded := true, false;
          case Running => hasRunning, allSucceeded := true, false;
          case Failed => hasFailed, allSucceeded := true, false;
          case Stopped => hasStopped, allSucceeded := true, false;
          case Succeeded =>
        }
        i := i + 1;
      }
      assert views[..i] == views;
      if hasStopping {
        s := Stopping;
      } else if hasRunning {
        s := Running;
      } else if allSucceeded {
        s := Succeeded;
      } else if hasFailed {
        s := Failed;
      } else if hasStopped {
        s := Stopped;
      } else {
        s := Succeeded;
      }
    }

    method IsActive() returns (active: bool)
      ensures active == Active(View())
    {
      var s := Status();
      active := s.Running? || s.Stopping?;
    }

    method DatabaseNamed(name: string) returns (found: nat)
      ensures found == IndexOf(View().databases, name)
    {
      var views := View().databases;
      found := 0;
      while found < |databases| && databases[found].name != name
        invariant 0 <= found <= |databases| == |views|
        invariant IndexOf(views, name) == found + IndexOf(views[found..], name)
      {
        found := found + 1;
      }
    }

    /** Hands an event to the named database, if there is one. */
    method OnDatabase(name: string, e: DatabaseEvent) returns (failure: bool)
      requires Valid()
      modifies databases
      ensures View() == JobAfter(old(View()), name, e)
      ensures failure ==> e.Complete?
    {
      failure := false;
      var i := DatabaseNamed(name);
      if i < |databases| {
        match e {
          case Report(mismatch) => databases[i].RecordReport(mismatch);
          case Complete(now) => failure := databases[i].Complete(now);
          case Fail(now) => databases[i].Fail(now);
        }
        assert View().databases == old(View()).databases[i := DatabaseAfter(old(View()).databases[i], e)];
      } else {
        assert View().databases == old(View()).databases;
      }
    }

    method MarkStopping()
      requires Valid()
      modifies databases
      ensures View() == StopMarked(old(View()))
    {
      var i := 0;
      while i < |databases|
        invariant 0 <= i <= |databases|
        invariant forall k :: 0 <= k < i ==> databases[k].View() == MarkedStopping(old(databases[k].View()))
        invariant forall k :: i <= k < |databases| ==> databases[k].View() == old(databases[k].View())
      {
        databases[i].MarkStopping();
        i := i + 1;
      }
    }

    method Finish(now: int)
      modifies this
      ensures View() == Finished(old(View()), now)
    {
      finishedAt, cancel := Some(now), false;
    }

    method Stop(now: int)
      requires Valid()
      modifies this, databases
      ensures View() == StoppedAll(old(View()), now)
    {
      var i := 0;
      while i < |databases|
        invariant 0 <= i <= |databases| && finishedAt == old(finishedAt) && cancel == old(cancel)
        invariant forall k :: 0 <= k < i ==> databases[k].View() == MarkedStopped(old(databases[k].View()), now)
        invariant forall k :: i <= k < |databases| ==> databases[k].View() == old(databases[k].View())
      {
        databases[i].MarkStopped(now);
        i := i + 1;
      }
      Finish(now);
    }
  }

  lemma StatusSnoc(views: seq<DatabaseView>, i: nat)
    requires i < |views|
    ensures forall s :: HasStatus(views[..i + 1], s) <==> HasStatus(views[..i], s) || views[i].status == s
  {
    assert views[..i + 1] == views[..i] + [views[i]];
    forall s
      ensures HasStatus(views[..i + 1], s) <==> HasStatus(views[..i], s) || views[i].status == s
    {
      assert views[..i + 1][i] == views[i];
      assert forall k :: 0 <= k < i ==> views[..i + 1][k] == views[..i][k];
    }
  }

  ghost predicate Apart(a: Job, b: Job) {
    a != b && forall d :: d in a.databases ==> d !in b.databases
  }

  /** Every method is one step under the store's lock. */
  class JobStore {
    var jobs: map<JobId, Job>
    var order: seq<JobId>

    ghost function Databases(): (r: set<DatabaseJob>)
      reads this
      ensures forall id, d :: id in jobs && d in jobs[id].databases ==> d in r
    {
      set id, d | id in jobs && d in jobs[id].databases :: d
    }

    /** No two jobs share an object. */
    ghost predicate Valid()
      reads this
    {
      && (forall id :: id in jobs ==> jobs[id].Valid())
      && (forall a, b :: a in jobs && b in jobs && a != b ==> Apart(jobs[a], jobs[b]))
    }

    ghost function View(): Jobs
      reads this, jobs.Values, Databases()
    {
      map id | id in jobs :: jobs[id].View()
    }

    /** What one job's step leaves of the others. */
    twostate lemma OneChanged(id: JobId)
      requires id in jobs && jobs == old(jobs) && old(Valid())
      requires unchanged(jobs.Values - {jobs[id]})
      requires unchanged(set a, d | a in jobs && a != id && d in jobs[a].databases :: d)
      ensures Valid() && View() == old(View())[id := jobs[id].View()]
    {
      forall a | a in jobs && a != id
        ensures jobs[a].View() == old(jobs[a].View())
      {
        assert jobs[a] in jobs.Values;
        var now, was := jobs[a].View().databases, old(jobs[a].View()).databases;
        forall k | 0 <= k < |jobs[a].databases|
          ensures now[k] == was[k]
        {
          assert jobs[a].databases[k] in jobs[a].databases;
        }
      }
    }

    constructor ()
      ensures Valid() && View() == map[] && order == []
    {
      jobs, order := map[], [];
    }

    method Add(job: Job)
      requires Valid() && job.Valid() && job.id !in jobs
      requires forall a :: a in jobs ==> Apart(jobs[a], job) && Apart(job, jobs[a])
      modifies this
      ensures Valid() && View() == old(View())[job.id := job.View()] && order == old(order) + [job.id]
    {
      hide Job.View, Apart;
      ghost var before := jobs;
      jobs, order := jobs[job.id := job], order + [job.id];
      assert forall id :: id in before ==> jobs[id] == before[id] || id == job.id;
    }

    /** The stop request: the databases still running are marked, and the caller gets to cancel the job. */
    method Stop(id: JobId) returns (found: bool)
      requires Valid()
      modifies jobs.Values, Databases()
      ensures Valid()
      ensures found <==> id in jobs && Active(old(View())[id]) && old(View())[id].cancellable
      ensures View() == if found then old(View())[id := StopMarked(old(View())[id])] else old(View())
    {
      if id !in jobs {
        return false;
      }
      var job := jobs[id];
      var active := job.IsActive();
      if !active || !job.cancel {
        return false;
      }
      job.MarkStopping();
      OneChanged(id);
      found := true;
    }

    method RecordReport(id: JobId, name: string, mismatch: bool)
      requires Valid()
      modifies jobs.Values, Databases()
      ensures Valid()
      ensures View() == if id in jobs then old(View())[id := JobAfter(old(View())[id], name, Report(mismatch))] else old(View())
    {
      if id in jobs {
        var _ := jobs[id].OnDatabase(name, Report(mismatch));
        OneChanged(id);
      }
    }

    method CompleteDatabase(id: JobId, name: string, now: int) returns (failure: bool)
      requires Valid()
      modifies jobs.Values, Databases()
      ensures Valid()
      ensures View() == if id in jobs then old(View())[id := JobAfter(old(View())[id], name, Complete(now))] else old(View())
    {
      failure := false;
      if id in jobs {
        failure := jobs[id].OnDatabase(name, Complete(now));
        OneChanged(id);
      }
    }

    method FailDatabase(id: JobId, name: string, now: int)
      requires Valid()
      modifies jobs.Values, Databases()
      ensures Valid()
      ensures View() == if id in jobs then old(View())[id := JobAfter(old(View())[id], name, Fail(now))] else old(View())
    {
      if id in jobs {
        var _ := jobs[id].OnDatabase(name, Fail(now));
        OneChanged(id);
      }
    }

    method FinishJob(id: JobId, now: int)
      requires Valid()
      modifies jobs.Values, Databases()
      ensures Valid()
      ensures View() == if id in jobs then old(View())[id := Finished(old(View())[id], now)] else old(View())
    {
      if id in jobs {
        jobs[id].Finish(now);
        OneChanged(id);
      }
    }

    method StopJob(id: JobId, now: int)
      requires Valid()
      modifies jobs.Values, Databases()
      ensures Valid()
      ensures View() == if id in jobs then old(View())[id := StoppedAll(old(View())[id], now)] else old(View())
    {
      if id in jobs {
        jobs[id].Stop(now);
        OneChanged(id);
      }
    }

    /** The counts that the metrics endpoint shows. */
    method MetricsStatusSnapshot() returns (counts: map<Status, nat>, activeJobs: nat)
      requires Valid()
      ensures Counts(counts, View(), order) && activeJobs == CountActive(View(), order)
    {
      counts, activeJobs := map[Running := 0, Stopping := 0, Succeeded := 0, Failed := 0, Stopped := 0], 0;
      ghost var views := View();
      CountsStart(views, counts);
      assert order[..0] == [];
      hide Counts, CountActive, Job.View, Valid;
      var i := 0;
      while i < |order|
        invariant 0 <= i <= |order| && views == View()
        invariant Counts(counts, views, order[..i]) && activeJobs == CountActive(views, order[..i])
      {
        counts, activeJobs := CountJob(counts, activeJobs, i, views);
        i := i + 1;
      }
      assert order[..i] == order;
    }

    method CountJob(counts0: map<Status, nat>, active0: nat, i: nat, ghost views: Jobs) returns (counts: map<Status, nat>, activeJobs: nat)
      requires i < |order| && views == View()
      requires Counts(counts0, views, order[..i]) && active0 == CountActive(views, order[..i])
      ensures Counts(counts, views, order[..i + 1]) && activeJobs == CountActive(views, order[..i + 1])
    {
      CountsStep(views, order, i);
      hide CountStatus, CountActive, StatusOf;
      counts, activeJobs := counts0, active0;
      if order[i] in jobs {
        var job := jobs[order[i]];
        var status := job.Status();
        counts := counts[status := counts[status] + 1];
        if !Terminal(status) {
          activeJobs := activeJobs + 1;
        }
      }
    }
  }

  /** How many of the listed jobs have each status. */
  ghost predicate Counts(counts: map<Status, nat>, jobs: Jobs, order: seq<JobId>) {
    forall s: Status :: s in counts && counts[s] == CountStatus(jobs, order, s)
  }

  lemma CountsStart(jobs: Jobs, counts: map<Status, nat>)
    requires counts == map[Running := 0, Stopping := 0, Succeeded := 0, Failed := 0, Stopped := 0]
    ensures Counts(counts, jobs, []) && CountActive(jobs, []) == 0
  {
    forall s: Status
      ensures s in counts && counts[s] == 0
    {
      match s
      case Running =>
      case Stopping =>
      case Succeeded =>
      case Failed =>
      case Stopped =>
    }
  }

  lemma CountsStep(jobs: Jobs, order: seq<JobId>, i: nat)
    requires i < |order|
    ensures forall s :: CountStatus(jobs, order[..i + 1], s) == CountStatus(jobs, order[..i], s)
                                                                + if order[i] in jobs && StatusOf(jobs[order[i]].databases) == s then 1 else 0
    ensures CountActive(jobs, order[..i + 1])
      == CountActive(jobs, order[..i]) + if order[i] in jobs && Active(jobs[order[i]]) then 1 else 0
  {
    assert order[..i + 1][..i] == order[..i];
  }

  /** The goroutine of a job, one step at a time between which anything else may happen. */
  class JobRunner {
    const id: JobId
    // The names it works through, and where it is.
    var state: Runner

    constructor (id: JobId, names: seq<string>)
      ensures this.id == id && state == Runner(names, 0, false, false)
    {
      this.id, state := id, Runner(names, 0, false, false);
    }

    /** The head of the loop over the databases: the job finishes, is stopped, or the next run begins. */
    method AtLoopHead(store: JobStore, cancelled: bool, now: int)
      requires store.Valid() && id in store.jobs && ActEnabled(state, LoopHead(now))
      modifies this, store.jobs.Values, store.Databases()
      ensures store.Valid() && id in old(store.View())
      ensures var (j, r) := Acted(old(store.View())[id], old(state), cancelled, LoopHead(now));
        store.View() == old(store.View())[id := j] && state == r
    {
      assert id in store.View();
      hide JobStore.View, JobStore.Valid, JobStore.Databases, StoppedAll, Finished;
      if state.at >= |state.names| {
        store.FinishJob(id, now);
        state := state.(ended := true);
      } else if cancelled {
        store.StopJob(id, now);
        state := state.(ended := true);
      } else {
        assert store.View()[id := store.View()[id]] == store.View();
        state := state.(inRun := true);
      }
    }

    /** The run of the current database returns. */
    method AtRunEnd(store: JobStore, outcome: RunOutcome, now: int)
      requires store.Valid() && id in store.jobs && ActEnabled(state, RunEnds(outcome, now))
      modifies this, store.jobs.Values, store.Databases()
      ensures store.Valid() && id in old(store.View())
      ensures var (j, r) := Acted(old(store.View())[id], old(state), false, RunEnds(outcome, now));
        store.View() == old(store.View())[id := j] && state == r
    {
      assert id in store.View();
      hide JobStore.View, JobStore.Valid, JobStore.Databases, StoppedAll, JobAfter;
      match outcome {
        case RunCancelled =>
          store.StopJob(id, now);
          state := state.(inRun := false, ended := true);
        case RunFails =>
          store.FailDatabase(id, state.names[state.at], now);
          state := state.(inRun := false, at := state.at + 1);
        case RunSucceeds =>
          var _ := store.CompleteDatabase(id, state.names[state.at], now);
          state := state.(inRun := false, at := state.at + 1);
      }
    }
  }
}
