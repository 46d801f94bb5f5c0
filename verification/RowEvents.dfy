/** The events a row comparison emits, and the listeners that receive them. */
module RowEvents {
  import opened Keys
  import opened Retries

  datatype Event =
    | RowScan
    | Missing(key: Key, row: Row)
    | Extraneous(key: Key)
    | Mismatch(key: Key, columns: seq<nat>)
    | ColumnMismatch(key: Key, columns: seq<nat>, reportLog: bool)
    | Match(key: Key)

  datatype RowStats = RowStats(
    numVerified: nat, numSuccess: nat, numConditionalSuccess: nat, numMissing: nat,
    numMismatch: nat, numExtraneous: nat, numColumnMismatch: nat)

  const NO_STATS := RowStats(0, 0, 0, 0, 0, 0, 0)

  function Bump(s: RowStats, e: Event): RowStats {
    match e
    case RowScan => s.(numVerified := s.numVerified + 1)
    case Missing(_, _) => s.(numMissing := s.numMissing + 1)
    case Extraneous(_) => s.(numExtraneous := s.numExtraneous + 1)
    case Mismatch(_, _) => s.(numMismatch := s.numMismatch + 1)
    case ColumnMismatch(_, cols, reportLog) =>
      s.(numColumnMismatch := s.numColumnMismatch + if reportLog then |cols| else 0,
         numConditionalSuccess := s.numConditionalSuccess + 1)
    case Match(_) => s.(numSuccess := s.numSuccess + 1)
  }

  /** The counters after a log of events. */
  function Tally(log: seq<Event>): RowStats {
    if log == [] then NO_STATS else Bump(Tally(log[..|log| - 1]), log[|log| - 1])
  }

  /** An event whose key live mode checks again. */
  predicate Suspect(e: Event) {
    e.Missing? || e.Extraneous? || e.Mismatch?
  }

  /** An event that the default listener hands to the reporter. */
  predicate Reported(e: Event) {
    Suspect(e) || (e.ColumnMismatch? && e.reportLog)
  }

  /** What reaches the reporter: inconsistencies, and summaries on the way and at the end of a shard. */
  datatype Report = Inconsistency(event: Event) | Progress(stats: RowStats) | Finished(stats: RowStats)

  /** What one more event adds to the reports: before every 10000th further row there is a summary. */
  function ReportsOf(before: RowStats, e: Event): seq<Report> {
    if e.RowScan? then if before.numVerified % 10000 == 0 && before.numVerified > 0 then [Progress(before)] else []
    else if Reported(e) then [Inconsistency(e)]
    else []
  }

  function Reports(log: seq<Event>): seq<Report> {
    if log == [] then []
    else Reports(log[..|log| - 1]) + ReportsOf(Tally(log[..|log| - 1]), log[|log| - 1])
  }

  /** The events that the live listener passes straight on to its base. */
  function PassedOn(log: seq<Event>): seq<Event> {
    if log == [] then []
    else PassedOn(log[..|log| - 1]) + if Suspect(log[|log| - 1]) then [] else [log[|log| - 1]]
  }

  /** The keys that live mode checks again, in the order of their events. */
  function SuspectKeys(log: seq<Event>): seq<Key> {
    if log == [] then []
    else
      var e := log[|log| - 1];
      SuspectKeys(log[..|log| - 1]) + if Suspect(e) then [e.key] else []
  }

  /** What the base listener sees of one reverification scan: suspect keys only if the
      scan will not be repeated. */
  function Forwarded(log: seq<Event>, continues: bool): seq<Event> {
    if log == [] then []
    else
      var e := log[|log| - 1];
      Forwarded(log[..|log| - 1], continues)
      + if e.RowScan? || (Suspect(e) && continues) then [] else [e]
  }

  lemma ForwardedAppend(log: seq<Event>, e: Event, continues: bool)
    ensures Forwarded(log + [e], continues)
         == Forwarded(log, continues) + if e.RowScan? || (Suspect(e) && continues) then [] else [e]
  {
    assert (log + [e])[..|log|] == log;
  }

  lemma SuspectKeysAppend(log: seq<Event>, e: Event)
    ensures SuspectKeys(log + [e]) == SuspectKeys(log) + if Suspect(e) then [e.key] else []
  {
    assert (log + [e])[..|log|] == log;
  }

  lemma LogAppend(log: seq<Event>, e: Event)
    ensures Tally(log + [e]) == Bump(Tally(log), e)
    ensures Reports(log + [e]) == Reports(log) + ReportsOf(Tally(log), e)
    ensures PassedOn(log + [e]) == PassedOn(log) + if Suspect(e) then [] else [e]
  {
    assert (log + [e])[..|log|] == log;
  }

  /** Counts and reports every event. */
  class DefaultListener {
    var stats: RowStats
    var numLiveRetry: nat
    var reports: seq<Report>
    ghost var log: seq<Event>

    ghost predicate Valid()
      reads this
    {
      stats == Tally(log) && reports == Reports(log)
    }

    constructor ()
      ensures Valid() && log == [] && numLiveRetry == 0 && fresh(this)
    {
      stats, numLiveRetry, reports, log := NO_STATS, 0, [], [];
    }

    method On(e: Event)
      requires Valid()
      modifies this
      ensures Valid() && log == old(log) + [e] && numLiveRetry == old(numLiveRetry)
    {
      if e.RowScan? {
        if stats.numVerified % 10000 == 0 && stats.numVerified > 0 {
          reports := reports + [Progress(stats)];
        }
      } else if Reported(e) {
        reports := reports + [Inconsistency(e)];
      }
      stats := Bump(stats, e);
      LogAppend(log, e);
      log := log + [e];
    }
  }

  function Flatten(batches: seq<seq<Key>>): seq<Key> {
    if batches == [] then [] else Flatten(batches[..|batches| - 1]) + batches[|batches| - 1]
  }

  /** Live mode: collects suspect keys into batches for the reverifier. */
  class LiveListener {
    const base: DefaultListener
    const maxBatchSize: int
    var pks: seq<Key>
    var pushed: seq<seq<Key>>  // the batches sent to the reverifier so far
    ghost var log: seq<Event>
    ghost var baseLog: seq<Event>
    ghost var baseRetries: nat

    /** Every suspect key is in exactly one pushed batch or waits to be, in order; no batch is empty. */
    ghost predicate Valid()
      reads this, base
    {
      && base.Valid() && base.log == baseLog + PassedOn(log)
      && Flatten(pushed) + pks == SuspectKeys(log)
      && base.numLiveRetry == baseRetries + |SuspectKeys(log)|
      && forall b :: b in pushed ==> b != []
    }

    constructor (base: DefaultListener, maxBatchSize: int)
      requires base.Valid()
      ensures Valid() && fresh(this) && this.base == base && log == [] && pushed == [] && pks == []
    {
      this.base, this.maxBatchSize := base, maxBatchSize;
      pks, pushed, log, baseLog, baseRetries := [], [], [], base.log, base.numLiveRetry;
    }

    method Flush()
      requires Valid()
      modifies `pks, `pushed
      ensures Valid() && pks == []
      ensures Flatten(pushed) == old(Flatten(pushed) + pks)
    {
      if |pks| > 0 {
        assert (pushed + [pks])[..|pushed|] == pushed;
        pushed := pushed + [pks];
        pks := [];
      }
    }

    method On(e: Event)
      requires Valid()
      modifies this, base
      ensures Valid() && log == old(log) + [e]
    {
      hide Tally, Bump, Reports, ReportsOf, PassedOn, SuspectKeys, Flatten;
      LogAppend(log, e);
      SuspectKeysAppend(log, e);
      log := log + [e];
      if Suspect(e) {
        pks := pks + [e.key];
        base.numLiveRetry := base.numLiveRetry + 1;
      } else {
        base.On(e);
      }
      if e.RowScan? {
        var intervalPassed := *;
        if intervalPassed || |pks| >= maxBatchSize {
          Flush();
        }
      }
    }
  }

  /** One batch of keys under live reverification.  Its keys are a slice: the first numPks
      elements of a backing array that earlier holders of the slice may still read. */
  class LiveRetryItem {
    const settings: Settings
    var pks: array<Key>
    var numPks: nat
    var iteration: nat
    var nextRetry: int

    ghost predicate Valid()
      reads this
    {
      numPks <= pks.Length && iteration >= 1
    }

    ghost function Contents(): seq<Key>
      requires Valid()
      reads this, pks
    {
      pks[..numPks]
    }

    constructor (settings: Settings, pks: array<Key>, now: int)
      ensures Valid() && fresh(this) && this.pks == pks && Contents() == pks[..] && iteration == 1
      ensures this.settings == settings
      ensures nextRetry == now + settings.initialBackoff
    {
      this.settings, this.pks, numPks := settings, pks, pks.Length;
      iteration, nextRetry := 1, now + settings.initialBackoff;
    }

    predicate ShouldContinue()
      reads this
    {
      Continues(settings, iteration)
    }

    /** Retry.Next */
    method NextRetry()
      requires Valid()
      modifies `iteration, `nextRetry
      ensures iteration == old(iteration) + 1
      ensures nextRetry == old(nextRetry) + Backoff(settings, old(iteration))
    {
      var nextDuration := settings.initialBackoff * Pow(settings.multiplier, iteration);
      if settings.maxBackoff > 0 && nextDuration > settings.maxBackoff {
        nextDuration := settings.maxBackoff;
      }
      iteration := iteration + 1;
      nextRetry := nextRetry + nextDuration;
    }

    /** it.PrimaryKeys[:0]: the backing array stays. */
    method Truncate()
      requires Valid()
      modifies `numPks
      ensures Valid() && Contents() == []
    {
      numPks := 0;
    }

    /** Go's append: in place while the backing array has room, else into a larger copy. */
    method Append(key: Key)
      requires Valid()
      modifies this, pks
      ensures Valid() && Contents() == old(Contents()) + [key]
      ensures pks == old(pks) || fresh(pks)
      ensures iteration == old(iteration) && nextRetry == old(nextRetry)
    {
      if numPks == pks.Length {
        var grown := new Key[2 * numPks + 1](_ => []);
        forall i | 0 <= i < numPks {
          grown[i] := pks[i];
        }
        pks := grown;
      }
      pks[numPks] := key;
      numPks := numPks + 1;
    }
  }

  /** Receives the events of one reverification scan. */
  class ReverifyListener {
    const item: LiveRetryItem
    const base: DefaultListener
    ghost const baseLog: seq<Event>
    ghost const iteration: nat
    ghost const nextRetry: int
    ghost var log: seq<Event>

    /** While the scan may be repeated its suspect keys become the item's keys, else they are reported. */
    ghost predicate Valid()
      reads this, item, item.pks, base
    {
      && item.Valid() && base.Valid()
      && item.iteration == iteration && item.nextRetry == nextRetry
      && item.Contents() == (if item.ShouldContinue() then SuspectKeys(log) else [])
      && base.log == baseLog + Forwarded(log, item.ShouldContinue())
    }

    constructor (item: LiveRetryItem, base: DefaultListener)
      requires item.Valid() && item.Contents() == [] && base.Valid()
      ensures Valid() && fresh(this) && log == [] && baseLog == base.log
      ensures this.item == item && this.base == base
      ensures iteration == item.iteration && nextRetry == item.nextRetry
    {
      this.item, this.base, baseLog, log := item, base, base.log, [];
      iteration, nextRetry := item.iteration, item.nextRetry;
    }

    method OnRowScan()
      requires Valid()
      modifies this
      ensures Valid() && log == old(log) + [RowScan]
    {
      SuspectKeysAppend(log, RowScan);
      ForwardedAppend(log, RowScan, item.ShouldContinue());
      log := log + [RowScan];
    }

    method Carry(e: Event)
      requires Valid() && Suspect(e) && item.ShouldContinue()
      modifies this, item, item.pks
      ensures Valid() && log == old(log) + [e]
      ensures item.pks == old(item.pks) || fresh(item.pks)
    {
      hide Tally, Reports, SuspectKeys, Forwarded;
      SuspectKeysAppend(log, e);
      ForwardedAppend(log, e, true);
      log := log + [e];
      item.Append(e.key);
    }

    method Forward(e: Event)
      requires Valid() && !e.RowScan? && !(Suspect(e) && item.ShouldContinue())
      modifies this, base
      ensures Valid() && log == old(log) + [e]
    {
      hide Tally, Bump, Reports, SuspectKeys, Forwarded;
      SuspectKeysAppend(log, e);
      ForwardedAppend(log, e, item.ShouldContinue());
      log := log + [e];
      base.On(e);
    }

    method On(e: Event)
      requires Valid() && !e.RowScan?
      modifies this, item, item.pks, base
      ensures Valid() && log == old(log) + [e]
      ensures item.pks == old(item.pks) || fresh(item.pks)
    {
      if Suspect(e) && item.ShouldContinue() {
        Carry(e);
      } else {
        Forward(e);
      }
    }
  }

  /** The three listeners behind one interface. */
  datatype RowEventListener =
    | Default(d: DefaultListener)
    | Live(l: LiveListener)
    | Reverify(r: ReverifyListener)
  {
    ghost function Repr(): set<object>
      reads if this.Reverify? then {this.r.item} else {}
    {
      match this
      case Default(d) => {d}
      case Live(l) => {l, l.base}
      case Reverify(r) => {r, r.item, r.item.pks, r.base}
    }

    ghost predicate Valid()
      reads Repr(), if this.Reverify? then {this.r.item} else {}
    {
      match this
      case Default(d) => d.Valid()
      case Live(l) => l.Valid()
      case Reverify(r) => r.Valid()
    }

    ghost function Log(): seq<Event>
      reads Repr(), if this.Reverify? then {this.r.item} else {}
    {
      match this
      case Default(d) => d.log
      case Live(l) => l.log
      case Reverify(r) => r.log
    }

    /** The objects a row-scan event changes: never a backing array. */
    ghost function ScanRepr(): set<object> {
      match this
      case Default(d) => {d}
      case Live(l) => {l, l.base}
      case Reverify(r) => {r}
    }

    method OnRowScan()
      requires Valid()
      modifies ScanRepr()
      ensures Valid() && Repr() == old(Repr()) && Log() == old(Log()) + [RowScan]
    {
      match this {
        case Default(d) => d.On(RowScan);
        case Live(l) => l.On(RowScan);
        case Reverify(r) => r.OnRowScan();
      }
    }

    method On(e: Event)
      requires Valid() && !e.RowScan?
      modifies Repr()
      ensures Valid() && fresh(Repr() - old(Repr())) && Log() == old(Log()) + [e]
    {
      match this {
        case Default(d) => d.On(e);
        case Live(l) => l.On(e);
        case Reverify(r) => r.On(e);
      }
    }
  }
}
