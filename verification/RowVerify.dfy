/** The merge join of two row streams, emitting one event per finding. */
module RowVerify {
  import opened Keys
  import opened ScanIterators
  import opened PointLookups
  import opened RowEvents
  import opened Seqs

  datatype ColumnOutcome = Equal | Differs | Incomparable

  /** How two values of column i compare; the comparison of two types may fail. */
  type Comparator = (nat, Datum, Datum) -> ColumnOutcome

  datatype TableShape = TableShape(width: nat, nPk: nat, compare: Comparator)

  datatype VerifyResult = NoError | TruthError | TargetError

  /** The two row iterators behind one interface. */
  datatype Iterator = Scan(scan: ScanIterator) | Lookup(lookup: PointLookupIterator) {

    ghost function Repr(): set<object> {
      match this
      case Scan(s) => {s}
      case Lookup(l) => {l}
    }

    ghost predicate Valid()
      reads Repr()
    {
      match this
      case Scan(s) => s.Valid()
      case Lookup(l) => l.Valid()
    }

    /** What else the remaining rows depend on: the shared key array of a lookup not yet run. */
    ghost function Deps(): set<object>
      reads Repr()
    {
      if this.Scan? || lookup.ran then {} else {lookup.pks}
    }

    ghost function Rest(): Supply
      requires Valid()
      reads Repr(), Deps()
    {
      match this
      case Scan(s) => s.Rest()
      case Lookup(l) => l.Rest()
    }

    method HasNext() returns (has: bool)
      requires Valid()
      modifies Repr()
      ensures Valid() && Deps() == {} && Rest() == old(Rest())
      ensures has <==> Rest().rows != []
      ensures Failed() == (!has && Rest().fails)
    {
      match this {
        case Scan(s) => has := s.HasNext();
        case Lookup(l) => has := l.HasNext();
      }
    }

    method Peek() returns (row: Row)
      requires Valid()
      modifies Repr()
      ensures Valid() && Deps() == {} && Rest() == old(Rest())
      ensures Rest().rows != [] ==> row == Rest().rows[0] && !Failed()
    {
      match this {
        case Scan(s) => row := s.Peek();
        case Lookup(l) => row := l.Peek();
      }
    }

    method Next() returns (row: Row)
      requires Valid()
      modifies Repr()
      ensures Valid() && Deps() == {}
      ensures old(Rest().rows) != [] ==> row == old(Rest().rows)[0] && !Failed()
      ensures old(Rest().rows) != [] ==> Rest() == Supply(old(Rest().rows)[1..], old(Rest().fails))
    {
      match this {
        case Scan(s) => row := s.Next();
        case Lookup(l) => row := l.Next();
      }
    }

    /** Error() != nil.  A stream's error is noticed when it is asked for a row it no longer has. */
    predicate Failed()
      reads Repr()
    {
      match this
      case Scan(s) => s.err
      case Lookup(l) => l.err
    }
  }

  // ---- What verifyRows computes, as functions of the two streams ----

  /** The columns from n up to before i, in order, at which two rows compare with a given outcome. */
  function Columns(t: Row, g: Row, n: nat, i: nat, compare: Comparator, outcome: ColumnOutcome): seq<nat>
    requires i <= |g| <= |t|
  {
    if i <= n then []
    else
      Columns(t, g, n, i - 1, compare, outcome)
      + if compare(i - 1, t[i - 1], g[i - 1]) == outcome then [i - 1] else []
  }

  /** The event for two rows of the same key, given the columns found incomparable before. */
  function RowEvent(t: Row, g: Row, shape: TableShape, seen: set<nat>): Event
    requires shape.nPk <= |g| <= |t|
  {
    var differing := Columns(t, g, shape.nPk, |g|, shape.compare, Differs);
    var incomparable := Columns(t, g, shape.nPk, |g|, shape.compare, Incomparable);
    if differing != [] then Mismatch(g[..shape.nPk], differing)
    else if incomparable != [] then ColumnMismatch(g[..shape.nPk], incomparable, ToSet(incomparable) !! seen)
    else Match(g[..shape.nPk])
  }

  function SeenAfter(t: Row, g: Row, shape: TableShape, seen: set<nat>): set<nat>
    requires shape.nPk <= |g| <= |t|
  {
    seen + ToSet(Columns(t, g, shape.nPk, |g|, shape.compare, Incomparable))
  }

  predicate Fits(rows: seq<Row>, shape: TableShape) {
    shape.nPk <= shape.width && forall i :: 0 <= i < |rows| ==> |rows[i]| == shape.width
  }

  /** How one row of truth is settled against the target stream. */
  datatype Settled = Settled(events: seq<Event>, target: Supply, seen: set<nat>, exhausted: bool)

  function Settle(t: Row, target: Supply, shape: TableShape, seen: set<nat>): Settled
    requires |t| == shape.width && Fits(target.rows, shape)
    decreases |target.rows|
  {
    var n := shape.nPk;
    if target.rows == [] then
      Settled(if target.fails then [] else [Missing(t[..n], t)], target, seen, true)
    else
      var g, later := target.rows[0], Supply(target.rows[1..], target.fails);
      var c := KeyCompare(t[..n], g[..n]);
      if c > 0 then
        var s := Settle(t, later, shape, seen);
        s.(events := [Extraneous(g[..n])] + s.events)
      else if c == 0 then
        Settled([RowEvent(t, g, shape, seen)], later, SeenAfter(t, g, shape, seen), false)
      else
        Settled([Missing(t[..n], t)], target, seen, false)
  }

  predicate PassesOver(t: Row, target: Supply, shape: TableShape)
    requires |t| == shape.width && Fits(target.rows, shape)
  {
    target.rows != [] && KeyCompare(t[..shape.nPk], target.rows[0][..shape.nPk]) > 0
  }

  lemma {:induction false} SettleShrinks(t: Row, target: Supply, shape: TableShape, seen: set<nat>)
    requires |t| == shape.width && Fits(target.rows, shape)
    ensures var s := Settle(t, target, shape, seen);
            && |s.target.rows| <= |target.rows|
            && s.target == Supply(target.rows[|target.rows| - |s.target.rows|..], target.fails)
            && Fits(s.target.rows, shape)
            && (s.exhausted ==> s.target.rows == []) && (target.rows == [] ==> s.exhausted)
    decreases |target.rows|
  {
    if target.rows != [] {
      var later := Supply(target.rows[1..], target.fails);
      if KeyCompare(t[..shape.nPk], target.rows[0][..shape.nPk]) > 0 {
        SettleShrinks(t, later, shape, seen);
      }
    }
  }

  function Extras(rows: seq<Row>, n: nat): seq<Event>
    requires forall i :: 0 <= i < |rows| ==> n <= |rows[i]|
  {
    if rows == [] then [] else [Extraneous(rows[0][..n])] + Extras(rows[1..], n)
  }

  datatype Merged = Merged(events: seq<Event>, result: VerifyResult)

  /** The whole comparison.  noticed says that the end of the target stream was already met. */
  function Merge(truth: Supply, target: Supply, shape: TableShape, seen: set<nat>, noticed: bool): Merged
    requires Fits(truth.rows, shape) && Fits(target.rows, shape)
    decreases |truth.rows|
  {
    if truth.rows == [] then
      if truth.fails then Merged([], TruthError)
      else if noticed && target.fails then Merged([], TargetError)
      else Merged(Extras(target.rows, shape.nPk), NoError)
    else
      SettleShrinks(truth.rows[0], target, shape, seen);
      var s := Settle(truth.rows[0], target, shape, seen);
      var later := Merge(Supply(truth.rows[1..], truth.fails), s.target, shape, s.seen, noticed || s.exhausted);
      later.(events := [RowScan] + s.events + later.events)
  }

  // ---- The loops themselves ----

  /** Iterators, listeners and key arrays are objects of different classes. */
  lemma Apart(it: Iterator, evl: RowEventListener)
    ensures it.Repr() !! evl.Repr() && it.Repr() !! evl.ScanRepr()
    ensures it.Deps() !! evl.ScanRepr()
  {
  }

  lemma DepsApart(it: Iterator, other: Iterator)
    ensures it.Deps() !! other.Repr()
  {
  }

  method ComparePrimaryKeys(truthVals: Row, targetVals: Row, nPk: nat) returns (compareVal: int)
    requires nPk <= |truthVals| && nPk <= |targetVals|
    ensures compareVal == KeyCompare(truthVals[..nPk], targetVals[..nPk])
    ensures -1 <= compareVal <= 1
  {
    compareVal := 0;
    var i := 0;
    while i < nPk
      invariant 0 <= i <= nPk && compareVal == 0
      invariant KeyCompare(truthVals[..nPk], targetVals[..nPk]) == KeyCompare(truthVals[i..nPk], targetVals[i..nPk])
    {
      compareVal := CompareDatum(truthVals[i], targetVals[i]);
      assert truthVals[i..nPk][1..] == truthVals[i + 1..nPk] && targetVals[i..nPk][1..] == targetVals[i + 1..nPk];
      if compareVal != 0 {
        CompareSigns(truthVals[..nPk], targetVals[..nPk]);
        return;
      }
      i := i + 1;
    }
    CompareSigns(truthVals[..nPk], targetVals[..nPk]);
  }

  lemma ToSetAppend(s: seq<nat>, x: nat)
    ensures ToSet(s + [x]) == ToSet(s) + {x}
  {
  }

  method CompareColumns(truthVals: Row, targetVals: Row, shape: TableShape, colIdxToSeen: set<nat>)
    returns (mismatches: seq<nat>, mismatchColumns: seq<nat>, reportLog: bool, seen: set<nat>)
    requires shape.nPk <= |targetVals| <= |truthVals|
    ensures mismatches == Columns(truthVals, targetVals, shape.nPk, |targetVals|, shape.compare, Differs)
    ensures mismatchColumns == Columns(truthVals, targetVals, shape.nPk, |targetVals|, shape.compare, Incomparable)
    ensures reportLog == (ToSet(mismatchColumns) !! colIdxToSeen)
    ensures seen == colIdxToSeen + ToSet(mismatchColumns)
  {
    reportLog, mismatches, mismatchColumns, seen := true, [], [], colIdxToSeen;
    var valIdx := shape.nPk;
    while valIdx < |targetVals|
      invariant shape.nPk <= valIdx <= |targetVals|
      invariant mismatches == Columns(truthVals, targetVals, shape.nPk, valIdx, shape.compare, Differs)
      invariant mismatchColumns == Columns(truthVals, targetVals, shape.nPk, valIdx, shape.compare, Incomparable)
      invariant forall c :: c in ToSet(mismatchColumns) ==> c < valIdx
      invariant seen == colIdxToSeen + ToSet(mismatchColumns)
      invariant reportLog == (ToSet(mismatchColumns) !! colIdxToSeen)
    {
      match shape.compare(valIdx, truthVals[valIdx], targetVals[valIdx]) {
        case Incomparable =>
          if valIdx in seen {
            reportLog := false;
          }
          ToSetAppend(mismatchColumns, valIdx);
          mismatchColumns := mismatchColumns + [valIdx];
          seen := seen + {valIdx};
        case Differs =>
          mismatches := mismatches + [valIdx];
        case Equal =>
      }
      valIdx := valIdx + 1;
    }
  }

  method CompareValues(truthVals: Row, targetVals: Row, shape: TableShape, colIdxToSeen: set<nat>)
    returns (e: Event, seen: set<nat>)
    requires shape.nPk <= |targetVals| <= |truthVals|
    ensures e == RowEvent(truthVals, targetVals, shape, colIdxToSeen) && !e.RowScan?
    ensures seen == SeenAfter(truthVals, targetVals, shape, colIdxToSeen)
  {
    var mismatches, mismatchColumns, reportLog;
    mismatches, mismatchColumns, reportLog, seen := CompareColumns(truthVals, targetVals, shape, colIdxToSeen);
    if |mismatches| > 0 {
      e := Mismatch(targetVals[..shape.nPk], mismatches);
    } else if |mismatchColumns| > 0 {
      e := ColumnMismatch(targetVals[..shape.nPk], mismatchColumns, reportLog);
    } else {
      e := Match(targetVals[..shape.nPk]);
    }
  }

  /** Looks at the next target row and takes it unless its key lies after the row of truth.
      Without a next row the answer is nil and compareVal has no meaning. */
  method NextTarget(truthVals: Row, it: Iterator, shape: TableShape)
    returns (has: bool, compareVal: int, targetVals: Row)
    requires it.Valid() && (it.Failed() ==> it.Rest().rows == [])
    requires |truthVals| == shape.width && Fits(it.Rest().rows, shape)
    modifies it.Repr()
    ensures it.Valid() && it.Deps() == {}
    ensures it.Failed() == (!has && it.Rest().fails)
    ensures has <==> old(it.Rest()).rows != []
    ensures has ==> targetVals == old(it.Rest()).rows[0] && -1 <= compareVal <= 1
    ensures has ==> compareVal == KeyCompare(truthVals[..shape.nPk], targetVals[..shape.nPk])
    ensures it.Rest() == if has && compareVal >= 0 then Supply(old(it.Rest()).rows[1..], old(it.Rest()).fails)
                         else old(it.Rest())
  {
    hide RowEventListener.Valid, RowEventListener.Log, Iterator.Valid, Iterator.Rest, Iterator.Failed, Iterator.Deps;
    compareVal, targetVals := 0, [];
    has := it.HasNext();
    if has {
      targetVals := it.Peek();
      compareVal := ComparePrimaryKeys(truthVals, targetVals, shape.nPk);
      if compareVal >= 0 {
        targetVals := it.Next();
      }
    }
  }

  /** One turn of the inner loop: either settles the row of truth or passes over one extraneous target row. */
  method SettleStep(truthVals: Row, it: Iterator, shape: TableShape, evl: RowEventListener, colIdxToSeen: set<nat>)
    returns (done: bool, seen: set<nat>, ghost exhausted: bool)
    requires it.Valid() && evl.Valid() && (it.Failed() ==> it.Rest().rows == [])
    requires |truthVals| == shape.width && Fits(it.Rest().rows, shape)
    modifies it.Repr(), evl.Repr()
    ensures it.Valid() && evl.Valid() && it.Deps() == {} && fresh(evl.Repr() - old(evl.Repr()))
    ensures old(PassesOver(truthVals, it.Rest(), shape)) == !done
    ensures !done ==> it.Rest() == Supply(old(it.Rest()).rows[1..], old(it.Rest()).fails)
    ensures !done ==> evl.Log() == old(evl.Log()) + [Extraneous(old(it.Rest()).rows[0][..shape.nPk])]
    ensures !done ==> seen == colIdxToSeen && !exhausted
    ensures done ==> var s := Settle(truthVals, old(it.Rest()), shape, colIdxToSeen);
      evl.Log() == old(evl.Log()) + s.events && it.Rest() == s.target && seen == s.seen && exhausted == s.exhausted
    ensures it.Failed() == (exhausted && it.Rest().fails)
  {
    hide RowEventListener.Valid, RowEventListener.Log, Iterator.Valid, Iterator.Rest, Iterator.Failed, Iterator.Deps;
    hide RowEvent, SeenAfter;
    Apart(it, evl);
    seen, exhausted, done := colIdxToSeen, false, true;
    var has, compareVal, targetVals := NextTarget(truthVals, it, shape);
    if !has {
      exhausted := true;
      if !it.Failed() {
        evl.On(Missing(truthVals[..shape.nPk], truthVals));
      }
      return;
    }
    var e;
    match compareVal {
      case 1 =>
        e, done := Extraneous(targetVals[..shape.nPk]), false;
      case 0 =>
        e, seen := CompareValues(truthVals, targetVals, shape, seen);
      case _ =>
        e := Missing(truthVals[..shape.nPk], truthVals);
    }
    evl.On(e);
  }

  /** The inner loop: advances the target until the given row of truth is settled. */
  method SettleRow(truthVals: Row, it: Iterator, shape: TableShape, evl: RowEventListener, colIdxToSeen: set<nat>)
    returns (seen: set<nat>, ghost exhausted: bool)
    requires it.Valid() && evl.Valid() && (it.Failed() ==> it.Rest().rows == [])
    requires |truthVals| == shape.width && Fits(it.Rest().rows, shape)
    modifies it.Repr(), evl.Repr()
    ensures it.Valid() && evl.Valid() && it.Deps() == {} && fresh(evl.Repr() - old(evl.Repr()))
    ensures var s := Settle(truthVals, old(it.Rest()), shape, colIdxToSeen);
      evl.Log() == old(evl.Log()) + s.events && it.Rest() == s.target && seen == s.seen && exhausted == s.exhausted
    ensures it.Failed() == (exhausted && it.Rest().fails)
  {
    hide RowEventListener.Valid, RowEventListener.Log, Iterator.Valid, Iterator.Rest, Iterator.Failed, Iterator.Deps;
    ghost var whole, log := Settle(truthVals, it.Rest(), shape, colIdxToSeen), evl.Log();
    ghost var events: seq<Event> := [];
    var done := false;
    exhausted := false;
    seen := colIdxToSeen;
    while !done
      invariant it.Valid() && evl.Valid() && (done ==> it.Deps() == {})
      invariant fresh(evl.Repr() - old(evl.Repr()))
      invariant if done then it.Failed() == (exhausted && it.Rest().fails) else it.Failed() ==> it.Rest().rows == []
      invariant evl.Log() == log + events
      invariant !done ==> !exhausted && seen == colIdxToSeen && Fits(it.Rest().rows, shape)
      invariant !done ==>
        var s := Settle(truthVals, it.Rest(), shape, colIdxToSeen); whole == s.(events := events + s.events)
      invariant done ==> whole == Settled(events, it.Rest(), seen, exhausted)
      decreases !done, |it.Rest().rows|
    {
      Apart(it, evl);
      ghost var rest := it.Rest();
      ghost var s := Settle(truthVals, rest, shape, colIdxToSeen);
      done, seen, exhausted := SettleStep(truthVals, it, shape, evl, colIdxToSeen);
      if done {
        Associate(log, events, s.events);
        events := events + s.events;
      } else {
        ghost var e := Extraneous(rest.rows[0][..shape.nPk]);
        ghost var later := Settle(truthVals, it.Rest(), shape, colIdxToSeen);
        assert s == later.(events := [e] + later.events);
        Associate(events, [e], later.events);
        Associate(log, events, [e]);
        events := events + [e];
      }
    }
  }

  /** HasNext leaves a listener as it is. */
  method HasNextBeside(it: Iterator, evl: RowEventListener) returns (has: bool)
    requires it.Valid() && evl.Valid()
    modifies it.Repr()
    ensures it.Valid() && it.Deps() == {} && it.Rest() == old(it.Rest())
    ensures has <==> it.Rest().rows != []
    ensures it.Failed() == (!has && it.Rest().fails)
    ensures evl.Valid() && evl.Repr() == old(evl.Repr()) && evl.Log() == old(evl.Log())
  {
    Apart(it, evl);
    has := it.HasNext();
  }

  /** The drain loop's body. */
  method TakeExtraneous(it: Iterator, nPk: nat, evl: RowEventListener)
    requires it.Valid() && evl.Valid()
    requires it.Rest().rows != [] && nPk <= |it.Rest().rows[0]|
    modifies it.Repr(), evl.Repr()
    ensures it.Valid() && it.Deps() == {} && evl.Valid() && fresh(evl.Repr() - old(evl.Repr()))
    ensures it.Rest() == Supply(old(it.Rest()).rows[1..], old(it.Rest()).fails)
    ensures evl.Log() == old(evl.Log()) + [Extraneous(old(it.Rest()).rows[0][..nPk])]
  {
    hide RowEventListener.Valid, RowEventListener.Log, Iterator.Valid, Iterator.Rest;
    Apart(it, evl);
    var targetVals := it.Next();
    Apart(it, evl);
    evl.On(Extraneous(targetVals[..nPk]));
  }

  /** Every row the target still has is extraneous. */
  method DrainTarget(it: Iterator, nPk: nat, evl: RowEventListener)
    requires it.Valid() && evl.Valid()
    requires forall i :: 0 <= i < |it.Rest().rows| ==> nPk <= |it.Rest().rows[i]|
    modifies it.Repr(), evl.Repr()
    ensures evl.Valid() && fresh(evl.Repr() - old(evl.Repr()))
    ensures evl.Log() == old(evl.Log()) + Extras(old(it.Rest()).rows, nPk)
  {
    hide RowEventListener.Valid, RowEventListener.Log, Iterator.Valid, Iterator.Rest, Iterator.Failed;
    ghost var whole, log := Extras(it.Rest().rows, nPk), evl.Log();
    ghost var events: seq<Event> := [];
    var has := HasNextBeside(it, evl);
    while has
      invariant it.Valid() && evl.Valid() && it.Deps() == {}
      invariant fresh(evl.Repr() - old(evl.Repr()))
      invariant has <==> it.Rest().rows != []
      invariant forall i :: 0 <= i < |it.Rest().rows| ==> nPk <= |it.Rest().rows[i]|
      invariant evl.Log() == log + events && whole == events + Extras(it.Rest().rows, nPk)
      decreases |it.Rest().rows|
    {
      ghost var e := Extraneous(it.Rest().rows[0][..nPk]);
      TakeExtraneous(it, nPk, evl);
      Associate(events, [e], Extras(it.Rest().rows, nPk));
      Associate(log, events, [e]);
      events := events + [e];
      has := HasNextBeside(it, evl);
    }
  }

  /** The outer loop's body: takes one row of truth and settles it. */
  method VerifyNextRow(truth: Iterator, target: Iterator, shape: TableShape, evl: RowEventListener, colIdxToSeen: set<nat>)
    returns (seen: set<nat>, ghost exhausted: bool)
    requires truth.Valid() && target.Valid() && evl.Valid() && truth.Deps() == {}
    requires truth.Repr() !! target.Repr()
    requires target.Failed() ==> target.Rest().rows == []
    requires Fits(truth.Rest().rows, shape) && Fits(target.Rest().rows, shape) && truth.Rest().rows != []
    modifies truth.Repr(), target.Repr(), evl.Repr()
    ensures truth.Valid() && target.Valid() && evl.Valid() && truth.Deps() == {} && target.Deps() == {}
    ensures fresh(evl.Repr() - old(evl.Repr()))
    ensures !truth.Failed() && target.Failed() == (exhausted && target.Rest().fails)
    ensures truth.Rest() == Supply(old(truth.Rest()).rows[1..], old(truth.Rest()).fails)
    ensures var s := Settle(old(truth.Rest()).rows[0], old(target.Rest()), shape, colIdxToSeen);
      evl.Log() == old(evl.Log()) + ([RowScan] + s.events)
      && target.Rest() == s.target && seen == s.seen && exhausted == s.exhausted
  {
    hide RowEventListener.Valid, RowEventListener.Log, Iterator.Valid, Iterator.Rest, Iterator.Failed, Settle;
    ghost var s, log := Settle(truth.Rest().rows[0], target.Rest(), shape, colIdxToSeen), evl.Log();
    Apart(truth, evl);
    Apart(target, evl);
    DepsApart(target, truth);
    evl.OnRowScan();
    var truthVals := truth.Next();
    seen, exhausted := SettleRow(truthVals, target, shape, evl, colIdxToSeen);
    Associate(log, [RowScan], s.events);
  }

  ghost function Continued(events: seq<Event>, m: Merged): Merged {
    m.(events := events + m.events)
  }

  lemma ContinueStep(events: seq<Event>, truth: Supply, target: Supply, shape: TableShape, seen: set<nat>, noticed: bool, s: Settled)
    requires Fits(truth.rows, shape) && Fits(target.rows, shape) && truth.rows != []
    requires s == Settle(truth.rows[0], target, shape, seen)
    ensures Fits(s.target.rows, shape)
    ensures Continued(events, Merge(truth, target, shape, seen, noticed))
         == Continued(events + ([RowScan] + s.events),
              Merge(Supply(truth.rows[1..], truth.fails), s.target, shape, s.seen, noticed || s.exhausted))
    ensures (s.exhausted ==> s.target.rows == []) && (target.rows == [] ==> s.exhausted && s.target.rows == [])
  {
    SettleShrinks(truth.rows[0], target, shape, seen);
    var later := Merge(Supply(truth.rows[1..], truth.fails), s.target, shape, s.seen, noticed || s.exhausted);
    Associate(events, [RowScan] + s.events, later.events);
  }

  /** The outer loop: settles every row of truth. */
  method MergeRows(truth: Iterator, target: Iterator, shape: TableShape, evl: RowEventListener)
    returns (ghost events: seq<Event>, ghost seen: set<nat>, ghost noticed: bool)
    requires truth.Valid() && target.Valid() && evl.Valid()
    requires truth.Repr() !! target.Repr()
    requires !truth.Failed() && !target.Failed()
    requires Fits(truth.Rest().rows, shape) && Fits(target.Rest().rows, shape)
    modifies truth.Repr(), target.Repr(), evl.Repr()
    ensures truth.Valid() && target.Valid() && evl.Valid() && fresh(evl.Repr() - old(evl.Repr()))
    ensures truth.Rest().rows == [] && Fits(target.Rest().rows, shape)
    ensures truth.Failed() == truth.Rest().fails && target.Failed() == (noticed && target.Rest().fails)
    ensures evl.Log() == old(evl.Log()) + events
    ensures Merge(old(truth.Rest()), old(target.Rest()), shape, {}, false)
         == Continued(events, Merge(truth.Rest(), target.Rest(), shape, seen, noticed))
  {
    hide RowEventListener.Valid, RowEventListener.Log, Iterator.Valid, Iterator.Rest, Iterator.Failed, Settle, Merge;
    ghost var whole, log := Merge(truth.Rest(), target.Rest(), shape, {}, false), evl.Log();
    events, noticed := [], false;
    var colIdxToSeen: set<nat> := {};
    DepsApart(target, truth);
    var has := HasNextBeside(truth, evl);
    while has
      invariant truth.Valid() && target.Valid() && evl.Valid() && truth.Deps() == {}
      invariant fresh(evl.Repr() - old(evl.Repr()))
      invariant has <==> truth.Rest().rows != []
      invariant truth.Failed() == (!has && truth.Rest().fails)
      invariant target.Failed() == (noticed && target.Rest().fails)
      invariant noticed ==> target.Rest().rows == []
      invariant Fits(truth.Rest().rows, shape) && Fits(target.Rest().rows, shape)
      invariant evl.Log() == log + events
      invariant whole == Continued(events, Merge(truth.Rest(), target.Rest(), shape, colIdxToSeen, noticed))
      decreases |truth.Rest().rows|
    {
      ghost var s := Settle(truth.Rest().rows[0], target.Rest(), shape, colIdxToSeen);
      ContinueStep(events, truth.Rest(), target.Rest(), shape, colIdxToSeen, noticed, s);
      ghost var exhausted;
      colIdxToSeen, exhausted := VerifyNextRow(truth, target, shape, evl, colIdxToSeen);
      noticed := noticed || exhausted;
      Associate(log, events, [RowScan] + s.events);
      events := events + ([RowScan] + s.events);
      has := HasNextBeside(truth, evl);
    }
    seen := colIdxToSeen;
  }

  /** Verifies target against truth.  The iterators may share the key array that the listener
      will append to: both have read it before the listener receives its first event. */
  method VerifyRows(truth: Iterator, target: Iterator, shape: TableShape, evl: RowEventListener)
    returns (result: VerifyResult)
    requires truth.Valid() && target.Valid() && evl.Valid()
    requires truth.Repr() !! target.Repr()
    requires !truth.Failed() && !target.Failed()
    requires Fits(truth.Rest().rows, shape) && Fits(target.Rest().rows, shape)
    modifies truth.Repr(), target.Repr(), evl.Repr()
    ensures evl.Valid() && fresh(evl.Repr() - old(evl.Repr()))
    ensures var m := Merge(old(truth.Rest()), old(target.Rest()), shape, {}, false);
      evl.Log() == old(evl.Log()) + m.events && result == m.result
  {
    hide RowEventListener.Valid, RowEventListener.Log, Iterator.Valid, Iterator.Rest, Iterator.Failed;
    var events, seen, noticed := MergeRows(truth, target, shape, evl);
    if truth.Failed() { return TruthError; }
    if target.Failed() { return TargetError; }
    Associate(old(evl.Log()), events, Extras(target.Rest().rows, shape.nPk));
    DrainTarget(target, shape.nPk, evl);
    return NoError;
  }
}
