/** Live mode from end to end: which keys are reported in the end. */
module LiveVerification {
  import opened Keys
  import opened Retries
  import opened RowEvents
  import opened RowVerify
  import opened LiveRetries
  import opened LookupFaults

  lemma {:induction false} FlattenMember(batches: seq<seq<Key>>, k: Key)
    ensures k in Flatten(batches) <==> exists x :: 0 <= x < |batches| && k in batches[x]
  {
    if batches != [] {
      var n := |batches| - 1;
      FlattenMember(batches[..n], k);
      assert forall x :: 0 <= x < n ==> batches[..n][x] == batches[x];
    }
  }

  lemma {:induction false} SuspectKeysConcat(a: seq<Event>, b: seq<Event>)
    ensures SuspectKeys(a + b) == SuspectKeys(a) + SuspectKeys(b)
  {
    if b == [] {
      assert a + b == a;
    } else {
      var n := |b| - 1;
      assert (a + b)[..|a + b| - 1] == a + b[..n] && (a + b)[|a + b| - 1] == b[n];
      SuspectKeysConcat(a, b[..n]);
    }
  }

  lemma {:induction false} ReceivedSuspects(trace: seq<LiveRetries.Scan>, settings: Settings, k: Key)
    ensures k in SuspectKeys(Received(trace, settings)) <==> exists i :: 0 <= i < |trace| && LiveRetries.Reports(trace, i, settings, k)
  {
    if trace != [] {
      var n := |trace| - 1;
      ReceivedSuspects(trace[..n], settings, k);
      SuspectKeysConcat(Received(trace[..n], settings), Forwarded(trace[n].events, Continues(settings, trace[n].attempt)));
      assert forall i :: 0 <= i < n ==> trace[..n][i] == trace[i];
      if i :| 0 <= i < n && LiveRetries.Reports(trace[..n], i, settings, k) {
        assert LiveRetries.Reports(trace, i, settings, k);
      }
      if k in SuspectKeys(Forwarded(trace[n].events, Continues(settings, trace[n].attempt))) {
        assert LiveRetries.Reports(trace, n, settings, k);
      }
      if i :| 0 <= i < |trace| && LiveRetries.Reports(trace, i, settings, k) {
        assert i == n || LiveRetries.Reports(trace[..n], i, settings, k);
      }
    }
  }

  /** A scan finds only keys of its batch suspect. */
  lemma {:induction false} SuspectsInBatch(st: State, settings: Settings, shape: TableShape, i: nat, k: Key)
    requires Inv(st, settings, shape) && i < |st.trace| && k in SuspectKeys(st.trace[i].events)
    ensures st.trace[i].item < |st.inserted| && k in st.inserted[st.trace[i].item]
    decreases st.trace[i].attempt
  {
    var r := st.trace[i];
    TraceSees(st, settings, shape);
    SuspectsAmongKeys(r.keys, r.world, shape, k);
    if r.attempt == 1 {
      assert Carries(st.trace[..i], st.inserted, r.item, r.attempt, r.keys);
    } else {
      assert ScanFits(r, settings, shape);
      var j := ScanBefore(st, settings, shape, i);
      hide Inv, ScanKeys, Sees;
      SuspectsInBatch(st, settings, shape, j, k);
    }
  }

  /** Every scan of the batch found the key suspect. */
  ghost predicate SuspectThroughout(st: State, x: nat, k: Key) {
    forall i :: 0 <= i < |st.trace| && st.trace[i].item == x ==>
      st.trace[i].result == NoError && k in SuspectKeys(st.trace[i].events)
  }

  /** Once the reverifier has finished with all batches it was sent, with a bound on the retries and whatever the
      lookups did: a key is reported exactly if every lookup of a batch that it was in found it suspect.  The batches
      hold the suspect keys of the scan but for those still waiting to be sent, of which there are none after the
      flush that ends a scan without an error. */
  lemma ReportedExactly(
    scanLog: seq<Event>, pushed: seq<seq<Key>>, waiting: seq<Key>, st: State, settings: Settings, shape: TableShape, k: Key)
    requires Flatten(pushed) + waiting == SuspectKeys(scanLog) && st.inserted == pushed && st.pending == map[]
    requires Inv(st, settings, shape) && settings.maxRetries > 0
    ensures k in SuspectKeys(st.received) <==> exists x :: 0 <= x < |pushed| && k in pushed[x] && SuspectThroughout(st, x, k)
    ensures k in SuspectKeys(scanLog) <==> k in waiting || exists x :: 0 <= x < |pushed| && k in pushed[x]
  {
    assert st.received == Received(st.trace, settings);
    ReceivedSuspects(st.trace, settings, k);
    FlattenMember(pushed, k);
    BatchesDecide(st, settings, shape, k);
  }

  /** A scan that ends with an error is not flushed.  Exactly the keys still waiting then are lost: at no time will the
      reverifier have reported one of them, unless an earlier batch had it, too. */
  lemma WaitingAreLost(
    scanLog: seq<Event>, waiting: seq<Key>, st: State, settings: Settings, shape: TableShape, k: Key)
    requires Flatten(st.inserted) + waiting == SuspectKeys(scanLog) && Inv(st, settings, shape)
    ensures k in SuspectKeys(st.received) ==> k in SuspectKeys(scanLog) && k in Flatten(st.inserted)
    ensures Distinct(SuspectKeys(scanLog)) && k in waiting ==> k !in SuspectKeys(st.received)
  {
    assert st.received == Received(st.trace, settings);
    ReceivedSuspects(st.trace, settings, k);
    FlattenMember(st.inserted, k);
    if k in SuspectKeys(st.received) {
      var i :| 0 <= i < |st.trace| && LiveRetries.Reports(st.trace, i, settings, k);
      ReporterSuspects(st, settings, shape, i, k);
    }
    hide Inv, SuspectKeys, Flatten;
    if Distinct(SuspectKeys(scanLog)) && k in waiting {
      ApartIfDistinct(Flatten(st.inserted), waiting, k);
    }
  }

  ghost predicate Distinct(keys: seq<Key>) {
    forall i, j :: 0 <= i < j < |keys| ==> keys[i] != keys[j]
  }

  lemma ApartIfDistinct(a: seq<Key>, b: seq<Key>, k: Key)
    requires Distinct(a + b) && k in b
    ensures k !in a
  {
    var j :| 0 <= j < |b| && b[j] == k;
    assert (a + b)[|a| + j] == k;
    forall i | 0 <= i < |a|
      ensures a[i] != k
    {
      assert (a + b)[i] == a[i];
    }
  }

  lemma BatchesDecide(st: State, settings: Settings, shape: TableShape, k: Key)
    requires Inv(st, settings, shape) && settings.maxRetries > 0 && st.pending == map[]
    ensures (exists i :: 0 <= i < |st.trace| && LiveRetries.Reports(st.trace, i, settings, k)) <==>
      exists x :: 0 <= x < |st.inserted| && k in st.inserted[x] && SuspectThroughout(st, x, k)
  {
    hide SuspectKeys, Inv, LiveRetries.Reports;
    if i :| 0 <= i < |st.trace| && LiveRetries.Reports(st.trace, i, settings, k) {
      ReporterSuspects(st, settings, shape, i, k);
      var x := st.trace[i].item;
      ReportedIfSuspect(st, settings, shape, x, k);
      assert k in st.inserted[x] && SuspectThroughout(st, x, k);
    }
    if x :| 0 <= x < |st.inserted| && k in st.inserted[x] && SuspectThroughout(st, x, k) {
      ReportedIfSuspect(st, settings, shape, x, k);
    }
  }

  lemma ReporterSuspects(st: State, settings: Settings, shape: TableShape, i: nat, k: Key)
    requires Inv(st, settings, shape) && i < |st.trace| && LiveRetries.Reports(st.trace, i, settings, k)
    ensures st.trace[i].item < |st.inserted| && k in st.inserted[st.trace[i].item]
  {
    ForwardedSuspects(st.trace[i].events, Continues(settings, st.trace[i].attempt));
    SuspectsInBatch(st, settings, shape, i, k);
  }
}
