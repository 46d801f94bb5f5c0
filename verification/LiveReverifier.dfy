/** The reverifier's event loop: batches arrive, wait in the retry queue and are scanned again. */
module LiveReverifiers {
  import opened Keys
  import opened Retries
  import opened PointLookups
  import opened RowEvents
  import opened RowVerify
  import opened Diff
  import opened RetryQueues
  import opened LiveRetries
  import opened Seqs

  /** verifyRows over two lookups that share their key array with the listener's item. */
  method VerifyLookups(truth: PointLookupIterator, target: PointLookupIterator, shape: TableShape, listener: ReverifyListener)
    returns (result: VerifyResult)
    requires truth.Valid() && target.Valid() && listener.Valid() && truth != target && !truth.err && !target.err
    requires Fits(truth.Rest().rows, shape) && Fits(target.Rest().rows, shape)
    modifies truth, target, listener, listener.item, listener.item.pks, listener.base
    ensures listener.Valid() && (listener.item.pks == old(listener.item.pks) || fresh(listener.item.pks))
    ensures var m := Merge(old(truth.Rest()), old(target.Rest()), shape, {}, false);
      listener.log == old(listener.log) + m.events && result == m.result
  {
    hide Merge, Fits, LookupSupply;
    var evl := Reverify(listener);
    ghost var repr, pks := evl.Repr(), listener.item.pks;
    result := VerifyRows(Lookup(truth), Lookup(target), shape, evl);
    assert listener.item.pks in evl.Repr();
    assert listener.item.pks in repr ==> listener.item.pks == pks;
  }

  /** Two lookups of the item's keys; they keep its backing array, not a copy of the keys. */
  method NewLookups(it: LiveRetryItem, world: World, shape: TableShape) returns (truth: PointLookupIterator, target: PointLookupIterator)
    requires it.Valid() && Sees(world, shape)
    ensures fresh(truth) && fresh(target) && truth != target && truth.Valid() && target.Valid() && !truth.err && !target.err
    ensures Fits(truth.Rest().rows, shape) && Fits(target.Rest().rows, shape)
    ensures Merge(truth.Rest(), target.Rest(), shape, {}, false) == ScanKeys(it.Contents(), world, shape)
    ensures !truth.ran && !target.ran && truth.pks == target.pks == it.pks
  {
    LookupOrdered(world.truth, it.Contents(), shape, world.truthFault);
    LookupOrdered(world.target, it.Contents(), shape, world.targetFault);
    hide Merge, LookupSupply, Ordered, Fits;
    truth := new PointLookupIterator(world.truth, shape.nPk, world.truthFault, it.pks, it.numPks);
    target := new PointLookupIterator(world.target, shape.nPk, world.targetFault, it.pks, it.numPks);
  }

  /** One scan of an item.  Both lookups are built on the item's key slice; the item is then truncated and the
      listener appends to the same backing array while verifyRows runs.  The lookups still see all the keys. */
  method ScanItem(it: LiveRetryItem, base: DefaultListener, world: World, shape: TableShape) returns (result: VerifyResult)
    requires it.Valid() && base.Valid() && Sees(world, shape)
    modifies it, it.pks, base
    ensures it.Valid() && base.Valid() && (it.pks == old(it.pks) || fresh(it.pks))
    ensures it.iteration == old(it.iteration) && it.nextRetry == old(it.nextRetry)
    ensures var m, continues := ScanKeys(old(it.Contents()), world, shape), Continues(it.settings, old(it.iteration));
      && result == m.result && it.Contents() == CarriedKeys(m.events, continues)
      && base.log == old(base.log) + Forwarded(m.events, continues)
  {
    hide Merge, SuspectKeys, Forwarded, LookupSupply, Ordered, Fits, ScanKeys, Sees;
    ghost var m := ScanKeys(it.Contents(), world, shape);
    var truth, target := NewLookups(it, world, shape);
    it.Truncate();
    var listener := new ReverifyListener(it, base);
    assert Merge(truth.Rest(), target.Rest(), shape, {}, false) == m;
    result := VerifyLookups(truth, target, shape, listener);
    assert listener.log == m.events;
  }

  ghost predicate Represents(it: LiveRetryItem, p: Pending, settings: Settings)
    reads it, it.pks
  {
    it.Valid() && it.settings == settings && it.iteration == p.attempt && it.Contents() == p.keys
  }

  /** The items in the queue stand for the waiting batches, one each, with backing arrays of their own. */
  ghost predicate Stand(ids: map<LiveRetryItem, nat>, pending: map<nat, Pending>, settings: Settings)
    reads ids.Keys, set it | it in ids :: it.pks
  {
    && (forall it :: it in ids ==> ids[it] in pending && Represents(it, pending[ids[it]], settings))
    && (forall a, b :: a in ids && b in ids && a != b ==> ids[a] != ids[b] && a.pks != b.pks)
    && (forall x :: x in pending ==> exists it :: it in ids && ids[it] == x)
  }

  ghost predicate Queues(items: seq<LiveRetryItem>, ids: map<LiveRetryItem, nat>) {
    multiset(items) == multiset(ids.Keys)
  }

  lemma QueuedOnce(items: seq<LiveRetryItem>, ids: map<LiveRetryItem, nat>, it: LiveRetryItem)
    requires multiset(items) + multiset{it} == multiset(ids.Keys)
    ensures it !in items && it in ids && Queues(items, ids - {it})
  {
    var all := multiset(ids.Keys);
    assert it in all;
    assert all[it] == 1;
    assert multiset(items) == all - multiset{it};
    assert multiset(items)[it] == 0;
    assert (ids - {it}).Keys == ids.Keys - {it};
    assert multiset(ids.Keys - {it}) == all - multiset{it};
  }

  lemma QueueMore(items: seq<LiveRetryItem>, before: seq<LiveRetryItem>, ids: map<LiveRetryItem, nat>, it: LiveRetryItem, x: nat)
    requires Queues(before, ids) && it !in ids && multiset(items) == multiset(before) + multiset{it}
    ensures Queues(items, ids[it := x])
  {
    assert ids[it := x].Keys == ids.Keys + {it};
  }

  datatype Insertion = Insertion(keys: seq<Key>, now: int)

  class LiveReverifier {
    const settings: Settings
    const shape: TableShape
    const base: DefaultListener
    const queue: LiveRetryQueue
    var done: bool
    ghost const baseLog: seq<Event>
    ghost var st: State
    ghost var ids: map<LiveRetryItem, nat>

    ghost predicate Valid()
      reads this, base, queue, queue.items, ids.Keys, set it | it in ids :: it.pks
    {
      && queue.Valid() && base.Valid() && Queues(queue.items, ids) && Stand(ids, st.pending, settings)
      && Inv(st, settings, shape) && base.log == baseLog + st.received
    }

    constructor (settings: Settings, shape: TableShape, base: DefaultListener)
      requires base.Valid()
      ensures Valid() && fresh(this) && fresh(queue) && st == START && ids == map[] && !done && queue.items == []
      ensures this.settings == settings && this.shape == shape && this.base == base && baseLog == base.log
    {
      this.settings, this.shape, this.base, baseLog := settings, shape, base, base.log;
      queue := new LiveRetryQueue();
      done, st, ids := false, START, map[];
      new;
      StartKeeps(settings, shape);
    }

    /** A batch arrives. */
    method OnInsert(keys: seq<Key>, now: int)
      requires Valid() && keys != []
      modifies this`st, this`ids, queue
      ensures Valid() && st == Inserted(old(st), keys)
      ensures forall it :: it in ids && it !in old(ids) ==> fresh(it) && fresh(it.pks)
      ensures old(ids.Keys) <= ids.Keys
    {
      hide Inv, Queues, Stand, Represents, LiveRetryQueue.Valid;
      ghost var before, x := queue.items, |st.inserted|;
      InsertedBound(st, settings, shape);
      InsertKeeps(st, keys, settings, shape);
      var pks := new Key[|keys|](i requires 0 <= i < |keys| => keys[i]);
      assert pks[..] == keys;
      assert forall a :: a in ids ==> a.pks != pks;
      var it := new LiveRetryItem(settings, pks, now);
      NewRepresents(it, keys, settings);
      assert it !in ids;
      queue.HeapPush(it);
      QueueMore(queue.items, before, ids, it, x);
      StandMore(ids, st.pending, settings, it, x, Pending(1, keys));
      ids := ids[it := x];
      st := Inserted(st, keys);
    }

    /** Takes the batch whose time comes first out of the queue. */
    method TakeNext() returns (it: LiveRetryItem)
      requires Valid() && queue.items != []
      modifies queue
      ensures it in ids && forall other :: other in ids ==> it.nextRetry <= other.nextRetry
      ensures queue.Valid() && base.Valid() && Queues(queue.items, ids - {it}) && it !in queue.items
      ensures Represents(it, st.pending[ids[it]], settings) && Stand(ids - {it}, st.pending - {ids[it]}, settings)
      ensures forall other :: other in ids - {it} ==> other.pks != it.pks
    {
      hide Inv, Stand, Represents, LiveRetryQueue.Valid;
      ghost var before := queue.items;
      it := queue.HeapPop();
      assert multiset(queue.items) + multiset{it} == multiset(ids.Keys);
      forall other | other in ids
        ensures it.nextRetry <= other.nextRetry
      {
        assert other in multiset(ids.Keys);
        assert other in before;
      }
      QueuedOnce(queue.items, ids, it);
      StandLess(ids, st.pending, settings, it);
    }

    /** Puts a scanned batch back for its next scan. */
    method PutBack(it: LiveRetryItem, ghost x: nat, ghost p: Pending)
      requires queue.Valid() && Queues(queue.items, ids) && Stand(ids, st.pending, settings)
      requires it !in ids && x !in st.pending && Represents(it, p, settings) && forall other :: other in ids ==> other.pks != it.pks
      modifies this`ids, queue, it
      ensures queue.Valid() && Queues(queue.items, ids) && ids == old(ids)[it := x]
      ensures it.pks == old(it.pks)
      ensures Stand(ids, st.pending[x := p.(attempt := p.attempt + 1)], settings)
    {
      hide Stand, LiveRetryQueue.Valid, Queues;
      ghost var before := queue.items;
      NotQueued(before, ids, it);
      it.NextRetry();
      queue.HeapPush(it);
      QueueMore(queue.items, before, ids, it, x);
      StandMore(ids, st.pending, settings, it, x, p.(attempt := p.attempt + 1));
      ids := ids[it := x];
    }

    /** The time of the first batch has come: it is scanned, and waits again if keys are left. */
    method OnWork(world: World) returns (ghost it: LiveRetryItem)
      requires Valid() && queue.items != [] && Sees(world, shape)
      modifies this`st, this`ids, queue, base, ids.Keys, set it | it in ids :: it.pks
      ensures Valid() && it in old(ids) && old(ids)[it] in old(st).pending
      ensures forall other :: other in old(ids) ==> old(it.nextRetry) <= old(other.nextRetry)
      ensures st == Worked(old(st), old(ids)[it], world, settings, shape)
      ensures ids.Keys <= old(ids.Keys) && forall other :: other in ids ==> other.pks == old(other.pks) || fresh(other.pks)
    {
      hide Inv, Represents, Queues, LiveRetryQueue.Valid, Worked, Sees, Stand;
      PendingIds(ids, st.pending, settings);
      var item := TakeNext();
      it := item;
      WorkItem(item, world);
    }

    /** The item that has left the queue is scanned. */
    method WorkItem(it: LiveRetryItem, world: World)
      requires queue.Valid() && base.Valid() && Queues(queue.items, ids - {it}) && it !in queue.items
      requires it in ids && ids[it] in st.pending && Sees(world, shape)
      requires Represents(it, st.pending[ids[it]], settings) && Stand(ids - {it}, st.pending - {ids[it]}, settings)
      requires forall other :: other in ids - {it} ==> other.pks != it.pks
      requires Inv(st, settings, shape) && base.log == baseLog + st.received
      modifies this`ids, this`st, queue, base, it, it.pks
      ensures Valid() && st == Worked(old(st), old(ids)[it], world, settings, shape)
      ensures ids.Keys <= old(ids.Keys) && (it.pks == old(it.pks) || fresh(it.pks))
    {
      hide Inv, Stand, Represents, Queues, LiveRetryQueue.Valid, ScanKeys, Worked, Sees, CarriedKeys, Forwarded;
      ghost var x, p := ids[it], st.pending[ids[it]];
      ghost var after := Worked(st, x, world, settings, shape);
      WorkKeeps(st, x, world, settings, shape);
      WorkedParts(st, x, world, settings, shape);
      ghost var m := ScanFromQueue(it, x, p, world);
      Associate(baseLog, old(st).received, Forwarded(m.events, Continues(settings, p.attempt)));
      st := after;
    }

    /** Scans an item that has left the queue and puts it back if it must be scanned again. */
    method ScanFromQueue(it: LiveRetryItem, ghost x: nat, ghost p: Pending, world: World) returns (ghost m: Merged)
      requires it in ids && ids[it] == x && x in st.pending && st.pending[x] == p && Sees(world, shape)
      requires queue.Valid() && base.Valid() && Queues(queue.items, ids - {it}) && it !in queue.items
      requires Represents(it, p, settings) && Stand(ids - {it}, st.pending - {x}, settings)
      requires forall other :: other in ids - {it} ==> other.pks != it.pks
      modifies this`ids, this`st, queue, base, it, it.pks
      ensures m == ScanKeys(p.keys, world, shape)
      ensures base.Valid() && base.log == old(base.log) + Forwarded(m.events, Continues(settings, p.attempt))
      ensures queue.Valid() && Queues(queue.items, ids) && ids.Keys <= old(ids.Keys) && (it.pks == old(it.pks) || fresh(it.pks))
      ensures var carried := CarriedKeys(m.events, Continues(settings, p.attempt));
        Stand(ids, if m.result.NoError? && carried != [] then old(st.pending)[x := Pending(p.attempt + 1, carried)]
                   else old(st.pending) - {x}, settings)
    {
      hide Stand, Queues, LiveRetryQueue.Valid, ScanKeys, CarriedKeys, Forwarded, Sees;
      m := ScanKeys(p.keys, world, shape);
      ids, st := ids - {it}, st.(pending := st.pending - {x});
      var result := ScanItem(it, base, world, shape);
      if result.NoError? && it.numPks > 0 {
        ghost var scanned := Pending(p.attempt, CarriedKeys(m.events, Continues(settings, p.attempt)));
        PutBack(it, x, scanned);
        assert (old(st.pending) - {x})[x := scanned.(attempt := p.attempt + 1)] == old(st.pending)[x := scanned.(attempt := p.attempt + 1)];
      }
    }

    /** How many scans, or turns before the tables agree, are left. */
    ghost function Left(turn: nat, calm: nat): nat
      reads this
    {
      if settings.maxRetries > 0 then Budget(st.pending, settings.maxRetries, |st.inserted|)
      else if turn < calm then calm - turn
      else 0
    }

    /** One turn that scans a batch: fewer scans, turns or batches are left. */
    method WorkTurn(world: World, ghost turn: nat, ghost calm: nat)
      requires Valid() && queue.items != [] && Sees(world, shape)
      requires settings.maxRetries == 0 && turn >= calm ==> Calm(world, shape)
      modifies this`st, this`ids, queue, base, ids.Keys, set it | it in ids :: it.pks
      ensures Valid() && st.inserted == old(st.inserted)
      ensures ids.Keys <= old(ids.Keys) && forall other :: other in ids ==> other.pks == old(other.pks) || fresh(other.pks)
      ensures if settings.maxRetries > 0 || turn < calm then Left(turn + 1, calm) < old(Left(turn, calm))
        else Left(turn + 1, calm) == 0 && |st.pending| < old(|st.pending|)
    {
      hide Inv, Stand, Queues, LiveRetryQueue.Valid, Worked, Sees, Calm;
      ghost var before, idsBefore := st, ids;
      var it := OnWork(world);
      WorkedPending(before, idsBefore[it], world, settings, shape);
      if settings.maxRetries > 0 {
        WorkUsesUp(before, idsBefore[it], world, settings, shape);
      } else if turn >= calm {
        CalmSettles(before, idsBefore[it], world, settings, shape);
      }
    }

    /** The event loop.  The scan pushes its batches one after the other and then says that it is complete; between
        these, and after them, the timer fires for the first batch in the queue.  takes(n) says which of the two comes
        first at turn n if both could; the tables of turn n are worlds(n).  With a bound on the retries, or if the
        tables agree from some turn on, the loop ends, and only when the scan is complete and no batch waits. */
    method Run(arrivals: seq<Insertion>, takes: nat -> bool, worlds: nat -> World)
      requires Valid() && !done && st == START && ids == map[]
      requires settings.maxRetries > 0 || exists n: nat :: CalmFrom(worlds, n, shape)
      requires forall i :: 0 <= i < |arrivals| ==> arrivals[i].keys != []
      requires forall n :: Sees(worlds(n), shape)
      modifies this, queue, base
      ensures Valid() && done && queue.items == [] && st.pending == map[]
      ensures st.inserted == KeysOf(arrivals)
    {
      NoKeys(arrivals);
      hide Inv, Stand, Queues, LiveRetryQueue.Valid, Worked, Sees, Calm, Left, KeysOf, CalmFrom;
      ghost var calm: nat := 0;
      if settings.maxRetries == 0 {
        calm :| CalmFrom(worlds, calm, shape);
      }
      var next: nat, turn: nat := 0, 0;
      EmptyQueue(queue.items, ids, st.pending, settings);
      while !done || |queue.items| > 0
        invariant Valid() && next <= |arrivals| && (done ==> next == |arrivals|)
        invariant st.inserted == KeysOf(arrivals[..next])
        invariant forall it :: it in ids ==> fresh(it) && fresh(it.pks)
        invariant settings.maxRetries == 0 ==> CalmFrom(worlds, calm, shape)
        decreases !done, |arrivals| - next, Left(turn, calm), if settings.maxRetries > 0 then 0 else |st.pending|
      {
        if |queue.items| > 0 && (done || !takes(turn)) {
          CalmAt(worlds, calm, turn, shape, settings);
          WorkTurn(worlds(turn), turn, calm);
        } else if next < |arrivals| {
          KeysSnoc(arrivals, next);
          OnInsert(arrivals[next].keys, arrivals[next].now);
          next := next + 1;
        } else {
          done := true;
        }
        turn := turn + 1;
      }
      assert arrivals[..next] == arrivals;
      EmptyQueue(queue.items, ids, st.pending, settings);
    }
  }

  /** From turn n on the tables agree. */
  ghost predicate CalmFrom(worlds: nat -> World, n: nat, shape: TableShape) {
    forall m :: m >= n ==> Calm(worlds(m), shape)
  }

  function KeysOf(arrivals: seq<Insertion>): seq<seq<Key>> {
    seq(|arrivals|, i requires 0 <= i < |arrivals| => arrivals[i].keys)
  }

  lemma KeysSnoc(arrivals: seq<Insertion>, n: nat)
    requires n < |arrivals|
    ensures KeysOf(arrivals[..n + 1]) == KeysOf(arrivals[..n]) + [arrivals[n].keys]
  {
  }

  lemma CalmAt(worlds: nat -> World, n: nat, turn: nat, shape: TableShape, settings: Settings)
    requires settings.maxRetries == 0 ==> CalmFrom(worlds, n, shape)
    ensures settings.maxRetries == 0 && turn >= n ==> Calm(worlds(turn), shape)
  {
  }

  lemma NoKeys(arrivals: seq<Insertion>)
    ensures KeysOf(arrivals[..0]) == []
  {
  }

  lemma EmptyQueue(items: seq<LiveRetryItem>, ids: map<LiveRetryItem, nat>, pending: map<nat, Pending>, settings: Settings)
    requires Queues(items, ids) && Stand(ids, pending, settings)
    ensures items == [] <==> ids == map[]
    ensures items == [] ==> pending == map[]
  {
    assert forall it :: it in items <==> it in multiset(items);
    assert forall it :: it in ids <==> it in multiset(ids.Keys);
    if items != [] {
      assert items[0] in ids;
    }
  }

  lemma PendingIds(ids: map<LiveRetryItem, nat>, pending: map<nat, Pending>, settings: Settings)
    requires Stand(ids, pending, settings)
    ensures forall it :: it in ids ==> ids[it] in pending
  {
  }

  lemma WorkedParts(st: State, x: nat, w: World, settings: Settings, shape: TableShape)
    requires x in st.pending && Sees(w, shape)
    ensures var p := st.pending[x];
      var m := ScanKeys(p.keys, w, shape);
      var carried := CarriedKeys(m.events, Continues(settings, p.attempt));
      && Worked(st, x, w, settings, shape).received == st.received + Forwarded(m.events, Continues(settings, p.attempt))
      && Worked(st, x, w, settings, shape).pending
           == if m.result.NoError? && carried != [] then st.pending[x := Pending(p.attempt + 1, carried)] else st.pending - {x}
  {
  }

  lemma NotQueued(items: seq<LiveRetryItem>, ids: map<LiveRetryItem, nat>, it: LiveRetryItem)
    requires Queues(items, ids) && it !in ids
    ensures it !in items
  {
    assert it in items <==> it in multiset(items);
    assert it !in multiset(ids.Keys);
  }

  lemma StandLess(ids: map<LiveRetryItem, nat>, pending: map<nat, Pending>, settings: Settings, it: LiveRetryItem)
    requires Stand(ids, pending, settings) && it in ids
    ensures Represents(it, pending[ids[it]], settings) && Stand(ids - {it}, pending - {ids[it]}, settings)
    ensures forall other :: other in ids - {it} ==> other.pks != it.pks
  {
    hide Represents;
    var ids', pending' := ids - {it}, pending - {ids[it]};
    forall y | y in pending'
      ensures exists a :: a in ids' && ids'[a] == y
    {
      var a: LiveRetryItem :| a in ids && ids[a] == y;
      assert ids'[a] == y;
    }
  }

  lemma NewRepresents(it: LiveRetryItem, keys: seq<Key>, settings: Settings)
    requires it.Valid() && it.settings == settings && it.iteration == 1 && it.Contents() == keys
    ensures Represents(it, Pending(1, keys), settings)
  {
  }

  lemma StandMore(ids: map<LiveRetryItem, nat>, pending: map<nat, Pending>, settings: Settings, it: LiveRetryItem, x: nat, p: Pending)
    requires Stand(ids, pending, settings) && it !in ids && x !in pending && Represents(it, p, settings)
    requires forall a :: a in ids ==> a.pks != it.pks
    ensures Stand(ids[it := x], pending[x := p], settings)
  {
    hide Represents;
    var ids', pending' := ids[it := x], pending[x := p];
    forall y | y in pending'
      ensures exists a :: a in ids' && ids'[a] == y
    {
      if y == x {
        assert ids'[it] == x;
      } else {
        var a: LiveRetryItem :| a in ids && ids[a] == y;
        assert ids'[a] == y;
      }
    }
  }

  lemma InsertedBound(st: State, settings: Settings, shape: TableShape)
    requires Inv(st, settings, shape)
    ensures forall x :: x in st.pending ==> x < |st.inserted|
  {
    hide TraceFits, Done, Carries, Unscanned;
    forall x | x in st.pending
      ensures x < |st.inserted|
    {
      assert PendingFits(st.pending[x], x, st.trace, st.inserted, settings);
    }
  }
}
