/** The paged table scan with one page prefetched by a goroutine. */
module ScanIterators {
  import opened Keys
  import opened ScanQuery

  /** How a fetch goes: either it completes, or it fails after decoding some rows
      (the rate limiter and the query itself fail before the first row). */
  datatype Fetch = Completes | FailsAfter(decoded: nat)

  datatype PageResult = Page(rows: seq<Row>) | PageError

  /** What a consumer can still receive: the rows, and whether an error comes after them. */
  datatype Supply = Supply(rows: seq<Row>, fails: bool)

  ghost predicate FailsLater(faults: nat -> Fetch, k: nat) {
    exists j :: j >= k && faults(j) != Completes
  }

  /** What fetch number k and its successors deliver out of the rows still in range.  Pages of no rows deliver
      nothing until a fetch fails. */
  ghost function Deliver(avail: seq<Row>, batch: nat, faults: nat -> Fetch, k: nat): Supply
    decreases |avail|
  {
    if batch == 0 then Supply([], FailsLater(faults, k))
    else if faults(k) != Completes then Supply([], true)
    else if |avail| < batch then Supply(avail, false)
    else
      var later := Deliver(avail[batch..], batch, faults, k + 1);
      Supply(avail[..batch] + later.rows, later.fails)
  }

  /** What is to come once fetch k has put its result on the channel, onward being the rows after it. */
  ghost function Arrived(res: PageResult, onward: seq<Row>, batch: nat, faults: nat -> Fetch, k: nat): Supply
  {
    match res
    case PageError => Supply([], true)
    case Page(rows) =>
      if |rows| < batch then Supply(rows, false)
      else
        var later := Deliver(onward, batch, faults, k + 1);
        Supply(rows + later.rows, later.fails)
  }

  lemma FetchArrives(avail: seq<Row>, batch: nat, faults: nat -> Fetch, k: nat, onward: seq<Row>)
    requires |avail| >= batch && faults(k) == Completes ==> onward == avail[batch..]
    ensures Deliver(avail, batch, faults, k)
         == Arrived(if faults(k) == Completes then Page(Take(avail, batch)) else PageError, onward, batch, faults, k)
  {
    if batch == 0 {
      NextFails(faults, k);
    }
  }

  lemma NextFails(faults: nat -> Fetch, k: nat)
    ensures FailsLater(faults, k) <==> faults(k) != Completes || FailsLater(faults, k + 1)
  {
    if j :| j >= k && faults(j) != Completes && j != k {
      assert j >= k + 1;
    }
  }

  /** Without a failing fetch the pages add up to the whole range, once each and in order;
      with one, they are a prefix of it. */
  lemma {:induction false} DeliverIsRange(avail: seq<Row>, batch: nat, faults: nat -> Fetch, k: nat)
    requires batch >= 1
    ensures var d := Deliver(avail, batch, faults, k);
            && d.rows <= avail
            && (!d.fails <==> d == Supply(avail, false))
            && ((forall j :: j >= k ==> faults(j) == Completes) ==> d == Supply(avail, false))
    decreases |avail|
  {
    if faults(k) == Completes && |avail| >= batch {
      DeliverIsRange(avail[batch..], batch, faults, k + 1);
      assert avail == avail[..batch] + avail[batch..];
      var later := Deliver(avail[batch..], batch, faults, k + 1);
      if !later.fails {
        assert later.rows == avail[batch..];
      }
    }
  }

  /** A failure is met exactly when a fetch fails that the full pages before it call for:
      fetch k + j is made only if j full pages fit into the range. */
  lemma {:induction false} DeliverFails(avail: seq<Row>, batch: nat, faults: nat -> Fetch, k: nat)
    requires batch >= 1
    ensures Deliver(avail, batch, faults, k).fails
       <==> exists j: nat :: j * batch <= |avail| && faults(k + j) != Completes
    decreases |avail|
  {
    if faults(k) != Completes {
      assert 0 * batch <= |avail| && faults(k + 0) != Completes;
    } else if |avail| < batch {
      forall j: nat | j * batch <= |avail|
        ensures j == 0
      {
        if j >= 1 { MulAtLeast(j, batch); }
      }
    } else {
      var rest := avail[batch..];
      DeliverFails(rest, batch, faults, k + 1);
      forall j: nat | j * batch <= |rest| && faults(k + 1 + j) != Completes
        ensures exists i: nat :: i * batch <= |avail| && faults(k + i) != Completes
      {
        assert (j + 1) * batch == j * batch + batch;
        assert faults(k + (j + 1)) != Completes;
      }
      forall i: nat | i * batch <= |avail| && faults(k + i) != Completes
        ensures exists j: nat :: j * batch <= |rest| && faults(k + 1 + j) != Completes
      {
        assert (i - 1) * batch == i * batch - batch;
        assert faults(k + 1 + (i - 1)) != Completes;
      }
    }
  }

  /** Exactly the full pages before the first failing fetch are delivered. */
  lemma {:induction false} DeliversPagesBefore(avail: seq<Row>, batch: nat, faults: nat -> Fetch, k: nat) returns (j: nat)
    requires batch >= 1 && Deliver(avail, batch, faults, k).fails
    ensures faults(k + j) != Completes && forall i :: k <= i < k + j ==> faults(i) == Completes
    ensures 0 <= j * batch <= |avail| && Deliver(avail, batch, faults, k).rows == avail[..j * batch]
    decreases |avail|
  {
    j := 0;
    if faults(k) == Completes {
      var rest := avail[batch..];
      var later := DeliversPagesBefore(rest, batch, faults, k + 1);
      j := later + 1;
      assert j * batch == later * batch + batch;
      assert avail[..batch] + rest[..later * batch] == avail[..j * batch];
    }
  }

  lemma MulAtLeast(j: nat, batch: nat)
    requires j >= 1
    ensures j * batch >= batch
  {
    assert j * batch == (j - 1) * batch + batch;
  }

  class ScanIterator {
    // The answer to SELECT columns FROM table ORDER BY primary key, unchanged during the scan.
    const table: seq<Row>
    const nPk: nat
    const start: Key
    const end: Key
    const rowBatchSize: nat
    const faults: nat -> Fetch

    var cache: seq<Row>
    var pkCursor: Key
    var currCacheSize: nat
    var err: bool
    var waitCh: seq<PageResult>  // buffered, capacity 1
    var inFlight: nat            // fetch goroutines that have not sent yet
    var fetches: nat             // fetches finished, which selects their outcome in faults

    ghost predicate Valid()
      reads this
    {
      rowBatchSize >= 1 && Wired()
    }

    /** What holds for pages of no rows, too. */
    ghost predicate Wired()
      reads this
    {
      && 1 <= nPk && SortedRows(table, nPk)
      && |start| <= nPk && |end| <= nPk
      && (pkCursor == [] || |pkCursor| == nPk)
      // at most one fetch is outstanding, so its send on the channel never blocks
      && inFlight + |waitCh| <= 1
      && (err ==> cache == [])
      // the consumer waits only for a full page's successor, and exactly then one is on its way
      && (!err ==> (currCacheSize == rowBatchSize <==> inFlight + |waitCh| == 1))
      && currCacheSize <= rowBatchSize
      && (waitCh != [] ==> fetches >= 1)
      && (!err && waitCh != [] && waitCh[0].Page? ==> |waitCh[0].rows| <= rowBatchSize)
    }

    /** The rows the next query would answer without its limit. */
    ghost function Onward(): seq<Row>
      reads `pkCursor
    {
      Select(table, Generate(pkCursor, start, end))
    }

    /** What is still to come once the cache is empty. */
    ghost function Coming(): Supply
      reads this
    {
      if inFlight > 0 then Deliver(Onward(), rowBatchSize, faults, fetches)
      else if waitCh == [] then Supply([], false)
      else Arrived(waitCh[0], Onward(), rowBatchSize, faults, if fetches > 0 then fetches - 1 else 0)
    }

    /** Everything this iterator will still hand out, and whether it then reports an error. */
    ghost function Rest(): Supply
      reads this
    {
      if err then Supply([], true) else Supply(cache + Coming().rows, Coming().fails)
    }

    /** The supply of a whole scan of [start, end). */
    static ghost function ScanSupply(table: seq<Row>, start: Key, end: Key, rowBatchSize: nat, faults: nat -> Fetch): Supply
    {
      Deliver(Select(table, Generate([], start, end)), rowBatchSize, faults, 0)
    }

    constructor (table: seq<Row>, nPk: nat, start: Key, end: Key, rowBatchSize: nat, faults: nat -> Fetch)
      requires 1 <= nPk && SortedRows(table, nPk)
      requires |start| <= nPk && |end| <= nPk
      ensures Wired() && fresh(this) && !err && this.rowBatchSize == rowBatchSize
      ensures Rest() == ScanSupply(table, start, end, rowBatchSize, faults)
      ensures this.table == table && this.nPk == nPk
    {
      this.table, this.nPk, this.start, this.end := table, nPk, start, end;
      this.rowBatchSize, this.faults := rowBatchSize, faults;
      cache, pkCursor, currCacheSize, err := [], [], rowBatchSize, false;
      waitCh, inFlight, fetches := [], 0, 0;
      new;
      inFlight := inFlight + 1;  // nextPage
    }

    /** Decodes the answered rows, moving the cursor along, until the fetch fails. */
    method Decode(currRows: seq<Row>, fetch: Fetch) returns (res: PageResult)
      requires forall r :: r in currRows ==> |r| >= nPk
      modifies `pkCursor
      ensures res == if fetch.Completes? then Page(currRows) else PageError
      ensures pkCursor == old(pkCursor) || |pkCursor| == nPk
      ensures res.Page? && currRows != [] ==> pkCursor == currRows[|currRows| - 1][..nPk]
      ensures res.Page? && currRows == [] ==> pkCursor == old(pkCursor)
    {
      var datums: seq<Row> := [];
      var i := 0;
      while i < |currRows| && (fetch.FailsAfter? ==> i < fetch.decoded)
        invariant 0 <= i <= |currRows| && datums == currRows[..i]
        invariant pkCursor == if i == 0 then old(pkCursor) else currRows[i - 1][..nPk]
      {
        pkCursor := currRows[i][..nPk];
        datums := datums + [currRows[i]];
        i := i + 1;
      }
      res := if fetch.Completes? then Page(datums) else PageError;
    }

    /** Runs the next query.  Its page and what follows it are what was to come before. */
    method Query() returns (res: PageResult)
      requires Wired()
      modifies `pkCursor
      ensures pkCursor == [] || |pkCursor| == nPk
      ensures res == if faults(fetches).Completes? then Page(Take(old(Onward()), rowBatchSize)) else PageError
      ensures res.Page? ==>
        |res.rows| <= rowBatchSize && pkCursor == if res.rows == [] then old(pkCursor) else LastKey(res.rows)
      ensures old(Deliver(Onward(), rowBatchSize, faults, fetches))
           == Arrived(res, Onward(), rowBatchSize, faults, fetches)
    {
      hide Deliver, Arrived, Select;
      var w := Generate(pkCursor, start, end);
      var answer := Select(table, w);
      assert forall r :: r in answer ==> |r| >= nPk by {
        SelectSorted(table, w, nPk);
      }
      res := Decode(Take(answer, rowBatchSize), faults(fetches));
      if |answer| >= rowBatchSize > 0 && res.Page? {
        AfterCursor(table, w, rowBatchSize - 1, nPk);
      }
      FetchArrives(answer, rowBatchSize, faults, fetches, Onward());
    }

    function LastKey(rows: seq<Row>): Key
      requires rows != []
    {
      var last := rows[|rows| - 1];
      if nPk <= |last| then last[..nPk] else last
    }

    /** The body of the fetch goroutine.  It may run at any moment after it was started:
        what the consumer is going to receive does not depend on when. */
    method RunFetch()
      requires Wired() && inFlight == 1
      modifies this
      ensures Wired() && inFlight == 0 && |waitCh| == 1 && fetches == old(fetches) + 1
      ensures waitCh[0] == if faults(old(fetches)).Completes? then Page(Take(old(Onward()), rowBatchSize)) else PageError
      ensures waitCh[0].Page? ==> pkCursor == if waitCh[0].rows == [] then old(pkCursor) else LastKey(waitCh[0].rows)
      ensures Rest() == old(Rest())
      ensures cache == old(cache) && err == old(err) && currCacheSize == old(currCacheSize)
    {
      var res := Query();
      waitCh := waitCh + [res];
      inFlight := inFlight - 1;
      fetches := fetches + 1;
    }

    /** The consumer has to wait for a page. */
    predicate Waiting()
      reads this
    {
      !err && cache == [] && currCacheSize == rowBatchSize
    }

    /** The page that is awaited is an error. */
    predicate ErrorAwaited()
      reads this
    {
      if waitCh != [] then waitCh[0].PageError? else faults(fetches) != Completes
    }

    /** Takes the outstanding page off the channel and asks for the one after it.
        Where the receive blocks, one fetch is in flight, so it can always proceed.
        A page of no rows that was asked for as such leaves the consumer waiting at the same place. */
    method Receive()
      requires Wired() && Waiting()
      modifies this
      ensures Wired() && Rest() == old(Rest())
      ensures err == old(ErrorAwaited())
      ensures fetches == old(fetches) + (if old(waitCh) == [] then 1 else 0) && waitCh == []
      ensures rowBatchSize >= 1 ==> !Waiting()
      ensures rowBatchSize == 0 && !err ==> Waiting()
      ensures rowBatchSize == 0 && !err && old(waitCh) == [] ==> pkCursor == old(pkCursor) && inFlight == old(inFlight)
    {
      hide Rest, Deliver;
      if |waitCh| == 0 {
        RunFetch();
      }
      TakePage();
    }

    method TakePage()
      requires Wired() && Waiting() && waitCh != []
      modifies this
      ensures Wired() && Rest() == old(Rest()) && pkCursor == old(pkCursor) && fetches == old(fetches)
      ensures waitCh == [] && err == old(waitCh[0]).PageError?
      ensures rowBatchSize >= 1 ==> !Waiting()
      ensures rowBatchSize == 0 && !err ==> Waiting()
      ensures Waiting() ==> inFlight == 1
    {
      hide Deliver, Select;
      var res := waitCh[0];
      waitCh := [];
      match res {
        case PageError =>
          err := true;
        case Page(rows) =>
          cache := rows;
          currCacheSize := |cache|;
          if currCacheSize == rowBatchSize {
            inFlight := inFlight + 1;  // nextPage
          }
      }
    }

    /** The call comes back: pages have rows, or a fetch fails. */
    ghost predicate Returns()
      reads this
    {
      rowBatchSize >= 1 || Rest().fails
    }

    method HasNext() returns (has: bool)
      requires Wired() && Returns()
      modifies this
      ensures Wired() && Rest() == old(Rest())
      ensures has <==> Rest().rows != []
      ensures has ==> cache != []
      ensures err == (!has && Rest().fails)
    {
      hide Deliver, Select, Arrived;
      ghost var limit := FailureAhead();
      while true
        invariant Wired() && Rest() == old(Rest())
        invariant rowBatchSize == 0 && Waiting() && !ErrorAwaited() ==> fetches <= limit && faults(limit) != Completes
        decreases if !Waiting() then 0 else if rowBatchSize >= 1 || ErrorAwaited() then 1 else 2 + limit - fetches + |waitCh|
      {
        if err { return false; }
        if |cache| > 0 { return true; }
        if currCacheSize < rowBatchSize { return false; }
        Receive();
      }
    }

    /** The number of a fetch that fails and has not been made yet. */
    ghost method FailureAhead() returns (limit: nat)
      requires Wired() && Returns()
      ensures rowBatchSize == 0 && Waiting() && !ErrorAwaited() ==> fetches <= limit && faults(limit) != Completes
    {
      if rowBatchSize == 0 && Waiting() && !ErrorAwaited() {
        assert FailsLater(faults, fetches);
        limit :| limit >= fetches && faults(limit) != Completes;
      } else {
        limit := 0;
      }
    }

    /** nil, the empty row, when nothing is left. */
    method Peek() returns (row: Row)
      requires Valid()
      modifies this
      ensures Valid() && Rest() == old(Rest())
      ensures row == if Rest().rows == [] then [] else Rest().rows[0]
    {
      var has := HasNext();
      row := if has then cache[0] else [];
    }

    method Next() returns (row: Row)
      requires Valid()
      modifies this
      ensures Valid()
      ensures old(Rest().rows) == [] ==> row == [] && Rest() == old(Rest())
      ensures old(Rest().rows) != [] ==> row == old(Rest().rows)[0] && !err
      ensures old(Rest().rows) != [] ==> Rest() == Supply(old(Rest().rows)[1..], old(Rest().fails))
    {
      hide Deliver, Select, Arrived;
      var has := HasNext();
      if has {
        row := cache[0];
        cache := cache[1..];
        assert Rest().rows == old(Rest().rows)[1..];
      } else {
        row := [];
      }
    }
  }
}
