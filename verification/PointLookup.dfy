/** The iterator that fetches the rows of a given list of keys, lazily and in key order. */
module PointLookups {
  import opened Keys
  import opened ScanIterators

  /** A lookup answers fully, its query fails, or its result stream breaks off after some
      rows.  The break is not noticed: the stream's own error is never asked for. */
  datatype LookupFault = NoFault | QueryFails | CutShort(after: nat)

  /** The rows whose leading n columns are one of the keys, in table order. */
  function RowsOfKeys(table: seq<Row>, keys: seq<Key>, n: nat): seq<Row>
    requires forall r :: r in table ==> n <= |r|
  {
    if table == [] then []
    else (if table[0][..n] in keys then [table[0]] else []) + RowsOfKeys(table[1..], keys, n)
  }

  /** What a lookup of these keys delivers.  An empty key list is not a valid SQL IN list. */
  function LookupSupply(table: seq<Row>, keys: seq<Key>, n: nat, fault: LookupFault): Supply
    requires forall r :: r in table ==> n <= |r|
  {
    if keys == [] || fault.QueryFails? then Supply([], true)
    else
      var found := RowsOfKeys(table, keys, n);
      if fault.CutShort? && fault.after < |found| then Supply(found[..fault.after], false)
      else Supply(found, false)
  }

  lemma {:induction false} RowsOfKeysMember(table: seq<Row>, keys: seq<Key>, n: nat, r: Row)
    requires forall r :: r in table ==> n <= |r|
    ensures r in RowsOfKeys(table, keys, n) <==> r in table && r[..n] in keys
  {
    if table != [] {
      RowsOfKeysMember(table[1..], keys, n, r);
    }
  }

  lemma {:induction false} RowsOfKeysSorted(table: seq<Row>, keys: seq<Key>, n: nat)
    requires SortedRows(table, n)
    ensures SortedRows(RowsOfKeys(table, keys, n), n)
  {
    if table != [] {
      RowsOfKeysSorted(table[1..], keys, n);
      var rest := RowsOfKeys(table[1..], keys, n);
      forall j | 0 <= j < |rest|
        ensures n <= |rest[j]| && KeyLess(table[0][..n], rest[j][..n])
      {
        RowsOfKeysMember(table[1..], keys, n, rest[j]);
        var k :| 0 <= k < |table[1..]| && table[1..][k] == rest[j];
      }
    }
  }

  class PointLookupIterator {
    // The side's table at the moment the query runs, in key order.
    const table: seq<Row>
    const nPk: nat
    const fault: LookupFault
    // The slice of keys to look up: the first numPks elements of a backing array that is shared.
    const pks: array<Key>
    const numPks: nat

    var ran: bool
    var cache: seq<Row>
    var cacheCursor: nat
    var err: bool

    ghost predicate Valid()
      reads this
    {
      && numPks <= pks.Length
      && (forall r :: r in table ==> nPk <= |r|)
      && (!ran ==> cacheCursor == 0 && !err)
      && cacheCursor <= |cache|
    }

    /** Until the query has run, the answer depends on what the backing array then holds. */
    ghost function Rest(): Supply
      requires Valid()
      reads this, if ran then {} else {pks}
    {
      if !ran then LookupSupply(table, pks[..numPks], nPk, fault)
      else if err then Supply([], true)
      else Supply(cache[cacheCursor..], false)
    }

    constructor (table: seq<Row>, nPk: nat, fault: LookupFault, pks: array<Key>, numPks: nat)
      requires numPks <= pks.Length && forall r :: r in table ==> nPk <= |r|
      ensures Valid() && fresh(this) && !ran && this.pks == pks
      ensures Rest() == LookupSupply(table, pks[..numPks], nPk, fault)
    {
      this.table, this.nPk, this.fault, this.pks, this.numPks := table, nPk, fault, pks, numPks;
      ran, cache, cacheCursor, err := false, [], 0, false;
    }

    method HasNext() returns (has: bool)
      requires Valid()
      modifies this
      ensures Valid() && ran && Rest() == old(Rest())
      ensures has <==> Rest().rows != []
      ensures err == (!has && Rest().fails)
    {
      if !ran {
        ran := true;
        var keys := pks[..numPks];
        if keys == [] || fault.QueryFails? {
          err := true;
          return false;
        }
        var currRows := RowsOfKeys(table, keys, nPk);
        cache := if fault.CutShort? && fault.after < |currRows| then currRows[..fault.after] else currRows;
      }
      if err { return false; }
      has := cacheCursor < |cache|;
    }

    method Peek() returns (row: Row)
      requires Valid()
      modifies this
      ensures Valid() && ran && Rest() == old(Rest())
      ensures row == if Rest().rows == [] then [] else Rest().rows[0]
    {
      var has := HasNext();
      row := if has then cache[cacheCursor] else [];
    }

    method Next() returns (row: Row)
      requires Valid()
      modifies this
      ensures Valid() && ran
      ensures old(Rest().rows) == [] ==> row == [] && Rest() == old(Rest())
      ensures old(Rest().rows) != [] ==> row == old(Rest().rows)[0] && !err
      ensures old(Rest().rows) != [] ==> Rest() == Supply(old(Rest().rows)[1..], old(Rest().fails))
    {
      var has := HasNext();
      if has {
        row := cache[cacheCursor];
        cacheCursor := cacheCursor + 1;
      } else {
        row := [];
      }
    }
  }
}
