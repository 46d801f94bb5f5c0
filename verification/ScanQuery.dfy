/** The query behind one page of a table scan: a WHERE clause with at most one lower
    and one upper bound on the leading columns, answered in key order. */
module ScanQuery {
  import opened Keys

  datatype Bound = NoBound | GT(vals: Key) | GE(vals: Key) | LT(vals: Key)

  datatype Where = Where(left: Bound, right: Bound)

  /** The SQL row comparison (col_0, .., col_k) op (v_0, .., v_k) on the first selected columns.
      A bound wider than the row is never generated; it is taken to hold of nothing. */
  predicate Holds(b: Bound, r: Row) {
    match b
    case NoBound => true
    case GT(vals) => |vals| <= |r| && KeyCompare(r, vals) > 0
    case GE(vals) => |vals| <= |r| && KeyCompare(r, vals) >= 0
    case LT(vals) => |vals| <= |r| && KeyCompare(r, vals) < 0
  }

  predicate Admits(w: Where, r: Row) {
    Holds(w.left, r) && Holds(w.right, r)
  }

  /** A lower bound of a page over keys of n columns. */
  predicate IsLower(b: Bound, n: nat) {
    b.NoBound? || (b.GE? && |b.vals| <= n) || (b.GT? && |b.vals| == n)
  }

  /** A cursor, when there is one, replaces the start bound; an end bound is always kept. */
  function Generate(pkCursor: Key, start: Key, end: Key): Where {
    Where(
      if pkCursor != [] then GT(pkCursor) else if start != [] then GE(start) else NoBound,
      if end != [] then LT(end) else NoBound)
  }

  /** The rows a query answers, in table order. */
  function Select(rows: seq<Row>, w: Where): seq<Row> {
    if rows == [] then []
    else (if Admits(w, rows[0]) then [rows[0]] else []) + Select(rows[1..], w)
  }

  lemma {:induction false} SelectMember(rows: seq<Row>, w: Where, r: Row)
    ensures r in Select(rows, w) <==> r in rows && Admits(w, r)
  {
    if rows != [] {
      SelectMember(rows[1..], w, r);
    }
  }

  /** LIMIT. */
  function Take(rows: seq<Row>, limit: nat): seq<Row> {
    if |rows| <= limit then rows else rows[..limit]
  }

  /** The lower bound of a page never excludes a row after one that it admits. */
  lemma LowerBoundUpward(b: Bound, r: Row, later: Row, n: nat)
    requires n <= |r| && n <= |later| && KeyLess(r[..n], later[..n])
    requires IsLower(b, n) && Holds(b, r)
    ensures Holds(b, later)
  {
    if b != NoBound {
      ComparePrefix(r, b.vals, n);
      ComparePrefix(later, b.vals, n);
      CompareSigns(later, b.vals);
      if KeyCompare(later, b.vals) <= 0 {
        CompareTrans(r[..n], later[..n], b.vals);
      }
    }
  }

  lemma {:induction false} SelectPointwise(rows: seq<Row>, w1: Where, w2: Where)
    requires forall r :: r in rows ==> (Admits(w1, r) == Admits(w2, r))
    ensures Select(rows, w1) == Select(rows, w2)
  {
    if rows != [] {
      assert rows[0] in rows;
      SelectPointwise(rows[1..], w1, w2);
    }
  }

  lemma FirstIsLeast(rows: seq<Row>, n: nat, q: Row)
    requires SortedRows(rows, n) && rows != [] && q in rows[1..]
    ensures |q| >= n && |rows[0]| >= n && KeyLess(rows[0][..n], q[..n])
  {
    var k :| 0 <= k < |rows[1..]| && rows[1..][k] == q;
    assert rows[k + 1] == q;
  }

  /** Selecting keeps the key order. */
  lemma {:induction false} SelectSorted(rows: seq<Row>, w: Where, n: nat)
    requires SortedRows(rows, n)
    ensures SortedRows(Select(rows, w), n)
  {
    if rows != [] {
      SelectSorted(rows[1..], w, n);
      var rest := Select(rows[1..], w);
      forall j | 0 <= j < |rest|
        ensures |rows[0]| >= n && |rest[j]| >= n && KeyLess(rows[0][..n], rest[j][..n])
      {
        SelectMember(rows[1..], w, rest[j]);
        FirstIsLeast(rows, n, rest[j]);
      }
    }
  }

  /** After the first row is taken as cursor, the remaining rows pass exactly as before. */
  lemma AfterFirst(rows: seq<Row>, w: Where, n: nat)
    requires SortedRows(rows, n) && IsLower(w.left, n)
    requires rows != [] && |rows[0]| >= n && Admits(w, rows[0])
    ensures Select(rows, Where(GT(rows[0][..n]), w.right)) == Select(rows[1..], w)
  {
    var r, rest := rows[0], rows[1..];
    var w2 := Where(GT(r[..n]), w.right);
    CompareSigns(r, r[..n]);
    forall q | q in rest
      ensures Admits(w2, q) == Admits(w, q)
    {
      FirstIsLeast(rows, n, q);
      LowerBoundUpward(w.left, r, q, n);
      CompareFlip(q[..n], r[..n]);
      ComparePrefix(q, r[..n], n);
    }
    SelectPointwise(rest, w, w2);
  }

  /** A row before the cursor row does not come back. */
  lemma BeforeCursor(rows: seq<Row>, n: nat, last: Row, right: Bound)
    requires SortedRows(rows, n) && rows != [] && last in rows[1..]
    ensures |last| >= n && !Admits(Where(GT(last[..n]), right), rows[0])
  {
    FirstIsLeast(rows, n, last);
    ComparePrefix(rows[0], last[..n], n);
  }

  /** Continuing after row i of an answer yields exactly the rest of that answer:
      replacing the start bound by the cursor loses nothing and repeats nothing. */
  lemma {:induction false} AfterCursor(rows: seq<Row>, w: Where, i: nat, n: nat)
    requires SortedRows(rows, n) && IsLower(w.left, n)
    requires i < |Select(rows, w)| && |Select(rows, w)[i]| >= n
    ensures Select(rows, Where(GT(Select(rows, w)[i][..n]), w.right)) == Select(rows, w)[i + 1..]
  {
    hide Holds, KeyLess;
    var rest := Select(rows[1..], w);
    if !Admits(w, rows[0]) {
      SelectMember(rows[1..], w, rest[i]);
      BeforeCursor(rows, n, rest[i], w.right);
      AfterCursor(rows[1..], w, i, n);
    } else if i == 0 {
      AfterFirst(rows, w, n);
    } else {
      assert Select(rows, w)[i] == rest[i - 1];
      SelectMember(rows[1..], w, rest[i - 1]);
      BeforeCursor(rows, n, rest[i - 1], w.right);
      AfterCursor(rows[1..], w, i - 1, n);
    }
  }
}
