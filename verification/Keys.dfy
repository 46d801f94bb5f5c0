/** Column values, rows and primary keys as the row verifier compares them.

    A key is the list of a row's leading columns.  Keys are compared column by
    column, the first difference deciding, which is both what the merge join does
    in Go and what a SQL row comparison such as (a, b) > (1, 2) means. */
module Keys {

  /** A floating-point number; finite ones are their exact values. */
  datatype Float = NaN | MinusInfinity | Finite(x: real) | PlusInfinity

  /** A non-null column value.  Integers, floating-point numbers and UUIDs are kept apart
      because shards are cut on them; every other ordered type is represented by a rank,
      since any countable order embeds in the reals. */
  datatype Datum = DInt(n: int) | DUuid(hi: int, lo: nat) | DFloat(f: Float) | DOther(rank: real)

  type Key = seq<Datum>
  type Row = seq<Datum>

  /** NaN comes first. */
  predicate FloatLess(a: Float, b: Float) {
    match (a, b)
    case (NaN, _) => b != NaN
    case (_, NaN) => false
    case (Finite(x), Finite(y)) => x < y
    case (MinusInfinity, _) => b != MinusInfinity
    case (_, PlusInfinity) => a != PlusInfinity
    case _ => false
  }

  predicate DatumLess(a: Datum, b: Datum) {
    match (a, b)
    case (DInt(x), DInt(y)) => x < y
    case (DInt(_), _) => true
    case (DUuid(_, _), DInt(_)) => false
    case (DUuid(h1, l1), DUuid(h2, l2)) => h1 < h2 || (h1 == h2 && l1 < l2)
    case (DUuid(_, _), _) => true
    case (DFloat(x), DFloat(y)) => FloatLess(x, y)
    case (DFloat(_), DOther(_)) => true
    case (DFloat(_), _) => false
    case (DOther(x), DOther(y)) => x < y
    case (DOther(_), _) => false
  }

  /** Datum.Compare: -1, 0 or 1. */
  function CompareDatum(a: Datum, b: Datum): int {
    if DatumLess(a, b) then -1 else if DatumLess(b, a) then 1 else 0
  }

  /** Compares the leading |b| columns of a with b. */
  function KeyCompare(a: Row, b: Key): int
    requires |b| <= |a|
  {
    if b == [] then 0
    else
      var c := CompareDatum(a[0], b[0]);
      if c != 0 then c else KeyCompare(a[1..], b[1..])
  }

  predicate KeyLess(a: Key, b: Key)
    requires |a| == |b|
  {
    KeyCompare(a, b) < 0
  }

  lemma CompareDatumOrder(a: Datum, b: Datum, c: Datum)
    ensures CompareDatum(a, b) == -CompareDatum(b, a)
    ensures CompareDatum(a, b) == 0 <==> a == b
    ensures CompareDatum(a, b) <= 0 && CompareDatum(b, c) <= 0 ==> CompareDatum(a, c) <= 0
    ensures CompareDatum(a, b) < 0 && CompareDatum(b, c) <= 0 ==> CompareDatum(a, c) < 0
    ensures CompareDatum(a, b) <= 0 && CompareDatum(b, c) < 0 ==> CompareDatum(a, c) < 0
  {
  }

  lemma {:induction false} CompareSigns(a: Row, b: Key)
    requires |b| <= |a|
    ensures -1 <= KeyCompare(a, b) <= 1
    ensures KeyCompare(a, b) == 0 <==> a[..|b|] == b
  {
    if b != [] {
      CompareDatumOrder(a[0], b[0], b[0]);
      CompareSigns(a[1..], b[1..]);
      assert a[..|b|] == [a[0]] + a[1..][..|b| - 1];
      assert b == [b[0]] + b[1..];
    }
  }

  /** Only the compared columns matter. */
  lemma {:induction false} ComparePrefix(a: Row, b: Key, n: nat)
    requires |b| <= n <= |a|
    ensures KeyCompare(a, b) == KeyCompare(a[..n], b)
  {
    if b != [] {
      ComparePrefix(a[1..], b[1..], n - 1);
      assert a[..n][1..] == a[1..][..n - 1];
    }
  }

  lemma {:induction false} CompareFlip(a: Key, b: Key)
    requires |a| == |b|
    ensures KeyCompare(a, b) == -KeyCompare(b, a)
  {
    if b != [] {
      CompareDatumOrder(a[0], b[0], b[0]);
      CompareFlip(a[1..], b[1..]);
    }
  }

  /** Transitivity, where the last key may be shorter: it then bounds a prefix. */
  lemma {:induction false} CompareTrans(a: Key, b: Key, c: Key)
    requires |c| <= |a| == |b|
    requires KeyCompare(a, b) <= 0 && KeyCompare(b, c) <= 0
    ensures KeyCompare(a, c) <= 0
    ensures KeyCompare(b, c) < 0 ==> KeyCompare(a, c) < 0
    ensures |b| == |c| && KeyCompare(a, b) < 0 ==> KeyCompare(a, c) < 0
  {
    if c != [] {
      CompareDatumOrder(a[0], b[0], c[0]);
      if CompareDatum(a[0], b[0]) == 0 && CompareDatum(b[0], c[0]) == 0 {
        CompareDatumOrder(a[0], b[0], a[0]);
        CompareTrans(a[1..], b[1..], c[1..]);
      }
    }
  }

  /** Rows in strictly increasing order of their first n columns. */
  ghost predicate SortedRows(rows: seq<Row>, n: nat) {
    && (forall i :: 0 <= i < |rows| ==> n <= |rows[i]|)
    && (forall i, j :: 0 <= i < j < |rows| ==> KeyLess(rows[i][..n], rows[j][..n]))
  }
}
