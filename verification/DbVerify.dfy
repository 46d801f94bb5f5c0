/** The comparison of the two databases' table lists. */
module DbVerify {
  import opened Seqs
  import opened Texts

  datatype DBTable = DBTable(schema: string, table: string, oid: nat)

  datatype Result = Result(verified: seq<(DBTable, DBTable)>, missing: seq<DBTable>, extraneous: seq<DBTable>)

  /** strings.Compare */
  function CompareText(a: string, b: string): int {
    if TextLess(a, b) then -1 else if TextLess(b, a) then 1 else 0
  }

  /** DBTable.Compare: by schema, then by table, both in lower case. */
  function Compare(a: DBTable, b: DBTable, lower: string -> string): int {
    var c := CompareText(lower(a.schema), lower(b.schema));
    if c != 0 then c else CompareText(lower(a.table), lower(b.table))
  }

  lemma CompareOrder(a: DBTable, b: DBTable, lower: string -> string)
    ensures -1 <= Compare(a, b, lower) <= 1 && Compare(a, b, lower) == -Compare(b, a, lower)
    ensures Compare(a, b, lower) == 0 <==> lower(a.schema) == lower(b.schema) && lower(a.table) == lower(b.table)
  {
    TextTotal(lower(a.schema), lower(b.schema));
    TextTotal(lower(a.table), lower(b.table));
  }

  lemma CompareTransitive(a: DBTable, b: DBTable, c: DBTable, lower: string -> string)
    requires Compare(a, b, lower) <= 0 && Compare(b, c, lower) < 0
    ensures Compare(a, c, lower) < 0
  {
    var (s, t, u) := (lower(a.schema), lower(b.schema), lower(c.schema));
    var (x, y, z) := (lower(a.table), lower(b.table), lower(c.table));
    TextTotal(s, t);
    TextTotal(t, u);
    TextTotal(x, y);
    TextTotal(y, z);
    if TextLess(s, t) && TextLess(t, u) {
      TextTransitive(s, t, u);
    }
    if TextLess(x, y) && TextLess(y, z) {
      TextTransitive(x, y, z);
    }
  }

  // ---- The merge ----

  function Compared(truth: seq<DBTable>, other: seq<DBTable>, lower: string -> string): Result
    decreases |truth| + |other|
  {
    if truth == [] then Result([], [], other)
    else if other != [] && Compare(other[0], truth[0], lower) < 0 then
      var r := Compared(truth, other[1..], lower);
      r.(extraneous := [other[0]] + r.extraneous)
    else if other != [] && Compare(other[0], truth[0], lower) == 0 then
      var r := Compared(truth[1..], other[1..], lower);
      r.(verified := [(truth[0], other[0])] + r.verified)
    else
      var r := Compared(truth[1..], other, lower);
      r.(missing := [truth[0]] + r.missing)
  }

  function Joined(a: Result, b: Result): Result {
    Result(a.verified + b.verified, a.missing + b.missing, a.extraneous + b.extraneous)
  }

  /** The two iterators advance by index; every step appends to one of the three lists. */
  method CompareTables(truth: seq<DBTable>, other: seq<DBTable>, lower: string -> string) returns (r: Result)
    ensures r == Compared(truth, other, lower)
  {
    r := Result([], [], []);
    var i, j := 0, 0;
    assert truth[0..] == truth && other[0..] == other;
    NothingYet(Compared(truth, other, lower));
    hide Compared, Compare, Joined;
    while i < |truth|
      invariant 0 <= i <= |truth| && 0 <= j <= |other|
      invariant Compared(truth, other, lower) == Joined(r, Compared(truth[i..], other[j..], lower))
      decreases |truth| - i + |other| - j
    {
      var compareVal := 1;
      if j < |other| {
        compareVal := Compare(other[j], truth[i], lower);
        CompareOrder(other[j], truth[i], lower);
      }
      StepAppends(r, truth[i..], other[j..], lower);
      assert truth[i..][1..] == truth[i + 1..];
      assert j < |other| ==> other[j..][1..] == other[j + 1..];
      match compareVal {
        case 0 =>
          r := r.(verified := r.verified + [(truth[i], other[j])]);
          i, j := i + 1, j + 1;
        case 1 =>
          r := r.(missing := r.missing + [truth[i]]);
          i := i + 1;
        case _ =>
          r := r.(extraneous := r.extraneous + [other[j]]);
          j := j + 1;
      }
    }
    assert truth[i..] == [];
    NoTruth(r, other[j..], lower);
    r := DrainOther(r, other, j);
  }

  /** Every table the other list still has is extraneous. */
  method DrainOther(r0: Result, other: seq<DBTable>, j0: nat) returns (r: Result)
    requires j0 <= |other|
    ensures r == Result(r0.verified, r0.missing, r0.extraneous + other[j0..])
  {
    r := r0;
    var j := j0;
    while j < |other|
      invariant j0 <= j <= |other| && r == Result(r0.verified, r0.missing, r0.extraneous + other[j0..j])
    {
      assert r0.extraneous + other[j0..j] + [other[j]] == r0.extraneous + other[j0..j + 1];
      r := r.(extraneous := r.extraneous + [other[j]]);
      j := j + 1;
    }
    assert other[j0..j] == other[j0..];
  }

  lemma NothingYet(r: Result)
    ensures Joined(Result([], [], []), r) == r
  {
  }

  lemma NoTruth(r: Result, other: seq<DBTable>, lower: string -> string)
    ensures Joined(r, Compared([], other, lower)) == Result(r.verified, r.missing, r.extraneous + other)
  {
  }

  lemma StepAppends(r: Result, truth: seq<DBTable>, other: seq<DBTable>, lower: string -> string)
    requires truth != []
    ensures other != [] && Compare(other[0], truth[0], lower) < 0 ==>
      Joined(r, Compared(truth, other, lower))
        == Joined(r.(extraneous := r.extraneous + [other[0]]), Compared(truth, other[1..], lower))
    ensures other != [] && Compare(other[0], truth[0], lower) == 0 ==>
      Joined(r, Compared(truth, other, lower))
        == Joined(r.(verified := r.verified + [(truth[0], other[0])]), Compared(truth[1..], other[1..], lower))
    ensures other == [] || Compare(other[0], truth[0], lower) > 0 ==>
      Joined(r, Compared(truth, other, lower)) == Joined(r.(missing := r.missing + [truth[0]]), Compared(truth[1..], other, lower))
  {
    if other != [] && Compare(other[0], truth[0], lower) < 0 {
      Associate(r.extraneous, [other[0]], Compared(truth, other[1..], lower).extraneous);
    } else if other != [] && Compare(other[0], truth[0], lower) == 0 {
      Associate(r.verified, [(truth[0], other[0])], Compared(truth[1..], other[1..], lower).verified);
    } else {
      Associate(r.missing, [truth[0]], Compared(truth[1..], other, lower).missing);
    }
  }

  // ---- Any lists: nothing is lost ----

  function Count<T(==)>(s: seq<T>, x: T): nat {
    if s == [] then 0 else (if s[0] == x then 1 else 0) + Count(s[1..], x)
  }

  function CountTruth(s: seq<(DBTable, DBTable)>, x: DBTable): nat {
    if s == [] then 0 else (if s[0].0 == x then 1 else 0) + CountTruth(s[1..], x)
  }

  function CountOther(s: seq<(DBTable, DBTable)>, x: DBTable): nat {
    if s == [] then 0 else (if s[0].1 == x then 1 else 0) + CountOther(s[1..], x)
  }

  /** Sorted or not: every table of either list is accounted for as often as it is there. */
  lemma {:induction false} ComparedConserves(truth: seq<DBTable>, other: seq<DBTable>, lower: string -> string, x: DBTable)
    ensures var r := Compared(truth, other, lower);
      && Count(truth, x) == CountTruth(r.verified, x) + Count(r.missing, x)
      && Count(other, x) == CountOther(r.verified, x) + Count(r.extraneous, x)
    decreases |truth| + |other|
  {
    if truth != [] {
      if other != [] && Compare(other[0], truth[0], lower) < 0 {
        ComparedConserves(truth, other[1..], lower, x);
        var r := Compared(truth, other[1..], lower);
        assert ([other[0]] + r.extraneous)[1..] == r.extraneous;
      } else if other != [] && Compare(other[0], truth[0], lower) == 0 {
        ComparedConserves(truth[1..], other[1..], lower, x);
        var r := Compared(truth[1..], other[1..], lower);
        assert ([(truth[0], other[0])] + r.verified)[1..] == r.verified;
      } else {
        ComparedConserves(truth[1..], other, lower, x);
        var r := Compared(truth[1..], other, lower);
        assert ([truth[0]] + r.missing)[1..] == r.missing;
      }
    }
  }

  // ---- Sorted lists: exactly the intersection and the differences ----

  ghost predicate Sorted(s: seq<DBTable>, lower: string -> string) {
    forall i, j :: 0 <= i < j < |s| ==> Compare(s[i], s[j], lower) < 0
  }

  ghost predicate Has(s: seq<DBTable>, x: DBTable, lower: string -> string) {
    exists y :: y in s && Compare(y, x, lower) == 0
  }

  /** A table before the head of a sorted list is not in it. */
  lemma BeforeAll(s: seq<DBTable>, x: DBTable, lower: string -> string)
    requires Sorted(s, lower) && (s == [] || Compare(x, s[0], lower) < 0)
    ensures !Has(s, x, lower)
  {
    forall y | y in s
      ensures Compare(y, x, lower) != 0
    {
      var i :| 0 <= i < |s| && s[i] == y;
      CompareOrder(y, x, lower);
      CompareOrder(x, s[0], lower);
      if i > 0 {
        CompareTransitive(x, s[0], y, lower);
      }
    }
  }

  /** A sorted list has no table of the head's name after its head. */
  lemma HeadOnce(s: seq<DBTable>, x: DBTable, lower: string -> string)
    requires Sorted(s, lower) && s != [] && Compare(s[0], x, lower) == 0
    ensures Has(s, x, lower) && !Has(s[1..], x, lower)
  {
    assert s[0] in s;
    forall y | y in s[1..]
      ensures Compare(y, x, lower) != 0
    {
      var i :| 0 <= i < |s| - 1 && s[1..][i] == y;
      assert Compare(s[0], s[i + 1], lower) < 0;
      CompareOrder(s[0], x, lower);
      CompareOrder(y, x, lower);
      CompareOrder(s[0], y, lower);
    }
  }

  lemma HasTail(s: seq<DBTable>, x: DBTable, lower: string -> string)
    requires s != [] && Compare(s[0], x, lower) != 0
    ensures Has(s, x, lower) <==> Has(s[1..], x, lower)
  {
    assert s == [s[0]] + s[1..];
    if y :| y in s && Compare(y, x, lower) == 0 {
      assert y in s[1..];
    }
  }

  lemma AfterHead(s: seq<DBTable>, x: DBTable, lower: string -> string)
    requires Sorted(s, lower) && s != [] && x in s
    ensures x == s[0] || (x in s[1..] && Compare(s[0], x, lower) < 0)
    ensures x == s[0] ==> x !in s[1..]
  {
    var i :| 0 <= i < |s| && s[i] == x;
    if i > 0 {
      assert s[1..][i - 1] == x;
    }
    CompareOrder(s[0], s[0], lower);
    forall k | 0 <= k < |s| - 1
      ensures s[1..][k] != s[0]
    {
      assert Compare(s[0], s[k + 1], lower) < 0;
    }
  }

  /** A table that comes before the head of a sorted list comes before all of it. */
  lemma BeforeHead(s: seq<DBTable>, a: DBTable, x: DBTable, lower: string -> string)
    requires Sorted(s, lower) && s != [] && Compare(a, s[0], lower) < 0 && x in s
    ensures Compare(a, x, lower) < 0 && Compare(x, a, lower) > 0
  {
    AfterHead(s, x, lower);
    if x != s[0] {
      CompareTransitive(a, s[0], x, lower);
    }
    CompareOrder(a, x, lower);
  }

  lemma ListTail(s: seq<DBTable>, x: DBTable)
    requires s != []
    ensures x in s <==> x == s[0] || x in s[1..]
  {
    assert s == [s[0]] + s[1..];
  }

  /** What the comparison of sorted lists says about two tables. */
  ghost predicate Judged(r: Result, truth: seq<DBTable>, other: seq<DBTable>, lower: string -> string, x: DBTable, y: DBTable) {
    && (x in r.missing <==> x in truth && !Has(other, x, lower))
    && (y in r.extraneous <==> y in other && !Has(truth, y, lower))
    && ((x, y) in r.verified <==> x in truth && y in other && Compare(x, y, lower) == 0)
  }

  lemma ExtraneousJudged(r: Result, truth: seq<DBTable>, other: seq<DBTable>, lower: string -> string, x: DBTable, y: DBTable)
    requires Sorted(truth, lower) && Sorted(other, lower) && truth != [] && other != [] && Compare(other[0], truth[0], lower) < 0
    requires Judged(r, truth, other[1..], lower, x, y)
    ensures Judged(r.(extraneous := [other[0]] + r.extraneous), truth, other, lower, x, y)
  {
    BeforeAll(truth, other[0], lower);
    ListTail(other, y);
    if x in truth {
      BeforeHead(truth, other[0], x, lower);
      HasTail(other, x, lower);
    }
  }

  lemma MissingJudged(r: Result, truth: seq<DBTable>, other: seq<DBTable>, lower: string -> string, x: DBTable, y: DBTable)
    requires Sorted(truth, lower) && Sorted(other, lower) && truth != [] && (other == [] || Compare(other[0], truth[0], lower) > 0)
    requires Judged(r, truth[1..], other, lower, x, y)
    ensures Judged(r.(missing := [truth[0]] + r.missing), truth, other, lower, x, y)
  {
    if other != [] {
      CompareOrder(other[0], truth[0], lower);
    }
    BeforeAll(other, truth[0], lower);
    ListTail(truth, x);
    if y in other {
      BeforeHead(other, truth[0], y, lower);
      HasTail(truth, y, lower);
    }
  }

  lemma SameNameBefore(a: DBTable, b: DBTable, x: DBTable, lower: string -> string)
    requires Compare(a, b, lower) == 0 && Compare(b, x, lower) < 0
    ensures Compare(a, x, lower) < 0 && Compare(x, a, lower) > 0
  {
    CompareOrder(a, b, lower);
    CompareOrder(a, x, lower);
    CompareOrder(b, x, lower);
  }

  lemma VerifiedJudged(r: Result, truth: seq<DBTable>, other: seq<DBTable>, lower: string -> string, x: DBTable, y: DBTable)
    requires Sorted(truth, lower) && Sorted(other, lower) && truth != [] && other != [] && Compare(other[0], truth[0], lower) == 0
    requires Judged(r, truth[1..], other[1..], lower, x, y)
    ensures Judged(r.(verified := [(truth[0], other[0])] + r.verified), truth, other, lower, x, y)
  {
    CompareOrder(other[0], truth[0], lower);
    HeadOnce(other, truth[0], lower);
    HeadOnce(truth, other[0], lower);
    ListTail(truth, x);
    ListTail(other, y);
    if x in truth {
      AfterHead(truth, x, lower);
      if x != truth[0] {
        SameNameBefore(other[0], truth[0], x, lower);
        HasTail(other, x, lower);
      }
    }
    if y in other {
      AfterHead(other, y, lower);
      if y != other[0] {
        SameNameBefore(truth[0], other[0], y, lower);
        HasTail(truth, y, lower);
      }
    }
  }

  /** On lists sorted strictly by case-insensitive name: a table of the truth is missing exactly if the other list
      does not have its name, a table of the other list is extraneous exactly if the truth does not have its, and
      two tables are verified together exactly if they have the same name. */
  lemma {:induction false} ComparedExactly(truth: seq<DBTable>, other: seq<DBTable>, lower: string -> string, x: DBTable, y: DBTable)
    requires Sorted(truth, lower) && Sorted(other, lower)
    ensures Judged(Compared(truth, other, lower), truth, other, lower, x, y)
    decreases |truth| + |other|
  {
    if truth != [] {
      hide Judged, Has, Compare;
      if other != [] && Compare(other[0], truth[0], lower) < 0 {
        ComparedExactly(truth, other[1..], lower, x, y);
        ExtraneousJudged(Compared(truth, other[1..], lower), truth, other, lower, x, y);
      } else if other != [] && Compare(other[0], truth[0], lower) == 0 {
        ComparedExactly(truth[1..], other[1..], lower, x, y);
        VerifiedJudged(Compared(truth[1..], other[1..], lower), truth, other, lower, x, y);
      } else {
        ComparedExactly(truth[1..], other, lower, x, y);
        MissingJudged(Compared(truth[1..], other, lower), truth, other, lower, x, y);
      }
    }
  }
}
