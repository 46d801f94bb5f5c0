/** Watermarks: a wall time and a logical counter in decimal, compared as text. */
module Watermarks {
  import opened Options
  import opened Texts

  type Watermark = string

  predicate AtMost(a: Option<Watermark>, b: Option<Watermark>) {
    a.None? || (b.Some? && !TextLess(b.value, a.value))
  }

  lemma AtMostTransitive(a: Option<Watermark>, b: Option<Watermark>, c: Option<Watermark>)
    requires AtMost(a, b) && AtMost(b, c)
    ensures AtMost(a, c)
  {
    if a.Some? && TextLess(c.value, a.value) {
      TextTotal(a.value, b.value);
      TextTotal(b.value, c.value);
      if b.value != c.value && a.value != b.value {
        TextTransitive(a.value, b.value, c.value);
        TextTotal(a.value, c.value);
      }
    }
  }

  // ---- Text order and time order ----

  predicate Digits(s: string) {
    forall i :: 0 <= i < |s| ==> '0' <= s[i] <= '9'
  }

  function NumberOf(s: string): nat
    requires Digits(s)
  {
    if s == [] then 0 else (s[0] as int - '0' as int) * Pow10(|s| - 1) + NumberOf(s[1..])
  }

  function Pow10(n: nat): nat {
    if n == 0 then 1 else 10 * Pow10(n - 1)
  }

  lemma {:induction false} NumberBound(s: string)
    requires Digits(s)
    ensures NumberOf(s) < Pow10(|s|)
  {
    if s != [] {
      NumberBound(s[1..]);
      assert (s[0] as int - '0' as int) * Pow10(|s| - 1) <= 9 * Pow10(|s| - 1);
    }
  }

  lemma LeadingDigit(x: int, y: int, p: int, u: int, v: int)
    requires x < y && 0 <= u < p && 0 <= v < p
    ensures x * p + u < y * p + v
  {
    assert (x + 1) * p <= y * p;
  }

  /** Numerals of equal width are ordered as numbers. */
  lemma {:induction false} TextIsNumeric(a: string, b: string)
    requires Digits(a) && Digits(b) && |a| == |b|
    ensures TextLess(a, b) <==> NumberOf(a) < NumberOf(b)
  {
    if a != [] {
      var x, y, p := a[0] as int - '0' as int, b[0] as int - '0' as int, Pow10(|a| - 1);
      var u, v := NumberOf(a[1..]), NumberOf(b[1..]);
      assert NumberOf(a) == x * p + u && NumberOf(b) == y * p + v;
      TextIsNumeric(a[1..], b[1..]);
      NumberBound(a[1..]);
      NumberBound(b[1..]);
      hide NumberOf, Digits, Pow10;
      if a[0] < b[0] {
        LeadingDigit(x, y, p, u, v);
      } else if b[0] < a[0] {
        LeadingDigit(y, x, p, v, u);
      }
    }
  }

  /** What a watermark says: 1776526353000000000.0000000001 has wall time 1776526353000000000 and counter 1. */
  datatype Stamp = Stamp(wall: string, logical: string)

  function Written(s: Stamp): Watermark {
    s.wall + "." + s.logical
  }

  /** The wall time is written without leading zeros, the counter is padded with zeros. */
  predicate HasWidths(s: Stamp, wall: nat, logical: nat) {
    && |s.wall| == wall && |s.logical| == logical && Digits(s.wall) && Digits(s.logical)
    && (|s.wall| > 1 ==> s.wall[0] != '0')
  }

  predicate Earlier(a: Stamp, b: Stamp)
    requires Digits(a.wall) && Digits(a.logical) && Digits(b.wall) && Digits(b.logical)
  {
    NumberOf(a.wall) < NumberOf(b.wall) || (NumberOf(a.wall) == NumberOf(b.wall) && NumberOf(a.logical) < NumberOf(b.logical))
  }

  lemma SameNumeral(a: string, b: string)
    requires Digits(a) && Digits(b) && |a| == |b|
    ensures a == b <==> NumberOf(a) == NumberOf(b)
  {
    TextIsNumeric(a, b);
    TextIsNumeric(b, a);
    TextTotal(a, b);
  }

  lemma EqualWidthsAgree(a: Stamp, b: Stamp, wall: nat, logical: nat)
    requires HasWidths(a, wall, logical) && HasWidths(b, wall, logical)
    ensures TextLess(Written(a), Written(b)) <==> Earlier(a, b)
  {
    assert Written(a) == a.wall + ("." + a.logical) && Written(b) == b.wall + ("." + b.logical);
    TextLessAppend(a.wall, b.wall, "." + a.logical, "." + b.logical);
    TextLessAppend(".", ".", a.logical, b.logical);
    TextTotal(".", ".");
    TextIsNumeric(a.wall, b.wall);
    SameNumeral(a.wall, b.wall);
    TextIsNumeric(a.logical, b.logical);
  }

  function Fill(n: nat, digit: char): (s: string)
    requires '0' <= digit <= '9'
    ensures |s| == n && Digits(s)
  {
    seq(n, _ => digit)
  }

  lemma {:induction false} Pow10Grows(m: nat, n: nat)
    requires m <= n
    ensures 0 < Pow10(m) <= Pow10(n)
  {
    if m < n {
      Pow10Grows(m, n - 1);
    } else if m > 0 {
      Pow10Grows(m - 1, m - 1);
    }
  }

  lemma AtLeastOnce(digit: int, p: int)
    requires digit >= 1 && p >= 0
    ensures digit * p >= p
  {
  }

  lemma LeadingPower(b: string)
    requires Digits(b) && b != [] && b[0] != '0'
    ensures Pow10(|b| - 1) <= NumberOf(b)
  {
    var digit, p := b[0] as int - '0' as int, Pow10(|b| - 1);
    assert digit >= 1;
    assert NumberOf(b) == digit * p + NumberOf(b[1..]);
    hide NumberOf, Pow10, Digits;
    AtLeastOnce(digit, p);
  }

  /** The longer of two wall times is the later, whatever their text says. */
  lemma LongerIsLater(a: string, b: string)
    requires Digits(a) && Digits(b) && |a| < |b| && b[0] != '0'
    ensures NumberOf(a) < NumberOf(b)
  {
    NumberBound(a);
    Pow10Grows(|a|, |b| - 1);
    LeadingPower(b);
  }

  /** Wall times of different widths on which text and time disagree: all nines against a one and zeros. */
  lemma WallsDisagree(wall: nat, wall': nat, logical: nat, logical': nat) returns (a: Stamp, b: Stamp)
    requires wall > 0 && wall' > 0 && wall != wall'
    ensures HasWidths(a, wall, logical) && HasWidths(b, wall', logical')
    ensures TextLess(Written(a), Written(b)) <==> !Earlier(a, b)
  {
    var nines, one := Fill(if wall < wall' then wall else wall', '9'), "1" + Fill((if wall < wall' then wall' else wall) - 1, '0');
    LongerIsLater(nines, one);
    if wall < wall' {
      a, b := Stamp(nines, Fill(logical, '0')), Stamp(one, Fill(logical', '0'));
    } else {
      a, b := Stamp(one, Fill(logical, '0')), Stamp(nines, Fill(logical', '0'));
    }
    assert Written(a)[0] == a.wall[0] && Written(b)[0] == b.wall[0];
  }

  lemma {:induction false} ZerosAreNothing(n: nat, s: string)
    requires Digits(s)
    ensures Digits(Fill(n, '0') + s) && NumberOf(Fill(n, '0') + s) == NumberOf(s)
  {
    if n == 0 {
      assert Fill(n, '0') + s == s;
    } else {
      var all, rest := Fill(n, '0') + s, Fill(n - 1, '0') + s;
      ZerosAreNothing(n - 1, s);
      assert all[1..] == rest && all[0] == '0';
      assert 0 * Pow10(|all| - 1) == 0;
    }
  }

  /** Counters of different widths that text tells apart and time does not. */
  lemma LogicalsDisagree(logical: nat, logical': nat) returns (a: string, b: string)
    requires logical != logical' && logical' > 0
    ensures Digits(a) && |a| == logical && Digits(b) && |b| == logical'
    ensures NumberOf(a) == NumberOf(b) && TextLess(a, b)
  {
    if logical < logical' {
      a, b := Fill(logical, '0'), Fill(logical', '0');
      ZerosAreNothing(logical, "");
      ZerosAreNothing(logical', "");
      assert Fill(logical, '0') + "" == a && Fill(logical', '0') + "" == b;
      var zeros := Fill(logical' - logical, '0');
      assert b == a + zeros && a == a + "";
      TextLessAppend(a, a, "", zeros);
    } else {
      var n := logical' - 1;
      var rest := Fill(logical - logical', '0');
      a, b := Fill(logical - 1, '0') + "1", Fill(n, '0') + "1";
      ZerosAreNothing(logical - 1, "1");
      ZerosAreNothing(n, "1");
      assert a == Fill(n, '0') + (rest + "1");
      TextLessAppend(Fill(n, '0'), Fill(n, '0'), rest + "1", "1");
      assert (rest + "1")[0] == '0';
    }
  }

  /** Text order is time order on watermarks of given widths exactly when the widths are the same. */
  lemma WidthsDecide(wall: nat, wall': nat, logical: nat, logical': nat)
    requires wall > 0 && wall' > 0 && logical > 0 && logical' > 0
    ensures (forall a, b :: HasWidths(a, wall, logical) && HasWidths(b, wall', logical') ==>
               (TextLess(Written(a), Written(b)) <==> Earlier(a, b)))
      <==> wall == wall' && logical == logical'
  {
    if wall != wall' {
      var a, b := WallsDisagree(wall, wall', logical, logical');
    } else if logical != logical' {
      var l, l' := LogicalsDisagree(logical, logical');
      var a, b := Stamp(Fill(wall, '1'), l), Stamp(Fill(wall, '1'), l');
      assert HasWidths(a, wall, logical) && HasWidths(b, wall', logical');
      assert Written(a) == (a.wall + ".") + l && Written(b) == (a.wall + ".") + l';
      TextLessAppend(a.wall + ".", a.wall + ".", l, l');
    } else {
      forall a, b | HasWidths(a, wall, logical) && HasWidths(b, wall', logical')
        ensures TextLess(Written(a), Written(b)) <==> Earlier(a, b)
      {
        EqualWidthsAgree(a, b, wall, logical);
      }
    }
  }
}
