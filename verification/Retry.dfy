/** Bounded retries with a growing pause. */
module Retries {
  datatype Settings = Settings(initialBackoff: int, multiplier: int, maxBackoff: int, maxRetries: nat)

  /** Settings.Verify */
  predicate Verified(s: Settings) {
    && s.initialBackoff > 0
    && s.multiplier >= 1
    && !(s.maxBackoff > 0 && s.initialBackoff > s.maxBackoff)
  }

  function Pow(base: int, exp: nat): int {
    if exp == 0 then 1 else base * Pow(base, exp - 1)
  }

  /** The pause that follows attempt number iteration. */
  function Backoff(s: Settings, iteration: nat): int {
    var d := s.initialBackoff * Pow(s.multiplier, iteration);
    if s.maxBackoff > 0 && d > s.maxBackoff then s.maxBackoff else d
  }

  lemma {:induction false} PowGrows(base: int, exp: nat)
    requires base >= 1
    ensures 1 <= Pow(base, exp) <= Pow(base, exp + 1)
  {
    if exp > 0 {
      PowGrows(base, exp - 1);
    }
    var p := Pow(base, exp);
    assert base * p >= p by { MulMonotone(1, base, p); }
  }

  lemma MulMonotone(x: int, y: int, p: int)
    requires x <= y && p >= 0
    ensures x * p <= y * p
  {
  }

  /** With verified settings every pause is positive, no shorter than the one before,
      and within the cap. */
  lemma BackoffGrows(s: Settings, iteration: nat)
    requires Verified(s)
    ensures s.initialBackoff <= Backoff(s, iteration) <= Backoff(s, iteration + 1)
    ensures s.maxBackoff > 0 ==> Backoff(s, iteration) <= s.maxBackoff
  {
    PowGrows(s.multiplier, iteration);
    MulMonotone(1, Pow(s.multiplier, iteration), s.initialBackoff);
    MulMonotone(Pow(s.multiplier, iteration), Pow(s.multiplier, iteration + 1), s.initialBackoff);
  }

  /** Whether a failed attempt number iteration is followed by another one. */
  predicate Continues(s: Settings, iteration: nat) {
    s.maxRetries == 0 || iteration < s.maxRetries
  }

  /** The sum of the pauses before attempt number n + 1, counted from the retry's start. */
  function Waited(s: Settings, n: nat): int {
    if n == 0 then s.initialBackoff else Waited(s, n - 1) + Backoff(s, n)
  }

  /** Repeats an action until it succeeds or the retries are used up; succeeds(n) is the outcome of attempt
      number n.  Without a bound on the retries the loop ends because some attempt succeeds. */
  method Do(s: Settings, startTime: int, succeeds: nat -> bool) returns (ok: bool, iteration: nat, nextRetry: int)
    requires Verified(s) && (s.maxRetries > 0 || exists n :: n >= 1 && succeeds(n))
    ensures iteration >= 1 && forall n :: 1 <= n < iteration ==> !succeeds(n)
    ensures ok == succeeds(iteration) && (s.maxRetries > 0 ==> iteration <= s.maxRetries)
    ensures !ok ==> iteration == s.maxRetries
    ensures nextRetry == startTime + Waited(s, iteration - 1)
  {
    ghost var last := s.maxRetries;
    if s.maxRetries == 0 {
      last :| last >= 1 && succeeds(last);
    }
    iteration, nextRetry := 1, startTime + s.initialBackoff;
    while true
      invariant 1 <= iteration <= last && forall n :: 1 <= n < iteration ==> !succeeds(n)
      invariant nextRetry == startTime + Waited(s, iteration - 1)
      decreases last - iteration
    {
      ok := succeeds(iteration);
      if ok {
        return;
      }
      if !Continues(s, iteration) {
        return;
      }
      nextRetry := nextRetry + Backoff(s, iteration);
      iteration := iteration + 1;
    }
  }
}
