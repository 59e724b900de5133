/** The deterministic omission schedule of client/node.py, over exact arithmetic. */
module DropSchedule {

  /** n * percentage / 100 */
  function Share(n: nat, percentage: real): real {
    n as real * percentage / 100.0
  }

  function Quota(n: nat, percentage: real): int {
    Share(n, percentage).Floor
  }

  /** omitted_by_drop */
  predicate OmittedByDrop(sequence: nat, percentage: real) {
    Quota(sequence + 1, percentage) > Quota(sequence, percentage)
  }

  /** How many of the first `n` attempts the schedule omits. */
  function Omissions(n: nat, percentage: real): nat {
    if n == 0 then 0 else Omissions(n - 1, percentage) + if OmittedByDrop(n - 1, percentage) then 1 else 0
  }

  function Ceiling(x: real): int {
    -(-x).Floor
  }

  lemma {:induction false} FloorOfSum(x: real, y: real)
    ensures x.Floor + y.Floor <= (x + y).Floor <= x.Floor + Ceiling(y)
  {
    var c := Ceiling(y);
    assert y <= c as real;
    assert x.Floor as real <= x && y.Floor as real <= y;
    assert (x.Floor + y.Floor) as real <= x + y;
    assert x + y < (x.Floor + 1 + c) as real;
  }

  lemma {:induction false} SharesAdd(a: nat, m: nat, percentage: real)
    ensures Share(a + m, percentage) == Share(a, percentage) + Share(m, percentage)
  {
    assert (a + m) as real * percentage == a as real * percentage + m as real * percentage;
  }

  /** How the quota of a + m attempts splits at a. */
  lemma {:induction false} QuotaOfSum(a: nat, m: nat, percentage: real)
    ensures Quota(m, percentage) <= Quota(a + m, percentage) - Quota(a, percentage) <= Ceiling(Share(m, percentage))
  {
    SharesAdd(a, m, percentage);
    FloorOfSum(Share(a, percentage), Share(m, percentage));
  }

  lemma {:induction false} QuotaStep(n: nat, percentage: real)
    requires 0.0 <= percentage <= 100.0
    ensures Quota(n, percentage) <= Quota(n + 1, percentage) <= Quota(n, percentage) + 1
  {
    QuotaOfSum(n, 1, percentage);
    assert 0.0 <= Share(1, percentage) <= 1.0;
  }

  /** How often a quota steps up while n attempts are made: what the same comparison omits
      in any arithmetic. */
  function Steps(quota: nat -> int, n: nat): nat {
    if n == 0 then 0 else Steps(quota, n - 1) + if quota(n) > quota(n - 1) then 1 else 0
  }

  /** In any arithmetic in which the quota never falls and never jumps, rounded or exact, the
      omissions are what the quota has grown by. */
  lemma {:induction false} StepsMeetQuota(quota: nat -> int, n: nat)
    requires forall k: nat | k < n :: quota(k) <= quota(k + 1) <= quota(k) + 1
    ensures Steps(quota, n) == quota(n) - quota(0)
  {
    if n > 0 {
      StepsMeetQuota(quota, n - 1);
      assert quota(n - 1) <= quota(n - 1 + 1) <= quota(n - 1) + 1;
    }
  }

  /** Exactly floor(n * P / 100) of the first n attempts are omitted. */
  lemma {:induction false} OmissionsMeetQuota(n: nat, percentage: real)
    requires 0.0 <= percentage <= 100.0
    ensures Omissions(n, percentage) == Quota(n, percentage)
  {
    if n > 0 {
      OmissionsMeetQuota(n - 1, percentage);
      QuotaStep(n - 1, percentage);
    }
  }

  /** p added up n times. */
  function Times(n: nat, p: real): real {
    if n == 0 then 0.0 else Times(n - 1, p) + p
  }

  lemma {:induction false} TimesIsProduct(n: nat, p: real)
    ensures Times(n, p) == n as real * p
  {
    if n > 0 {
      TimesIsProduct(n - 1, p);
      assert n as real * p == (n - 1) as real * p + p;
    }
  }

  lemma {:induction false} TimesAdd(a: nat, m: nat, p: real)
    ensures Times(a + m, p) == Times(a, p) + Times(m, p)
  {
    if m > 0 {
      TimesAdd(a, m - 1, p);
    }
  }

  /** 100 * omitted is the greatest multiple of 100 not above percentage * n. */
  predicate KeepsUp(omitted: int, n: nat, percentage: real) {
    omitted as real * 100.0 <= Times(n, percentage) < (omitted + 1) as real * 100.0
  }

  lemma {:induction false} QuotaKeepsUp(n: nat, percentage: real)
    ensures KeepsUp(Quota(n, percentage), n, percentage)
  {
    TimesIsProduct(n, percentage);
    FloorOfPercent(n as real * percentage);
  }

  lemma {:induction false} FloorOfPercent(x: real)
    ensures var n := (x / 100.0).Floor; n as real * 100.0 <= x < (n + 1) as real * 100.0
  {
  }

  /** The same without naming the quota: the omissions of n attempts never exceed n * P / 100
      and are never a whole omission behind it. */
  lemma {:induction false} OmissionsTrackPercentage(n: nat, percentage: real)
    requires 0.0 <= percentage <= 100.0
    ensures KeepsUp(Omissions(n, percentage), n, percentage)
    ensures Omissions(n, percentage) as real * 100.0 <= n as real * percentage
    ensures n as real * percentage < (Omissions(n, percentage) + 1) as real * 100.0
  {
    OmissionsMeetQuota(n, percentage);
    QuotaKeepsUp(n, percentage);
    TimesIsProduct(n, percentage);
  }

  lemma {:induction false} OmissionsKeepUp(n: nat, percentage: real)
    requires 0.0 <= percentage <= 100.0
    ensures KeepsUp(Omissions(n, percentage), n, percentage)
  {
    OmissionsTrackPercentage(n, percentage);
  }

  /** In any window of m attempts the omissions are less than one away from m * P / 100. */
  lemma {:induction false} WindowsTrackPercentage(a: nat, m: nat, percentage: real)
    requires 0.0 <= percentage <= 100.0
    ensures var omitted := Omissions(a + m, percentage) - Omissions(a, percentage);
            -100.0 < omitted as real * 100.0 - Times(m, percentage) < 100.0
  {
    OmissionsKeepUp(a, percentage);
    OmissionsKeepUp(a + m, percentage);
    TimesAdd(a, m, percentage);
  }

  /** Every window of m attempts omits floor(m * P / 100) or the next integer up. */
  lemma {:induction false} EveryWindowIsFair(a: nat, m: nat, percentage: real)
    requires 0.0 <= percentage <= 100.0
    ensures Share(m, percentage).Floor
            <= Omissions(a + m, percentage) - Omissions(a, percentage)
            <= Ceiling(Share(m, percentage))
  {
    OmissionsMeetQuota(a, percentage);
    OmissionsMeetQuota(a + m, percentage);
    QuotaOfSum(a, m, percentage);
  }
}
