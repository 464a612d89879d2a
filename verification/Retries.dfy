/** Bounded retry with a wait before every attempt but the first, as both the analytics client
    and the message consumer do it. */
module Retries {

  /** How an attempt ends; a fatal failure is not retried. */
  datatype Outcome = Succeeded | Failed | Fatal

  /** The loop made `calls` attempts, no more and no fewer than it should: each but the last
      failed, no wait between them was cut short, and then there was a reason to stop. */
  ghost predicate IsRun(maxRetries: int, outcome: nat -> Outcome, cancelled: nat -> bool, calls: nat) {
    && calls <= (if maxRetries < 0 then 0 else maxRetries + 1)
    && (forall i: nat | i + 1 < calls :: outcome(i) == Failed)
    && (forall i: nat | 0 < i < calls :: !cancelled(i))
    && (calls > 0 && outcome(calls - 1) == Failed ==> calls > maxRetries || cancelled(calls))
    && (calls == 0 ==> maxRetries < 0)
  }

  ghost predicate SucceedsAt(outcome: nat -> Outcome, calls: nat) {
    calls > 0 && outcome(calls - 1) == Succeeded
  }

  /** Work that succeeds within the limit is reported as done if no wait is cut short before. */
  lemma SuccessIsFound(maxRetries: int, outcome: nat -> Outcome, cancelled: nat -> bool, calls: nat, k: nat)
    requires IsRun(maxRetries, outcome, cancelled, calls)
    requires k <= maxRetries && outcome(k) == Succeeded
    requires forall i: nat | i < k :: outcome(i) == Failed
    requires forall i: nat | 0 < i <= k :: !cancelled(i)
    ensures calls == k + 1 && SucceedsAt(outcome, calls)
  {}

  /** The limit allows one call more than its name says, and that many are made exactly if all
      before the last fail and no wait is cut short. */
  lemma AllCallsIff(maxRetries: nat, outcome: nat -> Outcome, cancelled: nat -> bool, calls: nat)
    requires IsRun(maxRetries, outcome, cancelled, calls)
    ensures calls == maxRetries + 1 <==>
            && (forall i: nat | i < maxRetries :: outcome(i) == Failed)
            && (forall i: nat | 0 < i <= maxRetries :: !cancelled(i))
  {
    assert outcome(calls - 1) == Failed || outcome(calls - 1) != Failed;
  }

  /** Work that always fails is called MaxRetries + 1 times. */
  lemma OneMoreThanMaxRetries(maxRetries: nat)
    ensures IsRun(maxRetries, (_: nat) => Failed, (_: nat) => false, maxRetries + 1)
  {}

  /** A context that has ended before the first wait leaves one call, whatever the limit. */
  lemma EndedContextAllowsOneCall(maxRetries: nat, outcome: nat -> Outcome, cancelled: nat -> bool, calls: nat)
    requires IsRun(maxRetries, outcome, cancelled, calls) && cancelled(1)
    ensures calls == 1 && (SucceedsAt(outcome, calls) <==> outcome(0) == Succeeded)
  {}

  /** The analytics client's helper: cancelled(k) says that the context ended while it waited
      before attempt k, and a fatal outcome is a context error from the work itself. */
  method WithRetry(maxRetries: int, outcome: nat -> Outcome, cancelled: nat -> bool) returns (ok: bool, calls: nat)
    ensures IsRun(maxRetries, outcome, cancelled, calls)
    ensures ok <==> SucceedsAt(outcome, calls)
  {
    calls := 0;
    var attempt := 0;
    while attempt <= maxRetries
      invariant calls == attempt && (maxRetries >= 0 ==> attempt <= maxRetries + 1)
      invariant maxRetries < 0 ==> attempt == 0
      invariant forall i: nat | i < calls :: outcome(i) == Failed
      invariant forall i: nat | 0 < i < calls :: !cancelled(i)
    {
      if attempt > 0 && cancelled(attempt) { return false, calls; }
      calls := calls + 1;
      if outcome(attempt) == Succeeded { return true, calls; }
      if outcome(attempt) == Fatal { return false, calls; }
      attempt := attempt + 1;
    }
    return false, calls;
  }
}
