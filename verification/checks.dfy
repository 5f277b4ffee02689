/** A handler as a reference table: the ordered list of its checks, each
    naming where the handler stops if that check fails. The handler stops at
    the first failing check, or completes when all pass. Each handler proves
    that its step-by-step definition agrees with its table. */
module Checks {

  datatype Check<S> = Check(stop: S, passed: bool)

  /** Where a run of `checks` stops: the first failed check's stop, or `done`. */
  function FirstFailed<S>(checks: seq<Check<S>>, done: S): S
  {
    FirstFailedFrom(checks, done, 0)
  }

  /** Where a run of `checks` that starts at check `i` stops. */
  function FirstFailedFrom<S>(checks: seq<Check<S>>, done: S, i: nat): S
    requires i <= |checks|
    decreases |checks| - i
  {
    if i == |checks| then done
    else if !checks[i].passed then checks[i].stop
    else FirstFailedFrom(checks, done, i + 1)
  }

  /** A run stops at check `k` exactly when `k` fails and every earlier check passes. */
  lemma {:induction false} FirstFailedAt<S>(checks: seq<Check<S>>, done: S, k: nat)
    requires k < |checks| && !checks[k].passed
    requires forall j :: 0 <= j < k ==> checks[j].passed
    ensures FirstFailed(checks, done) == checks[k].stop
  {
    FirstFailedFromAt(checks, done, 0, k);
  }

  lemma {:induction false} FirstFailedFromAt<S>(checks: seq<Check<S>>, done: S, i: nat, k: nat)
    requires i <= k < |checks| && !checks[k].passed
    requires forall j :: i <= j < k ==> checks[j].passed
    ensures FirstFailedFrom(checks, done, i) == checks[k].stop
    decreases k - i
  {
    if i < k {
      FirstFailedFromAt(checks, done, i + 1, k);
    }
  }

  /** A run in which every check passes completes. */
  lemma FirstFailedNone<S>(checks: seq<Check<S>>, done: S)
    requires forall j :: 0 <= j < |checks| ==> checks[j].passed
    ensures FirstFailed(checks, done) == done
  {
    FirstFailedFromNone(checks, done, 0);
  }

  lemma {:induction false} FirstFailedFromNone<S>(checks: seq<Check<S>>, done: S, i: nat)
    requires i <= |checks|
    requires forall j :: i <= j < |checks| ==> checks[j].passed
    ensures FirstFailedFrom(checks, done, i) == done
    decreases |checks| - i
  {
    if i < |checks| {
      FirstFailedFromNone(checks, done, i + 1);
    }
  }

  /** One step of a run: a passing check hands over to the next, a failing one stops it. */
  lemma FirstFailedStep<S>(checks: seq<Check<S>>, done: S, i: nat)
    requires i < |checks|
    ensures FirstFailedFrom(checks, done, i)
      == if checks[i].passed then FirstFailedFrom(checks, done, i + 1) else checks[i].stop
  {
  }

  /** A run that starts at check 0 is `FirstFailed`, and one past the end completes. */
  lemma FirstFailedDone<S>(checks: seq<Check<S>>, done: S)
    ensures FirstFailed(checks, done) == FirstFailedFrom(checks, done, 0)
    ensures FirstFailedFrom(checks, done, |checks|) == done
  {
  }
}
