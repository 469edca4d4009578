/** The retry delay of failed mutations over any number of failed runs. */
module Backoff {
  import opened Json
  import opened StateMachine
  import opened Store

  function Pow2(n: nat): nat {
    if n == 0 then 1 else 2 * Pow2(n - 1)
  }

  lemma {:induction false} Pow2Grows(n: nat)
    requires n >= 9
    ensures Pow2(n) >= 512
  {
    if n == 9 {
      assert Pow2(9) == 512;
    } else {
      Pow2Grows(n - 1);
    }
  }

  /** The CASE table is the doubling delay capped at five minutes. */
  lemma RetryDelayIsCapped(retryCount: nat)
    ensures RetryDelay(retryCount)
         == if 1000 * Pow2(retryCount) < 300000 then 1000 * Pow2(retryCount) else 300000
  {
    if retryCount >= 9 {
      Pow2Grows(retryCount);
    } else {
      assert Pow2(0) == 1 && Pow2(1) == 2 && Pow2(2) == 4 && Pow2(3) == 8 && Pow2(4) == 16;
      assert Pow2(5) == 32 && Pow2(6) == 64 && Pow2(7) == 128 && Pow2(8) == 256;
    }
  }

  /** The clock of the store stands at the last whole second. */
  lemma ClockIsWholeSecond(now: int)
    ensures Clock(now) % 1000 == 0 && Clock(now) <= now < Clock(now) + 1000
  {}

  /** One failed run of a row: when it was claimed, and when it was marked. A table error marks the
      row in the handler of its table and again in the handler of the run. */
  datatype FailedRun = FailedRun(claimedAt: int, failedAt: seq<int>)

  function FailAll(row: Row, times: seq<int>): Row {
    if times == [] then row else FailedRow(FailAll(row, times[..|times| - 1]), times[|times| - 1])
  }

  function AfterRun(row: Row, run: FailedRun): Row {
    FailAll(row.(status := Syncing), run.failedAt)
  }

  function AfterRuns(row: Row, runs: seq<FailedRun>): Row {
    if runs == [] then row else AfterRun(AfterRuns(row, runs[..|runs| - 1]), runs[|runs| - 1])
  }

  /** Each run claims an eligible row and marks it at least once, on a clock that never runs back. */
  ghost predicate Happens(row: Row, run: FailedRun) {
    && Eligible(row, run.claimedAt, None)
    && run.failedAt != []
    && run.claimedAt <= run.failedAt[0]
    && forall i, j :: 0 <= i < j < |run.failedAt| ==> run.failedAt[i] <= run.failedAt[j]
  }

  ghost predicate AllHappen(row: Row, runs: seq<FailedRun>) {
    forall i :: 0 <= i < |runs| ==> Happens(AfterRuns(row, runs[..i]), runs[i])
  }

  /** The wait that n failed runs impose. */
  function TotalDelay(n: nat): int {
    if n <= 9 then 1000 * (Pow2(n) - 1) else 511000 + 300000 * (n - 9)
  }

  lemma TotalDelayStep(n: nat)
    ensures TotalDelay(n + 1) == TotalDelay(n) + RetryDelay(n)
  {
    RetryDelayIsCapped(n);
    assert Pow2(9) == 512 && Pow2(8) == 256 && Pow2(7) == 128 && Pow2(6) == 64 && Pow2(5) == 32;
    assert Pow2(4) == 16 && Pow2(3) == 8 && Pow2(2) == 4 && Pow2(1) == 2;
  }

  lemma ClockMonotone(a: int, b: int)
    requires a <= b
    ensures Clock(a) <= Clock(b)
  {}

  lemma DelayGrows(a: nat, b: nat)
    requires a <= b
    ensures RetryDelay(a) <= RetryDelay(b) <= 300000
  {}

  lemma {:induction false} FailAllBounds(row: Row, times: seq<int>)
    requires times != []
    requires forall i, j :: 0 <= i < j < |times| ==> times[i] <= times[j]
    ensures var after := FailAll(row, times);
      && after.status == Failed
      && after.retryCount == row.retryCount + |times|
      && Clock(times[0]) + RetryDelay(row.retryCount) <= after.nextRetryAt
      && after.nextRetryAt <= Clock(times[|times| - 1]) + 300000
      && after.mutation == row.mutation
  {
    var init, n := times[..|times| - 1], |times| - 1;
    if init == [] {
      assert FailAll(row, init) == row;
    } else {
      FailAllBounds(row, init);
      assert init[0] == times[0];
    }
    DelayGrows(row.retryCount, row.retryCount + n);
    ClockMonotone(times[0], times[n]);
    hide RetryDelay, Clock;
    assert FailAll(row, init).retryCount == row.retryCount + n;
  }

  /** One more failed run adds at least one more delay. */
  lemma RunBounds(before: Row, run: FailedRun)
    requires Happens(before, run)
    ensures var after := AfterRun(before, run);
      && after.status == Failed
      && after.retryCount > before.retryCount
      && before.nextRetryAt + RetryDelay(before.retryCount) <= after.nextRetryAt
      && Clock(run.failedAt[0]) + RetryDelay(before.retryCount) <= after.nextRetryAt
      && after.nextRetryAt <= Clock(run.failedAt[|run.failedAt| - 1]) + 300000
  {
    FailAllBounds(before.(status := Syncing), run.failedAt);
    ClockMonotone(run.claimedAt, run.failedAt[0]);
  }

  lemma InitHappens(row: Row, runs: seq<FailedRun>)
    requires runs != [] && AllHappen(row, runs)
    ensures AllHappen(row, runs[..|runs| - 1])
    ensures Happens(AfterRuns(row, runs[..|runs| - 1]), runs[|runs| - 1])
  {
    var init := runs[..|runs| - 1];
    forall i | 0 <= i < |init|
      ensures Happens(AfterRuns(row, init[..i]), init[i])
    {
      assert init[..i] == runs[..i] && init[i] == runs[i];
    }
  }

  lemma TotalDelayOne()
    ensures TotalDelay(1) == RetryDelay(0) == 1000
  {
    assert Pow2(1) == 2 * Pow2(0);
  }

  /** A row whose first failure was marked at failedAt[0] of its first run cannot be claimed again
      before the sum of all delays has passed, and is claimable again within five minutes of its
      last mark. */
  lemma {:induction false} BackoffBounds(row: Row, runs: seq<FailedRun>)
    requires row.retryCount == 0
    requires runs != [] && AllHappen(row, runs)
    ensures runs[0].failedAt != [] && runs[|runs| - 1].failedAt != []
    ensures AfterRuns(row, runs).status == Failed
    ensures AfterRuns(row, runs).retryCount >= |runs|
    ensures Clock(runs[0].failedAt[0]) + TotalDelay(|runs|) <= AfterRuns(row, runs).nextRetryAt
    ensures AfterRuns(row, runs).nextRetryAt
         <= Clock(runs[|runs| - 1].failedAt[|runs[|runs| - 1].failedAt| - 1]) + 300000
  {
    var init, run := runs[..|runs| - 1], runs[|runs| - 1];
    var before := AfterRuns(row, init);
    InitHappens(row, runs);
    RunBounds(before, run);
    if init == [] {
      TotalDelayOne();
    } else {
      BackoffBounds(row, init);
      assert init[0] == runs[0];
      TotalDelayStep(|init|);
      DelayGrows(|init|, before.retryCount);
    }
  }

  lemma EligibleWindow(row: Row, least: int, last: int, now: int)
    requires row.status == Failed && least <= row.nextRetryAt <= Clock(last) + 300000
    ensures Clock(now) < least ==> !Eligible(row, now, None)
    ensures now >= last + 300000 ==> Eligible(row, now, None)
  {}

  /** The claim query passes the row over until the delays have passed, and returns it from five
      minutes after its last mark on. */
  lemma EligibleAgain(row: Row, runs: seq<FailedRun>, first: int, last: int, now: int)
    requires row.retryCount == 0
    requires runs != [] && AllHappen(row, runs)
    requires runs[0].failedAt != [] && first == runs[0].failedAt[0]
    requires runs[|runs| - 1].failedAt != [] && last == runs[|runs| - 1].failedAt[|runs[|runs| - 1].failedAt| - 1]
    ensures Clock(now) < Clock(first) + TotalDelay(|runs|) ==> !Eligible(AfterRuns(row, runs), now, None)
    ensures now >= last + 300000 ==> Eligible(AfterRuns(row, runs), now, None)
  {
    BackoffBounds(row, runs);
    EligibleWindow(AfterRuns(row, runs), Clock(first) + TotalDelay(|runs|), last, now);
  }
}
