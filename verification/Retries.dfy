/** The retry delay over a series of runs: a row that keeps failing is not claimed again before its
    delays have passed. */
module Retries {
  import opened Json
  import opened Records
  import opened StateMachine
  import opened Store
  import opened Runs
  import opened Backoff
  import opened Verdicts

  /** The failure marks that a run leaves on a row: one, or two at the same time for a failed table. */
  function RunMarks(r: RunOnce, v: Verdict): FailedRun {
    FailedRun(r.now, if v.FailsTwice? then [r.now, r.now] else [r.now])
  }

  /** A run fails the row: it claims it and marks it at least once. */
  ghost predicate Fails(e: Engine, r: RunOnce, config: Config, id: string)
    requires id in e.queue
  {
    id in MutationIds(r.claimed) && Marks(VerdictOn(e, r, config, e.queue[id].mutation)) > 0
  }

  /** The claim of such a run happens to an eligible row, and leaves the row with its marks. */
  lemma FailingRunMarks(e: Engine, r: RunOnce, config: Config, id: string)
    requires CanRun(e, r) && id in e.queue && WellFormed(e, r, e.queue[id].mutation)
    requires Fails(e, r, config, id)
    ensures var row := e.queue[id];
      var marks := RunMarks(r, VerdictOn(e, r, config, row.mutation));
      && Happens(row, marks)
      && QueuedAt(RunFrom(e, r, config).queue, id) == Some(AfterRun(row, marks))
  {
    RunDecides(e, r, config, id);
    ClaimedRow(e.queue, r.now, r.scope, r.claimed, id);
    var row, v := e.queue[id], VerdictOn(e, r, config, e.queue[id].mutation);
    hide RunFrom, VerdictOn, IsClaim, WellFormed, RetryDelay, Clock;
    AllMarks(row.(status := Syncing), r.now);
  }

  lemma AllMarks(row: Row, now: int)
    ensures FailAll(row, [now]) == FailedRow(row, now)
    ensures FailAll(row, [now, now]) == FailedRow(FailedRow(row, now), now)
  {
    hide FailedRow;
    var one, two := [now], [now, now];
    assert one[..0] == [] && two[..1] == one;
    assert FailAll(row, one[..0]) == row;
    assert FailAll(row, one) == FailedRow(row, now);
  }

  /** before[i] is the client when run i begins. Between two runs anything may happen to the client
      but the row stays as the run left it; a run that claims the row fails it. */
  ghost predicate KeepsFailing(before: seq<Engine>, runs: seq<RunOnce>, config: Config, id: string) {
    && |before| == |runs| + 1
    && (forall i :: 0 <= i <= |runs| ==> id in before[i].queue)
    && (forall i :: 0 <= i < |runs| ==> RunThenRest(before[i], runs[i], before[i + 1], config, id))
    && (forall i, j :: 0 <= i < j < |runs| ==> runs[i].now <= runs[j].now)
  }

  ghost predicate RunThenRest(e: Engine, r: RunOnce, next: Engine, config: Config, id: string)
    requires id in e.queue
  {
    && CanRun(e, r)
    && WellFormed(e, r, e.queue[id].mutation)
    && QueuedAt(next.queue, id) == QueuedAt(RunFrom(e, r, config).queue, id)
    && (id in MutationIds(r.claimed) ==> Fails(e, r, config, id))
  }

  /** The runs that claimed the row, as the marks they left on it. */
  ghost function FailuresOf(before: seq<Engine>, runs: seq<RunOnce>, config: Config, id: string, n: nat): seq<FailedRun>
    requires n <= |runs| <= |before| && forall i :: 0 <= i < n ==> id in before[i].queue
  {
    if n == 0 then []
    else
      var init := FailuresOf(before, runs, config, id, n - 1);
      if id in MutationIds(runs[n - 1].claimed)
      then init + [RunMarks(runs[n - 1], VerdictOn(before[n - 1], runs[n - 1], config,
        before[n - 1].queue[id].mutation))]
      else init
  }

  lemma UnclaimedRowStays(e: Engine, r: RunOnce, config: Config, id: string)
    requires CanRun(e, r) && id !in MutationIds(r.claimed)
    ensures QueuedAt(RunFrom(e, r, config).queue, id) == QueuedAt(e.queue, id)
  {
    RunSettles(e, r.claimed, r.scope, r.tables, r.transport, config, r.now, id);
  }

  lemma {:induction false} RowAfterRuns(before: seq<Engine>, runs: seq<RunOnce>, config: Config, id: string, n: nat)
    requires KeepsFailing(before, runs, config, id) && n <= |runs|
    ensures var failures := FailuresOf(before, runs, config, id, n);
      && before[n].queue[id] == AfterRuns(before[0].queue[id], failures)
      && AllHappen(before[0].queue[id], failures)
  {
    hide AllHappen, Happens, CanRun, WellFormed, RunFrom, Fails, AfterRun;
    if n == 0 {
      NothingHappened(before[0].queue[id]);
    } else {
      RowAfterRuns(before, runs, config, id, n - 1);
      var e, r := before[n - 1], runs[n - 1];
      assert RunThenRest(e, r, before[n - 1 + 1], config, id);
      if id in MutationIds(r.claimed) {
        FailingRunMarks(e, r, config, id);
        OneMoreHappens(before[0].queue[id], FailuresOf(before, runs, config, id, n - 1),
                       RunMarks(r, VerdictOn(e, r, config, e.queue[id].mutation)));
      } else {
        UnclaimedRowStays(e, r, config, id);
      }
    }
  }

  lemma NothingHappened(row: Row)
    ensures AllHappen(row, [])
  {}

  lemma OneMoreHappens(row: Row, runs: seq<FailedRun>, run: FailedRun)
    requires AllHappen(row, runs) && Happens(AfterRuns(row, runs), run)
    ensures AllHappen(row, runs + [run]) && AfterRuns(row, runs + [run]) == AfterRun(AfterRuns(row, runs), run)
  {
    hide Happens, AfterRun;
    var more := runs + [run];
    assert more[..|more| - 1] == runs;
    forall i | 0 <= i < |more|
      ensures Happens(AfterRuns(row, more[..i]), more[i])
    {
      assert i < |runs| ==> more[..i] == runs[..i] && more[i] == runs[i];
    }
  }

  /** The first and the last failure are marked when their runs say. */
  lemma {:induction false} FailureTimes(before: seq<Engine>, runs: seq<RunOnce>, config: Config, id: string, n: nat)
    requires KeepsFailing(before, runs, config, id) && n <= |runs|
    ensures forall k :: 0 <= k < |FailuresOf(before, runs, config, id, n)| ==>
      IsMarkOf(FailuresOf(before, runs, config, id, n)[k], runs, id, n)
  {
    hide VerdictOn, RunThenRest;
    if n > 0 {
      FailureTimes(before, runs, config, id, n - 1);
      var init := FailuresOf(before, runs, config, id, n - 1);
      forall k | 0 <= k < |FailuresOf(before, runs, config, id, n)|
        ensures IsMarkOf(FailuresOf(before, runs, config, id, n)[k], runs, id, n)
      {
        if k < |init| {
          var i :| 0 <= i < n - 1 && id in MutationIds(runs[i].claimed) && OnlyAt(init[k], runs[i].now);
        } else {
          assert id in MutationIds(runs[n - 1].claimed);
        }
      }
    }
  }

  ghost predicate IsMarkOf(f: FailedRun, runs: seq<RunOnce>, id: string, n: nat)
    requires n <= |runs|
  {
    exists i :: 0 <= i < n && id in MutationIds(runs[i].claimed) && OnlyAt(f, runs[i].now)
  }

  ghost predicate OnlyAt(f: FailedRun, now: int) {
    f.failedAt != [] && f.claimedAt == now && forall k :: 0 <= k < |f.failedAt| ==> f.failedAt[k] == now
  }

  /** A row that failed in n runs of a series, and had not failed before it, is claimed by no run until
      the sum of n delays has passed since its first failure, and is claimable from 300000 ms after its
      last on. */
  lemma BackoffOverRuns(before: seq<Engine>, runs: seq<RunOnce>, config: Config, id: string)
    requires KeepsFailing(before, runs, config, id) && before[0].queue[id].retryCount == 0
    requires FailuresOf(before, runs, config, id, |runs|) != []
    ensures var failures, row := FailuresOf(before, runs, config, id, |runs|), before[|runs|].queue[id];
      var first, last := failures[0], failures[|failures| - 1];
      && IsMarkOf(first, runs, id, |runs|) && IsMarkOf(last, runs, id, |runs|)
      && row.status == Failed
      && (forall now, limit, scope, claimed ::
            IsClaim(before[|runs|].queue, now, limit, scope, claimed) && id in MutationIds(claimed) ==>
              Clock(now) >= Clock(first.claimedAt) + TotalDelay(|failures|))
      && (forall now :: now >= last.claimedAt + 300000 ==> Eligible(row, now, None))
  {
    var failures := FailuresOf(before, runs, config, id, |runs|);
    var q, row := before[|runs|].queue, before[|runs|].queue[id];
    var first, last := failures[0], failures[|failures| - 1];
    RowAfterRuns(before, runs, config, id, |runs|);
    FailureTimes(before, runs, config, id, |runs|);
    assert IsMarkOf(first, runs, id, |runs|) && IsMarkOf(last, runs, id, |runs|);
    BackoffBounds(before[0].queue[id], failures);
    hide KeepsFailing, FailuresOf, AfterRuns, AllHappen, TotalDelay;
    forall now, limit, scope, claimed | IsClaim(q, now, limit, scope, claimed) && id in MutationIds(claimed)
      ensures Clock(now) >= Clock(first.claimedAt) + TotalDelay(|failures|)
    {
      ClaimedIsEligible(q, now, limit, scope, claimed, id);
    }
    forall now | now >= last.claimedAt + 300000
      ensures Eligible(row, now, None)
    {
      EligibleWindow(row, row.nextRetryAt, last.claimedAt, now);
    }
  }

  lemma ClaimedIsEligible(q: Queue, now: int, limit: nat, scope: Option<string>, claimed: seq<Mutation>, id: string)
    requires IsClaim(q, now, limit, scope, claimed) && id in MutationIds(claimed)
    ensures id in q && Eligible(q[id], now, scope)
  {
    hide Eligible;
  }
}
