/** Dependency order and progress: what a run may send, and how many runs empty the queue. */
module Drain {
  import opened Json
  import opened Strings
  import opened Records
  import opened StateMachine
  import opened Store
  import opened Settlement
  import opened Client
  import opened Runs
  import Backoff

  /** The prerequisites of m that are still queued are claimable and strictly older. */
  ghost predicate Ready(q: Queue, now: int, m: Mutation) {
    forall d :: d in m.dependsOn && d in q ==> Eligible(q[d], now, None) && q[d].mutation.timestamp < m.timestamp
  }

  /** In an unscoped run a mutation is only sent when its prerequisites have left the queue. */
  lemma PrerequisitesFirst(q: Queue, now: int, claimed: seq<Mutation>, m: Mutation, d: string)
    requires QueueKeyed(q) && IsClaim(q, now, CLAIM_LIMIT, None, claimed)
    requires m in BatchOf(claimed) && d in m.dependsOn && Ready(q, now, m)
    ensures d !in q
  {
    ClaimIsOneEach(q, now, CLAIM_LIMIT, None, claimed);
    assert m in claimed && m.id !in BlockedIds(claimed);
    hide BatchOf, Eligible;
    assert d in q ==> d !in MutationIds(claimed);
  }

  // ---- Exactly what is sent ----

  function EligibleIds(q: Queue, now: int, scope: Option<string>): set<string> {
    set id | id in q && Eligible(q[id], now, scope)
  }

  lemma {:induction false} DistinctIdsCount(ms: seq<Mutation>)
    requires forall i, j :: 0 <= i < j < |ms| ==> ms[i].id != ms[j].id
    ensures |MutationIds(ms)| == |ms|
  {
    if ms != [] {
      var init, last := ms[..|ms| - 1], ms[|ms| - 1];
      assert forall i :: 0 <= i < |init| ==> init[i] == ms[i];
      DistinctIdsCount(init);
      assert ms == init + [last];
      assert MutationIds(ms) == MutationIds(init) + {last.id};
      assert last.id !in MutationIds(init);
    }
  }

  /** A claim with room for all eligible rows takes them all. */
  lemma RoomForAll(q: Queue, now: int, scope: Option<string>, claimed: seq<Mutation>)
    requires IsClaim(q, now, CLAIM_LIMIT, scope, claimed) && |EligibleIds(q, now, scope)| <= CLAIM_LIMIT
    ensures MutationIds(claimed) == EligibleIds(q, now, scope)
  {
    hide Eligible;
    DistinctIdsCount(claimed);
    assert MutationIds(claimed) <= EligibleIds(q, now, scope);
    forall id | id in EligibleIds(q, now, scope)
      ensures id in MutationIds(claimed)
    {
      if id !in MutationIds(claimed) {
        SmallerSet(MutationIds(claimed), EligibleIds(q, now, scope), id);
        assert false;
      }
    }
  }

  /** Some prerequisite of m is queued and would be claimed too. */
  ghost predicate HeldBack(q: Queue, now: int, scope: Option<string>, m: Mutation) {
    exists d :: d in m.dependsOn && d in q && Eligible(q[d], now, scope)
  }

  /** The queued prerequisites of m are strictly older. */
  ghost predicate OlderFirst(q: Queue, m: Mutation) {
    forall d :: d in m.dependsOn && d in q ==> q[d].mutation.timestamp < m.timestamp
  }

  /** An eligible row that is strictly older than a claimed one is claimed, however many there are. */
  lemma OlderIsClaimed(q: Queue, now: int, scope: Option<string>, claimed: seq<Mutation>, m: Mutation, d: string)
    requires IsClaim(q, now, CLAIM_LIMIT, scope, claimed) && m in claimed
    requires d in q && Eligible(q[d], now, scope) && q[d].mutation.timestamp < m.timestamp
    ensures d in MutationIds(claimed)
  {
    hide Eligible;
  }

  /** With room for all eligible rows, or with prerequisites that are strictly older, a mutation is sent
      if and only if it is claimed and no prerequisite of it is claimable in the same run. With room,
      every claimable mutation is claimed. */
  lemma SentExactly(q: Queue, now: int, scope: Option<string>, claimed: seq<Mutation>, m: Mutation)
    requires QueueKeyed(q) && IsClaim(q, now, CLAIM_LIMIT, scope, claimed)
    requires |EligibleIds(q, now, scope)| <= CLAIM_LIMIT || OlderFirst(q, m)
    requires m.id in q && q[m.id].mutation == m
    ensures m in BatchOf(claimed) <==> m in claimed && !HeldBack(q, now, scope, m)
    ensures |EligibleIds(q, now, scope)| <= CLAIM_LIMIT ==> (m in claimed <==> Eligible(q[m.id], now, scope))
  {
    ClaimIsOneEach(q, now, CLAIM_LIMIT, scope, claimed);
    if |EligibleIds(q, now, scope)| <= CLAIM_LIMIT {
      RoomForAll(q, now, scope, claimed);
      assert m in claimed <==> m.id in MutationIds(claimed);
    }
    if m in claimed {
      forall d | d in m.dependsOn && d in q && Eligible(q[d], now, scope)
        ensures d in MutationIds(claimed)
      {
        if OlderFirst(q, m) {
          OlderIsClaimed(q, now, scope, claimed, m, d);
        }
      }
      assert forall d :: d in MutationIds(claimed) ==> d in q && Eligible(q[d], now, scope);
    }
    hide BatchOf, Eligible, IsClaim;
    assert m in claimed ==>
      (m.id in BlockedIds(claimed) <==> exists d :: d in m.dependsOn && d in MutationIds(claimed));
  }

  /** So a mutation overtakes a prerequisite exactly when it is claimed, some are queued and none is
      claimable: all of them in backoff, rejected, in flight or, in a scoped run, of another table. */
  lemma OvertakesExactly(q: Queue, now: int, scope: Option<string>, claimed: seq<Mutation>, m: Mutation)
    requires QueueKeyed(q) && IsClaim(q, now, CLAIM_LIMIT, scope, claimed)
    requires |EligibleIds(q, now, scope)| <= CLAIM_LIMIT || OlderFirst(q, m)
    requires m.id in q && q[m.id].mutation == m
    ensures (m in BatchOf(claimed) && exists d :: d in m.dependsOn && d in q) <==>
      m in claimed &&
      (exists d :: d in m.dependsOn && d in q) &&
      (forall d :: d in m.dependsOn && d in q ==> !Eligible(q[d], now, scope))
  {
    SentExactly(q, now, scope, claimed, m);
    hide BatchOf, Eligible, IsClaim;
  }

  /** Readiness is needed: a prerequisite in backoff is overtaken. */
  lemma BackoffIsOvertaken() returns (q: Queue, claimed: seq<Mutation>, m: Mutation)
    ensures QueueKeyed(q) && IsClaim(q, 0, CLAIM_LIMIT, None, claimed)
    ensures m in BatchOf(claimed) && "a" in m.dependsOn && "a" in q && q["a"].mutation.timestamp < m.timestamp
  {
    var first := Mutation("a", "t", Create, Bare("x"), 1, 1, []);
    m := Mutation("b", "t", Create, Bare("y"), 2, 1, ["a"]);
    q := map["a" := Row(first, Failed, 1, 1000, None, None), "b" := Row(m, Pending, 0, 0, None, None)];
    claimed := [m];
    SoleClaim(m);
    SolePick(q, m, "a");
  }

  lemma SoleClaim(m: Mutation)
    requires m.id !in m.dependsOn
    ensures BatchOf([m]) == [m]
  {
    var one := [m];
    assert MutationIds(one) == {m.id};
    assert BlockedIds(one) == {};
    assert MutationIds(one) - BlockedIds(one) == {m.id};
    assert one[..0] == [];
    assert Having(one[..0], {m.id}) == [];
    assert one[|one| - 1] == m;
    assert Having(one, {m.id}) == [] + [m] == one;
  }

  lemma SolePick(q: Queue, m: Mutation, other: string)
    requires q.Keys == {m.id, other} && m.id != other && q[m.id].mutation == m
    requires Eligible(q[m.id], 0, None) && !Eligible(q[other], 0, None)
    ensures IsClaim(q, 0, CLAIM_LIMIT, None, [m])
  {
    hide Eligible;
    assert MutationIds([m]) == {m.id};
  }

  // ---- Progress ----

  /** Nothing waits for its backoff or for the user, and prerequisites are strictly older. */
  ghost predicate Drainable(q: Queue, now: int) {
    forall id :: id in q ==> Eligible(q[id], now, None) && Ready(q, now, q[id].mutation)
  }

  ghost predicate Acknowledges(transport: Transport, config: Config) {
    forall table, out :: AckedAll(transport(table, out), out, config)
  }

  ghost predicate AckedAll(outcome: Outcome, out: Sending, config: Config) {
    && outcome.Answered? && !Incompatible(config.schemaVersion, outcome.response) && !outcome.response.resetRequired
    && forall m :: m in out.batch ==> m.id in outcome.response.acked
  }

  /** The oldest claimed mutation is never blocked. */
  lemma OldestIsSent(q: Queue, now: int, claimed: seq<Mutation>)
    requires QueueKeyed(q) && IsClaim(q, now, CLAIM_LIMIT, None, claimed) && Drainable(q, now) && q != map[]
    ensures claimed != [] && claimed[0] in BatchOf(claimed)
  {
    SomethingIsClaimed(q, now, claimed);
    ClaimIsOneEach(q, now, CLAIM_LIMIT, None, claimed);
    var first := claimed[0];
    assert first in claimed;
    OldestIsUnblocked(q, now, claimed);
    hide BatchOf, BlockedIds;
  }

  lemma SomethingIsClaimed(q: Queue, now: int, claimed: seq<Mutation>)
    requires IsClaim(q, now, CLAIM_LIMIT, None, claimed) && Drainable(q, now) && q != map[]
    ensures claimed != []
  {
    hide Eligible, Ready;
    var id :| id in q;
    assert Eligible(q[id], now, None);
    assert id in MutationIds(claimed) || |claimed| == CLAIM_LIMIT;
  }

  lemma OldestIsUnblocked(q: Queue, now: int, claimed: seq<Mutation>)
    requires IsClaim(q, now, CLAIM_LIMIT, None, claimed) && Drainable(q, now) && claimed != []
    ensures claimed[0].id !in BlockedIds(claimed)
  {
    hide Eligible;
    var first := claimed[0];
    assert first in claimed && Ready(q, now, q[first.id].mutation);
    forall m, d | m in claimed && d in m.dependsOn && m.id == first.id
      ensures d !in MutationIds(claimed)
    {
      assert m == first;
      forall n | n in claimed
        ensures n.id != d
      {
        var j :| 0 <= j < |claimed| && claimed[j] == n;
        assert j == 0 || Earlier(claimed[0], claimed[j]);
      }
    }
  }

  lemma AcknowledgedTableSucceeds(
    e: Engine, table: string, batch: seq<Mutation>, transport: Transport, config: Config, now: int, m: Mutation)
    requires Acknowledges(transport, config) && m in batch && m.table == table
    ensures ResultFor(e, table, batch, transport, config, now).1
    ensures var outcome := OutcomeFor(e, table, batch, transport);
      outcome.Answered? && m.id in outcome.response.acked
  {
    OfTableHolds(batch, table);
    var out := RequestFor(e, table, batch);
    assert AckedAll(transport(table, out), out, config);
    hide OfTable, VisibleAfter, PersistRecords, PersistTombstones, Partition, ClearCovered, SettleQueue, FailIds;
  }

  /** A run against a server that acknowledges everything removes every row it sends and leaves the
      others claimable. */
  lemma RunRemovesWhatItSends(
    e: Engine, claimed: seq<Mutation>, tables: seq<string>, transport: Transport, config: Config, now: int, id: string)
    requires QueueKeyed(e.queue) && IsClaim(e.queue, now, CLAIM_LIMIT, None, claimed)
    requires Distinct(tables) && (forall m :: m in claimed ==> m.table in tables)
    requires Acknowledges(transport, config) && config.concurrency > 0
    ensures QueuedAt(Run(e, claimed, tables, transport, config, now).queue, id) ==
      if id !in e.queue || id in MutationIds(BatchOf(claimed)) then None
      else if id in BlockedIds(claimed) then Some(e.queue[id].(status := Pending, nextRetryAt := 0))
      else Some(e.queue[id])
  {
    hide Run, FailedRow, RefusedRow, RejectedIds, CodeFor, MessageFor, Acknowledges, QueueAfterClaim, ResultFor,
         OutcomeFor;
    RunSettles(e, claimed, None, tables, transport, config, now, id);
    ClaimIsOneEach(e.queue, now, CLAIM_LIMIT, None, claimed);
    ClaimedRow(e.queue, now, None, claimed, id);
    ReadyRow(e.queue, claimed, id);
    hide BatchOf, BlockedIds, IsClaim, Run, QueueAfterClaim, ResultFor, OutcomeFor, OfTable;
    if id in MutationIds(BatchOf(claimed)) {
      var m := e.queue[id].mutation;
      AcknowledgedTableSucceeds(e.(queue := QueueAfterClaim(e.queue, claimed)), m.table, BatchOf(claimed), transport,
        config, now, m);
    }
  }

  /** One run shrinks a drainable queue and leaves it drainable. */
  lemma RunDrains(
    e: Engine, claimed: seq<Mutation>, tables: seq<string>, transport: Transport, config: Config, now: int, later: int)
    requires QueueKeyed(e.queue) && IsClaim(e.queue, now, CLAIM_LIMIT, None, claimed) && Drainable(e.queue, now)
    requires Distinct(tables) && (forall m :: m in claimed ==> m.table in tables)
    requires Acknowledges(transport, config) && config.concurrency > 0 && 0 <= now <= later
    ensures var q := Run(e, claimed, tables, transport, config, now).queue;
      && QueueKeyed(q) && Drainable(q, later)
      && q.Keys <= e.queue.Keys
      && (e.queue != map[] ==> |q.Keys| < |e.queue.Keys|)
  {
    var q := Run(e, claimed, tables, transport, config, now).queue;
    hide Run, IsClaim, Eligible, BatchOf, BlockedIds, Acknowledges, Ready;
    forall id
      ensures id in q ==> id in e.queue && q[id].mutation == e.queue[id].mutation
      ensures id in q ==> Eligible(q[id], later, None) && q[id].mutation.id == id && q[id].status != Acked
    {
      RunRemovesWhatItSends(e, claimed, tables, transport, config, now, id);
      RowStaysClaimable(e.queue, q, now, later, id);
    }
    StaysDrainable(e.queue, q, now, later);
    if e.queue != map[] {
      OldestIsSent(e.queue, now, claimed);
      FirstIsQueued(e.queue, now, claimed);
      RunRemovesWhatItSends(e, claimed, tables, transport, config, now, claimed[0].id);
      assert claimed[0].id in MutationIds(BatchOf(claimed));
      SmallerSet(q.Keys, e.queue.Keys, claimed[0].id);
    }
  }

  lemma StaysDrainable(q: Queue, q': Queue, now: int, later: int)
    requires Drainable(q, now)
    requires forall id :: id in q' ==> id in q && q'[id].mutation == q[id].mutation && Eligible(q'[id], later, None)
    ensures Drainable(q', later)
  {
    hide Eligible;
    forall id | id in q'
      ensures Ready(q', later, q'[id].mutation)
    {
      assert Ready(q, now, q[id].mutation);
    }
  }

  lemma FirstIsQueued(q: Queue, now: int, claimed: seq<Mutation>)
    requires IsClaim(q, now, CLAIM_LIMIT, None, claimed) && claimed != []
    ensures claimed[0].id in q
  {
    hide Eligible;
    assert claimed[0] in claimed;
  }

  lemma RowStaysClaimable(q: Queue, q': Queue, now: int, later: int, id: string)
    requires QueueKeyed(q) && Drainable(q, now) && 0 <= now <= later
    requires QueuedAt(q', id) == None
      || (id in q &&
          (QueuedAt(q', id) == Some(q[id]) || QueuedAt(q', id) == Some(q[id].(status := Pending, nextRetryAt := 0))))
    ensures id in q' ==> id in q && q'[id].mutation == q[id].mutation && q'[id].mutation.id == id
    ensures id in q' ==> Eligible(q'[id], later, None) && q'[id].status != Acked
  {
    Backoff.ClockMonotone(now, later);
    Backoff.ClockMonotone(0, later);
  }

  lemma SmallerSet(a: set<string>, b: set<string>, x: string)
    requires a <= b && x in b && x !in a
    ensures |a| < |b|
  {
    assert a <= b - {x};
    Subset(a, b - {x});
  }

  lemma {:induction false} Subset(a: set<string>, b: set<string>)
    requires a <= b
    ensures |a| <= |b|
  {
    if a != {} {
      var x :| x in a;
      Subset(a - {x}, b - {x});
    }
  }

  /** Unscoped runs, one after the other, against a server that acknowledges everything. */
  ghost predicate IsSeries(engines: seq<Engine>, runs: seq<RunOnce>, config: Config) {
    && |engines| == |runs| + 1
    && (forall i :: 0 <= i < |runs| ==> IsAcknowledgedRun(engines[i], runs[i], engines[i + 1], config))
    && (forall i, j :: 0 <= i < j < |runs| ==> runs[i].now <= runs[j].now)
  }

  ghost predicate IsAcknowledgedRun(e: Engine, r: RunOnce, e': Engine, config: Config) {
    && r.scope.None? && r.now >= 0
    && CanRun(e, r)
    && Acknowledges(r.transport, config)
    && e' == RunFrom(e, r, config)
  }

  lemma {:induction false} SeriesShrinks(engines: seq<Engine>, runs: seq<RunOnce>, config: Config, n: nat, now: int)
    requires IsSeries(engines, runs, config) && config.concurrency > 0
    requires QueueKeyed(engines[0].queue) && runs != [] && Drainable(engines[0].queue, runs[0].now)
    requires n <= |runs| && (n > 0 ==> runs[n - 1].now <= now) && runs[0].now <= now
    requires n < |runs| ==> now == runs[n].now
    ensures QueueKeyed(engines[n].queue) && Drainable(engines[n].queue, now)
    ensures |engines[n].queue.Keys| + n <= |engines[0].queue.Keys| || engines[n].queue == map[]
  {
    if n > 0 {
      var r := runs[n - 1];
      SeriesShrinks(engines, runs, config, n - 1, r.now);
      assert IsAcknowledgedRun(engines[n - 1], r, engines[n - 1 + 1], config);
      hide Run, IsClaim, Drainable, Acknowledges, QueueKeyed;
      RunDrains(engines[n - 1], r.claimed, r.tables, r.transport, config, r.now, now);
    } else {
      SameTime(engines[0].queue, runs[0].now, now);
    }
  }

  lemma SameTime(q: Queue, now: int, later: int)
    requires Drainable(q, now) && now <= later
    ensures Drainable(q, later)
  {
    Backoff.ClockMonotone(now, later);
  }

  /** n rows drain in at most n runs. */
  lemma QueueDrains(engines: seq<Engine>, runs: seq<RunOnce>, config: Config)
    requires IsSeries(engines, runs, config) && config.concurrency > 0
    requires QueueKeyed(engines[0].queue) && runs != [] && Drainable(engines[0].queue, runs[0].now)
    requires |runs| >= |engines[0].queue.Keys|
    ensures engines[|runs|].queue == map[]
  {
    var last := runs[|runs| - 1];
    assert |runs| > 1 ==> runs[0].now <= last.now;
    SeriesShrinks(engines, runs, config, |runs|, last.now);
    hide IsSeries, Drainable, QueueKeyed;
    NoKeys(engines[|runs|].queue);
  }

  lemma NoKeys(q: Queue)
    ensures |q.Keys| == 0 ==> q == map[]
  {}
}
