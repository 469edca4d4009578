/** What one run asks the server and what it takes from each answer. */
module Rounds {
  import opened Json
  import opened Records
  import opened Merge
  import opened StateMachine
  import opened Store
  import opened Settlement
  import opened Client
  import opened ClientLaws
  import opened Runs

  /** What a run sends for a table: the claimed mutations of the table that no other claimed one blocks. */
  lemma SentMeans(claimed: seq<Mutation>, table: string)
    ensures forall m :: m in OfTable(BatchOf(claimed), table) <==>
      && m in claimed && m.table == table
      && !exists x, d :: x in claimed && x.id == m.id && d in x.dependsOn && d in MutationIds(claimed)
  {
    OfTableHolds(BatchOf(claimed), table);
    HavingIds(claimed, MutationIds(claimed) - BlockedIds(claimed));
    hide OfTable, Having;
    forall m | m in claimed
      ensures m.id in BlockedIds(claimed) <==>
        exists x, d :: x in claimed && x.id == m.id && d in x.dependsOn && d in MutationIds(claimed)
    {}
  }

  /** In the order of their times, as they were claimed. */
  ghost predicate InTime(ms: seq<Mutation>) {
    forall i, j :: 0 <= i < j < |ms| ==> ms[i].id != ms[j].id && ms[i].timestamp <= ms[j].timestamp
  }

  /** A row that a claim at this time may take. */
  ghost predicate Due(row: Row, now: int, scope: Option<string>) {
    && (row.status == Pending || row.status == Failed) && row.nextRetryAt <= Clock(now)
    && (scope == None || scope == Some(row.mutation.table))
  }

  /** A claim takes due rows in the order of their times, and leaves a due row out only if it is full
      and all that it took is no newer. */
  lemma ClaimMeans(q: Queue, now: int, limit: nat, scope: Option<string>, batch: seq<Mutation>)
    ensures IsClaim(q, now, limit, scope, batch) <==>
      && |batch| <= limit && InTime(batch)
      && (forall m :: m in batch ==> m.id in q && q[m.id].mutation == m && Due(q[m.id], now, scope))
      && forall id :: id in q && Due(q[id], now, scope) && id !in MutationIds(batch) ==>
           |batch| == limit && forall m :: m in batch ==> m.timestamp <= q[id].mutation.timestamp
  {
    hide Clock, MutationIds;
    assert forall row :: Eligible(row, now, scope) <==> Due(row, now, scope);
  }

  lemma {:induction false} HavingInTime(ms: seq<Mutation>, ids: set<string>)
    requires InTime(ms)
    ensures InTime(Having(ms, ids))
  {
    if ms != [] {
      var init, last := ms[..|ms| - 1], ms[|ms| - 1];
      assert forall i :: 0 <= i < |init| ==> init[i] == ms[i];
      HavingInTime(init, ids);
      HavingIds(init, ids);
      assert forall m :: m in Having(init, ids) ==> m.id != last.id && m.timestamp <= last.timestamp;
    }
  }

  lemma {:induction false} OfTableInTime(ms: seq<Mutation>, table: string)
    requires InTime(ms)
    ensures InTime(OfTable(ms, table))
  {
    if ms != [] {
      var init, last := ms[..|ms| - 1], ms[|ms| - 1];
      assert forall i :: 0 <= i < |init| ==> init[i] == ms[i];
      OfTableInTime(init, table);
      OfTableHolds(init, table);
      assert forall m :: m in OfTable(init, table) ==> m.id != last.id && m.timestamp <= last.timestamp;
    }
  }

  /** Each mutation is sent once, and none before an older one of its table. */
  lemma SentInTime(q: Queue, now: int, scope: Option<string>, claimed: seq<Mutation>, table: string)
    requires IsClaim(q, now, CLAIM_LIMIT, scope, claimed)
    ensures InTime(OfTable(BatchOf(claimed), table))
  {
    hide Eligible;
    HavingInTime(claimed, MutationIds(claimed) - BlockedIds(claimed));
    OfTableInTime(BatchOf(claimed), table);
  }

  /** Every table of a run is asked once, with its own mutations from its own cursor, and ends as its
      answer makes it; every other table stays as it was. */
  lemma EveryTableIsAsked(e: Engine, r: RunOnce, config: Config, t: string)
    requires CanRun(e, r) && config.concurrency > 0
    ensures t !in r.tables ==> ShownAt(RunFrom(e, r, config), t) == ShownAt(e, t)
    ensures t in r.tables ==>
      var s, ms := ShownAt(e, t), OfTable(BatchOf(r.claimed), t);
      var outcome := r.transport(t, Sending(ms, s.cursor));
      var before := TableClient(s.memory, s.rows, QueueAfterClaim(e.queue, r.claimed), s.cursor);
      var (c, _) := Process(before, ms, outcome, config.strategy, config.schemaVersion, r.now);
      ShownAt(RunFrom(e, r, config), t) == Shown(c.memory, c.rows, c.cursor)
  {
    var ready, batch := e.(queue := QueueAfterClaim(e.queue, r.claimed)), BatchOf(r.claimed);
    ClaimIsOneEach(e.queue, r.now, CLAIM_LIMIT, r.scope, r.claimed);
    ReadyIsKeyed(e.queue, r.claimed);
    hide Process, BatchOf, OfTable, QueueAfterClaim, IsClaim, FailIds, ProcessEach, RowAfter, SentTo;
    EachIsCombined(ready, r.tables, batch, r.transport, config, r.now);
    assert ShownAt(ready, t) == ShownAt(e, t);
  }

  lemma ReadyIsKeyed(q: Queue, claimed: seq<Mutation>)
    requires QueueKeyed(q)
    ensures QueueKeyed(QueueAfterClaim(q, claimed))
  {}

  /** A run with nothing to send still receives: each of its tables merges what it is given, takes the
      cursor, and no row of the queue changes. */
  lemma IdleRunReceives(e: Engine, r: RunOnce, config: Config, t: string, response: Response)
    requires CanRun(e, r) && config.concurrency > 0 && r.claimed == [] && t in r.tables
    requires r.transport(t, Sending([], ShownAt(e, t).cursor)) == Answered(response)
    requires response.records.Some? && !response.resetRequired && response.minimumSchemaVersion.None?
    ensures var before, after := ShownAt(e, t), ShownAt(RunFrom(e, r, config), t);
      && after.memory == MergeTable(before.memory, response.records.value, {}, config.strategy,
                                    UnionTombs(Tombs(before.rows), response.tombstones))
      && (response.cursor.Some? ==> after.cursor == response.cursor.value)
  {
    EveryTableIsAsked(e, r, config, t);
    var none: seq<Mutation> := [];
    assert BatchOf(none) == [] && OfTable(none, t) == [];
    NothingGuarded(response.acked);
    hide RunFrom, MergeTable, UnionTombs, Tombs, PersistRecords, PersistTombstones, Unacked, Partition, ClearCovered,
         SettleQueue, FailIds, QueueAfterClaim;
    var shown := MergeTable(ShownAt(e, t).memory, response.records.value, {}, config.strategy,
                            UnionTombs(Tombs(ShownAt(e, t).rows), response.tombstones));
    assert Without(shown, {}) == shown;
  }

  lemma NothingGuarded(acked: seq<string>)
    ensures RecordIds(Unacked([], acked)) == {} && Deletions(Unacked([], acked)) == {}
  {
    UnackedMeans([], acked);
  }
}
