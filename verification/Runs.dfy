/** A whole run of the client over all its tables: claim, hold back blocked mutations, process the
    tables, and fail again what a failed table left behind. */
module Runs {
  import opened Json
  import opened Strings
  import opened Records
  import opened Merge
  import opened StateMachine
  import opened Store
  import opened Settlement
  import opened Client

  const CLAIM_LIMIT: nat := 100

  /** A request as the client sends it. */
  datatype Sending = Sending(batch: seq<Mutation>, cursor: Option<nat>)

  /** Only a dependency claimed in the same batch blocks a mutation. */
  function BlockedIds(claimed: seq<Mutation>): set<string> {
    set m, d | m in claimed && d in m.dependsOn && d in MutationIds(claimed) :: m.id
  }

  function Block(q: Queue, ids: set<string>): Queue {
    map id | id in q :: if id in ids then q[id].(status := Pending, nextRetryAt := 0) else q[id]
  }

  function BatchOf(claimed: seq<Mutation>): seq<Mutation> {
    Having(claimed, MutationIds(claimed) - BlockedIds(claimed))
  }

  function QueueAfterClaim(q: Queue, claimed: seq<Mutation>): Queue {
    Block(Claim(q, claimed), BlockedIds(claimed))
  }

  function OfTable(ms: seq<Mutation>, table: string): seq<Mutation> {
    if ms == [] then []
    else
      var init := OfTable(ms[..|ms| - 1], table);
      if ms[|ms| - 1].table == table then init + [ms[|ms| - 1]] else init
  }

  // ---- The state of the client ----

  datatype Shown = Shown(memory: Table, rows: Rows, cursor: Option<nat>)

  datatype Engine = Engine(tables: map<string, Shown>, queue: Queue)

  datatype Config = Config(strategy: Strategy, schemaVersion: int, concurrency: int)

  /** The response to a table's request depends on that request only. */
  type Transport = (string, Sending) -> Outcome

  const UNUSED_TABLE := Shown(map[], map[], None)

  function ShownAt(e: Engine, table: string): Shown {
    if table in e.tables then e.tables[table] else UNUSED_TABLE
  }

  function Look(e: Engine, table: string): TableClient {
    var s := ShownAt(e, table);
    TableClient(s.memory, s.rows, e.queue, s.cursor)
  }

  function Put(e: Engine, table: string, c: TableClient): Engine {
    Engine(e.tables[table := Shown(c.memory, c.rows, c.cursor)], c.queue)
  }

  lemma PutIsLocal(e: Engine, table: string, c: TableClient)
    ensures Look(Put(e, table, c), table) == c
    ensures forall t :: t != table ==> ShownAt(Put(e, table, c), t) == ShownAt(e, t)
  {}

  // ---- The tables of a run ----

  function RequestFor(e: Engine, table: string, batch: seq<Mutation>): Sending {
    Sending(OfTable(batch, table), ShownAt(e, table).cursor)
  }

  function ProcessOne(
    e: Engine, table: string, batch: seq<Mutation>, outcome: Outcome, config: Config, now: int): (Engine, bool)
  {
    var (c, ok) := Process(Look(e, table), OfTable(batch, table), outcome, config.strategy, config.schemaVersion, now);
    (Put(e, table, c), ok)
  }

  /** The tables one by one; the second part names those that failed. */
  function ProcessEach(
    e: Engine, tables: seq<string>, batch: seq<Mutation>, transport: Transport, config: Config,
    now: int): (Engine, set<string>)
  {
    if tables == [] then (e, {})
    else
      var (before, failed) := ProcessEach(e, tables[..|tables| - 1], batch, transport, config, now);
      var table := tables[|tables| - 1];
      var (after, ok) := ProcessOne(before, table, batch, transport(table, RequestFor(before, table, batch)),
        config, now);
      (after, if ok then failed else failed + {table})
  }

  /** The ids of the mutations sent to some tables. */
  function SentTo(batch: seq<Mutation>, tables: set<string>): set<string> {
    set m | m in batch && m.table in tables :: m.id
  }

  /** A run that claimed these mutations and visits these tables. */
  function Run(
    e: Engine, claimed: seq<Mutation>, tables: seq<string>, transport: Transport, config: Config, now: int): Engine
  {
    var ready := e.(queue := QueueAfterClaim(e.queue, claimed));
    var batch := BatchOf(claimed);
    if config.concurrency <= 0 then ready.(queue := FailIds(ready.queue, MutationIds(batch), now))
    else
      var (after, failed) := ProcessEach(ready, tables, batch, transport, config, now);
      after.(queue := FailIds(after.queue, SentTo(batch, failed), now))
  }

  // ---- All tables at once ----

  /** Each id stands for one mutation. */
  ghost predicate OneEach(ms: seq<Mutation>) {
    forall m, n :: m in ms && n in ms && m.id == n.id ==> m == n
  }

  function Find(ms: seq<Mutation>, id: string): Option<Mutation> {
    if ms == [] then None
    else if ms[|ms| - 1].id == id then Some(ms[|ms| - 1])
    else Find(ms[..|ms| - 1], id)
  }

  lemma {:induction false} FindFinds(ms: seq<Mutation>, id: string)
    ensures Find(ms, id).Some? <==> id in MutationIds(ms)
    ensures Find(ms, id).Some? ==> Find(ms, id).value in ms && Find(ms, id).value.id == id
  {
    if ms != [] {
      var init := ms[..|ms| - 1];
      FindFinds(init, id);
      assert ms == init + [ms[|ms| - 1]];
    }
  }

  lemma {:induction false} OfTableHolds(ms: seq<Mutation>, table: string)
    ensures forall m :: m in OfTable(ms, table) <==> m in ms && m.table == table
  {
    if ms != [] {
      var init := ms[..|ms| - 1];
      OfTableHolds(init, table);
      assert ms == init + [ms[|ms| - 1]];
    }
  }

  lemma SentIds(batch: seq<Mutation>, table: string, id: string)
    requires OneEach(batch)
    ensures id in MutationIds(OfTable(batch, table)) <==>
      Find(batch, id).Some? && Find(batch, id).value.table == table
  {
    FindFinds(batch, id);
    OfTableHolds(batch, table);
    hide Find, OfTable;
    if Find(batch, id).Some? {
      var m := Find(batch, id).value;
      assert m.table == table ==> m in OfTable(batch, table);
    }
  }

  function OutcomeFor(e: Engine, table: string, batch: seq<Mutation>, transport: Transport): Outcome {
    transport(table, RequestFor(e, table, batch))
  }

  /** What processing a table leaves behind, and whether it succeeds, whatever the other tables did. */
  function ResultFor(
    e: Engine, table: string, batch: seq<Mutation>, transport: Transport, config: Config, now: int): (TableClient, bool)
  {
    Process(Look(e, table), OfTable(batch, table), OutcomeFor(e, table, batch, transport), config.strategy,
      config.schemaVersion, now)
  }

  /** What is left of a row that was sent: nothing after an acknowledgement, a REJECTED row after a
      final rejection, otherwise a FAILED row. */
  function Settled(row: Row, ms: seq<Mutation>, outcome: Outcome, ok: bool, now: int): Option<Row> {
    var id := row.mutation.id;
    if !ok || outcome.TransportError? then Some(FailedRow(row, now))
    else
      var r := outcome.response;
      if id in r.acked then None
      else if id in RejectedIds(ms, r.acked, r.rejected)
      then Some(RefusedRow(row, CodeFor(r.rejected, id), MessageFor(r.rejected, id)))
      else Some(FailedRow(row, now))
  }

  /** A row after the tables in done were processed. */
  function RowAfter(
    e: Engine, done: set<string>, batch: seq<Mutation>, transport: Transport, config: Config, now: int,
    id: string): Option<Row>
    requires id in e.queue
  {
    var m := Find(batch, id);
    if m.Some? && m.value.table in done then
      Settled(e.queue[id], OfTable(batch, m.value.table), OutcomeFor(e, m.value.table, batch, transport),
              ResultFor(e, m.value.table, batch, transport, config, now).1, now)
    else Some(e.queue[id])
  }

  function ShownAfter(
    e: Engine, table: string, batch: seq<Mutation>, transport: Transport, config: Config, now: int): Shown
  {
    var c := ResultFor(e, table, batch, transport, config, now).0;
    Shown(c.memory, c.rows, c.cursor)
  }

  /** The client after the tables in done were processed from e, in any order. */
  function Combined(
    e: Engine, done: set<string>, batch: seq<Mutation>, transport: Transport, config: Config, now: int): Engine
  {
    Engine(
      map t | t in e.tables.Keys + done ::
        if t in done then ShownAfter(e, t, batch, transport, config, now) else e.tables[t],
      map id | id in e.queue && RowAfter(e, done, batch, transport, config, now, id).Some? ::
        RowAfter(e, done, batch, transport, config, now, id).value)
  }

  /** The queue is only looked at row by row. */
  lemma ProcessIsLocal(c: TableClient, q: Queue, ms: seq<Mutation>, outcome: Outcome, config: Config, now: int)
    requires QueueKeyed(q)
    ensures var (a, ok) := Process(c, ms, outcome, config.strategy, config.schemaVersion, now);
      var (b, ok') := Process(c.(queue := q), ms, outcome, config.strategy, config.schemaVersion, now);
      && ok == ok' && a.memory == b.memory && a.rows == b.rows && a.cursor == b.cursor
      && forall id :: QueuedAt(b.queue, id) ==
           if id in q && id in MutationIds(ms) then Settled(q[id], ms, outcome, ok, now) else QueuedAt(q, id)
  {
    if outcome.Answered? {
      PartitionIsExact(ms, outcome.response.acked, outcome.response.rejected);
    }
    hide Partition, RowsAfter, VisibleAfter, ClearCovered, RejectedIds, FailedRow, RefusedRow, CodeFor, MessageFor;
  }

  /** Finishing one more table, at any time, adds exactly that table. */
  lemma FinishOne(
    e: Engine, done: set<string>, table: string, batch: seq<Mutation>, transport: Transport, config: Config, now: int)
    requires QueueKeyed(e.queue) && OneEach(batch) && table !in done
    ensures var before := Combined(e, done, batch, transport, config, now);
      && RequestFor(before, table, batch) == RequestFor(e, table, batch)
      && ProcessOne(before, table, batch, OutcomeFor(e, table, batch, transport), config, now)
           == (Combined(e, done + {table}, batch, transport, config, now),
             ResultFor(e, table, batch, transport, config, now).1)
  {
    hide Process, Settled, OfTable, Find, RowAfter;
    var before, after := Combined(e, done, batch, transport, config, now),
      Combined(e, done + {table}, batch, transport, config, now);
    var ms, outcome := OfTable(batch, table), OutcomeFor(e, table, batch, transport);
    CombinedIsKeyed(e, done, batch, transport, config, now);
    ProcessIsLocal(Look(e, table), before.queue, ms, outcome, config, now);
    assert ShownAt(before, table) == ShownAt(e, table);
    assert Look(before, table) == Look(e, table).(queue := before.queue);
    var (c, ok) := Process(Look(before, table), ms, outcome, config.strategy, config.schemaVersion, now);
    assert after.tables == before.tables[table := Shown(c.memory, c.rows, c.cursor)];
    forall id
      ensures QueuedAt(c.queue, id) == QueuedAt(after.queue, id)
    {
      FinishRow(e, done, table, batch, transport, config, now, c.queue, id);
    }
    RowsDetermineQueue(c.queue, after.queue);
  }

  lemma CombinedRow(
    e: Engine, done: set<string>, batch: seq<Mutation>, transport: Transport, config: Config, now: int, id: string)
    ensures QueuedAt(Combined(e, done, batch, transport, config, now).queue, id) ==
      if id in e.queue then RowAfter(e, done, batch, transport, config, now, id) else None
  {
    hide RowAfter;
  }

  lemma CombinedIsKeyed(
    e: Engine, done: set<string>, batch: seq<Mutation>, transport: Transport, config: Config, now: int)
    requires QueueKeyed(e.queue)
    ensures QueueKeyed(Combined(e, done, batch, transport, config, now).queue)
  {
    hide Process, CodeFor, MessageFor, RejectedIds, Find, OfTable;
  }

  lemma FinishRow(
    e: Engine, done: set<string>, table: string, batch: seq<Mutation>, transport: Transport, config: Config, now: int,
    q: Queue, id: string)
    requires OneEach(batch) && table !in done
    requires var before := Combined(e, done, batch, transport, config, now).queue;
      QueuedAt(q, id) ==
        if id in before && id in MutationIds(OfTable(batch, table))
        then Settled(before[id], OfTable(batch, table), OutcomeFor(e, table, batch, transport),
                     ResultFor(e, table, batch, transport, config, now).1, now)
        else QueuedAt(before, id)
    ensures QueuedAt(q, id) == QueuedAt(Combined(e, done + {table}, batch, transport, config, now).queue, id)
  {
    SentIds(batch, table, id);
    CombinedRow(e, done, batch, transport, config, now, id);
    CombinedRow(e, done + {table}, batch, transport, config, now, id);
    hide Settled, OfTable, Find, Combined, ResultFor, OutcomeFor;
  }

  lemma RowsDetermineQueue(a: Queue, b: Queue)
    requires forall id :: QueuedAt(a, id) == QueuedAt(b, id)
    ensures a == b
  {
    forall id
      ensures id in a <==> id in b
      ensures id in a && id in b ==> a[id] == b[id]
    {
      assert QueuedAt(a, id) == QueuedAt(b, id);
    }
  }

  // ---- One by one ----

  function Names(tables: seq<string>): set<string> {
    set t | t in tables
  }

  lemma CombinedNone(e: Engine, batch: seq<Mutation>, transport: Transport, config: Config, now: int)
    ensures Combined(e, {}, batch, transport, config, now) == e
  {
    hide Process, Settled, OfTable, Find;
    var c := Combined(e, {}, batch, transport, config, now);
    assert c.tables == e.tables;
    forall id
      ensures QueuedAt(c.queue, id) == QueuedAt(e.queue, id)
    {
      CombinedRow(e, {}, batch, transport, config, now, id);
    }
    RowsDetermineQueue(c.queue, e.queue);
  }

  /** Processing distinct tables one by one gives the same as all at once. */
  lemma {:induction false} EachIsCombined(
    e: Engine, tables: seq<string>, batch: seq<Mutation>, transport: Transport, config: Config, now: int)
    requires QueueKeyed(e.queue) && OneEach(batch) && Distinct(tables)
    ensures ProcessEach(e, tables, batch, transport, config, now).0 ==
      Combined(e, Names(tables), batch, transport, config, now)
    ensures forall t :: t in ProcessEach(e, tables, batch, transport, config, now).1 <==>
      t in tables && !ResultFor(e, t, batch, transport, config, now).1
  {
    hide ProcessOne, Combined, ResultFor, RequestFor, QueueKeyed, OneEach;
    if tables == [] {
      assert Names(tables) == {};
      CombinedNone(e, batch, transport, config, now);
    } else {
      var init, table := tables[..|tables| - 1], tables[|tables| - 1];
      assert forall i :: 0 <= i < |init| ==> init[i] == tables[i];
      EachIsCombined(e, init, batch, transport, config, now);
      assert Names(tables) == Names(init) + {table};
      FinishOne(e, Names(init), table, batch, transport, config, now);
    }
  }

  // ---- Where every claimed mutation ends ----

  /** The row that a run leaves of a claimed row. */
  function RowAfterRun(
    ready: Engine, claimed: seq<Mutation>, transport: Transport, config: Config, now: int, row: Row): Option<Row>
  {
    var batch, table := BatchOf(claimed), row.mutation.table;
    var claimedRow := row.(status := Syncing);
    if row.mutation.id in BlockedIds(claimed) then Some(row.(status := Pending, nextRetryAt := 0))
    else if config.concurrency <= 0 then Some(FailedRow(claimedRow, now))
    else if !ResultFor(ready, table, batch, transport, config, now).1
    then Some(FailedRow(FailedRow(claimedRow, now), now))
    else Settled(claimedRow, OfTable(batch, table), OutcomeFor(ready, table, batch, transport), true, now)
  }

  lemma ClaimIsOneEach(q: Queue, now: int, limit: nat, scope: Option<string>, claimed: seq<Mutation>)
    requires IsClaim(q, now, limit, scope, claimed)
    ensures OneEach(claimed) && OneEach(BatchOf(claimed))
    ensures forall m :: m in BatchOf(claimed) <==> m in claimed && m.id !in BlockedIds(claimed)
    ensures MutationIds(BatchOf(claimed)) == MutationIds(claimed) - BlockedIds(claimed)
  {
    HavingIds(claimed, MutationIds(claimed) - BlockedIds(claimed));
    hide Having, BlockedIds, Eligible;
  }

  lemma ReadyRow(q: Queue, claimed: seq<Mutation>, id: string)
    ensures QueuedAt(QueueAfterClaim(q, claimed), id) ==
      if id !in q then None
      else if id in BlockedIds(claimed) then Some(q[id].(status := Pending, nextRetryAt := 0))
      else if id in MutationIds(claimed) then Some(q[id].(status := Syncing))
      else Some(q[id])
    ensures QueueKeyed(q) ==> QueueKeyed(QueueAfterClaim(q, claimed))
    ensures id in BlockedIds(claimed) ==> id in MutationIds(claimed)
  {
    hide Having;
  }

  /** However a run ends, with answers, transport errors, failed tables or a bad concurrency value:
      rows outside the claim are untouched, and every claimed row ends as RowAfterRun says. */
  lemma RunSettles(
    e: Engine, claimed: seq<Mutation>, scope: Option<string>, tables: seq<string>, transport: Transport, config: Config,
    now: int, id: string)
    requires QueueKeyed(e.queue) && IsClaim(e.queue, now, CLAIM_LIMIT, scope, claimed)
    requires Distinct(tables) && forall m :: m in claimed ==> m.table in tables
    ensures var ready := e.(queue := QueueAfterClaim(e.queue, claimed));
      QueuedAt(Run(e, claimed, tables, transport, config, now).queue, id) ==
        if id in MutationIds(claimed) then RowAfterRun(ready, claimed, transport, config, now, e.queue[id])
        else QueuedAt(e.queue, id)
  {
    hide BatchOf, BlockedIds, QueueAfterClaim, IsClaim, ProcessEach, ResultFor, OutcomeFor, Find, OfTable, Settled,
         FailedRow, FailIds, Eligible, RowAfter;
    var ready := e.(queue := QueueAfterClaim(e.queue, claimed));
    var batch := BatchOf(claimed);
    ClaimIsOneEach(e.queue, now, CLAIM_LIMIT, scope, claimed);
    ReadyRow(e.queue, claimed, id);
    ClaimedRow(e.queue, now, scope, claimed, id);
    FindFinds(batch, id);
    assert forall m :: m in claimed ==> m.table in Names(tables);
    hide Names;
    if config.concurrency <= 0 {
      FailedRowOf(ready.queue, MutationIds(batch), now, id);
    } else {
      EachIsCombined(ready, tables, batch, transport, config, now);
      var failed := ProcessEach(ready, tables, batch, transport, config, now).1;
      FailedAgain(ready, batch, transport, config, now, id, failed, Names(tables));
    }
  }

  lemma FailedRowOf(q: Queue, ids: set<string>, now: int, id: string)
    ensures QueuedAt(FailIds(q, ids, now), id) ==
      if id in q && id in ids then Some(FailedRow(q[id], now)) else QueuedAt(q, id)
  {}

  /** The second failure mark of a run. */
  lemma FailedAgain(
    ready: Engine, batch: seq<Mutation>, transport: Transport, config: Config, now: int, id: string,
    failed: set<string>, tables: set<string>)
    requires QueueKeyed(ready.queue) && OneEach(batch)
    requires id in MutationIds(batch) ==>
      id in ready.queue && ready.queue[id].mutation in batch && ready.queue[id].mutation.table in tables
    requires forall t :: t in tables ==> (t in failed <==> !ResultFor(ready, t, batch, transport, config, now).1)
    ensures var after := Combined(ready, tables, batch, transport, config, now).queue;
      QueuedAt(FailIds(after, SentTo(batch, failed), now), id) ==
      if id !in MutationIds(batch) then QueuedAt(ready.queue, id)
      else
        var row := ready.queue[id];
        if !ResultFor(ready, row.mutation.table, batch, transport, config, now).1
        then Some(FailedRow(FailedRow(row, now), now))
        else Settled(row, OfTable(batch, row.mutation.table), OutcomeFor(ready, row.mutation.table, batch, transport),
          true, now)
  {
    var q := Combined(ready, tables, batch, transport, config, now).queue;
    FindFinds(batch, id);
    CombinedRow(ready, tables, batch, transport, config, now, id);
    FailedIdsAre(batch, failed, id);
    FailedRowOf(q, SentTo(batch, failed), now, id);
    hide Combined, ResultFor, OutcomeFor, Find, OfTable, Settled, FailedRow, FailIds;
    if id in MutationIds(batch) {
      SentRow(ready, batch, transport, config, now, id, failed, tables);
    }
  }

  lemma FailedIdsAre(batch: seq<Mutation>, failed: set<string>, id: string)
    requires OneEach(batch)
    ensures id in SentTo(batch, failed) <==>
      Find(batch, id).Some? && Find(batch, id).value.table in failed
  {
    FindFinds(batch, id);
    hide Find;
  }

  /** A sent row is settled with its table, and failed a second time if its table failed. */
  lemma SentRow(
    ready: Engine, batch: seq<Mutation>, transport: Transport, config: Config, now: int, id: string,
    failed: set<string>, tables: set<string>)
    requires QueueKeyed(ready.queue) && id in ready.queue && Find(batch, id) == Some(ready.queue[id].mutation)
    requires ready.queue[id].mutation.table in tables
    requires ready.queue[id].mutation.table in failed <==>
      !ResultFor(ready, ready.queue[id].mutation.table, batch, transport, config, now).1
    ensures var row := ready.queue[id];
      var settled := RowAfter(ready, tables, batch, transport, config, now, id);
      if row.mutation.table in failed then settled == Some(FailedRow(row, now))
      else settled == Settled(row, OfTable(batch, row.mutation.table),
        OutcomeFor(ready, row.mutation.table, batch, transport), true, now)
  {
    hide Process, FailedRow, RefusedRow, CodeFor, MessageFor, RejectedIds, OfTable, Find;
  }

  lemma ClaimedRow(q: Queue, now: int, scope: Option<string>, claimed: seq<Mutation>, id: string)
    requires IsClaim(q, now, CLAIM_LIMIT, scope, claimed)
    ensures id in MutationIds(claimed) ==>
      id in q && q[id].mutation in claimed && q[id].mutation.id == id && Eligible(q[id], now, scope)
  {
    hide Eligible;
  }

  // ---- One run after another ----

  /** What a run claimed, which tables it visited, what answered it, and when. */
  datatype RunOnce = RunOnce(
    scope: Option<string>, claimed: seq<Mutation>, tables: seq<string>, transport: Transport, now: int)

  ghost predicate CanRun(e: Engine, r: RunOnce) {
    && QueueKeyed(e.queue)
    && IsClaim(e.queue, r.now, CLAIM_LIMIT, r.scope, r.claimed)
    && Distinct(r.tables)
    && forall m :: m in r.claimed ==> m.table in r.tables
  }

  function RunFrom(e: Engine, r: RunOnce, config: Config): Engine {
    Run(e, r.claimed, r.tables, r.transport, config, r.now)
  }
}
