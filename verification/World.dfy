/** One client, the fixture server and everything around them as a step system: other clients,
    lost, repeated and late requests, lost responses, crashes, and what the user does. */
module World {
  import opened Json
  import opened Records
  import opened Merge
  import opened Store
  import opened Server
  import opened Settlement
  import opened Client
  import opened Runs

  /** What does not change during a run of the system. */
  datatype Setup = Setup(table: string, strategy: Strategy, schemaVersion: int)

  datatype Flight = Idle | Sent(out: Sending) | Replied(out: Sending, reply: Reply)

  /** history, acked and discarded are history variables: every mutation ever enqueued, and the ids
      that left the queue by acknowledgement or by the user's discard. sent is the network: any
      request ever sent may still reach the server, any number of times. */
  datatype World = World(
    server: State,
    client: TableClient,
    flight: Flight,
    sent: set<Sending>,
    history: map<string, Mutation>,
    acked: set<string>,
    discarded: set<string>)

  datatype Step =
    | Local(operation: Operation, fields: map<string, Json>, recordId: string, mutationId: string,
            now: int, schemaVersion: int, dependsOn: seq<string>)
    | Send(claimed: seq<Mutation>, now: int)
    | Serve(headers: Headers)
    | Stray(late: Sending, headers: Headers)
    | Other(request: Request, headers: Headers)
    | Configure(rules: map<string, Rule>)
    | Lose(now: int)
    | Deliver(now: int, serverTime: int)
    | Crash
    | Interrupted(settled: set<string>, rows: Rows, now: int)
    | Retry(id: string)
    | Discard(id: string)

  function RequestOf(setup: Setup, out: Sending): Request {
    var cursor: Option<int> := if out.cursor.Some? then Some(out.cursor.value) else None;
    Request(setup.table, out.batch, cursor, cursor)
  }

  /** The fixture's answer as the client reads it. */
  function ResponseOf(a: Answer, serverTime: int): Response {
    Response(Some(a.records), a.tombstones, a.acked, a.rejected, serverTime,
             Some(if a.cursor >= 0 then Some(a.cursor) else None), false, None)
  }

  /** The time of the answer is the time at which its records are stored, at the earliest. */
  lemma AnswerTimeCounts(a: Answer, serverTime: int, tombs: map<string, int>, x: Record)
    ensures StoreTime(ResponseOf(a, serverTime), tombs, x) >= serverTime
    ensures Id(x) !in tombs ==> StoreTime(ResponseOf(a, serverTime), tombs, x) == serverTime
  {}

  function OutcomeOf(reply: Reply, serverTime: int): Outcome {
    if reply.Accepted? then Answered(ResponseOf(reply.answer, serverTime)) else TransportError
  }

  /** A failed table is marked by its own handler and again by the handler of the run. */
  function ProcessRun(c: TableClient, ms: seq<Mutation>, outcome: Outcome, setup: Setup, now: int): TableClient {
    var (d, ok) := Process(c, ms, outcome, setup.strategy, setup.schemaVersion, now);
    if ok then d else d.(queue := FailIds(d.queue, MutationIds(ms), now))
  }

  function LocalMutation(setup: Setup, memory: Table, step: Step): Mutation
    requires step.Local?
  {
    QueuedMutation(setup.table, memory, step.operation, step.fields, step.recordId,
                   step.mutationId, step.now, step.schemaVersion, step.dependsOn)
  }

  function LocalClient(c: TableClient, step: Step, m: Mutation): TableClient
    requires step.Local?
  {
    AfterLocalWrite(c, step.operation, step.fields, step.recordId, step.now, m)
  }

  function Restart(rows: Rows, q: Queue, cursor: Option<nat>): TableClient {
    TableClient(Live(rows), rows, Recover(q), cursor)
  }

  /** The queue when a crash stopped the settlement after the rows in settled. */
  function HalfSettled(q: Queue, settled: set<string>, ms: seq<Mutation>, a: Answer, now: int): Queue {
    var done := SettleQueue(q, Partition(ms, a.acked, a.rejected), a.rejected, now);
    map id | id in q && (id in settled ==> id in done) :: if id in settled then done[id] else q[id]
  }

  ghost predicate Enabled(setup: Setup, w: World, step: Step) {
    match step
    case Local(_, fields, recordId, id, _, _, _) =>
      && recordId == RecordIdFor(fields, recordId, recordId)
      && id != "" && id !in w.history && id !in w.server.processed
    case Send(claimed, now) => w.flight.Idle? && IsClaim(w.client.queue, now, CLAIM_LIMIT, None, claimed)
    case Serve(_) => w.flight.Sent?
    case Stray(late, _) => late in w.sent
    case Other(req, _) => MutationIds(req.mutations) !! w.history.Keys
    case Configure(_) => true
    case Lose(_) => !w.flight.Idle?
    case Deliver(_, _) => w.flight.Replied?
    case Crash => true
    case Interrupted(_, _, _) => w.flight.Replied? && w.flight.reply.Accepted?
    case Retry(_) => true
    case Discard(_) => true
  }

  function Next(setup: Setup, w: World, step: Step): World
    requires step.Lose? ==> !w.flight.Idle?
    requires step.Serve? ==> w.flight.Sent?
    requires step.Deliver? ==> w.flight.Replied?
    requires step.Interrupted? ==> w.flight.Replied? && w.flight.reply.Accepted?
  {
    match step
    case Local(_, _, _, id, _, _, _) =>
      var m := LocalMutation(setup, w.client.memory, step);
      w.(client := LocalClient(w.client, step, m), history := w.history[id := m])
    case Send(claimed, now) =>
      var out := Sending(BatchOf(claimed), w.client.cursor);
      w.(client := w.client.(queue := QueueAfterClaim(w.client.queue, claimed)),
         flight := Sent(out), sent := w.sent + {out})
    case Serve(h) =>
      var (s, reply) := Handle(w.server, RequestOf(setup, w.flight.out), h);
      w.(server := s, flight := Replied(w.flight.out, reply))
    case Stray(late, h) => w.(server := Handle(w.server, RequestOf(setup, late), h).0)
    case Other(req, h) => w.(server := Handle(w.server, req, h).0)
    case Configure(rules) => w.(server := w.server.(rules := rules))
    case Lose(now) =>
      w.(client := ProcessRun(w.client, w.flight.out.batch, TransportError, setup, now), flight := Idle)
    case Deliver(now, serverTime) =>
      var c := ProcessRun(w.client, w.flight.out.batch, OutcomeOf(w.flight.reply, serverTime), setup, now);
      w.(client := c, flight := Idle,
         acked := w.acked + (w.client.queue.Keys - c.queue.Keys))
    case Crash => w.(client := Restart(w.client.rows, w.client.queue, w.client.cursor), flight := Idle)
    case Interrupted(settled, rows, now) =>
      var q := HalfSettled(w.client.queue, settled, w.flight.out.batch, w.flight.reply.answer, now);
      w.(client := Restart(rows, q, w.client.cursor), flight := Idle,
         acked := w.acked + (w.client.queue.Keys - q.Keys))
    case Retry(id) => w.(client := w.client.(queue := RetryRejected(w.client.queue, id)))
    case Discard(id) =>
      var q := DiscardRejected(w.client.queue, id);
      w.(client := w.client.(queue := q), discarded := w.discarded + (w.client.queue.Keys - q.Keys))
  }

  const FRESH_CLIENT := TableClient(map[], map[], map[], None)

  function Start(server: State): World {
    World(server, FRESH_CLIENT, Idle, {}, map[], {}, {})
  }

  ghost predicate Takes(setup: Setup, w: World, step: Step, w': World) {
    Enabled(setup, w, step) && w' == Next(setup, w, step)
  }

  /** trace is a run: each world follows from the one before it by an enabled step. */
  ghost predicate IsRun(setup: Setup, trace: seq<World>, steps: seq<Step>) {
    && |trace| == |steps| + 1
    && forall i :: 0 <= i < |steps| ==> Takes(setup, trace[i], steps[i], trace[i + 1])
  }

  /** Sending and receiving in the world is a run of Runs whose only table is this one. */
  lemma SendAndReceiveIsRun(
    setup: Setup, c: TableClient, claimed: seq<Mutation>, transport: Transport, config: Config, now: int)
    requires forall m :: m in claimed ==> m.table == setup.table
    requires config.concurrency > 0 && config.strategy == setup.strategy && config.schemaVersion == setup.schemaVersion
    ensures var e := Engine(map[setup.table := Shown(c.memory, c.rows, c.cursor)], c.queue);
      var outcome := transport(setup.table, Sending(BatchOf(claimed), c.cursor));
      Look(Run(e, claimed, [setup.table], transport, config, now), setup.table)
        == ProcessRun(c.(queue := QueueAfterClaim(c.queue, claimed)), BatchOf(claimed), outcome, setup, now)
  {
    var e := Engine(map[setup.table := Shown(c.memory, c.rows, c.cursor)], c.queue);
    var ready := e.(queue := QueueAfterClaim(c.queue, claimed));
    var batch := BatchOf(claimed);
    HavingIds(claimed, MutationIds(claimed) - BlockedIds(claimed));
    assert forall m :: m in batch ==> m in claimed;
    hide Process, QueueAfterClaim, BatchOf, FailIds, Having, BlockedIds, ProcessEach, OfTable, MutationIds, Run;
    OfOnlyTable(batch, setup.table);
    RunOfOne(e, claimed, setup.table, transport, config, now);
    assert Look(ready, setup.table) == c.(queue := ready.queue);
  }

  lemma RunOfOne(e: Engine, claimed: seq<Mutation>, table: string, transport: Transport, config: Config, now: int)
    requires config.concurrency > 0 && forall m :: m in BatchOf(claimed) ==> m.table == table
    ensures var ready := e.(queue := QueueAfterClaim(e.queue, claimed));
      var batch := BatchOf(claimed);
      var (after, ok) := ProcessOne(ready, table, batch, transport(table, RequestFor(ready, table, batch)),
        config, now);
      Run(e, claimed, [table], transport, config, now)
        == if ok then after else after.(queue := FailIds(after.queue, MutationIds(batch), now))
  {
    hide ProcessOne, RequestFor, ProcessEach, BatchOf, QueueAfterClaim, FailIds, MutationIds, SentTo;
    var ready, batch := e.(queue := QueueAfterClaim(e.queue, claimed)), BatchOf(claimed);
    EachOfOne(ready, table, batch, transport, config, now);
    FailedOfOne(batch, table);
    NobodyFails(ProcessEach(ready, [table], batch, transport, config, now).0.queue, now);
  }

  lemma EachOfOne(e: Engine, table: string, batch: seq<Mutation>, transport: Transport, config: Config, now: int)
    ensures var (after, ok) := ProcessOne(e, table, batch, transport(table, RequestFor(e, table, batch)), config, now);
      ProcessEach(e, [table], batch, transport, config, now) == (after, if ok then {} else {table})
  {
    hide ProcessOne, RequestFor;
    var tables := [table];
    assert tables[..0] == [] && tables[|tables| - 1] == table;
    assert ProcessEach(e, tables[..0], batch, transport, config, now) == (e, {});
    var none: set<string> := {};
    assert none + {table} == {table};
  }

  lemma FailedOfOne(batch: seq<Mutation>, table: string)
    requires forall m :: m in batch ==> m.table == table
    ensures SentTo(batch, {table}) == MutationIds(batch) && SentTo(batch, {}) == {}
  {}

  lemma NobodyFails(q: Queue, now: int)
    ensures FailIds(q, {}, now) == q
  {}

  lemma {:induction false} OfOnlyTable(ms: seq<Mutation>, table: string)
    requires forall m :: m in ms ==> m.table == table
    ensures OfTable(ms, table) == ms
  {
    if ms != [] {
      OfOnlyTable(ms[..|ms| - 1], table);
      assert ms[|ms| - 1] in ms;
    }
  }
}
