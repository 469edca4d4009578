/** A run of the fixture in which one dropped acknowledgement, delivered, leaves the client behind the
    server for good, although it has emptied its queue and pulled the whole log. */
module Divergence {
  import opened Json
  import opened Records
  import opened Wire
  import opened Merge
  import opened MergeLaws
  import opened StateMachine
  import opened Store
  import opened Server
  import opened Settlement
  import opened Client
  import opened ClientLaws
  import opened Runs
  import opened World
  import opened Convergence
  import Drain

  const EMPTY_SERVER := State(map[], map[], map[], {})
  const RECORD: Record := Bare("r")

  function Edit(setup: Setup): Mutation {
    Mutation("m", setup.table, Create, RECORD, 0, 1, [])
  }

  const STAMPED: Record := Stamp(None, RECORD, 1)

  /** The server once it has the edit, with and without the note of the dropped acknowledgement. */
  function Holding(setup: Setup, dropped: set<string>): State {
    State(map[setup.table := TableState(1, map["r" := STAMPED], [Change(1, "m", Put(STAMPED))])],
          map["m" := Processed(Fingerprint(Edit(setup)), None)], map[], dropped)
  }

  function TheSteps(setup: Setup): seq<Step> {
    var m := Edit(setup);
    [Local(Create, map[], "r", "m", 0, 1, []),
     Send([m], 0), Serve(Headers(None, Some("m"))), Deliver(0, 0),
     Send([m], 2000), Serve(Headers(None, None)), Deliver(2000, 0)]
  }

  // ---- Stages ----

  ghost predicate Edited(setup: Setup, w: World) {
    && w.server == EMPTY_SERVER && w.flight.Idle? && w.client.cursor.None?
    && Waits(setup, w.client, Pending, 0)
  }

  /** The edit is shown and stored, and waits in the queue. */
  ghost predicate Waits(setup: Setup, c: TableClient, status: Status, until: int) {
    && Keyed(c.memory) && Cell(c.memory, "r") == Some(RECORD)
    && RowAt(c.rows, "r") == Some(StoredRow(RECORD, 0, false))
    && c.queue.Keys == {"m"}
    && c.queue["m"].mutation == Edit(setup) && c.queue["m"].status == status
    && c.queue["m"].retryCount == 0 && c.queue["m"].nextRetryAt <= until
  }

  ghost predicate Behind(setup: Setup, w: World) {
    && w.server == Holding(setup, {"m"}) && w.flight.Idle? && w.client.cursor == Some(1)
    && Keyed(w.client.memory) && Cell(w.client.memory, "r") == Some(RECORD)
    && RowAt(w.client.rows, "r") == Some(StoredRow(RECORD, 0, false))
    && w.client.queue.Keys == {"m"}
    && w.client.queue["m"].mutation == Edit(setup)
    && w.client.queue["m"].status == Failed && w.client.queue["m"].nextRetryAt == 1000
  }

  lemma EditFollows(setup: Setup, w: World)
    requires w == Start(EMPTY_SERVER)
    ensures Enabled(setup, w, Local(Create, map[], "r", "m", 0, 1, []))
    ensures Edited(setup, Next(setup, w, Local(Create, map[], "r", "m", 0, 1, [])))
  {
    var none: map<string, Json> := map[];
    assert (none + none)["id" := Str("r")] == RECORD.fields;
    assert WrittenRecord(None, Create, map[], "r") == RECORD;
    hide WrittenRecord, TimestampOf;
    assert Cell(w.client.memory, "r") == None;
  }

  lemma ClaimOfOne(setup: Setup, q: Queue, now: int)
    requires q.Keys == {"m"} && q["m"].mutation == Edit(setup) && Eligible(q["m"], now, None)
    ensures IsClaim(q, now, CLAIM_LIMIT, None, [Edit(setup)])
    ensures BatchOf([Edit(setup)]) == [Edit(setup)]
    ensures QueueAfterClaim(q, [Edit(setup)]) == map["m" := q["m"].(status := Syncing)]
  {
    Drain.SoleClaim(Edit(setup));
    ClaimsOne(setup, q, now);
    MarksOne(setup, q);
  }

  lemma ClaimsOne(setup: Setup, q: Queue, now: int)
    requires q.Keys == {"m"} && q["m"].mutation == Edit(setup) && Eligible(q["m"], now, None)
    ensures IsClaim(q, now, CLAIM_LIMIT, None, [Edit(setup)])
  {
    hide Eligible;
    assert MutationIds([Edit(setup)]) == {"m"};
  }

  lemma MarksOne(setup: Setup, q: Queue)
    requires q.Keys == {"m"}
    ensures QueueAfterClaim(q, [Edit(setup)]) == map["m" := q["m"].(status := Syncing)]
  {
    var one := [Edit(setup)];
    assert MutationIds(one) == {"m"} && BlockedIds(one) == {};
    hide MutationIds, BlockedIds;
  }

  lemma AcceptOne(s: State, table: string, m: Mutation, h: Headers)
    ensures AcceptAll(Progress(s, [], [], None), table, [m], h) == Accept(Progress(s, [], [], None), table, m, h)
  {
    hide Accept;
    var one := [m];
    assert one[..0] == [] && one[|one| - 1] == m;
    assert AcceptAll(Progress(s, [], [], None), table, one[..0], h) == Progress(s, [], [], None);
  }

  const FIRST_ANSWER := Answer([STAMPED], [], [], [], 1)

  const SECOND_ANSWER := Answer([], [], ["m"], [], 1)

  lemma OneEntry(version: nat, cause: string, r: Record)
    ensures var log := [Change(version, cause, Put(r))];
      && (version > 0 ==> Since(log, 0) == log && RecordsIn(log) == [r] && TombstonesIn(log) == [])
      && Since(log, version) == []
  {
    var log := [Change(version, cause, Put(r))];
    assert log[..0] == [] && log[|log| - 1] == Change(version, cause, Put(r));
    assert Since(log[..0], 0) == [] && Since(log[..0], version) == [];
    assert RecordsIn(log[..0]) == [] && TombstonesIn(log[..0]) == [];
    assert [] + [Change(version, cause, Put(r))] == log;
  }

  /** The first request is applied and its acknowledgement dropped. */
  lemma ServeDropped(setup: Setup)
    requires setup.table != ""
    ensures Handle(EMPTY_SERVER, RequestOf(setup, Sending([Edit(setup)], None)), Headers(None, Some("m")))
         == (Holding(setup, {"m"}), Accepted(FIRST_ANSWER))
  {
    var h, m := Headers(None, Some("m")), Edit(setup);
    var req := RequestOf(setup, Sending([m], None));
    var ready := EMPTY_SERVER.(tables := map[setup.table := EMPTY_TABLE]);
    AcceptOne(ready, setup.table, m, h);
    hide Fingerprint, Stamp, Since, RecordsIn, TombstonesIn, AcceptAll;
    assert ValidRequest(req);
    assert EMPTY_SERVER.(tables := EMPTY_SERVER.tables[setup.table := TableOf(EMPTY_SERVER, setup.table)]) == ready;
    var none: Table := map[];
    assert Cell(none, "r") == None;
    assert none["r" := STAMPED] == map["r" := STAMPED];
    assert Commit(EMPTY_TABLE, m) == TableState(1, map["r" := STAMPED], [Change(1, "m", Put(STAMPED))]);
    var p := Accept(Progress(ready, [], [], None), setup.table, m, h);
    assert p == Progress(Holding(setup, {"m"}), [], [], None);
    OneEntry(1, "m", STAMPED);
  }

  /** The second is a duplicate: it is acknowledged, and the pull behind the cursor is empty. */
  lemma ServeAgain(setup: Setup)
    requires setup.table != ""
    ensures Handle(Holding(setup, {"m"}), RequestOf(setup, Sending([Edit(setup)], Some(1))), Headers(None, None))
         == (Holding(setup, {}), Accepted(SECOND_ANSWER))
  {
    var h, m, s := Headers(None, None), Edit(setup), Holding(setup, {"m"});
    var req := RequestOf(setup, Sending([m], Some(1)));
    AcceptOne(s, setup.table, m, h);
    hide Fingerprint, Stamp, Since, AcceptAll;
    assert ValidRequest(req);
    assert s.(tables := s.tables[setup.table := TableOf(s, setup.table)]) == s;
    var p := Accept(Progress(s, [], [], None), setup.table, m, h);
    assert {"m"} - {"m"} == {};
    assert p == Progress(Holding(setup, {}), ["m"], [], None);
    OneEntry(1, "m", STAMPED);
  }

  // ---- The two deliveries ----

  lemma OneUnacked(m: Mutation)
    ensures Unacked([m], []) == [m] && RecordIds([m]) == {Id(m.payload)} && MutationIds([m]) == {m.id}
    ensures MutationIds(Partition([m], [], []).unacknowledged) == {m.id}
    ensures Partition([m], [], []).acknowledged == []
    ensures Unacked([m], [m.id]) == [] && AcknowledgedIds([m], [m.id]) == {m.id}
  {
    var one := [m];
    assert MutationIds(one) == {m.id};
    assert AcknowledgedIds(one, []) == {} && RejectedIds(one, [], []) == {};
    assert AcknowledgedIds(one, [m.id]) == {m.id};
    PartitionIsExact(one, [], []);
    assert one[..0] == [] && one[|one| - 1] == m;
    assert Having(one[..0], {m.id}) == [] && Having(one[..0], {}) == [];
    assert Having(one, {m.id}) == [] + [m] && Having(one, {}) == [];
    assert {m.id} - {} == {m.id} && {m.id} - {m.id} == {};
  }

  lemma AnsweredQueue(setup: Setup, c: TableClient, ms: seq<Mutation>, a: Answer, now: int, at: int)
    ensures ProcessRun(c, ms, Answered(ResponseOf(a, at)), setup, now).queue
         == SettleQueue(c.queue, Partition(ms, a.acked, a.rejected), a.rejected, now)
  {
    hide SettleQueue, Partition, VisibleAfter, PersistRecords, PersistTombstones, ClearCovered;
  }

  lemma FirstDelivery(setup: Setup, c: TableClient)
    requires Waits(setup, c, Syncing, 0)
    ensures var d := ProcessRun(c, [Edit(setup)], Answered(ResponseOf(FIRST_ANSWER, 0)), setup, 0);
      && d.cursor == Some(1) && d.queue.Keys == {"m"}
      && Keyed(d.memory) && Cell(d.memory, "r") == Some(RECORD)
      && RowAt(d.rows, "r") == Some(StoredRow(RECORD, 0, false))
      && d.queue["m"].mutation == Edit(setup)
      && d.queue["m"].status == Failed && d.queue["m"].nextRetryAt == 1000
  {
    FirstShown(setup, c);
    FirstQueued(setup, c);
    hide ProcessRun, Waits, Edit;
  }

  lemma FirstShown(setup: Setup, c: TableClient)
    requires Waits(setup, c, Syncing, 0)
    ensures var d := ProcessRun(c, [Edit(setup)], Answered(ResponseOf(FIRST_ANSWER, 0)), setup, 0);
      && d.cursor == Some(1)
      && Keyed(d.memory) && Cell(d.memory, "r") == Some(RECORD)
      && RowAt(d.rows, "r") == Some(StoredRow(RECORD, 0, false))
  {
    var m, r := Edit(setup), ResponseOf(FIRST_ANSWER, 0);
    assert m.id == "m" && Id(m.payload) == "r";
    OneUnacked(m);
    AnsweredClient(setup, c, [m], FIRST_ANSWER, 0, 0);
    AnsweredCell(c.memory, c.rows, [m], r, setup.strategy, "r");
    assert Deletions([m]) == {};
    hide ProcessRun, VisibleAfter, RowsAfter, Unacked, Partition, MergeTable, UnionTombs;
    VisibleIsKeyed(c.memory, c.rows, [m], r, setup.strategy);
    OutstandingRowsAreProtected(c.memory, c.rows, [m], r, setup.strategy, m);
  }

  lemma FirstQueued(setup: Setup, c: TableClient)
    requires Waits(setup, c, Syncing, 0)
    ensures var d := ProcessRun(c, [Edit(setup)], Answered(ResponseOf(FIRST_ANSWER, 0)), setup, 0);
      && d.queue.Keys == {"m"}
      && d.queue["m"].mutation == Edit(setup)
      && d.queue["m"].status == Failed && d.queue["m"].nextRetryAt == 1000
  {
    OneUnacked(Edit(setup));
    AnsweredQueue(setup, c, [Edit(setup)], FIRST_ANSWER, 0, 0);
    hide ProcessRun, Partition, Unacked, ResponseOf;
  }

  lemma SecondDelivery(setup: Setup, c: TableClient)
    requires Keyed(c.memory) && Cell(c.memory, "r") == Some(RECORD) && c.queue.Keys == {"m"}
    requires RowAt(c.rows, "r") == Some(StoredRow(RECORD, 0, false))
    ensures var d := ProcessRun(c, [Edit(setup)], Answered(ResponseOf(SECOND_ANSWER, 0)), setup, 2000);
      d.cursor == Some(1) && d.queue == map[] && Cell(d.memory, "r") == Some(RECORD)
  {
    var m, r := Edit(setup), ResponseOf(SECOND_ANSWER, 0);
    assert m.id == "m" && Id(m.payload) == "r";
    OneUnacked(m);
    AnsweredClient(setup, c, [m], SECOND_ANSWER, 2000, 0);
    AnsweredCell(c.memory, c.rows, [m], r, setup.strategy, "r");
    var none: seq<Mutation> := [];
    assert Deletions(none) == {} && RecordIds(none) == {};
    var tombs := UnionTombs(Tombs(c.rows), []);
    assert "r" !in tombs;
    PullAllAt(Pruned(c.memory, {}, tombs), [], {}, setup.strategy, tombs, "r");
    PrunedAt(c.memory, {}, tombs, "r");
    hide ProcessRun, VisibleAfter, RowsAfter, Unacked, Partition, Tombs;
    var q := ProcessRun(c, [m], Answered(r), setup, 2000).queue;
    assert q.Keys == {"m"} - {"m"} == {};
  }

  // ---- The run ----

  lemma SendStep(setup: Setup, w: World, now: int)
    requires w.flight.Idle? && w.client.queue.Keys == {"m"} && w.client.queue["m"].mutation == Edit(setup)
    requires Eligible(w.client.queue["m"], now, None)
    ensures Enabled(setup, w, Send([Edit(setup)], now))
    ensures var w' := Next(setup, w, Send([Edit(setup)], now));
      && w'.server == w.server && w'.flight == Sent(Sending([Edit(setup)], w.client.cursor))
      && w'.client == w.client.(queue := map["m" := w.client.queue["m"].(status := Syncing)])
  {
    ClaimOfOne(setup, w.client.queue, now);
    hide IsClaim, QueueAfterClaim, BatchOf, Eligible;
  }

  ghost predicate FirstSent(setup: Setup, w: World) {
    && w.server == EMPTY_SERVER && w.flight == Sent(Sending([Edit(setup)], None))
    && w.client.cursor.None? && Waits(setup, w.client, Syncing, 0)
  }

  lemma FirstSend(setup: Setup, w: World) returns (w': World)
    requires Edited(setup, w)
    ensures Takes(setup, w, Send([Edit(setup)], 0), w') && FirstSent(setup, w')
  {
    SendStep(setup, w, 0);
    w' := Next(setup, w, Send([Edit(setup)], 0));
    hide Next, Enabled;
  }

  lemma FirstServe(setup: Setup, w: World) returns (w': World)
    requires setup.table != "" && FirstSent(setup, w)
    ensures Takes(setup, w, Serve(Headers(None, Some("m"))), w')
    ensures w' == w.(server := Holding(setup, {"m"}), flight := Replied(w.flight.out, Accepted(FIRST_ANSWER)))
  {
    ServeDropped(setup);
    hide Handle, Holding, Waits;
    w' := Next(setup, w, Serve(Headers(None, Some("m"))));
  }

  lemma DeliverGoes(setup: Setup, w: World, now: int, at: int)
    requires w.flight.Replied? && w.flight.reply.Accepted?
    ensures Enabled(setup, w, Deliver(now, at))
    ensures var w' := Next(setup, w, Deliver(now, at));
      && w'.client == ProcessRun(w.client, w.flight.out.batch, Answered(ResponseOf(w.flight.reply.answer, at)),
        setup, now)
      && w'.server == w.server && w'.flight.Idle?
  {
    hide ProcessRun, ResponseOf;
  }

  lemma FirstDeliver(setup: Setup, before: World, w: World) returns (w': World)
    requires FirstSent(setup, before)
    requires w == before.(server := Holding(setup, {"m"}),
      flight := Replied(before.flight.out, Accepted(FIRST_ANSWER)))
    ensures Takes(setup, w, Deliver(0, 0), w') && Behind(setup, w')
  {
    hide ProcessRun, Holding, Waits, ResponseOf;
    FirstDelivery(setup, w.client);
    DeliverGoes(setup, w, 0, 0);
    hide Next, Enabled;
    w' := Next(setup, w, Deliver(0, 0));
  }

  ghost predicate SentAgain(setup: Setup, w: World) {
    && w.server == Holding(setup, {"m"}) && w.flight == Sent(Sending([Edit(setup)], Some(1)))
    && Keyed(w.client.memory) && Cell(w.client.memory, "r") == Some(RECORD)
    && RowAt(w.client.rows, "r") == Some(StoredRow(RECORD, 0, false))
    && w.client.queue.Keys == {"m"}
  }

  lemma SecondSend(setup: Setup, w: World) returns (w': World)
    requires Behind(setup, w)
    ensures Takes(setup, w, Send([Edit(setup)], 2000), w') && SentAgain(setup, w')
  {
    SendStep(setup, w, 2000);
    w' := Next(setup, w, Send([Edit(setup)], 2000));
    hide Next, Enabled, Holding;
  }

  lemma SecondServe(setup: Setup, w: World) returns (w': World)
    requires setup.table != "" && SentAgain(setup, w)
    ensures Takes(setup, w, Serve(Headers(None, None)), w')
    ensures w' == w.(server := Holding(setup, {}), flight := Replied(w.flight.out, Accepted(SECOND_ANSWER)))
  {
    ServeAgain(setup);
    hide Handle, Holding;
    w' := Next(setup, w, Serve(Headers(None, None)));
  }

  lemma SecondDeliver(setup: Setup, before: World, w: World) returns (w': World)
    requires SentAgain(setup, before)
    requires w == before.(server := Holding(setup, {}), flight := Replied(before.flight.out, Accepted(SECOND_ANSWER)))
    ensures Takes(setup, w, Deliver(2000, 0), w')
    ensures w'.client.queue == map[] && w'.client.cursor == Some(1) && w'.flight.Idle?
    ensures Cell(w'.client.memory, "r") == Some(RECORD) && w'.server == Holding(setup, {})
  {
    hide ProcessRun, Holding, ResponseOf;
    SecondDelivery(setup, w.client);
    DeliverGoes(setup, w, 2000, 0);
    hide Next, Enabled;
    w' := Next(setup, w, Deliver(2000, 0));
  }

  lemma TheWorlds(setup: Setup) returns (w1: World, w2: World, w3: World, w4: World, w5: World, w6: World, w7: World)
    requires setup.table != ""
    ensures Takes(setup, Start(EMPTY_SERVER), Local(Create, map[], "r", "m", 0, 1, []), w1)
    ensures Takes(setup, w1, Send([Edit(setup)], 0), w2)
    ensures Takes(setup, w2, Serve(Headers(None, Some("m"))), w3)
    ensures Takes(setup, w3, Deliver(0, 0), w4)
    ensures Takes(setup, w4, Send([Edit(setup)], 2000), w5)
    ensures Takes(setup, w5, Serve(Headers(None, None)), w6)
    ensures Takes(setup, w6, Deliver(2000, 0), w7)
    ensures w7.client.queue == map[] && w7.client.cursor == Some(1) && w7.flight.Idle?
    ensures Cell(w7.client.memory, "r") == Some(RECORD) && w7.server == Holding(setup, {})
  {
    hide Start, Edited, FirstSent, Behind, SentAgain, Holding, Edit, Takes;
    w1 := FirstEdit(setup);
    w2 := FirstSend(setup, w1);
    w3 := FirstServe(setup, w2);
    w4 := FirstDeliver(setup, w2, w3);
    w5 := SecondSend(setup, w4);
    w6 := SecondServe(setup, w5);
    w7 := SecondDeliver(setup, w5, w6);
  }

  lemma FirstEdit(setup: Setup) returns (w: World)
    ensures Takes(setup, Start(EMPTY_SERVER), Local(Create, map[], "r", "m", 0, 1, []), w) && Edited(setup, w)
  {
    EditFollows(setup, Start(EMPTY_SERVER));
    hide Next, Enabled, Edited, Start;
    w := Next(setup, Start(EMPTY_SERVER), Local(Create, map[], "r", "m", 0, 1, []));
  }

  /** The run: an edit is sent, applied, and its acknowledgement dropped; the answer is delivered; the
      edit is sent again and acknowledged. The client ends with an empty queue and the whole log
      pulled, but still shows the record without the server's version of it. */
  lemma DroppedAcknowledgementDiverges(setup: Setup) returns (trace: seq<World>)
    requires setup.table != ""
    ensures IsRun(setup, trace, TheSteps(setup)) && trace[0] == Start(EMPTY_SERVER)
    ensures var w := trace[7];
      && w.flight.Idle? && w.client.queue == map[]
      && w.client.cursor == Some(|TableOf(w.server, setup.table).changes|)
      && w.client.memory != TableOf(w.server, setup.table).records
  {
    hide *;
    var w1, w2, w3, w4, w5, w6, w7 := TheWorlds(setup);
    ServerIsAhead(setup, w7);
    ListedSteps(setup);
    var steps;
    trace, steps := NoSteps(setup, Start(EMPTY_SERVER));
    trace, steps := OneStep(setup, trace, steps, Local(Create, map[], "r", "m", 0, 1, []), w1);
    trace, steps := OneStep(setup, trace, steps, Send([Edit(setup)], 0), w2);
    trace, steps := OneStep(setup, trace, steps, Serve(Headers(None, Some("m"))), w3);
    trace, steps := OneStep(setup, trace, steps, Deliver(0, 0), w4);
    trace, steps := OneStep(setup, trace, steps, Send([Edit(setup)], 2000), w5);
    trace, steps := OneStep(setup, trace, steps, Serve(Headers(None, None)), w6);
    trace, steps := OneStep(setup, trace, steps, Deliver(2000, 0), w7);
  }

  lemma ListedSteps(setup: Setup)
    ensures [] + [Local(Create, map[], "r", "m", 0, 1, [])] + [Send([Edit(setup)], 0)]
      + [Serve(Headers(None, Some("m")))] + [Deliver(0, 0)] + [Send([Edit(setup)], 2000)]
      + [Serve(Headers(None, None))] + [Deliver(2000, 0)] == TheSteps(setup)
  {}

  lemma NoSteps(setup: Setup, w: World) returns (trace: seq<World>, steps: seq<Step>)
    ensures IsRun(setup, trace, steps) && trace == [w] && steps == []
  {
    trace, steps := [w], [];
  }

  lemma OneStep(
    setup: Setup, t: seq<World>, s: seq<Step>, step: Step, w: World) returns (trace: seq<World>, steps: seq<Step>)
    requires IsRun(setup, t, s) && |t| == |s| + 1 && Takes(setup, t[|t| - 1], step, w)
    ensures IsRun(setup, trace, steps) && steps == s + [step]
    ensures |trace| == |t| + 1 && trace[0] == t[0] && trace[|t|] == w
  {
    hide Takes;
    trace, steps := t + [w], s + [step];
  }

  lemma ServerIsAhead(setup: Setup, w: World)
    requires w.server == Holding(setup, {}) && Cell(w.client.memory, "r") == Some(RECORD)
    ensures |TableOf(w.server, setup.table).changes| == 1
    ensures w.client.memory != TableOf(w.server, setup.table).records
  {
    assert "updatedAt" in STAMPED.fields && "updatedAt" !in RECORD.fields;
    assert Cell(TableOf(w.server, setup.table).records, "r") == Some(STAMPED);
  }
}
