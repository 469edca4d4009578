/** What happens to each mutation of a run, read off what the run was given: the claim, the
    concurrency value and the answers. */
module Verdicts {
  import opened Json
  import opened Records
  import opened Merge
  import opened StateMachine
  import opened Store
  import opened Server
  import opened Settlement
  import opened Client
  import opened ClientLaws
  import opened Runs

  datatype Verdict = HeldBack | Acknowledged | Refused | FailsOnce | FailsTwice

  /** The server rejects the mutation for good. */
  predicate RejectedFinally(r: Response, id: string) {
    exists x :: x in r.rejected && x.mutationId == id && x.retryable == Some(false)
  }

  /** A blocked mutation is held back; a bad concurrency value fails it once, a failed table twice;
      otherwise the answer decides, and an acknowledgement before a rejection. */
  ghost function VerdictOn(e: Engine, r: RunOnce, config: Config, m: Mutation): Verdict {
    var batch := BatchOf(r.claimed);
    var outcome := OutcomeFor(e, m.table, batch, r.transport);
    var shown := ShownAt(e, m.table);
    if m.id in BlockedIds(r.claimed) then HeldBack
    else if config.concurrency <= 0 then FailsOnce
    else if TableFails(shown.memory, shown.rows, OfTable(batch, m.table), outcome, config.schemaVersion) then FailsTwice
    else if m.id in outcome.response.acked then Acknowledged
    else if RejectedFinally(outcome.response, m.id) then Refused
    else FailsOnce
  }

  /** What is left of a claimed row. */
  function RowBy(v: Verdict, row: Row, rejections: seq<Rejection>, now: int): Option<Row> {
    var id, claimedRow := row.mutation.id, row.(status := Syncing);
    match v
    case HeldBack => Some(row.(status := Pending, nextRetryAt := 0))
    case Acknowledged => None
    case Refused => Some(RefusedRow(claimedRow, CodeFor(rejections, id), MessageFor(rejections, id)))
    case FailsOnce => Some(FailedRow(claimedRow, now))
    case FailsTwice => Some(FailedRow(FailedRow(claimedRow, now), now))
  }

  /** Answers are normalized and the tables they are for hold records under their own ids. */
  ghost predicate WellFormed(e: Engine, r: RunOnce, m: Mutation) {
    var outcome := OutcomeFor(e, m.table, BatchOf(r.claimed), r.transport);
    Keyed(ShownAt(e, m.table).memory) && (outcome.Answered? ==> Normalized(outcome.response))
  }

  function RejectionsFor(e: Engine, r: RunOnce, m: Mutation): seq<Rejection> {
    var outcome := OutcomeFor(e, m.table, BatchOf(r.claimed), r.transport);
    if outcome.Answered? then outcome.response.rejected else []
  }

  /** A run does to each claimed row what its verdict says. */
  lemma RunDecides(e: Engine, r: RunOnce, config: Config, id: string)
    requires CanRun(e, r) && id in MutationIds(r.claimed)
    requires id in e.queue ==> WellFormed(e, r, e.queue[id].mutation)
    ensures id in e.queue && e.queue[id].mutation.id == id && IsRetryable(e.queue[id].status)
    ensures var row := e.queue[id];
      QueuedAt(RunFrom(e, r, config).queue, id)
        == RowBy(VerdictOn(e, r, config, row.mutation), row, RejectionsFor(e, r, row.mutation), r.now)
  {
    RunSettles(e, r.claimed, r.scope, r.tables, r.transport, config, r.now, id);
    ClaimedRow(e.queue, r.now, r.scope, r.claimed, id);
    ClaimIsOneEach(e.queue, r.now, CLAIM_LIMIT, r.scope, r.claimed);
    hide RowAfterRun, RowBy, VerdictOn, IsClaim, BatchOf, BlockedIds, Run, QueueAfterClaim, WellFormed, RejectionsFor;
    VerdictGives(e, r, config, e.queue[id]);
  }

  lemma VerdictGives(e: Engine, r: RunOnce, config: Config, row: Row)
    requires row.mutation.id !in BlockedIds(r.claimed) ==> row.mutation in BatchOf(r.claimed)
    requires WellFormed(e, r, row.mutation)
    ensures
      RowAfterRun(e.(queue := QueueAfterClaim(e.queue, r.claimed)), r.claimed, r.transport, config, r.now, row)
        == RowBy(VerdictOn(e, r, config, row.mutation), row, RejectionsFor(e, r, row.mutation), r.now)
  {
    var m, batch, q := row.mutation, BatchOf(r.claimed), QueueAfterClaim(e.queue, r.claimed);
    hide BatchOf, BlockedIds, QueueAfterClaim, Collides, OfTable, FailedRow, RefusedRow, CodeFor, MessageFor,
         ResultFor, RejectedFinally, RejectedIds, OutcomeFor;
    if m.id !in BlockedIds(r.claimed) {
      QueueDoesNotMatter(e, q, m.table, batch, r.transport, config, r.now);
      OutcomeDecides(e, m.table, batch, r.transport, config, r.now, m);
    }
  }

  lemma QueueDoesNotMatter(
    e: Engine, q: Queue, table: string, batch: seq<Mutation>, transport: Transport, config: Config, now: int)
    ensures OutcomeFor(e.(queue := q), table, batch, transport) == OutcomeFor(e, table, batch, transport)
    ensures ResultFor(e.(queue := q), table, batch, transport, config, now).1 ==
      ResultFor(e, table, batch, transport, config, now).1
  {
    hide RowsAfter, VisibleAfter, ClearCovered, SettleQueue, FailIds, Partition, OfTable;
  }

  lemma OutcomeDecides(
    e: Engine, table: string, batch: seq<Mutation>, transport: Transport, config: Config, now: int, m: Mutation)
    requires m in batch && m.table == table && Keyed(ShownAt(e, table).memory)
    requires var outcome := OutcomeFor(e, table, batch, transport); outcome.Answered? ==> Normalized(outcome.response)
    ensures var outcome, shown := OutcomeFor(e, table, batch, transport), ShownAt(e, table);
      && (TableFails(shown.memory, shown.rows, OfTable(batch, table), outcome, config.schemaVersion) <==>
            !ResultFor(e, table, batch, transport, config, now).1)
      && (outcome.Answered? && m.id !in outcome.response.acked ==>
            (RejectedFinally(outcome.response, m.id) <==>
              m.id in RejectedIds(OfTable(batch, table), outcome.response.acked, outcome.response.rejected)))
  {
    OfTableHolds(batch, table);
    hide OfTable, TableFails, Process;
    TableFailsExactly(Look(e, table), OfTable(batch, table), OutcomeFor(e, table, batch, transport),
                      config.strategy, config.schemaVersion, now);
    assert m in OfTable(batch, table);
    assert m.id in MutationIds(OfTable(batch, table));
  }

  /** How often a run counts a failure of the row: a failed table counts twice. */
  function Marks(v: Verdict): nat {
    match v
    case FailsOnce => 1
    case FailsTwice => 2
    case _ => 0
  }

  lemma RetryCountAfterRun(e: Engine, r: RunOnce, config: Config, id: string)
    requires CanRun(e, r) && id in MutationIds(r.claimed)
    requires id in e.queue ==> WellFormed(e, r, e.queue[id].mutation)
    ensures id in e.queue
    ensures var v, q := VerdictOn(e, r, config, e.queue[id].mutation), RunFrom(e, r, config).queue;
      && (id in q <==> v != Acknowledged)
      && (id in q ==> q[id].retryCount == e.queue[id].retryCount + Marks(v))
  {
    RunDecides(e, r, config, id);
    hide RunFrom, VerdictOn, CodeFor, MessageFor, Clock, RetryDelay, WellFormed;
  }

  /** Two at once: a single mutation and a transport that fails. */
  lemma TransportErrorCountsTwice() returns (e: Engine, r: RunOnce, config: Config)
    ensures CanRun(e, r) && r.claimed != [] && "m" in e.queue && e.queue["m"].retryCount == 0
    ensures var q := RunFrom(e, r, config).queue; "m" in q && q["m"].retryCount == 2
  {
    var m := Mutation("m", "t", Create, Bare("x"), 0, 1, []);
    e := Engine(map[], map["m" := Row(m, Pending, 0, 0, None, None)]);
    r := RunOnce(None, [m], ["t"], (table, request) => TransportError, 0);
    config := Config(LastWriteWins, 1, 4);
    assert MutationIds([m]) == {"m"};
    hide RunFrom, BatchOf, OfTable, Process, TableFails;
    RetryCountAfterRun(e, r, config, "m");
    assert BlockedIds([m]) == {};
    assert TableFails(map[], map[], OfTable(BatchOf(r.claimed), "t"), TransportError, 1) by {
      FailsWithoutAnswer(map[], map[], OfTable(BatchOf(r.claimed), "t"), 1);
    }
  }

  lemma FailsWithoutAnswer(memory: Table, rows: Rows, ms: seq<Mutation>, schemaVersion: int)
    ensures TableFails(memory, rows, ms, TransportError, schemaVersion)
  {}

  // ---- The declared life cycle ----

  /** The events that a verdict stands for. */
  function EventsOf(v: Verdict): seq<Event> {
    match v
    case HeldBack => [Claimed, Retry]
    case Acknowledged => [Claimed, AckedBy]
    case Refused => [Claimed, RejectedBy]
    case FailsOnce => [Claimed, FailedBy]
    case FailsTwice => [Claimed, FailedBy, FailedBy]
  }

  /** No claimed row is left SYNCING, and its way was one of the declared life cycle. */
  lemma RunFollowsTheStateMachine(e: Engine, r: RunOnce, config: Config, id: string)
    requires CanRun(e, r) && id in MutationIds(r.claimed)
    requires id in e.queue ==> WellFormed(e, r, e.queue[id].mutation)
    ensures id in e.queue
    ensures var q := RunFrom(e, r, config).queue;
      var status := if id in q then q[id].status else Acked;
      && status != Syncing
      && status == Follow(e.queue[id].status, EventsOf(VerdictOn(e, r, config, e.queue[id].mutation)))
  {
    RunDecides(e, r, config, id);
    var v, row := VerdictOn(e, r, config, e.queue[id].mutation), e.queue[id];
    hide RunFrom, VerdictOn, CodeFor, MessageFor, Clock, RetryDelay, WellFormed;
    EndOf(v, row, RejectionsFor(e, r, row.mutation), r.now);
  }

  lemma EndOf(v: Verdict, row: Row, rejections: seq<Rejection>, now: int)
    requires IsRetryable(row.status)
    ensures var after := RowBy(v, row, rejections, now);
      var status := if after.None? then Acked else after.value.status;
      status != Syncing && status == Follow(row.status, EventsOf(v))
  {
    hide CodeFor, MessageFor, Clock, RetryDelay;
    var two, three := [Claimed, FailedBy], [Claimed, FailedBy, FailedBy];
    assert three[..2] == two;
    FollowTwo(row.status, FailedBy);
    FollowTwo(row.status, AckedBy);
    FollowTwo(row.status, RejectedBy);
    FollowTwo(row.status, Retry);
  }
}
