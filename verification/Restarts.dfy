/** What restarts and calls of the user leave: nothing that was in flight is stuck, and a call does what
    it was asked for and no more. */
module Restarts {
  import opened Json
  import opened Records
  import opened StateMachine
  import opened Store
  import opened Server
  import opened Settlement
  import opened Client
  import opened LocalWrites
  import opened World

  /** Recovery takes the declared step for every interrupted row and touches no other. */
  lemma RecoveryMeans(q: Queue)
    ensures Recover(q).Keys == q.Keys
    ensures forall id :: id in q ==>
      && Recover(q)[id].status != Syncing
      && (q[id].status == Syncing ==> Recover(q)[id] == q[id].(status := Transition(Syncing, Recovered)))
      && (q[id].status != Syncing ==> Recover(q)[id] == q[id])
  {}

  /** After a restart the client shows the stored live records at its old position, and every queued
      mutation that the server has not refused for good can be claimed as soon as its retry time has
      come. */
  lemma RestartFinds(rows: Rows, q: Queue, cursor: Option<nat>, now: int)
    requires QueueKeyed(q)
    ensures var c := Restart(rows, q, cursor);
      && c.rows == rows && c.cursor == cursor
      && (forall k :: Cell(c.memory, k) == if k in rows && !rows[k].deleted then Some(rows[k].payload) else None)
      && c.queue.Keys == q.Keys
      && forall id :: id in q ==>
           && c.queue[id].mutation == q[id].mutation && c.queue[id].nextRetryAt == q[id].nextRetryAt
           && c.queue[id].retryCount == q[id].retryCount && c.queue[id].status != Syncing
           && (c.queue[id].status == Rejected <==> q[id].status == Rejected)
           && (Eligible(c.queue[id], now, None) <==> q[id].status != Rejected && q[id].nextRetryAt <= Clock(now))
  {
    RecoveryMeans(q);
    hide Clock;
  }

  /** The rows that a crash in the middle of the settlement leaves: those in settled as the answer
      decides, the others as they were sent. */
  lemma HalfSettledMeans(q: Queue, settled: set<string>, ms: seq<Mutation>, a: Answer, now: int, id: string)
    requires id in q
    ensures var left := HalfSettled(q, settled, ms, a, now);
      && (id !in left <==> id in settled && id in MutationIds(ms) && id in a.acked)
      && (id in left && id !in settled ==> left[id] == q[id])
      && (id in left && id !in MutationIds(ms) ==> left[id] == q[id])
      && (id in left ==> left[id].mutation == q[id].mutation && (q[id].status != Acked ==> left[id].status != Acked))
  {
    PartitionIsExact(ms, a.acked, a.rejected);
    hide Partition, RejectedIds, CodeFor, MessageFor, Clock, RetryDelay;
  }

  lemma HalfSettledKeys(q: Queue, settled: set<string>, ms: seq<Mutation>, a: Answer, now: int)
    ensures HalfSettled(q, settled, ms, a, now).Keys <= q.Keys
  {}

  /** Crashes lose nothing: after one, also in the middle of a settlement, nothing is in flight, and each
      queued mutation is still queued, unless its acknowledgement was already carried out, and can be
      claimed when its time comes, unless it is REJECTED. */
  lemma CrashLosesNothing(setup: Setup, w: World, step: Step, id: string, now: int)
    requires step.Crash? || step.Interrupted?
    requires Enabled(setup, w, step) && QueueKeyed(w.client.queue) && id in w.client.queue
    ensures var w' := Next(setup, w, step);
      && w'.flight.Idle? && w'.server == w.server && w'.client.cursor == w.client.cursor
      && (id !in w'.client.queue ==> step.Interrupted? && id in w.flight.reply.answer.acked)
      && (id in w'.client.queue ==>
            var row := w'.client.queue[id];
            && row.mutation == w.client.queue[id].mutation && row.status != Syncing
            && (Eligible(row, now, None) <==> row.status != Rejected && row.nextRetryAt <= Clock(now)))
  {
    hide Recover, HalfSettled, Live, Clock, Restart, IsRetryable;
    if step.Crash? {
      RestartFinds(w.client.rows, w.client.queue, w.client.cursor, now);
    } else {
      var ms, a := w.flight.out.batch, w.flight.reply.answer;
      var q := HalfSettled(w.client.queue, step.settled, ms, a, step.now);
      forall k | k in w.client.queue
        ensures k in q ==> q[k].mutation == w.client.queue[k].mutation && q[k].status != Acked
      {
        HalfSettledMeans(w.client.queue, step.settled, ms, a, step.now, k);
      }
      HalfSettledKeys(w.client.queue, step.settled, ms, a, step.now);
      RestartFinds(step.rows, q, w.client.cursor, now);
      HalfSettledMeans(w.client.queue, step.settled, ms, a, step.now, id);
    }
  }

  /** A local write, a retry and a discard change nothing but the client. A write is performed as it was
      ordered; a retry makes a REJECTED mutation claimable as if it were new; a discard removes it. */
  lemma CallsDoAsAsked(setup: Setup, w: World, step: Step, id: string)
    requires step.Local? || step.Retry? || step.Discard?
    ensures var c, w' := w.client, Next(setup, w, step);
      && w'.server == w.server && w'.flight == w.flight && w'.sent == w.sent && w'.acked == w.acked
      && (step.Local? ==>
            Performed(c, w'.client, Order(setup.table, step.operation, step.fields, step.recordId, step.mutationId,
                                          step.now, step.schemaVersion, step.dependsOn)))
      && (!step.Local? ==> w'.client == c.(queue := w'.client.queue) && w'.client.queue.Keys <= c.queue.Keys)
      && (!step.Local? && id in c.queue && (id != step.id || c.queue[id].status != Rejected) ==>
            id in w'.client.queue && w'.client.queue[id] == c.queue[id])
      && (step.Retry? && step.id in c.queue && c.queue[step.id].status == Rejected ==>
            step.id in w'.client.queue && Waits(w'.client.queue[step.id], c.queue[step.id].mutation))
      && (step.Discard? && step.id in c.queue && c.queue[step.id].status == Rejected ==>
            step.id !in w'.client.queue)
  {
    if step.Local? {
      LocalWritePerforms(w.client, Order(setup.table, step.operation, step.fields, step.recordId, step.mutationId,
                                         step.now, step.schemaVersion, step.dependsOn));
      hide AfterLocalWrite, QueuedMutation, Performed;
    } else {
      hide Performed;
    }
  }
}
