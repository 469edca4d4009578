/** src/mutationSettlement.ts: what a response decides about the mutations that were sent. */
module Settlement {
  import opened Json
  import opened Records
  import opened StateMachine
  import opened Store
  import opened Server

  /** The three disjoint parts of a sent batch. */
  datatype Parts = Parts(acknowledged: seq<Mutation>, unacknowledged: seq<Mutation>, rejected: seq<Mutation>)

  function Having(ms: seq<Mutation>, ids: set<string>): seq<Mutation> {
    if ms == [] then []
    else
      var init := Having(ms[..|ms| - 1], ids);
      if ms[|ms| - 1].id in ids then init + [ms[|ms| - 1]] else init
  }

  function AcknowledgedIds(ms: seq<Mutation>, acked: seq<string>): set<string> {
    set id | id in acked && id in MutationIds(ms)
  }

  /** Only an explicit retryable: false rejects for good, and an acknowledgement wins over it. */
  function RejectedIds(ms: seq<Mutation>, acked: seq<string>, rejections: seq<Rejection>): set<string> {
    set r | r in rejections && r.retryable == Some(false) && r.mutationId in MutationIds(ms)
         && r.mutationId !in AcknowledgedIds(ms, acked) :: r.mutationId
  }

  function Partition(ms: seq<Mutation>, acked: seq<string>, rejections: seq<Rejection>): Parts {
    var yes, no := AcknowledgedIds(ms, acked), RejectedIds(ms, acked, rejections);
    Parts(Having(ms, yes), Having(ms, MutationIds(ms) - yes - no), Having(ms, no))
  }

  lemma {:induction false} HavingIds(ms: seq<Mutation>, ids: set<string>)
    ensures forall m :: m in Having(ms, ids) <==> m in ms && m.id in ids
    ensures MutationIds(Having(ms, ids)) == MutationIds(ms) * ids
  {
    if ms != [] {
      var init := ms[..|ms| - 1];
      HavingIds(init, ids);
      assert ms == init + [ms[|ms| - 1]];
    }
  }

  /** Every sent mutation falls into exactly one part, and nothing else does. */
  lemma PartitionIsExact(ms: seq<Mutation>, acked: seq<string>, rejections: seq<Rejection>)
    ensures var p := Partition(ms, acked, rejections);
      && (forall m :: m in p.acknowledged || m in p.unacknowledged || m in p.rejected <==> m in ms)
      && MutationIds(p.acknowledged) == AcknowledgedIds(ms, acked)
      && MutationIds(p.rejected) == RejectedIds(ms, acked, rejections)
      && MutationIds(p.acknowledged) + MutationIds(p.unacknowledged) + MutationIds(p.rejected) == MutationIds(ms)
      && MutationIds(p.acknowledged) !! MutationIds(p.unacknowledged) !! MutationIds(p.rejected)
  {
    var yes, no := AcknowledgedIds(ms, acked), RejectedIds(ms, acked, rejections);
    HavingIds(ms, yes);
    HavingIds(ms, no);
    HavingIds(ms, MutationIds(ms) - yes - no);
  }

  /** The first rejection listed for an id gives its code and message. */
  function FindRejection(rejections: seq<Rejection>, id: string): Option<Rejection> {
    if rejections == [] then None
    else if rejections[0].mutationId == id then Some(rejections[0])
    else FindRejection(rejections[1..], id)
  }

  function CodeFor(rejections: seq<Rejection>, id: string): string {
    var r := FindRejection(rejections, id);
    if r.Some? then r.value.code else "rejected"
  }

  function MessageFor(rejections: seq<Rejection>, id: string): string {
    var r := FindRejection(rejections, id);
    if r.Some? && r.value.message.Some? then r.value.message.value else ""
  }

  // ---- The effect on the queue, all rows at once ----

  function FailIds(q: Queue, ids: set<string>, now: int): Queue {
    map id | id in q :: if id in ids then FailedRow(q[id], now) else q[id]
  }

  function RefuseIds(q: Queue, ids: set<string>, rejections: seq<Rejection>): Queue {
    map id | id in q :: if id in ids then RefusedRow(q[id], CodeFor(rejections, id), MessageFor(rejections, id))
      else q[id]
  }

  function RemoveIds(q: Queue, ids: set<string>): Queue {
    map id | id in q && id !in ids :: q[id]
  }

  function SettleQueue(q: Queue, p: Parts, rejections: seq<Rejection>, now: int): Queue {
    map id | id in q && id !in MutationIds(p.acknowledged) ::
      if id in MutationIds(p.unacknowledged) then FailedRow(q[id], now)
      else if id in MutationIds(p.rejected) then RefusedRow(q[id], CodeFor(rejections, id), MessageFor(rejections, id))
      else q[id]
  }

  /** An acknowledged deletion clears the tombstone it covers. */
  function ClearCovered(rows: Rows, acknowledged: seq<Mutation>): Rows {
    if acknowledged == [] then rows
    else
      var before := ClearCovered(rows, acknowledged[..|acknowledged| - 1]);
      var m := acknowledged[|acknowledged| - 1];
      if m.operation.Delete? then ClearTombstone(before, Id(m.payload), m.timestamp) else before
  }

  /** A settled row takes one step of the declared life cycle from SYNCING. */
  lemma SettlingFollowsTheStateMachine(q: Queue, p: Parts, rejections: seq<Rejection>, now: int, id: string)
    requires id in q && q[id].status == Syncing
    ensures id in MutationIds(p.acknowledged) ==>
      id !in SettleQueue(q, p, rejections, now) && Transition(Syncing, AckedBy) == Acked
    ensures id !in MutationIds(p.acknowledged) ==> id in SettleQueue(q, p, rejections, now)
    ensures id in SettleQueue(q, p, rejections, now) ==>
      SettleQueue(q, p, rejections, now)[id].status == (
        if id in MutationIds(p.unacknowledged) then Transition(Syncing, FailedBy)
        else if id in MutationIds(p.rejected) then Transition(Syncing, RejectedBy)
        else Syncing)
  {}

  /** The user's retry is outside the declared life cycle, which never leaves REJECTED for PENDING. */
  lemma UserRetryIsNoTransition(q: Queue, id: string)
    requires id in q && q[id].status == Rejected
    ensures RetryRejected(q, id)[id].status == Pending
    ensures forall event :: Transition(Rejected, event) != Pending
  {}
}
