/** src/stateMachine.ts: the declared life cycle of a queued mutation. */
module StateMachine {

  datatype Status = Pending | Syncing | Failed | Rejected | Acked

  datatype Event = Enqueued | Claimed | AckedBy | RejectedBy | Retry | FailedBy | Recovered

  function Transition(current: Status, event: Event): Status {
    match current
    case Pending => (
      match event
      case Claimed => Syncing
      case FailedBy => Failed
      case RejectedBy => Rejected
      case AckedBy => Acked
      case _ => Pending)
    case Syncing => (
      match event
      case AckedBy => Acked
      case FailedBy => Failed
      case RejectedBy => Rejected
      case Retry => Pending
      case Recovered => Pending
      case _ => Syncing)
    case Failed => (
      match event
      case Retry => Pending
      case Recovered => Pending
      case Claimed => Syncing
      case AckedBy => Acked
      case RejectedBy => Rejected
      case _ => Failed)
    case Acked => Acked
    case Rejected => if event == AckedBy then Acked else Rejected
  }

  predicate IsRetryable(status: Status) {
    status == Failed || status == Pending
  }

  /** The retryable states are exactly those that a claim takes to SYNCING. */
  lemma RetryableMeansClaimable(status: Status)
    ensures IsRetryable(status) <==> status != Syncing && Transition(status, Claimed) == Syncing
  {}

  /** The same table by events: where each event leads from anywhere. */
  lemma EventsMean(status: Status)
    ensures Transition(status, AckedBy) == Acked
    ensures Transition(status, RejectedBy) == if status == Acked then Acked else Rejected
    ensures Transition(status, FailedBy) == if status in {Acked, Rejected} then status else Failed
    ensures Transition(status, Claimed) == if IsRetryable(status) then Syncing else status
    ensures forall event :: event in {Retry, Recovered} ==>
      Transition(status, event) == if status in {Syncing, Failed} then Pending else status
    ensures Transition(status, Enqueued) == status
  {}

  function Follow(status: Status, events: seq<Event>): Status {
    if events == [] then status else Transition(Follow(status, events[..|events| - 1]), events[|events| - 1])
  }

  lemma FollowTwo(status: Status, event: Event)
    requires IsRetryable(status)
    ensures Follow(status, [Claimed, event]) == Transition(Syncing, event)
  {
    var two, one := [Claimed, event], [Claimed];
    assert two[..1] == one && one[..0] == [];
    assert Follow(status, one[..0]) == status;
    assert Follow(status, one) == Syncing;
  }

  /** No event leads out of ACKED, and none leads from REJECTED to anything but ACKED; a mutation is
      only ever ACKED by an acknowledgement. */
  lemma {:induction false} SettledIsFinal(status: Status, events: seq<Event>)
    ensures status == Acked ==> Follow(status, events) == Acked
    ensures status == Rejected ==> Follow(status, events) == if AckedBy in events then Acked else Rejected
    ensures status != Acked && Follow(status, events) == Acked ==> AckedBy in events
  {
    if events != [] {
      var init, last := events[..|events| - 1], events[|events| - 1];
      SettledIsFinal(status, init);
      assert events == init + [last];
    }
  }
}
