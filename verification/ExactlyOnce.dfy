/** At-least-once delivery with an exactly-once effect, over every run of the system. */
module ExactlyOnce {
  import opened Json
  import opened Records
  import opened Wire
  import opened Store
  import opened Server
  import opened ServerLaws
  import opened Settlement
  import opened Client
  import opened Runs
  import opened World

  function LogOf(setup: Setup, s: State): seq<Change> {
    TableOf(s, setup.table).changes
  }

  // ---- The invariant ----

  /** Every mutation ever enqueued is accounted for. */
  ghost predicate Accounted(
    setup: Setup, q: Queue, history: map<string, Mutation>, acked: set<string>, discarded: set<string>)
  {
    && (forall id :: id in q ==> id in history && q[id].mutation == history[id])
    && (forall id :: id in history ==>
          && history[id].id == id && id != "" && history[id].table == setup.table
          && (id in q || id in acked || id in discarded))
    && acked <= history.Keys
  }

  /** The server has seen our ids only with our content, and acted on them only as they say. */
  ghost predicate Honoured(setup: Setup, s: State, history: map<string, Mutation>) {
    && (forall id :: id in history && id in s.processed ==> s.processed[id].fingerprint == Fingerprint(history[id]))
    && (forall t, i, id :: Caused(s, t, i, id) && id in history ==>
          t == setup.table && Writes(history[id], TableOf(s, t).changes, i))
  }

  ghost predicate AllApplied(s: State, ids: set<string>) {
    forall id :: id in ids ==> Applied(s, id)
  }

  /** What was sent is what was enqueued, under a cursor the server has reached. */
  ghost predicate Genuine(setup: Setup, s: State, history: map<string, Mutation>, out: Sending) {
    && (forall m :: m in out.batch ==> m.id in history && history[m.id] == m)
    && (out.cursor.Some? ==> out.cursor.value <= |LogOf(setup, s)|)
  }

  ghost predicate GoodReply(setup: Setup, s: State, out: Sending, reply: Reply) {
    && !reply.Conflict?
    && (reply.Accepted? ==>
         && 0 <= reply.answer.cursor <= |LogOf(setup, s)|
         && forall id :: id in reply.answer.acked ==> id in MutationIds(out.batch) && Applied(s, id))
  }

  ghost predicate GoodFlight(setup: Setup, w: World) {
    match w.flight
    case Idle => true
    case Sent(out) => out in w.sent
    case Replied(out, reply) => out in w.sent && GoodReply(setup, w.server, out, reply)
  }

  ghost predicate Safe(setup: Setup, w: World) {
    && ServerInv(w.server)
    && Honoured(setup, w.server, w.history)
    && Accounted(setup, w.client.queue, w.history, w.acked, w.discarded)
    && AllApplied(w.server, w.acked)
    && (forall out :: out in w.sent ==> Genuine(setup, w.server, w.history, out))
    && GoodFlight(setup, w)
    && (w.client.cursor.Some? ==> w.client.cursor.value <= |LogOf(setup, w.server)|)
  }

  // ---- The server moves ----

  /** Whoever sends, our ids are only ever used with our content and for our table. */
  ghost predicate Honest(setup: Setup, history: map<string, Mutation>, req: Request) {
    forall m :: m in req.mutations && m.id in history ==> m == history[m.id] && req.table == setup.table
  }

  lemma HandleHonours(setup: Setup, s: State, history: map<string, Mutation>, req: Request, h: Headers)
    requires ServerInv(s) && Honoured(setup, s, history) && Honest(setup, history, req)
    ensures Honoured(setup, Handle(s, req, h).0, history)
  {
    HandleKeeps(s, req, h);
    var s' := Handle(s, req, h).0;
    hide Handle, Fingerprint, ServerInv, Writes;
    forall id | id in history && id in s'.processed
      ensures s'.processed[id].fingerprint == Fingerprint(history[id])
    {}
    forall t, i, id | Caused(s', t, i, id) && id in history
      ensures t == setup.table && Writes(history[id], TableOf(s', t).changes, i)
    {
      CausedBefore(setup, s, s', history, req, t, i, id);
    }
  }

  lemma CausedBefore(
    setup: Setup, s: State, s': State, history: map<string, Mutation>, req: Request, t: string, i: int, id: string)
    requires Honoured(setup, s, history) && Honest(setup, history, req)
    requires Extends(s, s') && NewFrom(s, s', req.table, req.mutations)
    requires Caused(s', t, i, id) && id in history
    ensures t == setup.table && Writes(history[id], TableOf(s', t).changes, i)
  {
    hide Fingerprint;
    assert TableOf(s, t).changes <= TableOf(s', t).changes;
    if i < |TableOf(s, t).changes| {
      assert Caused(s, t, i, id);
      assert TableOf(s', t).changes[..i] == TableOf(s, t).changes[..i];
    } else {
      assert t == req.table;
      var m :| m in req.mutations && Writes(m, TableOf(s', t).changes, i);
    }
  }

  /** What is true of the server stays true when its logs grow. */
  lemma ServerGrows(setup: Setup, w: World, s: State)
    requires Safe(setup, w) && ServerInv(s) && Extends(w.server, s) && Honoured(setup, s, w.history)
    ensures Safe(setup, w.(server := s))
  {
    hide ServerInv, Honoured, Accounted;
    assert LogOf(setup, w.server) <= LogOf(setup, s);
    AppliedStays(w.server, s);
    hide Extends;
  }

  lemma OursIsHonest(setup: Setup, w: World, out: Sending)
    requires Safe(setup, w) && out in w.sent
    ensures Honest(setup, w.history, RequestOf(setup, out))
    ensures 0 <= CursorOf(RequestOf(setup, out)) <= |LogOf(setup, w.server)|
  {
    assert Genuine(setup, w.server, w.history, out);
  }

  lemma NoClash(setup: Setup, s: State, history: map<string, Mutation>, out: Sending)
    requires Honoured(setup, s, history)
    requires forall m :: m in out.batch ==> m.id in history && history[m.id] == m
    ensures forall id :: !Clashes(s, out.batch, id)
  {
    hide Fingerprint;
  }

  /** A request of ours, first or repeated, is never answered with a conflict. */
  lemma NeverConflicts(setup: Setup, w: World, out: Sending, h: Headers)
    requires Safe(setup, w) && out in w.sent
    ensures GoodReply(setup, Handle(w.server, RequestOf(setup, out), h).0, out,
      Handle(w.server, RequestOf(setup, out), h).1)
  {
    var req := RequestOf(setup, out);
    var (s, reply) := Handle(w.server, req, h);
    OursIsHonest(setup, w, out);
    HandleKeeps(w.server, req, h);
    HandleHonours(setup, w.server, w.history, req, h);
    assert Genuine(setup, w.server, w.history, out);
    hide Fingerprint, Honoured, Accounted, GoodFlight;
    if reply.Conflict? {
      NoClash(setup, s, w.history, out);
      ConflictMeans(w.server, req, h);
      assert false;
    }
    if reply.Accepted? {
      assert LogOf(setup, w.server) <= LogOf(setup, s);
      AnswerMeans(w.server, req, h);
    }
  }

  // ---- The client moves ----

  /** Receiving any outcome removes only acknowledged rows and changes no queued mutation. */
  lemma ProcessKeepsContent(c: TableClient, ms: seq<Mutation>, outcome: Outcome, setup: Setup, now: int)
    ensures var d := ProcessRun(c, ms, outcome, setup, now);
      && d.queue.Keys <= c.queue.Keys
      && (forall id :: id in d.queue ==> d.queue[id].mutation == c.queue[id].mutation)
      && (forall id :: id in c.queue && id !in d.queue ==> outcome.Answered? && id in outcome.response.acked)
      && (d.cursor == c.cursor || (outcome.Answered? && d.cursor == NextCursor(c.cursor, outcome.response)))
  {
    hide RowsAfter, VisibleAfter, ClearCovered, CodeFor, MessageFor, Clock, RetryDelay;
    if outcome.Answered? {
      PartitionIsExact(ms, outcome.response.acked, outcome.response.rejected);
    }
  }

  /** If rows only leave the queue by acknowledgement, everything stays accounted for. */
  lemma StaysAccounted(
    setup: Setup, q: Queue, q': Queue, history: map<string, Mutation>, acked: set<string>, discarded: set<string>)
    requires Accounted(setup, q, history, acked, discarded)
    requires q'.Keys <= q.Keys && forall id :: id in q' ==> q'[id].mutation == q[id].mutation
    ensures Accounted(setup, q', history, acked + (q.Keys - q'.Keys), discarded)
    ensures Accounted(setup, q', history, acked, discarded + (q.Keys - q'.Keys))
  {}

  /** A new id is not known to anyone yet. */
  lemma EnqueueKeeps(setup: Setup, w: World, m: Mutation, c: TableClient)
    requires Safe(setup, w) && m.id != "" && m.table == setup.table
    requires m.id !in w.history && m.id !in w.server.processed
    requires c.queue == Enqueue(w.client.queue, m) && c.cursor == w.client.cursor
    ensures Safe(setup, w.(client := c, history := w.history[m.id := m]))
  {
    hide Enqueue, Accounted, ServerInv, Honoured, AllApplied, LogOf;
    NewIsAccounted(setup, w.client.queue, w.history, w.acked, w.discarded, m);
    NewIsHonoured(setup, w.server, w.history, m);
    hide GoodFlight;
  }

  lemma NewIsAccounted(
    setup: Setup, q: Queue, history: map<string, Mutation>, acked: set<string>, discarded: set<string>, m: Mutation)
    requires Accounted(setup, q, history, acked, discarded)
    requires m.id !in history && m.id != "" && m.table == setup.table
    ensures Accounted(setup, Enqueue(q, m), history[m.id := m], acked, discarded)
  {}

  lemma NewIsHonoured(setup: Setup, s: State, history: map<string, Mutation>, m: Mutation)
    requires ServerInv(s) && Honoured(setup, s, history) && m.id !in s.processed
    ensures Honoured(setup, s, history[m.id := m])
  {
    hide Fingerprint, Writes;
    forall t, i
      ensures !Caused(s, t, i, m.id)
    {
      assert Caused(s, t, i, m.id) ==> Applied(s, m.id);
    }
  }

  lemma LocalKeeps(setup: Setup, w: World, step: Step)
    requires Safe(setup, w) && step.Local? && Enabled(setup, w, step)
    ensures Safe(setup, Next(setup, w, step))
  {
    hide Safe;
    var m := LocalMutation(setup, w.client.memory, step);
    EnqueueKeeps(setup, w, m, LocalClient(w.client, step, m));
  }

  lemma SendKeeps(setup: Setup, w: World, step: Step)
    requires Safe(setup, w) && step.Send? && Enabled(setup, w, step)
    ensures Safe(setup, Next(setup, w, step))
  {
    var c := w.client.(queue := QueueAfterClaim(w.client.queue, step.claimed));
    var out := Sending(BatchOf(step.claimed), w.client.cursor);
    ClaimIsGenuine(setup, w, step.claimed, step.now);
    ClaimKeepsContent(w.client.queue, step.claimed);
    hide Safe, BatchOf, IsClaim, Genuine, QueueAfterClaim;
    QueueMoves(setup, w, c, Idle, {});
    SentKeeps(setup, w.(client := c, flight := Idle), out);
  }

  lemma ClaimKeepsContent(q: Queue, claimed: seq<Mutation>)
    ensures QueueAfterClaim(q, claimed).Keys == q.Keys
    ensures forall id :: id in q ==> QueueAfterClaim(q, claimed)[id].mutation == q[id].mutation
  {
    hide BlockedIds;
  }

  lemma ClaimIsGenuine(setup: Setup, w: World, claimed: seq<Mutation>, now: int)
    requires Safe(setup, w) && IsClaim(w.client.queue, now, CLAIM_LIMIT, None, claimed)
    ensures Genuine(setup, w.server, w.history, Sending(BatchOf(claimed), w.client.cursor))
  {
    HavingIds(claimed, MutationIds(claimed) - BlockedIds(claimed));
    hide Eligible, BlockedIds, ServerInv, Honoured, Having;
    assert Picked(w.client.queue, now, None, claimed);
  }

  lemma SentKeeps(setup: Setup, w: World, out: Sending)
    requires Safe(setup, w) && Genuine(setup, w.server, w.history, out)
    ensures Safe(setup, w.(flight := Sent(out), sent := w.sent + {out}))
  {
    hide Accounted, ServerInv, Honoured, Genuine, AllApplied, LogOf;
  }

  lemma ServeKeeps(setup: Setup, w: World, out: Sending, h: Headers)
    requires Safe(setup, w) && out in w.sent
    ensures var (s, reply) := Handle(w.server, RequestOf(setup, out), h);
      Safe(setup, w.(server := s)) && Safe(setup, w.(server := s, flight := Replied(out, reply)))
  {
    var req := RequestOf(setup, out);
    OursIsHonest(setup, w, out);
    NeverConflicts(setup, w, out, h);
    HandleKeeps(w.server, req, h);
    HandleHonours(setup, w.server, w.history, req, h);
    var (s, reply) := Handle(w.server, req, h);
    ServerGrows(setup, w, s);
    hide ServerInv, Honoured, Handle, Genuine, Accounted, GoodReply;
  }

  lemma OtherKeeps(setup: Setup, w: World, req: Request, h: Headers)
    requires Safe(setup, w) && MutationIds(req.mutations) !! w.history.Keys
    ensures Safe(setup, w.(server := Handle(w.server, req, h).0))
  {
    assert Honest(setup, w.history, req) by {
      forall m | m in req.mutations
        ensures m.id !in w.history
      {
        assert m.id in MutationIds(req.mutations);
      }
    }
    HandleKeeps(w.server, req, h);
    HandleHonours(setup, w.server, w.history, req, h);
    ServerGrows(setup, w, Handle(w.server, req, h).0);
  }

  lemma ConfigureKeeps(setup: Setup, w: World, rules: map<string, Rule>)
    requires Safe(setup, w)
    ensures Safe(setup, w.(server := w.server.(rules := rules)))
  {
    var s := w.server.(rules := rules);
    assert forall name :: TableOf(s, name) == TableOf(w.server, name);
    assert forall t, i, id :: Caused(s, t, i, id) <==> Caused(w.server, t, i, id);
    assert forall id :: Applied(s, id) <==> Applied(w.server, id);
    assert ServerInv(s);
    assert Honoured(setup, s, w.history);
    hide ServerInv, Honoured, Caused, Accounted;
  }

  lemma ReceiveKeeps(setup: Setup, w: World, outcome: Outcome, now: int)
    requires Safe(setup, w) && !w.flight.Idle?
    requires outcome.Answered? ==>
      w.flight.Replied? && w.flight.reply.Accepted? &&
      exists at :: outcome.response == ResponseOf(w.flight.reply.answer, at)
    ensures var c := ProcessRun(w.client, w.flight.out.batch, outcome, setup, now);
      Safe(setup, w.(client := c, flight := Idle, acked := w.acked + (w.client.queue.Keys - c.queue.Keys)))
    ensures outcome.TransportError? ==>
      ProcessRun(w.client, w.flight.out.batch, outcome, setup, now).queue.Keys == w.client.queue.Keys
  {
    var c := ProcessRun(w.client, w.flight.out.batch, outcome, setup, now);
    ProcessKeepsContent(w.client, w.flight.out.batch, outcome, setup, now);
    hide ProcessRun, ServerInv, Honoured, Genuine;
    StaysAccounted(setup, w.client.queue, c.queue, w.history, w.acked, w.discarded);
    hide Accounted;
  }

  /** The client forgets its request and changes its queue without touching the mutations in it. */
  lemma QueueMoves(setup: Setup, w: World, c: TableClient, flight: Flight, gone: set<string>)
    requires Safe(setup, w) && c.cursor == w.client.cursor && (flight == w.flight || flight == Idle)
    requires c.queue.Keys <= w.client.queue.Keys
    requires forall id :: id in c.queue ==> c.queue[id].mutation == w.client.queue[id].mutation
    requires gone == w.client.queue.Keys - c.queue.Keys
    ensures gone == {} ==> Safe(setup, w.(client := c, flight := flight))
    ensures Safe(setup, w.(client := c, flight := flight, discarded := w.discarded + gone))
    ensures AllApplied(w.server, gone) ==> Safe(setup, w.(client := c, flight := flight, acked := w.acked + gone))
  {
    hide ServerInv, Honoured, Genuine, GoodFlight, LogOf, Accounted;
    StaysAccounted(setup, w.client.queue, c.queue, w.history, w.acked, w.discarded);
    assert gone == {} ==> w.acked + gone == w.acked;
    assert AllApplied(w.server, gone) ==> AllApplied(w.server, w.acked + gone);
    ClientMoves(setup, w, c, flight, w.acked, w.discarded + gone);
    ClientMoves(setup, w, c, flight, w.acked + gone, w.discarded);
  }

  lemma ClientMoves(setup: Setup, w: World, c: TableClient, flight: Flight, acked: set<string>, discarded: set<string>)
    requires Safe(setup, w) && c.cursor == w.client.cursor && (flight == w.flight || flight == Idle)
    ensures Accounted(setup, c.queue, w.history, acked, discarded) && AllApplied(w.server, acked) ==>
      Safe(setup, w.(client := c, flight := flight, acked := acked, discarded := discarded))
  {
    hide Accounted, ServerInv, Honoured, Genuine, GoodReply, AllApplied, LogOf;
  }

  lemma CrashKeeps(setup: Setup, w: World)
    requires Safe(setup, w)
    ensures Safe(setup, w.(client := Restart(w.client.rows, w.client.queue, w.client.cursor), flight := Idle))
  {
    hide Safe, Live;
    QueueMoves(setup, w, Restart(w.client.rows, w.client.queue, w.client.cursor), Idle, {});
  }

  lemma InterruptedKeeps(setup: Setup, w: World, step: Step)
    requires Safe(setup, w) && step.Interrupted? && Enabled(setup, w, step)
    ensures Safe(setup, Next(setup, w, step))
  {
    var a, ms := w.flight.reply.answer, w.flight.out.batch;
    var q := HalfSettled(w.client.queue, step.settled, ms, a, step.now);
    HalfSettledContent(w.client.queue, step.settled, ms, a, step.now);
    RepliedMeansApplied(setup, w);
    hide HalfSettled, Live, Safe;
    var gone := w.client.queue.Keys - q.Keys;
    RecoverKeepsContent(q);
    hide Recover;
    QueueMoves(setup, w, Restart(step.rows, q, w.client.cursor), Idle, gone);
  }

  lemma RepliedMeansApplied(setup: Setup, w: World)
    requires Safe(setup, w) && w.flight.Replied? && w.flight.reply.Accepted?
    ensures forall id :: id in w.flight.reply.answer.acked ==> Applied(w.server, id)
  {
    assert GoodReply(setup, w.server, w.flight.out, w.flight.reply);
  }

  lemma RecoverKeepsContent(q: Queue)
    ensures Recover(q).Keys == q.Keys
    ensures forall id :: id in q ==> Recover(q)[id].mutation == q[id].mutation
  {}

  lemma HalfSettledContent(q: Queue, settled: set<string>, ms: seq<Mutation>, a: Answer, now: int)
    ensures var q' := HalfSettled(q, settled, ms, a, now);
      && q'.Keys <= q.Keys
      && (forall id :: id in q' ==> q'[id].mutation == q[id].mutation)
      && (forall id :: id in q && id !in q' ==> id in a.acked)
  {
    PartitionIsExact(ms, a.acked, a.rejected);
    hide Partition, CodeFor, MessageFor, Clock, RetryDelay;
  }

  lemma RetryKeeps(setup: Setup, w: World, id: string)
    requires Safe(setup, w)
    ensures Safe(setup, w.(client := w.client.(queue := RetryRejected(w.client.queue, id))))
  {
    hide Safe;
    var q := RetryRejected(w.client.queue, id);
    assert q.Keys == w.client.queue.Keys;
    QueueMoves(setup, w, w.client.(queue := q), w.flight, {});
  }

  lemma DiscardKeeps(setup: Setup, w: World, id: string)
    requires Safe(setup, w)
    ensures Safe(setup, Next(setup, w, Discard(id)))
  {
    hide Safe;
    var q := DiscardRejected(w.client.queue, id);
    QueueMoves(setup, w, w.client.(queue := q), w.flight, w.client.queue.Keys - q.Keys);
  }

  /** Every step keeps the invariant. */
  lemma StepKeepsSafe(setup: Setup, w: World, step: Step)
    requires Safe(setup, w) && Enabled(setup, w, step)
    ensures Safe(setup, Next(setup, w, step))
  {
    match step
    case Local(_, _, _, _, _, _, _) => LocalKeeps(setup, w, step);
    case Send(_, _) => SendKeeps(setup, w, step);
    case Serve(h) => ServeKeeps(setup, w, w.flight.out, h);
    case Stray(late, h) => ServeKeeps(setup, w, late, h);
    case Other(req, h) => OtherKeeps(setup, w, req, h);
    case Configure(rules) => ConfigureKeeps(setup, w, rules);
    case Lose(now) =>
      ReceiveKeeps(setup, w, TransportError, now);
      assert w.acked + {} == w.acked;
    case Deliver(now, at) => ReceiveKeeps(setup, w, OutcomeOf(w.flight.reply, at), now);
    case Crash => CrashKeeps(setup, w);
    case Interrupted(_, _, _) => InterruptedKeeps(setup, w, step);
    case Retry(id) => RetryKeeps(setup, w, id);
    case Discard(id) => DiscardKeeps(setup, w, id);
  }

  lemma {:induction false} RunIsSafe(setup: Setup, trace: seq<World>, steps: seq<Step>, server: State, n: nat)
    requires IsRun(setup, trace, steps) && trace[0] == Start(server) && ServerInv(server)
    requires n <= |steps|
    ensures Safe(setup, trace[n])
  {
    if n == 0 {
      StartIsSafe(setup, server);
    } else {
      RunIsSafe(setup, trace, steps, server, n - 1);
      assert Takes(setup, trace[n - 1], steps[n - 1], trace[n - 1 + 1]);
      hide Next, Enabled, Safe, IsRun;
      StepKeepsSafe(setup, trace[n - 1], steps[n - 1]);
    }
  }

  lemma StartIsSafe(setup: Setup, server: State)
    requires ServerInv(server)
    ensures Safe(setup, Start(server))
  {}

  // ---- What it means ----

  /** Over every run, with crashes, lost and repeated requests, dropped acknowledgements, rejections
      and re-claims: a mutation changes the log at most once and exactly as it says; one that left
      the queue by acknowledgement changed it; one that neither left nor was discarded is still
      queued as it was enqueued; and no reply to the client is a conflict. */
  lemma ExactlyOnceEffect(setup: Setup, trace: seq<World>, steps: seq<Step>, server: State, n: nat, id: string)
    requires IsRun(setup, trace, steps) && trace[0] == Start(server) && ServerInv(server)
    requires n <= |steps| && id in trace[n].history
    ensures var w := trace[n];
      && (forall t, i, u, j :: Caused(w.server, t, i, id) && Caused(w.server, u, j, id) ==> t == u && i == j)
      && (forall t, i :: Caused(w.server, t, i, id) ==>
            t == setup.table && Writes(w.history[id], TableOf(w.server, t).changes, i))
      && (id in w.acked ==> exists i :: Caused(w.server, setup.table, i, id))
      && (id !in w.acked && id !in w.discarded ==> id in w.client.queue && w.client.queue[id].mutation == w.history[id])
      && (w.flight.Replied? ==> !w.flight.reply.Conflict?)
  {
    RunIsSafe(setup, trace, steps, server, n);
    hide Writes, IsRun, Takes, Genuine, GoodReply, Overlays, Handle, Start;
    var w := trace[n];
    if id in w.acked {
      assert Applied(w.server, id);
      var t, i :| Caused(w.server, t, i, id);
    }
  }
}
