/** While the application stays up, what the client shows is the replay of the server's log up to the
    client's cursor, except where a local edit is still on its way. */
module Convergence {
  import opened Json
  import opened Records
  import opened Merge
  import opened MergeLaws
  import opened StateMachine
  import opened Store
  import opened Wire
  import opened Server
  import opened ServerLaws
  import opened Settlement
  import opened Client
  import opened ClientLaws
  import opened LogFold
  import opened Runs
  import opened World
  import opened ExactlyOnce

  /** The runs for which convergence is claimed: one session, no local deletions, local edits do not
      set the timestamp fields, no rejected mutation is discarded, and a response that arrives
      acknowledges every mutation of its batch that is in the log it brings. Mutations may be rejected,
      for good or not, any response may be lost, any request may arrive late or twice, and other
      clients do as they like. */
  ghost predicate Gentle(setup: Setup, w: World, step: Step) {
    && Enabled(setup, w, step)
    && match step
       case Local(operation, fields, _, _, _, _, _) =>
         !operation.Delete? && "updatedAt" !in fields && "updated_at" !in fields
       case Deliver(_, _) =>
         w.flight.reply.Accepted? ==> NothingDropped(setup, w.server, w.flight.out, w.flight.reply.answer)
       case Discard(id) => id in w.client.queue ==> w.client.queue[id].status != Rejected
       case Crash => false
       case Interrupted(_, _, _) => false
       case _ => true
  }

  function Position(c: TableClient): nat {
    if c.cursor.Some? then c.cursor.value else 0
  }

  /** Mutation mid is among the first n entries of the log. */
  ghost predicate InLog(setup: Setup, s: State, mid: string, n: nat) {
    exists i :: 0 <= i < n && Caused(s, setup.table, i, mid)
  }

  /** No acknowledgement is missing for a mutation whose entry the client is about to pass. */
  ghost predicate NothingDropped(setup: Setup, s: State, out: Sending, a: Answer) {
    forall m :: m in out.batch && a.cursor >= 0 && InLog(setup, s, m.id, a.cursor) ==> m.id in a.acked
  }

  /** A local edit of the record is queued and not yet in the part of the log the client has seen. */
  ghost predicate Excused(setup: Setup, s: State, c: TableClient, id: string) {
    exists mid :: mid in c.queue && Id(c.queue[mid].mutation.payload) == id && !InLog(setup, s, mid, Position(c))
  }

  ghost predicate InStep(setup: Setup, s: State, c: TableClient, id: string)
    requires Position(c) <= |LogOf(setup, s)|
  {
    Cell(c.memory, id) == At(LogOf(setup, s), Position(c), id)
  }

  ghost predicate NotAhead(memory: Table, n: nat) {
    Keyed(memory) && forall id :: id in memory ==> TimestampOf(memory[id]) <= n
  }

  ghost predicate AllQueued(q: Queue, ms: seq<Mutation>) {
    forall m :: m in ms ==> m.id in q
  }

  /** What was sent is still queued, and a pending answer continues exactly where the client stands. */
  ghost predicate Continues(setup: Setup, w: World) {
    match w.flight
    case Idle => true
    case Sent(out) => out.cursor == w.client.cursor && AllQueued(w.client.queue, out.batch)
    case Replied(out, reply) =>
      && out.cursor == w.client.cursor
      && AllQueued(w.client.queue, out.batch)
      && (reply.Accepted? ==> AnswerContinues(setup, w.server, Position(w.client), reply.answer))
  }

  ghost predicate AnswerContinues(setup: Setup, s: State, c: nat, a: Answer) {
    && c <= a.cursor <= |LogOf(setup, s)|
    && a.records == RecordsIn(LogOf(setup, s)[c..a.cursor])
    && a.tombstones == TombstonesIn(LogOf(setup, s)[c..a.cursor])
    && forall mid :: mid in a.acked ==> InLog(setup, s, mid, a.cursor)
  }

  ghost predicate Follows(setup: Setup, w: World) {
    && Position(w.client) <= |LogOf(setup, w.server)|
    && NotAhead(w.client.memory, Position(w.client))
    && CutsOf(LogOf(setup, w.server), Position(w.client), Tombs(w.client.rows))
    && (forall id :: Excused(setup, w.server, w.client, id) || InStep(setup, w.server, w.client, id))
    && Continues(setup, w)
  }

  // ---- The server moves ----

  lemma InLogGrows(setup: Setup, s: State, s': State, mid: string, n: nat)
    requires LogOf(setup, s) <= LogOf(setup, s') && n <= |LogOf(setup, s)|
    ensures InLog(setup, s, mid, n) <==> InLog(setup, s', mid, n)
  {
    var a, b := LogOf(setup, s), LogOf(setup, s');
    assert forall i :: 0 <= i < n ==> b[i] == b[..|a|][i] == a[i];
    assert forall i :: 0 <= i < n ==> (Caused(s, setup.table, i, mid) <==> Caused(s', setup.table, i, mid));
  }

  lemma AnswerGrows(setup: Setup, s: State, s': State, c: nat, a: Answer)
    requires LogOf(setup, s) <= LogOf(setup, s') && AnswerContinues(setup, s, c, a)
    ensures AnswerContinues(setup, s', c, a)
  {
    var log, log' := LogOf(setup, s), LogOf(setup, s');
    assert log'[..|log|] == log;
    assert log'[c..a.cursor] == log[c..a.cursor];
    hide RecordsIn, TombstonesIn, InLog;
    forall mid | mid in a.acked
      ensures InLog(setup, s', mid, a.cursor)
    {
      InLogGrows(setup, s, s', mid, a.cursor);
    }
  }

  lemma CutsGrow(log: seq<Change>, log': seq<Change>, n: nat, tombs: map<string, int>)
    requires log <= log' && n <= |log| && CutsOf(log, n, tombs)
    ensures CutsOf(log', n, tombs)
  {
    forall id | id in tombs
      ensures CutAt(log', tombs[id] - 1, id)
    {
      assert CutAt(log, tombs[id] - 1, id);
    }
  }

  lemma ServerMoves(setup: Setup, w: World, s: State)
    requires Follows(setup, w) && LogOf(setup, w.server) <= LogOf(setup, s)
    ensures Follows(setup, w.(server := s))
  {
    var log, log', n := LogOf(setup, w.server), LogOf(setup, s), Position(w.client);
    CutsGrow(log, log', n, Tombs(w.client.rows));
    assert log'[..n] == log[..n];
    forall id
      ensures Excused(setup, s, w.client, id) || InStep(setup, s, w.client, id)
    {
      ExcusedGrows(setup, w.server, s, w.client, id);
    }
    hide Excused, InStep, CutsOf, Tombs, NotAhead, AnswerContinues;
    if w.flight.Replied? && w.flight.reply.Accepted? {
      AnswerGrows(setup, w.server, s, n, w.flight.reply.answer);
    }
  }

  lemma ExcusedGrows(setup: Setup, s: State, s': State, c: TableClient, id: string)
    requires Position(c) <= |LogOf(setup, s)| && LogOf(setup, s) <= LogOf(setup, s')
    ensures Excused(setup, s, c, id) ==> Excused(setup, s', c, id)
  {
    if Excused(setup, s, c, id) {
      var mid :| mid in c.queue && Id(c.queue[mid].mutation.payload) == id && !InLog(setup, s, mid, Position(c));
      InLogGrows(setup, s, s', mid, Position(c));
    }
  }

  /** The answer to the request in flight continues where the client stands. */
  lemma ServeFollows(setup: Setup, w: World, h: Headers)
    requires Safe(setup, w) && Follows(setup, w) && w.flight.Sent?
    ensures Follows(setup, Next(setup, w, Serve(h)))
  {
    var (s, reply) := Handle(w.server, RequestOf(setup, w.flight.out), h);
    HandleKeeps(w.server, RequestOf(setup, w.flight.out), h);
    assert LogOf(setup, w.server) <= LogOf(setup, s);
    hide Safe, ServerInv, Extends, NewFrom, Handle, Excused, InStep, CutsOf, NotAhead, AnswerContinues, RequestOf;
    ServerMoves(setup, w, s);
    if reply.Accepted? {
      ServedContinues(setup, w, h);
    }
  }

  lemma ServedContinues(setup: Setup, w: World, h: Headers)
    requires Safe(setup, w) && Follows(setup, w) && w.flight.Sent?
    requires Handle(w.server, RequestOf(setup, w.flight.out), h).1.Accepted?
    ensures var (s, reply) := Handle(w.server, RequestOf(setup, w.flight.out), h);
      AnswerContinues(setup, s, Position(w.client), reply.answer)
  {
    var req := RequestOf(setup, w.flight.out);
    var (s, reply) := Handle(w.server, req, h);
    HandleKeeps(w.server, req, h);
    assert LogOf(setup, w.server) <= LogOf(setup, s);
    AnswerMeans(w.server, req, h);
    hide Handle, Follows;
    var n := |LogOf(setup, s)|;
    assert LogOf(setup, s)[CursorOf(req)..n] == LogOf(setup, s)[CursorOf(req)..];
    forall mid | mid in reply.answer.acked
      ensures InLog(setup, s, mid, n)
    {
      AppliedIsInLog(setup, w, w.flight.out, s, mid, h);
    }
  }

  /** Our mutations are applied to our table, so they are in its log. */
  lemma AppliedIsInLog(setup: Setup, w: World, out: Sending, s: State, mid: string, h: Headers)
    requires Safe(setup, w) && out in w.sent
    requires s == Handle(w.server, RequestOf(setup, out), h).0
    requires mid in MutationIds(out.batch) && Applied(s, mid)
    ensures InLog(setup, s, mid, |LogOf(setup, s)|)
  {
    OursIsHonest(setup, w, out);
    HandleKeeps(w.server, RequestOf(setup, out), h);
    HandleHonours(setup, w.server, w.history, RequestOf(setup, out), h);
    assert Genuine(setup, w.server, w.history, out);
    hide Handle, Writes;
    assert mid in w.history;
    var t, i :| Caused(s, t, i, mid);
  }

  // ---- The client moves ----

  /** Queue changes that keep every mutation keep every excuse. */
  lemma QueueFollows(setup: Setup, w: World, c: TableClient, flight: Flight)
    requires Follows(setup, w)
    requires c.memory == w.client.memory && c.rows == w.client.rows && c.cursor == w.client.cursor
    requires c.queue.Keys >= w.client.queue.Keys
    requires forall id :: id in w.client.queue ==> c.queue[id].mutation == w.client.queue[id].mutation
    requires flight == w.flight || flight == Idle
      || (flight.Sent? && flight.out.cursor == c.cursor && AllQueued(c.queue, flight.out.batch))
    ensures Follows(setup, w.(client := c, flight := flight))
  {
    hide InLog, CutsOf, Tombs, NotAhead, AnswerContinues, At;
    forall id
      ensures Excused(setup, w.server, c, id) || InStep(setup, w.server, c, id)
    {
      if Excused(setup, w.server, w.client, id) {
        var mid :| mid in w.client.queue && Id(w.client.queue[mid].mutation.payload) == id
          && !InLog(setup, w.server, mid, Position(w.client));
        assert mid in c.queue;
      }
    }
  }

  lemma WrittenStamp(previous: Option<Record>, op: Operation, fields: map<string, Json>, id: string)
    requires "updatedAt" !in fields && "updated_at" !in fields
    ensures TimestampOf(WrittenRecord(previous, op, fields, id)) ==
      if op.Update? && previous.Some? then TimestampOf(previous.value) else 0
  {}

  lemma SaveKeepsTombs(rows: Rows, w: Write)
    requires w.Save?
    ensures forall id :: id in Tombs(Apply(rows, w)) ==>
      id in Tombs(rows) && Tombs(Apply(rows, w))[id] == Tombs(rows)[id]
  {}

  lemma LocalFollows(setup: Setup, w: World, step: Step)
    requires Safe(setup, w) && Follows(setup, w) && step.Local? && Gentle(setup, w, step)
    ensures Follows(setup, Next(setup, w, step))
  {
    var m := LocalMutation(setup, w.client.memory, step);
    var c := LocalClient(w.client, step, m);
    NewIsNotInLog(setup, w, m.id);
    hide Safe, Follows;
    LocalParts(setup, w, step, m, c);
    forall id
      ensures Excused(setup, w.server, c, id) || InStep(setup, w.server, c, id)
    {
      LocalExcuses(setup, w.server, w.client, c, m, id);
    }
    hide InStep, Excused, NotAhead, CutsOf, LocalMutation, LocalClient;
    FollowsFromParts(setup, w.(client := c, flight := Idle));
    assert w.client.queue.Keys <= c.queue.Keys;
    LocalContinues(setup, w, c, w.history[m.id := m]);
  }

  lemma LocalParts(setup: Setup, w: World, step: Step, m: Mutation, c: TableClient)
    requires Safe(setup, w) && Follows(setup, w) && step.Local? && Gentle(setup, w, step)
    requires m == LocalMutation(setup, w.client.memory, step) && c == LocalClient(w.client, step, m)
    ensures m.id !in w.client.queue && Id(m.payload) == step.recordId
    ensures Position(c) == Position(w.client) <= |LogOf(setup, w.server)|
    ensures NotAhead(c.memory, Position(c))
    ensures CutsOf(LogOf(setup, w.server), Position(c), Tombs(c.rows))
    ensures forall k :: k != Id(m.payload) ==> Cell(c.memory, k) == Cell(w.client.memory, k)
    ensures forall id :: Excused(setup, w.server, w.client, id) || InStep(setup, w.server, w.client, id)
  {
    hide ServerInv, Honoured, GoodFlight, Genuine, NotAhead, Apply, WrittenRecord, Tombs, CutAt, Continues, Excused,
         InStep,
         AllApplied, LogOf;
    LocalNotAhead(w.client.memory, Position(w.client), step.operation, step.fields, step.recordId);
    var record := WrittenRecord(Cell(w.client.memory, step.recordId), step.operation, step.fields, step.recordId);
    SaveKeepsTombs(w.client.rows, Save(record, step.now));
  }

  lemma LocalContinues(setup: Setup, w: World, c: TableClient, history: map<string, Mutation>)
    requires Follows(setup, w) && Follows(setup, w.(client := c, flight := Idle)) && c.cursor == w.client.cursor
    requires w.client.queue.Keys <= c.queue.Keys
    ensures Follows(setup, w.(client := c, history := history))
  {
    hide NotAhead, CutsOf, Excused, InStep, AnswerContinues;
  }

  /** A local write excuses its record and leaves every other record and excuse alone. */
  lemma LocalExcuses(setup: Setup, s: State, c: TableClient, d: TableClient, m: Mutation, id: string)
    requires Position(c) <= |LogOf(setup, s)| && d.cursor == c.cursor
    requires m.id !in c.queue && d.queue == Enqueue(c.queue, m)
    requires forall n: nat :: !InLog(setup, s, m.id, n)
    requires forall k :: k != Id(m.payload) ==> Cell(d.memory, k) == Cell(c.memory, k)
    requires Excused(setup, s, c, id) || InStep(setup, s, c, id)
    ensures Excused(setup, s, d, id) || InStep(setup, s, d, id)
  {
    hide InLog, At;
    if id == Id(m.payload) {
      assert m.id in d.queue && d.queue[m.id].mutation == m;
    } else if Excused(setup, s, c, id) {
      var mid :| mid in c.queue && Id(c.queue[mid].mutation.payload) == id && !InLog(setup, s, mid, Position(c));
      assert mid in d.queue && d.queue[mid] == c.queue[mid];
    }
  }

  lemma LocalNotAhead(memory: Table, n: nat, op: Operation, fields: map<string, Json>, id: string)
    requires NotAhead(memory, n) && "updatedAt" !in fields && "updated_at" !in fields
    ensures NotAhead(LocalWrite(memory, op, fields, id), n)
  {
    WrittenStamp(Cell(memory, id), op, fields, id);
    hide TimestampOf, WrittenRecord;
  }

  lemma NewIsNotInLog(setup: Setup, w: World, id: string)
    requires ServerInv(w.server) && id !in w.server.processed
    ensures forall n: nat :: !InLog(setup, w.server, id, n)
  {
    assert forall i :: Caused(w.server, setup.table, i, id) ==> Applied(w.server, id);
  }

  lemma {:induction false} PersistRecordsTombs(
    rows: Rows, rs: seq<Record>, visible: Table, guarded: set<string>, r: Response, tombs: map<string, int>)
    ensures var t := Tombs(PersistRecords(rows, rs, visible, guarded, r, tombs));
      forall id :: id in t ==> id in Tombs(rows) && t[id] == Tombs(rows)[id]
    decreases |rs|
  {
    if rs != [] {
      var init, last := rs[..|rs| - 1], rs[|rs| - 1];
      var before := PersistRecords(rows, init, visible, guarded, r, tombs);
      PersistRecordsTombs(rows, init, visible, guarded, r, tombs);
      if Id(last) !in guarded && Id(last) in visible {
        SaveKeepsTombs(before, Save(visible[Id(last)], StoreTime(r, tombs, last)));
      }
    }
  }

  lemma EraseTombs(rows: Rows, target: string, at: int)
    ensures var t := Tombs(Apply(rows, Erase(target, at)));
      forall id :: id in t ==> (id in Tombs(rows) && t[id] == Tombs(rows)[id]) || (id == target && t[id] == at)
  {}

  lemma {:induction false} PersistTombstonesTombs(rows: Rows, ts: seq<Tombstone>, guarded: set<string>)
    ensures var t := Tombs(PersistTombstones(rows, ts, guarded));
      forall id :: id in t ==> (id in Tombs(rows) && t[id] == Tombs(rows)[id]) || Tombstone(id, t[id]) in ts
    decreases |ts|
  {
    if ts != [] {
      var init, last := ts[..|ts| - 1], ts[|ts| - 1];
      PersistTombstonesTombs(rows, init, guarded);
      EraseTombs(PersistTombstones(rows, init, guarded), last.id, last.timestamp);
      assert ts == init + [last];
      assert last in ts && Tombstone(last.id, last.timestamp) == last;
      hide Apply, Tombs;
    }
  }

  lemma {:induction false} ClearCoveredTombs(rows: Rows, ms: seq<Mutation>)
    ensures var t := Tombs(ClearCovered(rows, ms));
      forall id :: id in t ==> id in Tombs(rows) && t[id] == Tombs(rows)[id]
    decreases |ms|
  {
    if ms != [] {
      ClearCoveredTombs(rows, ms[..|ms| - 1]);
    }
  }

  /** A pull stores only tombstones that name deletions in the log it covers. */
  lemma PullKeepsCuts(
    log: seq<Change>, c: nat, n: nat, rows: Rows, memory: Table, ms: seq<Mutation>, r: Response, strategy: Strategy)
    requires LogStamped(log) && c <= n <= |log| && CutsOf(log, c, Tombs(rows))
    requires !r.resetRequired && r.tombstones == TombstonesIn(log[c..n])
    ensures CutsOf(log, n, Tombs(RowsAfter(memory, rows, ms, r, strategy).value))
  {
    var guarded := RecordIds(Unacked(ms, r.acked));
    var visible := VisibleAfter(memory, rows, ms, r, strategy);
    var tombs := MergeTombs(rows, ms, r);
    var saved := PersistRecords(rows, PulledRecords(r), visible, guarded, r, tombs);
    PersistRecordsTombs(rows, PulledRecords(r), visible, guarded, r, tombs);
    PersistTombstonesTombs(saved, r.tombstones, guarded);
    var t := Tombs(PersistTombstones(saved, r.tombstones, guarded));
    hide TombstonesIn, Tombs, LogStamped, MergeTombs, Unacked, PersistRecords, PersistTombstones, CutsOf;
    CutsJoin(log, c, n, Tombs(rows), r.tombstones, t);
  }

  lemma CutsJoin(
    log: seq<Change>, c: nat, n: nat, stored: map<string, int>, pulled: seq<Tombstone>, t: map<string, int>)
    requires LogStamped(log) && c <= n <= |log| && CutsOf(log, c, stored) && pulled == TombstonesIn(log[c..n])
    requires forall id :: id in t ==> (id in stored && t[id] == stored[id]) || Tombstone(id, t[id]) in pulled
    ensures CutsOf(log, n, t)
  {
    hide TombstonesIn, LogStamped, CutAt;
    forall id | id in t
      ensures 1 <= t[id] <= n && CutAt(log, t[id] - 1, id)
    {
      TombstoneOfLog(log, c, n, Tombstone(id, t[id]));
    }
  }

  /** What a record shows after a pull: the bare merge, or for an outstanding write what it showed,
      or nothing after an outstanding deletion. */
  lemma AnsweredCell(memory: Table, rows: Rows, ms: seq<Mutation>, r: Response, strategy: Strategy, id: string)
    requires Keyed(memory) && !r.resetRequired && r.records.Some?
    ensures var unacked := Unacked(ms, r.acked);
      Cell(VisibleAfter(memory, rows, ms, r, strategy), id) ==
        if id in Deletions(unacked) then None
        else if id in RecordIds(unacked) then Cell(memory, id)
        else Cell(MergeTable(memory, r.records.value, {}, strategy, UnionTombs(Tombs(rows), r.tombstones)), id)
  {
    var guarded, tombs := RecordIds(Unacked(ms, r.acked)), UnionTombs(Tombs(rows), r.tombstones);
    if id in guarded {
      GuardedUntouched(memory, r.records.value, guarded, strategy, tombs, id);
    } else {
      PullAllAt(Pruned(memory, guarded, tombs), r.records.value, guarded, strategy, tombs, id);
      PullAllAt(Pruned(memory, {}, tombs), r.records.value, {}, strategy, tombs, id);
      PrunedAt(memory, guarded, tombs, id);
      PrunedAt(memory, {}, tombs, id);
      UnguardedFold(PrunedCell(Cell(memory, id), id, {}, tombs), r.records.value, guarded, strategy, tombs, id);
    }
    hide Unacked, UnionTombs, Tombs, FoldCell, TimestampOf, Pruned, PullAll;
  }

  /** The client after a delivered answer. */
  lemma AnsweredClient(setup: Setup, c: TableClient, ms: seq<Mutation>, a: Answer, now: int, at: int)
    requires a.cursor >= 0
    ensures var d := ProcessRun(c, ms, Answered(ResponseOf(a, at)), setup, now);
      && d.memory == VisibleAfter(c.memory, c.rows, ms, ResponseOf(a, at), setup.strategy)
      && d.cursor == Some(a.cursor)
      && d.queue.Keys == c.queue.Keys - AcknowledgedIds(ms, a.acked)
      && (forall id :: id in d.queue ==> d.queue[id].mutation == c.queue[id].mutation)
      && d.rows == ClearCovered(RowsAfter(c.memory, c.rows, ms, ResponseOf(a, at), setup.strategy).value,
                                Partition(ms, a.acked, a.rejected).acknowledged)
  {
    PartitionIsExact(ms, a.acked, a.rejected);
    hide ClearCovered, VisibleAfter, PersistRecords, PersistTombstones, Partition, AcknowledgedIds, RejectedIds,
         CodeFor, MessageFor, Clock, RetryDelay;
  }

  /** Whether a delivered answer leaves the record in step or excused, read off the state before. */
  ghost predicate StaysTrue(setup: Setup, w: World, a: Answer, id: string)
    requires w.flight.Replied? && 0 <= a.cursor <= |LogOf(setup, w.server)|
  {
    var log, from := LogOf(setup, w.server), Position(w.client);
    var unacked := Unacked(w.flight.out.batch, a.acked);
    var shows := id in w.client.memory && id !in Deletions(unacked);
    || id !in RecordIds(unacked)
    || StillQueued(setup, w.server, w.client.queue, id, a.cursor)
    || (!TouchedIn(log, from, a.cursor, id) && (id in w.client.memory ==> shows))
    || (!shows && At(log, a.cursor, id).None?)
  }

  /** Some queued edit of the record is not among the first n entries. */
  ghost predicate StillQueued(setup: Setup, s: State, q: Queue, id: string, n: nat) {
    exists mid :: mid in q && Id(q[mid].mutation.payload) == id && !InLog(setup, s, mid, n)
  }

  /** The state of the client after a delivered answer, record by record. */
  ghost predicate Delivered(setup: Setup, w: World, d: TableClient, a: Answer)
    requires w.flight.Replied?
  {
    var unacked := Unacked(w.flight.out.batch, a.acked);
    && d.cursor == Some(a.cursor)
    && (forall mid :: mid in w.client.queue && mid !in d.queue ==> mid in a.acked)
    && (forall mid :: mid in d.queue ==> mid in w.client.queue && d.queue[mid].mutation == w.client.queue[mid].mutation)
    && (forall id :: Cell(d.memory, id) ==
          if id in Deletions(unacked) then None
          else if id in RecordIds(unacked) then Cell(w.client.memory, id)
          else Cell(MergeTable(w.client.memory, a.records, {}, setup.strategy,
                               UnionTombs(Tombs(w.client.rows), a.tombstones)), id))
  }

  lemma DeliverGives(setup: Setup, w: World, step: Step)
    requires Follows(setup, w) && step.Deliver? && Enabled(setup, w, step) && w.flight.reply.Accepted?
    ensures var a, d := w.flight.reply.answer, Next(setup, w, step).client;
      && a.cursor >= 0
      && Delivered(setup, w, d, a)
      && d.rows == ClearCovered(
           RowsAfter(w.client.memory, w.client.rows, w.flight.out.batch, ResponseOf(a, step.serverTime),
             setup.strategy).value,
           Partition(w.flight.out.batch, a.acked, a.rejected).acknowledged)
  {
    assert AnswerContinues(setup, w.server, Position(w.client), w.flight.reply.answer);
    AnswersDelivered(setup, w, step.now, step.serverTime);
    hide ProcessRun, Delivered, RowsAfter, ClearCovered, Partition;
  }

  lemma AnswersDelivered(setup: Setup, w: World, now: int, at: int)
    requires w.flight.Replied? && w.flight.reply.Accepted? && w.flight.reply.answer.cursor >= 0
    requires Keyed(w.client.memory)
    ensures var a, ms, c := w.flight.reply.answer, w.flight.out.batch, w.client;
      var d := ProcessRun(c, ms, Answered(ResponseOf(a, at)), setup, now);
      && Delivered(setup, w, d, a)
      && d.rows == ClearCovered(RowsAfter(c.memory, c.rows, ms, ResponseOf(a, at), setup.strategy).value,
                                Partition(ms, a.acked, a.rejected).acknowledged)
  {
    var a, ms, c := w.flight.reply.answer, w.flight.out.batch, w.client;
    var r := ResponseOf(a, at);
    hide ProcessRun, VisibleAfter, RowsAfter, ClearCovered, Partition, Unacked, UnionTombs, Tombs, MergeTable,
         Deletions, RecordIds;
    AnsweredClient(setup, c, ms, a, now, at);
    forall id
      ensures Cell(VisibleAfter(c.memory, c.rows, ms, r, setup.strategy), id) ==
        if id in Deletions(Unacked(ms, a.acked)) then None
        else if id in RecordIds(Unacked(ms, a.acked)) then Cell(c.memory, id)
        else Cell(MergeTable(c.memory, a.records, {}, setup.strategy, UnionTombs(Tombs(c.rows), a.tombstones)), id)
    {
      AnsweredCell(c.memory, c.rows, ms, r, setup.strategy, id);
    }
  }

  /** After a delivered answer each record is in step with the log or excused by a queued edit exactly
      if it was not sent unacknowledged, or an edit of it is still on its way, or the answer brings
      nothing on it, or nothing is shown and nothing is left in the log. */
  lemma DeliveredExactly(setup: Setup, w: World, step: Step, id: string)
    requires Safe(setup, w) && Follows(setup, w) && step.Deliver? && Enabled(setup, w, step)
    requires setup.strategy == LastWriteWins || setup.strategy == ServerWins
    requires w.flight.reply.Accepted?
    ensures var d, a := Next(setup, w, step).client, w.flight.reply.answer;
      && 0 <= a.cursor <= |LogOf(setup, w.server)|
      && Position(d) == a.cursor
      && (Excused(setup, w.server, d, id) || InStep(setup, w.server, d, id) <==> StaysTrue(setup, w, a, id))
  {
    var d, a := Next(setup, w, step).client, w.flight.reply.answer;
    DeliverGives(setup, w, step);
    assert AnswerContinues(setup, w.server, Position(w.client), a);
    hide Next, ClearCovered, RowsAfter, Partition;
    ExcusedAfter(setup, w, d, a, id);
    if id in RecordIds(Unacked(w.flight.out.batch, a.acked)) {
      OutstandingInStep(setup, w, d, a, id);
    } else {
      DeliveredInStep(setup, w, d, Position(w.client), a, id);
    }
  }

  /** A queued edit that is not in the pulled log stays queued. */
  lemma ExcusedAfter(setup: Setup, w: World, d: TableClient, a: Answer, id: string)
    requires w.flight.Replied? && Delivered(setup, w, d, a)
    requires AnswerContinues(setup, w.server, Position(w.client), a)
    ensures Excused(setup, w.server, d, id) <==> StillQueued(setup, w.server, w.client.queue, id, a.cursor)
  {
    hide InLog, MergeTable, UnionTombs, Tombs, Unacked, Deletions, RecordIds;
    if StillQueued(setup, w.server, w.client.queue, id, a.cursor) {
      var mid :| mid in w.client.queue && Id(w.client.queue[mid].mutation.payload) == id
        && !InLog(setup, w.server, mid, a.cursor);
      assert mid in d.queue;
    }
  }

  /** A record with an outstanding write and no edit on its way. */
  lemma OutstandingInStep(setup: Setup, w: World, d: TableClient, a: Answer, id: string)
    requires Safe(setup, w) && Follows(setup, w) && w.flight.Replied?
    requires Delivered(setup, w, d, a) && AnswerContinues(setup, w.server, Position(w.client), a)
    requires id in RecordIds(Unacked(w.flight.out.batch, a.acked))
    ensures StillQueued(setup, w.server, w.client.queue, id, a.cursor)
      || (InStep(setup, w.server, d, id) <==> StaysTrue(setup, w, a, id))
  {
    OutstandingCell(setup, w, d, a, id);
    hide Safe, Follows, Delivered, MergeTable, UnionTombs, Tombs, Unacked, Deletions, RecordIds, At, TouchedIn,
         StillQueued, TimestampOf, Excused, RecordsIn, TombstonesIn, InLog;
    var log, from := LogOf(setup, w.server), Position(w.client);
    if !StillQueued(setup, w.server, w.client.queue, id, a.cursor) {
      if TouchedIn(log, from, a.cursor, id) {
        MemoryIsOlder(setup, w, a, id);
      } else {
        UntouchedWasInStep(setup, w, a, id);
      }
    }
  }

  lemma OutstandingCell(setup: Setup, w: World, d: TableClient, a: Answer, id: string)
    requires w.flight.Replied? && Delivered(setup, w, d, a) && id in RecordIds(Unacked(w.flight.out.batch, a.acked))
    requires a.cursor >= 0
    ensures Position(d) == a.cursor
    ensures Cell(d.memory, id) ==
      if id in w.client.memory && id !in Deletions(Unacked(w.flight.out.batch, a.acked)) then Some(w.client.memory[id])
      else None
  {
    hide MergeTable, UnionTombs, Tombs, Unacked, Deletions, RecordIds;
  }

  /** What the client shows is older than any entry the answer brings. */
  lemma MemoryIsOlder(setup: Setup, w: World, a: Answer, id: string)
    requires Safe(setup, w) && Follows(setup, w) && Position(w.client) <= a.cursor <= |LogOf(setup, w.server)|
    requires TouchedIn(LogOf(setup, w.server), Position(w.client), a.cursor, id)
    ensures var entry := At(LogOf(setup, w.server), a.cursor, id);
      entry.None? || Cell(w.client.memory, id) != entry
  {
    LogIsStamped(setup, w.server);
    hide ServerInv, Honoured, Accounted, GoodFlight, Genuine, AllApplied, At, TouchedIn, Excused, CutsOf, TimestampOf;
    if At(LogOf(setup, w.server), a.cursor, id).Some? {
      TouchedIsNewer(LogOf(setup, w.server), Position(w.client), a.cursor, id);
    }
  }

  /** Without a queued edit on its way or an entry in between, the record was in step, and still is. */
  lemma UntouchedWasInStep(setup: Setup, w: World, a: Answer, id: string)
    requires Safe(setup, w) && Follows(setup, w) && AnswerContinues(setup, w.server, Position(w.client), a)
    requires !StillQueued(setup, w.server, w.client.queue, id, a.cursor)
    requires !TouchedIn(LogOf(setup, w.server), Position(w.client), a.cursor, id)
    ensures Cell(w.client.memory, id) == At(LogOf(setup, w.server), a.cursor, id)
  {
    var log, from := LogOf(setup, w.server), Position(w.client);
    if Excused(setup, w.server, w.client, id) {
      var mid :| mid in w.client.queue && Id(w.client.queue[mid].mutation.payload) == id
        && !InLog(setup, w.server, mid, from);
      assert InLog(setup, w.server, mid, a.cursor);
      NewEntryTouches(setup, w, mid, from, a.cursor);
    }
    UntouchedStays(log, from, a.cursor, id);
  }

  lemma {:induction false} UntouchedStays(log: seq<Change>, c: nat, n: nat, id: string)
    requires c <= n <= |log| && !TouchedIn(log, c, n, id)
    ensures At(log, n, id) == At(log, c, id)
    decreases n
  {
    if c < n {
      assert !TouchedAt(log, n - 1, id);
      AtStep(log, n - 1, id);
      UntouchedStays(log, c, n - 1, id);
    }
  }

  lemma TouchedIsNewer(log: seq<Change>, c: nat, n: nat, id: string)
    requires LogStamped(log) && n <= |log| && At(log, n, id).Some? && TouchedIn(log, c, n, id)
    ensures TimestampOf(At(log, n, id).value) > c
  {
    AtIsLast(log, n, id);
    hide TimestampOf, LogStamped, At;
  }

  lemma DeliverFollows(setup: Setup, w: World, step: Step)
    requires Safe(setup, w) && Follows(setup, w) && step.Deliver? && Gentle(setup, w, step)
    requires setup.strategy == LastWriteWins || setup.strategy == ServerWins
    requires w.flight.reply.Accepted?
    ensures Follows(setup, Next(setup, w, step))
  {
    var a, ms, c := w.flight.reply.answer, w.flight.out.batch, w.client;
    var w' := Next(setup, w, step);
    var d := w'.client;
    assert AnswerContinues(setup, w.server, Position(c), a);
    DeliverGives(setup, w, step);
    forall id
      ensures Excused(setup, w.server, d, id) || InStep(setup, w.server, d, id)
    {
      DeliveredExactly(setup, w, step, id);
      UndroppedStaysTrue(setup, w, a, id);
    }
    hide Next, Safe, Follows, Partition, ClearCovered, RowsAfter, Delivered;
    DeliveredCuts(setup, w, d, Position(c), ms, a, step.serverTime);
    DeliveredNotAhead(setup, w, d, Position(c), a);
    FollowsFromParts(setup, w.(client := d, flight := Idle));
    DeliverIs(setup, w, step);
    BookkeepingFollows(setup, w', w'.sent, w'.history, w.acked, w'.discarded);
  }

  lemma DeliverIs(setup: Setup, w: World, step: Step)
    requires step.Deliver? && w.flight.Replied?
    ensures var w' := Next(setup, w, step);
      w'.(acked := w.acked) == w.(client := w'.client, flight := Idle)
  {
    hide ProcessRun;
  }

  /** An outstanding mutation that is not in the pulled log excuses its own record. */
  lemma UndroppedStaysTrue(setup: Setup, w: World, a: Answer, id: string)
    requires Safe(setup, w) && Follows(setup, w) && w.flight.Replied?
    requires 0 <= a.cursor <= |LogOf(setup, w.server)| && NothingDropped(setup, w.server, w.flight.out, a)
    ensures StaysTrue(setup, w, a, id)
  {
    var unacked := Unacked(w.flight.out.batch, a.acked);
    if id in RecordIds(unacked) {
      var m :| m in unacked && Id(m.payload) == id;
      UnackedMeans(w.flight.out.batch, a.acked);
      assert m.id in w.client.queue;
      assert Genuine(setup, w.server, w.history, w.flight.out);
      assert w.client.queue[m.id].mutation == m;
    }
  }

  lemma FollowsFromParts(setup: Setup, w: World)
    requires w.flight.Idle? && Position(w.client) <= |LogOf(setup, w.server)|
    requires NotAhead(w.client.memory, Position(w.client))
    requires CutsOf(LogOf(setup, w.server), Position(w.client), Tombs(w.client.rows))
    requires forall id :: Excused(setup, w.server, w.client, id) || InStep(setup, w.server, w.client, id)
    ensures Follows(setup, w)
  {}

  lemma DeliveredCuts(setup: Setup, w: World, d: TableClient, from: nat, ms: seq<Mutation>, a: Answer, at: int)
    requires Safe(setup, w) && Follows(setup, w) && from == Position(w.client)
    requires AnswerContinues(setup, w.server, from, a)
    requires d.rows == ClearCovered(RowsAfter(w.client.memory, w.client.rows, ms, ResponseOf(a, at),
      setup.strategy).value,
                                    Partition(ms, a.acked, a.rejected).acknowledged)
    ensures CutsOf(LogOf(setup, w.server), a.cursor, Tombs(d.rows))
  {
    var log, r := LogOf(setup, w.server), ResponseOf(a, at);
    LogIsStamped(setup, w.server);
    PullKeepsCuts(log, from, a.cursor, w.client.rows, w.client.memory, ms, r, setup.strategy);
    var rows := RowsAfter(w.client.memory, w.client.rows, ms, r, setup.strategy).value;
    ClearCoveredTombs(rows, Partition(ms, a.acked, a.rejected).acknowledged);
    hide Safe, Follows, Tombs, RowsAfter, ClearCovered, CutAt, LogStamped, Partition;
  }

  lemma LogIsStamped(setup: Setup, s: State)
    requires ServerInv(s)
    ensures LogStamped(LogOf(setup, s))
  {
    EmptyTableInv();
  }

  lemma DeliveredNotAhead(setup: Setup, w: World, d: TableClient, from: nat, a: Answer)
    requires Safe(setup, w) && Follows(setup, w) && from == Position(w.client)
    requires setup.strategy == LastWriteWins || setup.strategy == ServerWins
    requires AnswerContinues(setup, w.server, from, a) && w.flight.Replied? && Delivered(setup, w, d, a)
    ensures NotAhead(d.memory, a.cursor)
  {
    var log := LogOf(setup, w.server);
    LogIsStamped(setup, w.server);
    hide ServerInv, Honoured, Accounted, GoodFlight, MergeTable, UnionTombs, Tombs, Genuine, AllApplied, LogStamped,
         Excused, InStep, CutsOf, Unacked, Deletions, RecordIds, TimestampOf;
    forall id | id in d.memory
      ensures Id(d.memory[id]) == id && TimestampOf(d.memory[id]) <= a.cursor
    {
      PullIsBounded(w.client.memory, log, from, a.cursor, id, setup.strategy, Tombs(w.client.rows));
      assert Cell(d.memory, id).Some?;
    }
  }

  lemma DeliveredInStep(setup: Setup, w: World, d: TableClient, from: nat, a: Answer, id: string)
    requires Safe(setup, w) && Follows(setup, w) && from == Position(w.client) && w.flight.Replied?
    requires setup.strategy == LastWriteWins || setup.strategy == ServerWins
    requires AnswerContinues(setup, w.server, from, a) && Delivered(setup, w, d, a)
    requires id !in RecordIds(Unacked(w.flight.out.batch, a.acked))
    ensures StillQueued(setup, w.server, w.client.queue, id, a.cursor) || InStep(setup, w.server, d, id)
  {
    var log := LogOf(setup, w.server);
    LogIsStamped(setup, w.server);
    if !StillQueued(setup, w.server, w.client.queue, id, a.cursor) {
      if Excused(setup, w.server, w.client, id) {
        var mid :| mid in w.client.queue && Id(w.client.queue[mid].mutation.payload) == id
          && !InLog(setup, w.server, mid, from);
        assert InLog(setup, w.server, mid, a.cursor);
        NewEntryTouches(setup, w, mid, from, a.cursor);
      }
      assert TouchedIn(log, from, a.cursor, id) || InStep(setup, w.server, w.client, id);
      assert id !in Deletions(Unacked(w.flight.out.batch, a.acked));
      hide ServerInv, Honoured, Accounted, GoodFlight, MergeTable, UnionTombs, Tombs, Genuine, AllApplied, LogStamped,
           Excused, CutsOf, At, TouchedIn, Unacked, Deletions, RecordIds;
      PullFollowsLog(w.client.memory, log, from, a.cursor, id, setup.strategy, Tombs(w.client.rows));
    }
  }

  /** The entry of a queued mutation that the pull brings is an entry on its record. */
  lemma NewEntryTouches(setup: Setup, w: World, mid: string, from: nat, n: nat)
    requires Safe(setup, w) && mid in w.client.queue
    requires !InLog(setup, w.server, mid, from) && InLog(setup, w.server, mid, n)
    ensures TouchedIn(LogOf(setup, w.server), from, n, Id(w.client.queue[mid].mutation.payload))
  {
    var i :| 0 <= i < n && Caused(w.server, setup.table, i, mid);
    assert i >= from;
    assert mid in w.history && w.client.queue[mid].mutation == w.history[mid];
    assert Writes(w.history[mid], LogOf(setup, w.server), i);
    assert TouchedAt(LogOf(setup, w.server), i, Id(w.history[mid].payload));
  }

  // ---- Every run ----

  lemma FailureFollows(setup: Setup, w: World, now: int)
    requires Follows(setup, w) && !w.flight.Idle?
    ensures var c := ProcessRun(w.client, w.flight.out.batch, TransportError, setup, now);
      && Follows(setup, w.(client := c, flight := Idle))
      && c.queue.Keys == w.client.queue.Keys
  {
    hide Follows, Clock, RetryDelay;
    var c := ProcessRun(w.client, w.flight.out.batch, TransportError, setup, now);
    QueueFollows(setup, w, c, Idle);
  }

  /** Follows does not look at the history variables. */
  lemma BookkeepingFollows(
    setup: Setup, w: World, sent: set<Sending>, history: map<string, Mutation>, acked: set<string>,
    discarded: set<string>)
    ensures Follows(setup, w) <==> Follows(setup,
      w.(sent := sent, history := history, acked := acked, discarded := discarded))
  {
    hide Excused, InStep, CutsOf, Tombs, NotAhead, AnswerContinues;
  }

  /** A reply that is no answer is handled like a lost one. */
  lemma DeliverKeepsFollowing(setup: Setup, w: World, step: Step)
    requires Safe(setup, w) && Follows(setup, w) && step.Deliver? && Gentle(setup, w, step)
    requires setup.strategy == LastWriteWins || setup.strategy == ServerWins
    ensures Follows(setup, Next(setup, w, step))
  {
    if w.flight.reply.Accepted? {
      DeliverFollows(setup, w, step);
    } else {
      FailureFollows(setup, w, step.now);
      hide Follows, ProcessRun;
      var w' := Next(setup, w, step);
      assert w' == w.(client := w'.client, flight := Idle, acked := w'.acked);
      BookkeepingFollows(setup, w.(client := w'.client, flight := Idle), w.sent, w.history, w'.acked, w.discarded);
    }
  }

  lemma SendFollows(setup: Setup, w: World, step: Step)
    requires Follows(setup, w) && step.Send? && Enabled(setup, w, step)
    ensures Follows(setup, Next(setup, w, step))
  {
    var w' := Next(setup, w, step);
    ClaimKeepsContent(w.client.queue, step.claimed);
    ClaimIsQueued(w.client.queue, step.claimed, step.now);
    hide Follows, QueueAfterClaim, BatchOf, IsClaim;
    QueueFollows(setup, w, w'.client, w'.flight);
    BookkeepingFollows(setup, w.(client := w'.client, flight := w'.flight), w'.sent, w.history, w.acked, w.discarded);
  }

  lemma ClaimIsQueued(q: Queue, claimed: seq<Mutation>, now: int)
    requires IsClaim(q, now, CLAIM_LIMIT, None, claimed)
    ensures AllQueued(QueueAfterClaim(q, claimed), BatchOf(claimed))
  {
    ClaimKeepsContent(q, claimed);
    HavingIds(claimed, MutationIds(claimed) - BlockedIds(claimed));
    hide Eligible, BlockedIds, Having, QueueAfterClaim;
    forall m | m in BatchOf(claimed)
      ensures m.id in QueueAfterClaim(q, claimed).Keys
    {
      assert m in claimed;
    }
  }

  lemma RetryFollows(setup: Setup, w: World, id: string)
    requires Follows(setup, w)
    ensures Follows(setup, Next(setup, w, Step.Retry(id)))
  {
    hide Follows;
    QueueFollows(setup, w, w.client.(queue := RetryRejected(w.client.queue, id)), w.flight);
  }

  lemma DiscardFollows(setup: Setup, w: World, id: string)
    requires id in w.client.queue ==> w.client.queue[id].status != Rejected
    ensures Next(setup, w, Discard(id)) == w
  {
    assert w.client.queue.Keys - w.client.queue.Keys == {};
    assert w.discarded + {} == w.discarded;
  }

  lemma StepFollows(setup: Setup, w: World, step: Step)
    requires Safe(setup, w) && Follows(setup, w) && Gentle(setup, w, step)
    requires setup.strategy == LastWriteWins || setup.strategy == ServerWins
    ensures Follows(setup, Next(setup, w, step))
  {
    match step
    case Local(_, _, _, _, _, _, _) => LocalFollows(setup, w, step);
    case Send(_, _) => SendFollows(setup, w, step);
    case Serve(h) => ServeFollows(setup, w, h);
    case Stray(late, h) => RequestFollows(setup, w, RequestOf(setup, late), h);
    case Other(req, h) => RequestFollows(setup, w, req, h);
    case Configure(rules) => ServerMoves(setup, w, w.server.(rules := rules));
    case Lose(now) => FailureFollows(setup, w, now);
    case Deliver(_, _) => DeliverKeepsFollowing(setup, w, step);
    case Retry(id) => RetryFollows(setup, w, id);
    case Discard(id) => DiscardFollows(setup, w, id);
  }

  lemma RequestFollows(setup: Setup, w: World, req: Request, h: Headers)
    requires Safe(setup, w) && Follows(setup, w)
    ensures Follows(setup, w.(server := Handle(w.server, req, h).0))
  {
    HandleKeeps(w.server, req, h);
    hide Handle, Follows, Safe, ServerInv, NewFrom;
    ServerMoves(setup, w, Handle(w.server, req, h).0);
  }

  ghost predicate IsGentleRun(setup: Setup, trace: seq<World>, steps: seq<Step>) {
    IsRun(setup, trace, steps) && forall i :: 0 <= i < |steps| ==> Gentle(setup, trace[i], steps[i])
  }

  lemma {:induction false} RunFollows(setup: Setup, trace: seq<World>, steps: seq<Step>, server: State, n: nat)
    requires IsGentleRun(setup, trace, steps) && trace[0] == Start(server) && ServerInv(server)
    requires setup.strategy == LastWriteWins || setup.strategy == ServerWins
    requires n <= |steps| && |trace| == |steps| + 1
    ensures Follows(setup, trace[n])
  {
    hide Next, Gentle, Follows, Safe, ServerInv, Enabled, IsRun;
    if n == 0 {
      StartFollows(setup, server);
    } else {
      RunFollows(setup, trace, steps, server, n - 1);
      RunIsSafe(setup, trace, steps, server, n - 1);
      StepOfRun(setup, trace, steps, n - 1);
      StepFollows(setup, trace[n - 1], steps[n - 1]);
    }
  }

  lemma StepOfRun(setup: Setup, trace: seq<World>, steps: seq<Step>, i: nat)
    requires IsGentleRun(setup, trace, steps) && i < |steps|
    ensures Gentle(setup, trace[i], steps[i]) && Enabled(setup, trace[i], steps[i])
    ensures trace[i + 1] == Next(setup, trace[i], steps[i])
  {
    hide Next, Gentle, Enabled;
    assert Takes(setup, trace[i], steps[i], trace[i + 1]);
  }

  lemma StartFollows(setup: Setup, server: State)
    ensures Follows(setup, Start(server))
  {
    var w := Start(server);
    assert LogOf(setup, server)[..0] == [];
    assert forall id :: InStep(setup, server, w.client, id);
  }

  /** The table on the screen is the server's log up to the cursor, replayed, apart from records with
      a local edit that is not yet in that part of the log; with an empty queue there are none, and a
      client that has seen the whole log shows the server's records. */
  lemma ViewConverges(setup: Setup, trace: seq<World>, steps: seq<Step>, server: State, n: nat)
    requires IsGentleRun(setup, trace, steps) && trace[0] == Start(server) && ServerInv(server)
    requires setup.strategy == LastWriteWins || setup.strategy == ServerWins
    requires n <= |steps|
    ensures var w := trace[n];
      var log, k := TableOf(w.server, setup.table).changes, Position(w.client);
      && k <= |log|
      && (forall id ::
            Excused(setup, w.server, w.client, id) || Cell(w.client.memory, id) == Cell(Replay(log[..k]), id))
      && (w.client.queue == map[] ==> w.client.memory == Replay(log[..k]))
      && (w.client.queue == map[] && k == |log| ==> w.client.memory == TableOf(w.server, setup.table).records)
  {
    RunFollows(setup, trace, steps, server, n);
    RunIsSafe(setup, trace, steps, server, n);
    var w := trace[n];
    RecordsAreReplay(setup, w.server);
    hide IsGentleRun, Safe, Continues, NotAhead, CutsOf, Replay;
    var log, k := LogOf(setup, w.server), Position(w.client);
    assert forall id :: InStep(setup, w.server, w.client, id) ==>
      Cell(w.client.memory, id) == Cell(Replay(log[..k]), id);
    if w.client.queue == map[] {
      assert forall id :: !Excused(setup, w.server, w.client, id);
      CellsDetermineTable(w.client.memory, Replay(log[..k]));
      assert k == |log| ==> log[..k] == log;
    }
  }

  lemma RecordsAreReplay(setup: Setup, s: State)
    requires ServerInv(s)
    ensures TableOf(s, setup.table).records == Replay(LogOf(setup, s))
  {
    EmptyTableInv();
  }

  /** The fixture drops no acknowledgement unless a test header tells it to. */
  lemma PlainServerDropsNothing(setup: Setup, w: World, out: Sending, h: Headers)
    requires Safe(setup, w) && out in w.sent && h.dropAck.None?
    ensures var (s, reply) := Handle(w.server, RequestOf(setup, out), h);
      reply.Accepted? ==> NothingDropped(setup, s, out, reply.answer)
  {
    var req := RequestOf(setup, out);
    var (s, reply) := Handle(w.server, req, h);
    if reply.Accepted? {
      OpenKeeps(w.server, req.table);
      var r := w.server.(tables := w.server.tables[req.table := TableOf(w.server, req.table)]);
      AppliedIsAcknowledged(r, req.table, out.batch, h);
      HandleKeeps(w.server, req, h);
      var p := AcceptAll(Progress(r, [], [], None), req.table, req.mutations, h);
      assert s == p.state && reply.answer.acked == p.acked;
      hide Handle, AcceptAll, Safe;
      forall m | m in out.batch && Caused(s, setup.table, 0, m.id)
        ensures Applied(s, m.id)
      {}
    }
  }

  /** The fixture acknowledges a whole batch when it is not told otherwise: no test headers, no
      rejection rule on the batch and none remembered. */
  lemma PlainServerAcknowledges(setup: Setup, w: World, out: Sending, h: Headers)
    requires Safe(setup, w) && out in w.sent && h.reject.None? && h.dropAck.None?
    requires forall m :: m in out.batch ==>
      m.id !in w.server.rules && (m.id in w.server.processed ==> w.server.processed[m.id].rejection.None?)
    ensures var reply := Handle(w.server, RequestOf(setup, out), h).1;
      reply.Accepted? ==> MutationIds(out.batch) <= set id | id in reply.answer.acked
  {
    var req := RequestOf(setup, out);
    OpenKeeps(w.server, req.table);
    var r := w.server.(tables := w.server.tables[req.table := TableOf(w.server, req.table)]);
    BatchIsUnspoilt(setup, w, out, r);
    hide Safe, Unspoilt, ServerInv, Extends, Answering;
    AllAcknowledged(r, req.table, out.batch, h);
  }

  lemma BatchIsUnspoilt(setup: Setup, w: World, out: Sending, s: State)
    requires Safe(setup, w) && out in w.sent && s.processed == w.server.processed && s.rules == w.server.rules
    requires forall m :: m in out.batch ==>
      m.id !in s.rules && (m.id in s.processed ==> s.processed[m.id].rejection.None?)
    ensures Unspoilt(s, out.batch)
  {
    assert Genuine(setup, w.server, w.history, out);
    hide Fingerprint, ServerInv, Accounted, GoodFlight;
  }
}
