/** What a reply of the fixture says and what it leaves, read off the request and the state before. */
module Replies {
  import opened Json
  import opened Records
  import opened Wire
  import opened Server
  import opened ServerLaws

  // ---- Refused requests ----

  /** Where a request wants to continue: its cursor, else its version, else the beginning. */
  ghost predicate Continues(req: Request, from: int) {
    || req.cursor == Some(from)
    || (req.cursor.None? && req.version == Some(from))
    || (req.cursor.None? && req.version.None? && from == 0)
  }

  /** The table has no name, or a mutation has none or belongs elsewhere. */
  ghost predicate Malformed(req: Request) {
    req.table == "" || exists m :: m in req.mutations && (m.id == "" || m.table != req.table)
  }

  /** A request is refused exactly if it is malformed or its cursor is no safe natural number, and
      then nothing that anyone can pull or resend has changed. */
  lemma BadRequestMeans(s: State, req: Request, h: Headers, from: int)
    requires Continues(req, from)
    ensures var (s', reply) := Handle(s, req, h);
      && (reply.BadRequest? <==> Malformed(req) || from < 0 || from > 9007199254740991)
      && (reply.BadRequest? ==>
            s'.processed == s.processed && s'.rules == s.rules && forall t :: TableOf(s', t) == TableOf(s, t))
  {
    hide AcceptAll, Answering;
  }

  /** The pull of an accepted request continues there. */
  lemma AnswerContinues(s: State, req: Request, h: Headers, from: int)
    requires ServerInv(s) && Continues(req, from) && Handle(s, req, h).1.Accepted?
    ensures 0 <= from
    ensures var (s', reply) := Handle(s, req, h);
      var log := TableOf(s', req.table).changes;
      && reply.answer.records == RecordsIn(Behind(log, from))
      && reply.answer.tombstones == TombstonesIn(Behind(log, from))
  {
    AnswerMeans(s, req, h);
    hide Handle, ServerInv, Behind, RecordsIn, TombstonesIn;
  }

  // ---- One mutation of a request ----

  /** The rule for a mutation: one that was configured for it, else that of the headers. */
  ghost predicate RuledBy(s: State, h: Headers, id: string, rule: Rule) {
    (id in s.rules && s.rules[id] == rule) || (id !in s.rules && h.reject == Some((id, rule)))
  }

  ghost predicate Unruled(s: State, h: Headers, id: string) {
    id !in s.rules && (h.reject.None? || h.reject.value.0 != id)
  }

  /** A new mutation under a rule is answered with the rule's rejection and changes no table. Unless the
      rule lets it be retried, the rejection is remembered with its content. */
  lemma RuledIsRejected(p: Progress, table: string, m: Mutation, h: Headers, rule: Rule)
    requires p.conflict.None? && m.id !in p.state.processed && RuledBy(p.state, h, m.id, rule)
    ensures var q := Accept(p, table, m, h);
      && q.acked == p.acked && q.conflict.None? && q.state.tables == p.state.tables
      && q.rejected == p.rejected + [Rejection(m.id, rule.code, rule.message, rule.retryable)]
      && (rule.retryable == Some(true) ==> q.state == p.state)
      && (rule.retryable != Some(true) ==>
            && q.state.processed - {m.id} == p.state.processed - {m.id}
            && q.state.processed[m.id].fingerprint == Fingerprint(m)
            && q.state.processed[m.id].rejection == Some(Rejection(m.id, rule.code, rule.message, rule.retryable)))
  {
    hide Commit, Fingerprint;
  }

  /** A new mutation without a rule is committed and, unless a header drops that, acknowledged. */
  lemma UnruledIsCommitted(p: Progress, table: string, m: Mutation, h: Headers)
    requires p.conflict.None? && m.id !in p.state.processed && Unruled(p.state, h, m.id)
    ensures var q := Accept(p, table, m, h);
      && q.rejected == p.rejected && q.conflict.None?
      && q.acked == (if h.dropAck == Some(m.id) then p.acked else p.acked + [m.id])
      && (m.id in q.state.dropped <==> m.id in p.state.dropped || h.dropAck == Some(m.id))
      && Applied(q.state, m.id) && q.state.processed[m.id].fingerprint == Fingerprint(m)
      && |TableOf(q.state, table).changes| == |TableOf(p.state, table).changes| + 1
      && (forall t :: t != table ==> TableOf(q.state, t) == TableOf(p.state, t))
  {
    hide Stamp, Fingerprint;
  }

  /** A resend with the same content is answered as before, with the same rejection or with an
      acknowledgement, which settles a dropped one, and changes no table. */
  lemma ResendIsAnsweredAlike(p: Progress, table: string, m: Mutation, h: Headers)
    requires p.conflict.None? && m.id in p.state.processed
    requires p.state.processed[m.id].fingerprint == Fingerprint(m)
    ensures var q, before := Accept(p, table, m, h), p.state.processed[m.id];
      && q.conflict.None? && q.state.tables == p.state.tables && q.state.processed == p.state.processed
      && (before.rejection.Some? ==> q.rejected == p.rejected + [before.rejection.value] && q.acked == p.acked)
      && (before.rejection.None? ==>
            q.rejected == p.rejected && q.acked == p.acked + [m.id] && q.state.dropped == p.state.dropped - {m.id})
  {
    hide Commit, Fingerprint;
  }

  /** A resend with another content stops the request as a conflict. */
  lemma OtherContentConflicts(p: Progress, table: string, m: Mutation, h: Headers)
    requires p.conflict.None? && m.id in p.state.processed
    requires p.state.processed[m.id].fingerprint != Fingerprint(m)
    ensures Accept(p, table, m, h) == p.(conflict := Some(m.id))
  {
    hide Commit, Fingerprint;
  }

  // ---- What everyone sees of a record ----

  /** After the update of a record anyone who replays the log reads the fields of both, the update's
      where it has its own; a deletion leaves nothing, and no other record changes. */
  lemma CommitShows(t: TableState, m: Mutation)
    requires TableInv(t)
    ensures var after, id := Replay(Commit(t, m).changes), Id(m.payload);
      && (forall k :: k != id ==> Cell(after, k) == Cell(Replay(t.changes), k))
      && (m.operation.Delete? ==> id !in after)
      && (!m.operation.Delete? ==>
            id in after && TimestampOf(after[id]) == t.version + 1 &&
            Overlays(after[id], Cell(Replay(t.changes), id), m.payload))
  {
    CommitKeepsTable(t, m);
    var u := Commit(t, m);
    assert u.changes[..|u.changes| - 1] == t.changes;
    assert u.changes[..|t.changes|] == t.changes;
    hide Overlays, Stamp;
  }

  // ---- The mutations of one request, in turn ----

  function Upto(s: State, table: string, ms: seq<Mutation>, h: Headers, n: nat): Progress
    requires n <= |ms|
  {
    AcceptAll(Progress(s, [], [], None), table, ms[..n], h)
  }

  lemma UptoNext(s: State, table: string, ms: seq<Mutation>, h: Headers, n: nat)
    requires n < |ms|
    ensures Upto(s, table, ms, h, n + 1) == Accept(Upto(s, table, ms, h, n), table, ms[n], h)
  {
    assert ms[..n + 1][..n] == ms[..n];
  }

  /** Later mutations of a request only add to what the earlier ones did. */
  lemma {:induction false} UptoExtends(s: State, table: string, ms: seq<Mutation>, h: Headers, i: nat, n: nat)
    requires ServerInv(s) && i <= n <= |ms|
    ensures ServerInv(Upto(s, table, ms, h, n).state) && Extends(s, Upto(s, table, ms, h, n).state)
    ensures Extends(Upto(s, table, ms, h, i).state, Upto(s, table, ms, h, n).state)
    ensures Upto(s, table, ms, h, i).conflict.Some? ==> Upto(s, table, ms, h, n) == Upto(s, table, ms, h, i)
    ensures forall id :: id in Upto(s, table, ms, h, n).state.processed && id !in s.processed ==>
      id in MutationIds(ms[..n])
    decreases n - i
  {
    AcceptAllKeeps(s, table, ms[..n], h);
    hide Accept, Reached, ServerInv;
    if i == n {
      ReachedMeans(s, Upto(s, table, ms, h, n), table, ms[..n]);
      ExtendsItself(Upto(s, table, ms, h, n).state);
    } else {
      UptoExtends(s, table, ms, h, i, n - 1);
      ReachedMeans(s, Upto(s, table, ms, h, n), table, ms[..n]);
      UptoNext(s, table, ms, h, n - 1);
      StepExtends(Upto(s, table, ms, h, n - 1), table, ms[n - 1], h);
      ExtendsTransitive(
        Upto(s, table, ms, h, i).state, Upto(s, table, ms, h, n - 1).state, Upto(s, table, ms, h, n).state);
    }
  }

  lemma ReachedMeans(s: State, p: Progress, table: string, ms: seq<Mutation>)
    requires Reached(s, p, table, ms)
    ensures ServerInv(p.state) && Extends(s, p.state)
    ensures forall id :: id in p.state.processed && id !in s.processed ==> id in MutationIds(ms)
  {
    hide ServerInv, Extends, Writes, Fingerprint;
  }

  lemma StepExtends(p: Progress, table: string, m: Mutation, h: Headers)
    requires ServerInv(p.state)
    ensures Extends(p.state, Accept(p, table, m, h).state)
    ensures p.conflict.Some? ==> Accept(p, table, m, h) == p
  {
    hide Commit, Fingerprint, Writes, ServerInv;
    NothingNew(p.state, table);
    ExtendsItself(p.state);
    if p.conflict.None? {
      var clean := Progress(p.state, [], [], None);
      AcceptKeeps(p.state, clean, table, [], m, h);
      ReachedMeans(p.state, Accept(clean, table, m, h), table, [] + [m]);
      assert Accept(p, table, m, h).state == Accept(clean, table, m, h).state;
    }
  }

  lemma NewIsApplied(s: State, table: string, ms: seq<Mutation>, h: Headers, i: nat)
    requires ServerInv(s) && i < |ms| && Upto(s, table, ms, h, |ms|).conflict.None?
    requires ms[i].id !in s.processed && Unruled(s, h, ms[i].id) && ms[i].id !in MutationIds(ms[..i])
    ensures Applied(Upto(s, table, ms, h, i + 1).state, ms[i].id)
  {
    hide Upto, ServerInv, Accept, Fingerprint;
    UptoExtends(s, table, ms, h, i, |ms|);
    UptoExtends(s, table, ms, h, i, i);
    UptoNext(s, table, ms, h, i);
    UnruledIsCommitted(Upto(s, table, ms, h, i), table, ms[i], h);
  }

  /** Two new mutations of an answered request that no rule holds up stand in the log in the order in
      which they stand in the request. */
  lemma RequestOrderIsLogOrder(
    s: State, table: string, ms: seq<Mutation>, h: Headers, i: nat, j: nat, a: int, b: int)
    requires ServerInv(s) && i < j < |ms| && Upto(s, table, ms, h, |ms|).conflict.None?
    requires ms[i].id !in s.processed && Unruled(s, h, ms[i].id) && ms[i].id !in MutationIds(ms[..i])
    requires ms[j].id !in s.processed && ms[j].id !in MutationIds(ms[..j])
    requires Caused(Upto(s, table, ms, h, |ms|).state, table, a, ms[i].id)
    requires Caused(Upto(s, table, ms, h, |ms|).state, table, b, ms[j].id)
    ensures a < b
  {
    hide Upto, Extends, ServerInv, Caused, Applied, Unruled;
    var first, second, last := Upto(s, table, ms, h, i + 1), Upto(s, table, ms, h, j), Upto(s, table, ms, h, |ms|);
    NewIsApplied(s, table, ms, h, i);
    UptoExtends(s, table, ms, h, i, i + 1);
    UptoExtends(s, table, ms, h, i + 1, j);
    UptoExtends(s, table, ms, h, j, |ms|);
    StandsBefore(first.state, second.state, last.state, table, ms[i].id, ms[j].id, a, b);
  }

  lemma StandsBefore(
    first: State, second: State, last: State, table: string, x: string, y: string, a: int, b: int)
    requires ServerInv(first) && ServerInv(second) && ServerInv(last)
    requires Extends(first, second) && Extends(second, last)
    requires Applied(first, x) && y !in second.processed
    requires Caused(last, table, a, x) && Caused(last, table, b, y)
    ensures a < b
  {
    var t, i :| Caused(first, t, i, x);
    var early, later, log := TableOf(first, t).changes, TableOf(second, t).changes, TableOf(last, t).changes;
    assert early <= later && later <= log;
    assert Caused(last, t, i, x) && t == table && i == a;
    if b < |later| {
      assert later[b] == log[b];
      assert Caused(second, table, b, y);
    }
  }

  /** The state in which the mutations of a request find the server: its table is there. */
  function Opened(s: State, table: string): State {
    s.(tables := s.tables[table := TableOf(s, table)])
  }

  /** A conflict stops the request where it is met; what the mutations before it did is kept. */
  lemma {:induction false} ConflictKeepsEarlier(s: State, req: Request, h: Headers, i: nat)
    requires ServerInv(s) && Handle(s, req, h).1.Conflict? && i <= |req.mutations|
    ensures Extends(Upto(Opened(s, req.table), req.table, req.mutations, h, i).state, Handle(s, req, h).0)
  {
    OpenKeeps(s, req.table);
    UptoExtends(Opened(s, req.table), req.table, req.mutations, h, i, |req.mutations|);
    assert req.mutations[..|req.mutations|] == req.mutations;
    hide AcceptAll, Answering, Extends, ServerInv;
  }
}
