/** What every request keeps true of the fixture server, and what its answers mean. */
module ServerLaws {
  import opened Json
  import opened Records
  import opened Wire
  import opened Server

  // ---- The log ----

  function Touched(c: Change): string {
    if c.body.Put? then Id(c.body.record) else c.body.tombstone.id
  }

  /** The records that a log leaves behind. */
  function Replay(cs: seq<Change>): Table {
    if cs == [] then map[]
    else
      var t := Replay(cs[..|cs| - 1]);
      var c := cs[|cs| - 1];
      if c.body.Put? then t[Touched(c) := c.body.record] else map k | k in t && k != Touched(c) :: t[k]
  }

  ghost predicate Stamped(c: Change, version: nat) {
    && c.version == version
    && (c.body.Put? ==> TimestampOf(c.body.record) == version)
    && (c.body.Cut? ==> c.body.tombstone.timestamp == version)
  }

  ghost predicate LogStamped(cs: seq<Change>) {
    forall i :: 0 <= i < |cs| ==> Stamped(cs[i], i + 1)
  }

  ghost predicate TableInv(t: TableState) {
    && t.version == |t.changes|
    && LogStamped(t.changes)
    && t.records == Replay(t.changes)
  }

  /** Mutation id caused entry i of the log of a table. */
  ghost predicate Caused(s: State, table: string, i: int, id: string) {
    0 <= i < |TableOf(s, table).changes| && TableOf(s, table).changes[i].cause == id
  }

  predicate Applied(s: State, id: string) {
    id in s.processed && s.processed[id].rejection.None?
  }

  ghost predicate ServerInv(s: State) {
    && (forall name :: name in s.tables ==> TableInv(s.tables[name]))
    && (forall t, i, id :: Caused(s, t, i, id) ==> Applied(s, id))
    && (forall id :: Applied(s, id) ==> exists t, i :: Caused(s, t, i, id))
    && (forall t, i, u, j, id :: Caused(s, t, i, id) && Caused(s, u, j, id) ==> t == u && i == j)
  }

  /** Logs only grow at the end and processed ids keep their entry. */
  ghost predicate Extends(s: State, s': State) {
    && (forall name :: TableOf(s, name).changes <= TableOf(s', name).changes)
    && (forall id :: id in s.processed ==> id in s'.processed && s'.processed[id] == s.processed[id])
    && s'.rules == s.rules
  }

  /** The payload laid over the record there was: every field of either, the payload's where both have
      it, and a version stamp for updatedAt. */
  ghost predicate Overlays(r: Record, prior: Option<Record>, payload: Record) {
    && (forall key :: key in payload.fields && key != "updatedAt" ==>
          key in r.fields && r.fields[key] == payload.fields[key])
    && (forall key :: prior.Some? && key in prior.value.fields && key !in payload.fields && key != "updatedAt" ==>
          key in r.fields && r.fields[key] == prior.value.fields[key])
    && (forall key :: key in r.fields ==>
          key == "updatedAt" || key in payload.fields || (prior.Some? && key in prior.value.fields))
  }

  /** Entry i of a log is what committing m writes there: its payload laid over the record that the
      entries before left, or its deletion. */
  ghost predicate Writes(m: Mutation, log: seq<Change>, i: nat)
    requires i < |log|
  {
    var c := log[i];
    && m.id == c.cause
    && Id(m.payload) == Touched(c)
    && (m.operation.Delete? <==> c.body.Cut?)
    && (c.body.Put? ==> Overlays(c.body.record, Cell(Replay(log[..i]), Touched(c)), m.payload))
  }

  /** Every new log entry comes from one of ms, writes that mutation's record, and every new
      processed id carries its fingerprint. */
  ghost predicate NewFrom(s: State, s': State, table: string, ms: seq<Mutation>) {
    && (forall name :: name != table ==> TableOf(s', name).changes == TableOf(s, name).changes)
    && (forall i, id :: Caused(s', table, i, id) && i >= |TableOf(s, table).changes| ==>
          id !in s.processed && exists m :: m in ms && Writes(m, TableOf(s', table).changes, i))
    && (forall id :: id in s'.processed && id !in s.processed ==>
          exists m :: m in ms && m.id == id && s'.processed[id].fingerprint == Fingerprint(m))
  }

  lemma ExtendsTransitive(a: State, b: State, c: State)
    requires Extends(a, b) && Extends(b, c)
    ensures Extends(a, c)
  {
    forall name
      ensures TableOf(a, name).changes <= TableOf(c, name).changes
    {
      assert TableOf(a, name).changes <= TableOf(b, name).changes;
      assert TableOf(b, name).changes <= TableOf(c, name).changes;
    }
  }

  lemma StampOverlays(prior: Option<Record>, payload: Record, version: nat)
    ensures Overlays(Stamp(prior, payload, version), prior, payload)
  {}

  lemma CommitKeepsTable(t: TableState, m: Mutation)
    requires TableInv(t)
    ensures TableInv(Commit(t, m))
    ensures Commit(t, m).changes[..|t.changes|] == t.changes
    ensures |Commit(t, m).changes| == |t.changes| + 1
    ensures Writes(m, Commit(t, m).changes, |t.changes|)
  {
    hide Stamp, Writes;
    var u := Commit(t, m);
    assert u.changes[..|u.changes| - 1] == t.changes;
    CommitWrites(t, m);
  }

  lemma CommitWrites(t: TableState, m: Mutation)
    requires t.records == Replay(t.changes)
    ensures |Commit(t, m).changes| == |t.changes| + 1 && Writes(m, Commit(t, m).changes, |t.changes|)
  {
    hide Overlays, Stamp, Replay;
    assert Commit(t, m).changes[..|t.changes|] == t.changes;
    if !m.operation.Delete? {
      StampOverlays(Cell(t.records, Id(m.payload)), m.payload, t.version + 1);
    }
  }

  /** The state after committing m to table, before the bookkeeping of acknowledgements. */
  function Committed(s: State, table: string, m: Mutation): State {
    s.(tables := s.tables[table := Commit(TableOf(s, table), m)],
       processed := s.processed[m.id := Processed(Fingerprint(m), None)])
  }

  lemma CommitCauses(s: State, table: string, m: Mutation)
    requires ServerInv(s) && m.id !in s.processed
    ensures var s' := Committed(s, table, m);
      && (forall t, i, id :: Caused(s', t, i, id) <==>
            Caused(s, t, i, id) || (t == table && i == |TableOf(s, table).changes| && id == m.id))
      && (forall id :: Applied(s', id) <==> Applied(s, id) || id == m.id)
  {
    hide Commit, Fingerprint, TableInv;
    EmptyTableInv();
    CommitKeepsTable(TableOf(s, table), m);
    var s' := Committed(s, table, m);
    var old', new' := TableOf(s, table).changes, TableOf(s', table).changes;
    forall t, i, id
      ensures Caused(s', t, i, id) <==>
        Caused(s, t, i, id) || (t == table && i == |old'| && id == m.id)
    {
      if t == table && 0 <= i < |old'| {
        assert new'[i] == new'[..|old'|][i];
      }
    }
  }

  lemma EmptyTableInv()
    ensures TableInv(EMPTY_TABLE)
  {}

  lemma CommitKeepsInv(s: State, table: string, m: Mutation)
    requires ServerInv(s) && m.id !in s.processed
    ensures ServerInv(Committed(s, table, m))
    ensures Extends(s, Committed(s, table, m)) && Applied(Committed(s, table, m), m.id)
  {
    hide Fingerprint, Commit, TableInv;
    EmptyTableInv();
    CommitKeepsTable(TableOf(s, table), m);
    CommitCauses(s, table, m);
    CommitCausedOnce(s, table, m);
    CommitExtends(s, table, m);
  }

  lemma CommitCausedOnce(s: State, table: string, m: Mutation)
    requires ServerInv(s) && m.id !in s.processed
    ensures var s' := Committed(s, table, m);
      && (forall id :: Applied(s', id) ==> exists t, i :: Caused(s', t, i, id))
      && (forall t, i, u, j, id :: Caused(s', t, i, id) && Caused(s', u, j, id) ==> t == u && i == j)
  {
    var s' := Committed(s, table, m);
    CommitCauses(s, table, m);
    hide Committed, Fingerprint, Commit, TableInv;
    forall id | Applied(s', id)
      ensures exists t, i :: Caused(s', t, i, id)
    {
      if id == m.id {
        assert Caused(s', table, |TableOf(s, table).changes|, id);
      } else {
        var t, i :| Caused(s, t, i, id);
        assert Caused(s', t, i, id);
      }
    }
    forall t, i, u, j, id | Caused(s', t, i, id) && Caused(s', u, j, id)
      ensures t == u && i == j
    {
      if id == m.id {
        assert !Caused(s, t, i, id) && !Caused(s, u, j, id);
      } else {
        assert Caused(s, t, i, id) && Caused(s, u, j, id);
      }
    }
  }

  lemma CommitExtends(s: State, table: string, m: Mutation)
    requires ServerInv(s) && m.id !in s.processed
    ensures Extends(s, Committed(s, table, m)) && Applied(Committed(s, table, m), m.id)
  {
    hide Fingerprint, Commit;
    EmptyTableInv();
    CommitKeepsTable(TableOf(s, table), m);
    forall name
      ensures TableOf(s, name).changes <= TableOf(Committed(s, table, m), name).changes
    {
      if name != table {
        assert TableOf(Committed(s, table, m), name) == TableOf(s, name);
      }
    }
  }

  // ---- The loop over a request ----

  /** Everything the loop guarantees about a state p reached from s by handling ms. */
  ghost predicate Reached(s: State, p: Progress, table: string, ms: seq<Mutation>) {
    && ServerInv(p.state)
    && Extends(s, p.state)
    && NewFrom(s, p.state, table, ms)
    && (forall id :: id in p.acked ==> id in MutationIds(ms) && Applied(p.state, id))
    && (p.conflict.Some? ==> Clashes(p.state, ms, p.conflict.value))
  }

  /** Some mutation of ms reuses a processed id with another content. */
  ghost predicate Clashes(s: State, ms: seq<Mutation>, id: string) {
    exists m :: m in ms && m.id == id && id in s.processed && s.processed[id].fingerprint != Fingerprint(m)
  }

  lemma NothingNew(s: State, table: string)
    requires ServerInv(s)
    ensures Reached(s, Progress(s, [], [], None), table, [])
  {}

  lemma AcceptKeeps(s: State, p: Progress, table: string, ms: seq<Mutation>, m: Mutation, h: Headers)
    requires Reached(s, p, table, ms)
    ensures Reached(s, Accept(p, table, m, h), table, ms + [m])
  {
    ReachedMore(s, p, table, ms, m);
    if p.conflict.None? {
      if m.id in p.state.processed {
        DuplicateKeeps(s, p, table, ms + [m], m, h);
      } else if RuleFor(p.state, h, m.id).Some? {
        RejectKeeps(s, p, table, ms + [m], m, h);
      } else {
        CommitReaches(s, p, table, ms + [m], m, h);
      }
    }
  }

  lemma ReachedMore(s: State, p: Progress, table: string, ms: seq<Mutation>, m: Mutation)
    requires Reached(s, p, table, ms)
    ensures Reached(s, p, table, ms + [m]) && m in ms + [m] && m.id in MutationIds(ms + [m])
  {
    var all := ms + [m];
    assert m in all && forall x :: x in ms ==> x in all;
    assert forall id :: id in MutationIds(ms) ==> id in MutationIds(all);
    NewFromMore(s, p.state, table, ms, m);
  }

  lemma DuplicateKeeps(s: State, p: Progress, table: string, ms: seq<Mutation>, m: Mutation, h: Headers)
    requires Reached(s, p, table, ms) && p.conflict.None?
    requires m in ms && m.id in MutationIds(ms) && m.id in p.state.processed
    ensures Reached(s, Accept(p, table, m, h), table, ms)
  {
    hide Fingerprint, ServerInv, Extends, NewFrom;
    BookkeepingKeeps(s, p.state, table, ms, p.state.dropped - {m.id});
  }

  lemma CommitReaches(s: State, p: Progress, table: string, ms: seq<Mutation>, m: Mutation, h: Headers)
    requires Reached(s, p, table, ms) && p.conflict.None?
    requires m in ms && m.id in MutationIds(ms)
    requires m.id !in p.state.processed && RuleFor(p.state, h, m.id).None?
    ensures Reached(s, Accept(p, table, m, h), table, ms)
  {
    hide Fingerprint, Commit, ServerInv, Extends, NewFrom;
    var c := Committed(p.state, table, m);
    CommitState(s, p.state, table, ms, m);
    BookkeepingKeeps(s, c, table, ms, c.dropped + {m.id});
    var q := Accept(p, table, m, h);
    assert q.state == c || q.state == c.(dropped := c.dropped + {m.id});
  }

  lemma CommitState(s: State, s': State, table: string, ms: seq<Mutation>, m: Mutation)
    requires ServerInv(s') && Extends(s, s') && NewFrom(s, s', table, ms)
    requires m in ms && m.id !in s'.processed
    ensures var c := Committed(s', table, m);
      ServerInv(c) && Extends(s, c) && NewFrom(s, c, table, ms) && Applied(c, m.id) &&
      forall id :: Applied(s', id) ==> Applied(c, id)
  {
    hide *;
    CommitKeepsInv(s', table, m);
    CommitIsNew(s, s', table, ms, m);
    ExtendsTransitive(s, s', Committed(s', table, m));
    AppliedStays(s', Committed(s', table, m));
  }

  lemma AppliedStays(s: State, s': State)
    requires Extends(s, s')
    ensures forall id :: Applied(s, id) ==> Applied(s', id)
  {}

  lemma NewFromMore(s: State, s': State, table: string, ms: seq<Mutation>, m: Mutation)
    requires NewFrom(s, s', table, ms)
    ensures NewFrom(s, s', table, ms + [m])
  {
    assert forall x :: x in ms ==> x in ms + [m];
  }

  /** Which acknowledgements were dropped is not part of any law. */
  lemma BookkeepingKeeps(s: State, s': State, table: string, ms: seq<Mutation>, dropped: set<string>)
    ensures ServerInv(s') ==> ServerInv(s'.(dropped := dropped))
    ensures Extends(s, s') ==> Extends(s, s'.(dropped := dropped))
    ensures NewFrom(s, s', table, ms) ==> NewFrom(s, s'.(dropped := dropped), table, ms)
    ensures forall id :: Applied(s'.(dropped := dropped), id) <==> Applied(s', id)
  {
    var d := s'.(dropped := dropped);
    assert forall name :: TableOf(d, name) == TableOf(s', name);
    assert forall t, i, id :: Caused(d, t, i, id) <==> Caused(s', t, i, id);
    assert forall id :: Applied(d, id) <==> Applied(s', id);
  }

  lemma CommitIsNew(s: State, s': State, table: string, ms: seq<Mutation>, m: Mutation)
    requires ServerInv(s') && Extends(s, s') && NewFrom(s, s', table, ms)
    requires m in ms && m.id !in s'.processed
    ensures NewFrom(s, Committed(s', table, m), table, ms)
  {
    hide Fingerprint, Commit, TableInv;
    var c := Committed(s', table, m);
    EmptyTableInv();
    CommitKeepsTable(TableOf(s', table), m);
    CommitCauses(s', table, m);
    var prior, now := TableOf(s', table).changes, TableOf(c, table).changes;
    forall i, id | Caused(c, table, i, id) && i >= |TableOf(s, table).changes|
      ensures id !in s.processed && exists x :: x in ms && Writes(x, now, i)
    {
      if i < |prior| {
        assert now[i] == now[..|prior|][i];
        assert now[..i] == prior[..i];
        assert Caused(s', table, i, id);
      }
    }
    assert forall name :: name != table ==> TableOf(c, name) == TableOf(s', name);
  }

  lemma RejectKeeps(s: State, p: Progress, table: string, ms: seq<Mutation>, m: Mutation, h: Headers)
    requires Reached(s, p, table, ms) && p.conflict.None?
    requires m in ms && m.id !in p.state.processed && RuleFor(p.state, h, m.id).Some?
    ensures Reached(s, Accept(p, table, m, h), table, ms)
  {
    hide Commit, TableInv, Writes;
    hide Fingerprint;
    var q := Accept(p, table, m, h);
    assert forall name :: TableOf(q.state, name) == TableOf(p.state, name);
    assert forall t, i, id :: Caused(q.state, t, i, id) <==> Caused(p.state, t, i, id);
    assert forall id :: Applied(q.state, id) <==> Applied(p.state, id);
    assert q.state.processed != p.state.processed ==> q.state.processed[m.id].fingerprint == Fingerprint(m);
  }

  lemma {:induction false} AcceptAllKeeps(s: State, table: string, ms: seq<Mutation>, h: Headers)
    requires ServerInv(s)
    ensures Reached(s, AcceptAll(Progress(s, [], [], None), table, ms, h), table, ms)
  {
    if ms == [] {
      NothingNew(s, table);
    } else {
      var init := ms[..|ms| - 1];
      AcceptAllKeeps(s, table, init, h);
      AcceptKeeps(s, AcceptAll(Progress(s, [], [], None), table, init, h), table, init, ms[|ms| - 1], h);
      assert init + [ms[|ms| - 1]] == ms;
    }
  }

  // ---- Requests ----

  lemma OpenKeeps(s: State, table: string)
    requires ServerInv(s)
    ensures var r := s.(tables := s.tables[table := TableOf(s, table)]);
      ServerInv(r) && Extends(s, r) && forall name :: TableOf(r, name) == TableOf(s, name)
  {
    EmptyTableInv();
    var r := s.(tables := s.tables[table := TableOf(s, table)]);
    assert forall name :: TableOf(r, name) == TableOf(s, name);
    assert forall t, i, id :: Caused(r, t, i, id) <==> Caused(s, t, i, id);
    assert forall id :: Applied(r, id) <==> Applied(s, id);
  }

  /** The entries after the first n; nothing for a cursor past the end. */
  function Behind(cs: seq<Change>, n: nat): seq<Change> {
    if n <= |cs| then cs[n..] else []
  }

  lemma SinceIsSuffix(cs: seq<Change>, cursor: nat)
    requires LogStamped(cs)
    ensures Since(cs, cursor) == Behind(cs, cursor)
  {
    SinceTake(cs, |cs|, cursor);
    assert cs[..|cs|] == cs;
  }

  lemma {:induction false} SinceTake(cs: seq<Change>, n: nat, cursor: nat)
    requires LogStamped(cs) && n <= |cs|
    ensures Since(cs[..n], cursor) == if n <= cursor then [] else cs[cursor..n]
  {
    if n > 0 {
      SinceTake(cs, n - 1, cursor);
      assert cs[..n][..n - 1] == cs[..n - 1];
      assert Stamped(cs[n - 1], n);
    }
  }

  /** Every request, valid or not, conflicting or not, keeps the server's invariant: versions count
      the log, records are its replay, every processed id caused exactly one entry. */
  lemma HandleKeeps(s: State, req: Request, h: Headers)
    requires ServerInv(s)
    ensures ServerInv(Handle(s, req, h).0)
    ensures Extends(s, Handle(s, req, h).0)
    ensures NewFrom(s, Handle(s, req, h).0, req.table, req.mutations)
  {
    OpenKeeps(s, req.table);
    var r := s.(tables := s.tables[req.table := TableOf(s, req.table)]);
    AcceptAllKeeps(r, req.table, req.mutations, h);
    var p := AcceptAll(Progress(r, [], [], None), req.table, req.mutations, h);
    ExtendsTransitive(s, r, p.state);
    NewFromOpen(s, r, p.state, req.table, req.mutations);
  }

  lemma NewFromOpen(s: State, r: State, s': State, table: string, ms: seq<Mutation>)
    requires NewFrom(r, s', table, ms) && r.processed == s.processed
    requires forall name :: TableOf(r, name) == TableOf(s, name)
    ensures NewFrom(s, s', table, ms) && NewFrom(s, r, table, ms)
  {}

  /** The pull of an accepted request is exactly the log behind the cursor, cut in two, and the
      next cursor is the length of the log, or the cursor itself if that is already past the end;
      acknowledged mutations are applied. */
  lemma AnswerMeans(s: State, req: Request, h: Headers)
    requires ServerInv(s) && Handle(s, req, h).1.Accepted?
    ensures CursorOf(req) >= 0
    ensures var (s', reply) := Handle(s, req, h);
      var log := TableOf(s', req.table).changes;
      && reply.answer.records == RecordsIn(Behind(log, CursorOf(req)))
      && reply.answer.tombstones == TombstonesIn(Behind(log, CursorOf(req)))
      && reply.answer.cursor == (if CursorOf(req) <= |log| then |log| else CursorOf(req))
      && forall id :: id in reply.answer.acked ==> id in MutationIds(req.mutations) && Applied(s', id)
  {
    OpenKeeps(s, req.table);
    var r := s.(tables := s.tables[req.table := TableOf(s, req.table)]);
    AcceptAllKeeps(r, req.table, req.mutations, h);
    EmptyTableInv();
    var changes := TableOf(Handle(s, req, h).0, req.table).changes;
    assert LogStamped(changes);
    SinceIsSuffix(changes, CursorOf(req));
    assert changes != [] ==> Stamped(changes[|changes| - 1], |changes|);
  }

  /** The conflict reply means what it says: an id was used again with another content. */
  lemma ConflictMeans(s: State, req: Request, h: Headers)
    requires ServerInv(s) && Handle(s, req, h).1.Conflict?
    ensures Clashes(Handle(s, req, h).0, req.mutations, Handle(s, req, h).1.id)
  {
    OpenKeeps(s, req.table);
    var r := s.(tables := s.tables[req.table := TableOf(s, req.table)]);
    AcceptAllKeeps(r, req.table, req.mutations, h);
  }

  /** A mutation that was processed before causes a conflict exactly when any field differs from
      the first use of its id. */
  lemma ResendConflictsIffChanged(s: State, table: string, first: Mutation, m: Mutation, h: Headers)
    requires m.id in s.processed && s.processed[m.id].fingerprint == Fingerprint(first)
    ensures Accept(Progress(s, [], [], None), table, m, h).conflict == if m == first then None else Some(m.id)
    ensures Accept(Progress(s, [], [], None), table, m, h).state.tables == s.tables
  {
    FingerprintDecides(first, m);
  }

  /** ms use each id for one content, and the server has rejected none of them. */
  ghost predicate Unspoilt(s: State, ms: seq<Mutation>) {
    && (forall m :: m in ms ==> m.id !in s.rules)
    && (forall m, n :: m in ms && n in ms && m.id == n.id ==> m == n)
    && (forall m :: m in ms && m.id in s.processed ==>
          Applied(s, m.id) && s.processed[m.id].fingerprint == Fingerprint(m))
  }

  ghost predicate AllIn(ms: seq<Mutation>, p: Progress) {
    && p.conflict.None? && p.rejected == []
    && (forall m :: m in ms ==> m.id in p.acked && Applied(p.state, m.id))
    && (forall m :: m in ms ==> p.state.processed[m.id].fingerprint == Fingerprint(m))
  }

  /** Without test headers, rejections or reused ids every mutation of the request is acknowledged. */
  lemma {:induction false} AllAcknowledged(s: State, table: string, ms: seq<Mutation>, h: Headers)
    requires ServerInv(s) && h.reject.None? && h.dropAck.None? && Unspoilt(s, ms)
    ensures AllIn(ms, AcceptAll(Progress(s, [], [], None), table, ms, h))
  {
    if ms != [] {
      var init, m := ms[..|ms| - 1], ms[|ms| - 1];
      assert forall x :: x in init ==> x in ms;
      assert m in ms;
      AllAcknowledged(s, table, init, h);
      AcceptAllKeeps(s, table, init, h);
      var p := AcceptAll(Progress(s, [], [], None), table, init, h);
      SeenBefore(s, p, table, ms, m);
      AcknowledgeOne(p, table, init, m, h);
      assert forall x :: x in ms <==> x in init || x == m;
    }
  }

  lemma SeenBefore(s: State, p: Progress, table: string, ms: seq<Mutation>, m: Mutation)
    requires ms != [] && m == ms[|ms| - 1] && Unspoilt(s, ms)
    requires Reached(s, p, table, ms[..|ms| - 1]) && AllIn(ms[..|ms| - 1], p)
    ensures m.id !in p.state.rules
    ensures m.id in p.state.processed ==>
      Applied(p.state, m.id) && p.state.processed[m.id].fingerprint == Fingerprint(m)
  {
    var init := ms[..|ms| - 1];
    assert m in ms;
    if m.id in p.state.processed && m.id !in s.processed {
      var x :| x in init && x.id == m.id && p.state.processed[m.id].fingerprint == Fingerprint(x);
      assert x in ms && x == m;
    }
  }

  lemma AcknowledgeOne(p: Progress, table: string, ms: seq<Mutation>, m: Mutation, h: Headers)
    requires AllIn(ms, p) && h.reject.None? && h.dropAck.None?
    requires m.id !in p.state.rules
    requires m.id in p.state.processed ==>
      Applied(p.state, m.id) && p.state.processed[m.id].fingerprint == Fingerprint(m)
    ensures var q := Accept(p, table, m, h);
      AllIn(ms, q) && m.id in q.acked && Applied(q.state, m.id) && q.state.processed[m.id].fingerprint == Fingerprint(m)
  {
    hide Accept, AllIn, Applied, Fingerprint, RuleFor, Commit;
    AllInHas(ms, p);
    PlainAccept(p, table, m, h);
    AllInStays(ms, p, Accept(p, table, m, h), m.id, Fingerprint(m));
  }

  lemma AllInHas(ms: seq<Mutation>, p: Progress)
    requires AllIn(ms, p)
    ensures p.conflict.None?
  {}

  lemma AllInStays(ms: seq<Mutation>, p: Progress, q: Progress, id: string, fingerprint: string)
    requires AllIn(ms, p) && q.conflict.None? && q.rejected == p.rejected && q.acked == p.acked + [id]
    requires id in p.state.processed ==> p.state.processed[id].fingerprint == fingerprint
    requires q.state.processed == p.state.processed[id := Processed(fingerprint, None)]
    ensures AllIn(ms, q) && id in q.acked && Applied(q.state, id) && q.state.processed[id].fingerprint == fingerprint
  {
    hide Fingerprint;
  }

  lemma PlainAccept(p: Progress, table: string, m: Mutation, h: Headers)
    requires p.conflict.None? && h.reject.None? && h.dropAck.None? && m.id !in p.state.rules
    requires m.id in p.state.processed ==>
      Applied(p.state, m.id) && p.state.processed[m.id].fingerprint == Fingerprint(m)
    ensures var q := Accept(p, table, m, h);
      && q.conflict.None? && q.rejected == p.rejected && q.acked == p.acked + [m.id]
      && q.state.processed == p.state.processed[m.id := Processed(Fingerprint(m), None)]
  {
    hide Commit, Fingerprint;
    if m.id in p.state.processed {
      assert p.state.processed[m.id] == Processed(Fingerprint(m), None);
    }
  }

  /** Unless a header drops it, whatever of the request is applied is acknowledged. */
  lemma {:induction false} AppliedIsAcknowledged(s: State, table: string, ms: seq<Mutation>, h: Headers)
    requires h.dropAck.None?
    ensures var p := AcceptAll(Progress(s, [], [], None), table, ms, h);
      p.conflict.None? ==> forall m :: m in ms && Applied(p.state, m.id) ==> m.id in p.acked
  {
    hide Commit, Fingerprint, RuleFor;
    if ms != [] {
      var init, m := ms[..|ms| - 1], ms[|ms| - 1];
      AppliedIsAcknowledged(s, table, init, h);
      assert forall x :: x in ms <==> x in init || x == m;
      hide Commit, Fingerprint, AcceptAll;
      AcceptAcknowledges(AcceptAll(Progress(s, [], [], None), table, init, h), table, m, h);
    }
  }

  lemma AcceptAcknowledges(p: Progress, table: string, m: Mutation, h: Headers)
    requires h.dropAck.None?
    ensures var q := Accept(p, table, m, h);
      && (q.conflict.None? ==> p.conflict.None? && (Applied(q.state, m.id) ==> m.id in q.acked))
      && (forall id :: id in p.acked ==> id in q.acked)
      && (forall id :: id != m.id ==> (Applied(q.state, id) <==> Applied(p.state, id)))
  {
    hide Commit, Fingerprint;
  }

  // ---- Chains of pulls ----

  /** One request that the server handles, from the client in view or from any other. */
  datatype Exchange = Exchange(request: Request, headers: Headers, ours: bool)

  function ServerAfter(s: State, xs: seq<Exchange>): State {
    if xs == [] then s
    else Handle(ServerAfter(s, xs[..|xs| - 1]), xs[|xs| - 1].request, xs[|xs| - 1].headers).0
  }

  /** What the client in view has received, and the cursor it will send next. */
  datatype Received = Received(records: seq<Record>, tombstones: seq<Tombstone>, cursor: int)

  function ReceivedAfter(s: State, xs: seq<Exchange>, start: int): Received {
    if xs == [] then Received([], [], start)
    else
      var before := ReceivedAfter(s, xs[..|xs| - 1], start);
      var x := xs[|xs| - 1];
      var reply := Handle(ServerAfter(s, xs[..|xs| - 1]), x.request, x.headers).1;
      if x.ours && reply.Accepted? then
        Received(before.records + reply.answer.records, before.tombstones + reply.answer.tombstones,
          reply.answer.cursor)
      else before
  }

  /** The client in view pulls one table and passes back the cursor of its last answer. */
  ghost predicate PassesBack(s: State, table: string, xs: seq<Exchange>, start: int) {
    forall i :: 0 <= i < |xs| && xs[i].ours ==>
      xs[i].request.table == table && CursorOf(xs[i].request) == ReceivedAfter(s, xs[..i], start).cursor
  }

  lemma {:induction false} ServerAfterKeeps(s: State, xs: seq<Exchange>)
    requires ServerInv(s)
    ensures ServerInv(ServerAfter(s, xs)) && Extends(s, ServerAfter(s, xs))
  {
    hide ServerInv, Handle, Extends;
    if xs == [] {
      ExtendsItself(s);
    } else {
      var init, x := xs[..|xs| - 1], xs[|xs| - 1];
      ServerAfterKeeps(s, init);
      HandleKeeps(ServerAfter(s, init), x.request, x.headers);
      ExtendsTransitive(s, ServerAfter(s, init), ServerAfter(s, xs));
    }
  }

  lemma ExtendsItself(s: State)
    ensures Extends(s, s)
  {}

  lemma {:induction false} PartsAppend(a: seq<Change>, b: seq<Change>)
    ensures RecordsIn(a + b) == RecordsIn(a) + RecordsIn(b)
    ensures TombstonesIn(a + b) == TombstonesIn(a) + TombstonesIn(b)
    decreases |b|
  {
    if b == [] {
      assert a + b == a;
    } else {
      assert (a + b)[..|a + b| - 1] == a + b[..|b| - 1];
      PartsAppend(a, b[..|b| - 1]);
    }
  }

  /** The client has received the log between its first cursor and its last, each entry once and in
      order. */
  ghost predicate HasReceived(log: seq<Change>, start: nat, got: Received) {
    && start <= got.cursor <= |log|
    && got.records == RecordsIn(log[start..got.cursor])
    && got.tombstones == TombstonesIn(log[start..got.cursor])
  }

  lemma ReceivedStays(log: seq<Change>, log': seq<Change>, start: nat, got: Received)
    requires log <= log' && HasReceived(log, start, got)
    ensures HasReceived(log', start, got)
  {
    assert log'[start..got.cursor] == log[start..got.cursor];
  }

  lemma ReceivedMore(log: seq<Change>, start: nat, got: Received, answer: Answer)
    requires HasReceived(log, start, got) && answer.cursor == |log|
    requires answer.records == RecordsIn(log[got.cursor..]) && answer.tombstones == TombstonesIn(log[got.cursor..])
    ensures HasReceived(log, start,
      Received(got.records + answer.records, got.tombstones + answer.tombstones, answer.cursor))
  {
    PartsAppend(log[start..got.cursor], log[got.cursor..]);
    assert log[start..got.cursor] + log[got.cursor..] == log[start..|log|];
  }

  /** One exchange: the logs grow, and an accepted pull of ours receives what is new. */
  lemma ExchangeReceives(s: State, table: string, x: Exchange, start: nat, got: Received)
    requires ServerInv(s) && HasReceived(TableOf(s, table).changes, start, got)
    requires x.ours ==> x.request.table == table && CursorOf(x.request) == got.cursor
    ensures var (s', reply) := Handle(s, x.request, x.headers);
      var log := TableOf(s', table).changes;
      && HasReceived(log, start, got)
      && (x.ours && reply.Accepted? ==>
           && reply.answer.cursor == |log|
           && HasReceived(log, start, Received(
                got.records + reply.answer.records, got.tombstones + reply.answer.tombstones, reply.answer.cursor)))
  {
    HandleKeeps(s, x.request, x.headers);
    var (s', reply) := Handle(s, x.request, x.headers);
    assert TableOf(s, table).changes <= TableOf(s', table).changes;
    hide Handle, ServerInv, Extends, NewFrom, RecordsIn, TombstonesIn;
    ReceivedStays(TableOf(s, table).changes, TableOf(s', table).changes, start, got);
    if x.ours && reply.Accepted? {
      AnswerMeans(s, x.request, x.headers);
      ReceivedMore(TableOf(s', table).changes, start, got, reply.answer);
    }
  }

  /** A client that passes back each returned cursor has received, after any exchanges of any clients
      with the server, every entry of the log between its first cursor and its last once and in order;
      after an accepted pull its cursor is the end of the log. */
  lemma {:induction false} PullsCoverTheLog(s: State, table: string, xs: seq<Exchange>, start: nat)
    requires ServerInv(s) && start <= |TableOf(s, table).changes| && PassesBack(s, table, xs, start)
    ensures HasReceived(TableOf(ServerAfter(s, xs), table).changes, start, ReceivedAfter(s, xs, start))
    ensures xs != [] && LastPulled(s, xs) ==>
      ReceivedAfter(s, xs, start).cursor == |TableOf(ServerAfter(s, xs), table).changes|
  {
    hide Handle, ServerInv, RecordsIn, TombstonesIn;
    if xs == [] {
      NothingReceived(TableOf(s, table).changes, start);
    } else {
      var init, x := xs[..|xs| - 1], xs[|xs| - 1];
      hide HasReceived;
      PassedBackBefore(s, table, xs, start);
      PullsCoverTheLog(s, table, init, start);
      ServerAfterKeeps(s, init);
      ExchangeReceives(ServerAfter(s, init), table, x, start, ReceivedAfter(s, init, start));
    }
  }

  predicate LastPulled(s: State, xs: seq<Exchange>)
    requires xs != []
  {
    var x := xs[|xs| - 1];
    x.ours && Handle(ServerAfter(s, xs[..|xs| - 1]), x.request, x.headers).1.Accepted?
  }

  lemma NothingReceived(log: seq<Change>, start: nat)
    requires start <= |log|
    ensures HasReceived(log, start, Received([], [], start))
  {
    assert log[start..start] == [];
  }

  lemma PassedBackBefore(s: State, table: string, xs: seq<Exchange>, start: int)
    requires xs != [] && PassesBack(s, table, xs, start)
    ensures var init, x := xs[..|xs| - 1], xs[|xs| - 1];
      && PassesBack(s, table, init, start)
      && (x.ours ==> x.request.table == table && CursorOf(x.request) == ReceivedAfter(s, init, start).cursor)
  {
    hide ReceivedAfter;
    var init := xs[..|xs| - 1];
    assert forall i :: 0 <= i < |init| ==> init[i] == xs[i] && init[..i] == xs[..i];
  }
}
