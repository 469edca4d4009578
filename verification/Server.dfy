/** The fixture server of tools/sync-test-server.cjs: a versioned change log per table, and the
    processed mutation ids that make delivery idempotent. */
module Server {
  import opened Json
  import opened Records
  import opened Wire

  datatype Rejection = Rejection(mutationId: string, code: string, message: Option<string>, retryable: Option<bool>)

  datatype Rule = Rule(code: string, message: Option<string>, retryable: Option<bool>)

  datatype Body = Put(record: Record) | Cut(tombstone: Tombstone)

  /** One entry of a change log. cause is a history variable: the mutation that caused the change. */
  datatype Change = Change(version: nat, cause: string, body: Body)

  datatype TableState = TableState(version: nat, records: Table, changes: seq<Change>)

  datatype Processed = Processed(fingerprint: string, rejection: Option<Rejection>)

  datatype State = State(
    tables: map<string, TableState>,
    processed: map<string, Processed>,
    rules: map<string, Rule>,
    dropped: set<string>)

  /** The test headers of a request. */
  datatype Headers = Headers(reject: Option<(string, Rule)>, dropAck: Option<string>)

  datatype Request = Request(table: string, mutations: seq<Mutation>, cursor: Option<int>, version: Option<int>)

  datatype Answer = Answer(
    records: seq<Record>,
    tombstones: seq<Tombstone>,
    acked: seq<string>,
    rejected: seq<Rejection>,
    cursor: int)

  datatype Reply = Accepted(answer: Answer) | BadRequest | Conflict(id: string)

  const EMPTY_TABLE := TableState(0, map[], [])

  function TableOf(s: State, name: string): TableState {
    if name in s.tables then s.tables[name] else EMPTY_TABLE
  }

  predicate ValidRequest(req: Request) {
    && req.table != ""
    && forall m :: m in req.mutations ==> m.id != "" && m.table == req.table
  }

  function CursorOf(req: Request): int {
    if req.cursor.Some? then req.cursor.value
    else if req.version.Some? then req.version.value
    else 0
  }

  /** The stored record, overwritten by the payload, stamped with the new version. */
  function Stamp(prior: Option<Record>, payload: Record, version: nat): (r: Record)
    ensures Id(r) == Id(payload) && TimestampOf(r) == version
  {
    var base := if prior.Some? then prior.value.fields else map[];
    Obj((base + payload.fields)["updatedAt" := Num(version)])
  }

  /** Applying one new mutation: the next version of the table and one log entry. */
  function Commit(t: TableState, m: Mutation): TableState {
    var v := t.version + 1;
    var id := Id(m.payload);
    if m.operation.Delete? then
      TableState(v, map k | k in t.records && k != id :: t.records[k],
                 t.changes + [Change(v, m.id, Cut(Tombstone(id, v)))])
    else
      var record := Stamp(Cell(t.records, id), m.payload, v);
      TableState(v, t.records[id := record], t.changes + [Change(v, m.id, Put(record))])
  }

  function RuleFor(s: State, h: Headers, id: string): Option<Rule> {
    if id in s.rules then Some(s.rules[id])
    else if h.reject.Some? && h.reject.value.0 == id then Some(h.reject.value.1)
    else None
  }

  /** Where the loop over the mutations of a request stands. */
  datatype Progress = Progress(state: State, acked: seq<string>, rejected: seq<Rejection>, conflict: Option<string>)

  function Accept(p: Progress, table: string, m: Mutation, h: Headers): Progress {
    var s := p.state;
    var rule := RuleFor(s, h, m.id);
    if p.conflict.Some? then p
    else if m.id in s.processed then
      var previous := s.processed[m.id];
      if previous.fingerprint != Fingerprint(m) then p.(conflict := Some(m.id))
      else if previous.rejection.Some? then p.(rejected := p.rejected + [previous.rejection.value])
      else p.(state := s.(dropped := s.dropped - {m.id}), acked := p.acked + [m.id])
    else if rule.Some? then
      var rejection := Rejection(m.id, rule.value.code, rule.value.message, rule.value.retryable);
      p.(state := if rule.value.retryable == Some(true) then s
                  else s.(processed := s.processed[m.id := Processed(Fingerprint(m), Some(rejection))]),
         rejected := p.rejected + [rejection])
    else
      var committed := s.(
        tables := s.tables[table := Commit(TableOf(s, table), m)],
        processed := s.processed[m.id := Processed(Fingerprint(m), None)]);
      if h.dropAck == Some(m.id)
      then p.(state := committed.(dropped := committed.dropped + {m.id}))
      else p.(state := committed, acked := p.acked + [m.id])
  }

  function AcceptAll(p: Progress, table: string, ms: seq<Mutation>, h: Headers): Progress {
    if ms == [] then p
    else Accept(AcceptAll(p, table, ms[..|ms| - 1], h), table, ms[|ms| - 1], h)
  }

  function Since(changes: seq<Change>, cursor: int): seq<Change> {
    if changes == [] then []
    else
      var init := Since(changes[..|changes| - 1], cursor);
      var c := changes[|changes| - 1];
      if c.version > cursor then init + [c] else init
  }

  function RecordsIn(cs: seq<Change>): seq<Record> {
    if cs == [] then []
    else
      var init := RecordsIn(cs[..|cs| - 1]);
      if cs[|cs| - 1].body.Put? then init + [cs[|cs| - 1].body.record] else init
  }

  function TombstonesIn(cs: seq<Change>): seq<Tombstone> {
    if cs == [] then []
    else
      var init := TombstonesIn(cs[..|cs| - 1]);
      if cs[|cs| - 1].body.Cut? then init + [cs[|cs| - 1].body.tombstone] else init
  }

  /** The pull part of an answer: the log after the cursor, split into two lists. */
  function Answering(changes: seq<Change>, cursor: int, acked: seq<string>, rejected: seq<Rejection>): Answer {
    var pulled := Since(changes, cursor);
    Answer(RecordsIn(pulled), TombstonesIn(pulled), acked, rejected,
           if pulled == [] then cursor else pulled[|pulled| - 1].version)
  }

  function Handle(s: State, req: Request, h: Headers): (State, Reply) {
    if !ValidRequest(req) then (s, BadRequest)
    else
      var ready := s.(tables := s.tables[req.table := TableOf(s, req.table)]);
      var cursor := CursorOf(req);
      if !(0 <= cursor <= MAX_SAFE_INTEGER) then (ready, BadRequest)
      else
        var p := AcceptAll(Progress(ready, [], [], None), req.table, req.mutations, h);
        if p.conflict.Some? then (p.state, Conflict(p.conflict.value))
        else (p.state, Accepted(Answering(TableOf(p.state, req.table).changes, cursor, p.acked, p.rejected)))
  }

  // ---- The server object ----

  class SyncTestServer {
    var tables: map<string, TableState>
    var processed: map<string, Processed>
    var rules: map<string, Rule>
    var dropped: set<string>

    function View(): State
      reads this
    {
      State(tables, processed, rules, dropped)
    }

    constructor ()
      ensures View() == State(map[], map[], map[], {})
    {
      tables, processed, rules, dropped := map[], map[], map[], {};
    }

    method GetTable(name: string) returns (t: TableState)
      modifies this`tables
      ensures tables == old(tables)[name := old(TableOf(View(), name))] && t == tables[name]
    {
      if name !in tables {
        tables := tables[name := EMPTY_TABLE];
      }
      t := tables[name];
    }

    /** One request: a conflict stops the loop but keeps what was applied before it. */
    method HandleSync(req: Request, h: Headers) returns (reply: Reply)
      modifies this
      ensures (View(), reply) == old(Handle(View(), req, h))
    {
      if !ValidRequest(req) {
        return BadRequest;
      }
      ghost var start := View();
      var table := GetTable(req.table);
      var cursor := CursorOf(req);
      if cursor < 0 || cursor > MAX_SAFE_INTEGER {
        return BadRequest;
      }
      ghost var ready := View();
      var acked: seq<string> := [];
      var rejected: seq<Rejection> := [];
      for i := 0 to |req.mutations|
        invariant AcceptAll(Progress(ready, [], [], None), req.table, req.mutations[..i], h)
               == Progress(View(), acked, rejected, None)
        invariant req.table in tables
      {
        assert req.mutations[..i + 1][..i] == req.mutations[..i];
        ghost var before := Progress(View(), acked, rejected, None);
        var m := req.mutations[i];
        var fingerprint := Fingerprint(m);
        if m.id in processed {
          if processed[m.id].fingerprint != fingerprint {
            ConflictStays(before, req.table, req.mutations, i, ready, h);
            return Conflict(m.id);
          }
          if processed[m.id].rejection.Some? {
            rejected := rejected + [processed[m.id].rejection.value];
          } else {
            dropped := dropped - {m.id};
            acked := acked + [m.id];
          }
        } else {
          var rule := RuleFor(View(), h, m.id);
          if rule.Some? {
            var rejection := Rejection(m.id, rule.value.code, rule.value.message, rule.value.retryable);
            rejected := rejected + [rejection];
            if rule.value.retryable != Some(true) {
              processed := processed[m.id := Processed(fingerprint, Some(rejection))];
            }
          } else {
            tables := tables[req.table := Commit(tables[req.table], m)];
            processed := processed[m.id := Processed(fingerprint, None)];
            if h.dropAck != Some(m.id) {
              acked := acked + [m.id];
            } else {
              dropped := dropped + {m.id};
            }
          }
        }
        assert Accept(before, req.table, m, h) == Progress(View(), acked, rejected, None);
      }
      assert req.mutations[..|req.mutations|] == req.mutations;
      reply := Accepted(Answering(tables[req.table].changes, cursor, acked, rejected));
    }

    lemma {:induction false} ConflictStays(
      p: Progress, table: string, ms: seq<Mutation>, i: nat, start: State, h: Headers)
      requires i < |ms| && p == AcceptAll(Progress(start, [], [], None), table, ms[..i], h)
      requires Accept(p, table, ms[i], h).conflict.Some?
      ensures AcceptAll(Progress(start, [], [], None), table, ms, h) == Accept(p, table, ms[i], h)
      decreases |ms|
    {
      if i == |ms| - 1 {
        assert ms[..i] == ms[..|ms| - 1];
      } else {
        var init := ms[..|ms| - 1];
        assert init[..i] == ms[..i] && init[i] == ms[i];
        ConflictStays(p, table, init, i, start, h);
      }
    }
  }
}
