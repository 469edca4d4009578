/** The provider of src/provider.tsx as functions on the state of one table. */
module Client {
  import opened Json
  import opened Records
  import opened Merge
  import opened Store
  import opened Server
  import opened Settlement

  /** A normalized response. */
  datatype Response = Response(
    records: Option<seq<Record>>,
    tombstones: seq<Tombstone>,
    acked: seq<string>,
    rejected: seq<Rejection>,
    serverTimestamp: int,
    cursor: Option<Option<nat>>,
    resetRequired: bool,
    minimumSchemaVersion: Option<int>)

  /** Normalization refuses a reset without records. */
  predicate Normalized(r: Response) {
    r.resetRequired ==> r.records.Some?
  }

  // ---- Local writes ----

  /** recordIdFromPayload: the payload's own id, the caller's id, or a fresh one. */
  function RecordIdFor(fields: map<string, Json>, fallback: string, generated: string): string {
    if "id" in fields && fields["id"].Str? && fields["id"].s != "" then fields["id"].s
    else if fallback != "" then fallback
    else generated
  }

  /** The record an optimistic write shows: an update keeps the fields it does not mention. */
  function WrittenRecord(previous: Option<Record>, op: Operation, fields: map<string, Json>, id: string): (r: Record)
    ensures Id(r) == id
  {
    var base := if op.Update? && previous.Some? then previous.value.fields else map[];
    Obj((base + fields)["id" := Str(id)])
  }

  function LocalWrite(memory: Table, op: Operation, fields: map<string, Json>, id: string): Table {
    if op.Delete? then map k | k in memory && k != id :: memory[k]
    else memory[id := WrittenRecord(Cell(memory, id), op, fields, id)]
  }

  /** The mutation that a local write enqueues: a deletion sends what the caller gave, any other write
      the whole record. */
  function QueuedMutation(
    table: string, memory: Table, op: Operation, fields: map<string, Json>, id: string,
    mutationId: string, now: int, schemaVersion: int, dependsOn: seq<string>): Mutation
  {
    var payload := if op.Delete? then Obj(fields["id" := Str(id)]) else WrittenRecord(Cell(memory, id), op, fields, id);
    Mutation(mutationId, table, op, payload, now, schemaVersion, dependsOn)
  }

  function AfterLocalWrite(
    c: TableClient, op: Operation, fields: map<string, Json>, id: string, now: int, m: Mutation): TableClient
  {
    var write := if op.Delete? then Erase(id, now) else Save(WrittenRecord(Cell(c.memory, id), op, fields, id), now);
    TableClient(LocalWrite(c.memory, op, fields, id), Apply(c.rows, write), Enqueue(c.queue, m), c.cursor)
  }

  // ---- Receiving a response ----

  function Deletions(ms: seq<Mutation>): set<string> {
    set m | m in ms && m.operation.Delete? :: Id(m.payload)
  }

  function Raise(tombs: map<string, int>, id: string, at: int): map<string, int> {
    if id in tombs && at <= tombs[id] then tombs else tombs[id := at]
  }

  /** The newest tombstone per id of a map and a list. */
  function UnionTombs(tombs: map<string, int>, ts: seq<Tombstone>): map<string, int> {
    if ts == [] then tombs
    else Raise(UnionTombs(tombs, ts[..|ts| - 1]), ts[|ts| - 1].id, ts[|ts| - 1].timestamp)
  }

  /** Local deletions that are still outstanding join the server's tombstones. */
  function WithDeletions(tombs: map<string, int>, ms: seq<Mutation>): map<string, int> {
    if ms == [] then tombs
    else
      var before := WithDeletions(tombs, ms[..|ms| - 1]);
      var m := ms[|ms| - 1];
      if m.operation.Delete? then Raise(before, Id(m.payload), m.timestamp) else before
  }

  function Unacked(ms: seq<Mutation>, acked: seq<string>): seq<Mutation> {
    Having(ms, MutationIds(ms) - AcknowledgedIds(ms, acked))
  }

  /** The tombstones that take part in the merge. */
  function MergeTombs(rows: Rows, ms: seq<Mutation>, r: Response): map<string, int> {
    if r.resetRequired then WithDeletions(Stamps(r.tombstones), Unacked(ms, r.acked))
    else UnionTombs(Tombs(rows), r.tombstones)
  }

  function PulledRecords(r: Response): seq<Record> {
    if r.records.Some? then r.records.value else []
  }

  function Without(t: Table, ids: set<string>): Table {
    map id | id in t && id !in ids :: t[id]
  }

  function Only(t: Table, ids: set<string>): Table {
    map id | id in t && id in ids :: t[id]
  }

  /** What the table shows after the merge. */
  function VisibleAfter(memory: Table, rows: Rows, ms: seq<Mutation>, r: Response, strategy: Strategy): Table {
    var unacked := Unacked(ms, r.acked);
    var guarded := RecordIds(unacked);
    var local := if r.resetRequired then Only(memory, guarded) else memory;
    Without(
      MergeTable(local, PulledRecords(r), guarded, strategy, MergeTombs(rows, ms, r)),
      Deletions(unacked))
  }

  /** The stored timestamp of a pulled record: above the tombstone it beat. */
  function StoreTime(r: Response, tombs: map<string, int>, record: Record): int {
    if Id(record) !in tombs then r.serverTimestamp
    else Max(r.serverTimestamp, Max(TimestampOf(record), tombs[Id(record)] + 1))
  }

  function Max(a: int, b: int): int {
    if a < b then b else a
  }

  function PersistRecords(
    rows: Rows, rs: seq<Record>, visible: Table, guarded: set<string>, r: Response, tombs: map<string, int>): Rows
  {
    if rs == [] then rows
    else
      var before := PersistRecords(rows, rs[..|rs| - 1], visible, guarded, r, tombs);
      var record := rs[|rs| - 1];
      if Id(record) in guarded || Id(record) !in visible then before
      else Apply(before, Save(visible[Id(record)], StoreTime(r, tombs, record)))
  }

  function PersistTombstones(rows: Rows, ts: seq<Tombstone>, guarded: set<string>): Rows {
    if ts == [] then rows
    else
      var before := PersistTombstones(rows, ts[..|ts| - 1], guarded);
      var t := ts[|ts| - 1];
      if t.id in guarded then before else Apply(before, Erase(t.id, t.timestamp))
  }

  /** A replacement holds the visible records and the tombstones, and fails if they share an id. */
  function ReplacedRows(visible: Table, tombs: map<string, int>, at: int): Option<Rows> {
    if visible.Keys !! tombs.Keys then
      Some(map id | id in visible.Keys + tombs.Keys ::
        if id in visible then StoredRow(visible[id], at, false) else StoredRow(Bare(id), tombs[id], true))
    else None
  }

  /** The stored rows after the pull; None stands for the failed replacement. */
  function RowsAfter(memory: Table, rows: Rows, ms: seq<Mutation>, r: Response, strategy: Strategy): Option<Rows> {
    var visible := VisibleAfter(memory, rows, ms, r, strategy);
    var tombs := MergeTombs(rows, ms, r);
    var guarded := RecordIds(Unacked(ms, r.acked));
    if r.resetRequired then ReplacedRows(visible, tombs, r.serverTimestamp)
    else
      Some(PersistTombstones(
        PersistRecords(rows, PulledRecords(r), visible, guarded, r, tombs), r.tombstones, guarded))
  }

  predicate Pulls(r: Response) {
    r.records.Some? || r.tombstones != []
  }

  // ---- One table of a run ----

  datatype TableClient = TableClient(memory: Table, rows: Rows, queue: Queue, cursor: Option<nat>)

  /** What the transport did: an error, or a response. */
  datatype Outcome = TransportError | Answered(response: Response)

  predicate Incompatible(schemaVersion: int, r: Response) {
    r.minimumSchemaVersion.Some? && schemaVersion < r.minimumSchemaVersion.value
  }

  function NextCursor(current: Option<nat>, r: Response): Option<nat> {
    if r.cursor.Some? then r.cursor.value
    else if r.resetRequired then None
    else current
  }

  /** processTable for the sent mutations ms, and whether it returned without an error. An error
      leaves records and cursor alone and marks the whole batch FAILED. */
  function Process(
    c: TableClient, ms: seq<Mutation>, outcome: Outcome, strategy: Strategy, schemaVersion: int,
    now: int): (TableClient, bool)
  {
    var failed := c.(queue := FailIds(c.queue, MutationIds(ms), now));
    if outcome.TransportError? || Incompatible(schemaVersion, outcome.response) then (failed, false)
    else
      var r := outcome.response;
      var rows := if Pulls(r) then RowsAfter(c.memory, c.rows, ms, r, strategy) else Some(c.rows);
      if rows.None? then (failed, false)
      else
        var parts := Partition(ms, r.acked, r.rejected);
        (TableClient(
           if Pulls(r) then VisibleAfter(c.memory, c.rows, ms, r, strategy) else c.memory,
           ClearCovered(rows.value, parts.acknowledged),
           SettleQueue(c.queue, parts, r.rejected, now),
           NextCursor(c.cursor, r)),
         true)
  }
}
