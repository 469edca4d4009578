/** The durable queue and record tables of src/storage.ts and cpp/MutationQueue.cpp as values:
    each SQL statement is a guarded update of a map. */
module Store {
  import opened Json
  import opened Records
  import opened StateMachine

  // ---- The mutation queue ----

  datatype Row = Row(
    mutation: Mutation,
    status: Status,
    retryCount: nat,
    nextRetryAt: int,
    code: Option<string>,
    message: Option<string>)

  type Queue = map<string, Row>

  ghost predicate QueueKeyed(q: Queue) {
    forall id :: id in q ==> q[id].mutation.id == id && q[id].status != Acked
  }

  /** The CASE table of the retry delay. */
  function RetryDelay(retryCount: nat): int {
    if retryCount == 0 then 1000
    else if retryCount == 1 then 2000
    else if retryCount == 2 then 4000
    else if retryCount == 3 then 8000
    else if retryCount == 4 then 16000
    else if retryCount == 5 then 32000
    else if retryCount == 6 then 64000
    else if retryCount == 7 then 128000
    else if retryCount == 8 then 256000
    else 300000
  }

  /** SQLite's clock in milliseconds, cut to whole seconds. */
  function Clock(now: int): int {
    now / 1000 * 1000
  }

  function Enqueue(q: Queue, m: Mutation): Queue {
    if m.id in q then q else q[m.id := Row(m, Pending, 0, 0, None, None)]
  }

  predicate Eligible(row: Row, now: int, scope: Option<string>) {
    && IsRetryable(row.status)
    && row.nextRetryAt <= Clock(now)
    && (scope.Some? ==> row.mutation.table == scope.value)
  }

  predicate Earlier(a: Mutation, b: Mutation) {
    a.timestamp <= b.timestamp
  }

  /** batch is a possible answer to the claim query: a longest prefix, at most limit long, of the
      eligible rows in timestamp order. Rows with equal timestamps may come in any order. */
  ghost predicate IsClaim(q: Queue, now: int, limit: nat, scope: Option<string>, batch: seq<Mutation>) {
    && |batch| <= limit
    && Picked(q, now, scope, batch)
    && (forall id :: id in q && Eligible(q[id], now, scope) && id !in MutationIds(batch) ==>
          |batch| == limit && forall m :: m in batch ==> Earlier(m, q[id].mutation))
  }

  /** The part of IsClaim that every prefix of a claim satisfies. */
  ghost predicate Picked(q: Queue, now: int, scope: Option<string>, batch: seq<Mutation>) {
    && (forall m :: m in batch ==> m.id in q && q[m.id].mutation == m && Eligible(q[m.id], now, scope))
    && (forall i, j :: 0 <= i < j < |batch| ==> batch[i].id != batch[j].id && Earlier(batch[i], batch[j]))
  }

  lemma PickNext(q: Queue, now: int, scope: Option<string>, batch: seq<Mutation>, next: Mutation)
    requires Picked(q, now, scope, batch)
    requires next.id in q && q[next.id].mutation == next && Eligible(q[next.id], now, scope)
    requires next.id !in MutationIds(batch) && forall m :: m in batch ==> Earlier(m, next)
    ensures Picked(q, now, scope, batch + [next])
    ensures MutationIds(batch + [next]) == MutationIds(batch) + {next.id}
  {
    hide Eligible;
    assert forall m :: m in batch + [next] <==> m in batch || m == next;
  }

  function QueuedAt(q: Queue, id: string): Option<Row> {
    if id in q then Some(q[id]) else None
  }

  function FailedRow(row: Row, now: int): Row {
    row.(status := Failed, nextRetryAt := Clock(now) + RetryDelay(row.retryCount), retryCount := row.retryCount + 1)
  }

  function RefusedRow(row: Row, code: string, message: string): Row {
    row.(status := Rejected, code := Some(code), message := Some(message))
  }

  function MarkFailed(q: Queue, id: string, now: int): Queue {
    if id !in q then q else q[id := FailedRow(q[id], now)]
  }

  function MarkRejected(q: Queue, id: string, code: string, message: string): Queue {
    if id !in q then q else q[id := RefusedRow(q[id], code, message)]
  }

  function MarkPending(q: Queue, id: string): Queue {
    if id !in q then q else q[id := q[id].(status := Pending, nextRetryAt := 0)]
  }

  function RetryRejected(q: Queue, id: string): Queue {
    if id in q && q[id].status == Rejected
    then q[id := q[id].(status := Pending, retryCount := 0, nextRetryAt := 0, code := None, message := None)]
    else q
  }

  function RemoveRow(q: Queue, id: string): Queue {
    map k | k in q && k != id :: q[k]
  }

  function DiscardRejected(q: Queue, id: string): Queue {
    if id in q && q[id].status == Rejected then RemoveRow(q, id) else q
  }

  function RecoverRow(row: Row): Row {
    if row.status == Syncing then row.(status := Pending) else row
  }

  function Recover(q: Queue): Queue {
    map id | id in q :: RecoverRow(q[id])
  }

  /** The rows of a claimed batch, marked SYNCING. */
  function Claim(q: Queue, batch: seq<Mutation>): Queue {
    map id | id in q :: if id in MutationIds(batch) then q[id].(status := Syncing) else q[id]
  }

  // ---- The record table ----

  /** A stored row: a deleted row is a tombstone and keeps the payload it had. */
  datatype StoredRow = StoredRow(payload: Record, updatedAt: int, deleted: bool)

  /** The rows of one table, by record id. */
  type Rows = map<string, StoredRow>

  datatype Write =
    | Save(record: Record, at: int)
    | Erase(target: string, at: int)

  function Target(w: Write): string {
    if w.Save? then Id(w.record) else w.target
  }

  function Bare(id: string): Record {
    Obj(map["id" := Str(id)])
  }

  /** INSERT ... ON CONFLICT DO UPDATE ... WHERE excluded.updated_at >= updated_at */
  function WriteRow(prior: Option<StoredRow>, w: Write): StoredRow {
    match w
    case Save(record, at) =>
      if prior.None? || at >= prior.value.updatedAt then StoredRow(record, at, false) else prior.value
    case Erase(id, at) =>
      if prior.None? then StoredRow(Bare(id), at, true)
      else if at >= prior.value.updatedAt then prior.value.(updatedAt := at, deleted := true)
      else prior.value
  }

  function RowAt(rows: Rows, id: string): Option<StoredRow> {
    if id in rows then Some(rows[id]) else None
  }

  function Apply(rows: Rows, w: Write): Rows {
    rows[Target(w) := WriteRow(RowAt(rows, Target(w)), w)]
  }

  /** row is what is left of prior after w: the older of the two is lost, a tombstone keeps the payload
      there was. */
  ghost predicate LeftBy(prior: Option<StoredRow>, w: Write, row: StoredRow) {
    if prior.Some? && prior.value.updatedAt > w.at then row == prior.value
    else
      && row.updatedAt == w.at && (row.deleted <==> w.Erase?)
      && row.payload == (if w.Save? then w.record else if prior.Some? then prior.value.payload else Bare(w.target))
  }

  function ClearTombstone(rows: Rows, id: string, through: int): Rows {
    if id in rows && rows[id].deleted && rows[id].updatedAt <= through
    then map k | k in rows && k != id :: rows[k]
    else rows
  }

  /** Live rows carry their own id. */
  ghost predicate RowsKeyed(rows: Rows) {
    forall id :: id in rows && !rows[id].deleted ==> Id(rows[id].payload) == id
  }

  /** What loadRecords returns. */
  function Live(rows: Rows): Table {
    map id | id in rows && !rows[id].deleted :: rows[id].payload
  }

  /** What loadTombstones returns, as timestamps by id. */
  function Tombs(rows: Rows): map<string, int> {
    map id | id in rows && rows[id].deleted :: rows[id].updatedAt
  }

  /** Inserting into an emptied table fails on the first id that is already there. */
  function InsertRows(rows: Rows, news: seq<(string, StoredRow)>): Option<Rows> {
    if news == [] then Some(rows)
    else
      var before := InsertRows(rows, news[..|news| - 1]);
      var (id, row) := news[|news| - 1];
      if before.None? || id in before.value then None else Some(before.value[id := row])
  }

  function Inserts(records: seq<Record>, tombstones: seq<Tombstone>, at: int): seq<(string, StoredRow)> {
    seq(|records| + |tombstones|, i requires 0 <= i < |records| + |tombstones| =>
      if i < |records| then (Id(records[i]), StoredRow(records[i], at, false))
      else (tombstones[i - |records|].id,
            StoredRow(Bare(tombstones[i - |records|].id), tombstones[i - |records|].timestamp, true)))
  }

  /** replaceTable: None stands for the constraint error that rolls the transaction back. */
  function Replace(records: seq<Record>, tombstones: seq<Tombstone>, at: int): Option<Rows> {
    InsertRows(map[], Inserts(records, tombstones, at))
  }

  // ---- Renaming a record id ----

  function RenamePayload(m: Mutation, table: string, from: string, to: string): Mutation {
    if m.table == table && Id(m.payload) == from then m.(payload := WithId(m.payload, to)) else m
  }

  function RenameQueue(q: Queue, table: string, from: string, to: string): Queue {
    map id | id in q :: q[id].(mutation := RenamePayload(q[id].mutation, table, from, to))
  }

  /** UPDATE ... SET record_id fails when another row already has the target id. */
  function RenameRow(rows: Rows, from: string, to: string): Option<Rows> {
    if from !in rows then Some(rows)
    else if to in rows && to != from then None
    else
      var rest := map k | k in rows && k != from :: rows[k];
      Some(rest[to := rows[from].(payload := WithId(rows[from].payload, to))])
  }
}
