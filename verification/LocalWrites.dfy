/** What a local write does, read off what the caller gave and what was there. */
module LocalWrites {
  import opened Json
  import opened Records
  import opened StateMachine
  import opened Store
  import opened Client

  /** A write goes to the payload's own id, else to the caller's, else to the generated one. */
  ghost predicate GoesTo(fields: map<string, Json>, fallback: string, generated: string, id: string) {
    || ("id" in fields && fields["id"] == Str(id) && id != "")
    || (!OwnId(fields) && fallback == id && id != "")
    || (!OwnId(fields) && fallback == "" && generated == id)
  }

  ghost predicate OwnId(fields: map<string, Json>) {
    "id" in fields && exists s :: fields["id"] == Str(s) && s != ""
  }

  lemma RecordIdIsNamed(fields: map<string, Json>, fallback: string, generated: string, id: string)
    ensures RecordIdFor(fields, fallback, generated) == id <==> GoesTo(fields, fallback, generated, id)
  {
    if "id" in fields && fields["id"].Str? {
      assert fields["id"] == Str(fields["id"].s);
    }
  }

  /** The record has the given fields and the id; an update also keeps what the record had. */
  ghost predicate Lays(r: Record, prior: Option<Record>, op: Operation, fields: map<string, Json>, id: string) {
    && Id(r) == id
    && (forall key :: key in fields && key != "id" ==> key in r.fields && r.fields[key] == fields[key])
    && (forall key :: key !in fields && key != "id" ==>
          (key in r.fields <==> op.Update? && prior.Some? && key in prior.value.fields))
    && (forall key :: key in r.fields && key !in fields && key != "id" ==> r.fields[key] == prior.value.fields[key])
  }

  lemma WrittenLays(prior: Option<Record>, op: Operation, fields: map<string, Json>, id: string)
    ensures Lays(WrittenRecord(prior, op, fields, id), prior, op, fields, id)
  {}

  /** The row that a new mutation takes: it waits, was never tried, and can be claimed at once. */
  ghost predicate Waits(row: Row, m: Mutation) {
    && row.mutation == m && row.status == Pending && row.retryCount == 0 && row.code.None? && row.message.None?
    && forall now :: now >= 0 ==> Eligible(row, now, None)
  }

  lemma EnqueuedWaits(q: Queue, m: Mutation)
    ensures m.id in q ==> Enqueue(q, m) == q
    ensures m.id !in q ==> Enqueue(q, m) - {m.id} == q && m.id in Enqueue(q, m) && Waits(Enqueue(q, m)[m.id], m)
  {}

  /** What the caller asked for: the write, when, and what it is to be queued as. */
  datatype Order = Order(
    table: string, operation: Operation, fields: map<string, Json>, id: string, mutationId: string, now: int,
    schemaVersion: int, dependsOn: seq<string>)

  /** The record is shown, or gone, and stored, and its mutation waits in the queue as it was ordered:
      a deletion with the fields the caller gave, any other write with the whole record. Nothing else
      of the client changes; an id that is queued already is not queued again. */
  ghost predicate Performed(c: TableClient, d: TableClient, o: Order) {
    var id := o.id;
    && d.cursor == c.cursor
    && (forall k :: k != id ==> Cell(d.memory, k) == Cell(c.memory, k) && RowAt(d.rows, k) == RowAt(c.rows, k))
    && (id in d.memory <==> !o.operation.Delete?)
    && (id in d.memory ==> Lays(d.memory[id], Cell(c.memory, id), o.operation, o.fields, id))
    && id in d.rows
    && LeftBy(RowAt(c.rows, id), if id in d.memory then Save(d.memory[id], o.now) else Erase(id, o.now), d.rows[id])
    && (o.mutationId in c.queue ==> d.queue == c.queue)
    && (o.mutationId !in c.queue ==>
          o.mutationId in d.queue && d.queue - {o.mutationId} == c.queue &&
          var m := d.queue[o.mutationId].mutation;
          && Waits(d.queue[o.mutationId], m)
          && m == Mutation(o.mutationId, o.table, o.operation, m.payload, o.now, o.schemaVersion, o.dependsOn)
          && if id in d.memory then m.payload == d.memory[id] else Lays(m.payload, None, o.operation, o.fields, id))
  }

  lemma ApplyLeaves(rows: Rows, w: Write)
    ensures Target(w) in Apply(rows, w) && LeftBy(RowAt(rows, Target(w)), w, Apply(rows, w)[Target(w)])
    ensures forall k :: k != Target(w) ==> RowAt(Apply(rows, w), k) == RowAt(rows, k)
  {}

  lemma LocalWritePerforms(c: TableClient, o: Order)
    ensures var m := QueuedMutation(
        o.table, c.memory, o.operation, o.fields, o.id, o.mutationId, o.now, o.schemaVersion, o.dependsOn);
      Performed(c, AfterLocalWrite(c, o.operation, o.fields, o.id, o.now, m), o)
  {
    var m := QueuedMutation(
      o.table, c.memory, o.operation, o.fields, o.id, o.mutationId, o.now, o.schemaVersion, o.dependsOn);
    WrittenLays(Cell(c.memory, o.id), o.operation, o.fields, o.id);
    EnqueuedWaits(c.queue, m);
    if o.operation.Delete? {
      assert Lays(m.payload, None, o.operation, o.fields, o.id);
    }
    var record := WrittenRecord(Cell(c.memory, o.id), o.operation, o.fields, o.id);
    ApplyLeaves(c.rows, if o.operation.Delete? then Erase(o.id, o.now) else Save(record, o.now));
    hide WrittenRecord, Lays, Enqueue, Waits, Eligible, Apply, LeftBy;
  }
}
