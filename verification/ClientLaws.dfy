/** What receiving a response guarantees, for every response and every local state. */
module ClientLaws {
  import opened Json
  import opened Records
  import opened Merge
  import opened MergeLaws
  import opened Store
  import opened Settlement
  import opened Client

  lemma UnackedMeans(ms: seq<Mutation>, acked: seq<string>)
    ensures forall m :: m in Unacked(ms, acked) <==> m in ms && m.id !in acked
  {
    HavingIds(ms, MutationIds(ms) - AcknowledgedIds(ms, acked));
  }

  // ---- Local writes to a table that was never opened ----

  /** The stored table holds no other record, and an update mentions every field it had. */
  predicate NothingElse(live: Table, op: Operation, fields: map<string, Json>, id: string) {
    && live.Keys <= {id}
    && (op.Update? && id in live ==> live[id].fields.Keys <= fields.Keys + {"id"})
  }

  /** A write that starts from nothing shows what the write to the stored records would have shown
      exactly if there was nothing else to show. */
  lemma UnopenedWriteShows(live: Table, op: Operation, fields: map<string, Json>, id: string)
    ensures LocalWrite(map[], op, fields, id) == LocalWrite(live, op, fields, id) <==> NothingElse(live, op, fields, id)
  {
    var none: Table := map[];
    var a, b := LocalWrite(none, op, fields, id), LocalWrite(live, op, fields, id);
    if op.Delete? {
      assert a == none;
      assert b.Keys == live.Keys - {id};
      assert b.Keys == {} ==> b == none;
    } else {
      WrittenFromNothing(Cell(live, id), op, fields, id);
      hide WrittenRecord;
      assert a.Keys == {id} && b.Keys == live.Keys + {id};
      assert Cell(none, id) == None;
      if live.Keys <= {id} {
        assert b.Keys == {id};
        assert a == b <==> a[id] == b[id];
      } else {
        assert a.Keys != b.Keys;
      }
    }
  }

  lemma WrittenFromNothing(previous: Option<Record>, op: Operation, fields: map<string, Json>, id: string)
    ensures WrittenRecord(None, op, fields, id) == WrittenRecord(previous, op, fields, id) <==>
      (op.Update? && previous.Some? ==> previous.value.fields.Keys <= fields.Keys + {"id"})
  {
    if op.Update? && previous.Some? {
      var none: map<string, Json> := map[];
      var a, b := (none + fields)["id" := Str(id)], (previous.value.fields + fields)["id" := Str(id)];
      assert a.Keys == fields.Keys + {"id"};
      assert b.Keys == previous.value.fields.Keys + fields.Keys + {"id"};
      if previous.value.fields.Keys <= fields.Keys + {"id"} {
        assert forall k :: k in a ==> a[k] == b[k];
        assert a == b;
      } else {
        assert a.Keys != b.Keys;
      }
    }
  }

  /** A stored record that is out of sight after the first local write. */
  lemma UnopenedWriteHides() returns (live: Table, fields: map<string, Json>)
    ensures Keyed(live) && "b" in LocalWrite(live, Create, fields, "a")
    ensures "b" !in LocalWrite(map[], Create, fields, "a")
  {
    live, fields := map["b" := Bare("b")], map[];
  }

  // ---- Optimistic protection ----

  /** Ids with a sent but unacknowledged mutation show nothing if one of these is a deletion and
      otherwise exactly the record they showed, in incremental and in replacement mode. */
  lemma OutstandingWritesAreProtected(
    memory: Table, rows: Rows, ms: seq<Mutation>, r: Response, strategy: Strategy, m: Mutation)
    requires Keyed(memory)
    requires m in ms && m.id !in r.acked
    ensures var id := Id(m.payload);
      Cell(VisibleAfter(memory, rows, ms, r, strategy), id)
        == if exists d :: d in ms && d.id !in r.acked && d.operation.Delete? && Id(d.payload) == id then None
           else Cell(memory, id)
  {
    var id, unacked := Id(m.payload), Unacked(ms, r.acked);
    UnackedMeans(ms, r.acked);
    var guarded := RecordIds(unacked);
    var local := if r.resetRequired then Only(memory, guarded) else memory;
    GuardedUntouched(local, PulledRecords(r), guarded, strategy, MergeTombs(rows, ms, r), id);
  }

  lemma VisibleIsKeyed(memory: Table, rows: Rows, ms: seq<Mutation>, r: Response, strategy: Strategy)
    requires Keyed(memory)
    ensures Keyed(VisibleAfter(memory, rows, ms, r, strategy))
  {
    var guarded, tombs := RecordIds(Unacked(ms, r.acked)), MergeTombs(rows, ms, r);
    var local := if r.resetRequired then Only(memory, guarded) else memory;
    PullAllKeyed(Pruned(local, guarded, tombs), PulledRecords(r), guarded, strategy, tombs);
  }

  /** In incremental mode the pull does not touch their stored rows either. */
  lemma OutstandingRowsAreProtected(
    memory: Table, rows: Rows, ms: seq<Mutation>, r: Response, strategy: Strategy, m: Mutation)
    requires Keyed(memory) && !r.resetRequired
    requires m in ms && m.id !in r.acked
    ensures RowsAfter(memory, rows, ms, r, strategy).Some?
    ensures RowAt(RowsAfter(memory, rows, ms, r, strategy).value, Id(m.payload)) == RowAt(rows, Id(m.payload))
  {
    UnackedMeans(ms, r.acked);
    var guarded := RecordIds(Unacked(ms, r.acked));
    var visible := VisibleAfter(memory, rows, ms, r, strategy);
    var tombs := MergeTombs(rows, ms, r);
    VisibleIsKeyed(memory, rows, ms, r, strategy);
    PersistRecordsSkips(rows, PulledRecords(r), visible, guarded, r, tombs, Id(m.payload));
    PersistTombstonesSkips(
      PersistRecords(rows, PulledRecords(r), visible, guarded, r, tombs), r.tombstones, guarded, Id(m.payload));
  }

  lemma {:induction false} PersistRecordsSkips(
    rows: Rows, rs: seq<Record>, visible: Table, guarded: set<string>, r: Response, tombs: map<string, int>, id: string)
    requires id in guarded && Keyed(visible)
    ensures RowAt(PersistRecords(rows, rs, visible, guarded, r, tombs), id) == RowAt(rows, id)
    decreases |rs|
  {
    if rs != [] {
      PersistRecordsSkips(rows, rs[..|rs| - 1], visible, guarded, r, tombs, id);
    }
  }

  lemma {:induction false} PersistTombstonesSkips(rows: Rows, ts: seq<Tombstone>, guarded: set<string>, id: string)
    requires id in guarded
    ensures RowAt(PersistTombstones(rows, ts, guarded), id) == RowAt(rows, id)
    decreases |ts|
  {
    if ts != [] {
      PersistTombstonesSkips(rows, ts[..|ts| - 1], guarded, id);
    }
  }

  // ---- What an incremental pull stores ----

  ghost predicate PulledFor(rs: seq<Record>, id: string) {
    exists r :: r in rs && Id(r) == id
  }

  /** Some pulled record of id is stored late enough to replace the row. */
  ghost predicate Replaces(
    prior: Option<StoredRow>, rs: seq<Record>, id: string, r: Response, tombs: map<string, int>)
  {
    exists x :: x in rs && Id(x) == id && (prior.Some? ==> prior.value.updatedAt <= StoreTime(r, tombs, x))
  }

  lemma {:induction false} PersistRecordsAt(
    rows: Rows, rs: seq<Record>, visible: Table, guarded: set<string>, r: Response, tombs: map<string, int>, id: string)
    requires Keyed(visible) && id in visible && id !in guarded
    ensures var after := RowAt(PersistRecords(rows, rs, visible, guarded, r, tombs), id);
      if Replaces(RowAt(rows, id), rs, id, r, tombs) then
        && after.Some? && after.value.payload == visible[id] && !after.value.deleted
        && (id in tombs ==> after.value.updatedAt > tombs[id])
      else after == RowAt(rows, id)
    decreases |rs|
  {
    if rs != [] {
      var init, last := rs[..|rs| - 1], rs[|rs| - 1];
      PersistRecordsAt(rows, init, visible, guarded, r, tombs, id);
      ReplacesNext(RowAt(rows, id), rs, id, r, tombs);
      StoreTimeBeats(r, tombs, last);
      hide StoreTime, Replaces;
    }
  }

  lemma ReplacesNext(prior: Option<StoredRow>, rs: seq<Record>, id: string, r: Response, tombs: map<string, int>)
    requires rs != []
    ensures var init, last := rs[..|rs| - 1], rs[|rs| - 1];
      Replaces(prior, rs, id, r, tombs) <==>
        Replaces(prior, init, id, r, tombs)
        || (Id(last) == id && (prior.Some? ==> prior.value.updatedAt <= StoreTime(r, tombs, last)))
  {
    hide StoreTime;
    assert forall x :: x in rs <==> x in rs[..|rs| - 1] || x == rs[|rs| - 1];
  }

  lemma StoreTimeBeats(r: Response, tombs: map<string, int>, x: Record)
    ensures Id(x) in tombs ==> StoreTime(r, tombs, x) > tombs[Id(x)]
  {}

  /** Deletions at or before the row's time pass it over. */
  lemma {:induction false} PersistTombstonesKeeps(rows: Rows, ts: seq<Tombstone>, guarded: set<string>, id: string)
    requires forall t :: t in ts && t.id == id ==> id in rows && t.timestamp < rows[id].updatedAt
    ensures RowAt(PersistTombstones(rows, ts, guarded), id) == RowAt(rows, id)
    decreases |ts|
  {
    if ts != [] {
      var init, last := ts[..|ts| - 1], ts[|ts| - 1];
      assert forall t :: t in ts <==> t in init || t == last;
      PersistTombstonesKeeps(rows, init, guarded, id);
    }
  }

  /** Store and screen agree on what was pulled: a pulled record that stays visible, and is not
      protected, is the live stored row of its id afterwards, also over a tombstone it outlives, if
      and only if it is stored no earlier than the row before it. */
  lemma PulledRecordsAreStored(
    memory: Table, rows: Rows, ms: seq<Mutation>, r: Response, strategy: Strategy, id: string)
    requires Keyed(memory) && !r.resetRequired
    requires id !in RecordIds(Unacked(ms, r.acked)) && PulledFor(PulledRecords(r), id)
    requires id in VisibleAfter(memory, rows, ms, r, strategy)
    ensures var visible := VisibleAfter(memory, rows, ms, r, strategy);
      var after := RowAt(RowsAfter(memory, rows, ms, r, strategy).value, id);
      if Replaces(RowAt(rows, id), PulledRecords(r), id, r, MergeTombs(rows, ms, r))
      then after.Some? && !after.value.deleted && after.value.payload == visible[id]
      else after == RowAt(rows, id)
  {
    var visible, tombs := VisibleAfter(memory, rows, ms, r, strategy), MergeTombs(rows, ms, r);
    var guarded := RecordIds(Unacked(ms, r.acked));
    VisibleIsKeyed(memory, rows, ms, r, strategy);
    UnionTombsAbove(Tombs(rows), r.tombstones);
    PersistRecordsAt(rows, PulledRecords(r), visible, guarded, r, tombs, id);
    var saved := PersistRecords(rows, PulledRecords(r), visible, guarded, r, tombs);
    hide VisibleAfter, MergeTombs, PersistRecords, PersistTombstones, StoreTime, Unacked;
    PersistTombstonesKeeps(saved, r.tombstones, guarded, id);
  }

  // ---- Replacement ----

  /** A tombstone of the replacement meets a record that stays visible: either a protected local
      record, or a pulled record newer than the tombstone. */
  ghost predicate Collides(memory: Table, rows: Rows, ms: seq<Mutation>, r: Response, id: string) {
    var tombs := MergeTombs(rows, ms, r);
    var unacked := Unacked(ms, r.acked);
    && id in tombs
    && id !in Deletions(unacked)
    && if id in RecordIds(unacked) then id in memory
       else exists record :: record in PulledRecords(r) && Id(record) == id && TimestampOf(record) > tombs[id]
  }

  lemma {:induction false} FoldPresent(
    remote: seq<Record>, guarded: set<string>, strategy: Strategy, tombs: map<string, int>, id: string)
    requires id !in guarded
    ensures FoldCell(None, remote, id, guarded, strategy, tombs).Some? <==>
      exists r :: r in remote && Id(r) == id && !Hidden(r, tombs)
    decreases |remote|
  {
    if remote != [] {
      var init, last := remote[..|remote| - 1], remote[|remote| - 1];
      FoldPresent(init, guarded, strategy, tombs, id);
      assert remote == init + [last];
      assert forall r :: r in remote <==> r in init || r == last;
    }
  }

  lemma VisibleAfterReset(memory: Table, rows: Rows, ms: seq<Mutation>, r: Response, strategy: Strategy, id: string)
    requires Keyed(memory) && r.resetRequired
    ensures var tombs, unacked := MergeTombs(rows, ms, r), Unacked(ms, r.acked);
      id in VisibleAfter(memory, rows, ms, r, strategy) <==>
        && id !in Deletions(unacked)
        && if id in RecordIds(unacked) then id in memory
           else exists record :: record in PulledRecords(r) && Id(record) == id && !Hidden(record, tombs)
  {
    var tombs, unacked := MergeTombs(rows, ms, r), Unacked(ms, r.acked);
    var guarded := RecordIds(unacked);
    var local := Only(memory, guarded);
    assert Keyed(local);
    if id in guarded {
      GuardedUntouched(local, PulledRecords(r), guarded, strategy, tombs, id);
    } else {
      PullAllAt(Pruned(local, guarded, tombs), PulledRecords(r), guarded, strategy, tombs, id);
      FoldPresent(PulledRecords(r), guarded, strategy, tombs, id);
    }
  }

  /** A replacement fails exactly when a tombstone collides. Otherwise it commits, and then memory
      equals the stored live rows and the stored tombstones are the computed ones. */
  lemma ReplacementCommitsUnlessColliding(
    memory: Table, rows: Rows, ms: seq<Mutation>, r: Response, strategy: Strategy)
    requires Keyed(memory) && r.resetRequired
    ensures RowsAfter(memory, rows, ms, r, strategy).None? <==> exists id :: Collides(memory, rows, ms, r, id)
    ensures RowsAfter(memory, rows, ms, r, strategy).Some? ==>
      && Live(RowsAfter(memory, rows, ms, r, strategy).value) == VisibleAfter(memory, rows, ms, r, strategy)
      && Tombs(RowsAfter(memory, rows, ms, r, strategy).value) == MergeTombs(rows, ms, r)
  {
    var visible, tombs := VisibleAfter(memory, rows, ms, r, strategy), MergeTombs(rows, ms, r);
    forall id
      ensures Collides(memory, rows, ms, r, id) <==> id in visible && id in tombs
    {
      VisibleAfterReset(memory, rows, ms, r, strategy, id);
    }
    assert visible.Keys !! tombs.Keys <==> forall id :: !(id in visible && id in tombs);
    if visible.Keys !! tombs.Keys {
      ReplacedViews(visible, tombs, r.serverTimestamp);
    }
  }

  lemma ReplacedViews(visible: Table, tombs: map<string, int>, at: int)
    requires visible.Keys !! tombs.Keys
    ensures Live(ReplacedRows(visible, tombs, at).value) == visible
    ensures Tombs(ReplacedRows(visible, tombs, at).value) == tombs
  {
    var rows := ReplacedRows(visible, tombs, at).value;
    assert forall id :: id in tombs ==> id !in visible;
    assert Live(rows).Keys == visible.Keys;
    assert Tombs(rows).Keys == tombs.Keys;
  }

  /** A table fails exactly on a transport error, an incompatible schema, or a replacement in which a
      tombstone collides. */
  ghost predicate TableFails(
    memory: Table, rows: Rows, ms: seq<Mutation>, outcome: Outcome, schemaVersion: int)
  {
    || outcome.TransportError?
    || (outcome.response.minimumSchemaVersion.Some? && schemaVersion < outcome.response.minimumSchemaVersion.value)
    || (outcome.response.resetRequired && exists id :: Collides(memory, rows, ms, outcome.response, id))
  }

  lemma TableFailsExactly(
    c: TableClient, ms: seq<Mutation>, outcome: Outcome, strategy: Strategy, schemaVersion: int, now: int)
    requires Keyed(c.memory) && (outcome.Answered? ==> Normalized(outcome.response))
    ensures !Process(c, ms, outcome, strategy, schemaVersion, now).1
       <==> TableFails(c.memory, c.rows, ms, outcome, schemaVersion)
  {
    if outcome.Answered? && outcome.response.resetRequired {
      ReplacementCommitsUnlessColliding(c.memory, c.rows, ms, outcome.response, strategy);
    }
    hide Collides, VisibleAfter, ReplacedRows, Live, Tombs, MergeTombs, PersistRecords, PersistTombstones,
         ClearCovered, SettleQueue, FailIds, Partition;
  }

  /** A failed table keeps its records, rows and cursor; its batch is FAILED and nothing else in the
      queue changes. */
  lemma FailureIsClean(
    c: TableClient, ms: seq<Mutation>, outcome: Outcome, strategy: Strategy, schemaVersion: int, now: int)
    requires !Process(c, ms, outcome, strategy, schemaVersion, now).1
    ensures var d := Process(c, ms, outcome, strategy, schemaVersion, now).0;
      && d.memory == c.memory && d.rows == c.rows && d.cursor == c.cursor
      && d.queue.Keys == c.queue.Keys
      && forall id :: id in c.queue ==>
           d.queue[id] == if id in MutationIds(ms) then FailedRow(c.queue[id], now) else c.queue[id]
  {}

  // ---- Tombstones ----

  lemma {:induction false} UnionTombsAbove(tombs: map<string, int>, ts: seq<Tombstone>)
    ensures Dominates(UnionTombs(tombs, ts), tombs)
    ensures forall t :: t in ts ==> t.id in UnionTombs(tombs, ts) && t.timestamp <= UnionTombs(tombs, ts)[t.id]
    ensures forall id :: id in UnionTombs(tombs, ts) ==>
      (id in tombs && tombs[id] == UnionTombs(tombs, ts)[id]) || Tombstone(id, UnionTombs(tombs, ts)[id]) in ts
  {
    if ts != [] {
      var init, last := ts[..|ts| - 1], ts[|ts| - 1];
      UnionTombsAbove(tombs, init);
      assert ts == init + [last];
    }
  }

  /** After an incremental pull an id without an outstanding write shows no record at or below a
      tombstone that the client stored or the server sent, if and only if no field merge falls back
      to it; no tombstone at or after time zero is affected. */
  lemma DeletedStaysDeleted(
    memory: Table, rows: Rows, ms: seq<Mutation>, r: Response, strategy: Strategy, id: string, at: int)
    requires Keyed(memory) && !r.resetRequired
    requires id !in RecordIds(Unacked(ms, r.acked))
    requires (id in Tombs(rows) && Tombs(rows)[id] == at) || Tombstone(id, at) in r.tombstones
    ensures var visible, tombs := VisibleAfter(memory, rows, ms, r, strategy), MergeTombs(rows, ms, r);
      && id in tombs && at <= tombs[id]
      && ((id in visible ==> TimestampOf(visible[id]) > at)
            <==> !FallsTo(memory, PulledRecords(r), strategy, tombs, id, at))
      && (tombs[id] >= 0 && id in visible ==> TimestampOf(visible[id]) > at)
  {
    UnionTombsAbove(Tombs(rows), r.tombstones);
    var guarded, tombs := RecordIds(Unacked(ms, r.acked)), MergeTombs(rows, ms, r);
    hide MergeTable, UnionTombs, FallsTo, Unacked, TimestampOf;
    NoResurrection(memory, PulledRecords(r), guarded, strategy, tombs, id, at);
    NoResurrection(memory, PulledRecords(r), guarded, strategy, tombs, id, tombs[id]);
    if tombs[id] >= 0 {
      NonNegativeTombstonesHold(memory, PulledRecords(r), guarded, strategy, tombs, id);
    }
  }
}
