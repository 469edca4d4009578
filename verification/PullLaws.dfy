/** What a response does to the stored rows, to the cursor and to rejected mutations, for every
    response and every local state. */
module PullLaws {
  import opened Json
  import opened Records
  import opened Merge
  import opened MergeLaws
  import opened Store
  import opened Server
  import opened Settlement
  import opened Client
  import opened ClientLaws

  // ---- Deletions that were pulled ----

  /** The row is at least as new as the deletion, and deleted unless it is strictly newer. */
  ghost predicate Honours(row: Option<StoredRow>, at: int) {
    row.Some? && row.value.updatedAt >= at && (row.value.deleted || row.value.updatedAt > at)
  }

  lemma {:induction false} PersistTombstonesHonours(rows: Rows, ts: seq<Tombstone>, guarded: set<string>, t: Tombstone)
    requires t in ts && t.id !in guarded
    ensures Honours(RowAt(PersistTombstones(rows, ts, guarded), t.id), t.timestamp)
    decreases |ts|
  {
    var init, last := ts[..|ts| - 1], ts[|ts| - 1];
    if t in init {
      PersistTombstonesHonours(rows, init, guarded, t);
    } else {
      assert t == last;
    }
  }

  lemma {:induction false} PersistRecordsHidden(
    rows: Rows, rs: seq<Record>, visible: Table, guarded: set<string>, r: Response, tombs: map<string, int>, id: string)
    requires Keyed(visible) && id !in visible
    ensures RowAt(PersistRecords(rows, rs, visible, guarded, r, tombs), id) == RowAt(rows, id)
    decreases |rs|
  {
    if rs != [] {
      PersistRecordsHidden(rows, rs[..|rs| - 1], visible, guarded, r, tombs, id);
    }
  }

  // ---- Which rows are live after a pull ----

  /** The row is live and newer than every deletion listed for it. */
  ghost predicate Outlives(rows: Rows, ts: seq<Tombstone>, id: string) {
    id in Live(rows) && forall t :: t in ts && t.id == id ==> t.timestamp < rows[id].updatedAt
  }

  lemma {:induction false} OutlivingStays(rows: Rows, ts: seq<Tombstone>, guarded: set<string>, id: string)
    requires id !in guarded
    ensures id in Live(PersistTombstones(rows, ts, guarded)) <==> Outlives(rows, ts, id)
    ensures Outlives(rows, ts, id) ==> RowAt(PersistTombstones(rows, ts, guarded), id) == RowAt(rows, id)
    decreases |ts|
  {
    if ts != [] {
      var init, last := ts[..|ts| - 1], ts[|ts| - 1];
      OutlivingStays(rows, init, guarded, id);
      assert forall t :: t in ts <==> t in init || t == last;
    }
  }

  lemma PulledIsLive(memory: Table, rows: Rows, ms: seq<Mutation>, r: Response, strategy: Strategy, id: string)
    requires Keyed(memory) && !r.resetRequired && id !in RecordIds(Unacked(ms, r.acked))
    requires id in VisibleAfter(memory, rows, ms, r, strategy) && PulledFor(PulledRecords(r), id)
    ensures id in Live(RowsAfter(memory, rows, ms, r, strategy).value)
  {
    hide VisibleAfter, RowsAfter, Unacked, UnionTombs, StoreTime;
    PulledRecordsAreStored(memory, rows, ms, r, strategy, id);
    UnionTombsAbove(Tombs(rows), r.tombstones);
    var x :| x in PulledRecords(r) && Id(x) == id;
    StoreTimeBeats(r, MergeTombs(rows, ms, r), x);
  }

  /** After an incremental pull the live rows of unprotected ids are exactly the pulled ones that are
      shown, and those that were live and are newer than every pulled deletion. */
  lemma LiveAfterPull(memory: Table, rows: Rows, ms: seq<Mutation>, r: Response, strategy: Strategy, id: string)
    requires Keyed(memory) && !r.resetRequired && id !in RecordIds(Unacked(ms, r.acked))
    ensures id in Live(RowsAfter(memory, rows, ms, r, strategy).value) <==>
      || (id in VisibleAfter(memory, rows, ms, r, strategy) && PulledFor(PulledRecords(r), id))
      || Outlives(rows, r.tombstones, id)
  {
    var visible, tombs := VisibleAfter(memory, rows, ms, r, strategy), MergeTombs(rows, ms, r);
    var guarded := RecordIds(Unacked(ms, r.acked));
    hide VisibleAfter, PersistRecords, PersistTombstones, Unacked, UnionTombs, StoreTime;
    VisibleIsKeyed(memory, rows, ms, r, strategy);
    if id in visible && PulledFor(PulledRecords(r), id) {
      PulledIsLive(memory, rows, ms, r, strategy, id);
    } else {
      if id in visible {
        PersistRecordsAt(rows, PulledRecords(r), visible, guarded, r, tombs, id);
      } else {
        PersistRecordsHidden(rows, PulledRecords(r), visible, guarded, r, tombs, id);
      }
      OutlivingStays(PersistRecords(rows, PulledRecords(r), visible, guarded, r, tombs), r.tombstones, guarded, id);
    }
  }

  /** A pulled deletion reaches the store: no restart brings the record back, unless the row was newer
      or a pulled record outlived the deletion. */
  lemma PulledDeletionIsStored(
    memory: Table, rows: Rows, ms: seq<Mutation>, r: Response, strategy: Strategy, t: Tombstone)
    requires Keyed(memory) && !r.resetRequired && t in r.tombstones && t.id !in RecordIds(Unacked(ms, r.acked))
    ensures RowsAfter(memory, rows, ms, r, strategy).Some?
    ensures Honours(RowAt(RowsAfter(memory, rows, ms, r, strategy).value, t.id), t.timestamp)
    ensures var after := RowsAfter(memory, rows, ms, r, strategy).value;
      && (t.id in rows ==> rows[t.id].updatedAt <= t.timestamp)
      && !(t.id in VisibleAfter(memory, rows, ms, r, strategy) && PulledFor(PulledRecords(r), t.id)) ==>
        t.id !in Live(after) && t.id in Tombs(after) && Tombs(after)[t.id] >= t.timestamp
  {
    var visible, tombs := VisibleAfter(memory, rows, ms, r, strategy), MergeTombs(rows, ms, r);
    var guarded := RecordIds(Unacked(ms, r.acked));
    var saved := PersistRecords(rows, PulledRecords(r), visible, guarded, r, tombs);
    PersistTombstonesHonours(saved, r.tombstones, guarded, t);
    LiveAfterPull(memory, rows, ms, r, strategy, t.id);
    hide VisibleAfter, MergeTombs, PersistRecords, PersistTombstones, Unacked;
  }

  // ---- When a pulled record counts as stored ----

  /** A record is stored at the time of the response, or over a tombstone at the latest of that, its own
      time and the instant after the tombstone. */
  lemma StoreTimeMeans(r: Response, tombs: map<string, int>, x: Record)
    ensures var at := StoreTime(r, tombs, x);
      && at >= r.serverTimestamp
      && (Id(x) !in tombs ==> at == r.serverTimestamp)
      && (Id(x) in tombs ==>
            && at >= TimestampOf(x) && at > tombs[Id(x)]
            && (at == r.serverTimestamp || at == TimestampOf(x) || at == tombs[Id(x)] + 1))
  {}

  // ---- A replacement ----

  /** The last tombstone listed for an id is its time. */
  lemma {:induction false} StampsAreLast(ts: seq<Tombstone>, i: nat)
    requires i < |ts| && forall j :: i < j < |ts| ==> ts[j].id != ts[i].id
    ensures ts[i].id in Stamps(ts) && Stamps(ts)[ts[i].id] == ts[i].timestamp
    decreases |ts|
  {
    var init := ts[..|ts| - 1];
    if i < |ts| - 1 {
      assert forall j :: 0 <= j < |init| ==> init[j] == ts[j];
      StampsAreLast(init, i);
    }
  }

  ghost predicate Deletes(m: Mutation, id: string, at: int) {
    m.operation.Delete? && Id(m.payload) == id && m.timestamp == at
  }

  lemma {:induction false} WithDeletionsMeans(tombs: map<string, int>, ms: seq<Mutation>)
    ensures Dominates(WithDeletions(tombs, ms), tombs)
    ensures forall m :: m in ms && m.operation.Delete? ==>
      Id(m.payload) in WithDeletions(tombs, ms) && m.timestamp <= WithDeletions(tombs, ms)[Id(m.payload)]
    ensures forall id :: id in WithDeletions(tombs, ms) ==>
      || (id in tombs && tombs[id] == WithDeletions(tombs, ms)[id])
      || exists m :: m in ms && Deletes(m, id, WithDeletions(tombs, ms)[id])
  {
    if ms != [] {
      var init, last := ms[..|ms| - 1], ms[|ms| - 1];
      WithDeletionsMeans(tombs, init);
      assert ms == init + [last];
      var before, after := WithDeletions(tombs, init), WithDeletions(tombs, ms);
      assert after == if last.operation.Delete? then Raise(before, Id(last.payload), last.timestamp) else before;
      hide WithDeletions;
      forall id | id in after
        ensures (id in tombs && tombs[id] == after[id]) || exists m :: m in ms && Deletes(m, id, after[id])
      {
        if id in before && before[id] == after[id] {
          if !(id in tombs && tombs[id] == before[id]) {
            var m :| m in init && Deletes(m, id, before[id]);
            assert m in ms && Deletes(m, id, after[id]);
          }
        } else {
          assert last in ms && Deletes(last, id, after[id]);
        }
      }
    }
  }

  /** A committed replacement stores what it shows, live since the response, keeps an outstanding local
      deletion as a tombstone no older than it is, and the server's tombstones, and nothing else. */
  lemma ReplacementStores(memory: Table, rows: Rows, ms: seq<Mutation>, r: Response, strategy: Strategy)
    requires Keyed(memory) && r.resetRequired && RowsAfter(memory, rows, ms, r, strategy).Some?
    ensures var after := RowsAfter(memory, rows, ms, r, strategy).value;
      var visible := VisibleAfter(memory, rows, ms, r, strategy);
      && (forall id :: id in visible ==> RowAt(after, id) == Some(StoredRow(visible[id], r.serverTimestamp, false)))
      && (forall id :: id in after && id !in visible ==> after[id].deleted)
      && (forall m :: m in ms && m.id !in r.acked && m.operation.Delete? ==>
            Honours(RowAt(after, Id(m.payload)), m.timestamp))
      && (forall id :: id in Stamps(r.tombstones) ==> Honours(RowAt(after, id), Stamps(r.tombstones)[id]))
      && (forall id :: id in after && after[id].deleted ==>
            || (id in Stamps(r.tombstones) && Stamps(r.tombstones)[id] == after[id].updatedAt)
            || exists m :: m in ms && m.id !in r.acked && Deletes(m, id, after[id].updatedAt))
  {
    UnackedMeans(ms, r.acked);
    WithDeletionsMeans(Stamps(r.tombstones), Unacked(ms, r.acked));
    hide VisibleAfter, Unacked, Stamps, WithDeletions;
  }

  // ---- Settled deletions ----

  /** m is a deletion of the record, acknowledged, and no older than the given time. */
  ghost predicate Covers(m: Mutation, acknowledged: seq<Mutation>, id: string, at: int) {
    m in acknowledged && m.operation.Delete? && Id(m.payload) == id && at <= m.timestamp
  }

  /** An acknowledged deletion takes its tombstone away, and nothing else is taken. */
  lemma {:induction false} ClearCoveredMeans(rows: Rows, acknowledged: seq<Mutation>, id: string)
    ensures var after := RowAt(ClearCovered(rows, acknowledged), id);
      && (after.Some? ==> after == RowAt(rows, id))
      && (after.None? && id in rows ==>
            rows[id].deleted && exists m :: Covers(m, acknowledged, id, rows[id].updatedAt))
      && (after.Some? && after.value.deleted ==> forall m :: !Covers(m, acknowledged, id, after.value.updatedAt))
  {
    if acknowledged != [] {
      var init, last := acknowledged[..|acknowledged| - 1], acknowledged[|acknowledged| - 1];
      ClearCoveredMeans(rows, init, id);
      CoversMore(init, last, id);
      assert acknowledged == init + [last];
      if id in ClearCovered(rows, init) && id !in ClearCovered(rows, acknowledged) {
        assert Covers(last, acknowledged, id, rows[id].updatedAt);
      } else if id in rows && id !in ClearCovered(rows, init) {
        var m :| Covers(m, init, id, rows[id].updatedAt);
        assert Covers(m, acknowledged, id, rows[id].updatedAt);
      }
    }
  }

  lemma CoversMore(init: seq<Mutation>, last: Mutation, id: string)
    ensures forall m, at :: Covers(m, init + [last], id, at) <==>
      Covers(m, init, id, at) || (m == last && last.operation.Delete? && Id(last.payload) == id && at <= last.timestamp)
  {
    assert forall m :: m in init + [last] <==> m in init || m == last;
  }

  // ---- Rejections ----

  /** The first rejection listed for an id gives its code, and its message if it has one. */
  lemma {:induction false} FirstRejectionCounts(rejections: seq<Rejection>, id: string, i: nat)
    requires i < |rejections| && rejections[i].mutationId == id
    requires forall j :: 0 <= j < i ==> rejections[j].mutationId != id
    ensures CodeFor(rejections, id) == rejections[i].code
    ensures MessageFor(rejections, id) == if rejections[i].message.Some? then rejections[i].message.value else ""
    decreases i
  {
    if i > 0 {
      FirstRejectionCounts(rejections[1..], id, i - 1);
    }
  }

  // ---- The cursor, and which responses count ----

  /** A response that is processed moves the cursor where it says; a reset that says nothing takes it
      back to the beginning, anything else leaves it. */
  lemma CursorMeans(
    c: TableClient, ms: seq<Mutation>, r: Response, strategy: Strategy, schemaVersion: int, now: int)
    ensures var (d, ok) := Process(c, ms, Answered(r), strategy, schemaVersion, now);
      && (ok && r.cursor.Some? ==> d.cursor == r.cursor.value)
      && (ok && r.cursor.None? && r.resetRequired ==> d.cursor == None)
      && (ok && r.cursor.None? && !r.resetRequired ==> d.cursor == c.cursor)
  {
    hide VisibleAfter, RowsAfter, Partition, SettleQueue, ClearCovered, FailIds;
  }

  /** A response without records and tombstones leaves what is shown, and every row but the tombstones
      that its acknowledgements settle; with either it takes effect on both. */
  lemma EmptyPullShowsTheSame(
    c: TableClient, ms: seq<Mutation>, r: Response, strategy: Strategy, schemaVersion: int, now: int)
    ensures var (d, ok) := Process(c, ms, Answered(r), strategy, schemaVersion, now);
      var pulls := r.records.Some? || |r.tombstones| > 0;
      && (ok && !pulls ==>
            && d.memory == c.memory
            && d.rows == ClearCovered(c.rows, Partition(ms, r.acked, r.rejected).acknowledged))
      && (ok && pulls ==>
            && d.memory == VisibleAfter(c.memory, c.rows, ms, r, strategy)
            && RowsAfter(c.memory, c.rows, ms, r, strategy).Some?
            && d.rows == ClearCovered(RowsAfter(c.memory, c.rows, ms, r, strategy).value,
                                      Partition(ms, r.acked, r.rejected).acknowledged))
  {
    hide VisibleAfter, RowsAfter, Partition, SettleQueue, ClearCovered, FailIds;
  }
}
