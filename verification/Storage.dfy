/** createSyncStorage and MutationQueue: the object that owns the tables. Each method states the
    whole new state; a failed transaction leaves the old one. */
module Storage {
  import opened Json
  import opened Strings
  import opened Records
  import opened Merge
  import opened StateMachine
  import opened Store

  ghost predicate OncePerId(ts: seq<Tombstone>) {
    forall i, j :: 0 <= i < j < |ts| ==> ts[i].id != ts[j].id
  }

  lemma {:induction false} StampsKeys(ts: seq<Tombstone>)
    ensures forall id :: id in Stamps(ts) <==> exists i :: 0 <= i < |ts| && ts[i].id == id
  {
    if ts != [] {
      var init, last := ts[..|ts| - 1], ts[|ts| - 1];
      StampsKeys(init);
      assert forall i :: 0 <= i < |init| ==> init[i] == ts[i];
      forall id
        ensures id in Stamps(ts) <==> exists i :: 0 <= i < |ts| && ts[i].id == id
      {
        if id == last.id {
          assert ts[|ts| - 1].id == id;
        }
      }
    }
  }

  lemma {:induction false} StampsHold(ts: seq<Tombstone>)
    requires OncePerId(ts)
    ensures forall i :: 0 <= i < |ts| ==> ts[i].id in Stamps(ts) && Stamps(ts)[ts[i].id] == ts[i].timestamp
  {
    if ts != [] {
      var init := ts[..|ts| - 1];
      assert forall i :: 0 <= i < |init| ==> init[i] == ts[i];
      StampsHold(init);
    }
  }

  ghost predicate Lists(order: seq<string>, keys: set<string>) {
    Distinct(order) && forall k :: k in order <==> k in keys
  }

  /** The entries of a map as a list, in the given order. */
  function ListedTombstones(tombs: map<string, int>, order: seq<string>): seq<Tombstone>
    requires forall id :: id in order ==> id in tombs
  {
    seq(|order|, i requires 0 <= i < |order| => Tombstone(order[i], tombs[order[i]]))
  }

  lemma ListedTombstonesHold(tombs: map<string, int>, order: seq<string>)
    requires Lists(order, tombs.Keys)
    ensures OncePerId(ListedTombstones(tombs, order)) && Stamps(ListedTombstones(tombs, order)) == tombs
  {
    hide Stamps;
    var ts := ListedTombstones(tombs, order);
    assert |ts| == |order| && forall i :: 0 <= i < |ts| ==> ts[i] == Tombstone(order[i], tombs[order[i]]);
    hide ListedTombstones;
    StampsHold(ts);
    StampsKeys(ts);
    assert forall i :: 0 <= i < |ts| ==> ts[i].id == order[i] && ts[i].id in order;
    forall id
      ensures id in Stamps(ts) <==> id in tombs
      ensures id in tombs ==> Stamps(ts)[id] == tombs[id]
    {
      if id in tombs {
        var i :| 0 <= i < |order| && order[i] == id;
        assert ts[i].id == id;
      }
    }
  }

  ghost predicate Ordered(order: seq<string>, times: map<string, int>) {
    forall i, j :: 0 <= i < j < |order| && order[i] in times && order[j] in times ==> times[order[i]] <= times[order[j]]
  }

  /** ORDER BY updated_at ASC: rows with equal times come in any order. */
  method InTimeOrder(times: map<string, int>) returns (order: seq<string>)
    ensures Lists(order, times.Keys) && Ordered(order, times)
  {
    order := [];
    var left := times.Keys;
    while left != {}
      invariant left <= times.Keys && Lists(order, times.Keys - left) && Ordered(order, times)
      invariant forall a, b :: a in order && b in left ==> times[a] <= times[b]
      decreases left
    {
      var first := Earliest(times, left);
      OneMoreInOrder(order, times, left, first);
      hide Ordered, Lists;
      order := order + [first];
      left := left - {first};
    }
  }

  lemma OneMoreInOrder(order: seq<string>, times: map<string, int>, left: set<string>, first: string)
    requires left <= times.Keys && Lists(order, times.Keys - left) && Ordered(order, times)
    requires forall a, b :: a in order && b in left ==> times[a] <= times[b]
    requires first in left && forall b :: b in left ==> times[first] <= times[b]
    ensures Lists(order + [first], times.Keys - (left - {first})) && Ordered(order + [first], times)
    ensures forall a, b :: a in order + [first] && b in left - {first} ==> times[a] <= times[b]
  {
    DistinctMore(order, first);
    assert forall k :: k in order + [first] <==> k in order || k == first;
  }

  method Earliest(times: map<string, int>, ids: set<string>) returns (first: string)
    requires ids != {} && ids <= times.Keys
    ensures first in ids && forall id :: id in ids ==> times[first] <= times[id]
  {
    first :| first in ids;
    var rest := ids - {first};
    while rest != {}
      invariant first in ids && rest <= ids
      invariant forall id :: id in ids - rest ==> times[first] <= times[id]
      decreases rest
    {
      var next :| next in rest;
      if times[next] < times[first] {
        first := next;
      }
      rest := rest - {next};
    }
  }

  // ---- What the statements mean ----

  /** No id comes twice, neither as record nor as tombstone. */
  ghost predicate NoneTwice(records: seq<Record>, ts: seq<Tombstone>) {
    && (forall i, j :: 0 <= i < j < |records| ==> Id(records[i]) != Id(records[j]))
    && OncePerId(ts)
    && (forall i, j :: 0 <= i < |records| && 0 <= j < |ts| ==> Id(records[i]) != ts[j].id)
  }

  /** The rows are the given records, live since the given time, and the given tombstones. */
  ghost predicate IsReplacement(rows: Rows, records: seq<Record>, ts: seq<Tombstone>, at: int) {
    && (forall r :: r in records ==> RowAt(rows, Id(r)) == Some(StoredRow(r, at, false)))
    && (forall t :: t in ts ==> RowAt(rows, t.id) == Some(StoredRow(Bare(t.id), t.timestamp, true)))
    && (forall id :: id in rows ==> (exists r :: r in records && Id(r) == id) || (exists t :: t in ts && t.id == id))
  }

  ghost predicate KeysDiffer(news: seq<(string, StoredRow)>) {
    forall i, j :: 0 <= i < j < |news| ==> news[i].0 != news[j].0
  }

  /** rows holds exactly the entries of the list. */
  ghost predicate HoldsAll(rows: Rows, news: seq<(string, StoredRow)>) {
    && (forall i :: 0 <= i < |news| ==> RowAt(rows, news[i].0) == Some(news[i].1))
    && (forall id :: id in rows ==> exists i :: 0 <= i < |news| && news[i].0 == id)
  }

  lemma {:induction false} InsertRowsMeans(news: seq<(string, StoredRow)>)
    ensures InsertRows(map[], news).Some? <==> KeysDiffer(news)
    ensures InsertRows(map[], news).Some? ==> HoldsAll(InsertRows(map[], news).value, news)
  {
    if news != [] {
      var init, n := news[..|news| - 1], |news| - 1;
      InsertRowsMeans(init);
      assert forall i :: 0 <= i < n ==> init[i] == news[i];
      if InsertRows(map[], init).Some? && news[n].0 in InsertRows(map[], init).value {
        var i :| 0 <= i < n && init[i].0 == news[n].0;
        assert news[i].0 == news[n].0;
      }
    }
  }

  lemma InsertsAre(records: seq<Record>, ts: seq<Tombstone>, at: int)
    ensures var news, n := Inserts(records, ts, at), |records|;
      && |news| == n + |ts|
      && (forall i :: 0 <= i < n ==> news[i] == (Id(records[i]), StoredRow(records[i], at, false)))
      && (forall i :: n <= i < n + |ts| ==>
            news[i] == (ts[i - n].id, StoredRow(Bare(ts[i - n].id), ts[i - n].timestamp, true)))
  {}

  lemma HoldsInserts(rows: Rows, records: seq<Record>, ts: seq<Tombstone>, at: int)
    requires HoldsAll(rows, Inserts(records, ts, at))
    ensures IsReplacement(rows, records, ts, at)
  {
    InsertsAre(records, ts, at);
    hide Inserts, Bare;
    var news, n := Inserts(records, ts, at), |records|;
    forall r | r in records
      ensures RowAt(rows, Id(r)) == Some(StoredRow(r, at, false))
    {
      var i :| 0 <= i < n && records[i] == r;
      assert news[i] == (Id(r), StoredRow(r, at, false));
    }
    forall t | t in ts
      ensures RowAt(rows, t.id) == Some(StoredRow(Bare(t.id), t.timestamp, true))
    {
      var j :| 0 <= j < |ts| && ts[j] == t;
      assert news[n + j] == (t.id, StoredRow(Bare(t.id), t.timestamp, true));
    }
    hide RowAt;
    forall id | id in rows
      ensures (exists r :: r in records && Id(r) == id) || (exists t :: t in ts && t.id == id)
    {
      var i :| 0 <= i < |news| && news[i].0 == id;
      assert if i < n then records[i] in records && Id(records[i]) == id else ts[i - n] in ts && ts[i - n].id == id;
    }
  }

  lemma ReplaceMeans(records: seq<Record>, ts: seq<Tombstone>, at: int)
    ensures Replace(records, ts, at).Some? <==> NoneTwice(records, ts)
    ensures Replace(records, ts, at).Some? ==> IsReplacement(Replace(records, ts, at).value, records, ts, at)
  {
    hide Inserts, InsertRows, NoneTwice, IsReplacement;
    InsertRowsMeans(Inserts(records, ts, at));
    KeysDifferMeans(records, ts, at);
    if Replace(records, ts, at).Some? {
      HoldsInserts(Replace(records, ts, at).value, records, ts, at);
    }
  }

  lemma {:induction false} KeyedInserts(news: seq<(string, StoredRow)>)
    requires forall n :: n in news && !n.1.deleted ==> Id(n.1.payload) == n.0
    ensures InsertRows(map[], news).Some? ==> RowsKeyed(InsertRows(map[], news).value)
  {
    if news != [] {
      KeyedInserts(news[..|news| - 1]);
      assert news[|news| - 1] in news;
    }
  }

  /** What is inserted for a record is kept under the record's own id. */
  lemma InsertsKeyed(records: seq<Record>, ts: seq<Tombstone>, at: int)
    ensures Replace(records, ts, at).Some? ==> RowsKeyed(Replace(records, ts, at).value)
  {
    KeyedInserts(Inserts(records, ts, at));
  }

  lemma KeysDifferMeans(records: seq<Record>, ts: seq<Tombstone>, at: int)
    ensures KeysDiffer(Inserts(records, ts, at)) <==> NoneTwice(records, ts)
  {
    var news, n := Inserts(records, ts, at), |records|;
    InsertsAre(records, ts, at);
    hide Inserts;
    assert forall j :: 0 <= j < |ts| ==> news[n + j].0 == ts[j].id;
    if NoneTwice(records, ts) {
      forall i, j | 0 <= i < j < |news|
        ensures news[i].0 != news[j].0
      {
        assert i >= n ==> news[i].0 == news[n + (i - n)].0;
        assert j >= n ==> news[j].0 == news[n + (j - n)].0;
      }
    }
  }

  lemma UnchangedRow(rows: Rows, id: string)
    ensures id in rows ==> rows[id := rows[id]] == rows
  {}

  class SyncStorage {
    var queue: Queue
    var records: map<string, Rows>
    var cursors: map<string, Option<nat>>

    ghost predicate Valid()
      reads this
    {
      && QueueKeyed(queue)
      && forall t :: t in records ==> RowsKeyed(records[t])
    }

    function RowsOf(table: string): Rows
      reads this
    {
      if table in records then records[table] else map[]
    }

    constructor ()
      ensures Valid()
      ensures queue == map[] && records == map[] && cursors == map[]
    {
      queue, records, cursors := map[], map[], map[];
    }

    /** The end of initialize, after a restart: interrupted rows become claimable again. */
    method RecoverStuckMutations()
      requires Valid()
      modifies this
      ensures Valid()
      ensures queue == Recover(old(queue)) && records == old(records) && cursors == old(cursors)
      ensures queue.Keys == old(queue).Keys
      ensures forall id :: id in queue ==>
        queue[id] == if old(queue)[id].status == Syncing then old(queue)[id].(status := Pending) else old(queue)[id]
    {
      queue := map id | id in queue :: RecoverRow(queue[id]);
    }

    /** One transaction: enqueue the mutation and write the record or its tombstone. */
    method ApplyMutation(m: Mutation, record: Record, deleted: bool)
      requires Valid()
      modifies this
      ensures Valid()
      ensures queue == Enqueue(old(queue), m) && cursors == old(cursors)
      ensures records == old(records)[m.table :=
        Apply(old(RowsOf(m.table)), if deleted then Erase(Id(record), m.timestamp) else Save(record, m.timestamp))]
      ensures m.id in old(queue) ==> queue == old(queue)
      ensures m.id !in old(queue) ==>
        && queue - {m.id} == old(queue) && m.id in queue
        && queue[m.id].mutation == m && queue[m.id].status == Pending && queue[m.id].retryCount == 0
        && queue[m.id].code.None? && queue[m.id].message.None?
        && forall now :: now >= 0 ==> Eligible(queue[m.id], now, None)
    {
      if m.id !in queue {
        queue := queue[m.id := Row(m, Pending, 0, 0, None, None)];
      }
      var write := if deleted then Erase(Id(record), m.timestamp) else Save(record, m.timestamp);
      records := records[m.table := Apply(RowsOf(m.table), write)];
    }

    /** The claim transaction: select in timestamp order up to the limit, then mark row by row. */
    method ListPendingMutations(limit: nat, scope: Option<string>, now: int) returns (batch: seq<Mutation>)
      requires Valid()
      modifies this`queue
      ensures Valid()
      ensures IsClaim(old(queue), now, limit, scope, batch)
      ensures queue == Claim(old(queue), batch)
      ensures queue.Keys == old(queue).Keys
      ensures forall id :: id in queue ==>
        queue[id] == if exists m :: m in batch && m.id == id then old(queue)[id].(status := Syncing) else old(queue)[id]
    {
      batch := SelectEligible(limit, scope, now);
      ghost var before := queue;
      for i := 0 to |batch|
        invariant queue == Claim(before, batch[..i])
      {
        assert batch[i] in batch;
        queue := queue[batch[i].id := queue[batch[i].id].(status := Syncing)];
        assert MutationIds(batch[..i + 1]) == MutationIds(batch[..i]) + {batch[i].id};
      }
      assert batch[..|batch|] == batch;
    }

    method SelectEligible(limit: nat, scope: Option<string>, now: int) returns (batch: seq<Mutation>)
      requires Valid()
      ensures IsClaim(queue, now, limit, scope, batch)
    {
      batch := [];
      var left := set id | id in queue && Eligible(queue[id], now, scope);
      while left != {} && |batch| < limit
        invariant |batch| <= limit
        invariant Picked(queue, now, scope, batch)
        invariant left == set id | id in queue && Eligible(queue[id], now, scope) && id !in MutationIds(batch)
        invariant forall m, id :: m in batch && id in left ==> Earlier(m, queue[id].mutation)
        decreases left
      {
        var first := Oldest(left);
        PickNext(queue, now, scope, batch, queue[first].mutation);
        batch := batch + [queue[first].mutation];
        left := left - {first};
      }
      forall id | id in queue && Eligible(queue[id], now, scope) && id !in MutationIds(batch)
        ensures |batch| == limit
      {
        assert id in left;
      }
    }

    /** ORDER BY timestamp: any of the oldest rows. */
    method Oldest(ids: set<string>) returns (first: string)
      requires ids != {} && forall id :: id in ids ==> id in queue
      ensures first in ids
      ensures forall id :: id in ids ==> Earlier(queue[first].mutation, queue[id].mutation)
    {
      first :| first in ids;
      var rest := ids - {first};
      while rest != {}
        invariant first in ids && rest <= ids
        invariant forall id :: id in ids - rest ==> Earlier(queue[first].mutation, queue[id].mutation)
        decreases rest
      {
        var next :| next in rest;
        if queue[next].mutation.timestamp < queue[first].mutation.timestamp {
          first := next;
        }
        rest := rest - {next};
      }
    }

    method MarkMutationFailed(id: string, now: int)
      requires Valid()
      modifies this`queue
      ensures Valid() && queue == MarkFailed(old(queue), id, now)
      ensures queue.Keys == old(queue).Keys && queue - {id} == old(queue) - {id}
      ensures id in queue ==>
        var row := old(queue)[id];
        && queue[id] == row.(status := Failed, retryCount := row.retryCount + 1, nextRetryAt := queue[id].nextRetryAt)
        && queue[id].nextRetryAt - RetryDelay(row.retryCount) <= now
        && now < queue[id].nextRetryAt - RetryDelay(row.retryCount) + 1000
    {
      if id in queue {
        var row := queue[id];
        queue := queue[id := row.(
          status := Failed,
          nextRetryAt := Clock(now) + RetryDelay(row.retryCount),
          retryCount := row.retryCount + 1)];
      }
    }

    method MarkMutationRejected(id: string, code: string, message: string)
      requires Valid()
      modifies this`queue
      ensures Valid() && queue == MarkRejected(old(queue), id, code, message)
      ensures queue.Keys == old(queue).Keys && queue - {id} == old(queue) - {id}
      ensures id in queue ==>
        queue[id] == old(queue)[id].(status := Rejected, code := Some(code), message := Some(message))
    {
      if id in queue {
        queue := queue[id := queue[id].(status := Rejected, code := Some(code), message := Some(message))];
      }
    }

    method MarkMutationPending(id: string)
      requires Valid()
      modifies this`queue
      ensures Valid() && queue == MarkPending(old(queue), id)
      ensures queue.Keys == old(queue).Keys && queue - {id} == old(queue) - {id}
      ensures id in queue ==>
        && queue[id] == old(queue)[id].(status := Pending, nextRetryAt := 0)
        && forall now :: now >= 0 ==> Eligible(queue[id], now, None)
    {
      if id in queue {
        queue := queue[id := queue[id].(status := Pending, nextRetryAt := 0)];
      }
    }

    /** Only a REJECTED row is reset, and then it is what it was when it was first enqueued. */
    method RetryRejectedMutation(id: string)
      requires Valid()
      modifies this`queue
      ensures Valid() && queue.Keys == old(queue).Keys
      ensures forall k :: k in queue && k != id ==> queue[k] == old(queue)[k]
      ensures id in queue && old(queue)[id].status != Rejected ==> queue[id] == old(queue)[id]
      ensures id in queue && old(queue)[id].status == Rejected ==>
        && Some(queue[id]) == QueuedAt(Enqueue(map[], old(queue)[id].mutation), id)
        && forall now :: now >= 0 ==> Eligible(queue[id], now, None)
      ensures queue == RetryRejected(old(queue), id)
    {
      if id in queue && queue[id].status == Rejected {
        queue := queue[id := queue[id].(
          status := Pending, retryCount := 0, nextRetryAt := 0, code := None, message := None)];
      }
    }

    /** Only a REJECTED row is removed, and no other row changes. */
    method DiscardRejectedMutation(id: string)
      requires Valid()
      modifies this`queue
      ensures Valid()
      ensures id in queue <==> id in old(queue) && old(queue)[id].status != Rejected
      ensures forall k :: k != id ==> (k in queue <==> k in old(queue))
      ensures forall k :: k in queue ==> queue[k] == old(queue)[k]
      ensures queue == DiscardRejected(old(queue), id)
    {
      if id in queue && queue[id].status == Rejected {
        queue := queue - {id};
      }
    }

    method RemoveMutation(id: string)
      requires Valid()
      modifies this`queue
      ensures Valid() && queue == RemoveRow(old(queue), id)
      ensures id !in queue && queue == old(queue) - {id}
    {
      queue := queue - {id};
    }

    /** saveRecord and removeRecord: the newer write stays; other ids and tables are not touched. */
    method WriteRecord(table: string, w: Write)
      requires Valid()
      modifies this`records
      ensures Valid() && records == old(records)[table := Apply(old(RowsOf(table)), w)]
      ensures RowsOf(table) - {Target(w)} == old(RowsOf(table)) - {Target(w)} && Target(w) in RowsOf(table)
      ensures LeftBy(old(RowAt(RowsOf(table), Target(w))), w, RowsOf(table)[Target(w)])
    {
      var rows := RowsOf(table);
      var prior := RowAt(rows, Target(w));
      UnchangedRow(rows, Target(w));
      if w.Save? && (prior.None? || w.at >= prior.value.updatedAt) {
        rows := rows[Id(w.record) := StoredRow(w.record, w.at, false)];
      } else if w.Erase? && prior.None? {
        rows := rows[w.target := StoredRow(Bare(w.target), w.at, true)];
      } else if w.Erase? && w.at >= prior.value.updatedAt {
        rows := rows[w.target := prior.value.(updatedAt := w.at, deleted := true)];
      }
      assert rows == Apply(RowsOf(table), w);
      records := records[table := rows];
    }

    /** Only a deleted row is removed, and only up to the given time. */
    method ClearTombstone(table: string, id: string, through: int)
      requires Valid()
      modifies this`records
      ensures Valid()
      ensures RowsOf(table) == Store.ClearTombstone(old(RowsOf(table)), id, through)
      ensures records - {table} == old(records) - {table}
      ensures RowsOf(table) - {id} == old(RowsOf(table)) - {id}
      ensures id in RowsOf(table) <==>
        id in old(RowsOf(table)) && (old(RowsOf(table))[id].deleted ==> old(RowsOf(table))[id].updatedAt > through)
      ensures id in RowsOf(table) ==> RowsOf(table)[id] == old(RowsOf(table))[id]
    {
      var rows := RowsOf(table);
      if id in rows && rows[id].deleted && rows[id].updatedAt <= through {
        records := records[table := rows - {id}];
      }
    }

    /** Empty the table, then insert row by row; the first duplicate id rolls everything back. */
    method ReplaceTable(table: string, news: seq<Record>, tombstones: seq<Tombstone>, at: int) returns (ok: bool)
      requires Valid()
      modifies this`records
      ensures Valid()
      ensures ok == Replace(news, tombstones, at).Some?
      ensures records == if ok then old(records)[table := Replace(news, tombstones, at).value] else old(records)
      ensures ok <==> NoneTwice(news, tombstones)
      ensures ok ==> IsReplacement(RowsOf(table), news, tombstones, at)
    {
      var before := records;
      var inserts := Inserts(news, tombstones, at);
      ReplaceMeans(news, tombstones, at);
      InsertsKeyed(news, tombstones, at);
      assert InsertRows(map[], inserts[..0]) == Some(map[]);
      hide Inserts, InsertRows, NoneTwice, IsReplacement, RowsKeyed, QueueKeyed;
      records := records[table := map[]];
      for i := 0 to |inserts|
        invariant InsertRows(map[], inserts[..i]).Some?
        invariant records == before[table := InsertRows(map[], inserts[..i]).value]
      {
        InsertNext(inserts, i);
        var (id, row) := inserts[i];
        if id in records[table] {
          InsertFails(inserts, i + 1);
          records := before;
          return false;
        }
        records := records[table := records[table][id := row]];
      }
      assert inserts[..|inserts|] == inserts;
      ok := true;
    }

    lemma InsertNext(news: seq<(string, StoredRow)>, i: nat)
      requires i < |news| && InsertRows(map[], news[..i]).Some?
      ensures var rows, (id, row) := InsertRows(map[], news[..i]).value, news[i];
        InsertRows(map[], news[..i + 1]) == if id in rows then None else Some(rows[id := row])
    {
      assert news[..i + 1][..i] == news[..i];
    }

    lemma {:induction false} InsertFails(news: seq<(string, StoredRow)>, n: nat)
      requires n <= |news| && InsertRows(map[], news[..n]).None?
      ensures InsertRows(map[], news).None?
      decreases |news| - n
    {
      if n == |news| {
        assert news[..n] == news;
      } else {
        assert news[..n + 1][..n] == news[..n];
        InsertFails(news, n + 1);
      }
    }

    /** One transaction over both tables. */
    method RemapRecordId(table: string, from: string, to: string) returns (ok: bool)
      requires Valid()
      modifies this`queue, this`records
      ensures Valid()
      ensures ok == (from == to || RenameRow(old(RowsOf(table)), from, to).Some?)
      ensures !ok || from == to ==> queue == old(queue) && records == old(records)
      ensures ok <==> from == to || from !in old(RowsOf(table)) || to !in old(RowsOf(table))
      ensures ok && from != to ==>
        && queue == RenameQueue(old(queue), table, from, to)
        && records == old(records)[table := RenameRow(old(RowsOf(table)), from, to).value]
    {
      if from == to {
        return true;
      }
      var renamed := RenameRow(RowsOf(table), from, to);
      if renamed.None? {
        return false;
      }
      records := records[table := renamed.value];
      queue := RenameQueue(queue, table, from, to);
      ok := true;
    }

    /** The live rows of a table, oldest first. */
    method LoadRecords(table: string) returns (rs: seq<Record>)
      requires Valid()
      ensures UniqueIds(rs) && AsTable(rs) == Live(RowsOf(table))
      ensures forall r :: r in rs ==> Id(r) in RowsOf(table)
      ensures forall i, j :: 0 <= i < j < |rs| ==>
        RowsOf(table)[Id(rs[i])].updatedAt <= RowsOf(table)[Id(rs[j])].updatedAt
    {
      var rows, live := RowsOf(table), Live(RowsOf(table));
      var order := InTimeOrder(map id | id in live :: rows[id].updatedAt);
      rs := Listed(order, live);
      ListedIsUnique(order, live);
      assert forall i :: 0 <= i < |rs| ==> Id(rs[i]) == order[i] && order[i] in order;
    }

    /** The deleted rows of a table, oldest first. */
    method LoadTombstones(table: string) returns (ts: seq<Tombstone>)
      ensures OncePerId(ts) && Stamps(ts) == Tombs(RowsOf(table))
      ensures forall i, j :: 0 <= i < j < |ts| ==> ts[i].timestamp <= ts[j].timestamp
    {
      var tombs := Tombs(RowsOf(table));
      var order := InTimeOrder(tombs);
      ts := ListedTombstones(tombs, order);
      ListedTombstonesHold(tombs, order);
      assert forall i :: 0 <= i < |ts| ==> ts[i] == Tombstone(order[i], tombs[order[i]]) && order[i] in order;
    }

    method SetServerCursor(table: string, cursor: Option<nat>)
      requires Valid()
      modifies this`cursors
      ensures Valid() && cursors == old(cursors)[table := cursor]
    {
      cursors := cursors[table := cursor];
    }
  }
}
