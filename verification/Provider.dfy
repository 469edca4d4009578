/** The provider of src/provider.tsx as an object: what it shows, and the store it owns. Every method
    is proved against the functions of Client and Runs. */
module Provider {
  import opened Json
  import opened Strings
  import opened Records
  import opened Merge
  import opened StateMachine
  import opened Store
  import opened Storage
  import opened Server
  import opened Settlement
  import opened Client
  import opened ClientLaws
  import opened Runs
  import opened Remap
  import opened IdMaps
  import opened LocalWrites

  // ---- Lists of records ----

  /** Array.prototype.filter by id. */
  function Where(rs: seq<Record>, ids: set<string>, inside: bool): seq<Record> {
    if rs == [] then []
    else
      var init := Where(rs[..|rs| - 1], ids, inside);
      if (Id(rs[|rs| - 1]) in ids) == inside then init + [rs[|rs| - 1]] else init
  }

  lemma {:induction false} WhereHolds(rs: seq<Record>, ids: set<string>, inside: bool)
    ensures forall r :: r in Where(rs, ids, inside) ==> r in rs && (Id(r) in ids) == inside
  {
    if rs != [] {
      WhereHolds(rs[..|rs| - 1], ids, inside);
    }
  }

  /** The records of the list come in the order of their ids in order. */
  ghost predicate InOrderOf(rs: seq<Record>, order: seq<string>) {
    forall i, j, a, b ::
      0 <= i < j < |rs| && 0 <= a < |order| && 0 <= b < |order| && order[a] == Id(rs[i]) && order[b] == Id(rs[j]) ==>
        a < b
  }

  lemma {:induction false} WhereInOrder(rs: seq<Record>, ids: set<string>, inside: bool, order: seq<string>)
    requires InOrderOf(rs, order)
    ensures InOrderOf(Where(rs, ids, inside), order)
  {
    if rs != [] {
      var init, last := rs[..|rs| - 1], rs[|rs| - 1];
      var rest := Where(init, ids, inside);
      WhereInOrder(init, ids, inside, order);
      WhereHolds(init, ids, inside);
      hide Where;
      forall i, a, b | 0 <= i < |rest| && 0 <= a < |order| && 0 <= b < |order| && order[a] == Id(rest[i]) &&
                       order[b] == Id(last)
        ensures a < b
      {
        var k :| 0 <= k < |init| && init[k] == rest[i];
        assert rs[k] == rest[i];
      }
    }
  }

  lemma ListedInOrder(rs: seq<Record>, order: seq<string>)
    requires |rs| == |order| && UniqueIds(rs) && forall i :: 0 <= i < |rs| ==> Id(rs[i]) == order[i]
    ensures InOrderOf(rs, order)
  {}

  /** Place a of the list holds the record with the id of r. */
  predicate At(rs: seq<Record>, a: int, r: Record) {
    0 <= a < |rs| && Id(rs[a]) == Id(r)
  }

  /** The record of id, if there is one, is the last, and all others come as they came before. */
  ghost predicate MovedToEnd(rs: seq<Record>, next: seq<Record>, id: string) {
    && (forall i :: 0 <= i < |next| - 1 ==> Id(next[i]) != id)
    && (forall i, j, a, b ::
          0 <= i < j < |next| && Id(next[j]) != id && At(rs, a, next[i]) && At(rs, b, next[j]) ==> a < b)
  }

  function IdsOf(rs: seq<Record>): seq<string> {
    seq(|rs|, i requires 0 <= i < |rs| => Id(rs[i]))
  }

  lemma AppendUnique(rs: seq<Record>, r: Record)
    requires UniqueIds(rs) && forall x :: x in rs ==> Id(x) != Id(r)
    ensures UniqueIds(rs + [r]) && AsTable(rs + [r]) == AsTable(rs)[Id(r) := r]
  {
    assert (rs + [r])[..|rs|] == rs;
  }

  lemma {:induction false} WhereTable(rs: seq<Record>, ids: set<string>, inside: bool)
    requires UniqueIds(rs)
    ensures UniqueIds(Where(rs, ids, inside))
    ensures AsTable(Where(rs, ids, inside)) == if inside then Only(AsTable(rs), ids) else Without(AsTable(rs), ids)
  {
    if rs != [] {
      var init, last := rs[..|rs| - 1], rs[|rs| - 1];
      WhereTable(init, ids, inside);
      LastIsNew(rs);
      WhereStep(AsTable(init), last, ids);
      if (Id(last) in ids) == inside {
        WhereIsNew(init, last, ids, inside);
        AppendUnique(Where(init, ids, inside), last);
      }
    }
  }

  lemma WhereIsNew(init: seq<Record>, last: Record, ids: set<string>, inside: bool)
    requires Id(last) !in AsTable(init)
    ensures forall r :: r in Where(init, ids, inside) ==> Id(r) != Id(last)
  {
    WhereHolds(init, ids, inside);
    AsTableIsKeyed(init);
    hide Where, AsTable;
  }

  lemma WhereStep(t: Table, last: Record, ids: set<string>)
    requires Id(last) !in t
    ensures Only(t[Id(last) := last], ids) == if Id(last) in ids then Only(t, ids)[Id(last) := last] else Only(t, ids)
    ensures Without(t[Id(last) := last], ids) ==
      if Id(last) in ids then Without(t, ids) else Without(t, ids)[Id(last) := last]
  {}

  // ---- Replacing a stored table ----

  lemma {:induction false} InsertRecords(rs: seq<Record>, ts: seq<Tombstone>, at: int, n: nat)
    requires UniqueIds(rs) && n <= |rs|
    ensures InsertRows(map[], Inserts(rs, ts, at)[..n]) == ReplacedRows(AsTable(rs[..n]), map[], at)
  {
    var all := Inserts(rs, ts, at);
    if n > 0 {
      InsertRecords(rs, ts, at, n - 1);
      assert all[..n][..n - 1] == all[..n - 1];
      assert rs[..n][..n - 1] == rs[..n - 1];
      assert UniqueIds(rs[..n]);
      LastIsNew(rs[..n]);
      InsertRecord(AsTable(rs[..n - 1]), rs[n - 1], at);
    }
  }

  lemma InsertRecord(t: Table, r: Record, at: int)
    requires Id(r) !in t
    ensures Id(r) !in ReplacedRows(t, map[], at).value
    ensures ReplacedRows(t[Id(r) := r], map[], at) ==
      Some(ReplacedRows(t, map[], at).value[Id(r) := StoredRow(r, at, false)])
  {
    var none: map<string, int> := map[];
    assert t[Id(r) := r].Keys !! none.Keys && t.Keys !! none.Keys;
    var a, b := ReplacedRows(t[Id(r) := r], none, at).value,
      ReplacedRows(t, none, at).value[Id(r) := StoredRow(r, at, false)];
    assert a.Keys == t.Keys + {Id(r)} == b.Keys;
    assert forall id :: id in a ==> a[id] == b[id];
    assert a == b;
  }

  lemma {:induction false} InsertTombstones(rs: seq<Record>, ts: seq<Tombstone>, at: int, n: nat)
    requires UniqueIds(rs) && OncePerId(ts) && n <= |ts|
    ensures InsertRows(map[], Inserts(rs, ts, at)[..|rs| + n]) == ReplacedRows(AsTable(rs), Stamps(ts[..n]), at)
  {
    hide InsertRows, Stamps, Inserts, ReplacedRows, AsTable, UniqueIds;
    if n == 0 {
      AllRecordsInserted(rs, ts, at);
    } else {
      TombstoneInserts(rs, ts, at, n - 1);
      StampsNext(ts, n - 1);
      InsertTombstones(rs, ts, at, n - 1);
      InsertTombstone(AsTable(rs), Stamps(ts[..n - 1]), ts[n - 1], at);
    }
  }

  lemma AllRecordsInserted(rs: seq<Record>, ts: seq<Tombstone>, at: int)
    requires UniqueIds(rs)
    ensures InsertRows(map[], Inserts(rs, ts, at)[..|rs| + 0]) == ReplacedRows(AsTable(rs), Stamps(ts[..0]), at)
  {
    InsertRecords(rs, ts, at, |rs|);
    assert rs[..|rs|] == rs && ts[..0] == [];
  }

  lemma TombstoneInserts(rs: seq<Record>, ts: seq<Tombstone>, at: int, n: nat)
    requires n < |ts|
    ensures InsertRows(map[], Inserts(rs, ts, at)[..|rs| + n + 1]) ==
      var before := InsertRows(map[], Inserts(rs, ts, at)[..|rs| + n]);
      if before.None? || ts[n].id in before.value then None
      else Some(before.value[ts[n].id := StoredRow(Bare(ts[n].id), ts[n].timestamp, true)])
  {
    var all, m := Inserts(rs, ts, at), |rs| + n;
    assert all[..m + 1][..m] == all[..m];
    assert all[m] == (ts[n].id, StoredRow(Bare(ts[n].id), ts[n].timestamp, true));
  }

  lemma StampsNext(ts: seq<Tombstone>, n: nat)
    requires OncePerId(ts) && n < |ts|
    ensures ts[n].id !in Stamps(ts[..n])
    ensures Stamps(ts[..n + 1]) == Stamps(ts[..n])[ts[n].id := ts[n].timestamp]
  {
    assert ts[..n + 1][..n] == ts[..n];
    StampsKeys(ts[..n]);
  }

  lemma InsertTombstone(t: Table, tombs: map<string, int>, last: Tombstone, at: int)
    requires last.id !in tombs
    ensures ReplacedRows(t, tombs[last.id := last.timestamp], at) ==
      var before := ReplacedRows(t, tombs, at);
      if before.None? || last.id in before.value then None
      else Some(before.value[last.id := StoredRow(Bare(last.id), last.timestamp, true)])
  {
    var more := tombs[last.id := last.timestamp];
    assert more.Keys == tombs.Keys + {last.id};
    if t.Keys !! tombs.Keys && last.id !in t {
      assert t.Keys !! more.Keys;
      var a, b := ReplacedRows(t, more, at).value,
                  ReplacedRows(t, tombs, at).value[last.id := StoredRow(Bare(last.id), last.timestamp, true)];
      assert a.Keys == t.Keys + more.Keys == b.Keys;
      assert forall id :: id in a ==> a[id] == b[id];
      assert a == b;
    } else if !(t.Keys !! tombs.Keys) {
      var id :| id in t.Keys && id in tombs.Keys;
      assert id in more.Keys;
    } else {
      assert last.id in more.Keys;
    }
  }

  /** The row-by-row replacement of the store is the all-or-nothing one. */
  lemma ReplaceIsReplacedRows(rs: seq<Record>, ts: seq<Tombstone>, at: int)
    requires UniqueIds(rs) && OncePerId(ts)
    ensures Replace(rs, ts, at) == ReplacedRows(AsTable(rs), Stamps(ts), at)
  {
    InsertTombstones(rs, ts, at, |ts|);
    var all := Inserts(rs, ts, at);
    assert all[..|rs| + |ts|] == all && ts[..|ts|] == ts;
  }

  lemma {:induction false} UnionOnce(ts: seq<Tombstone>)
    requires OncePerId(ts)
    ensures UnionTombs(map[], ts) == Stamps(ts)
  {
    if ts != [] {
      var init := ts[..|ts| - 1];
      assert forall i :: 0 <= i < |init| ==> init[i] == ts[i];
      UnionOnce(init);
      StampsKeys(init);
    }
  }

  // ---- The provider ----

  ghost predicate IdsDiffer(ms: seq<Mutation>) {
    forall i, j :: 0 <= i < j < |ms| ==> ms[i].id != ms[j].id
  }

  lemma NextId(ms: seq<Mutation>, i: nat)
    requires i < |ms|
    ensures MutationIds(ms[..i + 1]) == MutationIds(ms[..i]) + {ms[i].id}
    ensures IdsDiffer(ms) ==> ms[i].id !in MutationIds(ms[..i])
  {
    assert ms[..i + 1] == ms[..i] + [ms[i]];
  }

  lemma CoverNext(rows: Rows, ms: seq<Mutation>, i: nat)
    requires i < |ms|
    ensures ClearCovered(rows, ms[..i + 1]) ==
      if ms[i].operation.Delete? then ClearTombstone(ClearCovered(rows, ms[..i]), Id(ms[i].payload), ms[i].timestamp)
      else ClearCovered(rows, ms[..i])
  {
    assert ms[..i + 1][..i] == ms[..i];
  }

  lemma FailNext(q: Queue, ids: set<string>, id: string, now: int)
    requires id !in ids
    ensures MarkFailed(FailIds(q, ids, now), id, now) == FailIds(q, ids + {id}, now)
  {}

  lemma RefuseNext(q: Queue, ids: set<string>, id: string, rejections: seq<Rejection>)
    requires id !in ids
    ensures MarkRejected(RefuseIds(q, ids, rejections), id, CodeFor(rejections, id), MessageFor(rejections, id))
         == RefuseIds(q, ids + {id}, rejections)
  {
    hide CodeFor, MessageFor;
  }

  lemma SettleInOrder(q: Queue, parts: Parts, rejections: seq<Rejection>, now: int)
    requires MutationIds(parts.acknowledged) !! MutationIds(parts.unacknowledged) !! MutationIds(parts.rejected)
    ensures RefuseIds(FailIds(RemoveIds(q, MutationIds(parts.acknowledged)), MutationIds(parts.unacknowledged), now),
                      MutationIds(parts.rejected), rejections)
         == SettleQueue(q, parts, rejections, now)
  {
    hide FailedRow, RefusedRow, CodeFor, MessageFor, MutationIds;
  }

  lemma RemoveNext(q: Queue, ids: set<string>, id: string)
    ensures RemoveRow(RemoveIds(q, ids), id) == RemoveIds(q, ids + {id})
  {}

  // ---- Renaming in a list ----

  function Renamings(rs: seq<Record>, from: string, to: string): seq<Record> {
    if rs == [] then []
    else
      var r := rs[|rs| - 1];
      Renamings(rs[..|rs| - 1], from, to) + [if Id(r) == from then WithId(r, to) else r]
  }

  lemma {:induction false} RenamingsHold(rs: seq<Record>, from: string, to: string)
    requires UniqueIds(rs) && from != to && (from in AsTable(rs) ==> to !in AsTable(rs))
    ensures UniqueIds(Renamings(rs, from, to))
    ensures AsTable(Renamings(rs, from, to)) == RenameMemory(AsTable(rs), from, to)
  {
    if rs != [] {
      var init, last := rs[..|rs| - 1], rs[|rs| - 1];
      LastIsNew(rs);
      RenamingsHold(init, from, to);
      RenamedLast(AsTable(init), last, from, to);
      var renamed := if Id(last) == from then WithId(last, to) else last;
      AppendNew(Renamings(init, from, to), renamed);
    }
  }

  lemma RenamedLast(t: Table, last: Record, from: string, to: string)
    requires Id(last) !in t && from != to
    requires from in t || Id(last) == from ==> to !in t && Id(last) != to
    ensures var renamed := if Id(last) == from then WithId(last, to) else last;
      && Id(renamed) !in RenameMemory(t, from, to)
      && RenameMemory(t[Id(last) := last], from, to) == RenameMemory(t, from, to)[Id(renamed) := renamed]
  {
    hide WithId;
  }

  lemma AppendNew(rs: seq<Record>, r: Record)
    requires UniqueIds(rs) && Id(r) !in AsTable(rs)
    ensures UniqueIds(rs + [r]) && AsTable(rs + [r]) == AsTable(rs)[Id(r) := r]
  {
    AsTableIsKeyed(rs);
    assert forall x :: x in rs ==> Id(x) in AsTable(rs);
    hide AsTable;
    AppendUnique(rs, r);
  }

  function AllRenamings(rs: seq<Record>, entries: seq<Entry>): seq<Record> {
    if entries == [] then rs
    else
      var before := AllRenamings(rs, entries[..|entries| - 1]);
      var (from, to) := entries[|entries| - 1];
      if from == to then before else Renamings(before, from, to)
  }

  /** If every target is new to the list in its turn, the loop over the list is the one over the table. */
  lemma {:induction false} RoomyRenames(rs: seq<Record>, entries: seq<Entry>)
    requires UniqueIds(rs) && Roomy(AsTable(rs), entries)
    ensures UniqueIds(AllRenamings(rs, entries))
    ensures AsTable(AllRenamings(rs, entries)) == RenameTable(AsTable(rs), entries)
  {
    if entries != [] {
      var init, n := entries[..|entries| - 1], |entries| - 1;
      assert forall k :: 0 <= k < |init| ==> init[k] == entries[k] && init[..k] == entries[..k];
      RoomyRenames(rs, init);
      hide AsTable, Renamings, UniqueIds, RenameMemory;
      if Proper(entries[n]) {
        RenamingsHold(AllRenamings(rs, init), entries[n].0, entries[n].1);
      }
    }
  }

  // ---- The state as a value ----

  function ShownIn(
    memory: map<string, seq<Record>>, records: map<string, Rows>, cursors: map<string, Option<nat>>, t: string): Shown
  {
    var rows := if t in records then records[t] else map[];
    Shown(if t in memory then AsTable(memory[t]) else Live(rows), rows, if t in cursors then cursors[t] else None)
  }

  function EngineOf(
    memory: map<string, seq<Record>>, records: map<string, Rows>, cursors: map<string, Option<nat>>,
    queue: Queue): Engine
  {
    Engine(map t | t in memory.Keys + records.Keys + cursors.Keys :: ShownIn(memory, records, cursors, t), queue)
  }

  lemma EngineShows(
    memory: map<string, seq<Record>>, records: map<string, Rows>, cursors: map<string, Option<nat>>, queue: Queue,
    t: string)
    ensures ShownAt(EngineOf(memory, records, cursors, queue), t) == ShownIn(memory, records, cursors, t)
  {
    hide AsTable;
    var none: Rows := map[];
    assert Live(none) == map[];
  }

  /** Working on one table changes the view of that table only. */
  lemma OneTableChanged(
    m0: map<string, seq<Record>>, r0: map<string, Rows>, c0: map<string, Option<nat>>, q0: Queue,
    m1: map<string, seq<Record>>, r1: map<string, Rows>, c1: map<string, Option<nat>>, q1: Queue, table: string,
    shown: Shown)
    requires table in m1 && ShownIn(m1, r1, c1, table) == shown
    requires m1 - {table} == m0 - {table} && r1 - {table} == r0 - {table} && c1 - {table} == c0 - {table}
    ensures EngineOf(m1, r1, c1, q1) == Engine(EngineOf(m0, r0, c0, q0).tables[table := shown], q1)
  {
    hide AsTable, Live;
    var a, b := EngineOf(m1, r1, c1, q1).tables, EngineOf(m0, r0, c0, q0).tables;
    forall t | t != table
      ensures t in a <==> t in b
      ensures t in a ==> a[t] == b[t]
    {
      SameElsewhere(m0, m1, table, t);
      SameElsewhere(r0, r1, table, t);
      SameElsewhere(c0, c1, table, t);
    }
    hide ShownIn, EngineOf;
    MapUpdated(a, b, table, shown);
  }

  lemma MapUpdated<V>(a: map<string, V>, b: map<string, V>, table: string, v: V)
    requires table in a && a[table] == v
    requires forall t :: t != table ==> (t in a <==> t in b)
    requires forall t :: t != table && t in a ==> a[t] == b[t]
    ensures a == b[table := v]
  {
    assert a.Keys == b[table := v].Keys;
  }

  lemma SameElsewhere<V>(a: map<string, V>, b: map<string, V>, table: string, t: string)
    requires a - {table} == b - {table} && t != table
    ensures t in a <==> t in b
    ensures t in a ==> a[t] == b[t]
  {
    assert t in a <==> t in a - {table};
    assert t in b <==> t in b - {table};
    if t in a {
      assert (a - {table})[t] == (b - {table})[t];
    }
  }

  lemma {:induction false} HavingDiffers(ms: seq<Mutation>, ids: set<string>)
    requires IdsDiffer(ms)
    ensures IdsDiffer(Having(ms, ids))
  {
    if ms != [] {
      var init, last := ms[..|ms| - 1], ms[|ms| - 1];
      assert forall i :: 0 <= i < |init| ==> init[i] == ms[i];
      HavingDiffers(init, ids);
      HavingIds(init, ids);
      assert forall m :: m in Having(init, ids) ==> m.id != last.id;
    }
  }

  lemma NothingBlocked(q: Queue)
    ensures Block(q, {}) == q
  {}

  lemma BlockNext(q: Queue, order: seq<string>, i: nat)
    requires i < |order|
    ensures MarkPending(Block(q, Names(order[..i])), order[i]) == Block(q, Names(order[..i + 1]))
  {
    assert order[..i + 1] == order[..i] + [order[i]];
  }

  lemma SentToAll(batch: seq<Mutation>, tables: seq<string>)
    requires forall m :: m in batch ==> m.table in tables
    ensures MutationIds(batch) == SentTo(batch, {} + Names(tables[0..]))
  {
    assert tables[0..] == tables;
  }

  lemma SentToNone(batch: seq<Mutation>, q: Queue, now: int)
    ensures SentTo(batch, {}) == {} && FailIds(q, {}, now) == q
  {}

  lemma TablesLeft(batch: seq<Mutation>, tables: seq<string>, i: nat, failed: set<string>)
    requires OneEach(batch) && Distinct(tables) && i < |tables|
    requires failed <= Names(tables[..i])
    ensures var left, next := failed + Names(tables[i..]), Names(tables[i + 1..]);
      && SentTo(batch, left) == SentTo(batch, failed + {tables[i]} + next)
      && SentTo(batch, left) - MutationIds(OfTable(batch, tables[i])) == SentTo(batch, failed + next)
  {
    OfTableHolds(batch, tables[i]);
    var next := Names(tables[i + 1..]);
    assert tables[i..] == [tables[i]] + tables[i + 1..];
    assert failed + Names(tables[i..]) == failed + {tables[i]} + next;
    assert tables[i] !in failed + next;
    SentToOthers(batch, tables[i], failed + next);
    assert failed + {tables[i]} + next == failed + next + {tables[i]};
  }

  lemma SentToOthers(batch: seq<Mutation>, table: string, others: set<string>)
    requires OneEach(batch) && table !in others
    ensures SentTo(batch, others + {table}) - MutationIds(OfTable(batch, table)) == SentTo(batch, others)
  {
    OfTableHolds(batch, table);
    hide OfTable;
    forall id | id in SentTo(batch, others)
      ensures id !in MutationIds(OfTable(batch, table))
    {
      var m :| m in batch && m.table in others && m.id == id;
    }
    forall id | id in SentTo(batch, others + {table}) && id !in SentTo(batch, others)
      ensures id in MutationIds(OfTable(batch, table))
    {
      var m :| m in batch && m.table in others + {table} && m.id == id;
      assert m in OfTable(batch, table);
    }
  }

  lemma {:induction false} OfTableDiffers(ms: seq<Mutation>, table: string)
    requires IdsDiffer(ms)
    ensures IdsDiffer(OfTable(ms, table))
  {
    if ms != [] {
      var init, last := ms[..|ms| - 1], ms[|ms| - 1];
      assert forall i :: 0 <= i < |init| ==> init[i] == ms[i];
      OfTableDiffers(init, table);
      OfTableHolds(init, table);
      assert forall m :: m in OfTable(init, table) ==> m.id != last.id;
    }
  }

  lemma EachNext(
    e: Engine, tables: seq<string>, i: nat, batch: seq<Mutation>, transport: Transport, config: Config, now: int)
    requires i < |tables|
    ensures var (before, failed) := ProcessEach(e, tables[..i], batch, transport, config, now);
      var (after, ok) := ProcessOne(before, tables[i], batch,
        transport(tables[i], RequestFor(before, tables[i], batch)), config, now);
      ProcessEach(e, tables[..i + 1], batch, transport, config, now) ==
        (after, if ok then failed else failed + {tables[i]})
    ensures ProcessEach(e, tables[..i], batch, transport, config, now).1 <= Names(tables[..i])
  {
    hide ProcessOne;
    assert tables[..i + 1][..i] == tables[..i];
    FailedAreVisited(e, tables[..i], batch, transport, config, now);
  }

  lemma {:induction false} FailedAreVisited(
    e: Engine, tables: seq<string>, batch: seq<Mutation>, transport: Transport, config: Config, now: int)
    ensures ProcessEach(e, tables, batch, transport, config, now).1 <= Names(tables)
  {
    hide ProcessOne;
    if tables != [] {
      FailedAreVisited(e, tables[..|tables| - 1], batch, transport, config, now);
    }
  }

  lemma StillUnacked(claimed: seq<Mutation>, unacked: set<string>)
    ensures MutationIds(Having(claimed, unacked)) == MutationIds(claimed) * unacked
  {
    HavingIds(claimed, unacked);
  }

  lemma ViewOfQueue(
    memory: map<string, seq<Record>>, records: map<string, Rows>, cursors: map<string, Option<nat>>, q0: Queue,
    q1: Queue)
    ensures EngineOf(memory, records, cursors, q1) == EngineOf(memory, records, cursors, q0).(queue := q1)
    ensures EngineOf(memory, records, cursors, q0).queue == q0
  {}

  lemma ClaimDiffers(q: Queue, now: int, scope: Option<string>, claimed: seq<Mutation>)
    requires IsClaim(q, now, CLAIM_LIMIT, scope, claimed)
    ensures IdsDiffer(claimed) && IdsDiffer(BatchOf(claimed))
  {
    hide Eligible, BlockedIds;
    assert IdsDiffer(claimed);
    HavingDiffers(claimed, MutationIds(claimed) - BlockedIds(claimed));
  }

  class SyncProvider {
    const storage: SyncStorage
    const config: Config
    var memory: map<string, seq<Record>>

    ghost predicate Valid()
      reads this, storage
    {
      && storage.Valid()
      && forall t :: t in memory ==> UniqueIds(memory[t])
    }

    constructor (storage: SyncStorage, config: Config)
      requires storage.Valid()
      ensures Valid() && this.storage == storage && this.config == config && memory == map[]
    {
      this.storage, this.config, memory := storage, config, map[];
    }

    /** The records of a table: a table that was not opened yet will be loaded from the store. */
    function Visible(table: string): Table
      reads this, storage
    {
      if table in memory then AsTable(memory[table]) else Live(storage.RowsOf(table))
    }

    function View(): Engine
      reads this, storage
    {
      EngineOf(memory, storage.records, storage.cursors, storage.queue)
    }

    // ---- Settling ----

    method FailMutations(ms: seq<Mutation>, now: int)
      requires storage.Valid() && IdsDiffer(ms)
      modifies storage`queue
      ensures storage.Valid()
      ensures storage.queue == FailIds(old(storage.queue), MutationIds(ms), now)
    {
      for i := 0 to |ms|
        invariant storage.Valid()
        invariant storage.queue == FailIds(old(storage.queue), MutationIds(ms[..i]), now)
      {
        NextId(ms, i);
        FailNext(old(storage.queue), MutationIds(ms[..i]), ms[i].id, now);
        hide FailIds, MarkFailed, MutationIds;
        storage.MarkMutationFailed(ms[i].id, now);
      }
      assert ms[..|ms|] == ms;
    }

    method RejectMutations(ms: seq<Mutation>, rejections: seq<Rejection>)
      requires storage.Valid() && IdsDiffer(ms)
      modifies storage`queue
      ensures storage.Valid()
      ensures storage.queue == RefuseIds(old(storage.queue), MutationIds(ms), rejections)
    {
      for i := 0 to |ms|
        invariant storage.Valid()
        invariant storage.queue == RefuseIds(old(storage.queue), MutationIds(ms[..i]), rejections)
      {
        NextId(ms, i);
        RefuseNext(old(storage.queue), MutationIds(ms[..i]), ms[i].id, rejections);
        hide RefuseIds, MarkRejected, MutationIds, CodeFor, MessageFor;
        storage.MarkMutationRejected(ms[i].id, CodeFor(rejections, ms[i].id), MessageFor(rejections, ms[i].id));
      }
      assert ms[..|ms|] == ms;
    }

    method AcknowledgeMutation(table: string, m: Mutation)
      requires storage.Valid()
      modifies storage`queue, storage`records
      ensures storage.Valid()
      ensures storage.queue == RemoveRow(old(storage.queue), m.id)
      ensures storage.RowsOf(table) ==
        if m.operation.Delete? then Store.ClearTombstone(old(storage.RowsOf(table)), Id(m.payload), m.timestamp)
        else old(storage.RowsOf(table))
      ensures storage.records - {table} == old(storage.records) - {table}
    {
      storage.RemoveMutation(m.id);
      if m.operation.Delete? {
        storage.ClearTombstone(table, Id(m.payload), m.timestamp);
      }
    }

    method AcknowledgeMutations(table: string, ms: seq<Mutation>)
      requires storage.Valid()
      modifies storage`queue, storage`records
      ensures storage.Valid()
      ensures storage.queue == RemoveIds(old(storage.queue), MutationIds(ms))
      ensures storage.RowsOf(table) == ClearCovered(old(storage.RowsOf(table)), ms)
      ensures storage.records - {table} == old(storage.records) - {table}
    {
      for i := 0 to |ms|
        invariant storage.Valid()
        invariant storage.queue == RemoveIds(old(storage.queue), MutationIds(ms[..i]))
        invariant storage.RowsOf(table) == ClearCovered(old(storage.RowsOf(table)), ms[..i])
        invariant storage.records - {table} == old(storage.records) - {table}
      {
        NextId(ms, i);
        CoverNext(old(storage.RowsOf(table)), ms, i);
        RemoveNext(old(storage.queue), MutationIds(ms[..i]), ms[i].id);
        hide ClearCovered, RemoveIds, RemoveRow, MutationIds;
        AcknowledgeMutation(table, ms[i]);
      }
      assert ms[..|ms|] == ms;
    }

    /** settleSyncMutations: first the acknowledged mutations, then the others, then the rejected. */
    method SettleMutations(table: string, parts: Parts, rejections: seq<Rejection>, now: int)
      requires storage.Valid()
      requires IdsDiffer(parts.unacknowledged) && IdsDiffer(parts.rejected)
      requires MutationIds(parts.acknowledged) !! MutationIds(parts.unacknowledged) !! MutationIds(parts.rejected)
      modifies storage`queue, storage`records
      ensures storage.Valid()
      ensures storage.queue == SettleQueue(old(storage.queue), parts, rejections, now)
      ensures storage.RowsOf(table) == ClearCovered(old(storage.RowsOf(table)), parts.acknowledged)
      ensures storage.records - {table} == old(storage.records) - {table}
    {
      SettleInOrder(storage.queue, parts, rejections, now);
      hide SettleQueue, FailIds, RefuseIds, RemoveIds, ClearCovered;
      AcknowledgeMutations(table, parts.acknowledged);
      FailMutations(parts.unacknowledged, now);
      RejectMutations(parts.rejected, rejections);
    }

    // ---- Receiving records ----

    /** The tombstones that take part in the merge. */
    method CollectTombstones(table: string, unacked: seq<Mutation>, r: Response) returns (ts: seq<Tombstone>)
      requires storage.Valid()
      ensures OncePerId(ts)
      ensures Stamps(ts) ==
        if r.resetRequired then WithDeletions(Stamps(r.tombstones), unacked)
        else UnionTombs(Tombs(storage.RowsOf(table)), r.tombstones)
    {
      var local := storage.LoadTombstones(table);
      var byId: map<string, int> := map[];
      for i := 0 to |local|
        invariant byId == UnionTombs(map[], local[..i])
      {
        assert local[..i + 1][..i] == local[..i];
        byId := Raise(byId, local[i].id, local[i].timestamp);
      }
      assert local[..|local|] == local;
      UnionOnce(local);
      var reset: map<string, int> := map[];
      ghost var stored := byId;
      for i := 0 to |r.tombstones|
        invariant byId == UnionTombs(stored, r.tombstones[..i])
        invariant reset == Stamps(r.tombstones[..i])
      {
        assert r.tombstones[..i + 1][..i] == r.tombstones[..i];
        byId := Raise(byId, r.tombstones[i].id, r.tombstones[i].timestamp);
        reset := reset[r.tombstones[i].id := r.tombstones[i].timestamp];
      }
      assert r.tombstones[..|r.tombstones|] == r.tombstones;
      if r.resetRequired {
        for i := 0 to |unacked|
          invariant reset == WithDeletions(Stamps(r.tombstones), unacked[..i])
        {
          assert unacked[..i + 1][..i] == unacked[..i];
          if unacked[i].operation.Delete? {
            reset := Raise(reset, Id(unacked[i].payload), unacked[i].timestamp);
          }
        }
        assert unacked[..|unacked|] == unacked;
      }
      var tombs := if r.resetRequired then reset else byId;
      hide UnionTombs, WithDeletions, Stamps, Tombs, Raise, OncePerId;
      var order := InSomeOrder(tombs.Keys);
      ts := ListedTombstones(tombs, order);
      ListedTombstonesHold(tombs, order);
    }

    lemma PersistNext(
      rows: Rows, rs: seq<Record>, i: nat, visible: Table, guarded: set<string>, r: Response, tombs: map<string, int>)
      requires i < |rs|
      ensures PersistRecords(rows, rs[..i + 1], visible, guarded, r, tombs) ==
        var before := PersistRecords(rows, rs[..i], visible, guarded, r, tombs);
        if Id(rs[i]) in guarded || Id(rs[i]) !in visible then before
        else Apply(before, Save(visible[Id(rs[i])], StoreTime(r, tombs, rs[i])))
    {
      hide Apply, StoreTime;
      assert rs[..i + 1][..i] == rs[..i];
    }

    /** Incremental mode stores each pulled record that stays visible, then the pulled tombstones. */
    method PersistPulled(table: string, r: Response, visible: Table, guarded: set<string>, tombs: map<string, int>)
      requires storage.Valid()
      modifies storage`records
      ensures storage.Valid()
      ensures storage.RowsOf(table) ==
        PersistTombstones(PersistRecords(old(storage.RowsOf(table)), PulledRecords(r), visible, guarded, r, tombs),
          r.tombstones, guarded)
      ensures storage.records - {table} == old(storage.records) - {table}
    {
      hide Apply;
      var rs, ts := PulledRecords(r), r.tombstones;
      for i := 0 to |rs|
        invariant storage.Valid() && storage.records - {table} == old(storage.records) - {table}
        invariant storage.RowsOf(table) ==
          PersistRecords(old(storage.RowsOf(table)), rs[..i], visible, guarded, r, tombs)
      {
        PersistNext(old(storage.RowsOf(table)), rs, i, visible, guarded, r, tombs);
        hide PersistRecords, PersistTombstones, StoreTime, Id;
        if Id(rs[i]) !in guarded && Id(rs[i]) in visible {
          storage.WriteRecord(table, Save(visible[Id(rs[i])], StoreTime(r, tombs, rs[i])));
        }
      }
      assert rs[..|rs|] == rs;
      ghost var saved := storage.RowsOf(table);
      for i := 0 to |ts|
        invariant storage.Valid() && storage.records - {table} == old(storage.records) - {table}
        invariant storage.RowsOf(table) == PersistTombstones(saved, ts[..i], guarded)
      {
        assert ts[..i + 1][..i] == ts[..i];
        hide PersistRecords, StoreTime;
        if ts[i].id !in guarded {
          storage.WriteRecord(table, Erase(ts[i].id, ts[i].timestamp));
        }
      }
      assert ts[..|ts|] == ts;
    }

    /** Merge a response into an opened table and its stored rows; a replacement may fail as a whole. */
    method PullTable(table: string, ms: seq<Mutation>, r: Response) returns (ok: bool)
      requires Valid() && table in memory
      modifies this, storage`records
      ensures Valid() && table in memory
      ensures var rows := RowsAfter(old(Visible(table)), old(storage.RowsOf(table)), ms, r, config.strategy);
        && ok == rows.Some?
        && (ok ==>
             && Visible(table) == VisibleAfter(old(Visible(table)), old(storage.RowsOf(table)), ms, r, config.strategy)
             && storage.RowsOf(table) == rows.value)
        && (!ok ==> memory == old(memory) && storage.records == old(storage.records))
      ensures memory - {table} == old(memory) - {table}
      ensures storage.records - {table} == old(storage.records) - {table}
    {
      hide VisibleAfter, AsTable, Stamps, UniqueIds, OncePerId, MergeTombs, Replace, ReplacedRows,
           PersistRecords, PersistTombstones, RecordIds, Unacked;
      var visible, tombstones := MergeResponse(table, ms, r);
      if r.resetRequired {
        ReplaceIsReplacedRows(visible, tombstones, r.serverTimestamp);
        ok := storage.ReplaceTable(table, visible, tombstones, r.serverTimestamp);
        if ok {
          memory := memory[table := visible];
        }
      } else {
        ok := true;
        memory := memory[table := visible];
        PersistPulled(table, r, AsTable(visible), RecordIds(Unacked(ms, r.acked)), Stamps(tombstones));
      }
    }

    /** The records the table will show, and the tombstones that took part. */
    method MergeResponse(
      table: string, ms: seq<Mutation>, r: Response) returns (visible: seq<Record>, tombstones: seq<Tombstone>)
      requires Valid() && table in memory
      ensures UniqueIds(visible) && OncePerId(tombstones)
      ensures AsTable(visible) == VisibleAfter(Visible(table), storage.RowsOf(table), ms, r, config.strategy)
      ensures Stamps(tombstones) == MergeTombs(storage.RowsOf(table), ms, r)
      ensures var unacked := Unacked(ms, r.acked);
        var local := if r.resetRequired then Where(memory[table], RecordIds(unacked), true) else memory[table];
        InOrderOf(visible, ListOrder(local, PulledRecords(r), unacked, tombstones))
    {
      var unacked := Unacked(ms, r.acked);
      tombstones := CollectTombstones(table, unacked, r);
      var local := if r.resetRequired then Where(memory[table], RecordIds(unacked), true) else memory[table];
      var merged := MergePulledRecords(local, PulledRecords(r), unacked, config.strategy, tombstones);
      visible := Where(merged.value, Deletions(unacked), false);
      hide ListOrder;
      ListedInOrder(merged.value, ListOrder(local, PulledRecords(r), unacked, tombstones));
      WhereInOrder(merged.value, Deletions(unacked), false, ListOrder(local, PulledRecords(r), unacked, tombstones));
      hide InOrderOf;
      VisibleIsMerged(memory[table], storage.RowsOf(table), ms, r, config.strategy, tombstones, merged.value);
    }

    lemma VisibleIsMerged(
      shown: seq<Record>, rows: Rows, ms: seq<Mutation>, r: Response, strategy: Strategy, ts: seq<Tombstone>,
      merged: seq<Record>)
      requires UniqueIds(shown) && UniqueIds(merged)
      requires Stamps(ts) ==
        if r.resetRequired then WithDeletions(Stamps(r.tombstones), Unacked(ms, r.acked))
        else UnionTombs(Tombs(rows), r.tombstones)
      requires var guarded := RecordIds(Unacked(ms, r.acked));
        AsTable(merged) ==
          PullAll(Kept(if r.resetRequired then Where(shown, guarded, true) else shown, guarded, Stamps(ts)),
                  PulledRecords(r), guarded, strategy, Stamps(ts))
      ensures Stamps(ts) == MergeTombs(rows, ms, r)
      ensures UniqueIds(Where(merged, Deletions(Unacked(ms, r.acked)), false))
      ensures AsTable(Where(merged, Deletions(Unacked(ms, r.acked)), false)) ==
        VisibleAfter(AsTable(shown), rows, ms, r, strategy)
    {
      hide AsTable, Where, Kept, Pruned, PullAll, Stamps, Unacked, WithDeletions, UnionTombs;
      var guarded := RecordIds(Unacked(ms, r.acked));
      WhereTable(shown, guarded, true);
      KeptIsPruned(if r.resetRequired then Where(shown, guarded, true) else shown, guarded, Stamps(ts));
      WhereTable(merged, Deletions(Unacked(ms, r.acked)), false);
    }

    /** The idMap loop: one transaction per entry, up to the first taken target id, then the list in
        memory. */
    method RemapIds(table: string, entries: seq<Entry>) returns (ok: bool)
      requires Valid() && table in memory
      modifies this, storage`queue, storage`records
      ensures storage.Valid()
      ensures Stored(storage.RowsOf(table), storage.queue, ok)
           == RenameStored(Stored(old(storage.RowsOf(table)), old(storage.queue), true), table, entries)
      ensures memory == if ok then old(memory)[table := AllRenamings(old(memory)[table], entries)] else old(memory)
      ensures storage.records - {table} == old(storage.records) - {table}
      ensures storage.cursors == old(storage.cursors)
      ensures ok && Roomy(old(Visible(table)), entries) ==>
        Valid() && Visible(table) == RenameTable(old(Visible(table)), entries)
      ensures !ok ==> Valid()
      ensures var before := Tabled(old(storage.RowsOf(table)), old(storage.queue), old(Visible(table)));
        Fresh(before, table, entries) ==>
          && ok && Valid()
          && RenameAll(before, table, entries) == Some(Tabled(storage.RowsOf(table), storage.queue, Visible(table)))
    {
      ghost var before := Tabled(storage.RowsOf(table), storage.queue, Visible(table));
      ok := RenameEach(table, entries);
      if Fresh(before, table, entries) {
        FreshIsRoomy(before, table, entries);
        FreshStored(before, table, entries);
      }
      if Roomy(before.memory, entries) {
        RoomyRenames(memory[table], entries);
      }
      hide AsTable, Roomy, Fresh, RenameAll, RenameTable, RenameStored, Renamings, AllRenamings;
      if ok {
        memory := memory[table := AllRenamings(memory[table], entries)];
      }
    }

    method RenameEach(table: string, entries: seq<Entry>) returns (ok: bool)
      requires storage.Valid()
      modifies storage`queue, storage`records
      ensures storage.Valid()
      ensures Stored(storage.RowsOf(table), storage.queue, ok)
           == RenameStored(Stored(old(storage.RowsOf(table)), old(storage.queue), true), table, entries)
      ensures storage.records - {table} == old(storage.records) - {table}
    {
      ghost var start := Stored(storage.RowsOf(table), storage.queue, true);
      for i := 0 to |entries|
        invariant storage.Valid()
        invariant storage.records - {table} == old(storage.records) - {table}
        invariant RenameStored(start, table, entries[..i]) == Stored(storage.RowsOf(table), storage.queue, true)
      {
        var (from, to) := entries[i];
        StoredNext(start, table, entries, i);
        hide RenameStored, RenameRow, RenameQueue;
        if from == to {
          continue;
        }
        var done := storage.RemapRecordId(table, from, to);
        if !done {
          FailedStays(start, table, entries, i + 1);
          return false;
        }
      }
      assert entries[..|entries|] == entries;
      ok := true;
    }

    // ---- One table of a run ----

    method OpenTable(table: string)
      requires Valid()
      modifies this
      ensures Valid() && table in memory && memory - {table} == old(memory) - {table}
      ensures Visible(table) == old(Visible(table))
    {
      if table !in memory {
        var loaded := storage.LoadRecords(table);
        memory := memory[table := loaded];
      }
    }

    /** One table of a run, for a response with the given idMap. Unless the loop over it fails, no record
        may be renamed to an id that the list in memory shows already. */
    method ProcessTable(table: string, ms: seq<Mutation>, entries: seq<Entry>, outcome: Outcome, now: int)
      returns (ok: bool)
      requires Valid() && IdsDiffer(ms)
      requires RenameStored(Stored(storage.RowsOf(table), storage.queue, true), table, entries).ok ==>
        Roomy(Visible(table), entries)
      modifies this, storage
      ensures Valid()
      ensures var (c, done) := ProcessMapped(old(Look(View(), table)), table, ms, entries, outcome, config.strategy,
        config.schemaVersion, now);
        View() == Runs.Put(old(View()), table, c) && ok == done
    {
      hide AsTable, Live, UniqueIds, Process, FailIds, RenameStored, RenameTable, Roomy;
      EngineShows(memory, storage.records, storage.cursors, storage.queue, table);
      OpenTable(table);
      if outcome.Answered? {
        ok := RemapIds(table, entries);
      }
      if outcome.Answered? && !ok {
        FailMutations(ms, now);
      } else {
        ok := ReceiveTable(table, ms, outcome, now);
      }
      OneTableChanged(old(memory), old(storage.records), old(storage.cursors), old(storage.queue),
                      memory, storage.records, storage.cursors, storage.queue, table,
                      ShownIn(memory, storage.records, storage.cursors, table));
    }

    method ReceiveTable(table: string, ms: seq<Mutation>, outcome: Outcome, now: int) returns (ok: bool)
      requires Valid() && IdsDiffer(ms)
      modifies this, storage
      ensures Valid() && table in memory
      ensures memory - {table} == old(memory) - {table}
      ensures storage.records - {table} == old(storage.records) - {table}
      ensures storage.cursors - {table} == old(storage.cursors) - {table}
      ensures var before := old(ShownIn(memory, storage.records, storage.cursors, table));
        var after := ShownIn(memory, storage.records, storage.cursors, table);
        Process(TableClient(before.memory, before.rows, old(storage.queue), before.cursor),
                ms, outcome, config.strategy, config.schemaVersion, now)
          == (TableClient(after.memory, after.rows, storage.queue, after.cursor), ok)
    {
      hide AsTable, Live, UniqueIds, VisibleAfter, RowsAfter, SettleQueue, ClearCovered, FailIds, Partition;
      OpenTable(table);
      if outcome.TransportError? || Incompatible(config.schemaVersion, outcome.response) {
        FailMutations(ms, now);
        return false;
      }
      var r := outcome.response;
      if Pulls(r) {
        var pulled := PullTable(table, ms, r);
        if !pulled {
          FailMutations(ms, now);
          return false;
        }
      }
      PartsDiffer(ms, r);
      SettleMutations(table, Partition(ms, r.acked, r.rejected), r.rejected, now);
      if r.cursor.Some? || r.resetRequired {
        storage.SetServerCursor(table, if r.cursor.Some? then r.cursor.value else None);
      }
      ok := true;
    }

    lemma PartsDiffer(ms: seq<Mutation>, r: Response)
      requires IdsDiffer(ms)
      ensures var p := Partition(ms, r.acked, r.rejected);
        && IdsDiffer(p.unacknowledged) && IdsDiffer(p.rejected)
        && MutationIds(p.acknowledged) !! MutationIds(p.unacknowledged) !! MutationIds(p.rejected)
    {
      PartitionIsExact(ms, r.acked, r.rejected);
      var yes, no := AcknowledgedIds(ms, r.acked), RejectedIds(ms, r.acked, r.rejected);
      HavingDiffers(ms, no);
      HavingDiffers(ms, MutationIds(ms) - yes - no);
    }

    // ---- A run ----

    method HoldBack(ids: set<string>)
      requires storage.Valid()
      modifies storage`queue
      ensures storage.Valid() && storage.queue == Block(old(storage.queue), ids)
    {
      var order := InSomeOrder(ids);
      NothingBlocked(storage.queue);
      for i := 0 to |order|
        invariant storage.Valid()
        invariant storage.queue == Block(old(storage.queue), Names(order[..i]))
      {
        BlockNext(old(storage.queue), order, i);
        hide Block, MarkPending;
        storage.MarkMutationPending(order[i]);
      }
      assert order[..|order|] == order;
      assert Names(order) == ids;
    }

    method ListTables(requested: Option<string>, claimed: seq<Mutation>) returns (tables: seq<string>)
      requires requested.Some? ==> forall m :: m in claimed ==> m.table == requested.value
      ensures Distinct(tables) && forall m :: m in claimed ==> m.table in tables
      ensures requested.Some? ==> tables == [requested.value]
      ensures requested.None? ==> forall t :: t in tables <==> t in memory || exists m :: m in claimed && m.table == t
    {
      if requested.Some? {
        tables := [requested.value];
      } else {
        tables := InSomeOrder(memory.Keys + set m | m in claimed :: m.table);
      }
    }

    method ProcessNext(table: string, batch: seq<Mutation>, transport: Transport, now: int) returns (ok: bool)
      requires Valid() && IdsDiffer(batch)
      modifies this, storage
      ensures Valid()
      ensures (View(), ok) == old(ProcessOne(View(), table, batch, transport(table, RequestFor(View(), table, batch)),
        config, now))
    {
      var ms := OfTable(batch, table);
      OfTableDiffers(batch, table);
      EngineShows(memory, storage.records, storage.cursors, storage.queue, table);
      var cursor := if table in storage.cursors then storage.cursors[table] else None;
      assert RequestFor(View(), table, batch) == Sending(ms, cursor);
      hide EngineOf, ShownIn, Process, Valid, OfTable;
      ok := ProcessTable(table, ms, [], transport(table, Sending(ms, cursor)), now);
    }

    /** The tables of a run; unacked names what is still to be marked if a table failed. */
    method ProcessTables(batch: seq<Mutation>, tables: seq<string>, transport: Transport, now: int)
      returns (failed: set<string>, unacked: set<string>)
      requires Valid() && OneEach(batch) && IdsDiffer(batch) && Distinct(tables)
      requires forall m :: m in batch ==> m.table in tables
      modifies this, storage
      ensures Valid()
      ensures (View(), failed) == ProcessEach(old(View()), tables, batch, transport, config, now)
      ensures unacked == SentTo(batch, failed)
    {
      failed, unacked := {}, MutationIds(batch);
      SentToAll(batch, tables);
      for i := 0 to |tables|
        invariant Valid()
        invariant (View(), failed) == ProcessEach(old(View()), tables[..i], batch, transport, config, now)
        invariant unacked == SentTo(batch, failed + Names(tables[i..]))
      {
        EachNext(old(View()), tables, i, batch, transport, config, now);
        TablesLeft(batch, tables, i, failed);
        hide View, SentTo, ProcessEach, ProcessOne, Valid, OfTable, MutationIds, Names, OneEach, IdsDiffer, Distinct;
        var ok := ProcessNext(tables[i], batch, transport, now);
        if ok {
          unacked := unacked - MutationIds(OfTable(batch, tables[i]));
        } else {
          failed := failed + {tables[i]};
        }
      }
      assert tables[..|tables|] == tables;
      assert failed + Names(tables[|tables|..]) == failed;
    }

    method ClaimBatch(requested: Option<string>, now: int) returns (claimed: seq<Mutation>)
      requires Valid()
      modifies storage`queue
      ensures Valid()
      ensures IsClaim(old(storage.queue), now, CLAIM_LIMIT, requested, claimed)
      ensures View() == old(View()).(queue := QueueAfterClaim(old(storage.queue), claimed))
    {
      hide IsClaim, Block, Claim, BlockedIds, UniqueIds, EngineOf;
      claimed := storage.ListPendingMutations(CLAIM_LIMIT, requested, now);
      HoldBack(BlockedIds(claimed));
      ViewOfQueue(memory, storage.records, storage.cursors, old(storage.queue), storage.queue);
    }

    /** The handler of a failed run: whatever is still unacknowledged fails once more. */
    method FailRest(claimed: seq<Mutation>, batch: seq<Mutation>, failed: set<string>, unacked: set<string>, now: int)
      requires Valid() && IdsDiffer(claimed) && MutationIds(batch) <= MutationIds(claimed)
      requires unacked == SentTo(batch, failed)
      modifies storage`queue
      ensures Valid()
      ensures View() == old(View()).(queue := FailIds(old(storage.queue), SentTo(batch, failed), now))
    {
      StillUnacked(claimed, unacked);
      HavingDiffers(claimed, unacked);
      SentToNone(batch, storage.queue, now);
      assert MutationIds(claimed) * unacked == unacked;
      hide FailIds, SentTo, EngineOf, UniqueIds, IdsDiffer, MutationIds, Having;
      if failed != {} {
        FailMutations(Having(claimed, unacked), now);
      }
      ViewOfQueue(memory, storage.records, storage.cursors, old(storage.queue), storage.queue);
    }

    /** sync: claim, hold back blocked mutations, process the tables, and mark again what a failed
        table left. The tables are taken one by one here; Workers shows that any interleaving of the
        workers leads to the same state. */
    method Run(
      requested: Option<string>, transport: Transport, now: int) returns (claimed: seq<Mutation>, tables: seq<string>)
      requires Valid()
      modifies this, storage
      ensures Valid()
      ensures IsClaim(old(storage.queue), now, CLAIM_LIMIT, requested, claimed)
      ensures Distinct(tables) && forall m :: m in claimed ==> m.table in tables
      ensures requested.Some? ==> tables == [requested.value]
      ensures requested.None? ==>
        forall t :: t in tables <==> t in old(memory) || exists m :: m in claimed && m.table == t
      ensures View() == Runs.Run(old(View()), claimed, tables, transport, config, now)
    {
      claimed := ClaimBatch(requested, now);
      ClaimIsOneEach(old(storage.queue), now, CLAIM_LIMIT, requested, claimed);
      ClaimDiffers(old(storage.queue), now, requested, claimed);
      tables := ListTables(requested, claimed);
      var batch := BatchOf(claimed);
      hide View, BatchOf, BlockedIds, IsClaim, FailIds, QueueAfterClaim, ProcessEach, SentTo,
           IdsDiffer, OneEach, Distinct, Valid, Having, MutationIds;
      if config.concurrency <= 0 {
        FailAll(batch, now);
        return;
      }
      var failed, unacked := ProcessTables(batch, tables, transport, now);
      FailRest(claimed, batch, failed, unacked, now);
    }

    /** A bad concurrency value fails the whole batch before any table is processed. */
    method FailAll(batch: seq<Mutation>, now: int)
      requires Valid() && IdsDiffer(batch)
      modifies storage`queue
      ensures Valid()
      ensures View() == old(View()).(queue := FailIds(old(View()).queue, MutationIds(batch), now))
    {
      hide FailIds, EngineOf, UniqueIds, IdsDiffer, MutationIds;
      FailMutations(batch, now);
      ViewOfQueue(memory, storage.records, storage.cursors, old(storage.queue), storage.queue);
    }

    // ---- What the user decides about rejected mutations ----

    method RetryRejectedMutation(id: string)
      requires Valid()
      modifies storage`queue
      ensures Valid() && View() == old(View()).(queue := RetryRejected(old(View()).queue, id))
      ensures id in storage.queue && old(storage.queue)[id].status == Rejected ==>
        forall now :: now >= 0 ==> Eligible(storage.queue[id], now, None)
    {
      hide EngineOf, UniqueIds;
      storage.RetryRejectedMutation(id);
      ViewOfQueue(memory, storage.records, storage.cursors, old(storage.queue), storage.queue);
    }

    /** The visible record of a discarded mutation stays as it is. */
    method DiscardRejectedMutation(id: string)
      requires Valid()
      modifies storage`queue
      ensures Valid() && View() == old(View()).(queue := DiscardRejected(old(View()).queue, id))
      ensures id in storage.queue <==> id in old(storage.queue) && old(storage.queue)[id].status != Rejected
    {
      hide EngineOf, UniqueIds;
      storage.DiscardRejectedMutation(id);
      ViewOfQueue(memory, storage.records, storage.cursors, old(storage.queue), storage.queue);
    }

    // ---- Local writes ----

    method WriteLocal(m: Mutation, record: Record, next: seq<Record>)
      requires Valid() && UniqueIds(next)
      modifies this, storage
      ensures Valid() && Visible(m.table) == AsTable(next) && memory == old(memory)[m.table := next]
      ensures var e := old(View());
        var write := if m.operation.Delete? then Erase(Id(record), m.timestamp) else Save(record, m.timestamp);
        View() == Runs.Put(e, m.table, TableClient(
          AsTable(next), Apply(ShownAt(e, m.table).rows, write), Enqueue(e.queue, m), ShownAt(e, m.table).cursor))
    {
      hide AsTable, Live, UniqueIds, Apply, Enqueue, Eligible;
      assert View().queue == storage.queue;
      hide EngineOf;
      EngineShows(memory, storage.records, storage.cursors, storage.queue, m.table);
      storage.ApplyMutation(m, record, m.operation.Delete?);
      memory := memory[m.table := next];
      OneTableChanged(old(memory), old(storage.records), old(storage.cursors), old(storage.queue),
                      memory, storage.records, storage.cursors, storage.queue, m.table,
                      ShownIn(memory, storage.records, storage.cursors, m.table));
    }

    /** mutate: one transaction in the store, then the visible records. A bad schema version is refused
        before anything changes. A table that was never opened starts from an empty list, so that the
        stored records are out of sight unless there was nothing else to show. */
    method Mutate(
      table: string, op: Operation, fields: map<string, Json>, fallback: string, generated: string,
      mutationId: string, now: int, schemaVersion: int, dependsOn: seq<string>) returns (recordId: Option<string>)
      requires Valid()
      modifies this, storage
      ensures Valid()
      ensures recordId == if schemaVersion <= 0 then None else Some(RecordIdFor(fields, fallback, generated))
      ensures recordId.Some? ==> GoesTo(fields, fallback, generated, recordId.value)
      ensures schemaVersion <= 0 ==> View() == old(View())
      ensures schemaVersion > 0 ==>
        var c := old(if table in memory then Look(View(), table) else Look(View(), table).(memory := map[]));
        && Performed(c, Look(View(), table),
             Order(table, op, fields, recordId.value, mutationId, now, schemaVersion, dependsOn))
        && forall t :: t != table ==> ShownAt(View(), t) == old(ShownAt(View(), t))
      ensures schemaVersion > 0 ==>
        var c := old(if table in memory then Look(View(), table) else Look(View(), table).(memory := map[]));
        var m := QueuedMutation(table, c.memory, op, fields, recordId.value, mutationId, now, schemaVersion, dependsOn);
        View() == Runs.Put(old(View()), table, AfterLocalWrite(c, op, fields, recordId.value, now, m))
      ensures schemaVersion > 0 ==>
        table in memory && memory == old(memory)[table := memory[table]] &&
        MovedToEnd(old(if table in memory then memory[table] else []), memory[table], recordId.value)
      ensures schemaVersion > 0 ==>
        (Visible(table) == LocalWrite(old(Visible(table)), op, fields, recordId.value) <==>
          old(table in memory) || NothingElse(old(Visible(table)), op, fields, recordId.value))
    {
      if schemaVersion <= 0 {
        return None;
      }
      recordId := Some(RecordIdFor(fields, fallback, generated));
      RecordIdIsNamed(fields, fallback, generated, recordId.value);
      ghost var c := if table in memory then Look(View(), table) else Look(View(), table).(memory := map[]);
      LocalWritePerforms(c, Order(table, op, fields, recordId.value, mutationId, now, schemaVersion, dependsOn));
      ghost var m := QueuedMutation(
        table, c.memory, op, fields, recordId.value, mutationId, now, schemaVersion, dependsOn);
      PutIsLocal(View(), table, AfterLocalWrite(c, op, fields, recordId.value, now, m));
      hide Runs.Put, ShownAt;
      hide View, UniqueIds, QueuedMutation, AfterLocalWrite, LocalWrite, NothingElse, Performed, RecordIdFor, GoesTo,
           MovedToEnd;
      WriteThrough(table, op, fields, recordId.value, mutationId, now, schemaVersion, dependsOn);
    }

    method WriteThrough(
      table: string, op: Operation, fields: map<string, Json>, id: string,
      mutationId: string, now: int, schemaVersion: int, dependsOn: seq<string>)
      requires Valid()
      modifies this, storage
      ensures Valid()
      ensures var c := old(if table in memory then Look(View(), table) else Look(View(), table).(memory := map[]));
        var m := QueuedMutation(table, c.memory, op, fields, id, mutationId, now, schemaVersion, dependsOn);
        View() == Runs.Put(old(View()), table, AfterLocalWrite(c, op, fields, id, now, m))
      ensures Visible(table) == LocalWrite(old(Visible(table)), op, fields, id) <==>
        old(table in memory) || NothingElse(old(Visible(table)), op, fields, id)
      ensures table in memory && memory == old(memory)[table := memory[table]]
      ensures MovedToEnd(old(if table in memory then memory[table] else []), memory[table], id)
    {
      hide MovedToEnd;
      hide View, UniqueIds, QueuedMutation, LocalWrite, NothingElse;
      UnopenedWriteShows(Visible(table), op, fields, id);
      StoreWrite(table, op, fields, id, mutationId, now, schemaVersion, dependsOn);
    }

    method StoreWrite(
      table: string, op: Operation, fields: map<string, Json>, id: string,
      mutationId: string, now: int, schemaVersion: int, dependsOn: seq<string>)
      requires Valid()
      modifies this, storage
      ensures Valid()
      ensures var c := old(if table in memory then Look(View(), table) else Look(View(), table).(memory := map[]));
        var m := QueuedMutation(table, c.memory, op, fields, id, mutationId, now, schemaVersion, dependsOn);
        View() == Runs.Put(old(View()), table, AfterLocalWrite(c, op, fields, id, now, m))
      ensures Visible(table) == LocalWrite(old(if table in memory then Visible(table) else map[]), op, fields, id)
      ensures table in memory && memory == old(memory)[table := memory[table]]
      ensures MovedToEnd(old(if table in memory then memory[table] else []), memory[table], id)
    {
      var existing := if table in memory then memory[table] else [];
      EngineShows(memory, storage.records, storage.cursors, storage.queue, table);
      LocalLists(existing, op, fields, id);
      NextMoves(existing, op, WrittenRecord(First(existing, id), op, fields, id));
      hide MovedToEnd;
      hide AsTable, Live, UniqueIds, EngineOf, QueuedMutation, WrittenRecord, Store.Apply, Enqueue, LocalWrite, First,
           NextRecords;
      var record := WrittenRecord(First(existing, id), op, fields, id);
      var m := QueuedMutation(table, AsTable(existing), op, fields, id, mutationId, now, schemaVersion, dependsOn);
      hide ShownIn;
      WriteLocal(m, record, NextRecords(existing, op, record));
    }
  }

  /** Array.prototype.find by id. */
  function First(rs: seq<Record>, id: string): Option<Record> {
    if rs == [] then None
    else if First(rs[..|rs| - 1], id).Some? then First(rs[..|rs| - 1], id)
    else if Id(rs[|rs| - 1]) == id then Some(rs[|rs| - 1])
    else None
  }

  lemma {:induction false} FirstIsCell(rs: seq<Record>, id: string)
    requires UniqueIds(rs)
    ensures First(rs, id) == Cell(AsTable(rs), id)
  {
    if rs != [] {
      FirstIsCell(rs[..|rs| - 1], id);
      LastIsNew(rs);
    }
  }

  /** The visible list after a local write: the written record moves to the end. */
  function NextRecords(rs: seq<Record>, op: Operation, record: Record): seq<Record> {
    if op.Delete? then Where(rs, {Id(record)}, false) else Where(rs, {Id(record)}, false) + [record]
  }

  lemma KeepsPlaces(rs: seq<Record>, rest: seq<Record>, i: nat, j: nat, a: int, b: int)
    requires InOrderOf(rest, IdsOf(rs)) && i < j < |rest| && At(rs, a, rest[i]) && At(rs, b, rest[j])
    ensures a < b
  {
    assert IdsOf(rs)[a] == Id(rest[i]) && IdsOf(rs)[b] == Id(rest[j]);
  }

  lemma NextMoves(rs: seq<Record>, op: Operation, record: Record)
    requires UniqueIds(rs)
    ensures MovedToEnd(rs, NextRecords(rs, op, record), Id(record))
  {
    var rest := Where(rs, {Id(record)}, false);
    ListedInOrder(rs, IdsOf(rs));
    WhereInOrder(rs, {Id(record)}, false, IdsOf(rs));
    WhereHolds(rs, {Id(record)}, false);
    hide Where, InOrderOf, IdsOf, MovedToEnd, UniqueIds;
    assert forall r :: r in rest ==> Id(r) != Id(record);
    RestMoves(rs, rest, rest, Id(record));
    RestMoves(rs, rest, rest + [record], Id(record));
  }

  lemma RestMoves(rs: seq<Record>, rest: seq<Record>, next: seq<Record>, id: string)
    requires InOrderOf(rest, IdsOf(rs)) && forall r :: r in rest ==> Id(r) != id
    requires next == rest || (|next| == |rest| + 1 && next[..|rest|] == rest && Id(next[|rest|]) == id)
    ensures MovedToEnd(rs, next, id)
  {
    hide InOrderOf, IdsOf, At;
    assert forall i :: 0 <= i < |rest| ==> next[i] == rest[i] && rest[i] in rest;
    forall i, j, a, b | 0 <= i < j < |next| && Id(next[j]) != id && At(rs, a, next[i]) && At(rs, b, next[j])
      ensures a < b
    {
      KeepsPlaces(rs, rest, i, j, a, b);
    }
  }

  lemma LocalLists(rs: seq<Record>, op: Operation, fields: map<string, Json>, id: string)
    requires UniqueIds(rs)
    ensures First(rs, id) == Cell(AsTable(rs), id)
    ensures var next := NextRecords(rs, op, WrittenRecord(First(rs, id), op, fields, id));
      UniqueIds(next) && AsTable(next) == LocalWrite(AsTable(rs), op, fields, id)
  {
    FirstIsCell(rs, id);
    var record := WrittenRecord(First(rs, id), op, fields, id);
    WhereTable(rs, {id}, false);
    WhereHolds(rs, {id}, false);
    hide Where, WrittenRecord, UniqueIds, AsTable;
    AppendUnique(Where(rs, {id}, false), record);
    NextTable(AsTable(rs), op, fields, id);
  }

  lemma NextTable(t: Table, op: Operation, fields: map<string, Json>, id: string)
    ensures LocalWrite(t, op, fields, id) ==
      if op.Delete? then Without(t, {id}) else Without(t, {id})[id := WrittenRecord(Cell(t, id), op, fields, id)]
  {
    hide WrittenRecord;
  }
}
