/** Renaming record ids after the server assigned its own (idMap). */
module Remap {
  import opened Json
  import opened Records
  import opened Store

  /** Everything of one table that mentions record ids. */
  datatype Tabled = Tabled(rows: Rows, queue: Queue, memory: Table)

  type Entry = (string, string)

  /** Moving the value under one key to another; put writes the new id into the value. */
  function RenameKey<T>(m: map<string, T>, from: string, to: string, put: (T, string) -> T): map<string, T> {
    if from in m then (map k | k in m && k != from :: m[k])[to := put(m[from], to)] else m
  }

  function PutRow(row: StoredRow, id: string): StoredRow {
    row.(payload := WithId(row.payload, id))
  }

  function PutRecord(r: Record, id: string): Record {
    WithId(r, id)
  }

  function RenameMemory(t: Table, from: string, to: string): Table {
    RenameKey(t, from, to, PutRecord)
  }

  /** One entry of the loop: a transaction on the store, then the list in memory. None stands for
      the error of a taken target id. */
  function RenameOne(s: Tabled, table: string, e: Entry): Option<Tabled> {
    if e.0 == e.1 then Some(s)
    else
      var rows := RenameRow(s.rows, e.0, e.1);
      if rows.None? then None
      else Some(Tabled(rows.value, RenameQueue(s.queue, table, e.0, e.1), RenameMemory(s.memory, e.0, e.1)))
  }

  function RenameAll(s: Tabled, table: string, entries: seq<Entry>): Option<Tabled> {
    if entries == [] then Some(s)
    else
      var before := RenameAll(s, table, entries[..|entries| - 1]);
      if before.None? then None else RenameOne(before.value, table, entries[|entries| - 1])
  }

  /** The store after the loop, which stops at the first taken target id and keeps what was renamed
      before it. */
  datatype Stored = Stored(rows: Rows, queue: Queue, ok: bool)

  function RenameStored(s: Stored, table: string, entries: seq<Entry>): Stored {
    if entries == [] then s
    else
      var before := RenameStored(s, table, entries[..|entries| - 1]);
      var (from, to) := entries[|entries| - 1];
      if !before.ok || from == to then before
      else
        var rows := RenameRow(before.rows, from, to);
        if rows.None? then before.(ok := false)
        else Stored(rows.value, RenameQueue(before.queue, table, from, to), true)
  }

  lemma StoredNext(s: Stored, table: string, entries: seq<Entry>, i: nat)
    requires i < |entries|
    ensures RenameStored(s, table, entries[..i + 1]) ==
      var before := RenameStored(s, table, entries[..i]);
      var (from, to) := entries[i];
      if !before.ok || from == to then before
      else
        var rows := RenameRow(before.rows, from, to);
        if rows.None? then before.(ok := false)
        else Stored(rows.value, RenameQueue(before.queue, table, from, to), true)
  {
    hide RenameRow, RenameQueue;
    assert entries[..i + 1][..i] == entries[..i];
  }

  lemma {:induction false} FailedStays(s: Stored, table: string, entries: seq<Entry>, i: nat)
    requires i <= |entries| && !RenameStored(s, table, entries[..i]).ok
    ensures RenameStored(s, table, entries) == RenameStored(s, table, entries[..i])
    decreases |entries| - i
  {
    if i == |entries| {
      assert entries[..i] == entries;
    } else {
      StoredNext(s, table, entries, i);
      FailedStays(s, table, entries, i + 1);
    }
  }

  // ---- Reference: one simultaneous renaming ----

  function To(rho: map<string, string>, id: string): string {
    if id in rho then rho[id] else id
  }

  function Renamed<T>(v: T, rho: map<string, string>, id: string, put: (T, string) -> T): T {
    if id in rho then put(v, rho[id]) else v
  }

  ghost predicate Moved<T>(a: map<string, T>, b: map<string, T>, rho: map<string, string>, put: (T, string) -> T) {
    forall id :: id in a ==> To(rho, id) in b && b[To(rho, id)] == Renamed(a[id], rho, id, put)
  }

  ghost predicate Covered<T>(a: map<string, T>, b: map<string, T>, rho: map<string, string>) {
    forall k :: k in b ==> exists id :: id in a && To(rho, id) == k
  }

  /** b holds the values of a under their new keys and nothing else. */
  ghost predicate KeysRenamed<T>(
    a: map<string, T>, b: map<string, T>, rho: map<string, string>, put: (T, string) -> T)
  {
    Moved(a, b, rho, put) && Covered(a, b, rho)
  }

  function MutationRenamed(m: Mutation, table: string, rho: map<string, string>): Mutation {
    if m.table == table then m.(payload := Renamed(m.payload, rho, Id(m.payload), PutRecord)) else m
  }

  ghost predicate QueueRenamed(a: Queue, b: Queue, table: string, rho: map<string, string>) {
    && b.Keys == a.Keys
    && forall k :: k in a ==> b[k] == a[k].(mutation := MutationRenamed(a[k].mutation, table, rho))
  }

  ghost predicate Simultaneous(a: Tabled, b: Tabled, table: string, rho: map<string, string>) {
    && KeysRenamed(a.rows, b.rows, rho, PutRow)
    && KeysRenamed(a.memory, b.memory, rho, PutRecord)
    && QueueRenamed(a.queue, b.queue, table, rho)
  }

  function AsRenaming(entries: seq<Entry>): map<string, string> {
    if entries == [] then map[]
    else
      var e := entries[|entries| - 1];
      var init := AsRenaming(entries[..|entries| - 1]);
      if e.0 == e.1 then init else init[e.0 := e.1]
  }

  ghost predicate Mentions(s: Tabled, table: string, id: string) {
    || id in s.rows
    || id in s.memory
    || exists k :: k in s.queue && s.queue[k].mutation.table == table && Id(s.queue[k].mutation.payload) == id
  }

  /** Proper entries have distinct sources, and targets that are distinct, new to the table and not
      themselves sources. */
  ghost predicate Fresh(s: Tabled, table: string, entries: seq<Entry>) {
    && (forall i, j :: 0 <= i < j < |entries| ==> entries[i].0 != entries[j].0)
    && (forall i, j :: 0 <= i < j < |entries| && Proper(entries[i]) && Proper(entries[j]) ==>
      entries[i].1 != entries[j].1)
    && (forall i, j :: 0 <= i < |entries| && 0 <= j < |entries| && Proper(entries[i]) ==> entries[i].1 != entries[j].0)
    && (forall i :: 0 <= i < |entries| && Proper(entries[i]) ==> !Mentions(s, table, entries[i].1))
  }

  predicate Proper(e: Entry) {
    e.0 != e.1
  }

  lemma {:induction false} AsRenamingHolds(entries: seq<Entry>)
    ensures forall k :: k in AsRenaming(entries) ==>
      exists i :: 0 <= i < |entries| && Proper(entries[i]) && entries[i] == (k, AsRenaming(entries)[k])
  {
    if entries != [] {
      var init := entries[..|entries| - 1];
      AsRenamingHolds(init);
      forall k | k in AsRenaming(entries)
        ensures exists i :: 0 <= i < |entries| && Proper(entries[i]) && entries[i] == (k, AsRenaming(entries)[k])
      {
        var e := entries[|entries| - 1];
        if Proper(e) && e.0 == k {
          assert entries[|entries| - 1] == (k, AsRenaming(entries)[k]);
        } else {
          var i :| 0 <= i < |init| && Proper(init[i]) && init[i] == (k, AsRenaming(init)[k]);
          assert entries[i] == init[i];
        }
      }
    }
  }

  /** One more entry extends a simultaneous renaming. */
  lemma RenameExtends(a: Tabled, b: Tabled, table: string, rho: map<string, string>, e: Entry)
    requires Simultaneous(a, b, table, rho)
    requires Proper(e) && e.0 !in rho
    requires forall k :: k in rho ==> rho[k] != e.0 && rho[k] != e.1
    requires !Mentions(a, table, e.1) && e.1 !in rho
    ensures RenameOne(b, table, e).Some?
    ensures Simultaneous(a, RenameOne(b, table, e).value, table, rho[e.0 := e.1])
  {
    var (from, to) := e;
    KeyExtends(a.rows, b.rows, rho, from, to, PutRow);
    KeyExtends(a.memory, b.memory, rho, from, to, PutRecord);
    NotTaken(a.rows, b.rows, rho, to);
    QueueExtends(a.queue, b.queue, table, rho, from, to);
    assert RenameRow(b.rows, from, to) == Some(RenameKey(b.rows, from, to, PutRow));
  }

  lemma NotTaken<T>(a: map<string, T>, b: map<string, T>, rho: map<string, string>, to: string)
    requires Covered(a, b, rho)
    requires to !in a && forall k :: k in rho ==> rho[k] != to
    ensures to !in b
  {}

  lemma MovedFurther<T>(
    a: map<string, T>, b: map<string, T>, rho: map<string, string>, from: string, to: string, put: (T, string) -> T)
    requires Moved(a, b, rho, put)
    requires from != to && from !in rho && to !in b
    requires forall k :: k in rho ==> rho[k] != from
    ensures Moved(a, RenameKey(b, from, to, put), rho[from := to], put)
  {
    var c := RenameKey(b, from, to, put);
    forall id | id in a
      ensures To(rho[from := to], id) in c && c[To(rho[from := to], id)] == Renamed(a[id], rho[from := to], id, put)
    {
      assert To(rho, id) in b && b[To(rho, id)] == Renamed(a[id], rho, id, put);
    }
  }

  lemma CoveredFurther<T>(
    a: map<string, T>, b: map<string, T>, rho: map<string, string>, from: string, to: string, put: (T, string) -> T)
    requires Covered(a, b, rho) && (from in b ==> from in a)
    requires from != to && from !in rho
    ensures Covered(a, RenameKey(b, from, to, put), rho[from := to])
  {
    forall k | k in RenameKey(b, from, to, put)
      ensures exists id :: id in a && To(rho[from := to], id) == k
    {
      if k == to && from in b {
        assert To(rho[from := to], from) == to;
      } else {
        var id :| id in a && To(rho, id) == k;
        assert To(rho[from := to], id) == k;
      }
    }
  }

  lemma KeyExtends<T>(
    a: map<string, T>, b: map<string, T>, rho: map<string, string>, from: string, to: string, put: (T, string) -> T)
    requires KeysRenamed(a, b, rho, put)
    requires from != to && from !in rho && to !in rho && to !in a
    requires forall k :: k in rho ==> rho[k] != from && rho[k] != to
    ensures KeysRenamed(a, RenameKey(b, from, to, put), rho[from := to], put)
  {
    NotTaken(a, b, rho, to);
    if from !in a {
      NotTaken(a, b, rho, from);
    }
    MovedFurther(a, b, rho, from, to, put);
    CoveredFurther(a, b, rho, from, to, put);
  }

  lemma QueueExtends(a: Queue, b: Queue, table: string, rho: map<string, string>, from: string, to: string)
    requires QueueRenamed(a, b, table, rho)
    requires from != to && from !in rho && to !in rho
    requires forall k :: k in rho ==> rho[k] != from
    ensures QueueRenamed(a, RenameQueue(b, table, from, to), table, rho[from := to])
  {
    forall k | k in a
      ensures RenamePayload(MutationRenamed(a[k].mutation, table, rho), table, from, to)
           == MutationRenamed(a[k].mutation, table, rho[from := to])
    {
      var id := Id(a[k].mutation.payload);
      assert Id(Renamed(a[k].mutation.payload, rho, id, PutRecord)) == To(rho, id);
    }
  }

  /** The loop of transactions never fails and renames everything at once. */
  lemma {:induction false} LoopIsSimultaneous(s: Tabled, table: string, entries: seq<Entry>)
    requires Fresh(s, table, entries)
    ensures RenameAll(s, table, entries).Some?
    ensures Simultaneous(s, RenameAll(s, table, entries).value, table, AsRenaming(entries))
  {
    if entries == [] {
      NothingRenamed(s, table);
    } else {
      hide Simultaneous, RenameMemory, RenameQueue, RenameRow, Mentions;
      var init, e := entries[..|entries| - 1], entries[|entries| - 1];
      assert forall i :: 0 <= i < |init| ==> init[i] == entries[i];
      LoopIsSimultaneous(s, table, init);
      if Proper(e) {
        AsRenamingHolds(init);
        var rho := AsRenaming(init);
        forall k | k in rho
          ensures k != e.0 && k != e.1 && rho[k] != e.0 && rho[k] != e.1
        {
          var i :| 0 <= i < |init| && Proper(init[i]) && init[i] == (k, rho[k]);
          assert entries[i] == (k, rho[k]);
        }
        RenameExtends(s, RenameAll(s, table, init).value, table, rho, e);
      }
    }
  }

  /** While the loop runs, the next target is free. */
  lemma TargetIsFree(s: Tabled, table: string, entries: seq<Entry>, i: nat)
    requires Fresh(s, table, entries) && i < |entries|
    ensures RenameAll(s, table, entries[..i]).Some? && RenameAll(s, table, entries[..i + 1]).Some?
    ensures Proper(entries[i]) ==> entries[i].1 !in RenameAll(s, table, entries[..i]).value.memory
  {
    LoopIsSimultaneous(s, table, entries[..i]);
    LoopIsSimultaneous(s, table, entries[..i + 1]);
    AsRenamingHolds(entries[..i]);
    var rho := AsRenaming(entries[..i]);
    if Proper(entries[i]) {
      forall k | k in rho
        ensures rho[k] != entries[i].1
      {
        var j :| 0 <= j < i && Proper(entries[j]) && entries[j] == (k, rho[k]);
      }
      NotTaken(s.memory, RenameAll(s, table, entries[..i]).value.memory, rho, entries[i].1);
    }
  }

  lemma NothingRenamed(s: Tabled, table: string)
    ensures Simultaneous(s, s, table, map[])
  {
    assert forall id :: id in s.rows ==> To(map[], id) == id;
    assert forall id :: id in s.memory ==> To(map[], id) == id;
  }

  lemma KeysRenamedUnique<T>(
    a: map<string, T>, b: map<string, T>, c: map<string, T>, rho: map<string, string>, put: (T, string) -> T)
    requires KeysRenamed(a, b, rho, put) && KeysRenamed(a, c, rho, put)
    ensures b == c
  {
    forall k
      ensures k in b <==> k in c
      ensures k in b && k in c ==> b[k] == c[k]
    {
      if k in b {
        var id :| id in a && To(rho, id) == k;
      }
    }
  }

  lemma RenamingIsUnique(s: Tabled, a: Tabled, b: Tabled, table: string, rho: map<string, string>)
    requires Simultaneous(s, a, table, rho) && Simultaneous(s, b, table, rho)
    ensures a == b
  {
    KeysRenamedUnique(s.rows, a.rows, b.rows, rho, PutRow);
    KeysRenamedUnique(s.memory, a.memory, b.memory, rho, PutRecord);
    assert a.queue == b.queue;
  }

  /** The order in which the entries are visited does not matter. */
  lemma EntryOrderIsIrrelevant(s: Tabled, table: string, entries: seq<Entry>, others: seq<Entry>)
    requires Fresh(s, table, entries) && Fresh(s, table, others)
    requires AsRenaming(entries) == AsRenaming(others)
    ensures RenameAll(s, table, entries) == RenameAll(s, table, others)
  {
    LoopIsSimultaneous(s, table, entries);
    LoopIsSimultaneous(s, table, others);
    RenamingIsUnique(
      s, RenameAll(s, table, entries).value, RenameAll(s, table, others).value, table, AsRenaming(entries));
  }

  /** Memory that agreed with the live rows still does. */
  lemma RemapKeepsAgreement(s: Tabled, table: string, entries: seq<Entry>)
    requires Fresh(s, table, entries) && Live(s.rows) == s.memory
    ensures RenameAll(s, table, entries).Some?
    ensures Live(RenameAll(s, table, entries).value.rows) == RenameAll(s, table, entries).value.memory
  {
    LoopIsSimultaneous(s, table, entries);
    var rho := AsRenaming(entries);
    var t := RenameAll(s, table, entries).value;
    LiveRenamed(s, t, rho);
    KeysRenamedUnique(s.memory, Live(t.rows), t.memory, rho, PutRecord);
  }

  lemma LiveMoved(s: Tabled, t: Tabled, rho: map<string, string>)
    requires Moved(s.rows, t.rows, rho, PutRow)
    ensures Moved(Live(s.rows), Live(t.rows), rho, PutRecord)
  {}

  lemma LiveRenamed(s: Tabled, t: Tabled, rho: map<string, string>)
    requires KeysRenamed(s.rows, t.rows, rho, PutRow)
    ensures KeysRenamed(Live(s.rows), Live(t.rows), rho, PutRecord)
  {
    LiveMoved(s, t, rho);
    forall k | k in Live(t.rows)
      ensures exists id :: id in Live(s.rows) && To(rho, id) == k
    {
      var id :| id in s.rows && To(rho, id) == k;
      assert t.rows[k] == Renamed(s.rows[id], rho, id, PutRow);
      assert id in Live(s.rows);
    }
  }
}
