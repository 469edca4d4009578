/** Responses that also rename records (idMap): the rest of the response acts on the renamed table. */
module IdMaps {
  import opened Json
  import opened Records
  import opened Merge
  import opened MergeLaws
  import opened MergePicks
  import opened StateMachine
  import opened Store
  import opened Settlement
  import opened Client
  import opened ClientLaws
  import opened Remap

  /** The list in memory after the loop. */
  function RenameTable(t: Table, entries: seq<Entry>): Table {
    if entries == [] then t
    else
      var before := RenameTable(t, entries[..|entries| - 1]);
      var (from, to) := entries[|entries| - 1];
      if from == to then before else RenameMemory(before, from, to)
  }

  /** No record is renamed to an id that the table shows at that time. */
  ghost predicate Roomy(t: Table, entries: seq<Entry>) {
    forall i :: 0 <= i < |entries| && Proper(entries[i]) ==>
      var (from, to), before := entries[i], RenameTable(t, entries[..i]);
      from in before ==> to !in before
  }

  /** processTable with an idMap. A taken target id ends it like any other error, but what was renamed
      before stays renamed in the store. The sent mutations ms keep the ids they were sent with. */
  function ProcessMapped(
    c: TableClient, table: string, ms: seq<Mutation>, entries: seq<Entry>, outcome: Outcome, strategy: Strategy,
    schemaVersion: int, now: int): (TableClient, bool)
  {
    if outcome.TransportError? then Process(c, ms, outcome, strategy, schemaVersion, now)
    else
      var s := RenameStored(Stored(c.rows, c.queue, true), table, entries);
      if !s.ok then (c.(rows := s.rows, queue := FailIds(s.queue, MutationIds(ms), now)), false)
      else
        var renamed := c.(memory := RenameTable(c.memory, entries), rows := s.rows, queue := s.queue);
        Process(renamed, ms, outcome, strategy, schemaVersion, now)
  }

  // ---- Fresh targets ----

  lemma {:induction false} FreshStored(before: Tabled, table: string, entries: seq<Entry>)
    requires Fresh(before, table, entries)
    ensures var stored := RenameStored(Stored(before.rows, before.queue, true), table, entries);
      && stored.ok
      && RenameAll(before, table, entries)
           == Some(Tabled(stored.rows, stored.queue, RenameTable(before.memory, entries)))
  {
    if entries != [] {
      var init, i := entries[..|entries| - 1], |entries| - 1;
      assert entries[..i + 1] == entries;
      assert forall k :: 0 <= k < |init| ==> init[k] == entries[k];
      FreshStored(before, table, init);
      TargetIsFree(before, table, entries, i);
      hide RenameRow, RenameQueue, Fresh, RenameMemory;
    }
  }

  lemma FreshIsRoomy(before: Tabled, table: string, entries: seq<Entry>)
    requires Fresh(before, table, entries)
    ensures Roomy(before.memory, entries)
  {
    forall i | 0 <= i < |entries| && Proper(entries[i])
      ensures entries[i].1 !in RenameTable(before.memory, entries[..i])
    {
      FreshStored(before, table, entries[..i]);
      TargetIsFree(before, table, entries, i);
    }
  }

  /** With fresh targets, receiving a response with an idMap is receiving it without one after a single
      simultaneous renaming of rows, queue and memory. */
  lemma FreshMapped(
    c: TableClient, table: string, ms: seq<Mutation>, entries: seq<Entry>, outcome: Outcome, strategy: Strategy,
    schemaVersion: int, now: int)
    requires outcome.Answered? && Fresh(Tabled(c.rows, c.queue, c.memory), table, entries)
    ensures var before := Tabled(c.rows, c.queue, c.memory);
      RenameAll(before, table, entries).Some? &&
      var t := RenameAll(before, table, entries).value;
      && Simultaneous(before, t, table, AsRenaming(entries))
      && ProcessMapped(c, table, ms, entries, outcome, strategy, schemaVersion, now)
           == Process(TableClient(t.memory, t.rows, t.queue, c.cursor), ms, outcome, strategy, schemaVersion, now)
  {
    var before := Tabled(c.rows, c.queue, c.memory);
    FreshStored(before, table, entries);
    LoopIsSimultaneous(before, table, entries);
    hide Process, Simultaneous, RenameStored, RenameAll, RenameTable, Fresh;
  }

  lemma RoomyNext(t: Table, entries: seq<Entry>)
    requires entries != [] && Roomy(t, entries[..|entries| - 1])
    requires var (from, to), before := entries[|entries| - 1], RenameTable(t, entries[..|entries| - 1]);
      from != to && from in before ==> to !in before
    ensures Roomy(t, entries)
  {
    hide RenameTable;
    var init := entries[..|entries| - 1];
    assert forall i :: 0 <= i < |init| ==> init[i] == entries[i] && init[..i] == entries[..i];
  }

  /** Where memory shows the stored live rows, every loop that succeeds finds room and keeps it so. */
  lemma {:induction false} AgreementIsRoomy(s: Stored, table: string, memory: Table, entries: seq<Entry>)
    requires Live(s.rows) == memory && RenameStored(s, table, entries).ok
    ensures Roomy(memory, entries)
    ensures Live(RenameStored(s, table, entries).rows) == RenameTable(memory, entries)
  {
    if entries != [] {
      var init := entries[..|entries| - 1];
      var (from, to) := entries[|entries| - 1];
      AgreementIsRoomy(s, table, memory, init);
      hide RenameQueue, Live, RenameRow, RenameMemory, Roomy;
      if from != to {
        RowRename(RenameStored(s, table, init).rows, from, to);
      }
      RoomyNext(memory, entries);
    }
  }

  lemma RowRename(rows: Rows, from: string, to: string)
    requires from != to && RenameRow(rows, from, to).Some?
    ensures from in Live(rows) ==> to !in Live(rows)
    ensures Live(RenameRow(rows, from, to).value) == RenameMemory(Live(rows), from, to)
  {
    hide WithId;
  }

  // ---- When the loop fails, and what it then leaves ----

  /** The stored ids after the first n entries, as long as none of them fails. */
  function KeysAfter(keys: set<string>, entries: seq<Entry>, n: nat): set<string>
    requires n <= |entries|
  {
    if n == 0 then keys
    else
      var before, (from, to) := KeysAfter(keys, entries, n - 1), entries[n - 1];
      if from != to && from in before then before - {from} + {to} else before
  }

  /** Entry i would move a stored row to an id that is stored at that time. */
  predicate Taken(keys: set<string>, entries: seq<Entry>, i: nat)
    requires i < |entries|
  {
    Proper(entries[i]) && {entries[i].0, entries[i].1} <= KeysAfter(keys, entries, i)
  }

  ghost predicate Clear(keys: set<string>, entries: seq<Entry>, n: nat)
    requires n <= |entries|
  {
    forall i :: 0 <= i < n ==> !Taken(keys, entries, i)
  }

  lemma {:induction false} StoredKeys(s: Stored, table: string, entries: seq<Entry>, n: nat)
    requires s.ok && n <= |entries| && Clear(s.rows.Keys, entries, n)
    ensures var out := RenameStored(s, table, entries[..n]);
      out.ok && out.rows.Keys == KeysAfter(s.rows.Keys, entries, n)
  {
    if n > 0 {
      StoredKeys(s, table, entries, n - 1);
      StoredNext(s, table, entries, n - 1);
      assert !Taken(s.rows.Keys, entries, n - 1);
      hide RenameStored, RenameQueue, Clear;
    }
  }

  /** With all entries before it clear, an entry fails exactly if its target is taken. */
  lemma NextFails(s: Stored, table: string, entries: seq<Entry>, n: nat)
    requires s.ok && n < |entries| && Clear(s.rows.Keys, entries, n)
    ensures var before, after := RenameStored(s, table, entries[..n]), RenameStored(s, table, entries[..n + 1]);
      && (after.ok <==> !Taken(s.rows.Keys, entries, n))
      && (!after.ok ==> after == before.(ok := false))
  {
    StoredKeys(s, table, entries, n);
    StoredNext(s, table, entries, n);
    hide RenameStored, RenameQueue, KeysAfter;
  }

  ghost predicate FirstTaken(keys: set<string>, entries: seq<Entry>, i: nat)
    requires i < |entries|
  {
    Taken(keys, entries, i) && Clear(keys, entries, i)
  }

  lemma {:induction false} SomeFirst(keys: set<string>, entries: seq<Entry>, n: nat) returns (i: nat)
    requires n <= |entries| && !Clear(keys, entries, n)
    ensures i < n && FirstTaken(keys, entries, i)
  {
    if Clear(keys, entries, n - 1) {
      i := n - 1;
    } else {
      i := SomeFirst(keys, entries, n - 1);
    }
  }

  /** The loop fails exactly if some target is taken, and then leaves the store as the entries before
      the first taken one made it. */
  lemma RenamingFailsIff(s: Stored, table: string, entries: seq<Entry>)
    requires s.ok
    ensures RenameStored(s, table, entries).ok <==> Clear(s.rows.Keys, entries, |entries|)
    ensures forall i :: 0 <= i < |entries| && FirstTaken(s.rows.Keys, entries, i) ==>
      RenameStored(s, table, entries) == RenameStored(s, table, entries[..i]).(ok := false)
  {
    if Clear(s.rows.Keys, entries, |entries|) {
      StoredKeys(s, table, entries, |entries|);
      assert entries[..|entries|] == entries;
    } else {
      var i := SomeFirst(s.rows.Keys, entries, |entries|);
      StopsAt(s, table, entries, i);
    }
    forall i | 0 <= i < |entries| && FirstTaken(s.rows.Keys, entries, i)
      ensures RenameStored(s, table, entries) == RenameStored(s, table, entries[..i]).(ok := false)
    {
      StopsAt(s, table, entries, i);
    }
  }

  /** A taken target ends the table like any other error: what is shown and the cursor stay, every sent
      mutation is FAILED once more, and the store is as the entries before it left it. */
  lemma TakenTargetFails(
    c: TableClient, table: string, ms: seq<Mutation>, entries: seq<Entry>, outcome: Outcome, strategy: Strategy,
    schemaVersion: int, now: int, i: nat)
    requires outcome.Answered? && i < |entries| && FirstTaken(c.rows.Keys, entries, i)
    ensures var (d, ok) := ProcessMapped(c, table, ms, entries, outcome, strategy, schemaVersion, now);
      var before := RenameStored(Stored(c.rows, c.queue, true), table, entries[..i]);
      && !ok && d.memory == c.memory && d.cursor == c.cursor && d.rows == before.rows
      && d.queue.Keys == before.queue.Keys
      && forall id :: id in d.queue ==>
           if exists m :: m in ms && m.id == id
           then d.queue[id].status == Failed && d.queue[id].retryCount == before.queue[id].retryCount + 1
             && d.queue[id].mutation == before.queue[id].mutation
           else d.queue[id] == before.queue[id]
  {
    StopsAt(Stored(c.rows, c.queue, true), table, entries, i);
    hide RenameStored, Process, Clock, RetryDelay;
  }

  lemma StopsAt(s: Stored, table: string, entries: seq<Entry>, i: nat)
    requires s.ok && i < |entries| && FirstTaken(s.rows.Keys, entries, i)
    ensures RenameStored(s, table, entries) == RenameStored(s, table, entries[..i]).(ok := false)
  {
    NextFails(s, table, entries, i);
    hide RenameStored;
    FailedStays(s, table, entries, i + 1);
  }

  /** The id is that of the payload of a queued mutation of the table. */
  ghost predicate Queued(q: Queue, table: string, id: string) {
    exists k :: k in q && q[k].mutation.table == table && Id(q[k].mutation.payload) == id
  }

  /** Something of the table has the id. */
  ghost predicate Knows(s: Stored, table: string, id: string) {
    id in s.rows || Queued(s.queue, table, id)
  }

  /** Where an id is after the first n entries. */
  function Followed(id: string, entries: seq<Entry>, n: nat): string
    requires n <= |entries|
  {
    if n == 0 then id
    else
      var before := Followed(id, entries, n - 1);
      if before == entries[n - 1].0 then entries[n - 1].1 else before
  }

  /** The row of an id after the first n entries: a row that moves gets its new id. */
  function Carried(id: string, row: StoredRow, entries: seq<Entry>, n: nat): StoredRow
    requires n <= |entries|
  {
    if n == 0 then row
    else
      var before, (from, to) := Carried(id, row, entries, n - 1), entries[n - 1];
      if from != to && Followed(id, entries, n - 1) == from then PutRow(before, to) else before
  }

  /** Every row of s is among rows under the id, and with the content, that the entries gave it. */
  ghost predicate Arrived(s: Stored, rows: Rows, entries: seq<Entry>, n: nat)
    requires n <= |entries|
  {
    forall k :: k in s.rows ==>
      Followed(k, entries, n) in rows && rows[Followed(k, entries, n)] == Carried(k, s.rows[k], entries, n)
  }

  /** Followed through the first n entries, every row arrives where a row like it was stored and every
      queued payload of the table keeps its id: all unmoved, or moved in a circle. */
  ghost predicate Restored(s: Stored, table: string, entries: seq<Entry>, n: nat)
    requires n <= |entries|
  {
    && Arrived(s, s.rows, entries, n)
    && (forall k :: k in s.queue && s.queue[k].mutation.table == table ==>
          Followed(Id(s.queue[k].mutation.payload), entries, n) == Id(s.queue[k].mutation.payload))
  }

  lemma RowMoves(rows: Rows, from: string, to: string, k: string)
    requires from != to && RenameRow(rows, from, to).Some? && k in rows
    ensures var after := RenameRow(rows, from, to).value;
      if k == from then to in after && after[to] == PutRow(rows[k], to) else k in after && after[k] == rows[k]
  {
    hide WithId;
  }

  lemma RowComes(rows: Rows, from: string, to: string, k: string)
    requires from != to && RenameRow(rows, from, to).Some? && k in RenameRow(rows, from, to).value
    ensures k != from && (k in rows || (k == to && from in rows))
  {
    hide WithId;
  }

  ghost predicate Departed(s: Stored, rows: Rows, entries: seq<Entry>, n: nat)
    requires n <= |entries|
  {
    forall k :: k in rows ==> exists from :: from in s.rows && Followed(from, entries, n) == k
  }

  lemma {:induction false} RowsArrive(s: Stored, table: string, entries: seq<Entry>, n: nat)
    requires s.ok && n <= |entries| && Clear(s.rows.Keys, entries, n)
    ensures Arrived(s, RenameStored(s, table, entries[..n]).rows, entries, n)
  {
    if n > 0 {
      RowsArrive(s, table, entries, n - 1);
      NextFails(s, table, entries, n - 1);
      StoredKeys(s, table, entries, n);
      StoredNext(s, table, entries, n - 1);
      hide RenameStored, RenameQueue, RenameRow, Clear, Taken, PutRow, KeysAfter;
      var before := RenameStored(s, table, entries[..n - 1]).rows;
      forall k | k in s.rows && Proper(entries[n - 1])
        ensures Followed(k, entries, n) in RenameStored(s, table, entries[..n]).rows
        ensures RenameStored(s, table, entries[..n]).rows[Followed(k, entries, n)] == Carried(k, s.rows[k], entries, n)
      {
        RowMoves(before, entries[n - 1].0, entries[n - 1].1, Followed(k, entries, n - 1));
      }
    }
  }

  lemma {:induction false} RowsDepart(s: Stored, table: string, entries: seq<Entry>, n: nat)
    requires s.ok && n <= |entries| && Clear(s.rows.Keys, entries, n)
    ensures Departed(s, RenameStored(s, table, entries[..n]).rows, entries, n)
  {
    if n == 0 {
      forall k | k in s.rows
        ensures exists from :: from in s.rows && Followed(from, entries, 0) == k
      {
        assert Followed(k, entries, 0) == k;
      }
    } else {
      RowsDepart(s, table, entries, n - 1);
      NextFails(s, table, entries, n - 1);
      StoredKeys(s, table, entries, n);
      StoredNext(s, table, entries, n - 1);
      hide RenameStored, RenameQueue, RenameRow, Clear, Taken, KeysAfter;
      var before, after := RenameStored(s, table, entries[..n - 1]).rows, RenameStored(s, table, entries[..n]).rows;
      forall k | k in after
        ensures exists from :: from in s.rows && Followed(from, entries, n) == k
      {
        if Proper(entries[n - 1]) {
          RowComes(before, entries[n - 1].0, entries[n - 1].1, k);
        }
        var source := if k in before then k else entries[n - 1].0;
        var from :| from in s.rows && Followed(from, entries, n - 1) == source;
        assert Followed(from, entries, n) == k;
      }
    }
  }

  lemma SameId(r: Record)
    ensures WithId(r, Id(r)) == r
  {
    assert r.fields["id" := Str(Id(r))] == r.fields;
  }

  lemma LastId(r: Record, a: string, b: string)
    ensures WithId(WithId(r, a), b) == WithId(r, b)
  {
    assert r.fields["id" := Str(a)]["id" := Str(b)] == r.fields["id" := Str(b)];
  }

  function FollowedMutation(m: Mutation, table: string, entries: seq<Entry>, n: nat): Mutation
    requires n <= |entries|
  {
    if m.table == table then m.(payload := WithId(m.payload, Followed(Id(m.payload), entries, n))) else m
  }

  lemma {:induction false} QueueFollowed(s: Stored, table: string, entries: seq<Entry>, n: nat)
    requires s.ok && n <= |entries| && Clear(s.rows.Keys, entries, n)
    ensures var q := RenameStored(s, table, entries[..n]).queue;
      && q.Keys == s.queue.Keys
      && forall k :: k in q ==>
           q[k] == s.queue[k].(mutation := FollowedMutation(s.queue[k].mutation, table, entries, n))
  {
    if n == 0 {
      forall k | k in s.queue
        ensures FollowedMutation(s.queue[k].mutation, table, entries, 0) == s.queue[k].mutation
      {
        SameId(s.queue[k].mutation.payload);
      }
    } else {
      QueueFollowed(s, table, entries, n - 1);
      NextFails(s, table, entries, n - 1);
      StoredNext(s, table, entries, n - 1);
      hide RenameStored, RenameRow, Clear, Taken, WithId;
      forall k | k in s.queue
        ensures RenamePayload(FollowedMutation(s.queue[k].mutation, table, entries, n - 1), table, entries[n - 1].0,
                              entries[n - 1].1)
             == FollowedMutation(s.queue[k].mutation, table, entries, n)
      {
        var m := s.queue[k].mutation;
        LastId(m.payload, Followed(Id(m.payload), entries, n - 1), entries[n - 1].1);
      }
    }
  }

  lemma {:induction false} KeysStay(keys: set<string>, entries: seq<Entry>, n: nat)
    requires n <= |entries| && Clear(keys, entries, n)
    ensures |KeysAfter(keys, entries, n)| == |keys|
  {
    if n > 0 {
      KeysStay(keys, entries, n - 1);
      assert !Taken(keys, entries, n - 1);
    }
  }

  lemma SameSize(a: set<string>, b: set<string>)
    requires a <= b && |a| == |b|
    ensures a == b
  {
    assert b == a + (b - a);
    assert |b - a| == 0;
  }

  lemma ArrivedAt(s: Stored, rows: Rows, entries: seq<Entry>, n: nat, k: string)
    requires n <= |entries| && Arrived(s, rows, entries, n) && k in s.rows
    ensures Followed(k, entries, n) in rows && rows[Followed(k, entries, n)] == Carried(k, s.rows[k], entries, n)
  {}

  lemma DepartedAt(s: Stored, rows: Rows, entries: seq<Entry>, n: nat, k: string) returns (from: string)
    requires n <= |entries| && Departed(s, rows, entries, n) && k in rows
    ensures from in s.rows && Followed(from, entries, n) == k
  {
    hide Followed;
    from :| from in s.rows && Followed(from, entries, n) == k;
  }

  lemma RowsRestoredIff(s: Stored, rows: Rows, entries: seq<Entry>, n: nat)
    requires n <= |entries| && |rows| == |s.rows| && Arrived(s, rows, entries, n) && Departed(s, rows, entries, n)
    ensures rows == s.rows <==> Arrived(s, s.rows, entries, n)
  {
    hide Followed, Carried, Arrived, Departed;
    if Arrived(s, s.rows, entries, n) {
      forall k | k in rows
        ensures k in s.rows && rows[k] == s.rows[k]
      {
        var from := DepartedAt(s, rows, entries, n, k);
        ArrivedAt(s, rows, entries, n, from);
        ArrivedAt(s, s.rows, entries, n, from);
      }
      assert |rows| == |rows.Keys| && |s.rows| == |s.rows.Keys|;
      SameSize(rows.Keys, s.rows.Keys);
      assert rows == s.rows;
    }
  }

  lemma QueueRestoredIff(q: Queue, q': Queue, table: string, entries: seq<Entry>, n: nat)
    requires n <= |entries| && q'.Keys == q.Keys
    requires forall k :: k in q' ==> q'[k] == q[k].(mutation := FollowedMutation(q[k].mutation, table, entries, n))
    ensures q' == q <==>
      forall k :: k in q && q[k].mutation.table == table ==>
        Followed(Id(q[k].mutation.payload), entries, n) == Id(q[k].mutation.payload)
  {
    hide Followed, WithId;
    forall k | k in q
      ensures q'[k] == q[k] <==> (q[k].mutation.table == table ==>
                Followed(Id(q[k].mutation.payload), entries, n) == Id(q[k].mutation.payload))
    {
      SameId(q[k].mutation.payload);
    }
    if forall k :: k in q ==> q'[k] == q[k] {
      assert q' == q;
    }
  }

  /** As long as no target is taken, the store is as it was exactly if all is restored. */
  lemma RestoredIff(s: Stored, table: string, entries: seq<Entry>, n: nat)
    requires s.ok && n <= |entries| && Clear(s.rows.Keys, entries, n)
    ensures RenameStored(s, table, entries[..n]) == s <==> Restored(s, table, entries, n)
  {
    var out := RenameStored(s, table, entries[..n]);
    StoredKeys(s, table, entries, n);
    RowsArrive(s, table, entries, n);
    RowsDepart(s, table, entries, n);
    QueueFollowed(s, table, entries, n);
    KeysStay(s.rows.Keys, entries, n);
    hide RenameStored, KeysAfter, Followed, Carried, Clear, FollowedMutation, Arrived, Departed;
    assert |out.rows| == |out.rows.Keys| && |s.rows| == |s.rows.Keys|;
    RowsRestoredIff(s, out.rows, entries, n);
    QueueRestoredIff(s.queue, out.queue, table, entries, n);
  }

  /** A renaming is all or nothing exactly if no target is taken or the entries before the first taken
      one restore what they moved. */
  lemma RenamingIsAtomicIff(s: Stored, table: string, entries: seq<Entry>)
    requires s.ok
    ensures var out := RenameStored(s, table, entries);
      out.ok || out.(ok := true) == s <==>
      forall i :: 0 <= i < |entries| && FirstTaken(s.rows.Keys, entries, i) ==> Restored(s, table, entries, i)
  {
    RenamingFailsIff(s, table, entries);
    hide RenameStored, Restored, Taken;
    forall i | 0 <= i < |entries| && FirstTaken(s.rows.Keys, entries, i)
      ensures RenameStored(s, table, entries[..i]).ok
      ensures RenameStored(s, table, entries[..i]) == s <==> Restored(s, table, entries, i)
    {
      StoredKeys(s, table, entries, i);
      RestoredIff(s, table, entries, i);
    }
    if !Clear(s.rows.Keys, entries, |entries|) {
      var i := SomeFirst(s.rows.Keys, entries, |entries|);
      OnlyFirst(s.rows.Keys, entries, i);
    }
  }

  lemma OnlyFirst(keys: set<string>, entries: seq<Entry>, i: nat)
    requires i < |entries| && FirstTaken(keys, entries, i)
    ensures forall j :: 0 <= j < |entries| && FirstTaken(keys, entries, j) ==> j == i
  {
    hide Taken;
  }

  // ---- Where no target is a source ----

  /** As an object has it and as the server's ids are meant: sources differ, and no target is a source. */
  ghost predicate OneWay(entries: seq<Entry>) {
    && (forall i, j :: 0 <= i < j < |entries| ==> entries[i].0 != entries[j].0)
    && (forall i, j :: 0 <= i < |entries| && 0 <= j < |entries| && Proper(entries[i]) && Proper(entries[j]) ==>
          entries[i].1 != entries[j].0)
  }

  lemma {:induction false} LeavesForGood(entries: seq<Entry>, j: nat, n: nat)
    requires OneWay(entries) && j < n <= |entries| && Proper(entries[j])
    ensures Followed(entries[j].0, entries, n) == entries[j].1
  {
    if j == n - 1 {
      StaysUntil(entries[j].0, entries, j);
    } else {
      LeavesForGood(entries, j, n - 1);
    }
  }

  lemma {:induction false} StaysUntil(id: string, entries: seq<Entry>, n: nat)
    requires n <= |entries| && forall j :: 0 <= j < n && Proper(entries[j]) ==> entries[j].0 != id
    ensures Followed(id, entries, n) == id
    ensures forall row :: Carried(id, row, entries, n) == row
  {
    if n > 0 {
      StaysUntil(id, entries, n - 1);
    }
  }

  lemma {:induction false} SourceIsGone(keys: set<string>, entries: seq<Entry>, j: nat, n: nat)
    requires OneWay(entries) && j < n <= |entries| && Proper(entries[j])
    ensures entries[j].0 !in KeysAfter(keys, entries, n)
  {
    if j < n - 1 {
      SourceIsGone(keys, entries, j, n - 1);
    }
  }

  /** There nothing that was moved comes back: all is restored exactly if nothing was named. */
  lemma OneWayRestoresNothing(s: Stored, table: string, entries: seq<Entry>, n: nat)
    requires OneWay(entries) && s.ok && n <= |entries| && Clear(s.rows.Keys, entries, n)
    ensures Restored(s, table, entries, n) <==>
      forall j :: 0 <= j < n && Proper(entries[j]) ==> !Knows(s, table, entries[j].0)
  {
    RestoredIff(s, table, entries, n);
    StoredKeys(s, table, entries, n);
    hide RenameStored, KeysAfter, Clear, Followed, Carried;
    if forall j :: 0 <= j < n && Proper(entries[j]) ==> !Knows(s, table, entries[j].0) {
      forall k | Knows(s, table, k)
        ensures Followed(k, entries, n) == k && forall row :: Carried(k, row, entries, n) == row
      {
        StaysUntil(k, entries, n);
      }
      assert forall k :: k in s.rows ==> Knows(s, table, k);
      assert forall k :: k in s.queue && s.queue[k].mutation.table == table ==>
        Knows(s, table, Id(s.queue[k].mutation.payload));
    } else {
      var j :| 0 <= j < n && Proper(entries[j]) && Knows(s, table, entries[j].0);
      SourceIsGone(s.rows.Keys, entries, j, n);
      LeavesForGood(entries, j, n);
    }
  }

  /** It is not always all or nothing: the first of two entries renames, the second finds its target
      taken. */
  lemma HalfRenamed(row: StoredRow, table: string)
    ensures var s := Stored(map["a" := row, "c" := row, "d" := row], map[], true);
      var out := RenameStored(s, table, [("a", "b"), ("c", "d")]);
      !out.ok && "a" !in out.rows && "b" in out.rows
  {
    var s, entries := Stored(map["a" := row, "c" := row, "d" := row], map[], true), [("a", "b"), ("c", "d")];
    StoredNext(s, table, entries, 0);
    StoredNext(s, table, entries, 1);
    assert entries[..0] == [] && entries[..2] == entries;
  }

  // ---- Outstanding writes to a renamed record ----

  lemma {:induction false} EntryRenames(entries: seq<Entry>, i: nat)
    requires OneWay(entries) && i < |entries| && Proper(entries[i])
    ensures entries[i].0 in AsRenaming(entries) && AsRenaming(entries)[entries[i].0] == entries[i].1
    decreases |entries|
  {
    var init := entries[..|entries| - 1];
    if i < |entries| - 1 {
      assert forall j :: 0 <= j < |init| ==> init[j] == entries[j];
      EntryRenames(init, i);
    }
  }

  lemma OnlySource(entries: seq<Entry>, i: nat)
    requires OneWay(entries) && i < |entries| && Proper(entries[i])
    requires forall j, k :: 0 <= j < k < |entries| && Proper(entries[j]) && Proper(entries[k]) ==>
               entries[j].1 != entries[k].1
    ensures var rho := AsRenaming(entries);
      forall id :: id in rho ==> rho[id] != entries[i].0 && (rho[id] == entries[i].1 ==> id == entries[i].0)
  {
    AsRenamingHolds(entries);
    var rho := AsRenaming(entries);
    hide AsRenaming;
    forall id | id in rho
      ensures rho[id] != entries[i].0 && (rho[id] == entries[i].1 ==> id == entries[i].0)
    {
      var j :| 0 <= j < |entries| && Proper(entries[j]) && entries[j] == (id, rho[id]);
    }
  }

  lemma MovedKey<T>(
    a: map<string, T>, b: map<string, T>, rho: map<string, string>, from: string, to: string, put: (T, string) -> T)
    requires KeysRenamed(a, b, rho, put) && from in rho && rho[from] == to && to !in a && to !in rho
    requires forall id :: id in rho ==> rho[id] != from && (rho[id] == to ==> id == from)
    ensures from !in b && (to in b <==> from in a)
    ensures from in a ==> b[to] == put(a[from], to)
  {
    if from in a {
      assert To(rho, from) == to;
    }
  }

  /** Record and row leave the old id for the new one. */
  lemma RenamedCells(s: Tabled, table: string, entries: seq<Entry>, i: nat)
    requires Fresh(s, table, entries) && i < |entries| && Proper(entries[i])
    ensures var t, (from, to) := RenameTable(s.memory, entries), entries[i];
      && from !in t
      && Cell(t, to) == if from in s.memory then Some(WithId(s.memory[from], to)) else None
    ensures var rows, (from, to) := RenameStored(Stored(s.rows, s.queue, true), table, entries).rows, entries[i];
      to in rows ==> from in s.rows && rows[to] == PutRow(s.rows[from], to)
  {
    FreshStored(s, table, entries);
    LoopIsSimultaneous(s, table, entries);
    EntryRenames(entries, i);
    OnlySource(entries, i);
    AsRenamingHolds(entries);
    var rho := AsRenaming(entries);
    hide RenameTable, AsRenaming, RenameStored, RenameAll, KeysRenamed, WithId;
    assert !Mentions(s, table, entries[i].1);
    MovedKey(s.memory, RenameTable(s.memory, entries), rho, entries[i].0, entries[i].1, PutRecord);
    MovedKey(s.rows, RenameStored(Stored(s.rows, s.queue, true), table, entries).rows, rho, entries[i].0,
             entries[i].1, PutRow);
  }

  /** The sent mutations are rows of the queue for this table. */
  ghost predicate FromQueue(q: Queue, table: string, ms: seq<Mutation>) {
    forall d :: d in ms ==> d.table == table && d.id in q && q[d.id].mutation == d
  }

  lemma {:induction false} RenamedIsKeyed(t: Table, entries: seq<Entry>)
    requires Keyed(t)
    ensures Keyed(RenameTable(t, entries))
  {
    if entries != [] {
      RenamedIsKeyed(t, entries[..|entries| - 1]);
    }
  }

  /** A fresh target is not an id of the sent mutations. */
  lemma OldIdsOnly(
    c: TableClient, table: string, ms: seq<Mutation>, entries: seq<Entry>, i: nat, acked: seq<string>)
    requires FromQueue(c.queue, table, ms) && Fresh(Tabled(c.rows, c.queue, c.memory), table, entries)
    requires i < |entries| && Proper(entries[i])
    ensures var unacked := Unacked(ms, acked);
      entries[i].1 !in RecordIds(unacked) && entries[i].1 !in Deletions(unacked)
  {
    UnackedMeans(ms, acked);
    hide Unacked;
    assert !Mentions(Tabled(c.rows, c.queue, c.memory), table, entries[i].1);
  }

  /** What an unguarded id shows: the merge alone. */
  lemma UnguardedCell(memory: Table, rows: Rows, ms: seq<Mutation>, r: Response, strategy: Strategy, id: string)
    requires Keyed(memory)
    requires id !in RecordIds(Unacked(ms, r.acked)) && id !in Deletions(Unacked(ms, r.acked))
    ensures var tombs := MergeTombs(rows, ms, r);
      Cell(VisibleAfter(memory, rows, ms, r, strategy), id) ==
        FoldCell(if r.resetRequired then None else PrunedCell(Cell(memory, id), id, {}, tombs), PulledRecords(r), id,
                 {}, strategy, tombs)
  {
    var tombs, guarded := MergeTombs(rows, ms, r), RecordIds(Unacked(ms, r.acked));
    var local := if r.resetRequired then Only(memory, guarded) else memory;
    assert Keyed(local);
    PullAllAt(Pruned(local, guarded, tombs), PulledRecords(r), guarded, strategy, tombs, id);
    PrunedAt(local, guarded, tombs, id);
    UnguardedFold(PrunedCell(Cell(local, id), id, {}, tombs), PulledRecords(r), guarded, strategy, tombs, id);
    hide FoldCell, Unacked, MergeTombs, TimestampOf, PullAll, Pruned;
  }

  /** Merging the pulled records into start gives what was promised. */
  ghost predicate Unharmed(
    promised: Option<Record>, start: Option<Record>, remote: seq<Record>, id: string, strategy: Strategy,
    tombs: map<string, int>)
  {
    if promised.None? then !TakesPart(start, remote, id, tombs)
    else if start.Some? then Spares(remote, promised.value, id, strategy, tombs)
    else Makes(remote, promised.value, id, strategy, tombs)
  }

  lemma UnharmedIff(
    promised: Option<Record>, start: Option<Record>, remote: seq<Record>, id: string, strategy: Strategy,
    tombs: map<string, int>)
    requires promised.Some? ==> Id(promised.value) == id && (start.Some? ==> start == promised)
    ensures FoldCell(start, remote, id, {}, strategy, tombs) == promised <==>
      Unharmed(promised, start, remote, id, strategy, tombs)
  {
    FoldTakesPart(start, remote, id, {}, strategy, tombs);
    if promised.Some? {
      FoldSpares(promised.value, remote, id, {}, strategy, tombs);
      FoldMakes(promised.value, remote, id, {}, strategy, tombs);
    }
    hide FoldCell, Spares, Makes, TakesPart;
  }

  /** An unacknowledged write to a record that the response renames guards the old id only: the record
      is merged under its new id like any other, from nothing after a reset or under a tombstone. It
      shows what the guard would have kept, nothing for a deletion and else the renamed record,
      exactly if the visible pulled records of the new id leave or make that. */
  lemma RenamedWriteIsUnguarded(
    c: TableClient, table: string, ms: seq<Mutation>, entries: seq<Entry>, i: nat, r: Response, strategy: Strategy,
    m: Mutation)
    requires Keyed(c.memory) && FromQueue(c.queue, table, ms)
    requires Fresh(Tabled(c.rows, c.queue, c.memory), table, entries) && i < |entries| && Proper(entries[i])
    requires m in ms && m.id !in r.acked && Id(m.payload) == entries[i].0
    ensures var (from, to) := entries[i];
      var rows := RenameStored(Stored(c.rows, c.queue, true), table, entries).rows;
      var tombs := MergeTombs(rows, ms, r);
      var after := VisibleAfter(RenameTable(c.memory, entries), rows, ms, r, strategy);
      var mine := if from in c.memory then Some(WithId(c.memory[from], to)) else None;
      var start := if r.resetRequired then None else PrunedCell(mine, to, {}, tombs);
      var promised := if from in Deletions(Unacked(ms, r.acked)) then None else mine;
      && from !in after
      && Cell(after, to) == FoldCell(start, PulledRecords(r), to, {}, strategy, tombs)
      && (Cell(after, to) == promised <==> Unharmed(promised, start, PulledRecords(r), to, strategy, tombs))
  {
    var (from, to) := entries[i];
    var s := Tabled(c.rows, c.queue, c.memory);
    var rows := RenameStored(Stored(c.rows, c.queue, true), table, entries).rows;
    RenamedCells(s, table, entries, i);
    RenamedIsKeyed(c.memory, entries);
    OldIdsOnly(c, table, ms, entries, i, r.acked);
    hide RenameTable, RenameStored, Fresh, MergeTombs;
    var t := RenameTable(c.memory, entries);
    OutstandingWritesAreProtected(t, rows, ms, r, strategy, m);
    UnguardedCell(t, rows, ms, r, strategy, to);
    hide FoldCell, VisibleAfter, TimestampOf, Unacked, WithId;
    var tombs := MergeTombs(rows, ms, r);
    var start := if r.resetRequired then None else PrunedCell(Cell(t, to), to, {}, tombs);
    UnharmedIff(if from in Deletions(Unacked(ms, r.acked)) then None else Cell(t, to), start, PulledRecords(r), to,
                strategy, tombs);
  }

  lemma OneNewest(r: Record, id: string, tombs: map<string, int>)
    requires Id(r) == id && !Hidden(r, tombs)
    ensures NewestVisible([r], id, tombs) == Some(r)
  {
    var one := [r];
    assert one[..0] == [];
    assert NewestVisible(one[..0], id, tombs).None?;
  }

  /** A response with the server's record under the new id, and without the acknowledgement. */
  function Naming(theirs: Record): Response {
    Response(Some([theirs]), [], [], [], 1, None, false, None)
  }

  /** Under last-write-wins the write is lost from view whenever the server's record is not older. */
  lemma RenamedWriteIsLost(c: TableClient, table: string, m: Mutation, from: string, theirs: Record)
    requires Keyed(c.memory) && FromQueue(c.queue, table, [m]) && Id(m.payload) == from && from != Id(theirs)
    requires Fresh(Tabled(c.rows, c.queue, c.memory), table, [(from, Id(theirs))])
    requires from in c.memory && TimestampOf(c.memory[from]) <= TimestampOf(theirs)
    requires from in c.rows ==> !c.rows[from].deleted
    ensures var (d, ok) := ProcessMapped(c, table, [m], [(from, Id(theirs))], Answered(Naming(theirs)), LastWriteWins,
                                         1, 0);
      ok && m.id in d.queue && from !in d.memory && Cell(d.memory, Id(theirs)) == Some(theirs)
  {
    hide RenameStored, RenameTable, RenameAll, Fresh, KeysRenamed, WithId, TimestampOf, ProcessMapped, VisibleAfter,
         FoldCell, Unharmed, Deletions, Unacked, Tombs;
    var to, r := Id(theirs), Naming(theirs);
    var entries: seq<Entry> := [(from, to)];
    var rows := RenameStored(Stored(c.rows, c.queue, true), table, entries).rows;
    FreshStored(Tabled(c.rows, c.queue, c.memory), table, entries);
    RenamedQueue(Stored(c.rows, c.queue, true), table, entries);
    TargetIsLive(c, table, from, to);
    assert MergeTombs(rows, [m], r) == Tombs(rows);
    StillWaiting(c, table, m, entries, r);
    RenamedWriteIsUnguarded(c, table, [m], entries, 0, r, LastWriteWins, m);
    WithIdKeepsStamp(c.memory[from], to);
    OneNewer(Some(WithId(c.memory[from], to)), theirs, to, Tombs(rows));
  }

  lemma {:induction false} RenamedQueue(s: Stored, table: string, entries: seq<Entry>)
    ensures RenameStored(s, table, entries).queue.Keys == s.queue.Keys
  {
    if entries != [] {
      RenamedQueue(s, table, entries[..|entries| - 1]);
    }
  }

  lemma TargetIsLive(c: TableClient, table: string, from: string, to: string)
    requires from != to && Fresh(Tabled(c.rows, c.queue, c.memory), table, [(from, to)])
    requires from in c.rows ==> !c.rows[from].deleted
    ensures to !in Tombs(RenameStored(Stored(c.rows, c.queue, true), table, [(from, to)]).rows)
  {
    RenamedCells(Tabled(c.rows, c.queue, c.memory), table, [(from, to)], 0);
    hide RenameStored, RenameTable, Fresh, WithId;
  }

  lemma OneNewer(mine: Option<Record>, theirs: Record, id: string, tombs: map<string, int>)
    requires Id(theirs) == id && id !in tombs && (mine.Some? ==> TimestampOf(mine.value) <= TimestampOf(theirs))
    ensures FoldCell(PrunedCell(mine, id, {}, tombs), [theirs], id, {}, LastWriteWins, tombs) == Some(theirs)
  {
    OneNewest(theirs, id, tombs);
    LastWriteWinsPicks(mine, [theirs], id, {}, tombs);
    hide FoldCell, NewestVisible, TimestampOf;
  }

  lemma WithIdKeepsStamp(r: Record, id: string)
    ensures TimestampOf(WithId(r, id)) == TimestampOf(r)
  {}

  /** One such write: created without a time stamp, and stamped and named by the server. */
  lemma RenamedWriteCanBeLost() returns (c: TableClient, m: Mutation, theirs: Record)
    ensures m.operation.Create? && m.id in c.queue && "tmp" in c.memory && theirs != WithId(c.memory["tmp"], "srv")
    ensures var (d, ok) := ProcessMapped(c, "t", [m], [("tmp", "srv")], Answered(Naming(theirs)), LastWriteWins, 1, 0);
      ok && m.id in d.queue && "tmp" !in d.memory && Cell(d.memory, "srv") == Some(theirs)
  {
    hide RenameStored, RenameTable, RenameAll, ProcessMapped;
    var mine := Bare("tmp");
    m := Mutation("m", "t", Create, mine, 0, 1, []);
    theirs := Obj(map["id" := Str("srv"), "updatedAt" := Num(5)]);
    c := TableClient(map["tmp" := mine], map["tmp" := StoredRow(mine, 0, false)],
                     map["m" := Row(m, Syncing, 0, 0, None, None)], None);
    assert "updatedAt" !in WithId(mine, "srv").fields;
    RenamedWriteIsLost(c, "t", m, "tmp", theirs);
  }

  lemma StillWaiting(c: TableClient, table: string, m: Mutation, entries: seq<Entry>, r: Response)
    requires r.records.Some? && r.acked == [] && r.rejected == [] && !r.resetRequired && r.minimumSchemaVersion.None?
    requires m.id in c.queue && RenameStored(Stored(c.rows, c.queue, true), table, entries).ok
    requires RenameStored(Stored(c.rows, c.queue, true), table, entries).queue.Keys == c.queue.Keys
    ensures var (d, ok) := ProcessMapped(c, table, [m], entries, Answered(r), LastWriteWins, 1, 0);
      var rows := RenameStored(Stored(c.rows, c.queue, true), table, entries).rows;
      ok && m.id in d.queue && d.memory == VisibleAfter(RenameTable(c.memory, entries), rows, [m], r, LastWriteWins)
  {
    PartitionIsExact([m], r.acked, r.rejected);
    hide RenameStored, RenameTable, VisibleAfter, PersistRecords, PersistTombstones, ClearCovered, Partition,
         FailedRow, RefusedRow;
  }
}
