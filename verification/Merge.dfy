/** src/merge.ts: conflict resolution and the merge of pulled records into a table. */
module Merge {
  import opened Json
  import opened FieldMerge
  import opened Records

  datatype Strategy = LastWriteWins | ServerWins | ClientWins | MergeFields

  /** The immutable-id error the source throws. */
  datatype MergeResult<+T> = Merged(value: T) | IdChanged(id: string)

  function Resolve(local: Record, remote: Record, strategy: Strategy): (r: Record)
    ensures Id(local) == Id(remote) ==> Id(r) == Id(remote)
  {
    match strategy
    case ServerWins => remote
    case ClientWins => local
    case MergeFields =>
      assert MergeJson(local.fields["id"], remote.fields["id"]) == remote.fields["id"];
      MergeJson(local, remote)
    case LastWriteWins =>
      if TimestampOf(remote) == 0 && TimestampOf(local) == 0 then remote
      else if TimestampOf(remote) >= TimestampOf(local) then remote else local
  }

  /** A record hidden by a tombstone is one whose timestamp is not strictly above it. */
  predicate Hidden(r: Record, tombs: map<string, int>) {
    Id(r) in tombs && TimestampOf(r) <= tombs[Id(r)]
  }

  predicate Survives(r: Record, guarded: set<string>, tombs: map<string, int>) {
    Id(r) in guarded || !Hidden(r, tombs)
  }

  /** The local side of the merge, read as a JavaScript Map of the surviving records. */
  function Kept(local: seq<Record>, guarded: set<string>, tombs: map<string, int>): Table {
    if local == [] then map[]
    else
      var r := local[|local| - 1];
      var t := Kept(local[..|local| - 1], guarded, tombs);
      if Survives(r, guarded, tombs) then t[Id(r) := r] else t
  }

  function Pull(t: Table, r: Record, guarded: set<string>, strategy: Strategy, tombs: map<string, int>): Table {
    if Id(r) in guarded || Hidden(r, tombs) then t
    else if Id(r) in t then t[Id(r) := Resolve(t[Id(r)], r, strategy)]
    else t[Id(r) := r]
  }

  function PullAll(
    t: Table, remote: seq<Record>, guarded: set<string>, strategy: Strategy, tombs: map<string, int>): Table
  {
    if remote == [] then t
    else
      Pull(PullAll(t, remote[..|remote| - 1], guarded, strategy, tombs),
           remote[|remote| - 1], guarded, strategy, tombs)
  }

  /** The local table after the tombstones, before the pulled records. */
  function Pruned(t: Table, guarded: set<string>, tombs: map<string, int>): Table {
    map id | id in t && Survives(t[id], guarded, tombs) :: t[id]
  }

  /** The whole merge as a function on tables. */
  function MergeTable(
    t: Table, remote: seq<Record>, guarded: set<string>, strategy: Strategy, tombs: map<string, int>): Table
  {
    PullAll(Pruned(t, guarded, tombs), remote, guarded, strategy, tombs)
  }

  // ---- One id at a time ----

  function StepCell(
    c: Option<Record>, r: Record, id: string, guarded: set<string>, strategy: Strategy,
    tombs: map<string, int>): Option<Record>
  {
    if Id(r) != id || id in guarded || Hidden(r, tombs) then c
    else if c.Some? then Some(Resolve(c.value, r, strategy))
    else Some(r)
  }

  function FoldCell(
    c: Option<Record>, remote: seq<Record>, id: string, guarded: set<string>, strategy: Strategy,
    tombs: map<string, int>): Option<Record>
  {
    if remote == [] then c
    else
      StepCell(FoldCell(c, remote[..|remote| - 1], id, guarded, strategy, tombs),
               remote[|remote| - 1], id, guarded, strategy, tombs)
  }

  lemma {:induction false} PullAllAt(
    t: Table, remote: seq<Record>, guarded: set<string>, strategy: Strategy, tombs: map<string, int>, id: string)
    ensures Cell(PullAll(t, remote, guarded, strategy, tombs), id)
         == FoldCell(Cell(t, id), remote, id, guarded, strategy, tombs)
  {
    if remote != [] {
      PullAllAt(t, remote[..|remote| - 1], guarded, strategy, tombs, id);
    }
  }

  lemma {:induction false} FoldCellAppend(
    c: Option<Record>, a: seq<Record>, b: seq<Record>, id: string, guarded: set<string>, strategy: Strategy,
    tombs: map<string, int>)
    ensures FoldCell(c, a + b, id, guarded, strategy, tombs)
         == FoldCell(FoldCell(c, a, id, guarded, strategy, tombs), b, id, guarded, strategy, tombs)
    decreases |b|
  {
    if b == [] {
      assert a + b == a;
    } else {
      assert (a + b)[..|a + b| - 1] == a + b[..|b| - 1];
      FoldCellAppend(c, a, b[..|b| - 1], id, guarded, strategy, tombs);
    }
  }

  lemma {:induction false} PullAllAppend(
    t: Table, a: seq<Record>, b: seq<Record>, guarded: set<string>, strategy: Strategy, tombs: map<string, int>)
    ensures PullAll(t, a + b, guarded, strategy, tombs)
         == PullAll(PullAll(t, a, guarded, strategy, tombs), b, guarded, strategy, tombs)
    decreases |b|
  {
    if b == [] {
      assert a + b == a;
    } else {
      assert (a + b)[..|a + b| - 1] == a + b[..|b| - 1];
      PullAllAppend(t, a, b[..|b| - 1], guarded, strategy, tombs);
    }
  }

  lemma {:induction false} PullAllKeyed(
    t: Table, remote: seq<Record>, guarded: set<string>, strategy: Strategy, tombs: map<string, int>)
    requires Keyed(t)
    ensures Keyed(PullAll(t, remote, guarded, strategy, tombs))
  {
    if remote != [] {
      PullAllKeyed(t, remote[..|remote| - 1], guarded, strategy, tombs);
    }
  }

  // ---- The loops of mergePulledRecords ----

  /** The records of t in the order a JavaScript Map would list them. */
  function Listed(order: seq<string>, t: Table): seq<Record>
    requires forall id :: id in order ==> id in t
  {
    seq(|order|, i requires 0 <= i < |order| => t[order[i]])
  }

  /** The insertion order of a JavaScript Map: each key once. */
  ghost predicate OrderOf(order: seq<string>, t: Table) {
    && (forall id :: id in order <==> id in t)
    && (forall i, j :: 0 <= i < j < |order| ==> order[i] != order[j])
  }

  /** Setting a key keeps the insertion order, or appends a new key. */
  function Inserted(order: seq<string>, id: string): seq<string> {
    if id in order then order else order + [id]
  }

  /** Each id once, where it came first. */
  function FirstSeen(ids: seq<string>): seq<string> {
    if ids == [] then [] else Inserted(FirstSeen(ids[..|ids| - 1]), ids[|ids| - 1])
  }

  lemma FirstSeenNext(ids: seq<string>, id: string)
    ensures FirstSeen(ids + [id]) == Inserted(FirstSeen(ids), id)
  {
    assert (ids + [id])[..|ids|] == ids;
  }

  /** Of two ids in the list the one that came first is listed first. */
  lemma {:induction false} FirstSeenInOrder(ids: seq<string>, i: nat, j: nat)
    requires i < j < |ids| && ids[j] !in ids[..j] && ids[i] !in ids[..i]
    ensures exists a, b :: 0 <= a < b < |FirstSeen(ids)| && FirstSeen(ids)[a] == ids[i] && FirstSeen(ids)[b] == ids[j]
  {
    var init := ids[..|ids| - 1];
    if j < |init| {
      assert init[..j] == ids[..j] && init[..i] == ids[..i];
      FirstSeenInOrder(init, i, j);
      var a, b :| 0 <= a < b < |FirstSeen(init)| && FirstSeen(init)[a] == ids[i] && FirstSeen(init)[b] == ids[j];
      assert FirstSeen(ids)[a] == ids[i] && FirstSeen(ids)[b] == ids[j];
    } else {
      FirstSeenHolds(init);
      assert init == ids[..j] && ids[i] in init;
      var a :| 0 <= a < |FirstSeen(init)| && FirstSeen(init)[a] == ids[i];
      assert FirstSeen(ids)[a] == ids[i] && FirstSeen(ids)[|FirstSeen(init)|] == ids[j];
    }
  }

  lemma {:induction false} FirstSeenHolds(ids: seq<string>)
    ensures forall id :: id in FirstSeen(ids) <==> id in ids
    ensures forall i, j :: 0 <= i < j < |FirstSeen(ids)| ==> FirstSeen(ids)[i] != FirstSeen(ids)[j]
  {
    if ids != [] {
      var init, last := ids[..|ids| - 1], ids[|ids| - 1];
      FirstSeenHolds(init);
      assert ids == init + [last];
    }
  }

  /** The ids of the records that pass, in order: of the local ones those that stay, of the pulled ones
      those that are visible and not guarded. */
  function StayingIds(local: seq<Record>, guarded: set<string>, tombs: map<string, int>): seq<string> {
    if local == [] then []
    else
      var init, r := StayingIds(local[..|local| - 1], guarded, tombs), local[|local| - 1];
      if Id(r) in guarded || !Hidden(r, tombs) then init + [Id(r)] else init
  }

  function ReachingIds(remote: seq<Record>, guarded: set<string>, tombs: map<string, int>): seq<string> {
    if remote == [] then []
    else
      var init, r := ReachingIds(remote[..|remote| - 1], guarded, tombs), remote[|remote| - 1];
      if Id(r) !in guarded && !Hidden(r, tombs) then init + [Id(r)] else init
  }

  lemma StayingNext(local: seq<Record>, i: nat, guarded: set<string>, tombs: map<string, int>)
    requires i < |local|
    ensures StayingIds(local[..i + 1], guarded, tombs) ==
      var init := StayingIds(local[..i], guarded, tombs);
      if Id(local[i]) in guarded || !Hidden(local[i], tombs) then init + [Id(local[i])] else init
  {
    assert local[..i + 1][..i] == local[..i];
  }

  lemma ReachingNext(remote: seq<Record>, i: nat, guarded: set<string>, tombs: map<string, int>)
    requires i < |remote|
    ensures ReachingIds(remote[..i + 1], guarded, tombs) ==
      var init := ReachingIds(remote[..i], guarded, tombs);
      if Id(remote[i]) !in guarded && !Hidden(remote[i], tombs) then init + [Id(remote[i])] else init
  {
    assert remote[..i + 1][..i] == remote[..i];
  }

  lemma InsertedKeepsOrder(order: seq<string>, t: Table, r: Record)
    requires Keyed(t) && OrderOf(order, t)
    ensures Keyed(t[Id(r) := r]) && OrderOf(Inserted(order, Id(r)), t[Id(r) := r])
  {}

  lemma ListedIsUnique(order: seq<string>, t: Table)
    requires Keyed(t) && OrderOf(order, t)
    ensures UniqueIds(Listed(order, t))
    ensures AsTable(Listed(order, t)) == t
  {
    var rs := Listed(order, t);
    forall i, j | 0 <= i < j < |rs|
      ensures Id(rs[i]) != Id(rs[j])
    {
      assert Id(rs[i]) == order[i] && Id(rs[j]) == order[j];
    }
    AsTableIsKeyed(rs);
    AsTableHolds(rs);
    forall id
      ensures Cell(AsTable(rs), id) == Cell(t, id)
    {
      if id in t {
        var i :| 0 <= i < |order| && order[i] == id;
        assert rs[i] == t[id];
      }
    }
    CellsDetermineTable(AsTable(rs), t);
  }

  lemma KeptStep(local: seq<Record>, i: nat, guarded: set<string>, tombs: map<string, int>)
    requires i < |local|
    ensures Kept(local[..i + 1], guarded, tombs)
         == var t := Kept(local[..i], guarded, tombs);
            if Survives(local[i], guarded, tombs) then t[Id(local[i]) := local[i]] else t
  {
    assert local[..i + 1][..i] == local[..i];
  }

  lemma PullAllStep(
    t: Table, remote: seq<Record>, i: nat, guarded: set<string>, strategy: Strategy, tombs: map<string, int>)
    requires i < |remote|
    ensures PullAll(t, remote[..i + 1], guarded, strategy, tombs)
         == Pull(PullAll(t, remote[..i], guarded, strategy, tombs), remote[i], guarded, strategy, tombs)
  {
    assert remote[..i + 1][..i] == remote[..i];
  }

  lemma SeqAssociates(a: seq<string>, b: seq<string>, c: seq<string>)
    ensures (a + b) + c == a + (b + c)
  {}

  /** The order of the merged list: the local records that stay, then what was pulled new. */
  function ListOrder(
    local: seq<Record>, remote: seq<Record>, unacked: seq<Mutation>, tombstones: seq<Tombstone>): seq<string>
  {
    FirstSeen(
      StayingIds(local, RecordIds(unacked), Stamps(tombstones))
        + ReachingIds(remote, RecordIds(unacked), Stamps(tombstones)))
  }

  /** Pulled records never trip the immutable-id check, and the result is one record per id. */
  method MergePulledRecords(
    local: seq<Record>,
    remote: seq<Record>,
    unacked: seq<Mutation>,
    strategy: Strategy,
    tombstones: seq<Tombstone>)
    returns (out: MergeResult<seq<Record>>)
    ensures out.Merged?
    ensures UniqueIds(out.value)
    ensures AsTable(out.value)
         == PullAll(Kept(local, RecordIds(unacked), Stamps(tombstones)), remote, RecordIds(unacked), strategy,
           Stamps(tombstones))
    ensures |out.value| == |ListOrder(local, remote, unacked, tombstones)|
    ensures forall i :: 0 <= i < |out.value| ==> Id(out.value[i]) == ListOrder(local, remote, unacked, tombstones)[i]
  {
    var guarded := RecordIds(unacked);
    var tombs := Stamps(tombstones);
    var order, start := KeepLocal(local, guarded, tombs);
    var merged := start;
    ghost var staying := StayingIds(local, guarded, tombs);
    assert staying + ReachingIds(remote[..0], guarded, tombs) == staying;
    for i := 0 to |remote|
      invariant merged == PullAll(start, remote[..i], guarded, strategy, tombs)
      invariant Keyed(merged) && OrderOf(order, merged)
      invariant order == FirstSeen(staying + ReachingIds(remote[..i], guarded, tombs))
    {
      PullAllStep(start, remote, i, guarded, strategy, tombs);
      ReachingNext(remote, i, guarded, tombs);
      FirstSeenNext(staying + ReachingIds(remote[..i], guarded, tombs), Id(remote[i]));
      SeqAssociates(staying, ReachingIds(remote[..i], guarded, tombs), [Id(remote[i])]);
      hide FirstSeen, ReachingIds, StayingIds;
      var record := remote[i];
      if Id(record) in guarded {
        continue;
      }
      if Id(record) in tombs && TimestampOf(record) <= tombs[Id(record)] {
        continue;
      }
      if Id(record) in merged {
        var resolved := Resolve(merged[Id(record)], record, strategy);
        if Id(resolved) != Id(record) {
          return IdChanged(Id(record));
        }
        record := resolved;
      }
      InsertedKeepsOrder(order, merged, record);
      order := Inserted(order, Id(record));
      merged := merged[Id(record) := record];
    }
    assert remote[..|remote|] == remote;
    ListedIsUnique(order, merged);
    out := Merged(Listed(order, merged));
  }

  method KeepLocal(local: seq<Record>, guarded: set<string>, tombs: map<string, int>)
    returns (order: seq<string>, merged: Table)
    ensures merged == Kept(local, guarded, tombs)
    ensures Keyed(merged) && OrderOf(order, merged)
    ensures order == FirstSeen(StayingIds(local, guarded, tombs))
  {
    merged := map[];
    order := [];
    for i := 0 to |local|
      invariant merged == Kept(local[..i], guarded, tombs)
      invariant Keyed(merged) && OrderOf(order, merged)
      invariant order == FirstSeen(StayingIds(local[..i], guarded, tombs))
    {
      KeptStep(local, i, guarded, tombs);
      StayingNext(local, i, guarded, tombs);
      FirstSeenNext(StayingIds(local[..i], guarded, tombs), Id(local[i]));
      hide FirstSeen, StayingIds;
      var record := local[i];
      if Id(record) !in guarded && Id(record) in tombs && TimestampOf(record) <= tombs[Id(record)] {
        continue;
      }
      InsertedKeepsOrder(order, merged, record);
      order := Inserted(order, Id(record));
      merged := merged[Id(record) := record];
    }
    assert local[..|local|] == local;
  }

  /** For a table with unique ids the list-level merge is MergeTable. */
  lemma {:induction false} KeptIsPruned(local: seq<Record>, guarded: set<string>, tombs: map<string, int>)
    requires UniqueIds(local)
    ensures Kept(local, guarded, tombs) == Pruned(AsTable(local), guarded, tombs)
  {
    if local != [] {
      var init := local[..|local| - 1];
      KeptIsPruned(init, guarded, tombs);
      var r := local[|local| - 1];
      LastIsNew(local);
      assert Pruned(AsTable(init)[Id(r) := r], guarded, tombs)
          == if Survives(r, guarded, tombs) then Pruned(AsTable(init), guarded, tombs)[Id(r) := r]
             else Pruned(AsTable(init), guarded, tombs);
    }
  }

  lemma LastIsNew(local: seq<Record>)
    requires UniqueIds(local) && local != []
    ensures Id(local[|local| - 1]) !in AsTable(local[..|local| - 1])
  {
    var init := local[..|local| - 1];
    var r := local[|local| - 1];
    AsTableIsKeyed(init);
    assert forall i :: 0 <= i < |init| ==> init[i] == local[i] && Id(init[i]) != Id(r);
  }
}
