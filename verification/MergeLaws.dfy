/** Laws of the record merge that src/merge.ts and the README promise, for all inputs. */
module MergeLaws {
  import opened Json
  import opened FieldMerge
  import opened Records
  import opened Merge

  // ---- Tombstones are never undone ----

  /** The one way a field merge of two visible records can fall back under a tombstone: the remote
      replaces a usable updatedAt by a non-number and brings no updated_at of its own. */
  predicate FallsBack(local: Record, remote: Record, stamp: int) {
    && stamp < 0
    && "updatedAt" in remote.fields && !remote.fields["updatedAt"].Num?
    && "updated_at" !in remote.fields
    && "updated_at" in local.fields && local.fields["updated_at"].Num?
    && local.fields["updated_at"].n <= stamp
  }

  lemma FieldMergeStamps(local: Record, remote: Record)
    ensures var m := Resolve(local, remote, MergeFields);
      && ("updatedAt" in m.fields && m.fields["updatedAt"].Num? <==>
          if "updatedAt" in remote.fields then remote.fields["updatedAt"].Num?
          else "updatedAt" in local.fields && local.fields["updatedAt"].Num?)
      && ("updated_at" in m.fields && m.fields["updated_at"].Num? <==>
          if "updated_at" in remote.fields then remote.fields["updated_at"].Num?
          else "updated_at" in local.fields && local.fields["updated_at"].Num?)
      && TimestampOf(m) ==
         if "updatedAt" in m.fields && m.fields["updatedAt"].Num? then
           (if "updatedAt" in remote.fields then remote else local).fields["updatedAt"].n
         else if "updated_at" in m.fields && m.fields["updated_at"].Num? then
           (if "updated_at" in remote.fields then remote else local).fields["updated_at"].n
         else 0
  {
    var m: Json := MergeJson(local, remote);
    assert m == Resolve(local, remote, MergeFields);
    forall k | k in {"updatedAt", "updated_at"}
      ensures k in m.fields <==> k in local.fields || k in remote.fields
      ensures k in m.fields && k !in remote.fields ==> m.fields[k] == local.fields[k]
      ensures k in remote.fields ==> Head(m.fields[k]) == Head(remote.fields[k])
    {
      if k in remote.fields && k in local.fields {
        assert m.fields[k] == MergeJson(local.fields[k], remote.fields[k]);
      }
    }
  }

  /** Of two records above the tombstone, the resolved one is above it too, except exactly in the
      FallsBack case of a field merge, which no tombstone at or after time zero allows. */
  lemma ResolveStaysVisible(local: Record, remote: Record, strategy: Strategy, stamp: int)
    requires TimestampOf(local) > stamp && TimestampOf(remote) > stamp
    ensures TimestampOf(Resolve(local, remote, strategy)) > stamp
       <==> !(strategy.MergeFields? && FallsBack(local, remote, stamp))
  {
    FieldMergeStamps(local, remote);
  }

  /** What a record has under a key. */
  function FieldOf(c: Option<Record>, key: string): Option<Json> {
    if c.Some? && key in c.value.fields then Some(c.value.fields[key]) else None
  }

  /** What the last visible record of id that has the key says under it; the local record is the
      oldest of them. */
  function LastWritten(
    c: Option<Record>, remote: seq<Record>, id: string, tombs: map<string, int>, key: string): Option<Json>
  {
    if remote == [] then FieldOf(c, key)
    else
      var r := remote[|remote| - 1];
      if Id(r) == id && !Hidden(r, tombs) && key in r.fields then Some(r.fields[key])
      else LastWritten(c, remote[..|remote| - 1], id, tombs, key)
  }

  /** A numeric last updatedAt, else a numeric last updated_at, else zero. */
  function LastStamp(c: Option<Record>, remote: seq<Record>, id: string, tombs: map<string, int>): int {
    var camel, snake := LastWritten(c, remote, id, tombs, "updatedAt"), LastWritten(c, remote, id, tombs, "updated_at");
    if camel.Some? && camel.value.Num? then camel.value.n
    else if snake.Some? && snake.value.Num? then snake.value.n
    else 0
  }

  /** Some record of id takes part in the merge. */
  predicate TakesPart(c: Option<Record>, remote: seq<Record>, id: string, tombs: map<string, int>) {
    c.Some? || exists r :: r in remote && Id(r) == id && !Hidden(r, tombs)
  }

  predicate SameNumber(x: Option<Json>, y: Option<Json>) {
    && (x.Some? <==> y.Some?)
    && (x.Some? ==> (x.value.Num? || y.value.Num? ==> x == y))
  }

  lemma FieldMergeKeeps(local: Record, remote: Record, key: string)
    ensures key in remote.fields ==>
      SameNumber(FieldOf(Some(Resolve(local, remote, MergeFields)), key), Some(remote.fields[key]))
    ensures key !in remote.fields ==>
      FieldOf(Some(Resolve(local, remote, MergeFields)), key) == FieldOf(Some(local), key)
  {
    var m: Json := MergeJson(local, remote);
    assert m == Resolve(local, remote, MergeFields);
    if key in remote.fields && key in local.fields {
      assert m.fields[key] == MergeJson(local.fields[key], remote.fields[key]);
    }
  }

  /** Any number of field merges: which record is shown, and whose timestamp it carries. */
  lemma {:induction false} FieldMergeFold(
    c: Option<Record>, remote: seq<Record>, id: string, guarded: set<string>, tombs: map<string, int>)
    requires id !in guarded && (c.Some? ==> Id(c.value) == id)
    ensures var d := FoldCell(c, remote, id, guarded, MergeFields, tombs);
      && (d.Some? <==> TakesPart(c, remote, id, tombs))
      && (d.Some? ==> Id(d.value) == id)
      && (forall key :: SameNumber(FieldOf(d, key), LastWritten(c, remote, id, tombs, key)))
    decreases |remote|
  {
    if remote != [] {
      var init, last := remote[..|remote| - 1], remote[|remote| - 1];
      FieldMergeFold(c, init, id, guarded, tombs);
      assert forall r :: r in remote <==> r in init || r == last;
      var d := FoldCell(c, init, id, guarded, MergeFields, tombs);
      hide MergeJson, Resolve;
      forall key
        ensures SameNumber(
          FieldOf(StepCell(d, last, id, guarded, MergeFields, tombs), key), LastWritten(c, remote, id, tombs, key))
      {
        if d.Some? {
          FieldMergeKeeps(d.value, last, key);
        }
      }
    }
  }

  lemma FoldedStamp(c: Option<Record>, remote: seq<Record>, id: string, guarded: set<string>, tombs: map<string, int>)
    requires id !in guarded && (c.Some? ==> Id(c.value) == id)
    ensures var d := FoldCell(c, remote, id, guarded, MergeFields, tombs);
      d.Some? ==> TimestampOf(d.value) == LastStamp(c, remote, id, tombs)
  {
    FieldMergeFold(c, remote, id, guarded, tombs);
    var d := FoldCell(c, remote, id, guarded, MergeFields, tombs);
    hide FoldCell, LastWritten;
    assert SameNumber(FieldOf(d, "updatedAt"), LastWritten(c, remote, id, tombs, "updatedAt"));
    assert SameNumber(FieldOf(d, "updated_at"), LastWritten(c, remote, id, tombs, "updated_at"));
  }

  function PrunedCell(c: Option<Record>, id: string, guarded: set<string>, tombs: map<string, int>): Option<Record> {
    if c.Some? && id !in guarded && id in tombs && TimestampOf(c.value) <= tombs[id] then None else c
  }

  lemma PrunedAt(t: Table, guarded: set<string>, tombs: map<string, int>, id: string)
    requires Keyed(t)
    ensures Cell(Pruned(t, guarded, tombs), id) == PrunedCell(Cell(t, id), id, guarded, tombs)
  {}

  /** The field merges of the visible records end at or below the given time: the last of them to
      bring an updatedAt, or else an updated_at, brings one that is no later. */
  predicate FallsTo(t: Table, remote: seq<Record>, strategy: Strategy, tombs: map<string, int>, id: string, at: int) {
    var c := PrunedCell(Cell(t, id), id, {}, tombs);
    strategy.MergeFields? && TakesPart(c, remote, id, tombs) && LastStamp(c, remote, id, tombs) <= at
  }

  /** An unguarded id with a tombstone is absent or shows a record strictly above the tombstone, and
      above any earlier time, if and only if no field merge falls back to that time. */
  lemma {:induction false} NoResurrection(
    t: Table, remote: seq<Record>, guarded: set<string>, strategy: Strategy, tombs: map<string, int>, id: string,
    at: int)
    requires Keyed(t)
    requires id in tombs && id !in guarded && at <= tombs[id]
    ensures var c := Cell(MergeTable(t, remote, guarded, strategy, tombs), id);
      && (c.Some? ==> Id(c.value) == id)
      && ((c.Some? ==> TimestampOf(c.value) > at) <==> !FallsTo(t, remote, strategy, tombs, id, at))
  {
    var c := PrunedCell(Cell(t, id), id, guarded, tombs);
    PrunedAt(t, guarded, tombs, id);
    PullAllAt(Pruned(t, guarded, tombs), remote, guarded, strategy, tombs, id);
    hide MergeJson, Pruned, PullAll, FoldCell, LastStamp, TakesPart, TimestampOf;
    if strategy.MergeFields? {
      FieldMergeFold(c, remote, id, guarded, tombs);
      FoldedStamp(c, remote, id, guarded, tombs);
    } else {
      StaysAbove(c, remote, guarded, strategy, tombs, id);
    }
  }

  /** No tombstone at or after time zero can be undone. */
  lemma NonNegativeTombstonesHold(
    t: Table, remote: seq<Record>, guarded: set<string>, strategy: Strategy, tombs: map<string, int>, id: string)
    requires Keyed(t) && id in tombs && id !in guarded && tombs[id] >= 0
    ensures !FallsTo(t, remote, strategy, tombs, id, tombs[id])
  {
    PrunedAt(t, guarded, tombs, id);
    PullAllAt(Pruned(t, guarded, tombs), remote, guarded, strategy, tombs, id);
    StaysAbove(PrunedCell(Cell(t, id), id, guarded, tombs), remote, guarded, strategy, tombs, id);
    NoResurrection(t, remote, guarded, strategy, tombs, id, tombs[id]);
  }

  lemma {:induction false} StaysAbove(
    c: Option<Record>, remote: seq<Record>, guarded: set<string>, strategy: Strategy, tombs: map<string, int>,
    id: string)
    requires id in tombs && id !in guarded
    requires strategy.MergeFields? ==> tombs[id] >= 0
    requires c.Some? ==> Id(c.value) == id && TimestampOf(c.value) > tombs[id]
    ensures var d := FoldCell(c, remote, id, guarded, strategy, tombs);
      d.Some? ==> Id(d.value) == id && TimestampOf(d.value) > tombs[id]
    decreases |remote|
  {
    if remote != [] {
      var init := remote[..|remote| - 1];
      StaysAbove(c, init, guarded, strategy, tombs, id);
      var d := FoldCell(c, init, id, guarded, strategy, tombs);
      if d.Some? && TimestampOf(remote[|remote| - 1]) > tombs[id] {
        ResolveStaysVisible(d.value, remote[|remote| - 1], strategy, tombs[id]);
      }
    }
  }

  lemma PullOne(t: Table, r: Record, guarded: set<string>, strategy: Strategy, tombs: map<string, int>)
    ensures PullAll(t, [r], guarded, strategy, tombs) == Pull(t, r, guarded, strategy, tombs)
  {
    var one := [r];
    assert one[..0] == [];
    assert PullAll(t, one[..0], guarded, strategy, tombs) == t;
    assert one[|one| - 1] == r;
  }

  /** With a negative tombstone a field merge does bring a deleted id back under its tombstone. */
  lemma NegativeTombstoneResurrects() returns (t: Table, r: Record, tombs: map<string, int>)
    ensures Keyed(t) && "a" in tombs && tombs["a"] < 0
    ensures "a" in MergeTable(t, [r], {}, MergeFields, tombs)
    ensures TimestampOf(MergeTable(t, [r], {}, MergeFields, tombs)["a"]) <= tombs["a"]
  {
    var local: Record := Obj(map["id" := Str("a"), "updatedAt" := Num(10), "updated_at" := Num(-5)]);
    r := Obj(map["id" := Str("a"), "updatedAt" := Str("x")]);
    t := map["a" := local];
    tombs := map["a" := -1];
    ResolveStaysVisible(local, r, MergeFields, -1);
    assert Pruned(t, {}, tombs) == t;
    PullOne(t, r, {}, MergeFields, tombs);
  }

  // ---- Ids with unacknowledged mutations ----

  /** A guarded id keeps exactly what the local table shows, whatever was pulled. */
  lemma {:induction false} GuardedUntouched(
    t: Table, remote: seq<Record>, guarded: set<string>, strategy: Strategy, tombs: map<string, int>, id: string)
    requires Keyed(t) && id in guarded
    ensures Cell(MergeTable(t, remote, guarded, strategy, tombs), id) == Cell(t, id)
  {
    PullAllAt(Pruned(t, guarded, tombs), remote, guarded, strategy, tombs, id);
    GuardedFold(Cell(t, id), remote, guarded, strategy, tombs, id);
  }

  lemma {:induction false} GuardedFold(
    c: Option<Record>, remote: seq<Record>, guarded: set<string>, strategy: Strategy, tombs: map<string, int>,
    id: string)
    requires id in guarded
    ensures FoldCell(c, remote, id, guarded, strategy, tombs) == c
    decreases |remote|
  {
    if remote != [] {
      GuardedFold(c, remote[..|remote| - 1], guarded, strategy, tombs, id);
    }
  }

  lemma {:induction false} UnguardedFold(
    c: Option<Record>, remote: seq<Record>, guarded: set<string>, strategy: Strategy, tombs: map<string, int>,
    id: string)
    requires id !in guarded
    ensures FoldCell(c, remote, id, guarded, strategy, tombs) == FoldCell(c, remote, id, {}, strategy, tombs)
    decreases |remote|
  {
    if remote != [] {
      UnguardedFold(c, remote[..|remote| - 1], guarded, strategy, tombs, id);
    }
  }

  // ---- Batching under last-write-wins ----

  /** t2 hides at least what t1 hides. */
  ghost predicate Dominates(t2: map<string, int>, t1: map<string, int>) {
    forall id :: id in t1 ==> id in t2 && t1[id] <= t2[id]
  }

  lemma {:induction false} LateTombstones(
    c: Option<Record>, remote: seq<Record>, guarded: set<string>, t1: map<string, int>, t2: map<string, int>,
    id: string)
    requires Dominates(t2, t1)
    ensures PrunedCell(FoldCell(c, remote, id, guarded, LastWriteWins, t1), id, guarded, t2)
         == FoldCell(PrunedCell(c, id, guarded, t2), remote, id, guarded, LastWriteWins, t2)
    decreases |remote|
  {
    if remote != [] {
      LateTombstones(c, remote[..|remote| - 1], guarded, t1, t2, id);
    }
  }

  /** Two responses merged one after the other give the table of one merge of both record lists,
      as soon as the second tombstones include the first. */
  lemma LastWriteWinsBatches(
    t: Table, r1: seq<Record>, r2: seq<Record>, guarded: set<string>, t1: map<string, int>, t2: map<string, int>)
    requires Keyed(t) && Dominates(t2, t1)
    ensures MergeTable(MergeTable(t, r1, guarded, LastWriteWins, t1), r2, guarded, LastWriteWins, t2)
         == MergeTable(t, r1 + r2, guarded, LastWriteWins, t2)
  {
    var first := MergeTable(t, r1, guarded, LastWriteWins, t1);
    PullAllKeyed(Pruned(t, guarded, t1), r1, guarded, LastWriteWins, t1);
    forall id
      ensures Cell(MergeTable(first, r2, guarded, LastWriteWins, t2), id)
           == Cell(MergeTable(t, r1 + r2, guarded, LastWriteWins, t2), id)
    {
      var c := Cell(t, id);
      PrunedAt(t, guarded, t1, id);
      PrunedAt(t, guarded, t2, id);
      PrunedAt(first, guarded, t2, id);
      PullAllAt(Pruned(t, guarded, t1), r1, guarded, LastWriteWins, t1, id);
      PullAllAt(Pruned(first, guarded, t2), r2, guarded, LastWriteWins, t2, id);
      PullAllAt(Pruned(t, guarded, t2), r1 + r2, guarded, LastWriteWins, t2, id);
      LateTombstones(PrunedCell(c, id, guarded, t1), r1, guarded, t1, t2, id);
      FoldCellAppend(PrunedCell(c, id, guarded, t2), r1, r2, id, guarded, LastWriteWins, t2);
    }
    CellsDetermineTable(
      MergeTable(first, r2, guarded, LastWriteWins, t2),
      MergeTable(t, r1 + r2, guarded, LastWriteWins, t2));
  }
}
