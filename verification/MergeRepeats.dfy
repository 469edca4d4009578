/** Merging again and merging in parts, strategy by strategy: the exact conditions. */
module MergeRepeats {
  import opened Json
  import opened Records
  import opened Merge
  import opened MergeLaws
  import opened MergePicks

  /** Under later tombstones nothing that was hidden becomes visible. */
  lemma {:induction false} LaterTombstonesHide(
    remote: seq<Record>, id: string, t1: map<string, int>, t2: map<string, int>)
    requires Dominates(t2, t1)
    ensures var x, y := LastVisible(remote, id, t1), LastVisible(remote, id, t2);
      && (x.Some? ==> Id(x.value) == id)
      && (x.None? ==> y.None?)
      && (x.Some? && !Hidden(x.value, t2) ==> y == x)
    ensures var x, y := FirstVisible(remote, id, t1), FirstVisible(remote, id, t2);
      && (x.Some? ==> Id(x.value) == id)
      && (x.None? ==> y.None?)
      && (x.Some? && !Hidden(x.value, t2) ==> y == x)
  {
    if remote != [] {
      LaterTombstonesHide(remote[..|remote| - 1], id, t1, t2);
    }
  }

  // ---- Batching ----

  /** The cell after two merges in turn, and after one merge of both lists. */
  lemma TwoMergesAt(
    t: Table, r1: seq<Record>, r2: seq<Record>, guarded: set<string>, strategy: Strategy,
    t1: map<string, int>, t2: map<string, int>, id: string)
    requires Keyed(t)
    ensures Cell(MergeTable(MergeTable(t, r1, guarded, strategy, t1), r2, guarded, strategy, t2), id) ==
      FoldCell(PrunedCell(FoldCell(PrunedCell(Cell(t, id), id, guarded, t1), r1, id, guarded, strategy, t1), id,
        guarded, t2),
               r2, id, guarded, strategy, t2)
    ensures Cell(MergeTable(t, r1 + r2, guarded, strategy, t2), id) ==
      FoldCell(PrunedCell(Cell(t, id), id, guarded, t2), r1 + r2, id, guarded, strategy, t2)
  {
    var first := MergeTable(t, r1, guarded, strategy, t1);
    PullAllKeyed(Pruned(t, guarded, t1), r1, guarded, strategy, t1);
    PrunedAt(t, guarded, t1, id);
    PrunedAt(t, guarded, t2, id);
    PrunedAt(first, guarded, t2, id);
    PullAllAt(Pruned(t, guarded, t1), r1, guarded, strategy, t1, id);
    PullAllAt(Pruned(first, guarded, t2), r2, guarded, strategy, t2, id);
    PullAllAt(Pruned(t, guarded, t2), r1 + r2, guarded, strategy, t2, id);
  }

  lemma GuardedBatches(
    t: Table, r1: seq<Record>, r2: seq<Record>, guarded: set<string>, strategy: Strategy,
    t1: map<string, int>, t2: map<string, int>, id: string)
    requires Keyed(t) && id in guarded
    ensures Cell(MergeTable(MergeTable(t, r1, guarded, strategy, t1), r2, guarded, strategy, t2), id)
         == Cell(MergeTable(t, r1 + r2, guarded, strategy, t2), id)
  {
    TwoMergesAt(t, r1, r2, guarded, strategy, t1, t2, id);
    GuardedFold(Cell(t, id), r1, guarded, strategy, t1, id);
    GuardedFold(Cell(t, id), r2, guarded, strategy, t2, id);
    GuardedFold(Cell(t, id), r1 + r2, guarded, strategy, t2, id);
  }

  predicate ServerWinsBatchesAt(
    t: Table, r1: seq<Record>, r2: seq<Record>, guarded: set<string>, t1: map<string, int>, t2: map<string, int>,
    id: string)
  {
    var x := LastVisible(r1, id, t1);
    || id in guarded
    || LastVisible(r2, id, t2).Some?
    || x.None?
    || !Hidden(x.value, t2)
    || (LastVisible(r1, id, t2).None? && PrunedCell(Cell(t, id), id, guarded, t2).None?)
  }

  /** Under server-wins two merges in turn and one merge of both lists agree on an id exactly when
      the second brings a record of it, or the first brings none, or brings one last that the later
      tombstones leave, or nothing else is there to be shown. */
  lemma ServerWinsBatchesIff(
    t: Table, r1: seq<Record>, r2: seq<Record>, guarded: set<string>, t1: map<string, int>, t2: map<string, int>,
    id: string)
    requires Keyed(t) && Dominates(t2, t1)
    ensures Cell(MergeTable(MergeTable(t, r1, guarded, ServerWins, t1), r2, guarded, ServerWins, t2), id)
         == Cell(MergeTable(t, r1 + r2, guarded, ServerWins, t2), id)
       <==> ServerWinsBatchesAt(t, r1, r2, guarded, t1, t2, id)
  {
    var c := Cell(t, id);
    var a, b := PrunedCell(c, id, guarded, t1), PrunedCell(c, id, guarded, t2);
    TwoMergesAt(t, r1, r2, guarded, ServerWins, t1, t2, id);
    if id in guarded {
      GuardedBatches(t, r1, r2, guarded, ServerWins, t1, t2, id);
    } else {
      ServerWinsPicks(a, r1, id, guarded, t1);
      ServerWinsPicks(PrunedCell(Or(LastVisible(r1, id, t1), a), id, guarded, t2), r2, id, guarded, t2);
      ServerWinsPicks(b, r1 + r2, id, guarded, t2);
      LastVisibleAppend(r1, r2, id, t2);
      LaterTombstonesHide(r1, id, t1, t2);
      hide FoldCell, LastVisible, MergeTable, TimestampOf;
    }
  }

  predicate ClientWinsBatchesAt(
    t: Table, r1: seq<Record>, r2: seq<Record>, guarded: set<string>, t1: map<string, int>, t2: map<string, int>,
    id: string)
  {
    var x := Or(PrunedCell(Cell(t, id), id, guarded, t1), FirstVisible(r1, id, t1));
    || id in guarded
    || x.None?
    || PrunedCell(x, id, guarded, t2).Some?
    || FirstVisible(r1, id, t2).None?
    || FirstVisible(r1, id, t2) == FirstVisible(r2, id, t2)
  }

  /** Under client-wins they agree exactly when the record shown first outlives the later tombstones,
      or the first response has nothing visible to put in its place, or nothing else than the second. */
  lemma ClientWinsBatchesIff(
    t: Table, r1: seq<Record>, r2: seq<Record>, guarded: set<string>, t1: map<string, int>, t2: map<string, int>,
    id: string)
    requires Keyed(t) && Dominates(t2, t1)
    ensures Cell(MergeTable(MergeTable(t, r1, guarded, ClientWins, t1), r2, guarded, ClientWins, t2), id)
         == Cell(MergeTable(t, r1 + r2, guarded, ClientWins, t2), id)
       <==> ClientWinsBatchesAt(t, r1, r2, guarded, t1, t2, id)
  {
    var c := Cell(t, id);
    var a, b := PrunedCell(c, id, guarded, t1), PrunedCell(c, id, guarded, t2);
    TwoMergesAt(t, r1, r2, guarded, ClientWins, t1, t2, id);
    if id in guarded {
      GuardedBatches(t, r1, r2, guarded, ClientWins, t1, t2, id);
    } else {
      ClientWinsPicks(a, r1, id, guarded, t1);
      ClientWinsPicks(PrunedCell(Or(a, FirstVisible(r1, id, t1)), id, guarded, t2), r2, id, guarded, t2);
      ClientWinsPicks(b, r1 + r2, id, guarded, t2);
      FirstVisibleAppend(r1, r2, id, t2);
      LaterTombstonesHide(r1, id, t1, t2);
      hide FoldCell, FirstVisible, MergeTable, TimestampOf;
    }
  }

  /** What the first merge leaves at a path under the later tombstones, and what its records leave there
      without it, agree wherever the second merge says nothing. */
  ghost predicate MergeFieldsBatchesAt(
    t: Table, r1: seq<Record>, r2: seq<Record>, guarded: set<string>, t1: map<string, int>, t2: map<string, int>,
    id: string)
  {
    var a, b := PrunedCell(Cell(t, id), id, {}, t1), PrunedCell(Cell(t, id), id, {}, t2);
    var stays := id !in t2 || LastStamp(a, r1, id, t1) > t2[id];
    || id in guarded
    || forall p: Path :: Decider(r2, id, t2, p).None? ==>
         (if stays then HeadAfter(a, r1, id, t1, p) else None) == HeadAfter(b, r1, id, t2, p)
  }

  lemma HeadsOfBoth(
    b: Option<Record>, r1: seq<Record>, r2: seq<Record>, id: string, guarded: set<string>, tombs: map<string, int>,
    p: Path)
    requires id !in guarded && (b.Some? ==> Id(b.value) == id)
    ensures HeadIn(FoldCell(b, r1 + r2, id, guarded, MergeFields, tombs), p) ==
      if Decider(r2, id, tombs, p).Some? then HeadAfter(None, r2, id, tombs, p) else HeadAfter(b, r1, id, tombs, p)
  {
    FoldAtPath(b, r1 + r2, id, guarded, tombs, p);
    DeciderAppend(r1, r2, id, tombs, p);
  }

  /** What the first merge leaves of a path under the later tombstone. */
  lemma HeadsOfFirst(
    a: Option<Record>, r1: seq<Record>, id: string, guarded: set<string>, t1: map<string, int>, t2: map<string, int>,
    p: Path)
    requires id !in guarded && (a.Some? ==> Id(a.value) == id)
    ensures var kept := PrunedCell(FoldCell(a, r1, id, guarded, MergeFields, t1), id, guarded, t2);
      && (kept.Some? ==> Id(kept.value) == id)
      && HeadIn(kept, p) ==
           if id !in t2 || LastStamp(a, r1, id, t1) > t2[id] then HeadAfter(a, r1, id, t1, p) else None
  {
    FieldMergeFold(a, r1, id, guarded, t1);
    FoldedStamp(a, r1, id, guarded, t1);
    FoldAtPath(a, r1, id, guarded, t1, p);
    hide FoldCell, TimestampOf, LastStamp, LastWritten, TakesPart, HeadAfter;
  }

  /** Under field merge two merges in turn and one of both lists agree exactly where, path by path, the
      later tombstones leave the same of the first response. */
  lemma MergeFieldsBatchesIff(
    t: Table, r1: seq<Record>, r2: seq<Record>, guarded: set<string>, t1: map<string, int>, t2: map<string, int>,
    id: string)
    requires Keyed(t)
    ensures Cell(MergeTable(MergeTable(t, r1, guarded, MergeFields, t1), r2, guarded, MergeFields, t2), id)
         == Cell(MergeTable(t, r1 + r2, guarded, MergeFields, t2), id)
       <==> MergeFieldsBatchesAt(t, r1, r2, guarded, t1, t2, id)
  {
    var c := Cell(t, id);
    TwoMergesAt(t, r1, r2, guarded, MergeFields, t1, t2, id);
    if id in guarded {
      GuardedBatches(t, r1, r2, guarded, MergeFields, t1, t2, id);
    } else {
      hide FoldCell, MergeTable, LastStamp, Decider, HeadAt;
      var a, b := PrunedCell(c, id, guarded, t1), PrunedCell(c, id, guarded, t2);
      assert a == PrunedCell(c, id, {}, t1) && b == PrunedCell(c, id, {}, t2);
      var kept := PrunedCell(FoldCell(a, r1, id, guarded, MergeFields, t1), id, guarded, t2);
      var both := FoldCell(b, r1 + r2, id, guarded, MergeFields, t2);
      HeadsOfFirst(a, r1, id, guarded, t1, t2, []);
      FieldsGive(kept, both, r2, id, guarded, t2);
      hide PrunedCell;
      forall p: Path
        ensures HeadAfter(kept, r2, id, t2, p) == HeadIn(both, p) <==>
          (Decider(r2, id, t2, p).None? ==>
            (if id !in t2 || LastStamp(a, r1, id, t1) > t2[id] then HeadAfter(a, r1, id, t1, p) else None)
              == HeadAfter(b, r1, id, t2, p))
      {
        HeadsOfFirst(a, r1, id, guarded, t1, t2, p);
        HeadsOfBoth(b, r1, r2, id, guarded, t2, p);
      }
    }
  }

  /** The exact condition on one id, for each of the four strategies. */
  ghost predicate BatchesAt(
    t: Table, r1: seq<Record>, r2: seq<Record>, guarded: set<string>, strategy: Strategy, t1: map<string, int>,
    t2: map<string, int>, id: string)
  {
    match strategy
    case LastWriteWins => true
    case ServerWins => ServerWinsBatchesAt(t, r1, r2, guarded, t1, t2, id)
    case ClientWins => ClientWinsBatchesAt(t, r1, r2, guarded, t1, t2, id)
    case MergeFields => MergeFieldsBatchesAt(t, r1, r2, guarded, t1, t2, id)
  }

  /** Merging two responses in turn is merging both lists once, if and only if every id batches. */
  lemma BatchesIff(
    t: Table, r1: seq<Record>, r2: seq<Record>, guarded: set<string>, strategy: Strategy, t1: map<string, int>,
    t2: map<string, int>)
    requires Keyed(t) && Dominates(t2, t1)
    ensures MergeTable(MergeTable(t, r1, guarded, strategy, t1), r2, guarded, strategy, t2)
         == MergeTable(t, r1 + r2, guarded, strategy, t2)
       <==> forall id :: BatchesAt(t, r1, r2, guarded, strategy, t1, t2, id)
  {
    var a := MergeTable(MergeTable(t, r1, guarded, strategy, t1), r2, guarded, strategy, t2);
    var b := MergeTable(t, r1 + r2, guarded, strategy, t2);
    hide MergeTable, ServerWinsBatchesAt, ClientWinsBatchesAt, MergeFieldsBatchesAt;
    forall id
      ensures Cell(a, id) == Cell(b, id) <==> BatchesAt(t, r1, r2, guarded, strategy, t1, t2, id)
    {
      match strategy
      case LastWriteWins => LastWriteWinsBatches(t, r1, r2, guarded, t1, t2);
      case ServerWins => ServerWinsBatchesIff(t, r1, r2, guarded, t1, t2, id);
      case ClientWins => ClientWinsBatchesIff(t, r1, r2, guarded, t1, t2, id);
      case MergeFields => MergeFieldsBatchesIff(t, r1, r2, guarded, t1, t2, id);
    }
    hide BatchesAt;
    if forall id :: Cell(a, id) == Cell(b, id) {
      CellsDetermineTable(a, b);
    }
  }

  /** Only last-write-wins always batches: between a local record and a pulled one, the first merge
      leaves the older, which the second tombstones then hide. */
  lemma DoesNotBatch(strategy: Strategy) returns (t: Table, r: Record, tombs: map<string, int>)
    requires strategy != LastWriteWins
    ensures Keyed(t) && Dominates(tombs, map[])
    ensures "a" !in MergeTable(MergeTable(t, [r], {}, strategy, map[]), [], {}, strategy, tombs)
    ensures "a" in MergeTable(t, [r] + [], {}, strategy, tombs)
  {
    var older: Record := Obj(map["id" := Str("a"), "updatedAt" := Num(1)]);
    var newer: Record := Obj(map["id" := Str("a"), "updatedAt" := Num(9)]);
    t := map["a" := if strategy.ClientWins? then older else newer];
    r := if strategy.ClientWins? then newer else older;
    tombs := map["a" := 5];
    assert [r] + [] == [r];
    var first := MergeTable(t, [r], {}, strategy, map[]);
    PullOne(Pruned(t, {}, map[]), r, {}, strategy, map[]);
    PullOne(Pruned(t, {}, tombs), r, {}, strategy, tombs);
    FieldMergeStamps(newer, older);
  }

  // ---- Delivering the same response twice ----

  lemma FieldMergeTwice(
    c: Option<Record>, remote: seq<Record>, id: string, guarded: set<string>, tombs: map<string, int>)
    requires id !in guarded && (c.Some? ==> Id(c.value) == id)
    ensures var d := FoldCell(c, remote, id, guarded, MergeFields, tombs);
      FoldCell(d, remote, id, guarded, MergeFields, tombs) == d
  {
    var d := FoldCell(c, remote, id, guarded, MergeFields, tombs);
    FieldMergeFold(c, remote, id, guarded, tombs);
    FieldMergeFold(d, remote, id, guarded, tombs);
    var e := FoldCell(d, remote, id, guarded, MergeFields, tombs);
    hide FoldCell;
    if d.Some? {
      forall p: Path
        ensures HeadAt(e.value, p) == HeadAt(d.value, p)
      {
        FoldAtPath(c, remote, id, guarded, tombs, p);
        FoldAtPath(d, remote, id, guarded, tombs, p);
      }
      HeadsDetermineValue(e.value, d.value);
    }
  }

  /** Folding the same records again changes nothing, for each of the four strategies. */
  lemma FoldAgain(
    c: Option<Record>, remote: seq<Record>, id: string, guarded: set<string>, strategy: Strategy,
    tombs: map<string, int>)
    requires c.Some? ==> Id(c.value) == id
    ensures var d := FoldCell(c, remote, id, guarded, strategy, tombs);
      FoldCell(d, remote, id, guarded, strategy, tombs) == d
  {
    var d := FoldCell(c, remote, id, guarded, strategy, tombs);
    if id in guarded {
      GuardedFold(c, remote, guarded, strategy, tombs, id);
    } else {
      match strategy
      case ServerWins =>
        ServerWinsPicks(c, remote, id, guarded, tombs);
        ServerWinsPicks(d, remote, id, guarded, tombs);
      case ClientWins =>
        ClientWinsPicks(c, remote, id, guarded, tombs);
        ClientWinsPicks(d, remote, id, guarded, tombs);
      case MergeFields => FieldMergeTwice(c, remote, id, guarded, tombs);
      case LastWriteWins =>
        LastWriteWinsPicks(c, remote, id, guarded, tombs);
        LastWriteWinsPicks(d, remote, id, guarded, tombs);
    }
  }

  /** Wherever the local record says something, some visible pulled record does too. */
  ghost predicate SpokenFor(c: Option<Record>, remote: seq<Record>, id: string, tombs: map<string, int>) {
    c.Some? ==> forall p: Path :: HeadAt(c.value, p).Some? ==> Decider(remote, id, tombs, p).Some?
  }

  lemma FoldForgets(
    c: Option<Record>, remote: seq<Record>, id: string, guarded: set<string>, tombs: map<string, int>)
    requires id !in guarded && (c.Some? ==> Id(c.value) == id)
    ensures FoldCell(None, remote, id, guarded, MergeFields, tombs)
         == FoldCell(c, remote, id, guarded, MergeFields, tombs)
       <==> SpokenFor(c, remote, id, tombs)
  {
    var d := FoldCell(c, remote, id, guarded, MergeFields, tombs);
    FieldsGive(None, d, remote, id, guarded, tombs);
    forall p: Path
      ensures HeadAfter(None, remote, id, tombs, p) == HeadIn(d, p) <==>
        (HeadIn(c, p).Some? ==> Decider(remote, id, tombs, p).Some?)
    {
      FoldAtPath(c, remote, id, guarded, tombs, p);
    }
    hide FoldCell, Decider, HeadAt, HeadAfter;
  }

  /** No field merge falls back under the tombstone of id, or else it leaves nothing of the local
      record that a second one would miss. */
  ghost predicate RedeliversAt(
    t: Table, remote: seq<Record>, guarded: set<string>, strategy: Strategy, tombs: map<string, int>, id: string)
  {
    id in tombs && id !in guarded && FallsTo(t, remote, strategy, tombs, id, tombs[id]) ==>
      SpokenFor(PrunedCell(Cell(t, id), id, {}, tombs), remote, id, tombs)
  }

  lemma RedeliveryAt(
    t: Table, remote: seq<Record>, guarded: set<string>, strategy: Strategy, tombs: map<string, int>, id: string)
    requires Keyed(t)
    ensures var once := MergeTable(t, remote, guarded, strategy, tombs);
      (Cell(MergeTable(once, remote, guarded, strategy, tombs), id) == Cell(once, id)) <==>
        RedeliversAt(t, remote, guarded, strategy, tombs, id)
  {
    var once := MergeTable(t, remote, guarded, strategy, tombs);
    var c := PrunedCell(Cell(t, id), id, guarded, tombs);
    PullAllKeyed(Pruned(t, guarded, tombs), remote, guarded, strategy, tombs);
    PrunedAt(t, guarded, tombs, id);
    PrunedAt(once, guarded, tombs, id);
    PullAllAt(Pruned(t, guarded, tombs), remote, guarded, strategy, tombs, id);
    PullAllAt(Pruned(once, guarded, tombs), remote, guarded, strategy, tombs, id);
    FoldAgain(c, remote, id, guarded, strategy, tombs);
    if id in tombs && id !in guarded {
      NoResurrection(t, remote, guarded, strategy, tombs, id, tombs[id]);
      if strategy.MergeFields? {
        FoldForgets(c, remote, id, guarded, tombs);
      }
    }
    hide FoldCell, FallsTo, TimestampOf, PullAll, SpokenFor;
  }

  /** Delivering a response twice equals delivering it once, for each of the four strategies, if and
      only if every id redelivers; all ids do unless a field merge meets a tombstone before time zero. */
  lemma RedeliveryIsIdempotent(
    t: Table, remote: seq<Record>, guarded: set<string>, strategy: Strategy, tombs: map<string, int>)
    requires Keyed(t)
    ensures var once := MergeTable(t, remote, guarded, strategy, tombs);
      (MergeTable(once, remote, guarded, strategy, tombs) == once) <==>
        forall id :: RedeliversAt(t, remote, guarded, strategy, tombs, id)
    ensures forall id :: !(strategy.MergeFields? && id in tombs && tombs[id] < 0) ==>
      RedeliversAt(t, remote, guarded, strategy, tombs, id)
  {
    var once := MergeTable(t, remote, guarded, strategy, tombs);
    var twice := MergeTable(once, remote, guarded, strategy, tombs);
    forall id
      ensures Cell(twice, id) == Cell(once, id) <==> RedeliversAt(t, remote, guarded, strategy, tombs, id)
      ensures !(strategy.MergeFields? && id in tombs && tombs[id] < 0) ==>
        RedeliversAt(t, remote, guarded, strategy, tombs, id)
    {
      RedeliveryAt(t, remote, guarded, strategy, tombs, id);
      if strategy.MergeFields? && id in tombs && id !in guarded && tombs[id] >= 0 {
        NonNegativeTombstonesHold(t, remote, guarded, strategy, tombs, id);
      }
    }
    hide MergeTable, RedeliversAt;
    if forall id :: Cell(twice, id) == Cell(once, id) {
      CellsDetermineTable(twice, once);
    }
  }

  /** It can fail: the first delivery leaves a stamp of the local record at the tombstone, and the
      second finds the local record hidden. */
  lemma RedeliveryCanDiffer() returns (t: Table, r: Record, tombs: map<string, int>)
    ensures Keyed(t) && "a" in tombs && tombs["a"] < 0
    ensures var once := MergeTable(t, [r], {}, MergeFields, tombs);
      "a" in once && MergeTable(once, [r], {}, MergeFields, tombs) != once
  {
    hide MergeTable;
    var local: Record := Obj(map["id" := Str("a"), "updatedAt" := Num(10), "updated_at" := Num(-5)]);
    r := Obj(map["id" := Str("a"), "updatedAt" := Str("x")]);
    t := map["a" := local];
    tombs := map["a" := -1];
    ShadowedStampDiffers(local, r, "a", tombs);
  }

  lemma ShadowedStampDiffers(local: Record, r: Record, id: string, tombs: map<string, int>)
    requires Id(local) == id && Id(r) == id && id in tombs && !Hidden(local, tombs) && !Hidden(r, tombs)
    requires "updatedAt" in r.fields && !r.fields["updatedAt"].Num? && "updated_at" !in r.fields
    requires "updated_at" in local.fields && local.fields["updated_at"].Num?
    requires local.fields["updated_at"].n <= tombs[id]
    ensures var once := MergeTable(map[id := local], [r], {}, MergeFields, tombs);
      id in once && MergeTable(once, [r], {}, MergeFields, tombs) != once
  {
    var t: Table := map[id := local];
    var p: Path := ["updated_at"];
    assert p[1..] == [];
    OneDecider(r, id, tombs, p);
    OneStamp(local, r, id, tombs);
    assert !SpokenFor(Some(local), [r], id, tombs) by {
      assert HeadAt(local, p) == Some(Head(local.fields["updated_at"]));
    }
    RedeliveryAt(t, [r], {}, MergeFields, tombs, id);
    NoResurrection(t, [r], {}, MergeFields, tombs, id, tombs[id]);
    hide MergeTable, SpokenFor, LastStamp, TimestampOf;
  }

  lemma OneDecider(r: Record, id: string, tombs: map<string, int>, p: Path)
    requires RunsOff(r, p)
    ensures Decider([r], id, tombs, p).None?
  {
    var one := [r];
    assert one[..0] == [];
    assert Decider(one[..0], id, tombs, p).None?;
  }

  lemma OneStamp(c: Record, r: Record, id: string, tombs: map<string, int>)
    requires Id(r) == id && !Hidden(r, tombs)
    requires "updatedAt" in r.fields && !r.fields["updatedAt"].Num? && "updated_at" !in r.fields
    requires "updated_at" in c.fields && c.fields["updated_at"].Num?
    ensures LastStamp(Some(c), [r], id, tombs) == c.fields["updated_at"].n
  {
    var one := [r];
    assert one[..0] == [];
    assert LastWritten(Some(c), one[..0], id, tombs, "updated_at") == Some(c.fields["updated_at"]);
  }
}
