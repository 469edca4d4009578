/** What folding pulled records into one cell leaves, strategy by strategy, read off the records. */
module MergePicks {
  import opened Json
  import opened FieldMerge
  import opened Records
  import opened Merge
  import opened MergeLaws

  // ---- What the folds of the simple strategies pick ----

  function LastVisible(remote: seq<Record>, id: string, tombs: map<string, int>): Option<Record> {
    if remote == [] then None
    else
      var r := remote[|remote| - 1];
      if Id(r) == id && !Hidden(r, tombs) then Some(r) else LastVisible(remote[..|remote| - 1], id, tombs)
  }

  function FirstVisible(remote: seq<Record>, id: string, tombs: map<string, int>): Option<Record> {
    if remote == [] then None
    else
      var before := FirstVisible(remote[..|remote| - 1], id, tombs);
      var r := remote[|remote| - 1];
      if before.Some? then before else if Id(r) == id && !Hidden(r, tombs) then Some(r) else None
  }

  /** The last of the newest visible records. */
  function NewestVisible(remote: seq<Record>, id: string, tombs: map<string, int>): Option<Record> {
    if remote == [] then None
    else
      var before := NewestVisible(remote[..|remote| - 1], id, tombs);
      var r := remote[|remote| - 1];
      if Id(r) == id && !Hidden(r, tombs) then Newer(before, Some(r)) else before
  }

  /** Of two records the later one, unless it is strictly older. */
  function Newer(a: Option<Record>, b: Option<Record>): Option<Record> {
    if b.None? || (a.Some? && TimestampOf(b.value) < TimestampOf(a.value)) then a else b
  }

  function Or(a: Option<Record>, b: Option<Record>): Option<Record> {
    if a.Some? then a else b
  }

  lemma {:induction false} ServerWinsPicks(
    c: Option<Record>, remote: seq<Record>, id: string, guarded: set<string>, tombs: map<string, int>)
    requires id !in guarded
    ensures FoldCell(c, remote, id, guarded, ServerWins, tombs) == Or(LastVisible(remote, id, tombs), c)
    decreases |remote|
  {
    if remote != [] {
      ServerWinsPicks(c, remote[..|remote| - 1], id, guarded, tombs);
    }
  }

  lemma {:induction false} ClientWinsPicks(
    c: Option<Record>, remote: seq<Record>, id: string, guarded: set<string>, tombs: map<string, int>)
    requires id !in guarded
    ensures FoldCell(c, remote, id, guarded, ClientWins, tombs) == Or(c, FirstVisible(remote, id, tombs))
    decreases |remote|
  {
    if remote != [] {
      ClientWinsPicks(c, remote[..|remote| - 1], id, guarded, tombs);
    }
  }

  lemma {:induction false} LastWriteWinsPicks(
    c: Option<Record>, remote: seq<Record>, id: string, guarded: set<string>, tombs: map<string, int>)
    requires id !in guarded
    ensures FoldCell(c, remote, id, guarded, LastWriteWins, tombs) == Newer(c, NewestVisible(remote, id, tombs))
    decreases |remote|
  {
    if remote != [] {
      LastWriteWinsPicks(c, remote[..|remote| - 1], id, guarded, tombs);
    }
  }

  lemma {:induction false} LastVisibleAppend(a: seq<Record>, b: seq<Record>, id: string, tombs: map<string, int>)
    ensures LastVisible(a + b, id, tombs) == Or(LastVisible(b, id, tombs), LastVisible(a, id, tombs))
    decreases |b|
  {
    if b == [] {
      assert a + b == a;
    } else {
      assert (a + b)[..|a + b| - 1] == a + b[..|b| - 1];
      LastVisibleAppend(a, b[..|b| - 1], id, tombs);
    }
  }

  lemma {:induction false} FirstVisibleAppend(a: seq<Record>, b: seq<Record>, id: string, tombs: map<string, int>)
    ensures FirstVisible(a + b, id, tombs) == Or(FirstVisible(a, id, tombs), FirstVisible(b, id, tombs))
    decreases |b|
  {
    if b == [] {
      assert a + b == a;
    } else {
      assert (a + b)[..|a + b| - 1] == a + b[..|b| - 1];
      FirstVisibleAppend(a, b[..|b| - 1], id, tombs);
    }
  }

  // ---- Field merges, path by path ----

  /** The last visible record that says something at a path. */
  function Decider(remote: seq<Record>, id: string, tombs: map<string, int>, p: Path): Option<Record> {
    if remote == [] then None
    else
      var r := remote[|remote| - 1];
      if Id(r) == id && !Hidden(r, tombs) && !RunsOff(r, p) then Some(r)
      else Decider(remote[..|remote| - 1], id, tombs, p)
  }

  lemma {:induction false} DeciderTakesPart(remote: seq<Record>, id: string, tombs: map<string, int>, p: Path)
    ensures Decider(remote, id, tombs, p).Some? ==> TakesPart(None, remote, id, tombs)
  {
    if remote != [] {
      DeciderTakesPart(remote[..|remote| - 1], id, tombs, p);
      assert forall r :: r in remote[..|remote| - 1] ==> r in remote;
      assert remote[|remote| - 1] in remote;
    }
  }

  lemma {:induction false} DeciderAppend(a: seq<Record>, b: seq<Record>, id: string, tombs: map<string, int>, p: Path)
    ensures Decider(a + b, id, tombs, p) == Or(Decider(b, id, tombs, p), Decider(a, id, tombs, p))
    decreases |b|
  {
    if b == [] {
      assert a + b == a;
    } else {
      assert (a + b)[..|a + b| - 1] == a + b[..|b| - 1];
      DeciderAppend(a, b[..|b| - 1], id, tombs, p);
    }
  }

  function HeadIn(c: Option<Record>, p: Path): Option<Json> {
    if c.Some? then HeadAt(c.value, p) else None
  }

  /** At every path the field merges end with the last visible record that says something there. */
  lemma {:induction false} FoldAtPath(
    c: Option<Record>, remote: seq<Record>, id: string, guarded: set<string>, tombs: map<string, int>, p: Path)
    requires id !in guarded && (c.Some? ==> Id(c.value) == id)
    ensures HeadIn(FoldCell(c, remote, id, guarded, MergeFields, tombs), p) ==
      var r := Decider(remote, id, tombs, p);
      if r.Some? then HeadAt(r.value, p) else HeadIn(c, p)
    decreases |remote|
  {
    if remote != [] {
      var init, last := remote[..|remote| - 1], remote[|remote| - 1];
      FoldAtPath(c, init, id, guarded, tombs, p);
      FieldMergeFold(c, init, id, guarded, tombs);
      DeciderTakesPart(init, id, tombs, p);
      var d := FoldCell(c, init, id, guarded, MergeFields, tombs);
      FieldMergeStep(d, last, id, guarded, tombs, p);
    }
  }

  lemma FieldMergeStep(d: Option<Record>, r: Record, id: string, guarded: set<string>, tombs: map<string, int>, p: Path)
    requires id !in guarded
    ensures HeadIn(StepCell(d, r, id, guarded, MergeFields, tombs), p) ==
      if Id(r) != id || Hidden(r, tombs) then HeadIn(d, p)
      else if !RunsOff(r, p) then HeadAt(r, p)
      else HeadIn(d, p)
  {
    if RunsOff(r, p) {
      NothingPastTheEnd(r, p);
    }
    if d.Some? {
      MergeAtPath(d.value, r, p);
    }
    hide HeadAt, RunsOff, MergeJson;
  }

  /** What stands at a path after field merges. */
  function HeadAfter(
    c: Option<Record>, remote: seq<Record>, id: string, tombs: map<string, int>, p: Path): Option<Json>
  {
    var r := Decider(remote, id, tombs, p);
    if r.Some? then HeadAt(r.value, p) else HeadIn(c, p)
  }

  lemma HeadsDetermineCell(a: Option<Record>, b: Option<Record>)
    requires forall p: Path :: HeadIn(a, p) == HeadIn(b, p)
    ensures a == b
  {
    assert HeadIn(a, []) == HeadIn(b, []);
    if a.Some? && b.Some? {
      forall p: Path
        ensures HeadAt(a.value, p) == HeadAt(b.value, p)
      {
        assert HeadIn(a, p) == HeadIn(b, p);
      }
      HeadsDetermineValue(a.value, b.value);
    }
  }

  // ---- When the pulled records leave a given record ----

  /** Folded into mine, the pulled records change nothing. */
  ghost predicate Spares(
    remote: seq<Record>, mine: Record, id: string, strategy: Strategy, tombs: map<string, int>)
  {
    match strategy
    case ClientWins => true
    case ServerWins =>
      var x := LastVisible(remote, id, tombs);
      x.None? || x.value == mine
    case LastWriteWins =>
      var x := NewestVisible(remote, id, tombs);
      x.None? || TimestampOf(x.value) < TimestampOf(mine) || x.value == mine
    case MergeFields =>
      forall p: Path ::
        var x := Decider(remote, id, tombs, p);
        x.Some? ==> HeadAt(x.value, p) == HeadAt(mine, p)
  }

  /** Folded into nothing, the pulled records give mine. */
  ghost predicate Makes(
    remote: seq<Record>, mine: Record, id: string, strategy: Strategy, tombs: map<string, int>)
  {
    match strategy
    case ClientWins => FirstVisible(remote, id, tombs) == Some(mine)
    case ServerWins => LastVisible(remote, id, tombs) == Some(mine)
    case LastWriteWins => NewestVisible(remote, id, tombs) == Some(mine)
    case MergeFields =>
      forall p: Path ::
        var x := Decider(remote, id, tombs, p);
        HeadAt(mine, p) == if x.Some? then HeadAt(x.value, p) else None
  }

  lemma FieldsGive(
    c: Option<Record>, d: Option<Record>, remote: seq<Record>, id: string, guarded: set<string>,
    tombs: map<string, int>)
    requires id !in guarded && (c.Some? ==> Id(c.value) == id)
    ensures FoldCell(c, remote, id, guarded, MergeFields, tombs) == d <==>
      forall p: Path :: HeadAfter(c, remote, id, tombs, p) == HeadIn(d, p)
  {
    var e := FoldCell(c, remote, id, guarded, MergeFields, tombs);
    forall p: Path
      ensures HeadIn(e, p) == HeadAfter(c, remote, id, tombs, p)
    {
      FoldAtPath(c, remote, id, guarded, tombs, p);
    }
    hide FoldCell, HeadAfter, HeadIn;
    if forall p: Path :: HeadAfter(c, remote, id, tombs, p) == HeadIn(d, p) {
      HeadsDetermineCell(e, d);
    }
  }

  lemma FoldSpares(
    mine: Record, remote: seq<Record>, id: string, guarded: set<string>, strategy: Strategy, tombs: map<string, int>)
    requires id !in guarded && Id(mine) == id
    ensures FoldCell(Some(mine), remote, id, guarded, strategy, tombs) == Some(mine) <==>
      Spares(remote, mine, id, strategy, tombs)
  {
    hide FoldCell, LastVisible, FirstVisible, NewestVisible, Decider, HeadAt, TimestampOf;
    match strategy
    case ClientWins => ClientWinsPicks(Some(mine), remote, id, guarded, tombs);
    case ServerWins => ServerWinsPicks(Some(mine), remote, id, guarded, tombs);
    case LastWriteWins => LastWriteWinsPicks(Some(mine), remote, id, guarded, tombs);
    case MergeFields =>
      FieldsGive(Some(mine), Some(mine), remote, id, guarded, tombs);
      assert forall p: Path ::
        var x := Decider(remote, id, tombs, p);
        HeadAfter(Some(mine), remote, id, tombs, p) == if x.Some? then HeadAt(x.value, p) else HeadAt(mine, p);
  }

  lemma FoldMakes(
    mine: Record, remote: seq<Record>, id: string, guarded: set<string>, strategy: Strategy, tombs: map<string, int>)
    requires id !in guarded
    ensures FoldCell(None, remote, id, guarded, strategy, tombs) == Some(mine) <==>
      Makes(remote, mine, id, strategy, tombs)
  {
    hide FoldCell, LastVisible, FirstVisible, NewestVisible, Decider, HeadAt, TimestampOf;
    match strategy
    case ClientWins => ClientWinsPicks(None, remote, id, guarded, tombs);
    case ServerWins => ServerWinsPicks(None, remote, id, guarded, tombs);
    case LastWriteWins => LastWriteWinsPicks(None, remote, id, guarded, tombs);
    case MergeFields =>
      FieldsGive(None, Some(mine), remote, id, guarded, tombs);
      assert forall p: Path ::
        var x := Decider(remote, id, tombs, p);
        HeadAfter(None, remote, id, tombs, p) == if x.Some? then HeadAt(x.value, p) else None;
  }

  lemma {:induction false} FoldTakesPart(
    c: Option<Record>, remote: seq<Record>, id: string, guarded: set<string>, strategy: Strategy,
    tombs: map<string, int>)
    requires id !in guarded
    ensures FoldCell(c, remote, id, guarded, strategy, tombs).Some? <==> TakesPart(c, remote, id, tombs)
    decreases |remote|
  {
    if remote != [] {
      var init, last := remote[..|remote| - 1], remote[|remote| - 1];
      FoldTakesPart(c, init, id, guarded, strategy, tombs);
      assert forall r :: r in remote <==> r in init || r == last;
    }
  }
}
