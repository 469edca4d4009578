/** Merging a pulled piece of the server's log, although it arrives as two separate lists and only
    timestamps tell the order, gives the same table as replaying the log. */
module LogFold {
  import opened Json
  import opened Records
  import opened Merge
  import opened MergeLaws
  import opened Server
  import opened ServerLaws
  import opened Client
  import opened ClientLaws

  /** What the first n entries of a log leave under an id. */
  function At(log: seq<Change>, n: nat, id: string): Option<Record>
    requires n <= |log|
  {
    Cell(Replay(log[..n]), id)
  }

  /** Entry i of the log deletes id. */
  predicate CutAt(log: seq<Change>, i: int, id: string) {
    0 <= i < |log| && log[i].body.Cut? && log[i].body.tombstone.id == id
  }

  predicate TouchedAt(log: seq<Change>, i: int, id: string) {
    0 <= i < |log| && Touched(log[i]) == id
  }

  ghost predicate TouchedIn(log: seq<Change>, from: nat, to: nat, id: string) {
    exists i :: from <= i < to && TouchedAt(log, i, id)
  }

  lemma AtStep(log: seq<Change>, n: nat, id: string)
    requires n < |log|
    ensures At(log, n + 1, id) ==
      if Touched(log[n]) != id then At(log, n, id)
      else if log[n].body.Put? then Some(log[n].body.record) else None
  {
    assert log[..n + 1][..n] == log[..n];
  }

  /** The record under an id is the last entry that touched the id, and carries its version. */
  lemma {:induction false} AtIsLast(log: seq<Change>, n: nat, id: string)
    requires LogStamped(log) && n <= |log| && At(log, n, id).Some?
    ensures 1 <= TimestampOf(At(log, n, id).value) <= n
    ensures forall i :: TimestampOf(At(log, n, id).value) <= i < n ==> !TouchedAt(log, i, id)
    ensures Id(At(log, n, id).value) == id
    ensures !CutAt(log, TimestampOf(At(log, n, id).value) - 1, id)
  {
    if n > 0 {
      AtStep(log, n - 1, id);
      assert Stamped(log[n - 1], n);
      if Touched(log[n - 1]) != id {
        AtIsLast(log, n - 1, id);
      }
    }
  }

  /** The tombstone of id is a deletion in the first n entries, and the last one from c on. */
  ghost predicate LastCut(log: seq<Change>, c: nat, n: nat, tombs: map<string, int>, id: string) {
    && (id in tombs ==> 1 <= tombs[id] <= n && CutAt(log, tombs[id] - 1, id))
    && (forall i :: c <= i < n && CutAt(log, i, id) ==> id in tombs && i + 1 <= tombs[id])
  }

  /** No entry at or before a tombstone's own survives it: the replay is above it already. */
  lemma ReplayIsAbove(log: seq<Change>, c: nat, n: nat, tombs: map<string, int>, id: string)
    requires LogStamped(log) && c <= n <= |log| && LastCut(log, c, n, tombs, id)
    ensures PrunedCell(At(log, n, id), id, {}, tombs) == At(log, n, id)
  {
    if At(log, n, id).Some? && id in tombs {
      AtIsLast(log, n, id);
      assert TouchedAt(log, tombs[id] - 1, id);
    }
  }

  lemma RecordsStep(log: seq<Change>, c: nat, k: nat)
    requires c <= k < |log|
    ensures RecordsIn(log[c..k + 1]) ==
      if log[k].body.Put? then RecordsIn(log[c..k]) + [log[k].body.record] else RecordsIn(log[c..k])
    ensures TombstonesIn(log[c..k + 1]) ==
      if log[k].body.Cut? then TombstonesIn(log[c..k]) + [log[k].body.tombstone] else TombstonesIn(log[c..k])
  {
    var cs := log[c..k + 1];
    assert cs[..|cs| - 1] == log[c..k] && cs[|cs| - 1] == log[k];
  }

  function FoldTo(
    base: Option<Record>, log: seq<Change>, c: nat, k: nat, id: string, strategy: Strategy,
    tombs: map<string, int>): Option<Record>
    requires c <= k <= |log|
  {
    FoldCell(base, RecordsIn(log[c..k]), id, {}, strategy, tombs)
  }

  lemma FoldToStep(
    base: Option<Record>, log: seq<Change>, c: nat, k: nat, id: string, strategy: Strategy, tombs: map<string, int>)
    requires c <= k < |log|
    ensures FoldTo(base, log, c, k + 1, id, strategy, tombs) ==
      if log[k].body.Put? then StepCell(FoldTo(base, log, c, k, id, strategy, tombs), log[k].body.record, id, {},
        strategy, tombs)
      else FoldTo(base, log, c, k, id, strategy, tombs)
  {
    RecordsStep(log, c, k);
    if log[k].body.Put? {
      var init := RecordsIn(log[c..k]);
      assert (init + [log[k].body.record])[..|init|] == init;
    }
  }

  /** The fold over the records of log[c..k] shows nothing newer than k, nothing a tombstone hides,
      and what the replay shows, if it started in step with it or an entry touched the id. */
  ghost predicate Following(
    base: Option<Record>, log: seq<Change>, c: nat, k: nat, id: string, strategy: Strategy, tombs: map<string, int>)
    requires c <= k <= |log|
  {
    var d := FoldTo(base, log, c, k, id, strategy, tombs);
    && (d.Some? ==> Id(d.value) == id && TimestampOf(d.value) <= k)
    && d == PrunedCell(d, id, {}, tombs)
    && (TouchedIn(log, c, k, id) || base == PrunedCell(At(log, c, id), id, {}, tombs) ==>
          d == PrunedCell(At(log, k, id), id, {}, tombs))
  }

  /** Under last-write-wins or server-wins the fold over the pulled records follows the replay of
      the log, once it started in step with it or an entry touched the id. */
  lemma {:induction false} FoldFollowsLog(
    base: Option<Record>, log: seq<Change>, c: nat, k: nat, n: nat, id: string, strategy: Strategy,
    tombs: map<string, int>)
    requires LogStamped(log) && c <= k <= n <= |log|
    requires LastCut(log, c, n, tombs, id)
    requires strategy == LastWriteWins || strategy == ServerWins
    requires base.Some? ==> Id(base.value) == id && TimestampOf(base.value) <= c
    requires base == PrunedCell(base, id, {}, tombs)
    ensures Following(base, log, c, k, id, strategy, tombs)
    decreases k
  {
    if k == c {
      EmptyPull(log, c);
    } else {
      hide Following, LogStamped, LastCut, PrunedCell, TimestampOf;
      FoldFollowsLog(base, log, c, k - 1, n, id, strategy, tombs);
      FollowOne(base, log, c, k - 1, n, id, strategy, tombs);
    }
  }

  /** One entry on the id itself: whatever was shown before, the entry decides. */
  lemma EntryDecides(d: Option<Record>, entry: Change, k: nat, id: string, strategy: Strategy, tombs: map<string, int>)
    requires strategy == LastWriteWins || strategy == ServerWins
    requires d.Some? ==> Id(d.value) == id && TimestampOf(d.value) <= k
    requires d == PrunedCell(d, id, {}, tombs)
    requires Stamped(entry, k + 1) && Touched(entry) == id
    requires entry.body.Cut? ==> id in tombs && k + 1 <= tombs[id]
    ensures var e := if entry.body.Put? then StepCell(d, entry.body.record, id, {}, strategy, tombs) else d;
      && e == PrunedCell(if entry.body.Put? then Some(entry.body.record) else None, id, {}, tombs)
      && (e.Some? ==> Id(e.value) == id && TimestampOf(e.value) == k + 1)
  {}

  lemma FollowOne(
    base: Option<Record>, log: seq<Change>, c: nat, k: nat, n: nat, id: string, strategy: Strategy,
    tombs: map<string, int>)
    requires LogStamped(log) && c <= k < n <= |log|
    requires LastCut(log, c, n, tombs, id)
    requires strategy == LastWriteWins || strategy == ServerWins
    requires Following(base, log, c, k, id, strategy, tombs)
    ensures Following(base, log, c, k + 1, id, strategy, tombs)
  {
    FoldToStep(base, log, c, k, id, strategy, tombs);
    AtStep(log, k, id);
    assert Stamped(log[k], k + 1);
    var d := FoldTo(base, log, c, k, id, strategy, tombs);
    hide FoldTo, At, FoldCell, LogStamped;
    if TouchedAt(log, k, id) {
      assert log[k].body.Cut? ==> CutAt(log, k, id);
      hide StepCell, TouchedIn, LastCut;
      EntryDecides(d, log[k], k, id, strategy, tombs);
    } else {
      assert TouchedIn(log, c, k + 1, id) ==> TouchedIn(log, c, k, id);
    }
  }

  // ---- The tombstones of a pull ----

  /** The last entry of a piece of the log adds its own tombstone, if it is a deletion. */
  lemma TombstoneStep(entry: Change, n: nat, before: seq<Tombstone>, after: seq<Tombstone>, t: Tombstone)
    requires Stamped(entry, n)
    requires after == if entry.body.Cut? then before + [entry.body.tombstone] else before
    ensures t in after <==>
      t in before || (t.timestamp == n && entry.body.Cut? && entry.body.tombstone.id == t.id)
  {}

  lemma {:induction false} TombstoneOfLog(log: seq<Change>, c: nat, n: nat, t: Tombstone)
    requires LogStamped(log) && c <= n <= |log|
    ensures t in TombstonesIn(log[c..n]) <==> c < t.timestamp <= n && CutAt(log, t.timestamp - 1, t.id)
    decreases n
  {
    hide TombstonesIn, RecordsIn, Stamped;
    if n == c {
      EmptyPull(log, c);
    } else {
      assert Stamped(log[n - 1], n);
      hide LogStamped;
      RecordsStep(log, c, n - 1);
      TombstoneOfLog(log, c, n - 1, t);
      TombstoneStep(log[n - 1], n, TombstonesIn(log[c..n - 1]), TombstonesIn(log[c..n]), t);
    }
  }

  lemma EmptyPull(log: seq<Change>, c: nat)
    requires c <= |log|
    ensures RecordsIn(log[c..c]) == [] && TombstonesIn(log[c..c]) == []
  {
    assert log[c..c] == [];
  }

  /** Tombstones that all name deletions in the first n entries. */
  ghost predicate CutsOf(log: seq<Change>, n: nat, tombs: map<string, int>) {
    forall id :: id in tombs ==> 1 <= tombs[id] <= n && CutAt(log, tombs[id] - 1, id)
  }

  /** The union of stored and pulled tombstones keeps exactly the last deletion that matters. */
  lemma UnionIsLastCut(log: seq<Change>, c: nat, n: nat, stored: map<string, int>, id: string)
    requires LogStamped(log) && c <= n <= |log| && CutsOf(log, c, stored)
    ensures LastCut(log, c, n, UnionTombs(stored, TombstonesIn(log[c..n])), id)
  {
    var ts := TombstonesIn(log[c..n]);
    var tombs := UnionTombs(stored, ts);
    UnionTombsAbove(stored, ts);
    hide UnionTombs, TombstonesIn, LogStamped;
    if id in tombs && !(id in stored && stored[id] == tombs[id]) {
      TombstoneOfLog(log, c, n, Tombstone(id, tombs[id]));
    }
    forall i | c <= i < n && CutAt(log, i, id)
      ensures id in tombs && i + 1 <= tombs[id]
    {
      TombstoneOfLog(log, c, n, Tombstone(id, i + 1));
      assert Tombstone(id, i + 1) in ts;
    }
  }

  /** Receiving log[c..n] brings the shown record of an id in step with the replay of n entries. */
  lemma PullFollowsLog(
    memory: Table, log: seq<Change>, c: nat, n: nat, id: string, strategy: Strategy, stored: map<string, int>)
    requires LogStamped(log) && c <= n <= |log| && CutsOf(log, c, stored)
    requires strategy == LastWriteWins || strategy == ServerWins
    requires Keyed(memory) && (id in memory ==> TimestampOf(memory[id]) <= c)
    requires TouchedIn(log, c, n, id) || Cell(memory, id) == At(log, c, id)
    ensures Cell(MergeTable(memory, RecordsIn(log[c..n]), {}, strategy,
      UnionTombs(stored, TombstonesIn(log[c..n]))), id)
         == At(log, n, id)
  {
    var tombs := UnionTombs(stored, TombstonesIn(log[c..n]));
    var pruned := Pruned(memory, {}, tombs);
    UnionIsLastCut(log, c, n, stored, id);
    PullAllAt(pruned, RecordsIn(log[c..n]), {}, strategy, tombs, id);
    assert Cell(pruned, id) == PrunedCell(Cell(memory, id), id, {}, tombs);
    FoldFollowsLog(Cell(pruned, id), log, c, n, n, id, strategy, tombs);
    ReplayIsAbove(log, c, n, tombs, id);
  }

  /** And whatever it shows is no newer than the log. */
  lemma PullIsBounded(
    memory: Table, log: seq<Change>, c: nat, n: nat, id: string, strategy: Strategy, stored: map<string, int>)
    requires LogStamped(log) && c <= n <= |log| && CutsOf(log, c, stored)
    requires strategy == LastWriteWins || strategy == ServerWins
    requires Keyed(memory) && (id in memory ==> TimestampOf(memory[id]) <= c)
    ensures var merged := MergeTable(memory, RecordsIn(log[c..n]), {}, strategy,
      UnionTombs(stored, TombstonesIn(log[c..n])));
      id in merged ==> Id(merged[id]) == id && TimestampOf(merged[id]) <= n
  {
    var tombs := UnionTombs(stored, TombstonesIn(log[c..n]));
    var pruned := Pruned(memory, {}, tombs);
    UnionIsLastCut(log, c, n, stored, id);
    PullAllAt(pruned, RecordsIn(log[c..n]), {}, strategy, tombs, id);
    assert Cell(pruned, id) == PrunedCell(Cell(memory, id), id, {}, tombs);
    FoldFollowsLog(Cell(pruned, id), log, c, n, n, id, strategy, tombs);
  }
}
