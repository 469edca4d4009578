/** Laws of the stored record table: last write wins whatever the order of the writes. */
module StoreLaws {
  import opened Json
  import opened Records
  import opened Store

  /** What a reader sees of one id: the payload kept under a tombstone is not visible. */
  datatype View = Absent | Shown(record: Record, at: int) | Gone(at: int)

  function ViewOf(row: Option<StoredRow>): View {
    if row.None? then Absent
    else if row.value.deleted then Gone(row.value.updatedAt)
    else Shown(row.value.payload, row.value.updatedAt)
  }

  function Effect(w: Write): View {
    match w
    case Save(record, at) => Shown(record, at)
    case Erase(_, at) => Gone(at)
  }

  function ApplyAll(rows: Rows, ws: seq<Write>): Rows {
    if ws == [] then rows else Apply(ApplyAll(rows, ws[..|ws| - 1]), ws[|ws| - 1])
  }

  /** w is the last of the newest writes to id in ws. */
  ghost predicate Wins(w: Write, ws: seq<Write>, id: string, k: nat) {
    && k < |ws| && ws[k] == w && Target(w) == id
    && (forall j :: 0 <= j < k && Target(ws[j]) == id ==> ws[j].at <= w.at)
    && (forall j :: k < j < |ws| && Target(ws[j]) == id ==> ws[j].at < w.at)
  }

  ghost predicate Written(ws: seq<Write>, id: string) {
    exists j :: 0 <= j < |ws| && Target(ws[j]) == id
  }

  lemma {:induction false} SomeWriteWins(ws: seq<Write>, id: string) returns (w: Write, k: nat)
    requires Written(ws, id)
    ensures Wins(w, ws, id, k)
  {
    var init, last := ws[..|ws| - 1], ws[|ws| - 1];
    if Written(init, id) {
      w, k := SomeWriteWins(init, id);
      assert forall j :: 0 <= j < |init| ==> ws[j] == init[j];
      if Target(last) == id && last.at >= w.at {
        w, k := last, |init|;
        assert forall j :: 0 <= j < |init| && Target(ws[j]) == id ==> init[j].at <= last.at;
      }
    } else {
      assert forall j :: 0 <= j < |init| ==> ws[j] == init[j];
      w, k := last, |init|;
    }
  }

  lemma {:induction false} UnwrittenKept(rows: Rows, ws: seq<Write>, id: string)
    requires !Written(ws, id)
    ensures RowAt(ApplyAll(rows, ws), id) == RowAt(rows, id)
  {
    if ws != [] {
      var init := ws[..|ws| - 1];
      assert forall j :: 0 <= j < |init| ==> init[j] == ws[j];
      UnwrittenKept(rows, init, id);
      assert Target(ws[|ws| - 1]) != id;
    }
  }

  lemma {:induction false} RowTime(rows: Rows, ws: seq<Write>, id: string, bound: int)
    requires id in rows ==> rows[id].updatedAt <= bound
    requires forall j :: 0 <= j < |ws| && Target(ws[j]) == id ==> ws[j].at <= bound
    ensures id in ApplyAll(rows, ws) ==> ApplyAll(rows, ws)[id].updatedAt <= bound
  {
    if ws != [] {
      var init := ws[..|ws| - 1];
      assert forall j :: 0 <= j < |init| ==> init[j] == ws[j];
      RowTime(rows, init, id, bound);
    }
  }

  /** After any writes, a reader sees the newest one (the last applied of equals), unless the row
      was strictly newer before. */
  lemma {:induction false} NewestWriteShows(rows: Rows, ws: seq<Write>, id: string, w: Write, k: nat)
    requires Wins(w, ws, id, k)
    ensures ViewOf(RowAt(ApplyAll(rows, ws), id))
         == if id in rows && rows[id].updatedAt > w.at then ViewOf(RowAt(rows, id)) else Effect(w)
  {
    var init, last := ws[..|ws| - 1], ws[|ws| - 1];
    assert forall j :: 0 <= j < |init| ==> init[j] == ws[j];
    if k < |init| {
      assert Wins(w, init, id, k);
      NewestWriteShows(rows, init, id, w, k);
    } else {
      if id in rows && rows[id].updatedAt > w.at {
        NewerRowStays(rows, init, id, w.at);
      } else {
        RowTime(rows, init, id, w.at);
      }
    }
  }

  lemma {:induction false} NewerRowStays(rows: Rows, ws: seq<Write>, id: string, bound: int)
    requires id in rows && rows[id].updatedAt > bound
    requires forall j :: 0 <= j < |ws| && Target(ws[j]) == id ==> ws[j].at <= bound
    ensures RowAt(ApplyAll(rows, ws), id) == RowAt(rows, id)
  {
    if ws != [] {
      var init := ws[..|ws| - 1];
      assert forall j :: 0 <= j < |init| ==> init[j] == ws[j];
      NewerRowStays(rows, init, id, bound);
    }
  }

  /** No two writes to one id carry the same timestamp. */
  ghost predicate DistinctTimes(ws: seq<Write>) {
    forall i, j :: 0 <= i < j < |ws| && Target(ws[i]) == Target(ws[j]) ==> ws[i].at != ws[j].at
  }

  lemma SameWrites(ws: seq<Write>, vs: seq<Write>)
    requires multiset(ws) == multiset(vs)
    ensures forall w :: w in ws <==> w in vs
  {
    forall w
      ensures w in ws <==> w in vs
    {
      assert w in ws <==> w in multiset(ws);
      assert w in vs <==> w in multiset(vs);
    }
  }

  lemma WrittenInBoth(ws: seq<Write>, vs: seq<Write>, id: string)
    requires forall w :: w in ws ==> w in vs
    ensures Written(ws, id) ==> Written(vs, id)
  {
    if Written(ws, id) {
      var j :| 0 <= j < |ws| && Target(ws[j]) == id;
      assert ws[j] in vs;
    }
  }

  /** Replicas of a table that apply the same writes in any two orders show the same records and
      the same tombstones. */
  lemma WritesCommute(rows: Rows, ws: seq<Write>, vs: seq<Write>)
    requires multiset(ws) == multiset(vs) && DistinctTimes(ws)
    ensures forall id :: ViewOf(RowAt(ApplyAll(rows, ws), id)) == ViewOf(RowAt(ApplyAll(rows, vs), id))
    ensures Live(ApplyAll(rows, ws)) == Live(ApplyAll(rows, vs))
    ensures Tombs(ApplyAll(rows, ws)) == Tombs(ApplyAll(rows, vs))
  {
    SameWrites(ws, vs);
    var a, b := ApplyAll(rows, ws), ApplyAll(rows, vs);
    forall id
      ensures ViewOf(RowAt(a, id)) == ViewOf(RowAt(b, id))
    {
      if Written(ws, id) {
        var w, k := SomeWriteWins(ws, id);
        assert w in vs;
        var i :| 0 <= i < |vs| && vs[i] == w;
        var v, j := SomeWriteWins(vs, id);
        assert v in ws;
        var l :| 0 <= l < |ws| && ws[l] == v;
        assert v.at == w.at;
        NewestWriteShows(rows, ws, id, w, k);
        NewestWriteShows(rows, vs, id, v, j);
      } else {
        WrittenInBoth(vs, ws, id);
        UnwrittenKept(rows, ws, id);
        UnwrittenKept(rows, vs, id);
      }
    }
    SameViews(a, b);
  }

  lemma SameViews(a: Rows, b: Rows)
    requires forall id :: ViewOf(RowAt(a, id)) == ViewOf(RowAt(b, id))
    ensures Live(a) == Live(b) && Tombs(a) == Tombs(b)
  {
    forall id
      ensures id in Live(a) <==> id in Live(b)
      ensures id in Live(a) && id in Live(b) ==> Live(a)[id] == Live(b)[id]
      ensures id in Tombs(a) <==> id in Tombs(b)
      ensures id in Tombs(a) && id in Tombs(b) ==> Tombs(a)[id] == Tombs(b)[id]
    {
      assert ViewOf(RowAt(a, id)) == ViewOf(RowAt(b, id));
    }
  }

  /** Clearing hides nothing and revives nothing: live rows and newer deletions stay. */
  lemma ClearedTombstoneWasCovered(rows: Rows, id: string, through: int)
    ensures Live(ClearTombstone(rows, id, through)) == Live(rows)
    ensures forall k :: k in Tombs(ClearTombstone(rows, id, through)) <==>
      k in Tombs(rows) && (k != id || Tombs(rows)[k] > through)
    ensures forall k :: k in Tombs(ClearTombstone(rows, id, through)) ==>
      Tombs(ClearTombstone(rows, id, through))[k] == Tombs(rows)[k]
  {
    assert Live(ClearTombstone(rows, id, through)).Keys == Live(rows).Keys;
  }
}
