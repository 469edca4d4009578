/** The recursive field merge of src/merge.ts. */
module FieldMerge {
  import opened Json

  /** What MergeJsonValue computes: remote values win, keys the remote lacks are kept. */
  function MergeJson(local: Json, remote: Json): Json
    decreases remote
  {
    if !local.Obj? || !remote.Obj? then remote
    else
      Obj(map k | k in local.fields.Keys + remote.fields.Keys ::
        if k !in remote.fields then local.fields[k]
        else if k !in local.fields then remote.fields[k]
        else MergeJson(local.fields[k], remote.fields[k]))
  }

  /** The fields after the remote entries in done have been visited, on the way to whole. */
  ghost predicate MergedThrough(
    local: map<string, Json>, whole: map<string, Json>, done: set<string>, fields: map<string, Json>)
  {
    && done <= whole.Keys
    && fields.Keys == local.Keys + done
    && (forall k :: k in done ==> fields[k] == whole[k])
    && (forall k :: k in local && k !in done ==> fields[k] == local[k])
  }

  lemma MergedField(local: Json, remote: Json, key: string)
    requires local.Obj? && remote.Obj? && key in remote.fields
    ensures key in MergeJson(local, remote).fields
    ensures MergeJson(local, remote).fields[key]
         == if key in local.fields then MergeJson(local.fields[key], remote.fields[key]) else remote.fields[key]
  {}

  lemma MergedKeys(local: Json, remote: Json)
    requires local.Obj? && remote.Obj?
    ensures MergeJson(local, remote).Obj?
    ensures MergeJson(local, remote).fields.Keys == local.fields.Keys + remote.fields.Keys
  {}

  lemma MergedThroughAll(
    local: map<string, Json>, whole: map<string, Json>, done: set<string>, fields: map<string, Json>)
    requires MergedThrough(local, whole, done, fields)
    requires whole.Keys == local.Keys + done
    requires forall k :: k in local && k !in done ==> whole[k] == local[k]
    ensures fields == whole
  {}

  lemma MergedRest(local: Json, remote: Json)
    requires local.Obj? && remote.Obj?
    ensures forall k :: k in local.fields && k !in remote.fields ==>
      k in MergeJson(local, remote).fields && MergeJson(local, remote).fields[k] == local.fields[k]
  {}

  /** The loop of the source: copy the local object, then visit the remote entries in any order. */
  method MergeJsonValue(local: Json, remote: Json) returns (merged: Json)
    ensures merged == MergeJson(local, remote)
    decreases remote, 1
  {
    if !local.Obj? || !remote.Obj? {
      return remote;
    }
    merged := MergeEntries(local, remote);
  }

  method MergeEntries(local: Json, remote: Json) returns (merged: Json)
    requires local.Obj? && remote.Obj?
    ensures merged == MergeJson(local, remote)
    decreases remote, 0
  {
    var fields := local.fields;
    var done: set<string> := {};
    ghost var whole := MergeJson(local, remote).fields;
    while remote.fields.Keys - done != {}
      invariant done <= remote.fields.Keys
      invariant MergedThrough(local.fields, whole, done, fields)
      decreases remote.fields.Keys - done
    {
      var key :| key in remote.fields.Keys - done;
      var value := remote.fields[key];
      MergedField(local, remote, key);
      if key in local.fields {
        value := MergeJsonValue(local.fields[key], value);
      }
      assert value == whole[key];
      fields := fields[key := value];
      done := done + {key};
    }
    assert done == remote.fields.Keys;
    MergedKeys(local, remote);
    MergedRest(local, remote);
    MergedThroughAll(local.fields, whole, done, fields);
    merged := Obj(fields);
  }

  lemma {:induction false} NothingPastTheEnd(v: Json, path: Path)
    requires RunsOff(v, path)
    ensures HeadAt(v, path) == None
    decreases |path|
  {
    if path[0] in v.fields {
      NothingPastTheEnd(v.fields[path[0]], path[1..]);
    }
  }

  /** At every path the remote decides, except where the remote runs off the end of an object:
      there the local value stays. */
  lemma {:induction false} MergeAtPath(local: Json, remote: Json, path: Path)
    ensures HeadAt(MergeJson(local, remote), path)
         == if RunsOff(remote, path) then HeadAt(local, path) else HeadAt(remote, path)
    decreases |path|
  {
    if RunsOff(remote, path) {
      NothingPastTheEnd(remote, path);
    }
    if path != [] && local.Obj? && remote.Obj? {
      var k := path[0];
      if k in local.fields && k in remote.fields {
        MergeAtPath(local.fields[k], remote.fields[k], path[1..]);
      }
    }
  }

  /** No value is overwritten twice: the laws below follow from the paths alone. */
  lemma {:induction false} MergeIdempotent(v: Json)
    ensures MergeJson(v, v) == v
  {
    forall p: Path
      ensures HeadAt(MergeJson(v, v), p) == HeadAt(v, p)
    {
      MergeAtPath(v, v, p);
    }
    HeadsDetermineValue(MergeJson(v, v), v);
  }

  /** Merging the same remote value again changes nothing. */
  lemma {:induction false} MergeAbsorbs(local: Json, remote: Json)
    ensures MergeJson(MergeJson(local, remote), remote) == MergeJson(local, remote)
  {
    var once := MergeJson(local, remote);
    forall p: Path
      ensures HeadAt(MergeJson(once, remote), p) == HeadAt(once, p)
    {
      MergeAtPath(once, remote, p);
      MergeAtPath(local, remote, p);
    }
    HeadsDetermineValue(MergeJson(once, remote), once);
  }

  /** Merging a under c leaves no trace of a: c has every key of a, at every depth. */
  predicate Covers(c: Json, a: Json)
    decreases c
  {
    c.Obj? && a.Obj? ==>
      forall k :: k in a.fields ==> k in c.fields && Covers(c.fields[k], a.fields[k])
  }

  lemma {:induction false} CoversMeansLost(a: Json, c: Json)
    ensures MergeJson(a, c) == c <==> Covers(c, a)
    decreases c
  {
    if c.Obj? && a.Obj? {
      var m := MergeJson(a, c);
      assert m.fields.Keys == a.fields.Keys + c.fields.Keys;
      forall k | k in a.fields && k in c.fields
        ensures m.fields[k] == c.fields[k] <==> Covers(c.fields[k], a.fields[k])
      {
        CoversMeansLost(a.fields[k], c.fields[k]);
      }
      if Covers(c, a) {
        assert m.fields.Keys == c.fields.Keys;
        assert forall k :: k in c.fields ==> m.fields[k] == c.fields[k];
        assert m.fields == c.fields;
      } else {
        assert exists k :: k in a.fields && !(k in c.fields && Covers(c.fields[k], a.fields[k]));
      }
    }
  }

  /** No common object of a and c is shadowed by a non-object in b, unless c covers a there anyway. */
  predicate Associates(a: Json, b: Json, c: Json)
    decreases c
  {
    if !a.Obj? || !c.Obj? then true
    else if !b.Obj? then Covers(c, a)
    else
      forall k :: k in a.fields && k in b.fields && k in c.fields ==>
        Associates(a.fields[k], b.fields[k], c.fields[k])
  }

  /** The exact condition under which the grouping of two field merges does not matter. */
  lemma {:induction false} MergeAssociatesIff(a: Json, b: Json, c: Json)
    ensures MergeJson(MergeJson(a, b), c) == MergeJson(a, MergeJson(b, c)) <==> Associates(a, b, c)
    decreases c
  {
    if a.Obj? && c.Obj? {
      if b.Obj? {
        AssociatesByKey(a, b, c);
        forall k | k in a.fields && k in b.fields && k in c.fields
          ensures MergeJson(MergeJson(a.fields[k], b.fields[k]), c.fields[k])
               == MergeJson(a.fields[k], MergeJson(b.fields[k], c.fields[k]))
             <==> Associates(a.fields[k], b.fields[k], c.fields[k])
        {
          MergeAssociatesIff(a.fields[k], b.fields[k], c.fields[k]);
        }
      } else {
        CoversMeansLost(a, c);
      }
    }
  }

  /** Of three objects only the common keys can tell the groupings apart. */
  lemma AssociatesByKey(a: Json, b: Json, c: Json)
    requires a.Obj? && b.Obj? && c.Obj?
    ensures MergeJson(MergeJson(a, b), c) == MergeJson(a, MergeJson(b, c)) <==>
      forall k :: k in a.fields && k in b.fields && k in c.fields ==>
        MergeJson(MergeJson(a.fields[k], b.fields[k]), c.fields[k])
          == MergeJson(a.fields[k], MergeJson(b.fields[k], c.fields[k]))
  {
    var x, y := MergeJson(MergeJson(a, b), c), MergeJson(a, MergeJson(b, c));
    GroupingKeys(a, b, c);
    hide MergeJson;
    forall k | k in x.fields
      ensures if k in a.fields && k in b.fields && k in c.fields then
          && x.fields[k] == MergeJson(MergeJson(a.fields[k], b.fields[k]), c.fields[k])
          && y.fields[k] == MergeJson(a.fields[k], MergeJson(b.fields[k], c.fields[k]))
        else x.fields[k] == y.fields[k]
    {
      GroupingAt(a, b, c, k);
    }
    SameFields(x, y);
  }

  lemma SameFields(x: Json, y: Json)
    requires x.Obj? && y.Obj? && x.fields.Keys == y.fields.Keys
    ensures x == y <==> forall k :: k in x.fields ==> x.fields[k] == y.fields[k]
  {
    if forall k :: k in x.fields ==> x.fields[k] == y.fields[k] {
      assert x.fields == y.fields;
    }
  }

  lemma GroupingKeys(a: Json, b: Json, c: Json)
    requires a.Obj? && b.Obj? && c.Obj?
    ensures var x, y := MergeJson(MergeJson(a, b), c), MergeJson(a, MergeJson(b, c));
      && x.Obj? && y.Obj?
      && x.fields.Keys == a.fields.Keys + b.fields.Keys + c.fields.Keys
      && y.fields.Keys == x.fields.Keys
  {
    var ab, bc := MergeJson(a, b), MergeJson(b, c);
    assert ab.Obj? && ab.fields.Keys == a.fields.Keys + b.fields.Keys;
    assert bc.Obj? && bc.fields.Keys == b.fields.Keys + c.fields.Keys;
    MergedKeys(ab, c);
    MergedKeys(a, bc);
  }

  lemma MergedAt(local: Json, remote: Json, k: string)
    requires local.Obj? && remote.Obj? && (k in local.fields || k in remote.fields)
    ensures MergeJson(local, remote).Obj? && k in MergeJson(local, remote).fields
    ensures MergeJson(local, remote).fields[k] ==
      if k !in remote.fields then local.fields[k]
      else if k !in local.fields then remote.fields[k]
      else MergeJson(local.fields[k], remote.fields[k])
  {}

  lemma GroupingAt(a: Json, b: Json, c: Json, k: string)
    requires a.Obj? && b.Obj? && c.Obj? && (k in a.fields || k in b.fields || k in c.fields)
    ensures var x, y := MergeJson(MergeJson(a, b), c), MergeJson(a, MergeJson(b, c));
      && x.Obj? && y.Obj? && k in x.fields && k in y.fields
      && if k in a.fields && k in b.fields && k in c.fields then
           && x.fields[k] == MergeJson(MergeJson(a.fields[k], b.fields[k]), c.fields[k])
           && y.fields[k] == MergeJson(a.fields[k], MergeJson(b.fields[k], c.fields[k]))
         else x.fields[k] == y.fields[k]
  {
    var ab, bc := MergeJson(a, b), MergeJson(b, c);
    MergedKeys(a, b);
    MergedKeys(b, c);
    hide MergeJson;
    if k in a.fields || k in b.fields {
      MergedAt(a, b, k);
    }
    if k in b.fields || k in c.fields {
      MergedAt(b, c, k);
    }
    MergedAt(ab, c, k);
    MergedAt(a, bc, k);
  }

  /** Field merge is not associative: an object shadowed by a scalar comes back in one grouping. */
  lemma MergeNotAssociative()
    ensures exists a, b, c ::
      MergeJson(MergeJson(a, b), c) != MergeJson(a, MergeJson(b, c))
  {
    var a, b, c := Obj(map["x" := Null]), Null, Obj(map["y" := Null]);
    MergeAssociatesIff(a, b, c);
    assert "x" in a.fields && "x" !in c.fields;
  }
}
