/** JSON values as the client and the fixture server hold them in memory. */
module Json {

  datatype Option<+T> = None | Some(value: T)

  /** An object is a finite map: key order only exists in text (see JsonText). */
  datatype Json =
    | Null
    | Bool(b: bool)
    | Num(n: int)
    | Str(s: string)
    | Arr(items: seq<Json>)
    | Obj(fields: map<string, Json>)

  type Path = seq<string>

  /** What is visible at one node without looking below it: all objects look alike. */
  function Head(v: Json): Json {
    if v.Obj? then Obj(map[]) else v
  }

  function HeadAt(v: Json, path: Path): Option<Json>
    decreases |path|
  {
    if path == [] then Some(Head(v))
    else if v.Obj? && path[0] in v.fields then HeadAt(v.fields[path[0]], path[1..])
    else None
  }

  /** Walking down path, v stays an object until a key is missing. */
  predicate RunsOff(v: Json, path: Path)
    decreases |path|
  {
    && path != []
    && v.Obj?
    && (path[0] in v.fields ==> RunsOff(v.fields[path[0]], path[1..]))
  }

  /** A value is determined by its heads at all paths, so laws stated on heads are complete. */
  lemma {:induction false} HeadsDetermineValue(a: Json, b: Json)
    requires forall p: Path :: HeadAt(a, p) == HeadAt(b, p)
    ensures a == b
    decreases a
  {
    assert HeadAt(a, []) == HeadAt(b, []);
    if a.Obj? && b.Obj? {
      forall k
        ensures k in a.fields <==> k in b.fields
        ensures k in a.fields && k in b.fields ==> a.fields[k] == b.fields[k]
      {
        assert HeadAt(a, [k]) == HeadAt(b, [k]);
        assert [k][1..] == [];
        if k in a.fields && k in b.fields {
          forall p: Path
            ensures HeadAt(a.fields[k], p) == HeadAt(b.fields[k], p)
          {
            assert ([k] + p)[1..] == p;
            assert HeadAt(a, [k] + p) == HeadAt(b, [k] + p);
          }
          HeadsDetermineValue(a.fields[k], b.fields[k]);
        }
      }
      assert a.fields == b.fields;
    }
  }
}
