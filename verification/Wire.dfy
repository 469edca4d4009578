/** Values and mutations as the JSON trees that go over the wire, and the server's fingerprint. */
module Wire {
  import opened Json
  import opened Strings
  import opened JsonText
  import opened StableText
  import opened Records

  lemma {:induction false} LeastExists(s: set<string>)
    requires s != {}
    ensures exists k :: k in s && forall j :: j in s && j != k ==> Less(k, j)
    decreases |s|
  {
    var x :| x in s;
    var rest := s - {x};
    if rest == {} {
      assert forall j :: j in s && j != x ==> j in rest;
      assert x in s;
    } else {
      LeastExists(rest);
      var m :| m in rest && forall j :: j in rest && j != m ==> Less(m, j);
      LessTrichotomy(x, m);
      forall j | j in s && j != x && Less(x, m)
        ensures Less(x, j)
      {
        if j != m {
          LessTransitive(x, m, j);
        }
      }
      assert if Less(x, m) then x in s else m in s;
      assert forall j :: j in s && j != m && j != x ==> j in rest;
    }
  }

  function Least(s: set<string>): (k: string)
    requires s != {}
    ensures k in s
  {
    LeastExists(s);
    assert forall a, b :: a in s && b in s ==> !(Less(a, b) && Less(b, a)) by {
      forall a, b | a in s && b in s
        ensures !(Less(a, b) && Less(b, a))
      {
        LessTrichotomy(a, b);
      }
    }
    var k :| k in s && forall j :: j in s && j != k ==> Less(k, j);
    k
  }

  /** The keys of an object in one fixed order. */
  function KeyList(s: set<string>): (keys: seq<string>)
    ensures forall k :: k in keys <==> k in s
    ensures |keys| == |s|
  {
    if s == {} then [] else [Least(s)] + KeyList(s - {Least(s)})
  }

  lemma {:induction false} KeyListDistinct(s: set<string>)
    ensures Distinct(KeyList(s))
  {
    if s != {} {
      KeyListDistinct(s - {Least(s)});
    }
  }

  function ToTree(v: Json): Tree
    decreases v, 1, 0
  {
    match v
    case Null => TNull
    case Bool(b) => TBool(b)
    case Num(n) => TNumber(Decimal(n))
    case Str(s) => TString(s)
    case Arr(items) => TArray(ItemTrees(items))
    case Obj(fields) => TObject(FieldTrees(v, KeyList(fields.Keys)))
  }

  function ItemTrees(items: seq<Json>): (r: seq<Tree>)
    ensures |r| == |items|
    ensures forall i :: 0 <= i < |items| ==> r[i] == ToTree(items[i])
    decreases items, 2, 0
  {
    if items == [] then [] else [ToTree(items[0])] + ItemTrees(items[1..])
  }

  function FieldTrees(v: Json, keys: seq<string>): (r: seq<Member>)
    requires v.Obj? && forall k :: k in keys ==> k in v.fields
    ensures |r| == |keys|
    ensures forall i :: 0 <= i < |keys| ==> r[i] == Member(keys[i], ToTree(v.fields[keys[i]]))
    ensures Keys(r) == keys
    decreases v, 0, |keys|
  {
    if keys == [] then []
    else
      assert keys[0] in keys;
      [Member(keys[0], ToTree(v.fields[keys[0]]))] + FieldTrees(v, keys[1..])
  }

  lemma {:induction false} ToTreeWellFormed(v: Json)
    ensures WellFormed(ToTree(v))
    decreases v
  {
    match v
    case Num(n) => DecimalIsNumber(n);
    case Arr(items) =>
      forall i | 0 <= i < |items|
        ensures WellFormed(ItemTrees(items)[i])
      {
        ToTreeWellFormed(items[i]);
      }
    case Obj(fields) =>
      var keys := KeyList(fields.Keys);
      KeyListDistinct(fields.Keys);
      forall i | 0 <= i < |keys|
        ensures WellFormed(FieldTrees(v, keys)[i].value)
      {
        assert keys[i] in keys;
        ToTreeWellFormed(fields[keys[i]]);
      }
    case _ =>
  }

  lemma DistinctLookup(ms: seq<Member>, i: nat)
    requires Distinct(Keys(ms)) && i < |ms|
    ensures ms[i].key in Keys(ms) && Lookup(ms, ms[i].key) == ms[i].value
  {
    hide Lookup;
    assert Keys(ms)[i] == ms[i].key;
    var found := Member(ms[i].key, Lookup(ms, ms[i].key));
    assert found in ms;
    var j :| 0 <= j < |ms| && ms[j] == found;
    assert Keys(ms)[j] == Keys(ms)[i];
  }

  /** Objects that list the same keys in the same order are compared member by member. */
  lemma SamePointwise(x: seq<Member>, y: seq<Member>)
    requires Keys(x) == Keys(y) && Distinct(Keys(x))
    ensures |x| == |y|
    ensures SameValue(TObject(x), TObject(y)) <==>
      forall i :: 0 <= i < |x| ==> SameValue(x[i].value, y[i].value)
  {
    assert |x| == |Keys(x)| && |y| == |Keys(y)|;
    forall i | 0 <= i < |x|
      ensures x[i].key in Keys(x) && x[i].key == y[i].key
      ensures Lookup(x, x[i].key) == x[i].value && Lookup(y, x[i].key) == y[i].value
    {
      assert Keys(x)[i] == Keys(y)[i];
      DistinctLookup(x, i);
      DistinctLookup(y, i);
    }
    forall k | k in Keys(x)
      ensures exists i :: 0 <= i < |x| && x[i].key == k
    {
      var i :| 0 <= i < |x| && Keys(x)[i] == k;
      assert x[i].key == k;
    }
  }

  /** On trees of values, equality up to key order is equality of the values. */
  lemma {:induction false} SameTreeSameValue(a: Json, b: Json)
    ensures SameValue(ToTree(a), ToTree(b)) <==> a == b
    decreases a
  {
    if a.Num? && b.Num? {
      DecimalValue(a.n);
      DecimalValue(b.n);
    } else if a.Arr? && b.Arr? {
      forall i | 0 <= i < |a.items| && i < |b.items|
        ensures SameValue(ToTree(a.items[i]), ToTree(b.items[i])) <==> a.items[i] == b.items[i]
      {
        SameTreeSameValue(a.items[i], b.items[i]);
      }
      SameArrayTrees(a, b);
    } else if a.Obj? && b.Obj? {
      forall k | k in a.fields && k in b.fields
        ensures SameValue(ToTree(a.fields[k]), ToTree(b.fields[k])) <==> a.fields[k] == b.fields[k]
      {
        SameTreeSameValue(a.fields[k], b.fields[k]);
      }
      if a.fields.Keys == b.fields.Keys {
        SameObjectTrees(a, b);
      } else {
        OtherKeys(a, b);
      }
    }
  }

  lemma SameArrayTrees(a: Json, b: Json)
    requires a.Arr? && b.Arr?
    requires forall i :: 0 <= i < |a.items| && i < |b.items| ==>
      (SameValue(ToTree(a.items[i]), ToTree(b.items[i])) <==> a.items[i] == b.items[i])
    ensures SameValue(ToTree(a), ToTree(b)) <==> a == b
  {
    var x, y := ItemTrees(a.items), ItemTrees(b.items);
    if |x| == |y| {
      assert forall i :: 0 <= i < |x| ==> x[i] == ToTree(a.items[i]) && y[i] == ToTree(b.items[i]);
    }
  }

  lemma OtherKeys(a: Json, b: Json)
    requires a.Obj? && b.Obj? && a.fields.Keys != b.fields.Keys
    ensures !SameValue(ToTree(a), ToTree(b))
  {
    var x, y := KeyList(a.fields.Keys), KeyList(b.fields.Keys);
    assert exists k :: (k in a.fields) != (k in b.fields);
    assert !SameKeys(x, y);
  }

  lemma EqualAtKeys(a: map<string, Json>, b: map<string, Json>, keys: seq<string>)
    requires a.Keys == b.Keys && forall k :: k in keys <==> k in a
    ensures a == b <==> forall i :: 0 <= i < |keys| ==> a[keys[i]] == b[keys[i]]
  {
    if forall i :: 0 <= i < |keys| ==> a[keys[i]] == b[keys[i]] {
      forall k | k in a
        ensures a[k] == b[k]
      {
        assert k in keys;
      }
    }
  }

  lemma SameObjectTrees(a: Json, b: Json)
    requires a.Obj? && b.Obj? && a.fields.Keys == b.fields.Keys
    requires forall k :: k in a.fields && k in b.fields ==>
      (SameValue(ToTree(a.fields[k]), ToTree(b.fields[k])) <==> a.fields[k] == b.fields[k])
    ensures SameValue(ToTree(a), ToTree(b)) <==> a == b
  {
    var keys := KeyList(a.fields.Keys);
    KeyListDistinct(a.fields.Keys);
    EqualAtKeys(a.fields, b.fields, keys);
    assert ToTree(a) == TObject(FieldTrees(a, keys)) && ToTree(b) == TObject(FieldTrees(b, keys));
    hide SameValue, FieldTrees, KeyList;
    FieldTreesPointwise(a, b, keys);
  }

  lemma FieldTreesPointwise(a: Json, b: Json, keys: seq<string>)
    requires a.Obj? && b.Obj? && a.fields.Keys == b.fields.Keys && Distinct(keys)
    requires forall k :: k in keys ==> k in a.fields
    requires forall k :: k in keys ==>
      (SameValue(ToTree(a.fields[k]), ToTree(b.fields[k])) <==> a.fields[k] == b.fields[k])
    ensures SameValue(TObject(FieldTrees(a, keys)), TObject(FieldTrees(b, keys))) <==>
      forall i :: 0 <= i < |keys| ==> a.fields[keys[i]] == b.fields[keys[i]]
  {
    var x, y := FieldTrees(a, keys), FieldTrees(b, keys);
    SamePointwise(x, y);
    forall i | 0 <= i < |keys|
      ensures SameValue(x[i].value, y[i].value) <==> a.fields[keys[i]] == b.fields[keys[i]]
    {
      assert keys[i] in keys;
    }
  }

  // ---- Mutations ----

  function OperationName(op: Operation): string {
    match op
    case Create => "CREATE"
    case Update => "UPDATE"
    case Delete => "DELETE"
  }

  function StringTrees(xs: seq<string>): seq<Tree> {
    seq(|xs|, i requires 0 <= i < |xs| => TString(xs[i]))
  }

  /** The fields of a mutation in the order in which the client builds the object. */
  function Labelled(
    id: Tree, table: Tree, operation: Tree, payload: Tree, timestamp: Tree, version: Tree, deps: Tree): Tree
  {
    TObject([
      Member("id", id),
      Member("tableName", table),
      Member("operation", operation),
      Member("payload", payload),
      Member("timestamp", timestamp),
      Member("schemaVersion", version),
      Member("dependsOn", deps)])
  }

  /** The mutation as the object the client sends. */
  function MutationTree(m: Mutation): Tree {
    Labelled(
      TString(m.id), TString(m.table), TString(OperationName(m.operation)), ToTree(m.payload),
      TNumber(Decimal(m.timestamp)), TNumber(Decimal(m.schemaVersion)), TArray(StringTrees(m.dependsOn)))
  }

  const MUTATION_KEYS := ["id", "tableName", "operation", "payload", "timestamp", "schemaVersion", "dependsOn"]

  /** The canonical text of a mutation; the digest of it is taken to be the text itself. */
  function Fingerprint(m: Mutation): string {
    StableStringify(MutationTree(m))
  }

  lemma NumberTreeWellFormed(n: int)
    ensures WellFormed(TNumber(Decimal(n)))
  {
    DecimalIsNumber(n);
  }

  lemma StringTreesWellFormed(xs: seq<string>)
    ensures WellFormed(TArray(StringTrees(xs)))
  {}

  lemma LabelledWellFormed(
    id: Tree, table: Tree, operation: Tree, payload: Tree, timestamp: Tree, version: Tree, deps: Tree)
    ensures var t := Labelled(id, table, operation, payload, timestamp, version, deps);
      && Keys(t.members) == MUTATION_KEYS
      && Distinct(Keys(t.members))
      && ((forall v :: v in {id, table, operation, payload, timestamp, version, deps} ==> WellFormed(v))
          ==> WellFormed(t))
  {
    MutationKeysDistinct();
    assert Keys(Labelled(id, table, operation, payload, timestamp, version, deps).members) == MUTATION_KEYS;
  }

  lemma MutationTreeWellFormed(m: Mutation)
    ensures WellFormed(MutationTree(m))
    ensures Keys(MutationTree(m).members) == MUTATION_KEYS
  {
    NumberTreeWellFormed(m.timestamp);
    NumberTreeWellFormed(m.schemaVersion);
    ToTreeWellFormed(m.payload);
    StringTreesWellFormed(m.dependsOn);
    LabelledWellFormed(
      TString(m.id), TString(m.table), TString(OperationName(m.operation)), ToTree(m.payload),
      TNumber(Decimal(m.timestamp)), TNumber(Decimal(m.schemaVersion)), TArray(StringTrees(m.dependsOn)));
  }

  lemma MutationKeysDistinct()
    ensures Distinct(MUTATION_KEYS)
  {
    var k := MUTATION_KEYS;
    assert |k[0]| == 2 && |k[1]| == 9 && |k[2]| == 9 && |k[3]| == 7 && |k[4]| == 9 && |k[5]| == 13 && |k[6]| == 9;
    assert k[1][0] == 't' && k[2][0] == 'o' && k[4][0] == 't' && k[6][0] == 'd';
    assert k[1][1] == 'a' && k[4][1] == 'i';
  }

  lemma OperationNamesDiffer(a: Operation, b: Operation)
    ensures OperationName(a) == OperationName(b) <==> a == b
  {
    assert "CREATE"[0] == 'C' && "UPDATE"[0] == 'U' && "DELETE"[0] == 'D';
  }

  /** Two mutations get the same fingerprint exactly when every field agrees: the server's
      comparison of fingerprints is a comparison of contents. */
  lemma FingerprintDecides(a: Mutation, b: Mutation)
    ensures Fingerprint(a) == Fingerprint(b) <==> a == b
  {
    MutationTreeWellFormed(a);
    MutationTreeWellFormed(b);
    StableTextDecides(MutationTree(a), MutationTree(b));
    MutationKeysDistinct();
    SamePointwise(MutationTree(a).members, MutationTree(b).members);
    if SameValue(MutationTree(a), MutationTree(b)) {
      SameMutations(a, b);
    }
  }

  lemma SameMutations(a: Mutation, b: Mutation)
    requires var x, y := MutationTree(a).members, MutationTree(b).members;
      forall i :: 0 <= i < |x| ==> SameValue(x[i].value, y[i].value)
    ensures a == b
  {
    var x, y := MutationTree(a).members, MutationTree(b).members;
    assert SameValue(x[0].value, y[0].value) && SameValue(x[1].value, y[1].value);
    assert SameValue(x[2].value, y[2].value) && SameValue(x[3].value, y[3].value);
    assert SameValue(x[4].value, y[4].value) && SameValue(x[5].value, y[5].value);
    assert SameValue(x[6].value, y[6].value);
    OperationNamesDiffer(a.operation, b.operation);
    SameTreeSameValue(a.payload, b.payload);
    DecimalValue(a.timestamp);
    DecimalValue(b.timestamp);
    DecimalValue(a.schemaVersion);
    DecimalValue(b.schemaVersion);
    SameStrings(a.dependsOn, b.dependsOn);
  }

  lemma SameStrings(x: seq<string>, y: seq<string>)
    ensures SameValue(TArray(StringTrees(x)), TArray(StringTrees(y))) <==> x == y
  {
    if SameValue(TArray(StringTrees(x)), TArray(StringTrees(y))) {
      assert |x| == |StringTrees(x)| && |y| == |StringTrees(y)|;
      forall i | 0 <= i < |x|
        ensures x[i] == y[i]
      {
        assert SameValue(StringTrees(x)[i], StringTrees(y)[i]);
      }
    }
  }
}
