/** The fixture server's stableStringify, whose text is the identity of a mutation. */
module StableText {
  import opened Strings
  import opened JsonText

  /** value[key] of a parsed object. */
  function Lookup(members: seq<Member>, key: string): (value: Tree)
    requires key in Keys(members)
    ensures Member(key, value) in members
  {
    if members[|members| - 1].key == key then members[|members| - 1].value
    else
      assert Keys(members)[..|members| - 1] == Keys(members[..|members| - 1]);
      Lookup(members[..|members| - 1], key)
  }

  function StableStringify(t: Tree): string
    decreases t, 1, 0
  {
    match t
    case TArray(items) => "[" + StableItems(items) + "]"
    case TObject(members) => "{" + StableFields(members, Sorted(members)) + "}"
    case _ => Print(t)
  }

  function StableItems(items: seq<Tree>): string
    decreases items, 2, 0
  {
    if items == [] then ""
    else if |items| == 1 then StableStringify(items[0])
    else StableStringify(items[0]) + "," + StableItems(items[1..])
  }

  /** Object.keys(value).sort() */
  function Sorted(members: seq<Member>): seq<string> {
    SortKeys(Keys(members))
  }

  function StableFields(members: seq<Member>, keys: seq<string>): string
    decreases members, 2, |keys|
  {
    if keys == [] || keys[0] !in Keys(members) then ""
    else
      var field := Quote(keys[0]) + ":" + StableStringify(Lookup(members, keys[0]));
      if |keys| == 1 then field else field + "," + StableFields(members, keys[1..])
  }

  // ---- Reference: equality up to key order at every depth ----

  ghost predicate SameValue(a: Tree, b: Tree)
    decreases a
  {
    match (a, b)
    case (TArray(x), TArray(y)) =>
      |x| == |y| && forall i :: 0 <= i < |x| ==> SameValue(x[i], y[i])
    case (TObject(x), TObject(y)) =>
      && SameKeys(Keys(x), Keys(y))
      && forall k :: k in Keys(x) ==> SameValue(Lookup(x, k), Lookup(y, k))
    case _ => a == b
  }

  // ---- The stable text is the plain text of a value with sorted keys ----

  function Canonical(t: Tree): Tree
    decreases t, 1, 0
  {
    match t
    case TArray(items) => TArray(CanonicalItems(items))
    case TObject(members) => TObject(CanonicalFields(members, Sorted(members)))
    case _ => t
  }

  function CanonicalItems(items: seq<Tree>): (r: seq<Tree>)
    ensures |r| == |items|
    ensures forall i :: 0 <= i < |items| ==> r[i] == Canonical(items[i])
    decreases items, 2, 0
  {
    if items == [] then [] else [Canonical(items[0])] + CanonicalItems(items[1..])
  }

  function CanonicalFields(members: seq<Member>, keys: seq<string>): seq<Member>
    decreases members, 2, |keys|
  {
    if keys == [] || keys[0] !in Keys(members) then []
    else [Member(keys[0], Canonical(Lookup(members, keys[0])))] + CanonicalFields(members, keys[1..])
  }

  lemma {:induction false} FieldsAt(members: seq<Member>, keys: seq<string>)
    requires forall k :: k in keys ==> k in Keys(members)
    ensures var fields := CanonicalFields(members, keys);
      && |fields| == |keys|
      && Keys(fields) == keys
      && forall i :: 0 <= i < |keys| ==> fields[i] == Member(keys[i], Canonical(Lookup(members, keys[i])))
  {
    if keys != [] {
      FieldsAt(members, keys[1..]);
      assert keys[0] in keys;
    }
  }

  lemma SortedKeys(members: seq<Member>)
    requires Distinct(Keys(members))
    ensures Ascending(Sorted(members)) && Distinct(Sorted(members))
    ensures SameKeys(Sorted(members), Keys(members))
  {
    var keys := Sorted(members);
    SortKeysSorted(Keys(members));
    forall i, j | 0 <= i < j < |keys|
      ensures keys[i] != keys[j]
    {
      LessTrichotomy(keys[i], keys[j]);
    }
  }

  lemma {:induction false} StableIsCanonical(t: Tree)
    requires WellFormed(t)
    ensures StableStringify(t) == Print(Canonical(t))
    ensures WellFormed(Canonical(t))
    decreases t, 1, 0
  {
    match t
    case TArray(items) =>
      StableItemsCanonical(items);
    case TObject(members) =>
      var keys := Sorted(members);
      SortedKeys(members);
      StableFieldsCanonical(members, keys);
      FieldsAt(members, keys);
    case _ =>
  }

  lemma {:induction false} StableItemsCanonical(items: seq<Tree>)
    requires forall v :: v in items ==> WellFormed(v)
    ensures StableItems(items) == PrintItems(CanonicalItems(items))
    ensures forall v :: v in CanonicalItems(items) ==> WellFormed(v)
    decreases items, 2, 0
  {
    if items != [] {
      StableIsCanonical(items[0]);
      StableItemsCanonical(items[1..]);
      var rest := CanonicalItems(items[1..]);
      assert ([Canonical(items[0])] + rest)[1..] == rest;
    }
  }

  lemma {:induction false} StableFieldsCanonical(members: seq<Member>, keys: seq<string>)
    requires forall m :: m in members ==> WellFormed(m.value)
    requires forall k :: k in keys ==> k in Keys(members)
    ensures StableFields(members, keys) == PrintMembers(CanonicalFields(members, keys))
    ensures forall m :: m in CanonicalFields(members, keys) ==> WellFormed(m.value)
    decreases members, 2, |keys|
  {
    if keys != [] {
      assert keys[0] in keys;
      var value := Lookup(members, keys[0]);
      assert Member(keys[0], value) in members;
      StableIsCanonical(value);
      StableFieldsCanonical(members, keys[1..]);
      var rest := CanonicalFields(members, keys[1..]);
      assert ([Member(keys[0], Canonical(value))] + rest)[1..] == rest;
      if |keys| > 1 {
        assert keys[1..][0] in keys;
        assert rest != [];
      }
    }
  }

  // ---- Canonical values decide sameness ----

  lemma {:induction false} CanonicalDecides(a: Tree, b: Tree)
    requires WellFormed(a) && WellFormed(b)
    ensures Canonical(a) == Canonical(b) <==> SameValue(a, b)
    decreases a
  {
    match (a, b)
    case (TArray(x), TArray(y)) =>
      if |x| == |y| {
        forall i | 0 <= i < |x|
          ensures Canonical(x[i]) == Canonical(y[i]) <==> SameValue(x[i], y[i])
        {
          assert x[i] in x && y[i] in y;
          CanonicalDecides(x[i], y[i]);
        }
        assert (CanonicalItems(x) == CanonicalItems(y)) <==>
               (forall i :: 0 <= i < |x| ==> Canonical(x[i]) == Canonical(y[i]));
      } else {
        assert |CanonicalItems(x)| != |CanonicalItems(y)|;
      }
    case (TObject(x), TObject(y)) =>
      forall k | k in Keys(x) && k in Keys(y)
        ensures Canonical(Lookup(x, k)) == Canonical(Lookup(y, k)) <==> SameValue(Lookup(x, k), Lookup(y, k))
      {
        assert Member(k, Lookup(x, k)) in x && Member(k, Lookup(y, k)) in y;
        CanonicalDecides(Lookup(x, k), Lookup(y, k));
      }
      CanonicalFieldsDecide(x, y);
    case _ =>
  }

  lemma CanonicalFieldsDecide(x: seq<Member>, y: seq<Member>)
    requires Distinct(Keys(x)) && Distinct(Keys(y))
    ensures CanonicalFields(x, Sorted(x)) == CanonicalFields(y, Sorted(y)) <==>
      && SameKeys(Keys(x), Keys(y))
      && forall k :: k in Keys(x) ==> Canonical(Lookup(x, k)) == Canonical(Lookup(y, k))
  {
    SortedKeys(x);
    SortedKeys(y);
    FieldsAt(x, Sorted(x));
    FieldsAt(y, Sorted(y));
    var fx, fy := CanonicalFields(x, Sorted(x)), CanonicalFields(y, Sorted(y));
    if SameKeys(Keys(x), Keys(y)) {
      AscendingUnique(Sorted(x), Sorted(y));
      if fx == fy {
        forall k | k in Keys(x)
          ensures Canonical(Lookup(x, k)) == Canonical(Lookup(y, k))
        {
          var i :| 0 <= i < |Sorted(x)| && Sorted(x)[i] == k;
          assert fx[i] == fy[i];
        }
      } else {
        var i :| 0 <= i < |fx| && fx[i] != fy[i];
        assert Sorted(x)[i] in Keys(x);
      }
    } else {
      assert Keys(fx) != Keys(fy);
    }
  }

  /** Two values get the same stable text exactly when they are equal up to the order of object
      keys, at every depth. */
  lemma StableTextDecides(a: Tree, b: Tree)
    requires WellFormed(a) && WellFormed(b)
    ensures StableStringify(a) == StableStringify(b) <==> SameValue(a, b)
  {
    StableIsCanonical(a);
    StableIsCanonical(b);
    ParseUndoesPrint(Canonical(a));
    ParseUndoesPrint(Canonical(b));
    CanonicalDecides(a, b);
  }
}
