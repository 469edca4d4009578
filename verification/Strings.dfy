/** Order and decimal text of strings and integers. */
module Strings {

  // ---- Lexicographic order, as Array.prototype.sort uses on keys ----

  predicate Less(a: string, b: string) {
    if b == "" then false
    else if a == "" then true
    else a[0] < b[0] || (a[0] == b[0] && Less(a[1..], b[1..]))
  }

  lemma {:induction false} LessTrichotomy(a: string, b: string)
    ensures a == b || Less(a, b) || Less(b, a)
    ensures !(Less(a, b) && Less(b, a)) && !Less(a, a)
    decreases |a|
  {
    if a != "" {
      LessTrichotomy(a[1..], a[1..]);
      if b != "" {
        LessTrichotomy(a[1..], b[1..]);
        if a[0] == b[0] && a[1..] == b[1..] {
          assert a == [a[0]] + a[1..] && b == [b[0]] + b[1..];
        }
      }
    }
  }

  lemma {:induction false} LessTransitive(a: string, b: string, c: string)
    requires Less(a, b) && Less(b, c)
    ensures Less(a, c)
    decreases |a|
  {
    if a != "" && a[0] == b[0] && b[0] == c[0] {
      LessTransitive(a[1..], b[1..], c[1..]);
    }
  }

  function Insert(key: string, keys: seq<string>): seq<string> {
    if keys == [] then [key]
    else if Less(keys[0], key) then [keys[0]] + Insert(key, keys[1..])
    else [key] + keys
  }

  function SortKeys(keys: seq<string>): seq<string> {
    if keys == [] then [] else Insert(keys[0], SortKeys(keys[1..]))
  }

  ghost predicate Ascending(keys: seq<string>) {
    forall i, j :: 0 <= i < j < |keys| ==> Less(keys[i], keys[j])
  }

  ghost predicate Distinct(keys: seq<string>) {
    forall i, j :: 0 <= i < j < |keys| ==> keys[i] != keys[j]
  }

  lemma DistinctMore(keys: seq<string>, key: string)
    requires Distinct(keys) && key !in keys
    ensures Distinct(keys + [key])
  {}

  /** The members of a set, each once. */
  method InSomeOrder(s: set<string>) returns (keys: seq<string>)
    ensures Distinct(keys) && forall k :: k in keys <==> k in s
  {
    keys := [];
    var left := s;
    while left != {}
      invariant left <= s && Distinct(keys)
      invariant forall k :: k in keys <==> k in s - left
      decreases left
    {
      var key :| key in left;
      DistinctMore(keys, key);
      keys := keys + [key];
      left := left - {key};
    }
  }

  ghost predicate SameKeys(a: seq<string>, b: seq<string>) {
    forall k :: k in a <==> k in b
  }

  lemma {:induction false} InsertSorted(key: string, keys: seq<string>)
    requires Ascending(keys) && key !in keys
    ensures Ascending(Insert(key, keys))
    ensures forall k :: k in Insert(key, keys) <==> k == key || k in keys
  {
    if keys != [] {
      LessTrichotomy(key, keys[0]);
      assert keys == [keys[0]] + keys[1..];
      if Less(keys[0], key) {
        InsertSorted(key, keys[1..]);
        assert forall k :: k in keys[1..] ==> Less(keys[0], k);
        assert forall k :: k in Insert(key, keys[1..]) ==> Less(keys[0], k);
      } else {
        forall j | 0 <= j < |keys|
          ensures Less(key, keys[j])
        {
          if j > 0 {
            LessTransitive(key, keys[0], keys[j]);
          }
        }
      }
    }
  }

  lemma {:induction false} SortKeysSorted(keys: seq<string>)
    requires Distinct(keys)
    ensures Ascending(SortKeys(keys)) && SameKeys(SortKeys(keys), keys)
  {
    if keys != [] {
      assert keys == [keys[0]] + keys[1..];
      SortKeysSorted(keys[1..]);
      InsertSorted(keys[0], SortKeys(keys[1..]));
    }
  }

  lemma SameKeysNonEmpty(a: seq<string>, b: seq<string>)
    requires SameKeys(a, b) && a != []
    ensures b != []
  {
    assert a[0] in a;
  }

  /** An ascending list is determined by its members. */
  lemma {:induction false} AscendingUnique(a: seq<string>, b: seq<string>)
    requires Ascending(a) && Ascending(b) && SameKeys(a, b)
    ensures a == b
  {
    if a == [] {
      if b != [] {
        SameKeysNonEmpty(b, a);
      }
    } else {
      assert a[0] in b && b != [] && b[0] in a;
      var i :| 0 <= i < |b| && b[i] == a[0];
      var j :| 0 <= j < |a| && a[j] == b[0];
      LessTrichotomy(a[0], b[0]);
      assert a[0] == b[0];
      assert a == [a[0]] + a[1..] && b == [b[0]] + b[1..];
      forall k
        ensures k in a[1..] <==> k in b[1..]
      {
        LessTrichotomy(a[0], a[0]);
        assert a[0] !in a[1..] && b[0] !in b[1..];
        assert k in a <==> k == a[0] || k in a[1..];
        assert k in b <==> k == b[0] || k in b[1..];
      }
      AscendingUnique(a[1..], b[1..]);
    }
  }

  // ---- Decimal text of integers, as std::to_string and String(n) print it ----

  function Digit(n: nat): (c: char)
    requires n < 10
    ensures '0' <= c <= '9'
  {
    '0' + n as char
  }

  function DigitValue(c: char): nat
    requires '0' <= c <= '9'
  {
    c as int - '0' as int
  }

  predicate IsDigit(c: char) {
    '0' <= c <= '9'
  }

  predicate AllDigits(s: string) {
    forall i :: 0 <= i < |s| ==> IsDigit(s[i])
  }

  function DecimalNat(n: nat): (s: string)
    ensures s != "" && AllDigits(s)
    ensures s[0] == '0' ==> n == 0 && |s| == 1
  {
    if n < 10 then [Digit(n)] else DecimalNat(n / 10) + [Digit(n % 10)]
  }

  function Decimal(n: int): string {
    if n < 0 then "-" + DecimalNat(-n) else DecimalNat(n)
  }

  function DigitsValue(s: string): nat
    requires AllDigits(s)
  {
    if s == "" then 0 else 10 * DigitsValue(s[..|s| - 1]) + DigitValue(s[|s| - 1])
  }

  /** The integer an integer lexeme stands for. */
  function IntegerValue(s: string): int
    requires s != "" && AllDigits(if s[0] == '-' then s[1..] else s)
  {
    if s[0] == '-' then 0 - DigitsValue(s[1..]) else DigitsValue(s)
  }

  lemma {:induction false} DecimalNatValue(n: nat)
    ensures DigitsValue(DecimalNat(n)) == n
  {
    if n >= 10 {
      DecimalNatValue(n / 10);
      var s := DecimalNat(n);
      assert s[..|s| - 1] == DecimalNat(n / 10);
    }
  }

  lemma DecimalValue(n: int)
    ensures var s := Decimal(n);
      s != "" && AllDigits(if s[0] == '-' then s[1..] else s) && IntegerValue(s) == n
  {
    DecimalNatValue(if n < 0 then -n else n);
    if n < 0 {
      assert ("-" + DecimalNat(-n))[1..] == DecimalNat(-n);
    } else {
      assert DecimalNat(n)[0] != '-';
    }
  }
}
