/** JSON as text: what JSON.stringify writes and what JSON.parse reads back (RFC 8259). */
module JsonText {
  import opened Json
  import opened Strings

  /** A parsed text. Members keep their order, and a number is the lexeme JavaScript prints for it. */
  datatype Tree =
    | TNull
    | TBool(b: bool)
    | TNumber(lexeme: string)
    | TString(s: string)
    | TArray(items: seq<Tree>)
    | TObject(members: seq<Member>)

  datatype Member = Member(key: string, value: Tree)

  // ---- Strings: section 7 of RFC 8259 ----

  function HexDigit(n: nat): char
    requires n < 16
  {
    if n < 10 then '0' + n as char else 'a' + (n - 10) as char
  }

  function HexValue(c: char): Option<nat> {
    if '0' <= c <= '9' then Some(c as int - '0' as int)
    else if 'a' <= c <= 'f' then Some(c as int - 'a' as int + 10)
    else if 'A' <= c <= 'F' then Some(c as int - 'A' as int + 10)
    else None
  }

  const BACKSPACE: char := 8 as char
  const FORM_FEED: char := 12 as char

  /** The text of one character inside a quoted string. */
  function Escape(c: char): (e: string)
    ensures e != ""
  {
    if c == '"' then "\\\""
    else if c == '\\' then "\\\\"
    else if c == BACKSPACE then "\\b"
    else if c == FORM_FEED then "\\f"
    else if c == '\n' then "\\n"
    else if c == '\r' then "\\r"
    else if c == '\t' then "\\t"
    else if c as int < 0x20 then "\\u00" + [HexDigit(c as int / 16), HexDigit(c as int % 16)]
    else [c]
  }

  function ConcatMap(f: char -> string, s: string): string {
    if s == "" then "" else f(s[0]) + ConcatMap(f, s[1..])
  }

  lemma {:induction false} ConcatMapAppend(f: char -> string, s: string, c: char)
    ensures ConcatMap(f, s + [c]) == ConcatMap(f, s) + f(c)
    decreases |s|
  {
    if s == "" {
      assert s + [c] == [c] && [c][1..] == "";
      assert ConcatMap(f, [c]) == f(c) + ConcatMap(f, "");
    } else {
      assert (s + [c])[1..] == s[1..] + [c];
      ConcatMapAppend(f, s[1..], c);
    }
  }

  function EscapeAll(s: string): string {
    ConcatMap(Escape, s)
  }

  function Quote(s: string): string {
    "\"" + EscapeAll(s) + "\""
  }

  function Hex4(t: string): Option<nat>
    requires |t| == 4
  {
    var a, b, c, d := HexValue(t[0]), HexValue(t[1]), HexValue(t[2]), HexValue(t[3]);
    if a.Some? && b.Some? && c.Some? && d.Some?
    then Some(0x1000 * a.value + 0x100 * b.value + 0x10 * c.value + d.value)
    else None
  }

  /** One character or escape sequence at the head of t, with the number of characters it takes.
      A \u escape that names half of a surrogate pair needs its other half. */
  function Unescape(t: string): (r: Option<(char, nat)>)
    ensures r.Some? ==> 0 < r.value.1 <= |t|
  {
    if t == "" || t[0] == '"' || t[0] as int < 0x20 then None
    else if t[0] != '\\' then Some((t[0], 1))
    else if |t| < 2 then None
    else match t[1]
      case '"' => Some(('"', 2))
      case '\\' => Some(('\\', 2))
      case '/' => Some(('/', 2))
      case 'b' => Some((BACKSPACE, 2))
      case 'f' => Some((FORM_FEED, 2))
      case 'n' => Some(('\n', 2))
      case 'r' => Some(('\r', 2))
      case 't' => Some(('\t', 2))
      case 'u' =>
        if |t| < 6 || Hex4(t[2..6]).None? then None
        else
          var high := Hex4(t[2..6]).value;
          if high < 0xD800 || 0xE000 <= high < 0x10000 then Some((high as char, 6))
          else if high < 0xDC00 && |t| >= 12 && t[6..8] == "\\u" && Hex4(t[8..12]).Some? then
            var low := Hex4(t[8..12]).value;
            if 0xDC00 <= low < 0xE000
            then Some(((0x10000 + 0x400 * (high - 0xD800) + (low - 0xDC00)) as char, 12))
            else None
          else None
      case _ => None
  }

  /** The characters up to the closing quote, and what follows it. */
  function ParseChars(t: string): (r: Option<(string, string)>)
    ensures r.Some? ==> |r.value.1| < |t|
    decreases |t|
  {
    if t == "" then None
    else if t[0] == '"' then Some(("", t[1..]))
    else
      var head := Unescape(t);
      if head.None? then None
      else
        var tail := ParseChars(t[head.value.1..]);
        if tail.None? then None
        else Some(([head.value.0] + tail.value.0, tail.value.1))
  }

  lemma UnescapeEscape(c: char, rest: string)
    ensures Unescape(Escape(c) + rest) == Some((c, |Escape(c)|))
    ensures Escape(c)[0] != '"'
  {
    var t := Escape(c) + rest;
    if c as int < 0x20 && |Escape(c)| == 6 {
      assert t[2..6] == "00" + [HexDigit(c as int / 16), HexDigit(c as int % 16)];
      assert Hex4(t[2..6]) == Some(c as int);
    }
  }

  /** The decoder undoes the printer on every string, and stops exactly at the closing quote. */
  lemma {:induction false} ParseCharsQuoted(s: string, rest: string)
    ensures ParseChars(EscapeAll(s) + "\"" + rest) == Some((s, rest))
    decreases |s|
  {
    var t := EscapeAll(s) + "\"" + rest;
    if s == "" {
      assert t == "\"" + rest;
    } else {
      var tail := EscapeAll(s[1..]) + "\"" + rest;
      assert t == Escape(s[0]) + tail;
      UnescapeEscape(s[0], tail);
      assert t[|Escape(s[0])|..] == tail;
      ParseCharsQuoted(s[1..], rest);
      assert [s[0]] + s[1..] == s;
    }
  }

  // ---- Numbers: section 6 of RFC 8259 ----

  predicate IsNumberChar(c: char) {
    IsDigit(c) || c in "+-.eE"
  }

  function SkipDigits(s: string): string {
    if s != "" && IsDigit(s[0]) then SkipDigits(s[1..]) else s
  }

  /** Drops one or more digits. */
  function DropDigits(s: string): Option<string> {
    if s != "" && IsDigit(s[0]) then Some(SkipDigits(s)) else None
  }

  predicate IsNumber(s: string) {
    && s != ""
    && (forall c :: c in s ==> IsNumberChar(c))
    && var afterSign := if s[0] == '-' then s[1..] else s;
       var afterInt :=
         if afterSign != "" && afterSign[0] == '0' then Some(afterSign[1..]) else DropDigits(afterSign);
       && afterInt.Some?
       && var afterFrac :=
            if afterInt.value != "" && afterInt.value[0] == '.' then DropDigits(afterInt.value[1..]) else afterInt;
          && afterFrac.Some?
          && (afterFrac.value == "" || (
              && afterFrac.value[0] in "eE"
              && var exp := afterFrac.value[1..];
                 DropDigits(if exp != "" && exp[0] in "+-" then exp[1..] else exp) == Some("")))
  }

  function NumberRun(t: string): (n: nat)
    ensures n <= |t|
  {
    if t != "" && IsNumberChar(t[0]) then 1 + NumberRun(t[1..]) else 0
  }

  lemma {:induction false} NumberRunOf(s: string, rest: string)
    requires forall c :: c in s ==> IsNumberChar(c)
    requires rest == "" || !IsNumberChar(rest[0])
    ensures NumberRun(s + rest) == |s|
    decreases |s|
  {
    if s == "" {
      assert s + rest == rest;
    } else {
      NumberRunOf(s[1..], rest);
      assert (s + rest)[1..] == s[1..] + rest;
    }
  }

  lemma {:induction false} SkipDigitsOf(s: string)
    requires AllDigits(s)
    ensures SkipDigits(s) == ""
  {
    if s != "" {
      SkipDigitsOf(s[1..]);
    }
  }

  lemma DecimalIsNumber(n: int)
    ensures IsNumber(Decimal(n))
  {
    var digits := DecimalNat(if n < 0 then -n else n);
    SkipDigitsOf(digits);
    if n < 0 {
      assert Decimal(n)[1..] == digits;
    }
  }

  // ---- Printing ----

  function Print(t: Tree): (s: string)
    decreases t, 0
  {
    match t
    case TNull => "null"
    case TBool(b) => if b then "true" else "false"
    case TNumber(lexeme) => lexeme
    case TString(s) => Quote(s)
    case TArray(items) => "[" + PrintItems(items) + "]"
    case TObject(members) => "{" + PrintMembers(members) + "}"
  }

  function PrintItems(items: seq<Tree>): string
    decreases items, 1
  {
    if items == [] then ""
    else if |items| == 1 then Print(items[0])
    else Print(items[0]) + "," + PrintItems(items[1..])
  }

  function PrintMember(m: Member): string
    decreases m, 1
  {
    Quote(m.key) + ":" + Print(m.value)
  }

  function PrintMembers(members: seq<Member>): string
    decreases members, 2
  {
    if members == [] then ""
    else if |members| == 1 then PrintMember(members[0])
    else PrintMember(members[0]) + "," + PrintMembers(members[1..])
  }

  function Keys(members: seq<Member>): seq<string> {
    seq(|members|, i requires 0 <= i < |members| => members[i].key)
  }

  /** What JSON.parse can return: lexemes are numbers and no object has a key twice. */
  ghost predicate WellFormed(t: Tree)
    decreases t
  {
    match t
    case TNumber(lexeme) => IsNumber(lexeme)
    case TArray(items) => forall v :: v in items ==> WellFormed(v)
    case TObject(members) => Distinct(Keys(members)) && forall m :: m in members ==> WellFormed(m.value)
    case _ => true
  }

  // ---- Parsing ----

  function SkipSpace(t: string): (r: string)
    ensures |r| <= |t|
  {
    if t != "" && t[0] in " \t\n\r" then SkipSpace(t[1..]) else t
  }

  predicate Starts(t: string, c: char) {
    t != "" && t[0] == c
  }

  type Parsed<T> = Option<(T, string)>

  function ParseValue(text: string): (r: Parsed<Tree>)
    ensures r.Some? ==> |r.value.1| < |text|
    decreases |text|, 2
  {
    var t := SkipSpace(text);
    if t == "" then None
    else if t[0] == '"' then
      var p := ParseChars(t[1..]);
      if p.None? then None else Some((TString(p.value.0), p.value.1))
    else if t[0] == '[' then
      var u := SkipSpace(t[1..]);
      if Starts(u, ']') then Some((TArray([]), u[1..]))
      else
        var p := ParseItems(t[1..]);
        if p.None? then None else Some((TArray(p.value.0), p.value.1))
    else if t[0] == '{' then
      var u := SkipSpace(t[1..]);
      if Starts(u, '}') then Some((TObject([]), u[1..]))
      else
        var p := ParseMembers(t[1..]);
        if p.None? then None else Some((TObject(p.value.0), p.value.1))
    else if "null" <= t then Some((TNull, t[4..]))
    else if "true" <= t then Some((TBool(true), t[4..]))
    else if "false" <= t then Some((TBool(false), t[5..]))
    else ParseNumber(t)
  }

  function ParseNumber(t: string): (r: Parsed<Tree>)
    ensures r.Some? ==> |r.value.1| < |t|
  {
    var n := NumberRun(t);
    if IsNumber(t[..n]) then Some((TNumber(t[..n]), t[n..])) else None
  }

  /** One or more values up to the closing bracket. */
  function ParseItems(text: string): (r: Parsed<seq<Tree>>)
    ensures r.Some? ==> |r.value.1| < |text|
    decreases |text|, 3
  {
    var head := ParseValue(text);
    if head.None? then None
    else
      var t := SkipSpace(head.value.1);
      if Starts(t, ']') then Some(([head.value.0], t[1..]))
      else if Starts(t, ',') then
        var tail := ParseItems(t[1..]);
        if tail.None? then None else Some(([head.value.0] + tail.value.0, tail.value.1))
      else None
  }

  function ParseMember(text: string): (r: Parsed<Member>)
    ensures r.Some? ==> |r.value.1| < |text|
    decreases |text|, 3
  {
    var t := SkipSpace(text);
    if !Starts(t, '"') then None
    else
      var key := ParseChars(t[1..]);
      if key.None? then None
      else
        var u := SkipSpace(key.value.1);
        if !Starts(u, ':') then None
        else
          var value := ParseValue(u[1..]);
          if value.None? then None
          else Some((Member(key.value.0, value.value.0), value.value.1))
  }

  /** One or more members up to the closing brace. */
  function ParseMembers(text: string): (r: Parsed<seq<Member>>)
    ensures r.Some? ==> |r.value.1| < |text|
    decreases |text|, 4
  {
    var head := ParseMember(text);
    if head.None? then None
    else
      var t := SkipSpace(head.value.1);
      if Starts(t, '}') then Some(([head.value.0], t[1..]))
      else if Starts(t, ',') then
        var tail := ParseMembers(t[1..]);
        if tail.None? then None else Some(([head.value.0] + tail.value.0, tail.value.1))
      else None
  }

  /** JSON.parse: one value and nothing but white space after it. */
  function Parse(text: string): Option<Tree> {
    var p := ParseValue(text);
    if p.Some? && SkipSpace(p.value.1) == "" then Some(p.value.0) else None
  }

  // ---- Parsing undoes printing ----

  /** What can follow a value inside a printed text. */
  predicate Closed(rest: string) {
    rest == "" || rest[0] in ",]}"
  }

  lemma PrintHead(t: Tree)
    requires WellFormed(t)
    ensures Print(t) != "" && Print(t)[0] !in " \t\n\r,]}:"
  {
    match t
    case TNumber(lexeme) =>
      assert IsNumberChar(lexeme[0]);
    case _ =>
  }

  lemma {:induction false} ParseValuePrinted(t: Tree, rest: string)
    requires WellFormed(t) && Closed(rest)
    ensures ParseValue(Print(t) + rest) == Some((t, rest))
    decreases t, 0
  {
    var text := Print(t) + rest;
    PrintHead(t);
    assert SkipSpace(text) == text;
    match t
    case TArray(items) =>
      ParseArrayPrinted(items, rest);
    case TObject(members) =>
      ParseObjectPrinted(members, rest);
    case _ =>
      ParseScalarPrinted(t, rest);
  }

  lemma ParseScalarPrinted(t: Tree, rest: string)
    requires WellFormed(t) && Closed(rest) && !t.TArray? && !t.TObject?
    ensures ParseValue(Print(t) + rest) == Some((t, rest))
  {
    match t
    case TNull => ParseWordPrinted(t, rest);
    case TBool(b) => ParseWordPrinted(t, rest);
    case TNumber(lexeme) => ParseNumberPrinted(lexeme, rest);
    case TString(s) => ParseStringPrinted(s, rest);
    case _ =>
  }

  lemma ParseWordPrinted(t: Tree, rest: string)
    requires t.TNull? || t.TBool?
    ensures ParseValue(Print(t) + rest) == Some((t, rest))
  {
    var word := Print(t);
    var text := word + rest;
    assert text[0] == word[0] && SkipSpace(text) == text;
    assert word <= text && text[|word|..] == rest;
  }

  lemma ParseNumberPrinted(lexeme: string, rest: string)
    requires IsNumber(lexeme) && Closed(rest)
    ensures ParseValue(lexeme + rest) == Some((TNumber(lexeme), rest))
  {
    var text := lexeme + rest;
    assert IsNumberChar(lexeme[0]) && text[0] == lexeme[0];
    ParseValueNumber(text);
    NumberRunOf(lexeme, rest);
    assert text[..|lexeme|] == lexeme && text[|lexeme|..] == rest;
  }

  lemma ParseValueNumber(text: string)
    requires text != "" && IsNumberChar(text[0])
    ensures ParseValue(text) == ParseNumber(text)
  {
    hide ParseChars, ParseItems, ParseMembers, ParseNumber;
    assert SkipSpace(text) == text;
  }

  lemma ParseStringPrinted(s: string, rest: string)
    ensures ParseValue(Quote(s) + rest) == Some((TString(s), rest))
  {
    var text := Quote(s) + rest;
    assert text[0] == '"' && SkipSpace(text) == text;
    assert text[1..] == EscapeAll(s) + "\"" + rest;
    ParseCharsQuoted(s, rest);
  }

  lemma {:induction false} ParseArrayPrinted(items: seq<Tree>, rest: string)
    requires Closed(rest)
    requires forall v :: v in items ==> WellFormed(v)
    ensures ParseValue(Print(TArray(items)) + rest) == Some((TArray(items), rest))
    decreases items, 2
  {
    var text := Print(TArray(items)) + rest;
    assert text[0] == '[' && SkipSpace(text) == text;
    if items == [] {
      var after := "]" + rest;
      assert Print(TArray(items)) == "[]";
      assert text == "[" + after;
      assert after[1..] == rest;
      assert SkipSpace(after) == after;
    } else {
      var after := PrintItems(items) + "]" + rest;
      assert text[1..] == after;
      PrintItemsHead(items);
      assert after[0] == PrintItems(items)[0];
      assert SkipSpace(after) == after;
      ParseItemsPrinted(items, rest);
    }
  }

  lemma {:induction false} ParseObjectPrinted(members: seq<Member>, rest: string)
    requires Closed(rest)
    requires forall m :: m in members ==> WellFormed(m.value)
    ensures ParseValue(Print(TObject(members)) + rest) == Some((TObject(members), rest))
    decreases members, 3
  {
    var text := Print(TObject(members)) + rest;
    assert text[0] == '{' && SkipSpace(text) == text;
    if members == [] {
      var after := "}" + rest;
      assert Print(TObject(members)) == "{}";
      assert text == "{" + after;
      assert after[1..] == rest;
      assert SkipSpace(after) == after;
    } else {
      var after := PrintMembers(members) + "}" + rest;
      assert text[1..] == after;
      PrintMembersHead(members);
      assert after[0] == '"';
      assert SkipSpace(after) == after;
      ParseMembersPrinted(members, rest);
    }
  }

  lemma PrintItemsHead(items: seq<Tree>)
    requires items != [] && WellFormed(items[0])
    ensures PrintItems(items) != "" && PrintItems(items)[0] !in " \t\n\r]"
  {
    PrintHead(items[0]);
  }

  lemma PrintMembersHead(members: seq<Member>)
    requires members != []
    ensures PrintMembers(members) != "" && PrintMembers(members)[0] == '"'
  {
    assert PrintMember(members[0])[0] == '"';
  }

  lemma ItemThen(text: string, v: Tree, after: string)
    requires ParseValue(text) == Some((v, after)) && SkipSpace(after) == after
    ensures Starts(after, ']') ==> ParseItems(text) == Some(([v], after[1..]))
    ensures Starts(after, ',') && ParseItems(after[1..]).Some? ==>
      ParseItems(text) == Some(([v] + ParseItems(after[1..]).value.0, ParseItems(after[1..]).value.1))
  {
    hide ParseValue, SkipSpace;
  }

  lemma {:induction false} ParseItemsPrinted(items: seq<Tree>, rest: string)
    requires items != []
    requires forall v :: v in items ==> WellFormed(v)
    ensures ParseItems(PrintItems(items) + "]" + rest) == Some((items, rest))
    decreases items, 1
  {
    hide ParseValue, Print, WellFormed, ParseItems;
    var text := PrintItems(items) + "]" + rest;
    var first := items[0];
    if |items| == 1 {
      var after := "]" + rest;
      assert text == Print(first) + after;
      ParseValuePrinted(first, after);
      assert SkipSpace(after) == after && after[1..] == rest;
      ItemThen(text, first, after);
      assert items == [first];
    } else {
      var tail := PrintItems(items[1..]);
      var after := "," + (tail + "]" + rest);
      Regroup(Print(first), tail, "]", rest);
      ParseValuePrinted(first, after);
      assert SkipSpace(after) == after && after[1..] == tail + "]" + rest;
      ParseItemsPrinted(items[1..], rest);
      ItemThen(text, first, after);
      assert items == [first] + items[1..];
    }
  }

  lemma {:induction false} ParseMemberPrinted(m: Member, rest: string)
    requires WellFormed(m.value) && Closed(rest)
    ensures ParseMember(PrintMember(m) + rest) == Some((m, rest))
    decreases m, 1
  {
    hide ParseValue, Print, WellFormed, ParseChars, EscapeAll;
    var text := PrintMember(m) + rest;
    var after := ":" + (Print(m.value) + rest);
    assert text[0] == '"' && SkipSpace(text) == text;
    assert text[1..] == EscapeAll(m.key) + "\"" + after;
    ParseCharsQuoted(m.key, after);
    assert SkipSpace(after) == after && after[1..] == Print(m.value) + rest;
    ParseValuePrinted(m.value, rest);
  }

  lemma Regroup(first: string, tail: string, close: string, rest: string)
    ensures first + "," + tail + close + rest == first + ("," + (tail + close + rest))
  {}

  lemma MemberThen(text: string, m: Member, after: string)
    requires ParseMember(text) == Some((m, after)) && SkipSpace(after) == after
    ensures Starts(after, '}') ==> ParseMembers(text) == Some(([m], after[1..]))
    ensures Starts(after, ',') && ParseMembers(after[1..]).Some? ==>
      ParseMembers(text) == Some(([m] + ParseMembers(after[1..]).value.0, ParseMembers(after[1..]).value.1))
  {
    hide ParseMember, SkipSpace;
  }

  lemma {:induction false} ParseMembersPrinted(members: seq<Member>, rest: string)
    requires members != []
    requires forall m :: m in members ==> WellFormed(m.value)
    ensures ParseMembers(PrintMembers(members) + "}" + rest) == Some((members, rest))
    decreases members, 2
  {
    hide PrintMember, ParseMember, WellFormed, ParseMembers;
    var text := PrintMembers(members) + "}" + rest;
    var first := members[0];
    if |members| == 1 {
      var after := "}" + rest;
      assert text == PrintMember(first) + after;
      ParseMemberPrinted(first, after);
      assert SkipSpace(after) == after && after[1..] == rest;
      MemberThen(text, first, after);
      assert members == [first];
    } else {
      var tail := PrintMembers(members[1..]);
      var after := "," + (tail + "}" + rest);
      Regroup(PrintMember(first), tail, "}", rest);
      ParseMemberPrinted(first, after);
      assert SkipSpace(after) == after && after[1..] == tail + "}" + rest;
      ParseMembersPrinted(members[1..], rest);
      MemberThen(text, first, after);
      assert members == [first] + members[1..];
    }
  }

  /** JSON.parse undoes JSON.stringify on every well-formed value. */
  lemma ParseUndoesPrint(t: Tree)
    requires WellFormed(t)
    ensures Parse(Print(t)) == Some(t)
  {
    ParseValuePrinted(t, "");
    assert Print(t) + "" == Print(t);
  }
}
