/** The hand-written JSON of the native queue (cpp/NitroSync.cpp) and the TypeScript code that reads
    it back (parseSerializedMutation in src/merge.ts). */
module NativeText {
  import opened Json
  import opened Strings
  import opened JsonText
  import opened StableText
  import opened Wire
  import opened Records

  /** quoteJson: one pass over the characters, appending each escape. Only characters below 0x80
      are inspected, so the bytes of longer UTF-8 sequences pass through unchanged. */
  method QuoteJson(value: string) returns (escaped: string)
    ensures escaped == Quote(value)
  {
    escaped := "\"";
    for i := 0 to |value|
      invariant escaped == "\"" + EscapeAll(value[..i])
    {
      ConcatMapAppend(Escape, value[..i], value[i]);
      assert value[..i + 1] == value[..i] + [value[i]];
      escaped := escaped + Escape(value[i]);
    }
    assert value[..|value|] == value;
    escaped := escaped + "\"";
  }

  /** A row of the native queue: payload and dependsOn are JSON texts. */
  datatype NativeMutation = NativeMutation(
    id: string,
    table: string,
    operation: Operation,
    payload: string,
    timestamp: int,
    schemaVersion: int,
    dependsOn: string)

  /** A field name and its already printed value. */
  function Entry(name: string, text: string): string {
    "\"" + name + "\":" + text
  }

  function Entries(a: string, b: string, c: string, d: string, e: string, f: string, g: string): string {
    "{" + a + "," + b + "," + c + "," + d + "," + e + "," + f + "," + g + "}"
  }

  function RowText(m: NativeMutation): string {
    Entries(
      Entry("id", Quote(m.id)),
      Entry("tableName", Quote(m.table)),
      Entry("operation", Quote(OperationName(m.operation))),
      Entry("payload", Quote(m.payload)),
      Entry("timestamp", Decimal(m.timestamp)),
      Entry("schemaVersion", Decimal(m.schemaVersion)),
      Entry("dependsOn", Quote(m.dependsOn)))
  }

  /** listPendingMutations: one text for each claimed row, in order. */
  method SerializeRows(rows: seq<NativeMutation>) returns (texts: seq<string>)
    ensures |texts| == |rows|
    ensures forall i :: 0 <= i < |rows| ==> texts[i] == RowText(rows[i])
  {
    hide Quote, Decimal, OperationName;
    texts := [];
    for i := 0 to |rows|
      invariant |texts| == i
      invariant forall j :: 0 <= j < i ==> texts[j] == RowText(rows[j])
    {
      var id := QuoteJson(rows[i].id);
      var table := QuoteJson(rows[i].table);
      var operation := QuoteJson(OperationName(rows[i].operation));
      var payload := QuoteJson(rows[i].payload);
      var dependsOn := QuoteJson(rows[i].dependsOn);
      texts := texts + [Entries(
        Entry("id", id), Entry("tableName", table), Entry("operation", operation), Entry("payload", payload),
        Entry("timestamp", Decimal(rows[i].timestamp)), Entry("schemaVersion", Decimal(rows[i].schemaVersion)),
        Entry("dependsOn", dependsOn))];
    }
  }

  // ---- JavaScript numbers ----

  const TWO_53: nat := 0x20_0000_0000_0000

  predicate IsSafeInteger(n: int) {
    -MAX_SAFE_INTEGER <= n <= MAX_SAFE_INTEGER
  }

  /** The distance between neighbouring doubles around n. */
  function Spacing(n: nat): (s: nat)
    ensures s > 0
  {
    if n < TWO_53 then 1 else 2 * Spacing(n / 2)
  }

  /** The double nearest to an integer, ties to even. */
  function ToDouble(n: int): int {
    var s := Spacing(if n < 0 then -n else n);
    var q, r := n / s, n % s;
    if 2 * r < s || (2 * r == s && q % 2 == 0) then q * s else (q + 1) * s
  }

  lemma SafeSpacing(n: nat)
    ensures n <= MAX_SAFE_INTEGER ==> Spacing(n) == 1
  {}

  /** Reading an integer as a JavaScript number keeps it exactly when it is a multiple of the
      spacing of doubles there, in particular when it is a safe integer. */
  lemma ToDoubleExact(n: int)
    ensures ToDouble(n) == n <==> n % Spacing(if n < 0 then -n else n) == 0
    ensures IsSafeInteger(n) ==> ToDouble(n) == n
  {
    SafeSpacing(if n < 0 then -n else n);
    hide Spacing;
    var s := Spacing(if n < 0 then -n else n);
    var q, r := n / s, n % s;
    assert n == q * s + r;
    assert (q + 1) * s == q * s + s;
  }

  lemma FirstUnsafeInteger()
    ensures ToDouble(TWO_53 + 1) == TWO_53
  {
    assert Spacing(TWO_53 + 1) == 2 * Spacing((TWO_53 + 1) / 2);
    assert Spacing((TWO_53 + 1) / 2) == 1;
  }

  // ---- parseSerializedMutation ----

  datatype ParsedMutation = ParsedMutation(
    id: string,
    table: string,
    operation: string,
    payload: Tree,
    timestamp: int,
    schemaVersion: int,
    dependsOn: Option<Tree>)

  function Field(members: seq<Member>, key: string): Option<Tree> {
    if key in Keys(members) then Some(Lookup(members, key)) else None
  }

  /** An integer lexeme as the number JavaScript reads. */
  function ReadInteger(t: Option<Tree>): Option<int> {
    if t.Some? && t.value.TNumber? && t.value.lexeme != "" &&
       AllDigits(if t.value.lexeme[0] == '-' then t.value.lexeme[1..] else t.value.lexeme)
    then Some(ToDouble(IntegerValue(t.value.lexeme)))
    else None
  }

  /** A field that holds either a JSON text or the value itself. */
  function Unwrap(t: Tree): Option<Tree> {
    if t.TString? then Parse(t.s) else Some(t)
  }

  /** None stands for a thrown syntax error or a row without the declared fields. */
  function ParseSerializedMutation(text: string): Option<ParsedMutation> {
    var raw := Parse(text);
    if raw.None? || !raw.value.TObject? then None
    else
      var ms := raw.value.members;
      FromFields(
        Field(ms, "id"), Field(ms, "tableName"), Field(ms, "operation"), Field(ms, "payload"),
        Field(ms, "timestamp"), Field(ms, "schemaVersion"), Field(ms, "dependsOn"))
  }

  function FromFields(
    id: Option<Tree>, table: Option<Tree>, operation: Option<Tree>, payload: Option<Tree>,
    timestamp: Option<Tree>, schemaVersion: Option<Tree>, dependsOn: Option<Tree>): Option<ParsedMutation>
  {
    var time, version := ReadInteger(timestamp), ReadInteger(schemaVersion);
    if !(id.Some? && id.value.TString? && table.Some? && table.value.TString? &&
         operation.Some? && operation.value.TString? && payload.Some? && time.Some?) then None
    else if Unwrap(payload.value).None? || (dependsOn.Some? && Unwrap(dependsOn.value).None?) then None
    else Some(ParsedMutation(
      id.value.s,
      table.value.s,
      operation.value.s,
      Unwrap(payload.value).value,
      time.value,
      if version.Some? && IsSafeInteger(version.value) && version.value > 0 then version.value else 1,
      if dependsOn.None? then None else Unwrap(dependsOn.value)))
  }

  /** A field that holds a JSON text is read as its value, any other as it is. */
  ghost predicate Reads(field: Tree, value: Option<Tree>) {
    (exists s :: field == TString(s) && value == Parse(s)) || (!field.TString? && value == Some(field))
  }

  /** A row is refused exactly if a name is no string, its time is no integer, its payload is missing or
      one of the nested texts is no JSON. Otherwise its schema version is one unless it is a positive
      safe integer, and it depends on nothing unless it says so. */
  lemma RowIsRead(
    id: Option<Tree>, table: Option<Tree>, operation: Option<Tree>, payload: Option<Tree>,
    timestamp: Option<Tree>, schemaVersion: Option<Tree>, dependsOn: Option<Tree>, value: Option<Tree>,
    prerequisites: Option<Tree>)
    requires payload.Some? ==> Reads(payload.value, value)
    requires dependsOn.Some? ==> Reads(dependsOn.value, prerequisites)
    ensures var p := FromFields(id, table, operation, payload, timestamp, schemaVersion, dependsOn);
      && (p.None? <==>
            || id.None? || !id.value.TString? || table.None? || !table.value.TString?
            || operation.None? || !operation.value.TString? || payload.None? || value.None?
            || ReadInteger(timestamp).None? || (dependsOn.Some? && prerequisites.None?))
      && (p.Some? ==>
            && Some(TString(p.value.id)) == id && Some(TString(p.value.table)) == table
            && Some(TString(p.value.operation)) == operation && Some(p.value.payload) == value
            && Some(p.value.timestamp) == ReadInteger(timestamp)
            && (forall v :: ReadInteger(schemaVersion) == Some(v) && 0 < v <= MAX_SAFE_INTEGER ==>
                  p.value.schemaVersion == v)
            && (ReadInteger(schemaVersion).None? ==> p.value.schemaVersion == 1)
            && (forall v :: ReadInteger(schemaVersion) == Some(v) && !(0 < v <= MAX_SAFE_INTEGER) ==>
                  p.value.schemaVersion == 1)
            && p.value.dependsOn == if dependsOn.Some? then prerequisites else None)
  {
    hide Parse, ReadInteger;
  }

  // ---- The round trip ----

  function RowTree(m: NativeMutation): Tree {
    Labelled(
      TString(m.id), TString(m.table), TString(OperationName(m.operation)), TString(m.payload),
      TNumber(Decimal(m.timestamp)), TNumber(Decimal(m.schemaVersion)), TString(m.dependsOn))
  }

  /** Characters that are printed as themselves. */
  predicate Plain(s: string) {
    forall c :: c in s ==> c as int >= 0x20 && c != '"' && c != '\\'
  }

  lemma {:induction false} PlainEscape(s: string)
    requires Plain(s)
    ensures EscapeAll(s) == s
    decreases |s|
  {
    if s != "" {
      assert s == [s[0]] + s[1..];
      assert forall c :: c in s[1..] ==> c in s;
      PlainEscape(s[1..]);
      assert s[0] in s;
    }
  }

  lemma PrintEntry(m: Member)
    requires Plain(m.key)
    ensures PrintMember(m) == Entry(m.key, Print(m.value))
  {
    PlainEscape(m.key);
  }

  lemma Nested(a: string, b: string, c: string, d: string, e: string, f: string, g: string)
    ensures "{" + (a + "," + (b + "," + (c + "," + (d + "," + (e + "," + (f + "," + g)))))) + "}"
         == Entries(a, b, c, d, e, f, g)
  {}

  lemma PrintSeven(ms: seq<Member>)
    requires |ms| == 7
    ensures Print(TObject(ms)) == Entries(
      PrintMember(ms[0]), PrintMember(ms[1]), PrintMember(ms[2]), PrintMember(ms[3]),
      PrintMember(ms[4]), PrintMember(ms[5]), PrintMember(ms[6]))
  {
    assert ms[5..][1..] == ms[6..] && ms[4..][1..] == ms[5..] && ms[3..][1..] == ms[4..];
    assert ms[2..][1..] == ms[3..] && ms[1..][1..] == ms[2..];
    assert PrintMembers(ms[6..]) == PrintMember(ms[6]);
    assert PrintMembers(ms[5..]) == PrintMember(ms[5]) + "," + PrintMembers(ms[6..]);
    assert PrintMembers(ms[4..]) == PrintMember(ms[4]) + "," + PrintMembers(ms[5..]);
    assert PrintMembers(ms[3..]) == PrintMember(ms[3]) + "," + PrintMembers(ms[4..]);
    assert PrintMembers(ms[2..]) == PrintMember(ms[2]) + "," + PrintMembers(ms[3..]);
    assert PrintMembers(ms[1..]) == PrintMember(ms[1]) + "," + PrintMembers(ms[2..]);
    Nested(
      PrintMember(ms[0]), PrintMember(ms[1]), PrintMember(ms[2]), PrintMember(ms[3]),
      PrintMember(ms[4]), PrintMember(ms[5]), PrintMember(ms[6]));
  }

  /** The concatenation of the native code is the text of the row's tree. */
  lemma RowTextPrints(m: NativeMutation)
    ensures RowText(m) == Print(RowTree(m))
  {
    var ms := RowTree(m).members;
    PrintSeven(ms);
    PlainLabels();
    PrintEntry(ms[0]);
    PrintEntry(ms[1]);
    PrintEntry(ms[2]);
    PrintEntry(ms[3]);
    PrintEntry(ms[4]);
    PrintEntry(ms[5]);
    PrintEntry(ms[6]);
  }

  lemma PlainLabels()
    ensures Plain("id") && Plain("tableName") && Plain("operation") && Plain("payload")
    ensures Plain("timestamp") && Plain("schemaVersion") && Plain("dependsOn")
  {}

  lemma FieldAt(ms: seq<Member>, i: nat)
    requires Distinct(Keys(ms)) && i < |ms|
    ensures Field(ms, ms[i].key) == Some(ms[i].value)
  {
    DistinctLookup(ms, i);
    hide Lookup;
  }

  lemma RowTreeWellFormed(m: NativeMutation)
    ensures WellFormed(RowTree(m)) && RowTree(m).TObject? && Distinct(Keys(RowTree(m).members))
  {
    NumberTreeWellFormed(m.timestamp);
    NumberTreeWellFormed(m.schemaVersion);
    LabelledWellFormed(
      TString(m.id), TString(m.table), TString(OperationName(m.operation)), TString(m.payload),
      TNumber(Decimal(m.timestamp)), TNumber(Decimal(m.schemaVersion)), TString(m.dependsOn));
  }

  lemma RowTreeFields(m: NativeMutation)
    ensures var ms := RowTree(m).members;
      && WellFormed(RowTree(m))
      && Field(ms, "id") == Some(TString(m.id))
      && Field(ms, "tableName") == Some(TString(m.table))
      && Field(ms, "operation") == Some(TString(OperationName(m.operation)))
      && Field(ms, "payload") == Some(TString(m.payload))
      && Field(ms, "timestamp") == Some(TNumber(Decimal(m.timestamp)))
      && Field(ms, "schemaVersion") == Some(TNumber(Decimal(m.schemaVersion)))
      && Field(ms, "dependsOn") == Some(TString(m.dependsOn))
  {
    hide Field, Lookup, Decimal, OperationName, WellFormed, Distinct;
    RowTreeWellFormed(m);
    var ms := RowTree(m).members;
    FieldAt(ms, 0);
    FieldAt(ms, 1);
    FieldAt(ms, 2);
    FieldAt(ms, 3);
    FieldAt(ms, 4);
    FieldAt(ms, 5);
    FieldAt(ms, 6);
  }

  lemma ReadDecimal(n: int)
    ensures ReadInteger(Some(TNumber(Decimal(n)))) == Some(ToDouble(n))
  {
    DecimalValue(n);
  }

  lemma UnwrapPrinted(t: Tree)
    requires WellFormed(t)
    ensures Unwrap(TString(Print(t))) == Some(t)
  {
    ParseUndoesPrint(t);
  }

  lemma ParseReadsFields(text: string, ms: seq<Member>)
    requires Parse(text) == Some(TObject(ms))
    ensures ParseSerializedMutation(text) == FromFields(
      Field(ms, "id"), Field(ms, "tableName"), Field(ms, "operation"), Field(ms, "payload"),
      Field(ms, "timestamp"), Field(ms, "schemaVersion"), Field(ms, "dependsOn"))
  {
    hide Parse, FromFields, Field;
  }

  lemma FieldsGive(m: NativeMutation, payload: Tree, dependsOn: Tree, time: Tree, version: Tree)
    requires Unwrap(TString(m.payload)) == Some(payload) && Unwrap(TString(m.dependsOn)) == Some(dependsOn)
    requires ReadInteger(Some(time)) == Some(ToDouble(m.timestamp))
    requires ReadInteger(Some(version)) == Some(m.schemaVersion)
    requires 0 < m.schemaVersion < 0x8000_0000
    ensures FromFields(
      Some(TString(m.id)), Some(TString(m.table)), Some(TString(OperationName(m.operation))),
      Some(TString(m.payload)), Some(time), Some(version), Some(TString(m.dependsOn)))
      == Some(ParsedMutation(
        m.id, m.table, OperationName(m.operation), payload, ToDouble(m.timestamp), m.schemaVersion, Some(dependsOn)))
  {
    hide Unwrap, ReadInteger, ToDouble, OperationName;
  }

  /** Every field of a claimed native row is recovered, down to the nested payload and dependsOn
      texts; the timestamp comes back as the double nearest to it. */
  lemma NativeRowRoundTrip(m: NativeMutation, payload: Tree, dependsOn: Tree)
    requires WellFormed(payload) && m.payload == Print(payload)
    requires WellFormed(dependsOn) && m.dependsOn == Print(dependsOn)
    requires 0 < m.schemaVersion < 0x8000_0000
    ensures ParseSerializedMutation(RowText(m)) == Some(ParsedMutation(
      m.id, m.table, OperationName(m.operation), payload, ToDouble(m.timestamp), m.schemaVersion, Some(dependsOn)))
    ensures IsSafeInteger(m.timestamp) ==> ToDouble(m.timestamp) == m.timestamp
  {
    ToDoubleExact(m.timestamp);
    ToDoubleExact(m.schemaVersion);
    assert IsSafeInteger(m.schemaVersion);
    hide *;
    RowTextPrints(m);
    RowTreeFields(m);
    ParseUndoesPrint(RowTree(m));
    RowTreeIsObject(m);
    UnwrapPrinted(payload);
    UnwrapPrinted(dependsOn);
    ReadDecimal(m.timestamp);
    ReadDecimal(m.schemaVersion);
    ParseReadsFields(RowText(m), RowTree(m).members);
    FieldsGive(m, payload, dependsOn, TNumber(Decimal(m.timestamp)), TNumber(Decimal(m.schemaVersion)));
  }

  lemma RowTreeIsObject(m: NativeMutation)
    ensures RowTree(m).TObject?
  {}
}
