/** The entities of src/types.ts that the client, its store and the fixture server exchange. */
module Records {
  import opened Json

  const MAX_SAFE_INTEGER: int := 0x1F_FFFF_FFFF_FFFF

  /** A record is a JSON object with a string under "id". */
  type Record = j: Json | j.Obj? && "id" in j.fields && j.fields["id"].Str?
    witness Obj(map["id" := Str("")])

  function Id(r: Record): string {
    r.fields["id"].s
  }

  function WithId(r: Record, id: string): (w: Record)
    ensures Id(w) == id
  {
    Obj(r.fields["id" := Str(id)])
  }

  /** A numeric updatedAt, else a numeric updated_at, else zero. */
  function TimestampOf(r: Record): int {
    if "updatedAt" in r.fields && r.fields["updatedAt"].Num? then r.fields["updatedAt"].n
    else if "updated_at" in r.fields && r.fields["updated_at"].Num? then r.fields["updated_at"].n
    else 0
  }

  datatype Tombstone = Tombstone(id: string, timestamp: int)

  datatype Operation = Create | Update | Delete

  datatype Mutation = Mutation(
    id: string,
    table: string,
    operation: Operation,
    payload: Record,
    timestamp: int,
    schemaVersion: int,
    dependsOn: seq<string>)

  function MutationIds(ms: seq<Mutation>): set<string> {
    set m | m in ms :: m.id
  }

  /** The record ids that a list of mutations writes. */
  function RecordIds(ms: seq<Mutation>): set<string> {
    set m | m in ms :: Id(m.payload)
  }

  /** A table as the client shows it: records under their own ids. */
  type Table = map<string, Record>

  ghost predicate Keyed(t: Table) {
    forall id :: id in t ==> Id(t[id]) == id
  }

  function Cell(t: Table, id: string): Option<Record> {
    if id in t then Some(t[id]) else None
  }

  lemma CellsDetermineTable(a: Table, b: Table)
    requires forall id :: Cell(a, id) == Cell(b, id)
    ensures a == b
  {
    forall id
      ensures id in a <==> id in b
      ensures id in a && id in b ==> a[id] == b[id]
    {
      assert Cell(a, id) == Cell(b, id);
    }
  }

  /** A list read into a JavaScript Map: a later record replaces an earlier one of the same id. */
  function AsTable(rs: seq<Record>): Table {
    if rs == [] then map[]
    else AsTable(rs[..|rs| - 1])[Id(rs[|rs| - 1]) := rs[|rs| - 1]]
  }

  ghost predicate UniqueIds(rs: seq<Record>) {
    forall i, j :: 0 <= i < j < |rs| ==> Id(rs[i]) != Id(rs[j])
  }

  lemma {:induction false} AsTableIsKeyed(rs: seq<Record>)
    ensures Keyed(AsTable(rs))
    ensures forall id :: id in AsTable(rs) ==> AsTable(rs)[id] in rs
    ensures forall r :: r in rs ==> Id(r) in AsTable(rs)
  {
    if rs != [] {
      AsTableIsKeyed(rs[..|rs| - 1]);
    }
  }

  /** With unique ids nothing is replaced: the table holds exactly the listed records. */
  lemma {:induction false} AsTableHolds(rs: seq<Record>)
    requires UniqueIds(rs)
    ensures forall i :: 0 <= i < |rs| ==> Id(rs[i]) in AsTable(rs) && AsTable(rs)[Id(rs[i])] == rs[i]
  {
    if rs != [] {
      var init := rs[..|rs| - 1];
      AsTableHolds(init);
      forall i | 0 <= i < |rs|
        ensures Id(rs[i]) in AsTable(rs) && AsTable(rs)[Id(rs[i])] == rs[i]
      {
        if i < |rs| - 1 {
          assert init[i] == rs[i];
        }
      }
    }
  }

  /** The last timestamp given for each id, as a JavaScript Map built from the list. */
  function Stamps(ts: seq<Tombstone>): map<string, int> {
    if ts == [] then map[]
    else Stamps(ts[..|ts| - 1])[ts[|ts| - 1].id := ts[|ts| - 1].timestamp]
  }
}
