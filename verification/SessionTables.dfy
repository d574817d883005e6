/** Building the sessions of a tick (sessionspaces/src/permissionables): a join that consumes its tables,
    and the static sessions merged into its result. */
module SessionTables {
  import opened Sessionspaces
  import opened Wrappers
  import Decimal
  import Visits

  datatype BasicInfo = BasicInfo(
    id: nat,
    proposalId: nat,
    proposalCode: string,
    proposalNumber: nat,
    visit: nat,
    instrument: string,
    startDate: string,
    endDate: string)

  datatype Tables = Tables(
    direct: map<nat, set<string>>,
    proposals: map<nat, set<string>>,
    instruments: map<string, set<string>>,
    posix: map<string, nat>)

  /** The namespace of a session. */
  function NameOf(row: BasicInfo): string {
    Visits.Show(Visits.Visit(row.proposalCode, row.proposalNumber, row.visit))
  }

  function SubjectsOf<K>(subjects: map<K, set<string>>, key: K): set<string> {
    if key in subjects then subjects[key] else {}
  }

  /** The plain join of one row: members from all three tables, and the group ID under the session's name. */
  function Joined(row: BasicInfo, tables: Tables): Session {
    Session(row.proposalCode, row.proposalNumber, row.visit, row.instrument,
            SubjectsOf(tables.direct, row.id) + SubjectsOf(tables.proposals, row.proposalId)
            + SubjectsOf(tables.instruments, row.instrument),
            Lookup(tables.posix, NameOf(row)), row.startDate, row.endDate, None)
  }

  /** The tables after a row has taken its entries out. */
  function Consumed(row: BasicInfo, tables: Tables): Tables {
    tables.(direct := tables.direct - {row.id}, posix := tables.posix - {NameOf(row)})
  }

  /** Sessions::new. */
  method New(rows: seq<BasicInfo>, tables: Tables) returns (sessions: Sessions)
    ensures Yields(sessions, rows, tables)
  {
    sessions := map[];
    var direct, posix := tables.direct, tables.posix;
    for i := 0 to |rows|
      invariant direct == Left(rows[..i], tables).direct && posix == Left(rows[..i], tables).posix
      invariant Yields(sessions, rows[..i], tables)
    {
      var row := rows[i];
      OneRowMore(rows, i, tables, sessions);
      LeftExactly(rows[..i], tables);
      var name := NameOf(row);
      var members := SubjectsOf(direct, row.id);
      direct := direct - {row.id};
      members := members + SubjectsOf(tables.proposals, row.proposalId)
                 + SubjectsOf(tables.instruments, row.instrument);
      var gid := Lookup(posix, name);
      posix := posix - {name};
      var session := Session(row.proposalCode, row.proposalNumber, row.visit, row.instrument, members, gid,
                             row.startDate, row.endDate, None);
      assert session == Joined(row, Left(rows[..i], tables));
      sessions := sessions[name := session];
    }
    assert rows[..|rows|] == rows;
  }

  // ---------------------------------------------------------------- what the join yields

  predicate HasRow(rows: seq<BasicInfo>, name: string) {
    exists row :: row in rows && NameOf(row) == name
  }

  /** The tables that are left after some rows. */
  function Left(rows: seq<BasicInfo>, tables: Tables): Tables {
    if rows == [] then tables else Consumed(rows[|rows| - 1], Left(rows[..|rows| - 1], tables))
  }

  /** The last row of a name; it is the one that is kept. */
  function LastRow(rows: seq<BasicInfo>, name: string): (k: nat)
    requires HasRow(rows, name)
    ensures k < |rows| && NameOf(rows[k]) == name && forall j :: k < j < |rows| ==> NameOf(rows[j]) != name
  {
    var front, last := rows[..|rows| - 1], rows[|rows| - 1];
    if NameOf(last) == name then |rows| - 1
    else
      assert HasRow(front, name) by {
        var row :| row in rows && NameOf(row) == name;
        assert rows == front + [last];
      }
      LastRow(front, name)
  }

  /** The session read under a name: its last row, joined with what the rows before it have left. */
  function Read(rows: seq<BasicInfo>, tables: Tables, name: string): Session
    requires HasRow(rows, name)
  {
    var k := LastRow(rows, name);
    Joined(rows[k], Left(rows[..k], tables))
  }

  lemma {:induction false} ReadOneMore(rows: seq<BasicInfo>, row: BasicInfo, tables: Tables, name: string)
    requires HasRow(rows + [row], name)
    ensures NameOf(row) == name ==> Read(rows + [row], tables, name) == Joined(row, Left(rows, tables))
    ensures NameOf(row) != name ==> HasRow(rows, name) && Read(rows + [row], tables, name) == Read(rows, tables, name)
  {
    var more := rows + [row];
    assert more[..|more| - 1] == rows;
    if NameOf(row) != name {
      var k := LastRow(more, name);
      assert more[k] == rows[k] && more[..k] == rows[..k];
    }
  }

  /** There is one session for every name that occurs. */
  ghost predicate Yields(sessions: Sessions, rows: seq<BasicInfo>, tables: Tables) {
    forall name :: YieldsName(sessions, rows, tables, name)
  }

  predicate YieldsName(sessions: Sessions, rows: seq<BasicInfo>, tables: Tables, name: string) {
    && (name in sessions <==> HasRow(rows, name))
    && (name in sessions ==> sessions[name] == Read(rows, tables, name))
  }

  lemma {:induction false} OneRowMore(rows: seq<BasicInfo>, i: nat, tables: Tables, sessions: Sessions)
    requires i < |rows| && Yields(sessions, rows[..i], tables)
    ensures Left(rows[..i + 1], tables) == Consumed(rows[i], Left(rows[..i], tables))
    ensures Yields(sessions[NameOf(rows[i]) := Joined(rows[i], Left(rows[..i], tables))], rows[..i + 1], tables)
  {
    var front, row := rows[..i], rows[i];
    var after := sessions[NameOf(row) := Joined(row, Left(front, tables))];
    assert rows[..i + 1] == front + [row] && (front + [row])[..i] == front;
    forall name
      ensures YieldsName(after, front + [row], tables, name)
    {
      assert YieldsName(sessions, front, tables, name);
      assert HasRow(front + [row], name) <==> HasRow(front, name) || name == NameOf(row);
      if HasRow(front + [row], name) {
        ReadOneMore(front, row, tables, name);
      }
    }
  }

  predicate HasId(rows: seq<BasicInfo>, id: nat) {
    exists row :: row in rows && row.id == id
  }

  /** Exactly the entries of the rows are gone. */
  lemma {:induction false} LeftExactly(rows: seq<BasicInfo>, tables: Tables)
    ensures var left := Left(rows, tables);
            left.proposals == tables.proposals && left.instruments == tables.instruments
    ensures var left := Left(rows, tables);
            forall id :: (id in left.direct <==> id in tables.direct && !HasId(rows, id))
                         && (id in left.direct ==> left.direct[id] == tables.direct[id])
    ensures var left := Left(rows, tables);
            forall name :: (name in left.posix <==> name in tables.posix && !HasRow(rows, name))
                           && (name in left.posix ==> left.posix[name] == tables.posix[name])
  {
    if rows != [] {
      var front, last := rows[..|rows| - 1], rows[|rows| - 1];
      LeftExactly(front, tables);
      assert rows == front + [last];
      assert forall id :: HasId(rows, id) <==> HasId(front, id) || id == last.id;
      assert forall name :: HasRow(rows, name) <==> HasRow(front, name) || name == NameOf(last);
    }
  }

  /** For all rows and tables: a session loses its group ID exactly when an earlier row has its name,
      and its direct members exactly when an earlier row has its id. */
  lemma {:induction false} ReadExactly(rows: seq<BasicInfo>, tables: Tables, name: string)
    requires HasRow(rows, name)
    ensures var k := LastRow(rows, name);
            var row := rows[k];
            var session := Read(rows, tables, name);
            && session.gid == (if HasRow(rows[..k], name) then None else Lookup(tables.posix, name))
            && session.members == (if HasId(rows[..k], row.id) then {} else SubjectsOf(tables.direct, row.id))
                                  + SubjectsOf(tables.proposals, row.proposalId)
                                  + SubjectsOf(tables.instruments, row.instrument)
            && session.proposalCode == row.proposalCode && session.proposalNumber == row.proposalNumber
            && session.visit == row.visit && session.instrument == row.instrument
            && session.startDate == row.startDate && session.endDate == row.endDate && session.dataDirectory == None
  {
    LeftExactly(rows[..LastRow(rows, name)], tables);
  }

  // ---------------------------------------------------------------- when the join is the plain one

  /** Every session is the plain join of the last row of its name. */
  ghost predicate PlainlyJoined(rows: seq<BasicInfo>, tables: Tables) {
    forall name | HasRow(rows, name) :: Read(rows, tables, name) == Joined(rows[LastRow(rows, name)], tables)
  }

  predicate SameIdOrName(a: BasicInfo, b: BasicInfo) {
    a.id == b.id || NameOf(a) == NameOf(b)
  }

  ghost predicate Distinct(rows: seq<BasicInfo>) {
    forall i, j :: 0 <= i < j < |rows| ==> !SameIdOrName(rows[i], rows[j])
  }

  /** Taking entries out of the tables is harmless, whatever the tables hold, exactly when no two rows share an id
      or a name. */
  lemma {:induction false} PlainExactlyWhenDistinct(rows: seq<BasicInfo>)
    ensures (forall tables :: PlainlyJoined(rows, tables)) <==> Distinct(rows)
  {
    if Distinct(rows) {
      forall tables
        ensures PlainlyJoined(rows, tables)
      {
        DistinctIsPlain(rows, tables);
      }
    } else {
      var i, j :| 0 <= i < j < |rows| && SameIdOrName(rows[i], rows[j]);
      if NameOf(rows[i]) == NameOf(rows[j]) {
        SharedNameLosesGroup(rows, i, j);
      } else {
        SharedIdLosesMembers(rows, i, j);
      }
    }
  }

  lemma {:induction false} DistinctIsPlain(rows: seq<BasicInfo>, tables: Tables)
    requires Distinct(rows)
    ensures PlainlyJoined(rows, tables)
  {
    forall name | HasRow(rows, name)
      ensures Read(rows, tables, name) == Joined(rows[LastRow(rows, name)], tables)
    {
      var k := LastRow(rows, name);
      ReadExactly(rows, tables, name);
      assert forall j :: 0 <= j < k ==> !SameIdOrName(rows[j], rows[k]);
    }
  }

  lemma {:induction false} SharedNameLosesGroup(rows: seq<BasicInfo>, i: nat, j: nat)
    requires i < j < |rows| && NameOf(rows[i]) == NameOf(rows[j])
    ensures exists tables :: !PlainlyJoined(rows, tables)
  {
    var name := NameOf(rows[i]);
    var tables := Tables(map[], map[], map[], map[name := 0]);
    assert rows[j] in rows;
    var k := LastRow(rows, name);
    assert rows[i] in rows[..k] by { assert rows[..k][i] == rows[i]; }
    ReadExactly(rows, tables, name);
    assert !PlainlyJoined(rows, tables);
  }

  lemma {:induction false} SharedIdLosesMembers(rows: seq<BasicInfo>, i: nat, j: nat)
    requires i < j < |rows| && rows[i].id == rows[j].id
    ensures exists tables :: !PlainlyJoined(rows, tables)
  {
    var name := NameOf(rows[j]);
    assert rows[j] in rows;
    var k := LastRow(rows, name);
    if k == j {
      var tables := Tables(map[rows[j].id := {""}], map[], map[], map[]);
      assert rows[i] in rows[..k] by { assert rows[..k][i] == rows[i]; }
      ReadExactly(rows, tables, name);
      assert "" in Joined(rows[k], tables).members;
      assert !PlainlyJoined(rows, tables);
    } else {
      SharedNameLosesGroup(rows, j, k);
    }
  }

  /** A session's namespace reads as its code and number, and after a hyphen its visit. */
  lemma {:induction false} NameReads(row: BasicInfo)
    ensures NameOf(row) == row.proposalCode + Decimal.Show(row.proposalNumber) + "-" + Decimal.Show(row.visit)
  {
  }

  /** Sessions with alphabetic codes share a name exactly when they are the same visit. */
  lemma {:induction false} NamesTellVisitsApart(a: BasicInfo, b: BasicInfo)
    requires Visits.IsAlphabetic(a.proposalCode) && Visits.IsAlphabetic(b.proposalCode)
    ensures NameOf(a) == NameOf(b)
            <==> (a.proposalCode, a.proposalNumber, a.visit) == (b.proposalCode, b.proposalNumber, b.visit)
  {
    if NameOf(a) == NameOf(b) {
      Visits.ShowTellsApart(Visits.Visit(a.proposalCode, a.proposalNumber, a.visit),
                            Visits.Visit(b.proposalCode, b.proposalNumber, b.visit));
    }
  }

  // ---------------------------------------------------------------- static sessions

  /** StaticSessions::merge_into: static sessions are added, none replaces a fetched one. */
  method MergeInto(statics: Sessions, fetched: Sessions) returns (target: Sessions)
    ensures target.Keys == statics.Keys + fetched.Keys
    ensures forall name :: name in fetched ==> target[name] == fetched[name]
    ensures forall name :: name in statics && name !in fetched ==> target[name] == statics[name]
    ensures target == Merged(statics, fetched)
  {
    target := fetched;
    var names := statics.Keys;
    while names != {}
      invariant names <= statics.Keys
      invariant target.Keys == (statics.Keys - names) + fetched.Keys
      invariant forall name :: name in fetched ==> target[name] == fetched[name]
      invariant forall name :: name in statics && name !in names && name !in fetched ==> target[name] == statics[name]
    {
      var name :| name in names;
      if name !in target {
        target := target[name := statics[name]];
      }
      names := names - {name};
    }
  }

  function Merged(statics: Sessions, fetched: Sessions): Sessions {
    statics + fetched
  }
}
