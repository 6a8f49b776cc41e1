/**
 * The bulk import of `upload_professionals_csv`: after the header, every row
 * with at least six fields upserts its profession by name and, unless a
 * professional with the row's phone already exists, creates a professional.
 * The rows are the already-split output of the CSV reader.
 */
module CsvImport {
  import opened Wrappers
  import opened Text
  import opened Store

  /** One entry of the `details` list the endpoint answers. */
  datatype Added = Added(id: nat, name: string)

  datatype Upserted = Upserted(professions: seq<Profession>, nextId: nat, id: nat)
  datatype RowResult = RowResult(state: State, added: Option<Added>)
  datatype ImportResult = ImportResult(state: State, added: seq<Added>)

  /** `available.lower() == 'true'`: the word "true" in any mix of cases. */
  function ParseAvailable(field: string): (b: bool)
    ensures b <==> |field| == 4 && (field[0] == 't' || field[0] == 'T') && (field[1] == 'r' || field[1] == 'R')
                   && (field[2] == 'u' || field[2] == 'U') && (field[3] == 'e' || field[3] == 'E')
  {
    var l := Lower(field);
    assert |l| == 4 ==> (l == "true" <==> l[0] == 't' && l[1] == 'r' && l[2] == 'u' && l[3] == 'e');
    l == "true"
  }

  /**
   * `profession.upsert(where name)`: the existing profession of that name, or
   * a new one with the next id. Either way one profession has the name
   * afterwards, and the existing professions are kept.
   */
  function UpsertProfession(ps: seq<Profession>, nextId: nat, name: string): (r: Upserted)
    ensures |ps| <= |r.professions| && r.professions[..|ps|] == ps
    ensures exists i :: 0 <= i < |r.professions| && r.professions[i] == Profession(r.id, name)
    ensures (exists i :: 0 <= i < |ps| && ps[i].name == name) ==> r.professions == ps && r.nextId == nextId
    ensures (forall i :: 0 <= i < |ps| ==> ps[i].name != name) ==>
      r.professions == ps + [Profession(nextId, name)] && r.nextId == nextId + 1 && r.id == nextId
  {
    match FindProfessionByName(ps, name)
    case Some(i) =>
      assert ps[..|ps|] == ps;
      Upserted(ps, nextId, ps[i].id)
    case None =>
      var ps' := ps + [Profession(nextId, name)];
      assert ps'[|ps|] == Profession(nextId, name);
      Upserted(ps', nextId + 1, nextId)
  }

  /** Some professional is registered under `phone`. */
  ghost predicate PhoneTaken(ps: seq<Professional>, phone: string) {
    exists i :: 0 <= i < |ps| && ps[i].phone == phone
  }

  /** The upsert of the profession named in a data row. */
  function Upsert(st: State, row: seq<string>): Upserted
    requires |row| >= 6
  {
    UpsertProfession(st.professions, st.nextProfessionId, row[2])
  }

  /**
   * One data row. The profession is upserted before the phone is checked, so
   * a row whose phone is taken still upserts its profession. Service calls,
   * assignments, the log and the replies are never touched.
   */
  function ImportRow(st: State, row: seq<string>): (r: RowResult)
    ensures r.state.calls == st.calls && r.state.assignments == st.assignments
      && r.state.messages == st.messages && r.state.outbox == st.outbox
      && r.state.nextAssignmentId == st.nextAssignmentId && r.state.nextMessageId == st.nextMessageId
    ensures |row| < 6 ==> r == RowResult(st, None)
    ensures |st.professions| <= |r.state.professions| && r.state.professions[..|st.professions|] == st.professions
    ensures |row| >= 6 ==> exists i :: 0 <= i < |r.state.professions| && r.state.professions[i].name == row[2]
    ensures |row| >= 6 && PhoneTaken(st.professionals, row[1]) ==>
      r.state.professionals == st.professionals && r.added == None
      && r.state.nextProfessionalId == st.nextProfessionalId
    ensures |row| >= 6 ==> r.state.professions == Upsert(st, row).professions
    ensures |row| >= 6 ==> r.state.nextProfessionId == Upsert(st, row).nextId
    ensures |row| >= 6 && !PhoneTaken(st.professionals, row[1]) ==>
      r.state.professionals
      == st.professionals
         + [Professional(st.nextProfessionalId, row[0], row[1], Upsert(st, row).id, ParseAvailable(row[3]), Some(row[4]))]
    ensures |row| >= 6 && !PhoneTaken(st.professionals, row[1]) ==>
      r.added == Some(Added(st.nextProfessionalId, row[0])) && r.state.nextProfessionalId == st.nextProfessionalId + 1
  {
    if |row| < 6 then RowResult(st, None)
    else
      var up := UpsertProfession(st.professions, st.nextProfessionId, row[2]);
      var st1 := st.(professions := up.professions, nextProfessionId := up.nextId);
      match FindProfessionalByPhone(st1.professionals, row[1])
      case Some(_) => RowResult(st1, None)
      case None =>
        var p := Professional(st1.nextProfessionalId, row[0], row[1], up.id, ParseAvailable(row[3]), Some(row[4]));
        RowResult(st1.(professionals := st1.professionals + [p], nextProfessionalId := st1.nextProfessionalId + 1),
                  Some(Added(p.id, row[0])))
  }

  /** The data rows, in order, each seeing what the previous ones created. */
  function ImportRows(st: State, rows: seq<seq<string>>): (r: ImportResult)
    decreases |rows|
  {
    if rows == [] then ImportResult(st, [])
    else
      var prev := ImportRows(st, rows[..|rows| - 1]);
      var row := ImportRow(prev.state, rows[|rows| - 1]);
      ImportResult(row.state, prev.added + match row.added case None => [] case Some(a) => [a])
  }

  /** The whole file: the first row is the header and is skipped. */
  function ImportCsv(st: State, rows: seq<seq<string>>): ImportResult {
    if rows == [] then ImportResult(st, []) else ImportRows(st, rows[1..])
  }

  /**
   * The reported count is the number of professionals created: the existing
   * ones are kept as they were, and each reported entry is the record that
   * was appended for it. Nothing outside the directory changes.
   */
  lemma {:induction false} ImportCountsCreations(st: State, rows: seq<seq<string>>)
    ensures var r := ImportRows(st, rows);
      |r.state.professionals| == |st.professionals| + |r.added|
      && r.state.professionals[..|st.professionals|] == st.professionals
      && (forall i :: 0 <= i < |r.added| ==>
            r.added[i] == Added(r.state.professionals[|st.professionals| + i].id,
                                r.state.professionals[|st.professionals| + i].name))
      && r.state.calls == st.calls && r.state.assignments == st.assignments
      && r.state.messages == st.messages && r.state.outbox == st.outbox
    decreases |rows|
  {
    if rows != [] {
      var init := rows[..|rows| - 1];
      ImportCountsCreations(st, init);
      var prev := ImportRows(st, init);
      var row := ImportRow(prev.state, rows[|rows| - 1]);
      assert row.state.professionals[..|prev.state.professionals|] == prev.state.professionals;
    }
  }

  /** After the import every phone of a data row is registered. */
  lemma {:induction false} ImportRegistersEveryPhone(st: State, rows: seq<seq<string>>)
    ensures forall j :: 0 <= j < |rows| && |rows[j]| >= 6 ==>
      PhoneTaken(ImportRows(st, rows).state.professionals, rows[j][1])
    decreases |rows|
  {
    if rows != [] {
      var init := rows[..|rows| - 1];
      ImportRegistersEveryPhone(st, init);
      var prev := ImportRows(st, init).state;
      var last := ImportRow(prev, rows[|rows| - 1]).state;
      assert |prev.professionals| <= |last.professionals|
        && last.professionals[..|prev.professionals|] == prev.professionals;
      forall j | 0 <= j < |rows| && |rows[j]| >= 6
        ensures PhoneTaken(last.professionals, rows[j][1])
      {
        if j < |init| {
          assert rows[j] == init[j];
          var i :| 0 <= i < |prev.professionals| && prev.professionals[i].phone == rows[j][1];
          assert last.professionals[i] == prev.professionals[i];
        } else if !PhoneTaken(prev.professionals, rows[j][1]) {
          assert last.professionals[|prev.professionals|].phone == rows[j][1];
        }
      }
    }
  }

  /** No two professionals share a phone. */
  ghost predicate PhonesUnique(ps: seq<Professional>) {
    forall i, j :: 0 <= i < |ps| && 0 <= j < |ps| && i != j ==> ps[i].phone != ps[j].phone
  }

  /** Rows with a phone already present are skipped, so the import never creates a duplicate phone. */
  lemma {:induction false} ImportKeepsPhonesUnique(st: State, rows: seq<seq<string>>)
    requires PhonesUnique(st.professionals)
    ensures PhonesUnique(ImportRows(st, rows).state.professionals)
    decreases |rows|
  {
    if rows != [] {
      var init := rows[..|rows| - 1];
      ImportKeepsPhonesUnique(st, init);
      var prev := ImportRows(st, init).state;
      var row := rows[|rows| - 1];
      if |row| >= 6 && !PhoneTaken(prev.professionals, row[1]) {
        var last := ImportRow(prev, row).state;
        assert forall i :: 0 <= i < |prev.professionals| ==> prev.professionals[i].phone != row[1];
        assert last.professionals[|prev.professionals|].phone == row[1];
      }
    }
  }

  lemma ImportRowPreservesWellFormed(st: State, row: seq<string>)
    requires WellFormed(st)
    ensures WellFormed(ImportRow(st, row).state)
  {
    if |row| >= 6 {
      var up := UpsertProfession(st.professions, st.nextProfessionId, row[2]);
      assert ProfessionsKeyed(up.professions, up.nextId);
      var st1 := st.(professions := up.professions, nextProfessionId := up.nextId);
      assert WellFormed(st1);
    }
  }

  /** The import keeps the professions' ids and names and the professionals' ids unique. */
  lemma {:induction false} ImportPreservesWellFormed(st: State, rows: seq<seq<string>>)
    requires WellFormed(st)
    ensures WellFormed(ImportRows(st, rows).state)
    decreases |rows|
  {
    if rows != [] {
      var init := rows[..|rows| - 1];
      ImportPreservesWellFormed(st, init);
      ImportRowPreservesWellFormed(ImportRows(st, init).state, rows[|rows| - 1]);
    }
  }
}
