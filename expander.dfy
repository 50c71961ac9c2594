/**
 * The wide-to-long reshaping of the attendance table (`clean_and_expand`).
 *
 * A row of the wide table is one meeting instance: its meeting name, its
 * month, and its cells in column order. Every column except the meeting-name
 * column and the month column is a role column whose cell lists the people
 * in that role, separated by '/'. Expansion turns every name that survives
 * trimming and the sentinel filter into one attendance record.
 */
module Expander {
  import opened Counting
  import opened Text

  datatype Option<T> = None | Some(value: T)

  /** One cell of a row: the column label and the cell's text, or None when the cell is missing. */
  datatype Cell = Cell(column: string, value: Option<string>)

  /**
   * One meeting instance of the wide table. `cells` holds every column of the
   * row, the meeting-name and month columns included; expansion ignores those
   * two cells and stamps records with `meeting` and `month`, which stand for
   * their values.
   */
  datatype Row = Row(meeting: string, month: string, cells: seq<Cell>)

  /** One person's presence in one role at one meeting instance. */
  datatype Record = Record(person: string, meeting: string, month: string, role: string)

  const MeetingColumn: string := "聚會名稱"
  const MonthColumn: string := "月份"
  const Delimiter: char := '/'
  const NaNToken: string := "NaN"
  const PausedToken: string := "暫停"

  /** Every column other than the meeting name and the month lists people in a role. */
  predicate IsRoleColumn(column: string) {
    column != MeetingColumn && column != MonthColumn
  }

  /** A trimmed token names a person unless it is empty, "NaN" or the "paused" marker. */
  predicate Keep(name: string) {
    name != "" && name != NaNToken && name != PausedToken
  }

  /** The trimmed tokens of `pieces` that name a person, in order. */
  function KeptNames(pieces: seq<string>): (names: seq<string>)
    ensures |names| <= |pieces|
    ensures forall k :: 0 <= k < |names| ==> Keep(names[k]) && IsTrimmed(names[k])
    decreases |pieces|
  {
    if pieces == [] then []
    else
      var n := |pieces| - 1;
      var name := Trim(pieces[n]);
      KeptNames(pieces[..n]) + (if Keep(name) then [name] else [])
  }

  /** No name survives exactly when every piece trims to the empty string, "NaN" or the "paused" marker. */
  lemma {:induction false} KeptNamesEmpty(pieces: seq<string>)
    ensures KeptNames(pieces) == [] <==> forall p :: p in pieces ==> !Keep(Trim(p))
    decreases |pieces|
  {
    if pieces != [] {
      var n := |pieces| - 1;
      var front := pieces[..n];
      KeptNamesEmpty(front);
      assert pieces == front + [pieces[n]];
      KeptNamesAppend(front, pieces[n]);
    }
  }

  /** The names a cell yields: none for the reserved columns or a missing value, else the kept pieces of its text. */
  function CellNames(cell: Cell): seq<string> {
    if IsRoleColumn(cell.column) && cell.value.Some?
    then KeptNames(Split(cell.value.value, Delimiter))
    else []
  }

  /** One record per name, all sharing the row's meeting and month and the column label as role. */
  function Stamp(names: seq<string>, row: Row, role: string): (records: seq<Record>)
    ensures |records| == |names|
    ensures forall k :: 0 <= k < |names| ==> records[k] == Record(names[k], row.meeting, row.month, role)
  {
    seq(|names|, k requires 0 <= k < |names| => Record(names[k], row.meeting, row.month, role))
  }

  /** The records a cell of `row` yields. */
  function CellRecords(row: Row, cell: Cell): seq<Record> {
    Stamp(CellNames(cell), row, cell.column)
  }

  /** The records the cells `cells` of `row` yield, cell after cell. */
  function RowRecords(row: Row, cells: seq<Cell>): seq<Record>
    decreases |cells|
  {
    if cells == [] then []
    else RowRecords(row, cells[..|cells| - 1]) + CellRecords(row, cells[|cells| - 1])
  }

  /** The long-form records of a whole table, row after row. */
  function Expand(rows: seq<Row>): seq<Record>
    decreases |rows|
  {
    if rows == [] then []
    else
      var last := rows[|rows| - 1];
      Expand(rows[..|rows| - 1]) + RowRecords(last, last.cells)
  }

  /** How many name tokens survive the filters across all role cells of all rows. */
  function SurvivingTokens(rows: seq<Row>): nat
    decreases |rows|
  {
    if rows == [] then 0
    else
      var last := rows[|rows| - 1];
      SurvivingTokens(rows[..|rows| - 1]) + RowSurvivingTokens(last.cells)
  }

  function RowSurvivingTokens(cells: seq<Cell>): nat
    decreases |cells|
  {
    if cells == [] then 0
    else RowSurvivingTokens(cells[..|cells| - 1]) + CellTokens(cells[|cells| - 1])
  }

  /** How many `/`-pieces of a present role cell pass the filter once trimmed; none for the other cells. */
  function CellTokens(cell: Cell): nat {
    if IsRoleColumn(cell.column) && cell.value.Some?
    then KeepCount(Split(cell.value.value, Delimiter))
    else 0
  }

  lemma StampAppend(names: seq<string>, name: string, row: Row, role: string)
    ensures Stamp(names + [name], row, role) == Stamp(names, row, role) + [Record(name, row.meeting, row.month, role)]
  {
  }

  /** Every piece whose trimmed form is kept contributes that name: the filter drops nothing else. */
  lemma {:induction false} KeptNamesComplete(pieces: seq<string>)
    ensures forall p :: p in pieces && Keep(Trim(p)) ==> Trim(p) in KeptNames(pieces)
    decreases |pieces|
  {
    if pieces != [] {
      var n := |pieces| - 1;
      var front := pieces[..n];
      KeptNamesComplete(front);
      assert pieces == front + [pieces[n]];
      KeptNamesAppend(front, pieces[n]);
    }
  }

  /** Every name is the trimmed form of one of the pieces: the filter invents nothing. */
  lemma {:induction false} KeptNamesSound(pieces: seq<string>)
    ensures forall k :: 0 <= k < |KeptNames(pieces)| ==> exists i :: 0 <= i < |pieces| && KeptNames(pieces)[k] == Trim(pieces[i])
    decreases |pieces|
  {
    if pieces != [] {
      var n := |pieces| - 1;
      var front := pieces[..n];
      KeptNamesSound(front);
      assert pieces == front + [pieces[n]];
      KeptNamesAppend(front, pieces[n]);
      var names := KeptNames(pieces);
      forall k | 0 <= k < |names|
        ensures exists i :: 0 <= i < |pieces| && names[k] == Trim(pieces[i])
      {
        if k < |KeptNames(front)| {
          var i :| 0 <= i < |front| && KeptNames(front)[k] == Trim(front[i]);
          assert names[k] == Trim(pieces[i]);
        } else {
          assert names[k] == Trim(pieces[n]);
        }
      }
    } else {
      assert KeptNames(pieces) == [];
    }
  }

  /** The number of pieces whose trimmed form is kept, counted index by index. */
  function KeepCount(pieces: seq<string>): nat
    decreases |pieces|
  {
    if pieces == [] then 0
    else KeepCount(pieces[1..]) + (if Keep(Trim(pieces[0])) then 1 else 0)
  }

  /** One name per kept piece, no more and no fewer. */
  lemma {:induction false} KeptNamesCount(pieces: seq<string>)
    ensures |KeptNames(pieces)| == KeepCount(pieces)
    decreases |pieces|
  {
    if pieces != [] {
      var n := |pieces| - 1;
      var front := pieces[..n];
      KeptNamesCount(front);
      KeepCountAppend(front, pieces[n]);
      assert pieces == front + [pieces[n]];
      KeptNamesAppend(front, pieces[n]);
    }
  }

  lemma {:induction false} KeepCountAppend(pieces: seq<string>, p: string)
    ensures KeepCount(pieces + [p]) == KeepCount(pieces) + (if Keep(Trim(p)) then 1 else 0)
    decreases |pieces|
  {
    if pieces != [] {
      assert (pieces + [p])[1..] == pieces[1..] + [p];
      KeepCountAppend(pieces[1..], p);
    }
  }

  /** The number of pieces that trim to `x`, counted index by index. */
  function TrimCount(pieces: seq<string>, x: string): nat
    decreases |pieces|
  {
    if pieces == [] then 0
    else TrimCount(pieces[1..], x) + (if Trim(pieces[0]) == x then 1 else 0)
  }

  lemma {:induction false} TrimCountAppend(pieces: seq<string>, p: string, x: string)
    ensures TrimCount(pieces + [p], x) == TrimCount(pieces, x) + (if Trim(p) == x then 1 else 0)
    decreases |pieces|
  {
    if pieces != [] {
      assert (pieces + [p])[1..] == pieces[1..] + [p];
      TrimCountAppend(pieces[1..], p, x);
    }
  }

  /** A kept name occurs once for every piece that trims to it; any other string never occurs. */
  lemma {:induction false} KeptNamesMultiplicity(pieces: seq<string>, x: string)
    ensures Count(KeptNames(pieces), x) == (if Keep(x) then TrimCount(pieces, x) else 0)
    decreases |pieces|
  {
    if pieces == [] {
      assert KeptNames(pieces) == [];
    } else {
      var n := |pieces| - 1;
      var front := pieces[..n];
      KeptNamesMultiplicity(front, x);
      assert pieces == front + [pieces[n]];
      KeptNamesAppend(front, pieces[n]);
      TrimCountAppend(front, pieces[n], x);
      var name := Trim(pieces[n]);
      if Keep(name) {
        CountAppend(KeptNames(front), name, x);
      } else {
        assert KeptNames(pieces) == KeptNames(front);
      }
    }
  }

  /** One more piece adds its trimmed form to the names exactly when that form is kept. */
  lemma KeptNamesAppend(pieces: seq<string>, p: string)
    ensures KeptNames(pieces + [p]) == KeptNames(pieces) + (if Keep(Trim(p)) then [Trim(p)] else [])
  {
    assert (pieces + [p])[..|pieces|] == pieces;
  }

  lemma KeptNamesStep(pieces: seq<string>, k: nat)
    requires k < |pieces|
    ensures KeptNames(pieces[..k + 1])
         == KeptNames(pieces[..k]) + (if Keep(Trim(pieces[k])) then [Trim(pieces[k])] else [])
  {
    assert pieces[..k + 1][..k] == pieces[..k];
  }

  lemma AppendStep(records: seq<Record>, extended: seq<Record>, pieces: seq<string>, k: nat, row: Row, role: string)
    requires k < |pieces|
    requires extended == records + Stamp(KeptNames(pieces[..k]), row, role)
    ensures var name := Trim(pieces[k]);
      (if Keep(name) then extended + [Record(name, row.meeting, row.month, role)] else extended)
      == records + Stamp(KeptNames(pieces[..k + 1]), row, role)
  {
    KeptNamesStep(pieces, k);
    var name := Trim(pieces[k]);
    if Keep(name) {
      StampAppend(KeptNames(pieces[..k]), name, row, role);
    }
  }

  lemma RowStep(records: seq<Record>, extended: seq<Record>, row: Row, j: nat)
    requires j < |row.cells|
    requires extended == records + RowRecords(row, row.cells[..j])
    ensures extended + CellRecords(row, row.cells[j]) == records + RowRecords(row, row.cells[..j + 1])
  {
    RowRecordsStep(row, row.cells, j);
  }

  lemma RowRecordsStep(row: Row, cells: seq<Cell>, j: nat)
    requires j < |cells|
    ensures RowRecords(row, cells[..j + 1]) == RowRecords(row, cells[..j]) + CellRecords(row, cells[j])
  {
    assert cells[..j + 1][..j] == cells[..j];
  }

  lemma ExpandStep(rows: seq<Row>, i: nat)
    requires i < |rows|
    ensures Expand(rows[..i + 1]) == Expand(rows[..i]) + RowRecords(rows[i], rows[i].cells)
  {
    assert rows[..i + 1][..i] == rows[..i];
  }

  /**
   * `clean_and_expand`: for each row, for each column other than the
   * meeting name and the month, the names of a present cell are appended to
   * the records (the loop over the cell's pieces is AppendCell).
   */
  method CleanAndExpand(rows: seq<Row>) returns (records: seq<Record>)
    ensures records == Expand(rows)
    ensures |records| == SurvivingTokens(rows)
    ensures forall k :: 0 <= k < |records| ==> WellFormed(records[k])
  {
    records := [];
    var i := 0;
    while i < |rows|
      invariant 0 <= i <= |rows|
      invariant records == Expand(rows[..i])
    {
      var row := rows[i];
      ghost var before := records;
      var j := 0;
      while j < |row.cells|
        invariant 0 <= j <= |row.cells|
        invariant records == before + RowRecords(row, row.cells[..j])
      {
        RowStep(before, records, row, j);
        records := AppendCell(records, row, row.cells[j]);
        j := j + 1;
      }
      assert row.cells[..j] == row.cells;
      ExpandStep(rows, i);
      i := i + 1;
    }
    assert rows[..i] == rows;
    ExpandCount(rows);
    ExpandWellFormed(rows);
  }

  /**
   * The loop over one cell: a present cell of a role column is split on
   * '/', each piece is trimmed, and every piece that is not empty, "NaN" or
   * the "paused" marker is appended as a record of the row in that role.
   */
  method AppendCell(records: seq<Record>, row: Row, cell: Cell) returns (extended: seq<Record>)
    ensures extended == records + CellRecords(row, cell)
  {
    extended := records;
    if IsRoleColumn(cell.column) {
      if cell.value.Some? {
        var pieces := Split(cell.value.value, Delimiter);
        var k := 0;
        while k < |pieces|
          invariant 0 <= k <= |pieces|
          invariant extended == records + Stamp(KeptNames(pieces[..k]), row, cell.column)
        {
          var name := Trim(pieces[k]);
          AppendStep(records, extended, pieces, k, row, cell.column);
          if Keep(name) {
            extended := extended + [Record(name, row.meeting, row.month, cell.column)];
          }
          k := k + 1;
        }
        assert pieces[..k] == pieces;
      }
    }
  }

  /** Exactly one record per surviving token. */
  lemma {:induction false} ExpandCount(rows: seq<Row>)
    ensures |Expand(rows)| == SurvivingTokens(rows)
    decreases |rows|
  {
    if rows != [] {
      var last := rows[|rows| - 1];
      ExpandCount(rows[..|rows| - 1]);
      RowCount(last, last.cells);
    }
  }

  lemma {:induction false} RowCount(row: Row, cells: seq<Cell>)
    ensures |RowRecords(row, cells)| == RowSurvivingTokens(cells)
    decreases |cells|
  {
    if cells != [] {
      RowCount(row, cells[..|cells| - 1]);
      var cell := cells[|cells| - 1];
      if IsRoleColumn(cell.column) && cell.value.Some? {
        KeptNamesCount(Split(cell.value.value, Delimiter));
      }
    }
  }

  /** `r` is one of the records that cell `cell` of row `row` yields. */
  predicate Produces(row: Row, cell: Cell, r: Record) {
    && r.person in CellNames(cell)
    && r.meeting == row.meeting
    && r.month == row.month
    && r.role == cell.column
  }

  lemma CellMembership(row: Row, cell: Cell, r: Record)
    ensures r in CellRecords(row, cell) <==> Produces(row, cell, r)
  {
    var names := CellNames(cell);
    if r.person in names && r.meeting == row.meeting && r.month == row.month && r.role == cell.column {
      var k :| 0 <= k < |names| && names[k] == r.person;
      assert CellRecords(row, cell)[k] == r;
    }
  }

  /** Some cell of `cells` in row `row` produces `r`. */
  predicate RowProduces(row: Row, cells: seq<Cell>, r: Record) {
    exists cell :: cell in cells && Produces(row, cell, r)
  }

  /** Some cell of some row of `rows` produces `r`. */
  predicate TableProduces(rows: seq<Row>, r: Record) {
    exists row :: row in rows && RowProduces(row, row.cells, r)
  }

  lemma RowProducesStep(row: Row, cells: seq<Cell>, r: Record)
    requires cells != []
    ensures RowProduces(row, cells, r)
        <==> RowProduces(row, cells[..|cells| - 1], r) || Produces(row, cells[|cells| - 1], r)
  {
    assert cells == cells[..|cells| - 1] + [cells[|cells| - 1]];
  }

  lemma TableProducesStep(rows: seq<Row>, r: Record)
    requires rows != []
    ensures TableProduces(rows, r)
        <==> TableProduces(rows[..|rows| - 1], r) || RowProduces(rows[|rows| - 1], rows[|rows| - 1].cells, r)
  {
    assert rows == rows[..|rows| - 1] + [rows[|rows| - 1]];
  }

  /** A record is among a row's records exactly when one of the row's cells produced it. */
  lemma {:induction false} RowMembership(row: Row, cells: seq<Cell>, r: Record)
    ensures r in RowRecords(row, cells) <==> RowProduces(row, cells, r)
    decreases |cells|
  {
    if cells != [] {
      var n := |cells| - 1;
      RowMembership(row, cells[..n], r);
      CellMembership(row, cells[n], r);
      RowProducesStep(row, cells, r);
    }
  }

  /**
   * A record is in the expansion exactly when some cell of some row produced
   * it: its person is one of that cell's surviving names, its meeting and
   * month are the row's and its role is the cell's column label.
   */
  lemma {:induction false} ExpandMembership(rows: seq<Row>, r: Record)
    ensures r in Expand(rows) <==> TableProduces(rows, r)
    decreases |rows|
  {
    if rows != [] {
      var n := |rows| - 1;
      ExpandMembership(rows[..n], r);
      RowMembership(rows[n], rows[n].cells, r);
      TableProducesStep(rows, r);
    }
  }

  /** A well-formed record names a trimmed, kept person in a role column. */
  predicate WellFormed(r: Record) {
    && Keep(r.person)
    && Trim(r.person) == r.person
    && IsRoleColumn(r.role)
  }

  /** Every record of the expansion is well formed. */
  lemma ExpandWellFormed(rows: seq<Row>)
    ensures forall r :: r in Expand(rows) ==> WellFormed(r)
  {
    forall r | r in Expand(rows)
      ensures WellFormed(r)
    {
      ExpandMembership(rows, r);
      var row :| row in rows && RowProduces(row, row.cells, r);
      var cell :| cell in row.cells && Produces(row, cell, r);
      assert CellNames(cell) != [];
      TrimOfTrimmed(r.person);
    }
  }

  /** A missing cell, or the meeting-name or month column, contributes no record. */
  lemma SkippedCells(row: Row, cell: Cell)
    requires cell.value.None? || !IsRoleColumn(cell.column)
    ensures CellRecords(row, cell) == []
  {
  }

  /**
   * A present cell contributes no record exactly when every '/'-separated
   * piece of it trims to the empty string, "NaN" or the "paused" marker.
   */
  lemma SentinelCell(row: Row, cell: Cell)
    requires IsRoleColumn(cell.column) && cell.value.Some?
    ensures CellRecords(row, cell) == [] <==>
      forall p :: p in Split(cell.value.value, Delimiter) ==> !Keep(Trim(p))
  {
    KeptNamesEmpty(Split(cell.value.value, Delimiter));
  }
}
