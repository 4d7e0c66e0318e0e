/** The decisions of lib/spreadsheetReader.py: which reader `getRows` dispatches to,
    and which rows of a campus roster `stripRoster` keeps before the rows are turned
    into records. */
module SpreadsheetReader {
  import opened Wrappers

  // ---------------------------------------------------------------------------
  // getRows

  /** The four readers `getRows` can hand a file to. */
  datatype Reader =
    | RosterCsv
    | NormalCsv
    | RosterSheet(sheet: string)
    | NormalSheet(sheet: string)
  {
    predicate IsRoster() { RosterCsv? || RosterSheet? }
    predicate IsCsv() { RosterCsv? || NormalCsv? }
  }

  /** The three exceptions `getRows` raises itself. */
  datatype DispatchError = SheetNameForCsv | NoSheetNameForXlsx | UnknownFiletype

  /** The choice `getRows` makes from the file's suffix, the roster flag and the
      optional sheet name. */
  function GetRows(ext: string, isRoster: bool, sheetName: Option<string>): (r: Result<Reader, DispatchError>)
    ensures r.Ok? <==> (ext == ".csv" && sheetName.None?) || (ext == ".xlsx" && sheetName.Some?)
    ensures ext == ".csv" && sheetName.Some? ==> r == Err(SheetNameForCsv)
    ensures ext == ".xlsx" && sheetName.None? ==> r == Err(NoSheetNameForXlsx)
    ensures ext != ".csv" && ext != ".xlsx" ==> r == Err(UnknownFiletype)
    ensures r.Ok? ==> r.value.IsRoster() == isRoster && (r.value.IsCsv() <==> ext == ".csv")
    ensures r.Ok? && !r.value.IsCsv() ==> r.value.sheet == sheetName.value
  {
    if ext == ".csv" then
      if sheetName.Some? then Err(SheetNameForCsv)
      else if isRoster then Ok(RosterCsv) else Ok(NormalCsv)
    else if ext == ".xlsx" then
      if sheetName.None? then Err(NoSheetNameForXlsx)
      else if isRoster then Ok(RosterSheet(sheetName.value)) else Ok(NormalSheet(sheetName.value))
    else Err(UnknownFiletype)
  }

  // ---------------------------------------------------------------------------
  // stripRoster

  type Row = seq<string>

  /** How the two scanning loops fail: no rows at all leaves the loop variable
      unbound (UnboundLocalError); a row with no cells fails at `line[0]` (IndexError). */
  datatype RowError = NoRows | EmptyRow

  predicate BlankLed(row: Row)
    requires |row| > 0
  {
    row[0] == ""
  }

  /** One of the two `for ... break` loops, from row `i` on: it stops at the first row
      whose first cell is blank (when `blank`) or filled (when not), and otherwise the
      loop variable is left at the last row. */
  function Scan(rows: seq<Row>, i: nat, blank: bool): (r: Result<nat, RowError>)
    requires i < |rows|
    ensures r.Ok? ==> i <= r.value < |rows| && |rows[r.value]| > 0
    ensures r.Ok? ==> BlankLed(rows[r.value]) == blank || r.value == |rows| - 1
    ensures r.Ok? ==> forall j :: i <= j < r.value ==> |rows[j]| > 0 && BlankLed(rows[j]) != blank
    ensures r.Err? ==> (r.error == EmptyRow &&
      exists j :: i <= j < |rows| && rows[j] == [] &&
        forall k :: i <= k < j ==> |rows[k]| > 0 && BlankLed(rows[k]) != blank)
    decreases |rows| - i
  {
    if rows[i] == [] then Err(EmptyRow)
    else if BlankLed(rows[i]) == blank || i == |rows| - 1 then Ok(i)
    else Scan(rows, i + 1, blank)
  }

  /** The rows `stripRoster` passes on: after the first cut (at the first blank-led
      row) and the second (at the first filled row after it). */
  function StripRosterRows(rows: seq<Row>): (r: Result<seq<Row>, RowError>)
    ensures r == Err(NoRows) <==> rows == []
    ensures r.Err? && rows != [] ==> r.error == EmptyRow && exists j :: 0 <= j < |rows| && rows[j] == []
    ensures r.Ok? ==> 0 < |r.value| <= |rows|
  {
    if rows == [] then Err(NoRows)
    else
      match Scan(rows, 0, true)
      case Err(e) => Err(e)
      case Ok(a) =>
        var rest := rows[a..];
        match Scan(rest, 0, false)
        case Err(e) =>
          assert exists j :: 0 <= j < |rows| && rows[j] == [] by {
            var j :| 0 <= j < |rest| && rest[j] == [];
            assert rows[a + j] == [];
          }
          Err(e)
        case Ok(b) => Ok(rest[b..])
  }

  /** `stripRoster` up to the `pe.get_records` call: two scans, each followed by a slice. */
  method StripRoster(allRows: seq<Row>) returns (r: Result<seq<Row>, RowError>)
    ensures r == StripRosterRows(allRows)
  {
    if |allRows| == 0 {
      return Err(NoRows);
    }
    var rows := allRows;
    // Skip the table
    var rowIdx := 0;
    while true
      invariant 0 <= rowIdx < |rows|
      invariant Scan(rows, 0, true) == Scan(rows, rowIdx, true)
      decreases |rows| - rowIdx
    {
      var line := rows[rowIdx];
      if |line| == 0 {
        return Err(EmptyRow);
      }
      if line[0] == "" || rowIdx == |rows| - 1 {
        break;
      }
      rowIdx := rowIdx + 1;
    }
    rows := rows[rowIdx..];
    // Skip the blank lines after the table
    rowIdx := 0;
    while true
      invariant 0 <= rowIdx < |rows|
      invariant Scan(rows, 0, false) == Scan(rows, rowIdx, false)
      decreases |rows| - rowIdx
    {
      var line := rows[rowIdx];
      if |line| == 0 {
        return Err(EmptyRow);
      }
      if line[0] != "" || rowIdx == |rows| - 1 {
        break;
      }
      rowIdx := rowIdx + 1;
    }
    return Ok(rows[rowIdx..]);
  }

  /** What is kept is a non-empty suffix of the input. */
  lemma StripRosterIsSuffix(rows: seq<Row>)
    requires StripRosterRows(rows).Ok?
    ensures exists k :: 0 <= k < |rows| && StripRosterRows(rows).value == rows[k..]
  {
    var a := Scan(rows, 0, true).value;
    var rest := rows[a..];
    var b := Scan(rest, 0, false).value;
    assert rest[b..] == rows[a + b..];
  }

  /** Cuts at `a` and `b` as `stripRoster` makes them: `a` is the first blank-led row,
      or the last row when there is none; `b` is the first filled row from `a` on, or
      the last row when nothing filled follows. */
  predicate CutsAt(rows: seq<Row>, a: nat, b: nat) {
    && a <= b < |rows|
    && (forall j :: 0 <= j < a ==> |rows[j]| > 0 && !BlankLed(rows[j]))
    && |rows[a]| > 0 && (BlankLed(rows[a]) || a == |rows| - 1)
    && (forall j :: a <= j < b ==> |rows[j]| > 0 && BlankLed(rows[j]))
    && |rows[b]| > 0 && (!BlankLed(rows[b]) || b == |rows| - 1)
  }

  /** The two cuts, stated outright: what is kept starts at the second cut. */
  lemma StripRosterCuts(rows: seq<Row>)
    requires StripRosterRows(rows).Ok?
    ensures exists a: nat, b: nat :: CutsAt(rows, a, b) && StripRosterRows(rows).value == rows[b..]
  {
    var a := Scan(rows, 0, true).value;
    var rest := rows[a..];
    var b := Scan(rest, 0, false).value;
    SecondCut(rows, a, b);
    assert CutsAt(rows, a, a + b);
  }

  /** The second scan, read back on the whole row sequence. */
  lemma SecondCut(rows: seq<Row>, a: nat, b: nat)
    requires a < |rows| && Scan(rows[a..], 0, false) == Ok(b)
    ensures a + b < |rows| && rows[a..][b..] == rows[a + b..]
    ensures forall j :: a <= j < a + b ==> |rows[j]| > 0 && BlankLed(rows[j])
    ensures !BlankLed(rows[a + b]) || a + b == |rows| - 1
  {
    var rest := rows[a..];
    forall j | a <= j < a + b ensures |rows[j]| > 0 && BlankLed(rows[j]) {
      assert rows[j] == rest[j - a];
    }
    assert rows[a + b] == rest[b];
  }

  /** With no blank-led row at all only the last row survives. */
  lemma StripRosterWithoutTable(rows: seq<Row>)
    requires |rows| > 0
    requires forall j :: 0 <= j < |rows| ==> |rows[j]| > 0 && !BlankLed(rows[j])
    ensures StripRosterRows(rows) == Ok([rows[|rows| - 1]])
  {
    var a := Scan(rows, 0, true).value;
    assert a == |rows| - 1;
    assert rows[a..] == [rows[a]];
  }

  /** A roster whose table is followed only by blank-led rows keeps its last row. */
  lemma StripRosterAllBlankAfterTable(rows: seq<Row>, a: nat)
    requires a < |rows|
    requires forall j :: 0 <= j < a ==> |rows[j]| > 0 && !BlankLed(rows[j])
    requires forall j :: a <= j < |rows| ==> |rows[j]| > 0 && BlankLed(rows[j])
    ensures StripRosterRows(rows) == Ok([rows[|rows| - 1]])
  {
    assert Scan(rows, 0, true).Ok?;
    var a' := Scan(rows, 0, true).value;
    assert a' == a by {
      assert forall j :: 0 <= j < a' ==> !BlankLed(rows[j]);
      assert BlankLed(rows[a']) || a' == |rows| - 1;
      assert BlankLed(rows[a]);
    }
    assert Scan(rows[a..], 0, false).Ok?;
    var rest := rows[a..];
    var b := Scan(rest, 0, false).value;
    assert b == |rest| - 1;
    assert rest[b..] == [rows[|rows| - 1]];
  }
}
