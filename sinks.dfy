/**
 * The two result sinks (app.py:35-87): the local fallback file
 * `data/results.csv` and the remote spreadsheet, and the dispatch that tries
 * the sheet first and falls back to the file.
 *
 * The remote service is an outcome value: whether credentials exist, whether
 * the sheet is found, and which remote call (if any) raises.
 */
module Sinks {
  import opened Wrappers
  import opened Records

  // ---------------------------------------------------------------- CSV file

  /** The fallback file; `rows` is `None` while the file does not exist. */
  class CsvFile {
    var rows: Option<seq<Row>>

    constructor Missing()
      ensures rows == None
    {
      rows := None;
    }
  }

  /**
   * The file after one `save_to_csv`: the record's row is appended at the
   * end, earlier rows are kept, a new file starts with the header, and a file
   * with exactly one header keeps exactly one.
   */
  function CsvAfter(file: Option<seq<Row>>, r: TrialRecord): (f: Option<seq<Row>>)
    ensures f.Some? && |f.value| > 0 && f.value[|f.value| - 1] == ValuesRow(r)
    ensures file.Some? ==> file.value <= f.value
    ensures file.None? ==> f.value[0] == HeaderRow
    ensures file.None? || HeaderOnce(file.value) ==> HeaderOnce(f.value)
  {
    match file
    case None => Some([HeaderRow, ValuesRow(r)])
    case Some(rows) => Some(rows + [ValuesRow(r)])
  }

  /** `save_to_csv`: write with a header if the file does not exist, else append without one. */
  method SaveToCsv(csv: CsvFile, r: TrialRecord)
    modifies csv
    ensures csv.rows == CsvAfter(old(csv.rows), r)
  {
    if csv.rows.None? {
      csv.rows := Some([HeaderRow, ValuesRow(r)]);
    } else {
      csv.rows := Some(csv.rows.value + [ValuesRow(r)]);
    }
  }

  /** The file after saving `recs` one after another. */
  function CsvAfterAll(file: Option<seq<Row>>, recs: seq<TrialRecord>): Option<seq<Row>>
    decreases |recs|
  {
    if recs == [] then file else CsvAfterAll(CsvAfter(file, recs[0]), recs[1..])
  }

  /** The data rows of `recs`, in order. */
  function ValuesRows(recs: seq<TrialRecord>): (rows: seq<Row>)
    ensures |rows| == |recs|
  {
    if recs == [] then [] else [ValuesRow(recs[0])] + ValuesRows(recs[1..])
  }

  /** Row i of the data rows is the values row of record i. */
  lemma {:induction false} ValuesRowsAt(recs: seq<TrialRecord>, i: nat)
    requires i < |recs|
    ensures ValuesRows(recs)[i] == ValuesRow(recs[i])
    decreases |recs|
  {
    if i > 0 {
      ValuesRowsAt(recs[1..], i - 1);
    }
  }

  /** A file with exactly one header row, at its top. */
  predicate HeaderOnce(rows: seq<Row>)
  {
    |rows| > 0 && rows[0] == HeaderRow && forall i :: 1 <= i < |rows| ==> rows[i] != HeaderRow
  }

  /** Saving to an existing file appends the data rows in call order, and nothing else. */
  lemma {:induction false} CsvAppendsInOrder(rows: seq<Row>, recs: seq<TrialRecord>)
    ensures CsvAfterAll(Some(rows), recs) == Some(rows + ValuesRows(recs))
    decreases |recs|
  {
    if recs == [] {
      assert rows + ValuesRows(recs) == rows;
    } else {
      assert CsvAfterAll(Some(rows), recs) == CsvAfterAll(Some(rows + [ValuesRow(recs[0])]), recs[1..]);
      CsvAppendsInOrder(rows + [ValuesRow(recs[0])], recs[1..]);
      assert ValuesRows(recs) == [ValuesRow(recs[0])] + ValuesRows(recs[1..]);
      assert rows + [ValuesRow(recs[0])] + ValuesRows(recs[1..]) == rows + ValuesRows(recs);
    }
  }

  /** Data rows under a header never repeat the header. */
  lemma HeaderAboveValues(recs: seq<TrialRecord>)
    ensures HeaderOnce([HeaderRow] + ValuesRows(recs))
  {
    var rows := [HeaderRow] + ValuesRows(recs);
    forall i | 1 <= i < |rows| ensures rows[i] != HeaderRow {
      ValuesRowsAt(recs, i - 1);
    }
  }

  /**
   * After n saves starting from no file, the file holds one header row
   * followed by the n data rows in call order.
   */
  lemma CsvLogFromNoFile(recs: seq<TrialRecord>)
    requires recs != []
    ensures CsvAfterAll(None, recs) == Some([HeaderRow] + ValuesRows(recs))
    ensures HeaderOnce(CsvAfterAll(None, recs).value)
  {
    var first := [HeaderRow, ValuesRow(recs[0])];
    assert CsvAfterAll(None, recs) == CsvAfterAll(Some(first), recs[1..]);
    CsvAppendsInOrder(first, recs[1..]);
    assert ValuesRows(recs) == [ValuesRow(recs[0])] + ValuesRows(recs[1..]);
    assert first + ValuesRows(recs[1..]) == [HeaderRow] + ValuesRows(recs);
    HeaderAboveValues(recs);
  }

  // ------------------------------------------------------------ remote sheet

  /** The first worksheet of the remote spreadsheet. */
  class Sheet {
    var rows: seq<Row>

    constructor (rows: seq<Row>)
      ensures this.rows == rows
    {
      this.rows := rows;
    }

    /** `append_row`. */
    method AppendRow(row: Row)
      modifies this
      ensures rows == old(rows) + [row]
    {
      rows := rows + [row];
    }
  }

  /** The remote calls after the credentials check, in the order they are made. */
  datatype RemoteStep =
    | Connect        // building the credentials, authorising, opening the sheet
    | Read           // get_all_values
    | AppendHeader   // append_row of the header
    | AppendValues   // append_row of the values

  /**
   * How the remote service behaves on one save: every call succeeds, the
   * secrets hold no service account, the spreadsheet does not exist, or the
   * call at `step` raises (if the save gets that far).
   */
  datatype Remote = Available | NoCredentials | SheetNotFound | FailsAt(step: RemoteStep)

  /** The effect of one `save_to_google_sheets`: new sheet rows, the return value, and whether it fell back to the file. */
  datatype SheetSave = SheetSave(rows: seq<Row>, saved: bool, fellBack: bool)

  /**
   * `save_to_google_sheets` on a sheet holding `rows`: rows already on the
   * sheet are never changed or removed, and a save that reports success
   * never also falls back to the file.
   */
  function SheetAfter(rows: seq<Row>, remote: Remote, r: TrialRecord): (res: SheetSave)
    ensures rows <= res.rows
    ensures res.fellBack ==> !res.saved
  {
    match remote
    case NoCredentials => SheetSave(rows, false, true)
    case SheetNotFound => SheetSave(rows, false, false)
    case FailsAt(Connect) => SheetSave(rows, false, true)
    case FailsAt(Read) => SheetSave(rows, false, true)
    case _ =>
      if rows == [] && remote == FailsAt(AppendHeader) then SheetSave(rows, false, true)
      else
        var headed := if rows == [] then [HeaderRow] else rows;
        if remote == FailsAt(AppendValues) then SheetSave(headed, false, true)
        else SheetSave(headed + [ValuesRow(r)], true, false)
  }

  /**
   * `save_to_google_sheets`: try the sheet; with no credentials or on an
   * exception, save to the file instead and return false; a missing sheet
   * returns false and writes nowhere.
   */
  method SaveToGoogleSheets(r: TrialRecord, remote: Remote, sheet: Sheet, csv: CsvFile) returns (saved: bool)
    modifies sheet, csv
    ensures var res := SheetAfter(old(sheet.rows), remote, r);
      && sheet.rows == res.rows
      && saved == res.saved
      && csv.rows == (if res.fellBack then CsvAfter(old(csv.rows), r) else old(csv.rows))
  {
    if remote == NoCredentials {
      SaveToCsv(csv, r);
      return false;
    }
    if remote == FailsAt(Connect) {
      SaveToCsv(csv, r);
      return false;
    }
    if remote == SheetNotFound {
      return false;
    }
    if remote == FailsAt(Read) {
      SaveToCsv(csv, r);
      return false;
    }
    var existing := sheet.rows;
    if existing == [] {
      if remote == FailsAt(AppendHeader) {
        SaveToCsv(csv, r);
        return false;
      }
      sheet.AppendRow(HeaderRow);
    }
    if remote == FailsAt(AppendValues) {
      SaveToCsv(csv, r);
      return false;
    }
    sheet.AppendRow(ValuesRow(r));
    return true;
  }

  /** The save returns true exactly when the record's row is now the sheet's last row. */
  lemma SavedIffRowReachedSheet(rows: seq<Row>, remote: Remote, r: TrialRecord)
    ensures var res := SheetAfter(rows, remote, r);
      res.saved <==> |res.rows| > |rows| && res.rows[|res.rows| - 1] == ValuesRow(r)
  {
  }

  /** Only a fully successful primary write returns true. */
  lemma SavedOnlyWhenEveryCallSucceeds(rows: seq<Row>, remote: Remote, r: TrialRecord)
    ensures SheetAfter(rows, remote, r).saved <==>
      remote == Available || (remote == FailsAt(AppendHeader) && rows != [])
  {
  }

  /**
   * The file is written exactly when the sheet write did not succeed and the
   * sheet was not reported missing; so unless the sheet is missing, the
   * record lands in exactly one of the two sinks.
   */
  lemma FallbackRule(rows: seq<Row>, remote: Remote, r: TrialRecord)
    ensures var res := SheetAfter(rows, remote, r);
      res.fellBack <==> !res.saved && remote != SheetNotFound
  {
  }

  /** A missing sheet returns false and writes to neither sink. */
  lemma NotFoundWritesNothing(rows: seq<Row>, r: TrialRecord)
    ensures SheetAfter(rows, SheetNotFound, r) == SheetSave(rows, false, false)
  {
  }

  /** A sheet that is empty or has exactly one header row at its top. */
  predicate SheetWellFormed(rows: seq<Row>)
  {
    rows == [] || HeaderOnce(rows)
  }

  /**
   * The header is written only to an empty sheet, so it appears exactly once
   * however the remote calls succeed or fail.
   */
  lemma SheetHeaderWrittenOnce(rows: seq<Row>, remote: Remote, r: TrialRecord)
    requires SheetWellFormed(rows)
    ensures SheetWellFormed(SheetAfter(rows, remote, r).rows)
    ensures forall i :: |rows| <= i < |SheetAfter(rows, remote, r).rows| ==>
      (SheetAfter(rows, remote, r).rows[i] == HeaderRow ==> rows == [] && i == 0)
  {
  }

  /** Sheet rows after saving `recs` one after another with the service available. */
  function SheetAfterAll(rows: seq<Row>, recs: seq<TrialRecord>): seq<Row>
    decreases |recs|
  {
    if recs == [] then rows else SheetAfterAll(SheetAfter(rows, Available, recs[0]).rows, recs[1..])
  }

  /** With the service available, saves to a sheet that already has rows append the values rows in call order. */
  lemma {:induction false} SheetLogWhenAvailable(rows: seq<Row>, recs: seq<TrialRecord>)
    requires rows != []
    ensures SheetAfterAll(rows, recs) == rows + ValuesRows(recs)
    decreases |recs|
  {
    if recs == [] {
      assert rows + ValuesRows(recs) == rows;
    } else {
      assert SheetAfterAll(rows, recs) == SheetAfterAll(rows + [ValuesRow(recs[0])], recs[1..]);
      SheetLogWhenAvailable(rows + [ValuesRow(recs[0])], recs[1..]);
      assert ValuesRows(recs) == [ValuesRow(recs[0])] + ValuesRows(recs[1..]);
      assert rows + [ValuesRow(recs[0])] + ValuesRows(recs[1..]) == rows + ValuesRows(recs);
    }
  }

  /** With the service available, n saves to an empty sheet leave the header and the n rows in order. */
  lemma SheetLogFromEmpty(recs: seq<TrialRecord>)
    requires recs != []
    ensures SheetAfterAll([], recs) == [HeaderRow] + ValuesRows(recs)
  {
    assert SheetAfterAll([], recs) == SheetAfterAll([HeaderRow] + [ValuesRow(recs[0])], recs[1..]);
    SheetLogWhenAvailable([HeaderRow] + [ValuesRow(recs[0])], recs[1..]);
    assert ValuesRows(recs) == [ValuesRow(recs[0])] + ValuesRows(recs[1..]);
    assert [HeaderRow] + [ValuesRow(recs[0])] + ValuesRows(recs[1..]) == [HeaderRow] + ValuesRows(recs);
  }
}
