/**
 * flat_file_db/csv_db.py: the CSV store. upsert_csv reads all rows of
 * accounts.csv or categories.csv, replaces the first row whose first cell is
 * the object's name, or else appends the object's row, and writes the rows
 * back. The files are modelled by the lists of rows they hold.
 */
module FlatFileDb {
  import opened Wrappers
  import opened Accounting

  /** The ValueError of upsert_csv for an object that is neither an Account nor a Category. */
  const Unsupported := "Unsupported object type"

  /** The object handed to upsert_csv: one of the objects of the graph, or anything else. */
  datatype Subject = GraphObject(handle: nat) | OtherObject

  /** The scan has passed the first `k` rows: each has a first cell, and it is not `name`. */
  predicate Scanned(rows: seq<Row>, name: string, k: nat)
    requires k <= |rows|
  {
    forall j | 0 <= j < k :: |rows[j]| > 0 && rows[j][0] != Str(name)
  }

  /**
   * Where the loop of upsert_csv stops: the index of the first row whose first
   * cell is `name`, None when the loop runs out, or an IndexError at an empty
   * row met before any match.
   */
  function FirstMatch(rows: seq<Row>, name: string): (r: Result<Option<nat>>)
    ensures r.Ok? && r.value.Some? ==>
      var i := r.value.value;
      i < |rows| && Scanned(rows, name, i) && |rows[i]| > 0 && rows[i][0] == Str(name)
    ensures r.Ok? && r.value.None? ==> Scanned(rows, name, |rows|)
    ensures r.Err? ==>
      r.error == IndexError && exists i | 0 <= i < |rows| :: |rows[i]| == 0 && Scanned(rows, name, i)
  {
    if rows == [] then Ok(None)
    else if |rows[0]| == 0 then
      assert Scanned(rows, name, 0);
      Err(IndexError)
    else if rows[0][0] == Str(name) then Ok(Some(0))
    else
      match FirstMatch(rows[1..], name)
      case Err(e) =>
        var i :| 0 <= i < |rows[1..]| && |rows[1..][i]| == 0 && Scanned(rows[1..], name, i);
        assert |rows[i + 1]| == 0 && Scanned(rows, name, i + 1);
        Err(e)
      case Ok(None) => Ok(None)
      case Ok(Some(i)) => Ok(Some(i + 1))
  }

  /** The scan stops at row `i` when the rows before it are passed and row `i` matches. */
  lemma FirstMatchAt(rows: seq<Row>, name: string, i: nat)
    requires i < |rows| && Scanned(rows, name, i) && |rows[i]| > 0 && rows[i][0] == Str(name)
    ensures FirstMatch(rows, name) == Ok(Some(i))
  {
  }

  /** The scan fails at row `i` when the rows before it are passed and row `i` is empty. */
  lemma FirstMatchEmptyAt(rows: seq<Row>, name: string, i: nat)
    requires i < |rows| && Scanned(rows, name, i) && |rows[i]| == 0
    ensures FirstMatch(rows, name) == Err(IndexError)
  {
  }

  /** The scan runs out when every row is passed. */
  lemma FirstMatchNone(rows: seq<Row>, name: string)
    requires Scanned(rows, name, |rows|)
    ensures FirstMatch(rows, name) == Ok(None)
  {
  }

  /**
   * The rows after upsert_csv: the first row whose first cell is `name`
   * replaced by the object's row, or the object's row appended. A failing
   * scan, or an object whose row cannot be built, leaves the file as it was.
   */
  function UpsertRows(rows: seq<Row>, name: string, csvRow: Result<Row>): (r: Result<seq<Row>>)
    ensures FirstMatch(rows, name).Err? ==> r == Err(IndexError)
    ensures FirstMatch(rows, name).Ok? && csvRow.Err? ==> r == Err(csvRow.error)
    ensures FirstMatch(rows, name).Ok? && csvRow.Ok? ==> r.Ok?
    ensures r.Ok? && FirstMatch(rows, name).value.Some? ==>
      var i := FirstMatch(rows, name).value.value;
      && |r.value| == |rows| && r.value[i] == csvRow.value
      && forall j | 0 <= j < |rows| && j != i :: r.value[j] == rows[j]
    ensures r.Ok? && FirstMatch(rows, name).value.None? ==>
      |r.value| == |rows| + 1 && r.value[..|rows|] == rows && r.value[|rows|] == csvRow.value
  {
    match FirstMatch(rows, name)
    case Err(e) => Err(e)
    case Ok(found) =>
      match csvRow
      case Err(e) => Err(e)
      case Ok(row) =>
        if found.Some? then Ok(rows[found.value := row]) else Ok(rows + [row])
  }

  /**
   * Upserting an object's row into rows that already went through the same
   * upsert changes nothing: the row is found where it was put.
   */
  lemma UpsertRowsIdempotent(rows: seq<Row>, name: string, row: Row)
    requires |row| > 0 && row[0] == Str(name)
    requires UpsertRows(rows, name, Ok(row)).Ok?
    ensures UpsertRows(UpsertRows(rows, name, Ok(row)).value, name, Ok(row)) == UpsertRows(rows, name, Ok(row))
  {
    var rows' := UpsertRows(rows, name, Ok(row)).value;
    var found := FirstMatch(rows, name).value;
    if found.Some? {
      var i := found.value;
      assert Scanned(rows', name, i) by {
        forall j | 0 <= j < i ensures |rows'[j]| > 0 && rows'[j][0] != Str(name) {
          assert rows'[j] == rows[j];
        }
      }
      FirstMatchAt(rows', name, i);
      assert rows'[i := row] == rows';
    } else {
      assert Scanned(rows', name, |rows|) by {
        forall j | 0 <= j < |rows| ensures |rows'[j]| > 0 && rows'[j][0] != Str(name) {
          assert rows'[j] == rows[j];
        }
      }
      FirstMatchAt(rows', name, |rows|);
      assert rows'[|rows| := row] == rows';
    }
  }

  /**
   * The `for ... else` loop of upsert_csv on the rows read from one file; the
   * object's row is built only where the loop uses it.
   */
  method UpsertRowList(rows: seq<Row>, name: string, csvRow: Result<Row>) returns (r: Result<seq<Row>>)
    ensures r == UpsertRows(rows, name, csvRow)
  {
    var i := 0;
    while i < |rows|
      invariant i <= |rows| && Scanned(rows, name, i)
    {
      if |rows[i]| == 0 {
        FirstMatchEmptyAt(rows, name, i);
        return Err(IndexError);
      }
      if rows[i][0] == Str(name) {
        FirstMatchAt(rows, name, i);
        if csvRow.Err? {
          return Err(csvRow.error);
        }
        return Ok(rows[i := csvRow.value]);
      }
      i := i + 1;
    }
    FirstMatchNone(rows, name);
    if csvRow.Err? {
      return Err(csvRow.error);
    }
    return Ok(rows + [csvRow.value]);
  }

  class CsvDb {
    /** The rows of accounts.csv. */
    var accountRows: seq<Row>
    /** The rows of categories.csv. */
    var categoryRows: seq<Row>

    /** A store whose two files hold these rows. */
    constructor (accountRows0: seq<Row>, categoryRows0: seq<Row>)
      ensures accountRows == accountRows0 && categoryRows == categoryRows0
    {
      accountRows := accountRows0;
      categoryRows := categoryRows0;
    }

    /**
     * upsert_csv(obj): an Account goes to accounts.csv and a Category to
     * categories.csv; a file is written only when the upsert succeeds, and
     * any other object raises a ValueError.
     */
    method UpsertCsv(graph: ObjectGraph, obj: Subject) returns (o: Outcome)
      requires Closed(graph.objects) && (obj.GraphObject? ==> obj.handle < |graph.objects|)
      modifies this
      ensures obj.OtherObject? ==>
        o == Fail(ValueError(Unsupported)) && accountRows == old(accountRows) && categoryRows == old(categoryRows)
      ensures obj.GraphObject? && graph.objects[obj.handle].AccountObj? ==>
        var upsert := UpsertRows(old(accountRows), graph.objects[obj.handle].name, Ok(AccountCsvRow(graph.objects, obj.handle)));
        && categoryRows == old(categoryRows)
        && (upsert.Ok? ==> o == Pass && accountRows == upsert.value)
        && (upsert.Err? ==> o == Fail(upsert.error) && accountRows == old(accountRows))
      ensures obj.GraphObject? && graph.objects[obj.handle].CategoryObj? ==>
        var upsert := UpsertRows(old(categoryRows), graph.objects[obj.handle].name, CategoryCsvRow(graph.objects, obj.handle));
        && accountRows == old(accountRows)
        && (upsert.Ok? ==> o == Pass && categoryRows == upsert.value)
        && (upsert.Err? ==> o == Fail(upsert.error) && categoryRows == old(categoryRows))
    {
      if obj.OtherObject? {
        return Fail(ValueError(Unsupported));
      }
      var h := obj.handle;
      var x := graph.objects[h];
      if x.AccountObj? {
        var rows := UpsertRowList(accountRows, x.name, Ok(AccountCsvRow(graph.objects, h)));
        if rows.Err? {
          return Fail(rows.error);
        }
        accountRows := rows.value;
      } else {
        var rows := UpsertRowList(categoryRows, x.name, CategoryCsvRow(graph.objects, h));
        if rows.Err? {
          return Fail(rows.error);
        }
        categoryRows := rows.value;
      }
      return Pass;
    }
  }
}
