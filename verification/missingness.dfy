/** `handle_missing_and_dropna`: the count of rows whose key columns are all
    missing, and `dropna()`. */
module Missingness {
  import opened Tables

  /** The columns whose joint missingness is counted, in the order listed. */
  const KeyColumns: seq<string> := [
    "VehicleModel", "ChargerType", "ChargingStationLocation", "TimeOfDay",
    "DayOfWeek", "UserType", "ChargingStartTime", "ChargingEndTime"]

  /** A row with no missing cell: one that `dropna()` keeps. */
  predicate Complete(row: Row) {
    forall c :: c in row ==> !row[c].Missing?
  }

  /** `dropna()` on the rows: the complete rows, in their order. */
  function DropNa(rows: seq<Row>): (r: seq<Row>)
    ensures |r| <= |rows|
    ensures forall i :: 0 <= i < |r| ==> Complete(r[i]) && r[i] in rows
  {
    if rows == [] then []
    else if Complete(rows[0]) then [rows[0]] + DropNa(rows[1..])
    else DropNa(rows[1..])
  }

  /** Every key column of the row is missing. */
  predicate AllKeysMissing(row: Row)
    requires forall k :: k in KeyColumns ==> k in row
  {
    forall k :: k in KeyColumns ==> row[k].Missing?
  }

  /** `len(df[df[KeyColumns].isna().all(axis=1)])`. */
  function AllMissingCount(rows: seq<Row>): (n: nat)
    requires forall i, k :: 0 <= i < |rows| && k in KeyColumns ==> k in rows[i]
    ensures n <= |rows|
  {
    if rows == [] then 0
    else (if AllKeysMissing(rows[0]) then 1 else 0) + AllMissingCount(rows[1..])
  }

  /** The first key column the table lacks, if any: selecting the key columns
      raises a KeyError for it. */
  function AbsentKey(columns: set<string>, keys: seq<string>): (r: Option<string>)
    ensures r.None? <==> forall j :: 0 <= j < |keys| ==> keys[j] in columns
    ensures r.Some? ==> r.value in keys && r.value !in columns
  {
    if keys == [] then None
    else if keys[0] !in columns then Some(keys[0])
    else AbsentKey(columns, keys[1..])
  }

  /** `handle_missing_and_dropna` without its printing: the number of rows
      whose key columns are all missing, and the table without its incomplete
      rows; a KeyError, and no change, when a key column is absent. */
  function HandleMissing(t: Table): (r: Result<(nat, Table)>)
    requires WellFormed(t)
    ensures r.Err? <==> exists j :: 0 <= j < |KeyColumns| && KeyColumns[j] !in t.columns
    ensures r.Err? ==> r.error.KeyError? && r.error.column in KeyColumns && r.error.column !in t.columns
    ensures r.Ok? ==> WellFormed(r.value.1) && r.value.1 == Table(t.columns, DropNa(t.rows))
    ensures r.Ok? ==> r.value.0 == AllMissingCount(t.rows) && r.value.0 + |r.value.1.rows| <= |t.rows|
  {
    match AbsentKey(t.columns, KeyColumns)
    case Some(k) => Err(KeyError(k))
    case None =>
      AllMissingDropped(t.rows);
      Ok((AllMissingCount(t.rows), Table(t.columns, DropNa(t.rows))))
  }

  // ---------------------------------------------------------------------
  // Lemmas
  // ---------------------------------------------------------------------

  /** Dropping works row by row: it commutes with concatenation. */
  lemma {:induction false} DropNaAppend(a: seq<Row>, b: seq<Row>)
    ensures DropNa(a + b) == DropNa(a) + DropNa(b)
    decreases |a|
  {
    if a != [] {
      assert (a + b)[1..] == a[1..] + b;
      DropNaAppend(a[1..], b);
    } else {
      assert a + b == b;
    }
  }

  /** A row is in the result exactly when it is a complete row of the input. */
  lemma {:induction false} DropNaMembers(rows: seq<Row>, row: Row)
    ensures row in DropNa(rows) <==> row in rows && Complete(row)
    decreases |rows|
  {
    if rows != [] {
      DropNaMembers(rows[1..], row);
      assert rows == [rows[0]] + rows[1..];
    }
  }

  /** Nothing is dropped exactly when every row is complete. */
  lemma {:induction false} DropNaKeepsAll(rows: seq<Row>)
    ensures DropNa(rows) == rows <==> forall i :: 0 <= i < |rows| ==> Complete(rows[i])
    decreases |rows|
  {
    if rows != [] {
      DropNaKeepsAll(rows[1..]);
      if !Complete(rows[0]) {
        assert |DropNa(rows)| < |rows| by {
          assert |DropNa(rows[1..])| <= |rows[1..]|;
        }
      } else {
        assert forall i :: 1 <= i < |rows| ==> rows[i] == rows[1..][i - 1];
      }
    }
  }

  /** Dropping twice drops nothing more. */
  lemma DropNaTwice(rows: seq<Row>)
    ensures DropNa(DropNa(rows)) == DropNa(rows)
  {
    DropNaKeepsAll(DropNa(rows));
  }

  /** The rows whose key columns are all missing are among the dropped ones. */
  lemma {:induction false} AllMissingDropped(rows: seq<Row>)
    requires forall i, k :: 0 <= i < |rows| && k in KeyColumns ==> k in rows[i]
    ensures AllMissingCount(rows) + |DropNa(rows)| <= |rows|
    decreases |rows|
  {
    if rows != [] {
      AllMissingDropped(rows[1..]);
      if AllKeysMissing(rows[0]) {
        assert "VehicleModel" in KeyColumns;
        assert rows[0]["VehicleModel"].Missing?;
      }
    }
  }

  /** After the step, no cell of any column is missing. */
  lemma HandleMissingLeavesNoGaps(t: Table)
    requires WellFormed(t) && HandleMissing(t).Ok?
    ensures forall i, c :: 0 <= i < |HandleMissing(t).value.1.rows| && c in t.columns ==>
      !HandleMissing(t).value.1.rows[i][c].Missing?
  {
    var r := HandleMissing(t).value.1;
    forall i, c | 0 <= i < |r.rows| && c in t.columns
      ensures !r.rows[i][c].Missing?
    {
      assert Complete(r.rows[i]);
    }
  }
}
