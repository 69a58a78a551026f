/** `check_duplicates` and `check_outliers_iqr`: the two reports computed on a
    cleaned table. */
module Diagnostics {
  import opened Tables

  // ---------------------------------------------------------------------
  // Duplicated rows
  // ---------------------------------------------------------------------

  /** Row `i` equals another row: `duplicated(keep=False)` flags it. Two
      missing cells count as equal, as pandas does here. */
  predicate Duplicated(rows: seq<Row>, i: int)
    requires 0 <= i < |rows|
    ensures Duplicated(rows, i) <==> rows[i] in rows[..i] + rows[i + 1..]
  {
    SameRowElsewhere(rows, i);
    exists j :: 0 <= j < |rows| && j != i && rows[j] == rows[i]
  }

  /** Another index holds row `i` exactly when the rows around it contain it. */
  lemma SameRowElsewhere(rows: seq<Row>, i: int)
    requires 0 <= i < |rows|
    ensures (exists j :: 0 <= j < |rows| && j != i && rows[j] == rows[i]) <==>
      rows[i] in rows[..i] + rows[i + 1..]
  {
    var others := rows[..i] + rows[i + 1..];
    assert forall k :: 0 <= k < i ==> others[k] == rows[k];
    assert forall k :: i <= k < |others| ==> others[k] == rows[k + 1];
    if rows[i] in others {
      var k :| 0 <= k < |others| && others[k] == rows[i];
      if k < i {
        assert rows[k] == rows[i];
      } else {
        assert rows[k + 1] == rows[i];
      }
    }
  }

  /** The boolean mask `df.duplicated(keep=False)`. */
  function DuplicateMask(rows: seq<Row>): (m: seq<bool>)
    ensures |m| == |rows|
    ensures forall i :: 0 <= i < |rows| ==> (m[i] <==> Duplicated(rows, i))
  {
    seq(|rows|, i requires 0 <= i < |rows| => Duplicated(rows, i))
  }

  /** The number of rows a boolean mask selects. */
  function CountTrue(m: seq<bool>): (n: nat)
    ensures n <= |m|
  {
    if m == [] then 0 else (if m[0] then 1 else 0) + CountTrue(m[1..])
  }

  /** `len(df[df.duplicated(keep=False)])`: every copy of a repeated row is
      counted, the first one included. */
  function DuplicateCount(rows: seq<Row>): (n: nat)
    ensures n <= |rows|
  {
    CountTrue(DuplicateMask(rows))
  }

  /** A mask selects nothing exactly when it holds no `true`. */
  lemma {:induction false} CountTrueZero(m: seq<bool>)
    ensures CountTrue(m) == 0 <==> forall i :: 0 <= i < |m| ==> !m[i]
  {
    if m != [] {
      CountTrueZero(m[1..]);
      assert forall i :: 1 <= i < |m| ==> m[i] == m[1..][i - 1];
    }
  }

  /** A mask selects every row exactly when it holds only `true`. */
  lemma {:induction false} CountTrueAll(m: seq<bool>)
    ensures CountTrue(m) == |m| <==> forall i :: 0 <= i < |m| ==> m[i]
  {
    if m != [] {
      CountTrueAll(m[1..]);
      assert forall i :: 1 <= i < |m| ==> m[i] == m[1..][i - 1];
    }
  }

  /** Counting splits at any point of the mask. */
  lemma {:induction false} CountTrueSplit(m: seq<bool>, k: int)
    requires 0 <= k <= |m|
    ensures CountTrue(m) == CountTrue(m[..k]) + CountTrue(m[k..])
  {
    if k > 0 {
      CountTrueSplit(m[1..], k - 1);
      assert m[..k][1..] == m[1..][..k - 1];
      assert m[1..][k - 1..] == m[k..];
    }
  }

  /** Two selected positions make a count of at least two. */
  lemma CountTrueTwo(m: seq<bool>, i: int, j: int)
    requires 0 <= i < j < |m| && m[i] && m[j]
    ensures CountTrue(m) >= 2
  {
    CountTrueSplit(m, j);
    CountTrueZero(m[..j]);
    assert m[..j][i];
    CountTrueZero(m[j..]);
    assert m[j..][0];
  }

  /** The count is zero exactly when the rows are pairwise different. */
  lemma NoDuplicatesIff(rows: seq<Row>)
    ensures DuplicateCount(rows) == 0 <==>
      forall i, j :: 0 <= i < j < |rows| ==> rows[i] != rows[j]
  {
    var m := DuplicateMask(rows);
    CountTrueZero(m);
    if forall i :: 0 <= i < |m| ==> !m[i] {
      forall i, j | 0 <= i < j < |rows|
        ensures rows[i] != rows[j]
      {
        assert !Duplicated(rows, j);
      }
    } else {
      var i :| 0 <= i < |m| && m[i];
      var j :| 0 <= j < |rows| && j != i && rows[j] == rows[i];
      assert rows[i] == rows[j];
    }
  }

  /** A row never counts alone: its equal partner counts too, so the count
      is never one. */
  lemma DuplicateCountNeverOne(rows: seq<Row>)
    ensures DuplicateCount(rows) != 1
  {
    var m := DuplicateMask(rows);
    CountTrueZero(m);
    if CountTrue(m) != 0 {
      var i :| 0 <= i < |m| && m[i];
      var j :| 0 <= j < |rows| && j != i && rows[j] == rows[i];
      assert Duplicated(rows, j);
      if i < j {
        CountTrueTwo(m, i, j);
      } else {
        CountTrueTwo(m, j, i);
      }
    }
  }

  /** Every row is counted exactly when every row has an equal partner. */
  lemma DuplicateCountAll(rows: seq<Row>)
    ensures DuplicateCount(rows) == |rows| <==> forall i :: 0 <= i < |rows| ==> Duplicated(rows, i)
  {
    CountTrueAll(DuplicateMask(rows));
  }

  // ---------------------------------------------------------------------
  // Outliers by the interquartile range
  // ---------------------------------------------------------------------

  /** The 1.5 * IQR rule: strictly below `Q1 - 1.5 * IQR` or strictly above
      `Q3 + 1.5 * IQR`. */
  predicate IsOutlier(x: real, q1: real, q3: real)
    ensures IsOutlier(x, q1, q3) && q1 <= q3 ==> x < q1 || x > q3
  {
    var iqr := q3 - q1;
    x < q1 - 1.5 * iqr || x > q3 + 1.5 * iqr
  }

  /** `select_dtypes(include=[np.number])`, judged on the cells: a column
      without a string cell. */
  predicate NumericColumn(t: Table, c: string)
    requires WellFormed(t) && c in t.columns
  {
    forall i :: 0 <= i < |t.rows| ==> !t.rows[i][c].Text?
  }

  /** The numeric columns of the table. */
  function NumericColumns(t: Table): (r: set<string>)
    requires WellFormed(t)
    ensures forall c :: c in r <==> c in t.columns && NumericColumn(t, c)
  {
    set c | c in t.columns && NumericColumn(t, c)
  }

  /** The numbers of one column, in row order, skipping missing cells: what
      `quantile` works on. */
  function Values(rows: seq<Row>, c: string): (r: seq<real>)
    requires forall i :: 0 <= i < |rows| ==> c in rows[i]
    ensures |r| <= |rows|
  {
    if rows == [] then []
    else (if rows[0][c].Num? then [rows[0][c].x] else []) + Values(rows[1..], c)
  }

  /** The rows whose number in column `c` lies outside the bounds; a missing
      cell compares false on both sides and is never counted. */
  function CountOutliers(rows: seq<Row>, c: string, q1: real, q3: real): (n: nat)
    requires forall i :: 0 <= i < |rows| ==> c in rows[i]
    ensures n <= |Values(rows, c)|
  {
    if rows == [] then 0
    else
      var here := if rows[0][c].Num? && IsOutlier(rows[0][c].x, q1, q3) then 1 else 0;
      here + CountOutliers(rows[1..], c, q1, q3)
  }

  /** The count `check_outliers_iqr` stores for one numeric column. */
  function OutlierCount(t: Table, c: string, conv: Conversions): (n: nat)
    requires WellFormed(t) && c in t.columns
    ensures n <= |t.rows|
  {
    var v := Values(t.rows, c);
    CountOutliers(t.rows, c, conv.quantile(v, 0.25), conv.quantile(v, 0.75))
  }

  /** The dictionary `outliers_count`: one entry per numeric column. */
  function OutlierCounts(t: Table, conv: Conversions): (r: map<string, nat>)
    requires WellFormed(t)
    ensures r.Keys == NumericColumns(t)
    ensures forall c :: c in r ==> r[c] <= |t.rows|
  {
    map c | c in NumericColumns(t) :: OutlierCount(t, c, conv)
  }

  /** A dictionary with an entry for each numeric column, holding that
      column's count, is the dictionary of outlier counts. */
  lemma OutlierCountsExt(t: Table, conv: Conversions, counts: map<string, nat>)
    requires WellFormed(t) && counts.Keys == NumericColumns(t)
    requires forall c :: c in counts ==> counts[c] == OutlierCount(t, c, conv)
    ensures counts == OutlierCounts(t, conv)
  {
    var expected := OutlierCounts(t, conv);
    assert forall c :: c in counts ==> counts[c] == expected[c];
    assert counts.Keys == expected.Keys;
  }

  /** A value between the quartiles is never an outlier. */
  lemma InsideQuartiles(x: real, q1: real, q3: real)
    requires q1 <= x <= q3
    ensures !IsOutlier(x, q1, q3)
  {
  }

  /** The bounds are inclusive: with Q1 = 10 and Q3 = 20 the upper bound is
      35 and the lower bound -5, which are not flagged, while 35.01 and -5.01 are. */
  lemma BoundsExample()
    ensures !IsOutlier(35.0, 10.0, 20.0) && !IsOutlier(-5.0, 10.0, 20.0)
    ensures IsOutlier(35.01, 10.0, 20.0) && IsOutlier(-5.01, 10.0, 20.0)
  {
  }

  /** The count is zero exactly when no number of the column lies beyond
      the 1.5 * IQR fences. */
  lemma {:induction false} NoOutliersIff(rows: seq<Row>, c: string, q1: real, q3: real)
    requires forall i :: 0 <= i < |rows| ==> c in rows[i]
    ensures CountOutliers(rows, c, q1, q3) == 0 <==>
      forall i :: 0 <= i < |rows| && rows[i][c].Num? ==> !IsOutlier(rows[i][c].x, q1, q3)
    decreases |rows|
  {
    if rows != [] {
      var tail := rows[1..];
      NoOutliersIff(tail, c, q1, q3);
      assert forall i :: 0 <= i < |tail| ==> tail[i] == rows[i + 1];
      if CountOutliers(rows, c, q1, q3) == 0 {
        forall i | 0 <= i < |rows| && rows[i][c].Num?
          ensures !IsOutlier(rows[i][c].x, q1, q3)
        {
          if i > 0 {
            assert rows[i] == tail[i - 1];
          }
        }
      }
    }
  }

  /** When every number of the column lies between the quartiles, nothing is
      counted. */
  lemma {:induction false} NoOutliersInside(rows: seq<Row>, c: string, q1: real, q3: real)
    requires forall i :: 0 <= i < |rows| ==> c in rows[i]
    requires forall i :: 0 <= i < |rows| && rows[i][c].Num? ==> q1 <= rows[i][c].x <= q3
    ensures CountOutliers(rows, c, q1, q3) == 0
  {
    if rows != [] {
      NoOutliersInside(rows[1..], c, q1, q3);
    }
  }

  /** A column whose cells are all missing has no outliers, whatever the
      quartiles. */
  lemma {:induction false} AllMissingNoOutliers(rows: seq<Row>, c: string, q1: real, q3: real)
    requires forall i :: 0 <= i < |rows| ==> c in rows[i] && rows[i][c].Missing?
    ensures Values(rows, c) == [] && CountOutliers(rows, c, q1, q3) == 0
  {
    if rows != [] {
      AllMissingNoOutliers(rows[1..], c, q1, q3);
    }
  }
}
