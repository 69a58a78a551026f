/** `clean_symbols_and_features`: the `%`, `$` and `S` symbols are deleted, the
    state-of-charge and cost columns become numbers, and the charge difference
    and the duration in minutes are added. */
module Features {
  import opened Tables
  import opened Text

  const SocStart := "StateOfChargeStart%"
  const SocEnd := "StateOfChargeEnd%"
  const Cost := "ChargingCostUSD"
  const StationId := "ChargingStationId"
  const Hours := "ChargingDurationHours"
  const Difference := "ChargeDifference%"
  const Minutes := "ChargingDurationMinutes"

  /** The names the method reads or writes. */
  const Involved: set<string> := {SocStart, SocEnd, Cost, StationId, Hours, Difference, Minutes}

  /** `.astype(str).str.replace(sym, "")` on one cell. */
  function Stripped(c: Cell, sym: char, conv: Conversions): (r: string)
    ensures sym !in r
  {
    RemoveChar(AsStr(c, conv), sym)
  }

  /** `.astype(float)` of a stripped cell that converts: a number, or missing
      for NaN. */
  function FloatCell(c: Cell, sym: char, conv: Conversions): (r: Cell)
    ensures !r.Text?
  {
    match conv.toFloat(Stripped(c, sym, conv))
    case Value(x) => Num(x)
    case _ => Missing
  }

  /** A cell whose stripped text `float()` rejects. */
  predicate Unconvertible(c: Cell, sym: char, conv: Conversions) {
    conv.toFloat(Stripped(c, sym, conv)).Malformed?
  }

  /** `df[col] = df[col].astype(str).str.replace(sym, "").astype(float)` on an
      existing column: one cell that does not convert raises a ValueError and
      leaves the column as it was. */
  function ToFloatColumn(t: Table, col: string, sym: char, conv: Conversions): (r: Result<Table>)
    requires WellFormed(t) && col in t.columns
    ensures r.Err? <==> exists i :: 0 <= i < |t.rows| && Unconvertible(t.rows[i][col], sym, conv)
    ensures r.Err? ==> r.error == ParseError(col)
    ensures r.Ok? ==> WellFormed(r.value) && r.value.columns == t.columns && |r.value.rows| == |t.rows|
    ensures r.Ok? ==> forall i :: 0 <= i < |t.rows| ==>
      r.value.rows[i] == t.rows[i][col := FloatCell(t.rows[i][col], sym, conv)]
  {
    if exists i :: 0 <= i < |t.rows| && Unconvertible(t.rows[i][col], sym, conv) then Err(ParseError(col))
    else Ok(MapColumn(t, col, c => FloatCell(c, sym, conv)))
  }

  /** The station id with every `S` deleted, kept as a string. */
  function StationCell(c: Cell, conv: Conversions): (r: Cell)
    ensures r.Text? && 'S' !in r.s
  {
    Text(Stripped(c, 'S', conv))
  }

  /** `df["ChargingStationId"] = df["ChargingStationId"].astype(str).str.replace("S", "")`. */
  function StripStationIds(t: Table, conv: Conversions): (r: Table)
    requires WellFormed(t) && StationId in t.columns
    ensures WellFormed(r) && r.columns == t.columns && |r.rows| == |t.rows|
    ensures forall i :: 0 <= i < |t.rows| ==> r.rows[i] == t.rows[i][StationId := StationCell(t.rows[i][StationId], conv)]
  {
    MapColumn(t, StationId, c => StationCell(c, conv))
  }

  /** `end - start` on one row: a number when both are numbers, NaN (missing)
      otherwise. */
  function Subtract(start: Cell, end: Cell): (r: Cell)
    ensures r.Num? <==> start.Num? && end.Num?
    ensures r.Num? ==> r.x + start.x == end.x
  {
    if start.Num? && end.Num? then Num(end.x - start.x) else Missing
  }

  /** `hours * 60` on one cell: a number is multiplied, a string is repeated
      sixty times (Python's `str * int`), a missing value stays missing. */
  function TimesSixty(c: Cell): (r: Cell)
    ensures c.Num? <==> r.Num?
    ensures c.Num? ==> r.x / 60.0 == c.x
    ensures c.Text? ==> r.Text? && |r.s| == 60 * |c.s|
    ensures c.Text? ==> forall j :: 0 <= j < |r.s| ==> r.s[j] == c.s[j % |c.s|]
    ensures c.Missing? <==> r.Missing?
  {
    match c
    case Num(x) => Num(x * 60.0)
    case Text(s) => Text(Repeat(s, 60))
    case Missing => Missing
  }

  /** The three conversions to numbers, in the order the method makes them;
      the first that fails stops the method with the earlier ones in place. */
  function ConvertNumbers(t: Table, conv: Conversions): (r: (Table, Status))
    requires WellFormed(t)
    ensures WellFormed(r.0) && r.0.columns == t.columns && |r.0.rows| == |t.rows|
    ensures r.1 == Done ==> {SocStart, SocEnd, Cost} <= t.columns
    ensures r.1 == Done ==> forall i :: 0 <= i < |t.rows| ==>
      r.0.rows[i] == t.rows[i][SocStart := FloatCell(t.rows[i][SocStart], '%', conv)]
        [SocEnd := FloatCell(t.rows[i][SocEnd], '%', conv)]
        [Cost := FloatCell(t.rows[i][Cost], '$', conv)]
  {
    if SocStart !in t.columns then (t, Failed(KeyError(SocStart))) else
    var c1 := ToFloatColumn(t, SocStart, '%', conv);
    if c1.Err? then (t, Failed(c1.error)) else
    if SocEnd !in t.columns then (c1.value, Failed(KeyError(SocEnd))) else
    var c2 := ToFloatColumn(c1.value, SocEnd, '%', conv);
    if c2.Err? then (c1.value, Failed(c2.error)) else
    if Cost !in t.columns then (c2.value, Failed(KeyError(Cost))) else
    var c3 := ToFloatColumn(c2.value, Cost, '$', conv);
    if c3.Err? then (c2.value, Failed(c3.error)) else
    (c3.value, Done)
  }

  /** The last three statements, on a table whose numbers are converted. */
  function DeriveFeatures(t: Table, conv: Conversions): (r: (Table, Status))
    requires WellFormed(t) && {SocStart, SocEnd} <= t.columns
    ensures WellFormed(r.0) && |r.0.rows| == |t.rows|
    ensures r.1 == Done <==> StationId in t.columns && Hours in t.columns
    ensures r.1 == Done ==> r.0.columns == t.columns + {Difference, Minutes}
    ensures r.1 == Done ==> forall i :: 0 <= i < |t.rows| ==>
      r.0.rows[i] == t.rows[i][StationId := StationCell(t.rows[i][StationId], conv)]
        [Difference := Subtract(t.rows[i][SocStart], t.rows[i][SocEnd])]
        [Minutes := TimesSixty(t.rows[i][Hours])]
  {
    if StationId !in t.columns then (t, Failed(KeyError(StationId))) else
    var t4 := StripStationIds(t, conv);
    var t5 := CombineColumns(t4, SocStart, SocEnd, Difference, Subtract);
    if Hours !in t.columns then (t5, Failed(KeyError(Hours))) else
    (DeriveColumn(t5, Hours, Minutes, TimesSixty), Done)
  }

  /** `clean_symbols_and_features` without its printing: the table the method
      leaves behind and whether it raised. */
  function CleanFeatures(t: Table, conv: Conversions): (r: (Table, Status))
    requires WellFormed(t)
    ensures WellFormed(r.0) && |r.0.rows| == |t.rows|
    ensures r.1 == Done ==> {SocStart, SocEnd, Cost, StationId, Hours} <= t.columns
    ensures r.1 == Done ==> r.0.columns == t.columns + {Difference, Minutes} && Involved <= r.0.columns
  {
    var n := ConvertNumbers(t, conv);
    if n.1.Failed? then n else DeriveFeatures(n.0, conv)
  }

  // ---------------------------------------------------------------------
  // Lemmas
  // ---------------------------------------------------------------------

  /** When the method succeeds, each row holds the converted numbers, the
      station id without `S`, the difference of the two charge levels and the
      duration times sixty. */
  lemma CleanFeaturesCells(t: Table, conv: Conversions, i: int)
    requires WellFormed(t) && CleanFeatures(t, conv).1 == Done && 0 <= i < |t.rows|
    ensures var row, r := t.rows[i], CleanFeatures(t, conv).0.rows[i];
      && r[SocStart] == FloatCell(row[SocStart], '%', conv)
      && r[SocEnd] == FloatCell(row[SocEnd], '%', conv)
      && r[Cost] == FloatCell(row[Cost], '$', conv)
      && r[StationId] == StationCell(row[StationId], conv)
      && r[Difference] == Subtract(r[SocStart], r[SocEnd])
      && r[Minutes] == TimesSixty(row[Hours])
  {
    var n := ConvertNumbers(t, conv).0;
    assert n.rows[i][SocStart] == FloatCell(t.rows[i][SocStart], '%', conv);
    assert n.rows[i][SocEnd] == FloatCell(t.rows[i][SocEnd], '%', conv);
    assert n.rows[i][Cost] == FloatCell(t.rows[i][Cost], '$', conv);
    assert n.rows[i][Hours] == t.rows[i][Hours];
    assert n.rows[i][StationId] == t.rows[i][StationId];
  }

  /** When the method succeeds, every other column keeps its cells. */
  lemma CleanFeaturesKeepsOthers(t: Table, conv: Conversions, i: int, c: string)
    requires WellFormed(t) && CleanFeatures(t, conv).1 == Done && 0 <= i < |t.rows|
    requires c in t.columns && c !in Involved
    ensures CleanFeatures(t, conv).0.rows[i][c] == t.rows[i][c]
  {
    var n := ConvertNumbers(t, conv).0;
    assert n.rows[i][c] == t.rows[i][c];
  }

  /** Every state of charge and cost converts to a number. */
  predicate NumbersConvert(t: Table, conv: Conversions)
    requires WellFormed(t) && {SocStart, SocEnd, Cost} <= t.columns
  {
    forall i :: 0 <= i < |t.rows| ==>
      && !Unconvertible(t.rows[i][SocStart], '%', conv)
      && !Unconvertible(t.rows[i][SocEnd], '%', conv)
      && !Unconvertible(t.rows[i][Cost], '$', conv)
  }

  /** The three conversions succeed exactly when their columns are present and
      every cell in them converts. */
  lemma ConvertNumbersSucceeds(t: Table, conv: Conversions)
    requires WellFormed(t)
    ensures ConvertNumbers(t, conv).1 == Done <==> {SocStart, SocEnd, Cost} <= t.columns && NumbersConvert(t, conv)
  {
    if {SocStart, SocEnd, Cost} <= t.columns {
      var c1 := ToFloatColumn(t, SocStart, '%', conv);
      if c1.Ok? {
        var c2 := ToFloatColumn(c1.value, SocEnd, '%', conv);
        assert forall i :: 0 <= i < |t.rows| ==> c1.value.rows[i][SocEnd] == t.rows[i][SocEnd];
        if c2.Ok? {
          var c3 := ToFloatColumn(c2.value, Cost, '$', conv);
          assert forall i :: 0 <= i < |t.rows| ==> c2.value.rows[i][Cost] == t.rows[i][Cost];
        }
      }
    }
  }

  /** The method succeeds exactly when the five columns it reads are present
      and every state of charge and cost converts. */
  lemma CleanFeaturesSucceeds(t: Table, conv: Conversions)
    requires WellFormed(t)
    ensures CleanFeatures(t, conv).1 == Done <==>
      {SocStart, SocEnd, Cost, StationId, Hours} <= t.columns && NumbersConvert(t, conv)
  {
    ConvertNumbersSucceeds(t, conv);
  }

  /** Deleting a symbol keeps every other character, in order: it works piece
      by piece, and a piece without the symbol is kept whole. */
  lemma StrippedPieces(a: string, b: string, sym: char)
    requires sym !in b
    ensures RemoveChar(a + [sym] + b, sym) == RemoveChar(a, sym) + b
  {
    RemoveCharAppend(a + [sym], b, sym);
    RemoveCharAppend(a, [sym], sym);
    RemoveCharAbsent(b, sym);
    assert RemoveChar([sym], sym) == [] by {
      assert [sym][1..] == [];
    }
  }

  /** "20%" becomes "20". */
  lemma PercentExample(soc: string)
    requires soc == "20%"
    ensures RemoveChar(soc, '%') == "20"
  {
    assert soc == "20" + ['%'] + "";
    StrippedPieces("20", "", '%');
    RemoveCharAbsent("20", '%');
  }

  /** "$10.5" becomes "10.5". */
  lemma DollarExample(cost: string)
    requires cost == "$10.5"
    ensures RemoveChar(cost, '$') == "10.5"
  {
    assert cost == "" + ['$'] + "10.5";
    StrippedPieces("", "10.5", '$');
  }

  /** Every `S` goes, not only the leading one: "S1S2" becomes "12". */
  lemma StationExample(id: string)
    requires id == "S1S2"
    ensures RemoveChar(id, 'S') == "12"
  {
    assert id == "S1" + ['S'] + "2";
    StrippedPieces("S1", "2", 'S');
    assert "S1" == "" + ['S'] + "1";
    StrippedPieces("", "1", 'S');
  }
}
