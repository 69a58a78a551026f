/** `process_datetime_columns`: the start and end timestamps are split into a
    date and a time column each, the end time loses its fractional seconds,
    and the four new columns are parsed. */
module Datetime {
  import opened Tables
  import opened Text

  const StartCol := "ChargingStartTime"
  const EndCol := "ChargingEndTime"
  const StartDateOnly := "ChargingStartDateOnly"
  const StartTimeOnly := "ChargingStartTimeOnly"
  const EndDateOnly := "ChargingEndDateOnly"
  const EndTimeOnly := "ChargingEndTimeOnly"
  const StartDate := "ChargingStartDate"
  const EndDate := "ChargingEndDate"

  /** `.str.split(" ").str[n]` on one cell: the `n`-th space-separated field of
      a string, missing when there are fewer fields; `.str` gives missing for a
      cell that is not a string. */
  function FieldCell(c: Cell, n: nat): (r: Cell)
    ensures !r.Num?
    ensures r.Text? ==> ' ' !in r.s
  {
    match c
    case Text(s) =>
      var fs := Split(s, ' ');
      if n < |fs| then Text(fs[n]) else Missing
    case _ => Missing
  }

  /** `.str.split(" ").str[0]`: the date part of a timestamp. */
  function DateField(c: Cell): (r: Cell)
    ensures c.Text? ==> r == Text(Before(c.s, ' '))
    ensures !c.Text? ==> r.Missing?
  {
    FieldCell(c, 0)
  }

  /** `.str.split(" ").str[1]`: the time part of a timestamp. */
  function TimeField(c: Cell): (r: Cell)
    ensures c.Text? && ' ' in c.s ==> r == Text(Before(After(c.s, ' '), ' '))
    ensures !(c.Text? && ' ' in c.s) ==> r.Missing?
  {
    FieldCell(c, 1)
  }

  /** No line break in `t` except, possibly, as its last character. */
  predicate NoInnerBreak(t: string) {
    forall i :: 0 <= i < |t| - 1 ==> t[i] != '\n'
  }

  /** `re.sub(r"\..*$", "", t)` with Python's rules: `.` does not match a line
      break and `$` matches at the end or before a final line break. The first
      `.` after which no line break comes (other than a final one) starts the
      match, which runs up to the end, sparing a final line break. */
  function DropFraction(t: string): (r: string)
    ensures |r| <= |t|
    decreases |t|
  {
    if t == [] then []
    else if t[0] == '.' && NoInnerBreak(t[1..]) then
      (if t[|t| - 1] == '\n' then "\n" else [])
    else [t[0]] + DropFraction(t[1..])
  }

  /** `.str.replace(r"\..*$", "", regex=True)` on one cell. */
  function FractionCell(c: Cell): (r: Cell)
    ensures c.Missing? ==> r.Missing?
  {
    match c
    case Text(s) => Text(DropFraction(s))
    case _ => Missing
  }

  /** A cell `pd.to_datetime` cannot parse. */
  predicate Unparsable(c: Cell, parse: string -> StampParse) {
    c.Text? && parse(c.s).BadStamp?
  }

  /** `pd.to_datetime(...)` followed by `.dt.date` or `.dt.time` on one cell
      that parses: the value, or missing for NaT. */
  function ParsedCell(c: Cell, parse: string -> StampParse): (r: Cell)
    ensures c.Missing? ==> r.Missing?
  {
    match c
    case Text(s) => (match parse(s) case Stamp(v) => Text(v) case _ => Missing)
    case _ => Missing
  }

  /** Parsing a whole column: one cell that cannot be parsed raises an error
      and leaves the column as it was. */
  function ParseColumn(t: Table, col: string, parse: string -> StampParse): (r: Result<Table>)
    requires WellFormed(t) && col in t.columns
    ensures r.Err? <==> exists i :: 0 <= i < |t.rows| && Unparsable(t.rows[i][col], parse)
    ensures r.Err? ==> r.error == ParseError(col)
    ensures r.Ok? ==> WellFormed(r.value) && r.value.columns == t.columns && |r.value.rows| == |t.rows|
    ensures r.Ok? ==> forall i :: 0 <= i < |t.rows| ==>
      r.value.rows[i] == t.rows[i][col := ParsedCell(t.rows[i][col], parse)]
  {
    if exists i :: 0 <= i < |t.rows| && Unparsable(t.rows[i][col], parse) then Err(ParseError(col))
    else Ok(MapColumn(t, col, c => ParsedCell(c, parse)))
  }

  /** The four new columns, split but not yet parsed (the first four
      assignments and the fraction removal). */
  function SplitColumns(t: Table): (r: Table)
    requires WellFormed(t) && StartCol in t.columns && EndCol in t.columns
    ensures WellFormed(r) && |r.rows| == |t.rows|
    ensures r.columns == t.columns + {StartDateOnly, StartTimeOnly, EndDateOnly, EndTimeOnly}
    ensures forall i :: 0 <= i < |t.rows| ==> r.rows[i] == t.rows[i][StartDateOnly := FieldCell(t.rows[i][StartCol], 0)]
      [StartTimeOnly := FieldCell(t.rows[i][StartCol], 1)]
      [EndDateOnly := FieldCell(t.rows[i][EndCol], 0)]
      [EndTimeOnly := FractionCell(FieldCell(t.rows[i][EndCol], 1))]
  {
    var t1 := DeriveColumn(t, StartCol, StartDateOnly, DateField);
    var t2 := DeriveColumn(t1, StartCol, StartTimeOnly, TimeField);
    var t3 := DeriveColumn(t2, EndCol, EndDateOnly, DateField);
    var t4 := DeriveColumn(t3, EndCol, EndTimeOnly, TimeField);
    MapColumn(t4, EndTimeOnly, FractionCell)
  }

  /** The last two statements: the combined columns are dropped and the new
      ones take the final names. */
  function Finish(t: Table): (r: Table)
    requires WellFormed(t)
    requires {StartCol, EndCol, StartDateOnly, StartTimeOnly, EndDateOnly, EndTimeOnly} <= t.columns
    ensures WellFormed(r) && |r.rows| == |t.rows|
    ensures r.columns == t.columns - {StartDateOnly, StartTimeOnly, EndDateOnly, EndTimeOnly} + {StartDate, EndDate}
    ensures forall i :: 0 <= i < |t.rows| ==>
      && r.rows[i][StartDate] == t.rows[i][StartDateOnly] && r.rows[i][StartCol] == t.rows[i][StartTimeOnly]
      && r.rows[i][EndDate] == t.rows[i][EndDateOnly] && r.rows[i][EndCol] == t.rows[i][EndTimeOnly]
    ensures forall i, c :: 0 <= i < |t.rows| && c in t.columns && c !in Involved ==> r.rows[i][c] == t.rows[i][c]
  {
    var t1 := DropColumn(DropColumn(t, StartCol), EndCol);
    var t2 := RenameColumn(t1, StartDateOnly, StartDate);
    var t3 := RenameColumn(t2, StartTimeOnly, StartCol);
    var t4 := RenameColumn(t3, EndDateOnly, EndDate);
    RenameColumn(t4, EndTimeOnly, EndCol)
  }

  /** `process_datetime_columns`, statement by statement: the table the method
      leaves behind and whether it raised. A KeyError or a parse error stops
      the method with the assignments made before it in place. */
  function ProcessDatetime(t: Table, conv: Conversions): (r: (Table, Status))
    requires WellFormed(t)
    ensures WellFormed(r.0) && |r.0.rows| == |t.rows|
    ensures r.1 == Done ==> StartCol in t.columns && EndCol in t.columns
    ensures r.1 == Done ==>
      r.0.columns == t.columns - {StartDateOnly, StartTimeOnly, EndDateOnly, EndTimeOnly} + {StartDate, EndDate}
    ensures r.1 == Done ==> {StartDate, StartCol, EndDate, EndCol} <= r.0.columns
  {
    if StartCol !in t.columns then (t, Failed(KeyError(StartCol)))
    else if EndCol !in t.columns then
      var t1 := DeriveColumn(t, StartCol, StartDateOnly, DateField);
      (DeriveColumn(t1, StartCol, StartTimeOnly, TimeField), Failed(KeyError(EndCol)))
    else
      var p := ParseAll(SplitColumns(t), conv);
      if p.1.Failed? then p else (Finish(p.0), Done)
  }

  /** Every cell of the four new columns can be parsed. */
  predicate ColumnsParse(t: Table, conv: Conversions)
    requires WellFormed(t) && {StartDateOnly, StartTimeOnly, EndDateOnly, EndTimeOnly} <= t.columns
  {
    forall i :: 0 <= i < |t.rows| ==>
      && !Unparsable(t.rows[i][StartDateOnly], conv.parseDate)
      && !Unparsable(t.rows[i][EndDateOnly], conv.parseDate)
      && !Unparsable(t.rows[i][StartTimeOnly], conv.parseTime)
      && !Unparsable(t.rows[i][EndTimeOnly], conv.parseTime)
  }

  /** Every date and time token of both timestamp columns can be parsed (the
      end time once its fraction is cut). */
  predicate StampsParse(t: Table, conv: Conversions)
    requires WellFormed(t) && StartCol in t.columns && EndCol in t.columns
  {
    forall i :: 0 <= i < |t.rows| ==>
      && !Unparsable(FieldCell(t.rows[i][StartCol], 0), conv.parseDate)
      && !Unparsable(FieldCell(t.rows[i][EndCol], 0), conv.parseDate)
      && !Unparsable(FieldCell(t.rows[i][StartCol], 1), conv.parseTime)
      && !Unparsable(FractionCell(FieldCell(t.rows[i][EndCol], 1)), conv.parseTime)
  }

  /** The four conversions, in the order the method makes them; the first
      that fails stops the method with the earlier ones in place. */
  function ParseAll(t: Table, conv: Conversions): (r: (Table, Status))
    requires WellFormed(t) && {StartDateOnly, StartTimeOnly, EndDateOnly, EndTimeOnly} <= t.columns
    ensures WellFormed(r.0) && r.0.columns == t.columns && |r.0.rows| == |t.rows|
    ensures r.1 == Done ==> forall i :: 0 <= i < |t.rows| ==>
      r.0.rows[i] == t.rows[i][StartDateOnly := ParsedCell(t.rows[i][StartDateOnly], conv.parseDate)]
        [EndDateOnly := ParsedCell(t.rows[i][EndDateOnly], conv.parseDate)]
        [StartTimeOnly := ParsedCell(t.rows[i][StartTimeOnly], conv.parseTime)]
        [EndTimeOnly := ParsedCell(t.rows[i][EndTimeOnly], conv.parseTime)]
    ensures r.1 == Done <==> ColumnsParse(t, conv)
  {
    var p1 := ParseColumn(t, StartDateOnly, conv.parseDate);
    if p1.Err? then (t, Failed(p1.error)) else
    var p2 := ParseColumn(p1.value, EndDateOnly, conv.parseDate);
    if p2.Err? then (p1.value, Failed(p2.error)) else
    var p3 := ParseColumn(p2.value, StartTimeOnly, conv.parseTime);
    if p3.Err? then (p2.value, Failed(p3.error)) else
    var p4 := ParseColumn(p3.value, EndTimeOnly, conv.parseTime);
    if p4.Err? then (p3.value, Failed(p4.error)) else
    (p4.value, Done)
  }

  /** The final cells of one row: the parsed date and time of each timestamp. */
  function DatetimeCells(row: Row, conv: Conversions): (r: (Cell, Cell, Cell, Cell))
    requires StartCol in row && EndCol in row
  {
    (ParsedCell(FieldCell(row[StartCol], 0), conv.parseDate),
     ParsedCell(FieldCell(row[StartCol], 1), conv.parseTime),
     ParsedCell(FieldCell(row[EndCol], 0), conv.parseDate),
     ParsedCell(FractionCell(FieldCell(row[EndCol], 1)), conv.parseTime))
  }

  /** The names the method reads, writes or drops. */
  const Involved: set<string> := {StartCol, EndCol, StartDateOnly, StartTimeOnly, EndDateOnly, EndTimeOnly, StartDate, EndDate}

  // ---------------------------------------------------------------------
  // Lemmas
  // ---------------------------------------------------------------------

  /** The date token is the text before the first space. */
  lemma DateToken(s: string)
    ensures FieldCell(Text(s), 0) == Text(Before(s, ' '))
  {
  }

  /** The time token is the text between the first and the second space, and
      there is none when the timestamp has no space. */
  lemma TimeToken(s: string)
    ensures ' ' in s ==> FieldCell(Text(s), 1) == Text(Before(After(s, ' '), ' '))
    ensures ' ' !in s ==> FieldCell(Text(s), 1) == Missing
  {
  }

  /** A timestamp built from a date, a space and a time splits back into them. */
  lemma SplitStamp(date: string, time: string)
    requires ' ' !in date && ' ' !in time
    ensures FieldCell(Text(date + " " + time), 0) == Text(date)
    ensures FieldCell(Text(date + " " + time), 1) == Text(time)
  {
    SplitJoin([date, time], ' ');
    assert Join([date, time], ' ') == date + " " + time;
  }

  /** Without line breaks, everything from the first `.` on is removed, so the
      result has no `.` left. */
  lemma {:induction false} DropFractionPlain(t: string)
    requires '\n' !in t
    ensures DropFraction(t) == Before(t, '.')
    ensures '.' !in DropFraction(t)
    decreases |t|
  {
    if t != [] && t[0] != '.' {
      DropFractionPlain(t[1..]);
    }
  }

  /** A text without `.` is left as it is. */
  lemma {:induction false} DropFractionNoDot(t: string)
    requires '.' !in t
    ensures DropFraction(t) == t
    decreases |t|
  {
    if t != [] {
      DropFractionNoDot(t[1..]);
    }
  }

  /** A line break after the first `.` that is not the last character keeps
      that `.`: ".5\nx" is left as it is. */
  lemma DropFractionBreak(t: string)
    requires t == ".5\nx"
    ensures DropFraction(t) == t
  {
    assert t[1..][1] == '\n';
    DropFractionNoDot(t[1..]);
  }

  /** A time with fractional seconds keeps only the whole seconds. */
  lemma FractionExample(t: string)
    requires t == "12:30:00.0"
    ensures DropFraction(t) == "12:30:00"
  {
    DropFractionPlain(t);
    assert t == "12:30:00" + "." + "0";
    BeforeJoin("12:30:00", "0", '.');
  }

  /** When every step succeeds, each row gets the parsed date and time of its
      start and end timestamps under the final names. */
  lemma ProcessDatetimeCells(t: Table, conv: Conversions, i: int)
    requires WellFormed(t) && ProcessDatetime(t, conv).1 == Done && 0 <= i < |t.rows|
    ensures var r := ProcessDatetime(t, conv).0.rows[i];
      (r[StartDate], r[StartCol], r[EndDate], r[EndCol]) == DatetimeCells(t.rows[i], conv)
  {
    var p := ParseAll(SplitColumns(t), conv);
    assert ProcessDatetime(t, conv).0 == Finish(p.0);
    ParsedRow(t, conv, i);
  }

  /** After a successful split and parse, row `i` holds the parsed date and
      time of each timestamp in the four new columns. */
  lemma ParsedRow(t: Table, conv: Conversions, i: int)
    requires WellFormed(t) && StartCol in t.columns && EndCol in t.columns && 0 <= i < |t.rows|
    requires ParseAll(SplitColumns(t), conv).1 == Done
    ensures var r := ParseAll(SplitColumns(t), conv).0.rows[i];
      (r[StartDateOnly], r[StartTimeOnly], r[EndDateOnly], r[EndTimeOnly]) == DatetimeCells(t.rows[i], conv)
  {
    var t5 := SplitColumns(t);
    var p4 := ParseAll(t5, conv).0;
    assert p4.rows[i][StartDateOnly] == ParsedCell(t5.rows[i][StartDateOnly], conv.parseDate);
    assert p4.rows[i][StartTimeOnly] == ParsedCell(t5.rows[i][StartTimeOnly], conv.parseTime);
    assert p4.rows[i][EndDateOnly] == ParsedCell(t5.rows[i][EndDateOnly], conv.parseDate);
    assert p4.rows[i][EndTimeOnly] == ParsedCell(t5.rows[i][EndTimeOnly], conv.parseTime);
  }

  /** When every step succeeds, every other column keeps its cells. */
  lemma ProcessDatetimeKeepsOthers(t: Table, conv: Conversions, i: int, c: string)
    requires WellFormed(t) && ProcessDatetime(t, conv).1 == Done && 0 <= i < |t.rows|
    requires c in t.columns && c !in Involved
    ensures ProcessDatetime(t, conv).0.rows[i][c] == t.rows[i][c]
  {
    var t5 := SplitColumns(t);
    var p4 := ParseAll(t5, conv).0;
    assert p4.rows[i][c] == t5.rows[i][c] == t.rows[i][c];
  }

  /** The split columns parse exactly when the tokens of the timestamps do. */
  lemma SplitColumnsParse(t: Table, conv: Conversions)
    requires WellFormed(t) && StartCol in t.columns && EndCol in t.columns
    ensures ColumnsParse(SplitColumns(t), conv) <==> StampsParse(t, conv)
  {
    var t5 := SplitColumns(t);
    forall i | 0 <= i < |t.rows|
      ensures t5.rows[i][StartDateOnly] == FieldCell(t.rows[i][StartCol], 0)
      ensures t5.rows[i][EndDateOnly] == FieldCell(t.rows[i][EndCol], 0)
      ensures t5.rows[i][StartTimeOnly] == FieldCell(t.rows[i][StartCol], 1)
      ensures t5.rows[i][EndTimeOnly] == FractionCell(FieldCell(t.rows[i][EndCol], 1))
    {
    }
  }

  /** The method succeeds exactly when both timestamp columns are present and
      every date and time token can be parsed. */
  lemma ProcessDatetimeSucceeds(t: Table, conv: Conversions)
    requires WellFormed(t)
    ensures ProcessDatetime(t, conv).1 == Done <==>
      StartCol in t.columns && EndCol in t.columns && StampsParse(t, conv)
  {
    if StartCol in t.columns && EndCol in t.columns {
      SplitColumnsParse(t, conv);
    }
  }
}
