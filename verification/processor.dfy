/** The `EVDataProcessor` object: the table it holds in `df` and the pipeline
    steps that rewrite it in place. Every step first checks that a table is
    loaded; a step that raises leaves `df` as far as it got. */
module Processor {
  import opened Tables
  import opened CategoryRules
  import opened Categorical
  import Missingness
  import Datetime
  import Features
  import Diagnostics

  class EVDataProcessor {
    /** `self.df`: no table until one is loaded. */
    var df: Option<Table>
    /** The library conversions the steps rely on. */
    const conv: Conversions

    ghost predicate Valid()
      reads this
    {
      df.Some? ==> WellFormed(df.value)
    }

    /** A processor with no table yet. */
    constructor(conv: Conversions)
      ensures Valid() && df.None? && this.conv == conv
    {
      this.conv := conv;
      df := None;
    }

    /** `load`, with the file already read into a table. */
    method Load(t: Table)
      requires WellFormed(t)
      modifies this
      ensures Valid() && df == Some(t)
    {
      df := Some(t);
    }

    /** `_ensure_df`: a ValueError as long as no table is loaded. */
    method EnsureDf() returns (st: Status)
      ensures st.Failed? <==> df.None?
      ensures st.Failed? ==> st.error == NotLoaded
    {
      if df.None? {
        st := Failed(NotLoaded);
      } else {
        st := Done;
      }
    }

    /** `_clean_categorical_column`: the column is cleaned cell by cell, or a
        KeyError is raised, before anything is written, when it is absent. */
    method CleanCategoricalColumn(rule: Rule) returns (st: Status)
      requires Valid() && df.Some?
      modifies this
      ensures Valid() && df.Some?
      ensures rule.column in old(df.value.columns) ==> st == Done && df.value == CleanColumn(old(df.value), rule, conv)
      ensures rule.column !in old(df.value.columns) ==> st == Failed(KeyError(rule.column)) && df == old(df)
    {
      var t := df.value;
      if rule.column !in t.columns {
        return Failed(KeyError(rule.column));
      }
      df := Some(CleanColumn(t, rule, conv));
      st := Done;
    }

    /** `clean_categoricals_auto`: the six columns in turn; the first absent
        one stops the step with the earlier ones cleaned. */
    method CleanCategoricalsAuto() returns (st: Status)
      requires Valid()
      modifies this
      ensures Valid()
      ensures old(df).None? ==> df.None? && st == Failed(NotLoaded)
      ensures old(df).Some? ==> df.Some? && (df.value, st) == CleanRules(old(df).value, Rules, conv)
    {
      st := EnsureDf();
      if st.Failed? {
        return;
      }
      ghost var goal := CleanRules(df.value, Rules, conv);
      st := CleanCategoricalColumn(VehicleRule);
      if st.Failed? {
        return;
      }
      assert goal == CleanRules(df.value, Rules[1..], conv);
      st := CleanCategoricalColumn(LocationRule);
      if st.Failed? {
        return;
      }
      assert goal == CleanRules(df.value, Rules[2..], conv);
      st := CleanCategoricalColumn(TimeRule);
      if st.Failed? {
        return;
      }
      assert goal == CleanRules(df.value, Rules[3..], conv);
      st := CleanCategoricalColumn(DayRule);
      if st.Failed? {
        return;
      }
      assert goal == CleanRules(df.value, Rules[4..], conv);
      st := CleanCategoricalColumn(ChargerRule);
      if st.Failed? {
        return;
      }
      assert goal == CleanRules(df.value, Rules[5..], conv);
      st := CleanCategoricalColumn(UserRule);
    }

    /** `handle_missing_and_dropna` without its printing: the number of rows
        whose key columns are all missing is returned, and the incomplete rows
        are dropped. */
    method HandleMissingAndDropna() returns (st: Status, allMissing: nat)
      requires Valid()
      modifies this
      ensures Valid()
      ensures old(df).None? ==> df.None? && st == Failed(NotLoaded)
      ensures old(df).Some? ==> match Missingness.HandleMissing(old(df).value)
        case Err(e) => df == old(df) && st == Failed(e)
        case Ok(p) => df == Some(p.1) && st == Done && allMissing == p.0
    {
      allMissing := 0;
      st := EnsureDf();
      if st.Failed? {
        return;
      }
      var t := df.value;
      var absent := Missingness.AbsentKey(t.columns, Missingness.KeyColumns);
      if absent.Some? {
        st := Failed(KeyError(absent.value));
        return;
      }
      allMissing := Missingness.AllMissingCount(t.rows);
      df := Some(Table(t.columns, Missingness.DropNa(t.rows)));
    }

    /** `process_datetime_columns`, statement by statement. */
    method ProcessDatetimeColumns() returns (st: Status)
      requires Valid()
      modifies this
      ensures Valid()
      ensures old(df).None? ==> df.None? && st == Failed(NotLoaded)
      ensures old(df).Some? ==> df.Some? && (df.value, st) == Datetime.ProcessDatetime(old(df).value, conv)
    {
      st := EnsureDf();
      if st.Failed? {
        return;
      }
      var t := df.value;
      if Datetime.StartCol !in t.columns {
        return Failed(KeyError(Datetime.StartCol));
      }
      df := Some(DeriveColumn(t, Datetime.StartCol, Datetime.StartDateOnly, Datetime.DateField));
      df := Some(DeriveColumn(df.value, Datetime.StartCol, Datetime.StartTimeOnly, Datetime.TimeField));
      if Datetime.EndCol !in t.columns {
        return Failed(KeyError(Datetime.EndCol));
      }
      df := Some(DeriveColumn(df.value, Datetime.EndCol, Datetime.EndDateOnly, Datetime.DateField));
      df := Some(DeriveColumn(df.value, Datetime.EndCol, Datetime.EndTimeOnly, Datetime.TimeField));
      df := Some(MapColumn(df.value, Datetime.EndTimeOnly, Datetime.FractionCell));
      var p := Datetime.ParseColumn(df.value, Datetime.StartDateOnly, conv.parseDate);
      if p.Err? {
        return Failed(p.error);
      }
      df := Some(p.value);
      p := Datetime.ParseColumn(df.value, Datetime.EndDateOnly, conv.parseDate);
      if p.Err? {
        return Failed(p.error);
      }
      df := Some(p.value);
      p := Datetime.ParseColumn(df.value, Datetime.StartTimeOnly, conv.parseTime);
      if p.Err? {
        return Failed(p.error);
      }
      df := Some(p.value);
      p := Datetime.ParseColumn(df.value, Datetime.EndTimeOnly, conv.parseTime);
      if p.Err? {
        return Failed(p.error);
      }
      df := Some(Datetime.Finish(p.value));
    }

    /** `clean_symbols_and_features` without its printing, statement by
        statement. */
    method CleanSymbolsAndFeatures() returns (st: Status)
      requires Valid()
      modifies this
      ensures Valid()
      ensures old(df).None? ==> df.None? && st == Failed(NotLoaded)
      ensures old(df).Some? ==> df.Some? && (df.value, st) == Features.CleanFeatures(old(df).value, conv)
    {
      st := EnsureDf();
      if st.Failed? {
        return;
      }
      var t := df.value;
      if Features.SocStart !in t.columns {
        return Failed(KeyError(Features.SocStart));
      }
      var c := Features.ToFloatColumn(t, Features.SocStart, '%', conv);
      if c.Err? {
        return Failed(c.error);
      }
      df := Some(c.value);
      if Features.SocEnd !in t.columns {
        return Failed(KeyError(Features.SocEnd));
      }
      c := Features.ToFloatColumn(df.value, Features.SocEnd, '%', conv);
      if c.Err? {
        return Failed(c.error);
      }
      df := Some(c.value);
      if Features.Cost !in t.columns {
        return Failed(KeyError(Features.Cost));
      }
      c := Features.ToFloatColumn(df.value, Features.Cost, '$', conv);
      if c.Err? {
        return Failed(c.error);
      }
      df := Some(c.value);
      if Features.StationId !in t.columns {
        return Failed(KeyError(Features.StationId));
      }
      df := Some(Features.StripStationIds(df.value, conv));
      df := Some(CombineColumns(df.value, Features.SocStart, Features.SocEnd, Features.Difference, Features.Subtract));
      if Features.Hours !in t.columns {
        return Failed(KeyError(Features.Hours));
      }
      df := Some(DeriveColumn(df.value, Features.Hours, Features.Minutes, Features.TimesSixty));
    }

    /** `check_duplicates` without its printing: how many rows equal another
        row. */
    method CheckDuplicates() returns (r: Result<nat>)
      requires Valid()
      ensures df.None? ==> r == Err(NotLoaded)
      ensures df.Some? ==> r == Ok(Diagnostics.DuplicateCount(df.value.rows))
    {
      var st := EnsureDf();
      if st.Failed? {
        return Err(st.error);
      }
      r := Ok(Diagnostics.DuplicateCount(df.value.rows));
    }

    /** `check_outliers_iqr` without its printing: the dictionary of outlier
        counts, filled one numeric column at a time. */
    method CheckOutliersIqr() returns (r: Result<map<string, nat>>)
      requires Valid()
      ensures df.None? ==> r == Err(NotLoaded)
      ensures df.Some? ==> r == Ok(Diagnostics.OutlierCounts(df.value, conv))
    {
      var st := EnsureDf();
      if st.Failed? {
        return Err(st.error);
      }
      var t := df.value;
      var numeric := Diagnostics.NumericColumns(t);
      var counts: map<string, nat> := map[];
      var todo := numeric;
      while todo != {}
        invariant todo <= numeric
        invariant counts.Keys == numeric - todo
        invariant forall c :: c in counts ==> counts[c] == Diagnostics.OutlierCount(t, c, conv)
        decreases |todo|
      {
        var column :| column in todo;
        var values := Diagnostics.Values(t.rows, column);
        var q1 := conv.quantile(values, 0.25);
        var q3 := conv.quantile(values, 0.75);
        var count := Diagnostics.CountOutliers(t.rows, column, q1, q3);
        assert count == Diagnostics.OutlierCount(t, column, conv);
        counts := counts[column := count];
        todo := todo - {column};
      }
      Diagnostics.OutlierCountsExt(t, conv, counts);
      r := Ok(counts);
    }
  }
}
