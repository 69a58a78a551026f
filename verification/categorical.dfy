/** `_clean_categorical_column` and the six-column run of `clean_categoricals_auto`,
    as functions on tables. */
module Categorical {
  import opened Tables
  import opened Text
  import opened Normalizer
  import opened CategoryRules

  /** The value `_normalize_text` receives for a cell once the column has been
      through `fillna("Unknown")`: a string as it is, a number through `str()`. */
  function FilledText(c: Cell, conv: Conversions): (r: string)
    ensures c.Missing? ==> r == "Unknown"
  {
    match c
    case Missing => "Unknown"
    case Text(s) => s
    case Num(x) => conv.show(x)
  }

  /** The last three steps of `_clean_categorical_column` on a normalised
      value: alias, canonical label, and "unknown"/"Unknown" back to missing. */
  function Relabel(rule: Rule, n: Option<string>): (r: Cell)
    ensures !r.Num?
    ensures r.Text? ==> r.s != "unknown" && r.s != "Unknown"
  {
    match Lookup(rule.canon, Lookup(rule.aliases, n))
    case None => Missing
    case Some(v) => if v == "unknown" || v == "Unknown" then Missing else Text(v)
  }

  /** One cell of `_clean_categorical_column`. */
  function CleanCell(rule: Rule, conv: Conversions, c: Cell): (r: Cell)
    ensures !r.Num?
    ensures r.Text? ==> r.s != "unknown" && r.s != "Unknown"
    ensures NormalizeText(Some(FilledText(c, conv))).None? ==> r.Missing?
  {
    Relabel(rule, NormalizeText(Some(FilledText(c, conv))))
  }

  /** What cleaning a cell does, case by case on the normalised value: a typo
      becomes the label of its correction, a correct form its label, "unknown"
      (a filled-in missing value) and a missing value become missing, and any
      other value is kept in its normalised form. */
  function CleanedForm(rule: Rule, n: Option<string>): Cell
    requires TargetsCanonical(rule)
  {
    match n
    case None => Missing
    case Some(v) =>
      if v in rule.aliases then Text(rule.canon[rule.aliases[v]])
      else if v in rule.canon then Text(rule.canon[v])
      else if v == "unknown" then Missing
      else Text(v)
  }

  /** `_clean_categorical_column` on an existing column. */
  function CleanColumn(t: Table, rule: Rule, conv: Conversions): (r: Table)
    requires WellFormed(t) && rule.column in t.columns
    ensures WellFormed(r) && r.columns == t.columns && |r.rows| == |t.rows|
    ensures forall i :: 0 <= i < |t.rows| ==>
      r.rows[i][rule.column] == CleanCell(rule, conv, t.rows[i][rule.column])
    ensures forall i, col :: 0 <= i < |t.rows| && col in t.columns && col != rule.column ==>
      r.rows[i][col] == t.rows[i][col]
  {
    MapColumn(t, rule.column, c => CleanCell(rule, conv, c))
  }

  /** The index of the first rule whose column is absent, or the number of
      rules when all are present. */
  function FirstAbsent(rules: seq<Rule>, columns: set<string>): (j: nat)
    ensures j <= |rules|
    ensures forall j' :: 0 <= j' < j ==> rules[j'].column in columns
    ensures j < |rules| ==> rules[j].column !in columns
  {
    if rules == [] || rules[0].column !in columns then 0
    else 1 + FirstAbsent(rules[1..], columns)
  }

  /** The rules' columns, cleaned one after the other; `self.df[col]` raises a
      KeyError at the first absent column, after the columns before it have
      been cleaned. */
  function CleanRules(t: Table, rules: seq<Rule>, conv: Conversions): (r: (Table, Status))
    requires WellFormed(t)
    ensures WellFormed(r.0) && r.0.columns == t.columns && |r.0.rows| == |t.rows|
    ensures var j := FirstAbsent(rules, t.columns);
      r.1 == if j == |rules| then Done else Failed(KeyError(rules[j].column))
    ensures forall i, col :: 0 <= i < |t.rows| && col in t.columns && Untouched(rules, col) ==>
      r.0.rows[i][col] == t.rows[i][col]
    decreases |rules|
  {
    if rules == [] then (t, Done)
    else if rules[0].column !in t.columns then (t, Failed(KeyError(rules[0].column)))
    else
      var r := CleanRules(CleanColumn(t, rules[0], conv), rules[1..], conv);
      assert forall col :: Untouched(rules, col) ==> Untouched(rules[1..], col) && col != rules[0].column by {
        forall col | Untouched(rules, col) ensures Untouched(rules[1..], col) {
          assert forall j :: 0 <= j < |rules| - 1 ==> rules[1..][j] == rules[j + 1];
        }
      }
      r
  }

  /** No rule cleans column `col`. */
  predicate Untouched(rules: seq<Rule>, col: string) {
    forall j :: 0 <= j < |rules| ==> rules[j].column != col
  }

  /** Rules that clean different columns. */
  predicate DistinctColumns(rules: seq<Rule>) {
    forall j, k :: 0 <= j < k < |rules| ==> rules[j].column != rules[k].column
  }

  // ---------------------------------------------------------------------
  // Lemmas
  // ---------------------------------------------------------------------

  lemma TidyUnknown(v: string)
    requires v == "Unknown"
    ensures Trimmed(v) && OnlyPlainSpaces(v) && NoDoubleSpace(v) && v[|v| - 1] != '#'
    ensures LowersTo(v, "unknown")
  {
  }

  /** The filler of a missing cell normalises to "unknown". */
  lemma NormalizeUnknown()
    ensures NormalizeText(Some("Unknown")) == Some("unknown")
  {
    TidyUnknown("Unknown");
    LowerOfLowersTo("Unknown", "unknown");
    NormalizeTidy("Unknown");
  }

  /** Relabelling a lower-case value is `CleanedForm` of it. */
  lemma RelabelCases(rule: Rule, n: Option<string>)
    requires WellDesigned(rule)
    requires n.Some? ==> NoUpper(n.value)
    ensures Relabel(rule, n) == CleanedForm(rule, n)
  {
    if n.Some? {
      var v := n.value;
      if v in rule.aliases {
        LabelNotUnknown(rule, rule.aliases[v]);
      } else if v in rule.canon {
        LabelNotUnknown(rule, v);
      } else {
        assert v != "Unknown" by {
          assert IsUpper("Unknown"[0]);
        }
      }
    }
  }

  /** Cleaning a cell is `CleanedForm` of its normalised value. */
  lemma CleanCellCases(rule: Rule, conv: Conversions, c: Cell)
    requires WellDesigned(rule)
    ensures CleanCell(rule, conv, c) == CleanedForm(rule, NormalizeText(Some(FilledText(c, conv))))
  {
    RelabelCases(rule, NormalizeText(Some(FilledText(c, conv))));
  }

  /** A missing cell ends missing. */
  lemma CleanKeepsMissing(rule: Rule, conv: Conversions)
    requires WellDesigned(rule)
    ensures CleanCell(rule, conv, Missing) == Missing
  {
    NormalizeUnknown();
    CleanCellCases(rule, conv, Missing);
  }

  /** A cell ends missing exactly when it normalises to missing or to "unknown". */
  lemma CleanMissingIff(rule: Rule, conv: Conversions, c: Cell)
    requires WellDesigned(rule)
    ensures CleanCell(rule, conv, c).Missing? <==>
      NormalizeText(Some(FilledText(c, conv))) in {None, Some("unknown")}
  {
    var n := NormalizeText(Some(FilledText(c, conv)));
    CleanCellCases(rule, conv, c);
    CleanedMissingIff(rule, n);
  }

  /** The case split ends missing exactly on a missing value and on "unknown". */
  lemma CleanedMissingIff(rule: Rule, n: Option<string>)
    requires WellDesigned(rule)
    ensures CleanedForm(rule, n).Missing? <==> n == None || n == Some("unknown")
  {
    assert "unknown" !in rule.aliases && "unknown" !in rule.canon;
  }

  /** Missing, a label of the canonical table, or a normalised value that is
      neither a typo, a correct form nor "unknown". */
  predicate Settled(rule: Rule, c: Cell) {
    || c.Missing?
    || (c.Text? && c.s in rule.canon.Values)
    || (c.Text? && IsNormalForm(c.s) && c.s != "unknown" && c.s !in rule.aliases && c.s !in rule.canon)
  }

  /** A cell `_normalize_text` gives back as it is: missing, or a value that
      does not end in `#` and is not "nan" (the empty string included). */
  predicate Kept(c: Cell) {
    c.Missing? || (c.Text? && (c.s == [] || c.s[|c.s| - 1] != '#') && c.s != "nan")
  }

  /** A cleaned cell is missing, a label of the canonical table, or a
      normalised value that is neither a typo nor a correct form. */
  lemma CleanCellShape(rule: Rule, conv: Conversions, c: Cell)
    requires WellDesigned(rule)
    ensures Settled(rule, CleanCell(rule, conv, c))
  {
    var n := NormalizeText(Some(FilledText(c, conv)));
    CleanCellCases(rule, conv, c);
    CleanedSettled(rule, n);
  }

  lemma CleanedSettled(rule: Rule, n: Option<string>)
    requires WellDesigned(rule) && (n.Some? ==> IsNormalForm(n.value))
    ensures Settled(rule, CleanedForm(rule, n))
  {
    if n.Some? && n.value in rule.aliases {
      assert rule.aliases[n.value] in rule.canon;
    }
  }

  /** Every typo in the alias table is repaired: a cell that normalises to an
      alias key ends as the label of that key's correction. */
  lemma CleanRepairsTypo(rule: Rule, conv: Conversions, c: Cell, k: string)
    requires WellDesigned(rule) && k in rule.aliases
    requires NormalizeText(Some(FilledText(c, conv))) == Some(k)
    ensures CleanCell(rule, conv, c) == Text(rule.canon[rule.aliases[k]])
  {
    CleanCellCases(rule, conv, c);
  }

  /** A label is cleaned to itself. */
  lemma CleanKeepsLabel(rule: Rule, conv: Conversions, k: string)
    requires WellDesigned(rule) && k in rule.canon
    ensures CleanCell(rule, conv, Text(rule.canon[k])) == Text(rule.canon[k])
  {
    NormalizeLabel(rule, k);
    CleanCellCases(rule, conv, Text(rule.canon[k]));
  }

  /** Cleaning a cleaned cell changes nothing, except for a kept value that
      still ends in `#` or is "nan": `_normalize_text` removes one more `#` run
      from the first and turns the second into missing. */
  lemma CleanTwice(rule: Rule, conv: Conversions, c: Cell)
    requires WellDesigned(rule)
    ensures var r := CleanCell(rule, conv, c); Kept(r) ==> CleanCell(rule, conv, r) == r
  {
    var r := CleanCell(rule, conv, c);
    CleanCellShape(rule, conv, c);
    if Kept(r) {
      CleanCellFixed(rule, conv, r);
    }
  }

  /** A normal form that the tables do not mention, does not end in `#` and is
      neither "nan" nor "unknown" is cleaned to itself. */
  lemma CleanKeepsPlain(rule: Rule, conv: Conversions, v: string)
    requires WellDesigned(rule) && IsNormalForm(v)
    requires (v == [] || v[|v| - 1] != '#') && v != "nan" && v != "unknown"
    requires v !in rule.aliases && v !in rule.canon
    ensures CleanCell(rule, conv, Text(v)) == Text(v)
  {
    assert FilledText(Text(v), conv) == v;
    NormalizeFixesNormalForms(v);
    CleanedPlain(rule, v);
    CleanCellCases(rule, conv, Text(v));
  }

  lemma CleanedPlain(rule: Rule, v: string)
    requires TargetsCanonical(rule) && v !in rule.aliases && v !in rule.canon && v != "unknown"
    ensures CleanedForm(rule, Some(v)) == Text(v)
  {
  }

  /** A blank cell, all whitespace, is cleaned to the empty string, which
      `Kept` admits: cleaning it again keeps it (`CleanTwice`). */
  lemma CleanBlankCell(rule: Rule, conv: Conversions, raw: string)
    requires WellDesigned(rule) && AllSpace(raw)
    ensures CleanCell(rule, conv, Text(raw)) == Text("")
    ensures Kept(Text(""))
  {
    assert Strip(raw) == [];
    assert FilledText(Text(raw), conv) == raw;
    assert NormalizeText(Some(raw)) == Some([]);
    assert CleanedForm(rule, Some([])) == Text([]);
    CleanCellCases(rule, conv, Text(raw));
  }

  /** A missing cell, a label, and a normal form the tables do not mention
      that survives `_normalize_text` unchanged are cleaned to themselves. */
  lemma CleanCellFixed(rule: Rule, conv: Conversions, c: Cell)
    requires WellDesigned(rule)
    requires Settled(rule, c)
    requires c.Text? && c.s !in rule.canon.Values ==> Kept(c)
    ensures CleanCell(rule, conv, c) == c
  {
    if c.Missing? {
      CleanKeepsMissing(rule, conv);
    } else if c.s in rule.canon.Values {
      var k :| k in rule.canon && rule.canon[k] == c.s;
      CleanKeepsLabel(rule, conv, k);
    } else {
      CleanKeepsPlain(rule, conv, c.s);
    }
  }

  /** Cleaning a column whose cells are all missing or labels leaves it as it is. */
  lemma CleanColumnTwice(t: Table, rule: Rule, conv: Conversions)
    requires WellFormed(t) && rule.column in t.columns && WellDesigned(rule)
    requires forall i :: 0 <= i < |t.rows| ==>
      t.rows[i][rule.column].Missing? || (t.rows[i][rule.column].Text? && t.rows[i][rule.column].s in rule.canon.Values)
    ensures CleanColumn(t, rule, conv) == t
  {
    var r := CleanColumn(t, rule, conv);
    forall i | 0 <= i < |t.rows|
      ensures r.rows[i] == t.rows[i]
    {
      var c := t.rows[i][rule.column];
      assert Settled(rule, c);
      CleanCellFixed(rule, conv, c);
      assert r.rows[i].Keys == t.rows[i].Keys;
    }
    assert r.rows == t.rows;
  }

  /** After the rules' columns are all cleaned, each holds the cleaned form of
      its old cells. */
  lemma {:induction false} CleanRulesCells(t: Table, rules: seq<Rule>, conv: Conversions)
    requires WellFormed(t) && DistinctColumns(rules) && CleanRules(t, rules, conv).1 == Done
    ensures forall i, j :: 0 <= i < |t.rows| && 0 <= j < |rules| ==>
      CleanRules(t, rules, conv).0.rows[i][rules[j].column] == CleanCell(rules[j], conv, t.rows[i][rules[j].column])
    decreases |rules|
  {
    if rules != [] {
      var t1 := CleanColumn(t, rules[0], conv);
      var tail := rules[1..];
      CleanRulesCells(t1, tail, conv);
      var r := CleanRules(t, rules, conv).0;
      assert r == CleanRules(t1, tail, conv).0;
      forall i, j | 0 <= i < |t.rows| && 0 <= j < |rules|
        ensures r.rows[i][rules[j].column] == CleanCell(rules[j], conv, t.rows[i][rules[j].column])
      {
        if j == 0 {
          assert Untouched(tail, rules[0].column) by {
            forall j' | 0 <= j' < |tail| ensures tail[j'].column != rules[0].column {
              assert tail[j'] == rules[j' + 1];
            }
          }
        } else {
          assert tail[j - 1] == rules[j];
          assert t1.rows[i][rules[j].column] == t.rows[i][rules[j].column];
        }
      }
    }
  }

  // ---------------------------------------------------------------------
  // The documented example
  // ---------------------------------------------------------------------

  lemma VehicleTypoEntry(k: string)
    requires k == "audi e-tro"
    ensures k in VehicleAliases && VehicleAliases[k] == "audi e-tron"
    ensures VehicleCanon[VehicleAliases[k]] == "Audi e-Tron"
  {
  }

  /** "Audi E-Tro  " in the vehicle column is cleaned to "Audi e-Tron". */
  lemma CleanVehicleExample(conv: Conversions, raw: string)
    requires raw == "Audi E-Tro  "
    ensures CleanCell(VehicleRule, conv, Text(raw)) == Text("Audi e-Tron")
  {
    var k := "audi e-tro";
    VehicleWellDesigned();
    NormalizePaddedExample(raw);
    VehicleTypoEntry(k);
    CleanRepairsTypo(VehicleRule, conv, Text(raw), k);
  }

  lemma VehicleNotKey(v: string)
    requires v == "nan"
    ensures v !in VehicleAliases && v !in VehicleCanon && v != "unknown"
  {
  }

  /** Cleaning a column twice can differ from cleaning it once: "nan#" is kept
      as "nan", which a second cleaning turns into missing. */
  lemma CleanVehicleNotIdempotent(conv: Conversions, raw: string, once: string)
    requires raw == "nan#" && once == "nan"
    ensures CleanCell(VehicleRule, conv, Text(raw)) == Text(once)
    ensures CleanCell(VehicleRule, conv, Text(once)) == Missing
  {
    VehicleWellDesigned();
    NormalizeNanHashExample(raw);
    VehicleNotKey(once);
    CleanCellCases(VehicleRule, conv, Text(raw));
    StripUnpadded(once);
    LowerNoUpper(once);
  }
}
