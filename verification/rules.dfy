/** The six categorical columns and their alias (typo) and canonical (display
    label) tables, and the design rules those tables obey. */
module CategoryRules {
  import opened Text
  import opened Tables
  import opened Normalizer

  /** One categorical column with the two tables `_clean_categorical_column`
      is called with: normalised typo -> normalised correct form, and
      normalised form -> display label. */
  datatype Rule = Rule(column: string, aliases: map<string, string>, canon: map<string, string>)

  const VehicleAliases: map<string, string> := map[
    "audi e-tro" := "audi e-tron",
    "tesla model" := "tesla model 3",
    "chevy bol" := "chevy bolt",
    "nissan lea" := "nissan leaf",
    "hyundai kon" := "hyundai kona"]

  const LocationAliases: map<string, string> := map[
    "los angele" := "los angeles",
    "new yor" := "new york",
    "san francisc" := "san francisco",
    "chicag" := "chicago",
    "seattl" := "seattle"]

  const TimeAliases: map<string, string> := map[
    "mornin" := "morning",
    "afternoo" := "afternoon",
    "evenin" := "evening",
    "nigh" := "night"]

  const DayAliases: map<string, string> := map[
    "monda" := "monday",
    "tuesda" := "tuesday",
    "wednesda" := "wednesday",
    "thursda" := "thursday",
    "frida" := "friday",
    "saturda" := "saturday",
    "sunda" := "sunday"]

  const ChargerAliases: map<string, string> := map[
    "dc fast charge" := "dc fast charger"]

  const UserAliases: map<string, string> := map[
    "commute" := "commuter",
    "long-distance travele" := "long distance traveler",
    "long-distance traveler" := "long distance traveler"]

  const VehicleCanon: map<string, string> := map[
    "tesla model 3" := "Tesla Model 3",
    "chevy bolt" := "Chevy Bolt",
    "nissan leaf" := "Nissan Leaf",
    "hyundai kona" := "Hyundai Kona",
    "audi e-tron" := "Audi e-Tron"]

  const LocationCanon: map<string, string> := map[
    "los angeles" := "Los Angeles",
    "new york" := "New York",
    "san francisco" := "San Francisco",
    "chicago" := "Chicago",
    "seattle" := "Seattle"]

  const TimeCanon: map<string, string> := map[
    "morning" := "Morning",
    "afternoon" := "Afternoon",
    "evening" := "Evening",
    "night" := "Night"]

  const DayCanon: map<string, string> := map[
    "monday" := "Monday",
    "tuesday" := "Tuesday",
    "wednesday" := "Wednesday",
    "thursday" := "Thursday",
    "friday" := "Friday",
    "saturday" := "Saturday",
    "sunday" := "Sunday"]

  /** "Level" is a label of its own, not a typo of "Level 1" or "Level 2". */
  const ChargerCanon: map<string, string> := map[
    "level 1" := "Level 1",
    "level 2" := "Level 2",
    "dc fast charger" := "Dc Fast Charger",
    "level" := "Level"]

  const UserCanon: map<string, string> := map[
    "commuter" := "Commuter",
    "long distance traveler" := "Long Distance Traveler"]

  const VehicleRule := Rule("VehicleModel", VehicleAliases, VehicleCanon)
  const LocationRule := Rule("ChargingStationLocation", LocationAliases, LocationCanon)
  const TimeRule := Rule("TimeOfDay", TimeAliases, TimeCanon)
  const DayRule := Rule("DayOfWeek", DayAliases, DayCanon)
  const ChargerRule := Rule("ChargerType", ChargerAliases, ChargerCanon)
  const UserRule := Rule("UserType", UserAliases, UserCanon)

  /** The columns `clean_categoricals_auto` cleans, in the order it cleans them. */
  const Rules: seq<Rule> := [VehicleRule, LocationRule, TimeRule, DayRule, ChargerRule, UserRule]

  // ---------------------------------------------------------------------
  // Design rules of the tables
  // ---------------------------------------------------------------------

  /** The characters the normalised forms in the tables are made of. */
  predicate WordChar(c: char) {
    'a' <= c <= 'z' || '0' <= c <= '9' || c == '-'
  }

  /** Words of `WordChar`s separated by single spaces. */
  predicate Phrase(k: string) {
    && k != [] && k[0] != ' ' && k[|k| - 1] != ' '
    && (forall i :: 0 <= i < |k| ==> WordChar(k[i]) || k[i] == ' ')
    && (forall i :: 0 <= i < |k| - 1 && k[i] == ' ' ==> k[i + 1] != ' ')
  }

  /** Every key of the table is a phrase other than "nan" and "unknown". */
  predicate PhraseKeys(m: map<string, string>) {
    && (forall k :: k in m ==> Phrase(k) && k != "nan")
    && "unknown" !in m
  }

  /** A string `_normalize_text` can return and whose `#` run is already gone,
      so that normalising it gives it back. */
  predicate Reachable(k: string) {
    IsNormalForm(k) && k != [] && k[|k| - 1] != '#' && k != "nan"
  }

  /** Every alias target is a key of the canonical table. */
  predicate TargetsCanonical(rule: Rule) {
    forall k :: k in rule.aliases ==> rule.aliases[k] in rule.canon
  }

  /** No string is both a typo and a correct form. */
  predicate KeysApart(rule: Rule) {
    forall k :: k in rule.aliases ==> k !in rule.canon
  }

  /** Every label lower-cases to its own key. */
  predicate LabelsLower(rule: Rule) {
    forall k :: k in rule.canon ==> LowersTo(rule.canon[k], k)
  }

  predicate WellDesigned(rule: Rule) {
    && TargetsCanonical(rule) && KeysApart(rule) && LabelsLower(rule)
    && PhraseKeys(rule.aliases) && PhraseKeys(rule.canon)
  }

  // ---------------------------------------------------------------------
  // Consequences of the design rules
  // ---------------------------------------------------------------------

  /** A phrase other than "nan" is a fixed point of `_normalize_text`. */
  lemma PhraseReachable(k: string)
    requires Phrase(k) && k != "nan"
    ensures Reachable(k)
  {
    assert NoUpper(k) by {
      forall i | 0 <= i < |k| ensures !IsUpper(k[i]) {
        assert WordChar(k[i]) || k[i] == ' ';
      }
    }
    assert forall i :: 0 <= i < |k| ==> (IsSpace(k[i]) <==> k[i] == ' ');
  }

  /** Every key of a well-designed rule is a fixed point of `_normalize_text`. */
  lemma KeyReachable(rule: Rule, k: string)
    requires WellDesigned(rule) && (k in rule.aliases || k in rule.canon)
    ensures Reachable(k)
    ensures NormalizeText(Some(k)) == Some(k)
  {
    PhraseReachable(k);
    NormalizeFixesNormalForms(k);
  }

  /** A label whose lower-case form is a phrase is tidy: lower-casing changes
      letters only, so the label has the phrase's spaces and ends in no `#`. */
  lemma LabelTidy(v: string, k: string)
    requires LowersTo(v, k) && Phrase(k)
    ensures Trimmed(v) && OnlyPlainSpaces(v) && NoDoubleSpace(v)
    ensures v != [] && v[|v| - 1] != '#'
  {
    assert forall i :: 0 <= i < |v| ==> (IsSpace(v[i]) <==> k[i] == ' ') && (IsSpace(v[i]) ==> v[i] == ' ') by {
      forall i | 0 <= i < |v| ensures (IsSpace(v[i]) <==> k[i] == ' ') && (IsSpace(v[i]) ==> v[i] == ' ') {
        assert ToLower(v[i]) == k[i];
      }
    }
    assert ToLower(v[|v| - 1]) == k[|k| - 1];
  }

  /** Normalising a label of a well-designed rule gives back its key, which is
      how cleaning an already clean column finds the same label again. */
  lemma NormalizeLabel(rule: Rule, k: string)
    requires WellDesigned(rule) && k in rule.canon
    ensures NormalizeText(Some(rule.canon[k])) == Some(k)
  {
    var v := rule.canon[k];
    LabelTidy(v, k);
    LowerOfLowersTo(v, k);
    NormalizeTidy(v);
  }

  /** Aliases never chain: an alias target is not itself a typo, so applying the
      alias table once (as `Series.replace` does) is the same as applying it
      until nothing changes. */
  lemma AliasesDoNotChain(rule: Rule, k: string)
    requires TargetsCanonical(rule) && KeysApart(rule) && k in rule.aliases
    ensures rule.aliases[k] !in rule.aliases
  {
  }

  /** No label is "unknown" or "Unknown", so a recognised value is never turned
      into missing by the last step of the cleaning. */
  lemma LabelNotUnknown(rule: Rule, k: string)
    requires WellDesigned(rule) && k in rule.canon
    ensures rule.canon[k] != "unknown" && rule.canon[k] != "Unknown"
  {
    UnknownLowers(rule.canon[k], k);
  }

  lemma UnknownLowers(v: string, k: string)
    requires LowersTo(v, k)
    ensures v == "unknown" || v == "Unknown" ==> k == "unknown"
  {
    if v == "unknown" || v == "Unknown" {
      assert forall i :: 0 <= i < |v| ==> k[i] == "unknown"[i];
    }
  }

  // ---------------------------------------------------------------------
  // The six rules obey the design rules (one table at a time: the solver
  // checks literal tables much faster in separate contexts)
  // ---------------------------------------------------------------------

  lemma VehicleAliasKeys()
    ensures forall k :: k in VehicleAliases ==> Phrase(k) && k != "nan"
    ensures "unknown" !in VehicleAliases
  {
  }

  lemma VehicleCanonKeys()
    ensures forall k :: k in VehicleCanon ==> Phrase(k) && k != "nan"
    ensures "unknown" !in VehicleCanon
  {
  }

  lemma VehicleLabels()
    ensures forall k :: k in VehicleCanon ==> LowersTo(VehicleCanon[k], k)
  {
  }

  lemma VehicleTargets()
    ensures TargetsCanonical(VehicleRule)
  {
  }

  lemma VehicleApart()
    ensures KeysApart(VehicleRule)
  {
  }

  lemma VehicleWellDesigned()
    ensures WellDesigned(VehicleRule)
  {
    assert PhraseKeys(VehicleAliases) by { VehicleAliasKeys(); }
    assert PhraseKeys(VehicleCanon) by { VehicleCanonKeys(); }
    assert LabelsLower(VehicleRule) by { VehicleLabels(); }
    VehicleTargets();
    VehicleApart();
  }

  lemma LocationAliasKeys()
    ensures forall k :: k in LocationAliases ==> Phrase(k) && k != "nan"
    ensures "unknown" !in LocationAliases
  {
  }

  lemma LocationCanonKeys()
    ensures forall k :: k in LocationCanon ==> Phrase(k) && k != "nan"
    ensures "unknown" !in LocationCanon
  {
  }

  lemma LocationLabels()
    ensures forall k :: k in LocationCanon ==> LowersTo(LocationCanon[k], k)
  {
  }

  lemma LocationTargets()
    ensures TargetsCanonical(LocationRule)
  {
  }

  lemma LocationApart()
    ensures KeysApart(LocationRule)
  {
  }

  lemma LocationWellDesigned()
    ensures WellDesigned(LocationRule)
  {
    assert PhraseKeys(LocationAliases) by { LocationAliasKeys(); }
    assert PhraseKeys(LocationCanon) by { LocationCanonKeys(); }
    assert LabelsLower(LocationRule) by { LocationLabels(); }
    LocationTargets();
    LocationApart();
  }

  lemma TimeAliasKeys()
    ensures forall k :: k in TimeAliases ==> Phrase(k) && k != "nan"
    ensures "unknown" !in TimeAliases
  {
  }

  lemma TimeCanonKeys()
    ensures forall k :: k in TimeCanon ==> Phrase(k) && k != "nan"
    ensures "unknown" !in TimeCanon
  {
  }

  lemma TimeLabels()
    ensures forall k :: k in TimeCanon ==> LowersTo(TimeCanon[k], k)
  {
  }

  lemma TimeTargets()
    ensures TargetsCanonical(TimeRule)
  {
  }

  lemma TimeApart()
    ensures KeysApart(TimeRule)
  {
  }

  lemma TimeWellDesigned()
    ensures WellDesigned(TimeRule)
  {
    assert PhraseKeys(TimeAliases) by { TimeAliasKeys(); }
    assert PhraseKeys(TimeCanon) by { TimeCanonKeys(); }
    assert LabelsLower(TimeRule) by { TimeLabels(); }
    TimeTargets();
    TimeApart();
  }

  lemma DayAliasKeys()
    ensures forall k :: k in DayAliases ==> Phrase(k) && k != "nan"
    ensures "unknown" !in DayAliases
  {
  }

  lemma DayCanonKeys()
    ensures forall k :: k in DayCanon ==> Phrase(k) && k != "nan"
    ensures "unknown" !in DayCanon
  {
  }

  lemma DayLabels()
    ensures forall k :: k in DayCanon ==> LowersTo(DayCanon[k], k)
  {
  }

  lemma DayTargets()
    ensures TargetsCanonical(DayRule)
  {
  }

  lemma DayApart()
    ensures KeysApart(DayRule)
  {
  }

  lemma DayWellDesigned()
    ensures WellDesigned(DayRule)
  {
    assert PhraseKeys(DayAliases) by { DayAliasKeys(); }
    assert PhraseKeys(DayCanon) by { DayCanonKeys(); }
    assert LabelsLower(DayRule) by { DayLabels(); }
    DayTargets();
    DayApart();
  }

  lemma ChargerAliasKeys()
    ensures forall k :: k in ChargerAliases ==> Phrase(k) && k != "nan"
    ensures "unknown" !in ChargerAliases
  {
  }

  lemma ChargerCanonKeys()
    ensures forall k :: k in ChargerCanon ==> Phrase(k) && k != "nan"
    ensures "unknown" !in ChargerCanon
  {
  }

  lemma ChargerLabels()
    ensures forall k :: k in ChargerCanon ==> LowersTo(ChargerCanon[k], k)
  {
  }

  lemma ChargerTargets()
    ensures TargetsCanonical(ChargerRule)
  {
  }

  lemma ChargerApart()
    ensures KeysApart(ChargerRule)
  {
  }

  lemma ChargerWellDesigned()
    ensures WellDesigned(ChargerRule)
  {
    assert PhraseKeys(ChargerAliases) by { ChargerAliasKeys(); }
    assert PhraseKeys(ChargerCanon) by { ChargerCanonKeys(); }
    assert LabelsLower(ChargerRule) by { ChargerLabels(); }
    ChargerTargets();
    ChargerApart();
  }

  lemma UserAliasKeys()
    ensures forall k :: k in UserAliases ==> Phrase(k) && k != "nan"
    ensures "unknown" !in UserAliases
  {
  }

  lemma UserCanonKeys()
    ensures forall k :: k in UserCanon ==> Phrase(k) && k != "nan"
    ensures "unknown" !in UserCanon
  {
    assert Phrase("long distance traveler");
  }

  lemma UserLabels()
    ensures forall k :: k in UserCanon ==> LowersTo(UserCanon[k], k)
  {
  }

  lemma UserTargets()
    ensures TargetsCanonical(UserRule)
  {
  }

  lemma UserApart()
    ensures KeysApart(UserRule)
  {
  }

  lemma UserWellDesigned()
    ensures WellDesigned(UserRule)
  {
    assert PhraseKeys(UserAliases) by { UserAliasKeys(); }
    assert PhraseKeys(UserCanon) by { UserCanonKeys(); }
    assert LabelsLower(UserRule) by { UserLabels(); }
    UserTargets();
    UserApart();
  }

  /** Each rule cleans a different column. */
  lemma RulesDistinct()
    ensures forall i, j :: 0 <= i < j < |Rules| ==> Rules[i].column != Rules[j].column
  {
  }

  /** All six rules are well designed. */
  lemma RulesWellDesigned()
    ensures forall i :: 0 <= i < |Rules| ==> WellDesigned(Rules[i])
  {
    VehicleWellDesigned();
    LocationWellDesigned();
    TimeWellDesigned();
    DayWellDesigned();
    ChargerWellDesigned();
    UserWellDesigned();
  }
}
