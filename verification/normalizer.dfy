/** The three stages that clean one categorical cell: `_normalize_text`,
    `_apply_aliases` and `_to_canonical`. */
module Normalizer {
  import opened Tables
  import opened Text

  /** The shape of every string `_normalize_text` returns: lower case, no
      leading or trailing whitespace, whitespace only as single plain spaces. */
  predicate IsNormalForm(v: string) {
    NoUpper(v) && Trimmed(v) && OnlyPlainSpaces(v) && NoDoubleSpace(v)
  }

  /** `_normalize_text`. `None` stands for both Python's None and a float NaN.
      A present value is stripped and lower-cased; "nan" (pandas' spelling of a
      missing value) becomes missing; otherwise the trailing run of `#` is
      removed, the text is stripped again and whitespace runs become one space. */
  function NormalizeText(x: Option<string>): (r: Option<string>)
    ensures r.None? <==> x.None? || Lower(Strip(x.value)) == "nan"
    ensures r.Some? ==> IsNormalForm(r.value)
  {
    match x
    case None => None
    case Some(raw) =>
      var s := Lower(Strip(raw));
      if s == "nan" then None
      else
        NormalizedShape(s);
        Some(Collapse(Strip(DropTrailingHashes(s))))
  }

  /** Cutting the trailing hashes, stripping and collapsing a lower-case
      string leaves a normal form. */
  lemma NormalizedShape(s: string)
    requires NoUpper(s)
    ensures IsNormalForm(Collapse(Strip(DropTrailingHashes(s))))
  {
    var d := DropTrailingHashes(s);
    assert NoUpper(d) by {
      forall i | 0 <= i < |d|
        ensures !IsUpper(d[i])
      {
        assert d[i] == s[i];
      }
    }
    var t := Strip(d);
    assert NoUpper(t) by {
      forall i | 0 <= i < |t|
        ensures !IsUpper(t[i])
      {
        assert t[i] in d;
      }
    }
    CollapseNoUpper(t);
    CollapseSpaces(t);
    var r := Collapse(t);
    assert Trimmed(r) by {
      if t != [] {
        assert !IsSpace(r[0]) && !IsSpace(r[|r| - 1]);
      }
    }
  }

  /** `_apply_aliases` (`Series.replace(aliases)`) and `_to_canonical`
      (`canon.get(v, v)`) on one cell: a key of the table is replaced by its
      entry, any other value and a missing value are kept. */
  function Lookup(table: map<string, string>, v: Option<string>): (r: Option<string>)
    ensures v.Some? && v.value in table ==> r == Some(table[v.value])
    ensures v.None? || v.value !in table ==> r == v
    ensures r.None? <==> v.None?
    ensures r.Some? ==> r.value == v.value || r.value in table.Values
  {
    if v.Some? && v.value in table then Some(table[v.value]) else v
  }

  // ---------------------------------------------------------------------
  // Lemmas
  // ---------------------------------------------------------------------

  /** Normalising a label that is already trimmed and single-spaced and does not
      end in `#` only lower-cases it (unless it lower-cases to "nan"). */
  lemma NormalizeTidy(v: string)
    requires Trimmed(v) && OnlyPlainSpaces(v) && NoDoubleSpace(v)
    requires v == [] || v[|v| - 1] != '#'
    requires Lower(v) != "nan"
    ensures NormalizeText(Some(v)) == Some(Lower(v))
  {
    StripTrimmed(v);
    var s := Lower(v);
    LowerKeepsShape(v);
    DropTrailingHashesNone(s);
    StripTrimmed(s);
    CollapseSingleSpaced(s);
  }

  /** Every normal form that does not end in `#` and is not "nan" is a fixed
      point of `_normalize_text`. */
  lemma NormalizeFixesNormalForms(v: string)
    requires IsNormalForm(v)
    requires v == [] || v[|v| - 1] != '#'
    requires v != "nan"
    ensures NormalizeText(Some(v)) == Some(v)
  {
    LowerNoUpper(v);
    NormalizeTidy(v);
  }

  /** `_normalize_text` keeps every character that is not whitespace, lower-cased,
      except for the trailing run of `#`: the words of the result are the words
      of the lower-cased, stripped input with that run cut off. */
  lemma NormalizeKeepsWords(raw: string)
    requires NormalizeText(Some(raw)).Some?
    ensures NonSpace(NormalizeText(Some(raw)).value) == NonSpace(DropTrailingHashes(Lower(Strip(raw))))
  {
    var d := DropTrailingHashes(Lower(Strip(raw)));
    CollapseKeepsText(Strip(d));
    StripKeepsText(d);
  }

  /** Stripping only removes whitespace. */
  lemma {:induction false} StripKeepsText(s: string)
    ensures NonSpace(Strip(s)) == NonSpace(s)
  {
    NonSpaceTrimStart(s);
    NonSpaceTrimEnd(TrimStart(s));
  }

  lemma {:induction false} NonSpaceTrimEnd(s: string)
    ensures NonSpace(TrimEnd(s)) == NonSpace(s)
    decreases |s|
  {
    if s != [] && IsSpace(s[|s| - 1]) {
      var init := s[..|s| - 1];
      NonSpaceTrimEnd(init);
      NonSpaceAppend(init, [s[|s| - 1]]);
      assert init + [s[|s| - 1]] == s;
    }
  }

  lemma {:induction false} NonSpaceAppend(a: string, b: string)
    ensures NonSpace(a + b) == NonSpace(a) + NonSpace(b)
    decreases |a|
  {
    if a == [] {
      assert a + b == b;
    } else {
      NonSpaceAppend(a[1..], b);
      assert (a + b)[1..] == a[1..] + b;
    }
  }

  /** Only an unfolding step, not a property: `NormalizeText` written out
      stage by stage, for the concrete cases below to compute with. */
  lemma NormalizeStages(raw: string, s: string, t: string)
    requires Lower(Strip(raw)) == s && s != "nan"
    requires Strip(DropTrailingHashes(s)) == t
    ensures NormalizeText(Some(raw)) == Some(Collapse(t))
  {
  }

  /** A value whose stripped form is tidy normalises to that form, lower-cased. */
  lemma NormalizeTidyAfterStrip(raw: string, v: string)
    requires Strip(raw) == v
    requires Trimmed(v) && OnlyPlainSpaces(v) && NoDoubleSpace(v)
    requires v == [] || v[|v| - 1] != '#'
    requires Lower(v) != "nan"
    ensures NormalizeText(Some(raw)) == Some(Lower(v))
  {
    NormalizeTidy(v);
    StripTrimmed(v);
  }

  // Concrete cases. Each lemma below proves one fact about one literal and the
  // examples only chain them: proving several literal facts in one context
  // makes the solver unfold the string functions far too often.

  lemma TidyModelName(v: string)
    requires v == "Audi E-Tro"
    ensures Trimmed(v) && OnlyPlainSpaces(v) && NoDoubleSpace(v) && v[|v| - 1] != '#'
  {
  }

  lemma StripModelName(raw: string, v: string)
    requires raw == "Audi E-Tro  " && v == "Audi E-Tro"
    requires Trimmed(v)
    ensures Strip(raw) == v
  {
    assert raw == "" + v + "  ";
    StripPadded("", v, "  ");
  }

  lemma LowerModelName(v: string)
    requires v == "Audi E-Tro"
    ensures Lower(v) == "audi e-tro"
  {
    assert forall i :: 0 <= i < |v| ==> Lower(v)[i] == "audi e-tro"[i];
  }

  /** A mis-cased value with trailing blanks is stripped, lower-cased and
      otherwise kept. */
  lemma NormalizePaddedExample(raw: string)
    requires raw == "Audi E-Tro  "
    ensures NormalizeText(Some(raw)) == Some("audi e-tro")
  {
    var v := "Audi E-Tro";
    TidyModelName(v);
    StripModelName(raw, v);
    LowerModelName(v);
    NormalizeTidyAfterStrip(raw, v);
  }

  lemma StripNan(raw: string)
    requires raw == " NaN "
    ensures Strip(raw) == "NaN"
  {
    assert raw == " " + "NaN" + " ";
    StripPadded(" ", "NaN", " ");
  }

  lemma LowerNan(v: string)
    requires v == "NaN"
    ensures Lower(v) == "nan"
  {
    assert forall i :: 0 <= i < |v| ==> Lower(v)[i] == "nan"[i];
  }

  /** pandas' "NaN" spelling, padded, is missing. */
  lemma NormalizeNanExample(raw: string)
    requires raw == " NaN "
    ensures NormalizeText(Some(raw)) == None
  {
    StripNan(raw);
    LowerNan("NaN");
  }

  /** Cutting the trailing `#` run of a text. */
  lemma DropHashStep(raw: string, d: string)
    requires |raw| > 0 && raw[|raw| - 1] == '#' && raw[..|raw| - 1] == d
    requires d == [] || d[|d| - 1] != '#'
    ensures DropTrailingHashes(raw) == d
  {
  }

  lemma StripUnpadded(v: string)
    requires v == "nan#" || v == "nan" || v == "a# #" || v == "a#" || v == "a"
    ensures Strip(v) == v
  {
    StripTrimmed(v);
  }

  lemma LowerUnchanged(v: string)
    requires v == "nan#" || v == "a# #" || v == "a#"
    ensures Lower(v) == v
  {
    LowerNoUpper(v);
  }

  lemma DropHashes(v: string, d: string)
    requires (v == "nan#" && d == "nan") || (v == "a# #" && d == "a# ") || (v == "a#" && d == "a")
    ensures DropTrailingHashes(v) == d
  {
    DropHashStep(v, d);
  }

  lemma CollapseWord(v: string)
    requires v == "nan" || v == "a#" || v == "a"
    ensures Collapse(v) == v
  {
    CollapseSingleSpaced(v);
  }

  /** "nan#" is not missing: the "nan" test is made before the `#` run is cut. */
  lemma NormalizeNanHashExample(raw: string)
    requires raw == "nan#"
    ensures NormalizeText(Some(raw)) == Some("nan")
  {
    StripUnpadded(raw);
    LowerUnchanged(raw);
    DropHashes(raw, "nan");
    StripUnpadded("nan");
    CollapseWord("nan");
    NormalizeStages(raw, raw, "nan");
  }

  lemma StripSpacedHash(d: string)
    requires d == "a# "
    ensures Strip(d) == "a#"
  {
    assert d == "" + "a#" + " ";
    StripPadded("", "a#", " ");
  }

  /** `_normalize_text` is not idempotent: "a# #" loses only its last `#`, and
      normalising the result loses the next one. */
  lemma NormalizeNotIdempotent(raw: string, once: string)
    requires raw == "a# #" && once == "a#"
    ensures NormalizeText(Some(raw)) == Some(once)
    ensures NormalizeText(Some(once)) == Some("a")
  {
    StripUnpadded(raw);
    LowerUnchanged(raw);
    DropHashes(raw, "a# ");
    StripSpacedHash("a# ");
    CollapseWord(once);
    NormalizeStages(raw, raw, once);
    StripUnpadded(once);
    LowerUnchanged(once);
    DropHashes(once, "a");
    StripUnpadded("a");
    CollapseWord("a");
    NormalizeStages(once, once, "a");
  }
}
