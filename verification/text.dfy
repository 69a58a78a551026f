/** Character and string primitives behind the cleaning steps: Python's `str.strip`,
    `str.lower`, the `\s+` and `[#]+$` substitutions, `str.split(" ")` and literal
    `str.replace(ch, "")`, all over ASCII. */
module Text {

  /** Python's `str.isspace` (and the regular-expression class `\s`) on ASCII:
      tab, line feed, vertical tab, form feed, carriage return (9..13), the four
      information separators (28..31) and space (32). */
  predicate IsSpace(c: char) {
    var n := c as int;
    n == 32 || 9 <= n <= 13 || 28 <= n <= 31
  }

  /** The whitespace characters, listed one by one. */
  lemma SpaceChars(c: char)
    ensures IsSpace(c) <==> c in {' ', '\t', '\n', '\r', '\U{0B}', '\U{0C}', '\U{1C}', '\U{1D}', '\U{1E}', '\U{1F}'}
  {
  }

  predicate IsUpper(c: char) {
    'A' <= c <= 'Z'
  }

  /** `str.lower` on one ASCII character. */
  function ToLower(c: char): char {
    if IsUpper(c) then (c as int + 32) as char else c
  }

  predicate NoUpper(s: string) {
    forall i :: 0 <= i < |s| ==> !IsUpper(s[i])
  }

  /** No leading and no trailing whitespace. */
  predicate Trimmed(s: string) {
    s == [] || (!IsSpace(s[0]) && !IsSpace(s[|s| - 1]))
  }

  /** The only whitespace character that occurs is the plain space. */
  predicate OnlyPlainSpaces(s: string) {
    forall i :: 0 <= i < |s| && IsSpace(s[i]) ==> s[i] == ' '
  }

  /** No two whitespace characters stand next to each other. */
  predicate NoDoubleSpace(s: string) {
    forall i :: 0 <= i < |s| - 1 ==> !(IsSpace(s[i]) && IsSpace(s[i + 1]))
  }

  /** `str.lower`, character by character. */
  function Lower(s: string): (r: string)
    ensures |r| == |s|
    ensures forall i :: 0 <= i < |s| ==> r[i] == ToLower(s[i])
    ensures NoUpper(r)
  {
    if s == [] then [] else [ToLower(s[0])] + Lower(s[1..])
  }

  /** `k` is `v` lower-cased, stated character by character. */
  predicate LowersTo(v: string, k: string) {
    |v| == |k| && forall i :: 0 <= i < |v| ==> ToLower(v[i]) == k[i]
  }

  lemma LowerOfLowersTo(v: string, k: string)
    requires LowersTo(v, k)
    ensures Lower(v) == k
  {
  }

  /** Removes the leading run of whitespace: what remains is a suffix of `s`
      that does not start with whitespace, and everything cut off is whitespace. */
  function TrimStart(s: string): (r: string)
    ensures |r| <= |s| && r == s[|s| - |r|..]
    ensures forall i :: 0 <= i < |s| - |r| ==> IsSpace(s[i])
    ensures r == [] || !IsSpace(r[0])
  {
    if s != [] && IsSpace(s[0]) then TrimStart(s[1..]) else s
  }

  /** Removes the trailing run of whitespace: what remains is a prefix of `s`
      that does not end with whitespace, and everything cut off is whitespace. */
  function TrimEnd(s: string): (r: string)
    ensures |r| <= |s| && r == s[..|r|]
    ensures forall i :: |r| <= i < |s| ==> IsSpace(s[i])
    ensures r == [] || !IsSpace(r[|r| - 1])
  {
    if s != [] && IsSpace(s[|s| - 1]) then TrimEnd(s[..|s| - 1]) else s
  }

  /** `str.strip()`: the result is the slice of `s` left between a leading and a
      trailing run of whitespace, and it neither starts nor ends with whitespace. */
  function Strip(s: string): (r: string)
    ensures Trimmed(r) && |r| <= |s|
    ensures forall i :: 0 <= i < |r| ==> r[i] in s
  {
    var t := TrimStart(s);
    var r := TrimEnd(t);
    InnerSlice(s, t, r);
    r
  }

  /** A prefix of a suffix of `s` takes its characters from `s`. */
  lemma InnerSlice(s: string, t: string, r: string)
    requires |t| <= |s| && t == s[|s| - |t|..]
    requires |r| <= |t| && r == t[..|r|]
    ensures forall i :: 0 <= i < |r| ==> r[i] in s
  {
    forall i | 0 <= i < |r| ensures r[i] in s {
      assert r[i] == s[|s| - |t| + i];
    }
  }

  /** `re.sub(r"[#]+$", "", s)` on a string that does not end with a line break:
      the maximal trailing run of `#` is removed, and nothing else. */
  function DropTrailingHashes(s: string): (r: string)
    ensures |r| <= |s| && r == s[..|r|]
    ensures forall i :: |r| <= i < |s| ==> s[i] == '#'
    ensures r == [] || r[|r| - 1] != '#'
  {
    if s != [] && s[|s| - 1] == '#' then DropTrailingHashes(s[..|s| - 1]) else s
  }

  /** `re.sub(r"\s+", " ", s)`: every maximal run of whitespace becomes one space. */
  function Collapse(s: string): (r: string)
    ensures |r| <= |s|
    ensures r == [] <==> s == []
    ensures s != [] ==> (IsSpace(r[0]) <==> IsSpace(s[0]))
    ensures s != [] ==> (IsSpace(r[|r| - 1]) <==> IsSpace(s[|s| - 1]))
    decreases |s|
  {
    if s == [] then []
    else if IsSpace(s[0]) then
      var t := TrimStart(s);
      [' '] + Collapse(t)
    else [s[0]] + Collapse(s[1..])
  }

  /** Collapsing leaves only plain spaces, never two in a row. */
  lemma {:induction false} CollapseSpaces(s: string)
    ensures OnlyPlainSpaces(Collapse(s)) && NoDoubleSpace(Collapse(s))
    decreases |s|
  {
    if s == [] {
    } else if IsSpace(s[0]) {
      var c := Collapse(TrimStart(s));
      CollapseSpaces(TrimStart(s));
      SpacesAfter(' ', c);
    } else {
      var c := Collapse(s[1..]);
      CollapseSpaces(s[1..]);
      SpacesAfter(s[0], c);
    }
  }

  /** One character in front of a string with only plain spaces and no two in
      a row keeps both properties, if it is a plain space followed by a
      non-blank or not blank at all. */
  lemma SpacesAfter(h: char, c: string)
    requires OnlyPlainSpaces(c) && NoDoubleSpace(c)
    requires IsSpace(h) ==> h == ' ' && (c == [] || !IsSpace(c[0]))
    ensures OnlyPlainSpaces([h] + c) && NoDoubleSpace([h] + c)
  {
    assert forall i :: 1 <= i < |c| + 1 ==> ([h] + c)[i] == c[i - 1];
  }

  /** Collapsing adds no upper-case letter: it only keeps characters and adds
      plain spaces. */
  lemma {:induction false} CollapseNoUpper(s: string)
    requires NoUpper(s)
    ensures NoUpper(Collapse(s))
    decreases |s|
  {
    if s == [] {
    } else if IsSpace(s[0]) {
      var t := TrimStart(s);
      assert forall i :: 0 <= i < |t| ==> t[i] == s[|s| - |t| + i];
      CollapseNoUpper(t);
      NoUpperCons(' ', Collapse(t));
    } else {
      assert forall i :: 0 <= i < |s| - 1 ==> s[1..][i] == s[i + 1];
      CollapseNoUpper(s[1..]);
      NoUpperCons(s[0], Collapse(s[1..]));
    }
  }

  /** A character that is not upper case, put in front of a string without
      upper-case letters, gives a string without upper-case letters. */
  lemma NoUpperCons(h: char, c: string)
    requires !IsUpper(h) && NoUpper(c)
    ensures NoUpper([h] + c)
  {
    assert forall i :: 1 <= i < |c| + 1 ==> ([h] + c)[i] == c[i - 1];
  }

  /** The characters of `s` that are not whitespace, in order. */
  function NonSpace(s: string): (r: string)
    ensures |r| <= |s|
    ensures forall i :: 0 <= i < |r| ==> !IsSpace(r[i])
  {
    if s == [] then []
    else if IsSpace(s[0]) then NonSpace(s[1..])
    else [s[0]] + NonSpace(s[1..])
  }

  /** Literal `str.replace(ch, "")`: every occurrence of `ch` is deleted. */
  function RemoveChar(s: string, ch: char): (r: string)
    ensures ch !in r
    ensures |r| <= |s|
    ensures forall c :: c != ch ==> multiset(r)[c] == multiset(s)[c]
  {
    if s == [] then []
    else
      assert s == [s[0]] + s[1..];
      if s[0] == ch then RemoveChar(s[1..], ch) else [s[0]] + RemoveChar(s[1..], ch)
  }

  /** Python's `s * n`: `n` copies of `s`, one after another. */
  function Repeat(s: string, n: nat): (r: string)
    ensures |r| == |s| * n
    ensures forall j :: 0 <= j < |r| ==> r[j] == s[j % |s|]
  {
    if n == 0 then []
    else
      assert |s| * n == |s| * (n - 1) + |s|;
      var r := s + Repeat(s, n - 1);
      assert forall j :: 0 <= j < |r| ==> r[j] == s[j % |s|] by {
        forall j | 0 <= j < |r| ensures r[j] == s[j % |s|] {
          if j < |s| {
            ModBelow(j, |s|);
          } else {
            ModShift(j, |s|);
          }
        }
      }
      r
  }

  /** The remainder is the one `r` with `x == m * q + r` and `0 <= r < m`. */
  lemma ModUnique(x: int, m: int, q: int, r: int)
    requires 0 <= r < m && x == m * q + r
    ensures x % m == r
  {
    var q', r' := x / m, x % m;
    assert m * q' + r' == m * q + r;
    assert m * (q - q') == r' - r;
    if q > q' {
      MulAtLeast(m, q - q');
    } else if q < q' {
      MulAtLeast(m, q' - q);
    }
  }

  lemma MulAtLeast(m: int, k: int)
    requires m > 0 && k >= 1
    ensures m * k >= m
  {
  }

  lemma ModBelow(j: int, m: int)
    requires 0 <= j < m
    ensures j % m == j
  {
    ModUnique(j, m, 0, j);
  }

  lemma ModShift(j: int, m: int)
    requires 0 < m <= j
    ensures (j - m) % m == j % m
  {
    var q, r := j / m, j % m;
    ModUnique(j - m, m, q - 1, r);
  }

  /** The text before the first `c`, or all of `s` when `c` does not occur:
      `str.split(c)[0]`. */
  function Before(s: string, c: char): (r: string)
    ensures c !in r
    ensures |r| <= |s| && r == s[..|r|]
    ensures |r| < |s| ==> s[|r|] == c
  {
    if s == [] || s[0] == c then [] else [s[0]] + Before(s[1..], c)
  }

  /** The text after the first `c`. */
  function After(s: string, c: char): (r: string)
    requires c in s
    ensures s == Before(s, c) + [c] + r
  {
    s[|Before(s, c)| + 1..]
  }

  /** `str.split(c)`: the pieces between the occurrences of `c`. */
  function Split(s: string, c: char): (r: seq<string>)
    ensures |r| >= 1 && r[0] == Before(s, c)
    ensures forall i :: 0 <= i < |r| ==> c !in r[i]
    decreases |s|
  {
    if c in s then [Before(s, c)] + Split(After(s, c), c) else [s]
  }

  /** `c.join(fs)`. */
  function Join(fs: seq<string>, c: char): string {
    if fs == [] then []
    else if |fs| == 1 then fs[0]
    else fs[0] + [c] + Join(fs[1..], c)
  }

  // ---------------------------------------------------------------------
  // Lemmas
  // ---------------------------------------------------------------------

  /** Joining the pieces of a split gives back the string. */
  lemma {:induction false} JoinSplit(s: string, c: char)
    ensures Join(Split(s, c), c) == s
    decreases |s|
  {
    if c in s {
      JoinSplit(After(s, c), c);
    }
  }

  /** Splitting a join of pieces without `c` gives back the pieces. */
  lemma {:induction false} SplitJoin(fs: seq<string>, c: char)
    requires |fs| >= 1 && forall i :: 0 <= i < |fs| ==> c !in fs[i]
    ensures Split(Join(fs, c), c) == fs
    decreases |fs|
  {
    if |fs| > 1 {
      BeforeJoin(fs[0], Join(fs[1..], c), c);
      SplitJoin(fs[1..], c);
      assert fs == [fs[0]] + fs[1..];
    }
  }

  /** Stripping a string that is already trimmed changes nothing. */
  lemma StripTrimmed(s: string)
    requires Trimmed(s)
    ensures Strip(s) == s
  {
  }

  /** Lower-casing a string without upper-case letters changes nothing. */
  lemma LowerNoUpper(s: string)
    requires NoUpper(s)
    ensures Lower(s) == s
  {
    assert forall i :: 0 <= i < |s| ==> Lower(s)[i] == s[i];
  }

  /** Lower-casing leaves whitespace and `#` where they are, so it keeps a
      string's shape: trimmed, plain-spaced, single-spaced, its last character. */
  lemma LowerKeepsShape(s: string)
    ensures Trimmed(s) ==> Trimmed(Lower(s))
    ensures OnlyPlainSpaces(s) ==> OnlyPlainSpaces(Lower(s))
    ensures NoDoubleSpace(s) ==> NoDoubleSpace(Lower(s))
    ensures s != [] && s[|s| - 1] != '#' ==> Lower(s)[|s| - 1] != '#'
  {
    var r := Lower(s);
    assert forall i :: 0 <= i < |s| ==> (IsSpace(r[i]) <==> IsSpace(s[i])) && (r[i] == ' ' <==> s[i] == ' ');
  }

  /** A string that ends in anything but `#` has no trailing run to drop. */
  lemma DropTrailingHashesNone(s: string)
    requires s == [] || s[|s| - 1] != '#'
    ensures DropTrailingHashes(s) == s
  {
  }

  /** `\s+` -> " " leaves a plain-spaced, single-spaced string as it is. */
  lemma {:induction false} CollapseSingleSpaced(s: string)
    requires OnlyPlainSpaces(s) && NoDoubleSpace(s)
    ensures Collapse(s) == s
    decreases |s|
  {
    if s == [] {
    } else {
      var tail := s[1..];
      assert OnlyPlainSpaces(tail) && NoDoubleSpace(tail) by {
        assert forall i :: 0 <= i < |tail| ==> tail[i] == s[i + 1];
      }
      CollapseSingleSpaced(tail);
      assert s == [s[0]] + tail;
      if IsSpace(s[0]) {
        assert s[0] == ' ';
        assert tail == [] || !IsSpace(tail[0]);
        assert TrimStart(s) == tail;
      }
    }
  }

  /** Dropping a leading run of whitespace does not change the non-whitespace text. */
  lemma {:induction false} NonSpaceTrimStart(s: string)
    ensures NonSpace(TrimStart(s)) == NonSpace(s)
    decreases |s|
  {
    if s != [] && IsSpace(s[0]) {
      NonSpaceTrimStart(s[1..]);
    }
  }

  /** Collapsing whitespace keeps every other character, in order. */
  lemma {:induction false} CollapseKeepsText(s: string)
    ensures NonSpace(Collapse(s)) == NonSpace(s)
    decreases |s|
  {
    if s == [] {
    } else if IsSpace(s[0]) {
      var t := TrimStart(s);
      CollapseKeepsText(t);
      NonSpaceTrimStart(s);
      assert ([' '] + Collapse(t))[1..] == Collapse(t);
    } else {
      CollapseKeepsText(s[1..]);
      assert ([s[0]] + Collapse(s[1..]))[1..] == Collapse(s[1..]);
    }
  }

  /** Deleting a character distributes over concatenation, and on a single
      character it deletes that character or keeps it: the deletion keeps every
      other character, in its original order. */
  lemma {:induction false} RemoveCharAppend(a: string, b: string, ch: char)
    ensures RemoveChar(a + b, ch) == RemoveChar(a, ch) + RemoveChar(b, ch)
    decreases |a|
  {
    if a == [] {
      assert a + b == b;
    } else {
      var ab := a + b;
      assert ab[0] == a[0] && ab[1..] == a[1..] + b;
      RemoveCharAppend(a[1..], b, ch);
      var x, y := RemoveChar(a[1..], ch), RemoveChar(b, ch);
      if a[0] != ch {
        assert [a[0]] + (x + y) == ([a[0]] + x) + y;
      }
    }
  }

  /** Deleting a character that does not occur changes nothing. */
  lemma {:induction false} RemoveCharAbsent(s: string, ch: char)
    requires ch !in s
    ensures RemoveChar(s, ch) == s
    decreases |s|
  {
    if s != [] {
      RemoveCharAbsent(s[1..], ch);
    }
  }

  /** `str.split(c)` of `a + [c] + b` with `c` not in `a` gives `a` first and `b` after. */
  lemma {:induction false} BeforeJoin(a: string, b: string, c: char)
    requires c !in a
    ensures Before(a + [c] + b, c) == a
    ensures After(a + [c] + b, c) == b
    decreases |a|
  {
    var s := a + [c] + b;
    if a != [] {
      BeforeJoin(a[1..], b, c);
      assert s[1..] == a[1..] + [c] + b;
    }
  }

  predicate AllSpace(s: string) {
    forall i :: 0 <= i < |s| ==> IsSpace(s[i])
  }

  /** Trimming the front of a whitespace run followed by a text that does not
      start with whitespace leaves exactly that text. */
  lemma TrimStartPadded(a: string, v: string)
    requires AllSpace(a) && v != [] && !IsSpace(v[0])
    ensures TrimStart(a + v) == v
  {
    var s := a + v;
    var r := TrimStart(s);
    assert s[|a|] == v[0];
    assert forall i :: 0 <= i < |a| ==> s[i] == a[i];
    assert r == s[|a|..];
  }

  /** Trimming the end of a text that does not end with whitespace, followed by
      a whitespace run, leaves exactly that text. */
  lemma TrimEndPadded(v: string, b: string)
    requires AllSpace(b) && v != [] && !IsSpace(v[|v| - 1])
    ensures TrimEnd(v + b) == v
  {
    var s := v + b;
    var r := TrimEnd(s);
    assert s[|v| - 1] == v[|v| - 1];
    assert forall i :: |v| <= i < |s| ==> s[i] == b[i - |v|];
    assert r == s[..|v|];
  }

  /** `str.strip()` of a non-empty trimmed text padded with whitespace on both
      sides gives back that text. */
  lemma StripPadded(a: string, v: string, b: string)
    requires AllSpace(a) && AllSpace(b) && v != [] && Trimmed(v)
    ensures Strip(a + v + b) == v
  {
    assert a + v + b == a + (v + b);
    TrimStartPadded(a, v + b);
    TrimEndPadded(v, b);
  }

  /** Trimming the front of a text that ends with something other than
      whitespace trims only inside that text, whatever follows it. */
  lemma {:induction false} TrimStartAppend(x: string, y: string)
    requires x != [] && !IsSpace(x[|x| - 1])
    ensures TrimStart(x + y) == TrimStart(x) + y
    decreases |x|
  {
    if IsSpace(x[0]) {
      assert (x + y)[1..] == x[1..] + y;
      TrimStartAppend(x[1..], y);
    }
  }

  /** Each maximal run of whitespace becomes exactly one space: a run `w`
      between a text that does not end in whitespace and one that does not
      start with it collapses to a single `' '`, and the two sides collapse
      on their own. */
  lemma {:induction false} CollapseRun(a: string, w: string, b: string)
    requires w != [] && AllSpace(w)
    requires a == [] || !IsSpace(a[|a| - 1])
    requires b != [] && !IsSpace(b[0])
    ensures Collapse(a + w + b) == Collapse(a) + " " + Collapse(b)
    decreases |a|
  {
    if a == [] {
      CollapseLeadingRun(a, w, b);
    } else if IsSpace(a[0]) {
      var t := TrimStart(a);
      CollapseRunSpace(a, t, w + b);
      CollapseRun(t, w, b);
      CollapseRunSpaceStep(a, t, w, b);
    } else {
      CollapseRun(a[1..], w, b);
      CollapseRunCharStep(a, w, b);
    }
  }

  lemma CollapseRunSpaceStep(a: string, t: string, w: string, b: string)
    requires Collapse(a) == " " + Collapse(t)
    requires Collapse(a + (w + b)) == " " + Collapse(t + (w + b))
    requires Collapse(t + w + b) == Collapse(t) + " " + Collapse(b)
    ensures Collapse(a + w + b) == Collapse(a) + " " + Collapse(b)
  {
    ConcatAssoc(a, w, b);
    ConcatAssoc(t, w, b);
    JoinAssoc(" ", Collapse(t), Collapse(b));
  }

  lemma CollapseRunCharStep(a: string, w: string, b: string)
    requires a != [] && !IsSpace(a[0])
    requires Collapse(a[1..] + w + b) == Collapse(a[1..]) + " " + Collapse(b)
    ensures Collapse(a + w + b) == Collapse(a) + " " + Collapse(b)
  {
    ConcatTail(a, w, b);
    JoinAssoc([a[0]], Collapse(a[1..]), Collapse(b));
  }

  lemma ConcatAssoc(a: string, w: string, b: string)
    ensures a + w + b == a + (w + b)
  {
  }

  lemma ConcatTail(a: string, w: string, b: string)
    requires a != []
    ensures (a + w + b)[0] == a[0] && (a + w + b)[1..] == a[1..] + w + b
  {
  }

  lemma JoinAssoc(h: string, x: string, y: string)
    ensures h + (x + " " + y) == (h + x) + " " + y
    ensures h == [] ==> h + " " + y == " " + y
  {
  }

  /** A whitespace run before a text that does not start with whitespace
      collapses to one space. */
  lemma CollapseLeadingRun(a: string, w: string, b: string)
    requires a == [] && w != [] && AllSpace(w) && b != [] && !IsSpace(b[0])
    ensures Collapse(a + w + b) == Collapse(a) + " " + Collapse(b)
  {
    assert a + w + b == w + b;
    assert (w + b)[0] == w[0];
    TrimStartPadded(w, b);
    JoinAssoc(Collapse(a), [], Collapse(b));
  }

  /** A text that starts with whitespace and ends with something else
      collapses, whatever follows it, to one space and the collapse of the
      rest after its leading run. */
  lemma CollapseRunSpace(a: string, t: string, v: string)
    requires a != [] && IsSpace(a[0]) && !IsSpace(a[|a| - 1]) && t == TrimStart(a)
    ensures |t| < |a| && t != [] && !IsSpace(t[|t| - 1])
    ensures Collapse(a) == " " + Collapse(t)
    ensures Collapse(a + v) == " " + Collapse(t + v)
  {
    TrimStartAppend(a, v);
    assert (a + v)[0] == a[0];
  }

  /** A double space between two letters becomes one. */
  lemma CollapseDoubleSpace(s: string)
    requires s == "a  b"
    ensures Collapse(s) == "a b"
  {
    var a, w, b := [s[0]], s[1..3], [s[3]];
    assert s == a + w + b;
    assert AllSpace(w) by {
      assert w[0] == ' ' && w[1] == ' ';
    }
    CollapseRun(a, w, b);
    CollapseLetter(s[0]);
    CollapseLetter(s[3]);
  }

  lemma CollapseLetter(c: char)
    requires !IsSpace(c)
    ensures Collapse([c]) == [c]
  {
    assert [c][1..] == [];
  }
}
