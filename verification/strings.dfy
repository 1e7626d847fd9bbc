/** String building blocks used by the engine: PHP's `implode`/`explode`, the
    placeholder substitution built from them, and the character-level helpers
    behind hook-name derivation (`ucfirst`, `class_basename`, `studly_case`). */
module Strings {

  /** `implode($sep, $parts)`. */
  function Join(sep: string, parts: seq<string>): string
    decreases |parts|
  {
    if |parts| == 0 then ""
    else if |parts| == 1 then parts[0]
    else parts[0] + sep + Join(sep, parts[1..])
  }

  /** `explode($pat, $s)`: the pieces between left-to-right, non-overlapping
      occurrences of `pat`. */
  function Explode(s: string, pat: string): (pieces: seq<string>)
    requires |pat| > 0
    ensures |pieces| >= 1
    decreases |s|
  {
    if |s| < |pat| then [s]
    else if s[..|pat|] == pat then [""] + Explode(s[|pat|..], pat)
    else
      var rest := Explode(s[1..], pat);
      [[s[0]] + rest[0]] + rest[1..]
  }

  /** Replacing every occurrence of `pat` in `s` by `rep`, scanning left to
      right; the replacement text is never rescanned. */
  function ReplaceAll(s: string, pat: string, rep: string): string
    requires |pat| > 0
    decreases |s|
  {
    if |s| < |pat| then s
    else if s[..|pat|] == pat then rep + ReplaceAll(s[|pat|..], pat, rep)
    else [s[0]] + ReplaceAll(s[1..], pat, rep)
  }

  lemma JoinConsHead(sep: string, c: char, first: string, rest: seq<string>)
    ensures Join(sep, [[c] + first] + rest) == [c] + Join(sep, [first] + rest)
  {
    if |rest| > 0 {
      assert ([[c] + first] + rest)[1..] == rest;
      assert ([first] + rest)[1..] == rest;
    }
  }

  /** The substitution is exactly `implode($rep, explode($pat, $s))`, the
      way the engine writes it. */
  lemma {:induction false} ReplaceAllIsImplodeExplode(s: string, pat: string, rep: string)
    requires |pat| > 0
    ensures ReplaceAll(s, pat, rep) == Join(rep, Explode(s, pat))
    decreases |s|
  {
    if |s| < |pat| {
    } else if s[..|pat|] == pat {
      ReplaceAllIsImplodeExplode(s[|pat|..], pat, rep);
      var rest := Explode(s[|pat|..], pat);
      assert ([""] + rest)[1..] == rest;
    } else {
      ReplaceAllIsImplodeExplode(s[1..], pat, rep);
      var rest := Explode(s[1..], pat);
      JoinConsHead(rep, s[0], rest[0], rest[1..]);
      assert [rest[0]] + rest[1..] == rest;
    }
  }

  /** Imploding the exploded pieces with the same delimiter restores the input. */
  lemma {:induction false} ExplodeJoinRoundTrip(s: string, pat: string)
    requires |pat| > 0
    ensures Join(pat, Explode(s, pat)) == s
    decreases |s|
  {
    ReplaceAllIsImplodeExplode(s, pat, pat);
    ReplaceAllSelf(s, pat);
  }

  lemma {:induction false} ReplaceAllSelf(s: string, pat: string)
    requires |pat| > 0
    ensures ReplaceAll(s, pat, pat) == s
    decreases |s|
  {
    if |s| < |pat| {
    } else if s[..|pat|] == pat {
      ReplaceAllSelf(s[|pat|..], pat);
      assert s == s[..|pat|] + s[|pat|..];
    } else {
      ReplaceAllSelf(s[1..], pat);
      assert s == [s[0]] + s[1..];
    }
  }

  /** A string without the first character of the pattern is left unchanged. */
  lemma {:induction false} ReplaceAllFree(s: string, pat: string, rep: string)
    requires |pat| > 0 && pat[0] !in s
    ensures ReplaceAll(s, pat, rep) == s
    decreases |s|
  {
    if |s| >= |pat| {
      assert s[..|pat|][0] == s[0];
      ReplaceAllFree(s[1..], pat, rep);
      assert s == [s[0]] + s[1..];
    }
  }

  /** A prefix without the first character of the pattern passes through. */
  lemma {:induction false} ReplaceAllFreePrefix(x: string, y: string, pat: string, rep: string)
    requires |pat| > 0 && pat[0] !in x
    ensures ReplaceAll(x + y, pat, rep) == x + ReplaceAll(y, pat, rep)
    decreases |x|
  {
    if |x| > 0 {
      var s := x + y;
      if |s| < |pat| {
        ReplaceAllShort(y, pat, rep);
      } else {
        assert s[..|pat|][0] == x[0];
        assert s[1..] == x[1..] + y;
        ReplaceAllFreePrefix(x[1..], y, pat, rep);
        assert x == [x[0]] + x[1..];
      }
    } else {
      assert x + y == y;
    }
  }

  /** A leading occurrence of the pattern becomes the replacement. */
  lemma ReplaceAllLeading(y: string, pat: string, rep: string)
    requires |pat| > 0
    ensures ReplaceAll(pat + y, pat, rep) == rep + ReplaceAll(y, pat, rep)
  {
    assert (pat + y)[..|pat|] == pat;
    assert (pat + y)[|pat|..] == y;
  }

  /** A character that does not occur in the pattern splits the substitution:
      no occurrence can straddle it. */
  lemma {:induction false} ReplaceAllSplit(x: string, c: char, y: string, pat: string, rep: string)
    requires |pat| > 0 && c !in pat
    ensures ReplaceAll(x + [c] + y, pat, rep) == ReplaceAll(x, pat, rep) + [c] + ReplaceAll(y, pat, rep)
    decreases |x|
  {
    var s := x + [c] + y;
    if |s| < |pat| {
      ReplaceAllShort(y, pat, rep);
    } else if s[..|pat|] == pat {
      if |x| < |pat| {
        MatchCoversChar(x, c, y, pat);
        assert false;
      }
      assert x[..|pat|] == pat;
      assert s[|pat|..] == x[|pat|..] + [c] + y;
      ReplaceAllSplit(x[|pat|..], c, y, pat, rep);
    } else if |x| == 0 {
      assert s == [c] + y;
      assert s[1..] == y;
    } else {
      assert s[1..] == x[1..] + [c] + y;
      ReplaceAllSplit(x[1..], c, y, pat, rep);
      if |x| >= |pat| {
        assert x[..|pat|] == s[..|pat|];
      }
    }
  }

  /** A character that cannot continue the pattern lets the one before it pass. */
  lemma ReplaceAllSkip(c: char, d: char, y: string, pat: string, rep: string)
    requires |pat| >= 2 && d != pat[1]
    ensures ReplaceAll([c, d] + y, pat, rep) == [c] + ReplaceAll([d] + y, pat, rep)
  {
    var s := [c, d] + y;
    assert s[1..] == [d] + y;
    if |s| < |pat| {
      ReplaceAllShort([d] + y, pat, rep);
    } else {
      assert s[..|pat|][1] == d;
    }
  }

  /** A word whose second character cannot continue the pattern, and whose
      tail never starts it, passes through unchanged. */
  lemma ReplaceAllPassWord(w: string, z: string, pat: string, rep: string)
    requires |pat| >= 2 && |w| >= 2 && w[1] != pat[1] && pat[0] !in w[1..]
    ensures ReplaceAll(w + z, pat, rep) == w + ReplaceAll(z, pat, rep)
  {
    var t := w[2..] + z;
    var tail := ReplaceAll(z, pat, rep);
    calc {
      ReplaceAll(w + z, pat, rep);
      == { assert w + z == [w[0], w[1]] + t; }
      ReplaceAll([w[0], w[1]] + t, pat, rep);
      == { ReplaceAllSkip(w[0], w[1], t, pat, rep); }
      [w[0]] + ReplaceAll([w[1]] + t, pat, rep);
      == { assert [w[1]] + t == w[1..] + z; }
      [w[0]] + ReplaceAll(w[1..] + z, pat, rep);
      == { ReplaceAllFreePrefix(w[1..], z, pat, rep); }
      [w[0]] + (w[1..] + tail);
      == { assert [w[0]] + w[1..] == w; }
      w + tail;
    }
  }

  lemma MatchCoversChar(x: string, c: char, y: string, pat: string)
    requires |x| < |pat| <= |x| + 1 + |y|
    requires (x + [c] + y)[..|pat|] == pat
    ensures c in pat
  {
    assert pat[|x|] == (x + [c] + y)[|x|];
  }

  lemma ReplaceAllShort(s: string, pat: string, rep: string)
    requires |pat| > 0 && |s| < |pat|
    ensures ReplaceAll(s, pat, rep) == s
  {
  }

  /** Joining with a separator: the parts in order, separated by `sep`. */
  lemma JoinAppend(sep: string, parts: seq<string>, last: string)
    ensures Join(sep, parts + [last]) == if |parts| == 0 then last else Join(sep, parts) + sep + last
    decreases |parts|
  {
    if |parts| > 1 {
      assert (parts + [last])[1..] == parts[1..] + [last];
      JoinAppend(sep, parts[1..], last);
    } else if |parts| == 1 {
      assert (parts + [last])[1..] == [last];
    }
  }

  /** Joining a part in front of the others. */
  lemma JoinPrepend(sep: string, first: string, parts: seq<string>)
    ensures Join(sep, [first] + parts) == if |parts| == 0 then first else first + sep + Join(sep, parts)
  {
    assert ([first] + parts)[1..] == parts;
  }

  /** An empty first part leaves only its separator behind. */
  lemma JoinEmptyFirst(sep: string, parts: seq<string>)
    requires |parts| > 1 && parts[0] == ""
    ensures Join(sep, parts) == sep + Join(sep, parts[1..])
  {
    JoinPrepend(sep, parts[0], parts[1..]);
    assert [parts[0]] + parts[1..] == parts;
  }

  /** The joined string begins with the first part. */
  lemma JoinFirst(sep: string, parts: seq<string>)
    requires |parts| > 0
    ensures |Join(sep, parts)| >= |parts[0]|
    ensures Join(sep, parts)[..|parts[0]|] == parts[0]
  {
  }

  /** Concatenation with the empty separator, `implode('', $parts)`. */
  function Concat(parts: seq<string>): string
    decreases |parts|
  {
    if |parts| == 0 then "" else parts[0] + Concat(parts[1..])
  }

  lemma {:induction false} ConcatIsJoinEmpty(parts: seq<string>)
    ensures Concat(parts) == Join("", parts)
    decreases |parts|
  {
    if |parts| > 1 {
      ConcatIsJoinEmpty(parts[1..]);
    } else if |parts| == 1 {
      assert Concat(parts) == parts[0] + "";
    }
  }

  /** Concatenating one more part appends it. */
  lemma {:induction false} ConcatAppend(parts: seq<string>, last: string)
    ensures Concat(parts + [last]) == Concat(parts) + last
    decreases |parts|
  {
    if |parts| > 0 {
      assert (parts + [last])[1..] == parts[1..] + [last];
      ConcatAppend(parts[1..], last);
    } else {
      assert parts + [last] == [last];
    }
  }

  predicate IsLower(c: char) { 'a' <= c <= 'z' }

  predicate IsUpper(c: char) { 'A' <= c <= 'Z' }

  function ToLower(c: char): char
  {
    if IsUpper(c) then (c as int - 'A' as int + 'a' as int) as char else c
  }

  function ToUpper(c: char): char
  {
    if IsLower(c) then (c as int - 'a' as int + 'A' as int) as char else c
  }

  /** `ucfirst`: the first character upper-cased (ASCII letters only). */
  function Ucfirst(s: string): (r: string)
    ensures |r| == |s|
    ensures |s| > 0 ==> r[0] == ToUpper(s[0]) && r[1..] == s[1..]
  {
    if |s| == 0 then s else [ToUpper(s[0])] + s[1..]
  }

  predicate IsWordChar(c: char)
  {
    ('A' <= c <= 'Z') || ('a' <= c <= 'z') || ('0' <= c <= '9') || c == ' '
  }

  /** `preg_replace('/[^A-Za-z0-9 ]/', '', $s)`. */
  function StripNonWord(s: string): (r: string)
    ensures forall i :: 0 <= i < |r| ==> IsWordChar(r[i])
    ensures (forall i :: 0 <= i < |s| ==> IsWordChar(s[i])) ==> r == s
    ensures |r| <= |s|
  {
    if |s| == 0 then ""
    else if IsWordChar(s[0]) then [s[0]] + StripNonWord(s[1..])
    else StripNonWord(s[1..])
  }

  /** `class_basename`: the part after the last backslash. Laravel takes the
      `basename` of the name with backslashes turned into slashes, which
      drops a trailing separator; the two differ only on a name ending in a
      backslash, which `get_class` never returns. */
  function ClassBasename(s: string): (r: string)
    ensures '\\' !in r
    ensures '\\' !in s ==> r == s
    ensures |r| <= |s| && r == s[|s| - |r|..]
    ensures |r| < |s| ==> s[|s| - |r| - 1] == '\\'
    decreases |s|
  {
    if |s| == 0 then ""
    else if s[|s| - 1] == '\\' then ""
    else ClassBasename(s[..|s| - 1]) + [s[|s| - 1]]
  }

  /** Laravel's `studly_case` on a string of letters, digits and spaces:
      every word capitalised (`ucwords`), then the spaces removed. */
  function Studly(s: string): string
  {
    StudlyFrom(s, true)
  }

  function StudlyFrom(s: string, atWordStart: bool): (r: string)
    ensures ' ' !in r
    ensures |r| <= |s|
    ensures forall c :: c in r ==> c in s || 'A' <= c <= 'Z'
    decreases |s|
  {
    if |s| == 0 then ""
    else if s[0] == ' ' then StudlyFrom(s[1..], true)
    else [if atWordStart then ToUpper(s[0]) else s[0]] + StudlyFrom(s[1..], false)
  }

  /** Without spaces, studly-casing is `ucfirst`. */
  lemma StudlyOfOneWord(s: string)
    requires ' ' !in s
    ensures Studly(s) == Ucfirst(s)
  {
    if |s| > 0 {
      StudlyContinues(s[1..]);
    }
  }

  lemma {:induction false} StudlyContinues(s: string)
    requires ' ' !in s
    ensures StudlyFrom(s, false) == s
    decreases |s|
  {
    if |s| > 0 {
      StudlyContinues(s[1..]);
    }
  }

  /** `lcfirst`: the first character lower-cased (ASCII letters only). */
  function Lcfirst(s: string): (r: string)
    ensures |r| == |s|
    ensures |s| > 0 ==> r[0] == ToLower(s[0]) && r[1..] == s[1..]
    ensures forall c :: c in r ==> c in s || IsLower(c)
  {
    if |s| == 0 then s else [ToLower(s[0])] + s[1..]
  }

  /** `str_replace(['-', '_'], ' ', $s)`. */
  function SeparatorsToSpaces(s: string): (r: string)
    ensures |r| == |s|
    ensures forall i :: 0 <= i < |s| ==> r[i] == (if s[i] == '-' || s[i] == '_' then ' ' else s[i])
  {
    seq(|s|, i requires 0 <= i < |s| => if s[i] == '-' || s[i] == '_' then ' ' else s[i])
  }

  /** Laravel's `camel_case`: dashes and underscores become word breaks, the
      words are studly-cased and joined, and the first letter is lowered.
      `ucwords` also breaks words at tabs and newlines, which no tag name
      holds; only spaces are treated as breaks here. */
  function CamelCase(s: string): (r: string)
    ensures ' ' !in r && '-' !in r && '_' !in r
  {
    var spaced := SeparatorsToSpaces(s);
    assert '-' !in spaced && '_' !in spaced by {
      forall i | 0 <= i < |spaced| ensures spaced[i] != '-' && spaced[i] != '_' { }
    }
    Lcfirst(Studly(spaced))
  }

  /** A tag name of lower-case letters is its own camel case (`td`, `form`). */
  lemma CamelCaseOfLowerWord(s: string)
    requires LowerWord(s)
    ensures CamelCase(s) == s
  {
    var spaced := SeparatorsToSpaces(s);
    assert spaced == s;
    assert ' ' !in s by {
      forall i | 0 <= i < |s| ensures s[i] != ' ' { assert IsLower(s[i]); }
    }
    StudlyOfOneWord(s);
    if |s| > 0 {
      assert Lcfirst(Ucfirst(s)) == s;
    }
  }

  /** Studly-casing words separated by single spaces capitalises each. */
  lemma {:induction false} StudlyOfSpacedWord(w: string, rest: string)
    requires |w| > 0 && ' ' !in w
    ensures StudlyFrom(w + " " + rest, true) == Ucfirst(w) + StudlyFrom(rest, true)
  {
    var s := w + " " + rest;
    assert s[0] == w[0] && s[1..] == w[1..] + " " + rest;
    StudlyContinuesThrough(w[1..], rest);
  }

  lemma {:induction false} StudlyContinuesThrough(x: string, rest: string)
    requires ' ' !in x
    ensures StudlyFrom(x + " " + rest, false) == x + StudlyFrom(rest, true)
    decreases |x|
  {
    if |x| == 0 {
      assert (x + " " + rest)[1..] == rest;
    } else {
      assert (x + " " + rest)[1..] == x[1..] + " " + rest;
      StudlyContinuesThrough(x[1..], rest);
    }
  }

  predicate LowerWord(w: string)
  {
    forall i :: 0 <= i < |w| ==> IsLower(w[i])
  }

  /** Two lower-case words joined by a dash camel-case to the first word
      followed by the capitalised second (`radio-button` to `radioButton`). */
  lemma CamelCaseOfDashedWords(a: string, b: string)
    requires |a| > 0 && LowerWord(a) && LowerWord(b)
    ensures CamelCase(a + "-" + b) == a + Ucfirst(b)
  {
    DashToSpace(a, b);
    NoSpaceInLowerWord(a);
    NoSpaceInLowerWord(b);
    StudlyOfSpacedWord(a, b);
    StudlyOfOneWord(b);
    LcfirstUndoesUcfirst(a, Ucfirst(b));
  }

  lemma DashToSpace(a: string, b: string)
    requires LowerWord(a) && LowerWord(b)
    ensures SeparatorsToSpaces(a + "-" + b) == a + " " + b
  {
    var spaced := SeparatorsToSpaces(a + "-" + b);
    var w := a + " " + b;
    forall i | 0 <= i < |w| ensures spaced[i] == w[i] {
      if i < |a| { assert IsLower(a[i]); } else if i > |a| { assert IsLower(b[i - |a| - 1]); }
    }
  }

  lemma NoSpaceInLowerWord(w: string)
    requires LowerWord(w)
    ensures ' ' !in w
  {
    forall i | 0 <= i < |w| ensures w[i] != ' ' { assert IsLower(w[i]); }
  }

  lemma LcfirstUndoesUcfirst(a: string, tail: string)
    requires |a| > 0 && IsLower(a[0])
    ensures Lcfirst(Ucfirst(a) + tail) == a + tail
  {
    LowerOfUpper(a[0]);
    var u := Ucfirst(a) + tail;
    assert u[0] == ToUpper(a[0]);
    assert u[1..] == a[1..] + tail;
    assert Lcfirst(u) == [a[0]] + (a[1..] + tail);
    assert [a[0]] + (a[1..] + tail) == a + tail;
  }

  lemma LowerOfUpper(c: char)
    requires IsLower(c)
    ensures IsUpper(ToUpper(c)) && ToLower(ToUpper(c)) == c
  {
  }
}
