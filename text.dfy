/** The string operations the source relies on, with the semantics of the
    language that runs them: ECMAScript's `trim`, `toLowerCase`,
    `split(sep).pop()` and `endsWith`, and Python's `str.replace` and
    `str.rstrip`. Strings are sequences of Unicode scalar values. */
module Text {

  /** ECMAScript WhiteSpace and LineTerminator code points: exactly what
      `String.prototype.trim` removes from both ends. */
  const JsSpaces: set<char> := {
    '\t', '\U{000B}', '\U{000C}', ' ', '\U{00A0}', '\U{FEFF}', '\U{1680}',
    '\U{2000}', '\U{2001}', '\U{2002}', '\U{2003}', '\U{2004}', '\U{2005}',
    '\U{2006}', '\U{2007}', '\U{2008}', '\U{2009}', '\U{200A}',
    '\U{202F}', '\U{205F}', '\U{3000}',
    '\n', '\r', '\U{2028}', '\U{2029}'
  }

  predicate IsJsSpace(c: char) {
    c in JsSpaces
  }

  predicate AllSpace(s: string) {
    forall k :: 0 <= k < |s| ==> IsJsSpace(s[k])
  }

  /** Drops leading white space. */
  function TrimStart(s: string): (r: string)
    ensures |r| <= |s|
    decreases |s|
  {
    if |s| > 0 && IsJsSpace(s[0]) then TrimStart(s[1..]) else s
  }

  /** `TrimStart(s)` is the longest suffix of `s` that does not start with
      white space. */
  lemma {:induction false} TrimStartSpec(s: string)
    ensures var r := TrimStart(s);
            && r == s[|s| - |r|..] && AllSpace(s[..|s| - |r|])
            && (r == [] || !IsJsSpace(r[0]))
    decreases |s|
  {
    if |s| > 0 && IsJsSpace(s[0]) {
      TrimStartSpec(s[1..]);
      var r := TrimStart(s[1..]);
      assert s[|s| - |r|..] == s[1..][|s| - 1 - |r|..];
      assert s[..|s| - |r|] == [s[0]] + s[1..][..|s| - 1 - |r|];
    } else {
      assert s[..0] == [];
    }
  }

  /** Drops trailing white space. */
  function TrimEnd(s: string): (r: string)
    ensures |r| <= |s|
    decreases |s|
  {
    if |s| > 0 && IsJsSpace(s[|s| - 1]) then TrimEnd(s[..|s| - 1]) else s
  }

  /** `TrimEnd(s)` is the longest prefix of `s` that does not end with
      white space. */
  lemma {:induction false} TrimEndSpec(s: string)
    ensures var r := TrimEnd(s);
            && r == s[..|r|] && AllSpace(s[|r|..])
            && (r == [] || !IsJsSpace(r[|r| - 1]))
    decreases |s|
  {
    if |s| > 0 && IsJsSpace(s[|s| - 1]) {
      var init := s[..|s| - 1];
      TrimEndSpec(init);
      var r := TrimEnd(init);
      assert s[..|r|] == init[..|r|];
      assert s[|r|..] == init[|r|..] + [s[|s| - 1]];
    } else {
      assert s[|s|..] == [];
    }
  }

  function Trim(s: string): string {
    TrimEnd(TrimStart(s))
  }

  /** Slicing a suffix is slicing the whole sequence further along. */
  lemma SliceOfSuffix<T>(s: seq<T>, i: nat, a: nat)
    requires i + a <= |s|
    ensures s[i..][a..] == s[i + a..] && s[i..][..a] == s[i..i + a]
  {
  }

  /** Where `Trim(s)` sits inside `s`. */
  lemma TrimBounds(s: string) returns (i: nat, j: nat)
    ensures i <= j <= |s| && Trim(s) == s[i..j]
    ensures AllSpace(s[..i]) && AllSpace(s[j..])
    ensures Trim(s) == [] || (!IsJsSpace(Trim(s)[0]) && !IsJsSpace(Trim(s)[|Trim(s)| - 1]))
  {
    var t := TrimStart(s);
    TrimStartSpec(s);
    i := |s| - |t|;
    var r := TrimEnd(t);
    TrimEndSpec(t);
    j := i + |r|;
    SliceOfSuffix(s, i, |r|);
    if r != [] {
      assert r[0] == t[0];
    }
  }

  /** `s.trim()` is the text between the white space at both ends; it is
      empty exactly when `s` is white space only. */
  lemma TrimSpec(s: string)
    ensures exists i, j :: 0 <= i <= j <= |s| && Trim(s) == s[i..j]
                           && AllSpace(s[..i]) && AllSpace(s[j..])
    ensures Trim(s) == [] || (!IsJsSpace(Trim(s)[0]) && !IsJsSpace(Trim(s)[|Trim(s)| - 1]))
    ensures Trim(s) == [] <==> AllSpace(s)
  {
    var i, j := TrimBounds(s);
    if i == j {
      forall k | 0 <= k < |s| ensures IsJsSpace(s[k]) {
        if k < i {
          assert s[k] == s[..i][k];
        } else {
          assert s[k] == s[j..][k - j];
        }
      }
    }
  }

  lemma TrimIdempotent(s: string)
    ensures Trim(Trim(s)) == Trim(s)
  {
    var r := Trim(s);
    TrimSpec(s);
    assert TrimStart(r) == r;
    assert TrimEnd(r) == r;
  }

  /** The characters whose ECMAScript lower-case mapping is an ASCII
      letter: `A`..`Z` and KELVIN SIGN (U+212A, lower-cased to `k`). */
  function LowerChar(c: char): char {
    if 'A' <= c <= 'Z' then (c as int + 32) as char
    else if c == '\U{212A}' then 'k'
    else c
  }

  function Lower(s: string): (r: string)
    ensures |r| == |s|
  {
    seq(|s|, i requires 0 <= i < |s| => LowerChar(s[i]))
  }

  lemma LowerIdempotent(s: string)
    ensures Lower(Lower(s)) == Lower(s)
    ensures forall k :: 0 <= k < |s| ==> !('A' <= Lower(s)[k] <= 'Z')
  {
  }

  /** `s.split(sep).pop()`: the text after the last `sep`, or all of `s`
      when it has none. It is the longest suffix of `s` free of `sep`. */
  function LastSegment(s: string, sep: char): (r: string)
    ensures sep !in r
    ensures |r| <= |s| && r == s[|s| - |r|..]
    ensures |r| < |s| ==> s[|s| - |r| - 1] == sep
    decreases |s|
  {
    if |s| == 0 then ""
    else if s[|s| - 1] == sep then ""
    else
      var init, last := s[..|s| - 1], s[|s| - 1];
      var r0 := LastSegment(init, sep);
      var r := r0 + [last];
      assert s[|s| - |r|..] == init[|init| - |r0|..] + [last];
      assert |r| < |s| ==> s[|s| - |r| - 1] == init[|init| - |r0| - 1];
      assert forall c :: c in r ==> c in r0 || c == last;
      r
  }

  lemma LastSegmentWhole(s: string, sep: char)
    ensures LastSegment(s, sep) == s <==> sep !in s
  {
    var r := LastSegment(s, sep);
    if |r| < |s| {
      assert s[|s| - |r| - 1] in s;
    }
  }

  /** The segment after the last separator: whenever position `k` holds
      `sep` and no later position does, the last segment starts at `k + 1`. */
  lemma LastSegmentAt(s: string, sep: char, k: int)
    requires 0 <= k < |s| && s[k] == sep && sep !in s[k + 1..]
    ensures LastSegment(s, sep) == s[k + 1..]
  {
  }

  lemma LowerSuffix(s: string, n: nat)
    requires n <= |s|
    ensures Lower(s)[n..] == Lower(s[n..])
  {
  }

  /** A character other than an ASCII letter or the KELVIN SIGN is the
      lower-case image of itself and of nothing else. */
  lemma LowerCharHits(c: char, sep: char)
    requires !('a' <= sep <= 'z') && !('A' <= sep <= 'Z') && sep != '\U{212A}'
    ensures LowerChar(c) == sep <==> c == sep
  {
    if 'A' <= c <= 'Z' {
      assert 'a' <= LowerChar(c) <= 'z';
    }
  }

  lemma LowerAvoids(s: string, sep: char)
    requires !('a' <= sep <= 'z') && !('A' <= sep <= 'Z') && sep != '\U{212A}'
    ensures sep in Lower(s) <==> sep in s
  {
    if sep in Lower(s) {
      var k :| 0 <= k < |s| && Lower(s)[k] == sep;
      LowerCharHits(s[k], sep);
    }
    if sep in s {
      var k :| 0 <= k < |s| && s[k] == sep;
      LowerCharHits(s[k], sep);
      assert Lower(s)[k] == sep;
    }
  }

  /** Lower-casing and taking the last segment commute when the separator
      is neither an ASCII letter nor the KELVIN SIGN, which lower-cases to `k`. */
  lemma LastSegmentLower(s: string, sep: char)
    requires !('a' <= sep <= 'z') && !('A' <= sep <= 'Z') && sep != '\U{212A}'
    ensures LastSegment(Lower(s), sep) == Lower(LastSegment(s, sep))
  {
    var r := LastSegment(s, sep);
    if |r| < |s| {
      var k := |s| - |r| - 1;
      assert s[k + 1..] == r;
      LowerCharHits(s[k], sep);
      LowerSuffix(s, k + 1);
      LowerAvoids(r, sep);
      LastSegmentAt(Lower(s), sep, k);
    } else {
      LastSegmentWhole(s, sep);
      LowerAvoids(s, sep);
      LastSegmentWhole(Lower(s), sep);
    }
  }

  /** `name.split(".").pop()?.toLowerCase()`: the text after the last
      dot, lower-cased; the whole name lower-cased when it has no dot. */
  function FileExtension(name: string): string {
    Lower(LastSegment(name, '.'))
  }

  /** `s.endsWith(suffix)`, compared character by character. */
  predicate EndsWith(s: string, suffix: string) {
    |suffix| <= |s| && s[|s| - |suffix|..] == suffix
  }

  predicate OccursAt(s: string, pat: string, i: int) {
    0 <= i && i + |pat| <= |s| && s[i..i + |pat|] == pat
  }

  ghost predicate Occurs(s: string, pat: string) {
    exists i :: OccursAt(s, pat, i)
  }

  /** Python's `s.replace(pat, rep)`: one scan from the left, replacing each
      non-overlapping occurrence of `pat`. */
  function ReplaceAll(s: string, pat: string, rep: string): string
    requires pat != ""
    decreases |s|
  {
    if |s| < |pat| then s
    else if s[..|pat|] == pat then rep + ReplaceAll(s[|pat|..], pat, rep)
    else [s[0]] + ReplaceAll(s[1..], pat, rep)
  }

  lemma SliceOfTail(s: string, a: int, b: int)
    requires 1 <= a <= b <= |s|
    ensures s[1..][a - 1..b - 1] == s[a..b]
  {
    forall k | 0 <= k < b - a
      ensures s[1..][a - 1..b - 1][k] == s[a..b][k]
    {
      assert s[1..][a - 1..b - 1][k] == s[1..][a - 1 + k] == s[a + k];
    }
  }

  /** Without a match at the front, the pattern occurs in `s` exactly
      when it occurs in the rest of `s`. */
  lemma OccursInTail(s: string, pat: string)
    requires pat != "" && |s| >= |pat| && s[..|pat|] != pat
    ensures Occurs(s, pat) <==> Occurs(s[1..], pat)
  {
    var t := s[1..];
    if Occurs(s, pat) {
      var i :| OccursAt(s, pat, i);
      assert i != 0;
      SliceOfTail(s, i, i + |pat|);
      assert OccursAt(t, pat, i - 1);
    }
    if Occurs(t, pat) {
      var i :| OccursAt(t, pat, i);
      SliceOfTail(s, i + 1, i + 1 + |pat|);
      assert OccursAt(s, pat, i + 1);
    }
  }

  /** Removing a pattern shortens the text, and leaves it unchanged exactly
      when the pattern does not occur in it. */
  lemma {:induction false} RemoveAllUnchangedIff(s: string, pat: string)
    requires pat != ""
    ensures |ReplaceAll(s, pat, "")| <= |s|
    ensures ReplaceAll(s, pat, "") == s <==> !Occurs(s, pat)
    decreases |s|
  {
    if |s| < |pat| {
      assert !Occurs(s, pat);
    } else if s[..|pat|] == pat {
      RemoveAllUnchangedIff(s[|pat|..], pat);
      assert OccursAt(s, pat, 0);
    } else {
      var t := s[1..];
      RemoveAllUnchangedIff(t, pat);
      OccursInTail(s, pat);
      var r := ReplaceAll(s, pat, "");
      assert r == [s[0]] + ReplaceAll(t, pat, "");
      assert r == s <==> ReplaceAll(t, pat, "") == t;
    }
  }

  /** Python's `s.rstrip(c)`: the longest prefix of `s` that does not end
      with `c`; everything dropped is `c`. */
  function RStrip(s: string, c: char): (r: string)
    ensures |r| <= |s| && r == s[..|r|]
    ensures forall k :: |r| <= k < |s| ==> s[k] == c
    ensures r == [] || r[|r| - 1] != c
    decreases |s|
  {
    if |s| > 0 && s[|s| - 1] == c then RStrip(s[..|s| - 1], c) else s
  }
}
