// Python string built-ins the photo organiser relies on, stated over
// `string` (= seq<char>): ASCII `str.lower`, `str.strip`, the
// `re.split(';|,', s)` tag splitter, `sep.join`, the `in` substring test
// and `str.replace`.

module Text {

  /** Characters removed by Python's argument-less `str.strip`. */
  predicate IsSpace(c: char) {
    c == ' ' || c == '\t' || c == '\n' || c == '\r' || c == '\U{0B}' || c == '\U{0C}'
  }

  /** The tag delimiters of `re.split(';|,', s)`. */
  predicate IsDelim(c: char) {
    c == ';' || c == ','
  }

  predicate NoDelim(s: string) {
    forall i | 0 <= i < |s| :: !IsDelim(s[i])
  }

  /** A string with no leading or trailing white space. */
  predicate Stripped(s: string) {
    |s| == 0 || (!IsSpace(s[0]) && !IsSpace(s[|s| - 1]))
  }

  predicate AllSpace(s: string) {
    forall i | 0 <= i < |s| :: IsSpace(s[i])
  }

  // ---------------------------------------------------------------- lower

  function LowerChar(c: char): char {
    if 'A' <= c <= 'Z' then (c as int + 32) as char else c
  }

  /** `str.lower()` on byte strings: ASCII letters only. */
  function Lower(s: string): (r: string)
    ensures |r| == |s|
    ensures forall i | 0 <= i < |s| :: r[i] == LowerChar(s[i])
  {
    if |s| == 0 then "" else [LowerChar(s[0])] + Lower(s[1..])
  }

  lemma {:induction false} LowerIdempotent(s: string)
    ensures Lower(Lower(s)) == Lower(s)
  {
    if |s| > 0 {
      LowerIdempotent(s[1..]);
    }
  }

  lemma {:induction false} LowerConcat(a: string, b: string)
    ensures Lower(a + b) == Lower(a) + Lower(b)
  {
    var l := Lower(a + b);
    assert forall i | 0 <= i < |l| :: l[i] == (Lower(a) + Lower(b))[i];
  }

  // ---------------------------------------------------------------- strip

  function StripLeft(s: string): (r: string)
    ensures |r| <= |s| && r == s[|s| - |r|..]
    ensures AllSpace(s[..|s| - |r|])
    ensures |r| == 0 || !IsSpace(r[0])
  {
    if |s| > 0 && IsSpace(s[0]) then StripLeft(s[1..]) else s
  }

  function StripRight(s: string): (r: string)
    ensures |r| <= |s| && r == s[..|r|]
    ensures AllSpace(s[|r|..])
    ensures |r| == 0 || !IsSpace(r[|r| - 1])
  {
    if |s| > 0 && IsSpace(s[|s| - 1]) then StripRight(s[..|s| - 1]) else s
  }

  /** `str.strip()`: the longest infix that neither starts nor ends with white space. */
  function Strip(s: string): (r: string)
    ensures Stripped(r) && |r| <= |s|
  {
    StripRight(StripLeft(s))
  }

  /** What `strip()` drops is white space on either side of the infix it keeps. */
  lemma StripTrims(s: string)
    ensures exists i, j | 0 <= i <= j <= |s| :: Strip(s) == s[i..j] && AllSpace(s[..i]) && AllSpace(s[j..])
  {
    var l := StripLeft(s);
    StripInfix(s, |s| - |l|, l, StripRight(l));
  }

  /** A prefix `r` of the suffix `l` of `s` starting at `i`, with white space around it, is an infix of `s`. */
  lemma StripInfix(s: string, i: nat, l: string, r: string)
    requires i <= |s| && l == s[i..] && |r| <= |l| && r == l[..|r|]
    requires AllSpace(s[..i]) && AllSpace(l[|r|..])
    ensures exists a, b | 0 <= a <= b <= |s| :: r == s[a..b] && AllSpace(s[..a]) && AllSpace(s[b..])
  {
    SliceOfSlice(s, i, |r|);
    assert r == s[i..i + |r|] && AllSpace(s[i + |r|..]);
  }

  /** Slicing a suffix again is slicing the original. */
  lemma SliceOfSlice<T>(s: seq<T>, i: nat, k: nat)
    requires i + k <= |s|
    ensures s[i..][..k] == s[i..i + k] && s[i..][k..] == s[i + k..]
  {
    var t := s[i..];
    assert forall x | 0 <= x < k :: t[..k][x] == s[i..i + k][x];
    assert forall x | 0 <= x < |s| - i - k :: t[k..][x] == s[i + k..][x];
  }

  lemma StripStripped(s: string)
    requires Stripped(s)
    ensures Strip(s) == s
  {
  }

  /** Leading white space never survives `strip`. */
  lemma {:induction false} StripSpacePrefix(p: string, s: string)
    requires AllSpace(p)
    ensures Strip(p + s) == Strip(s)
  {
    StripLeftSpacePrefix(p, s);
  }

  lemma {:induction false} StripLeftSpacePrefix(p: string, s: string)
    requires AllSpace(p)
    ensures StripLeft(p + s) == StripLeft(s)
  {
    if |p| > 0 {
      assert (p + s)[1..] == p[1..] + s;
      assert IsSpace((p + s)[0]);
      StripLeftSpacePrefix(p[1..], s);
      calc {
        StripLeft(p + s);
        StripLeft((p + s)[1..]);
        StripLeft(p[1..] + s);
      }
    } else {
      assert p + s == s;
    }
  }

  // ---------------------------------------------------------------- split

  function CountDelims(s: string): nat {
    if |s| == 0 then 0 else (if IsDelim(s[0]) then 1 else 0) + CountDelims(s[1..])
  }

  /** `re.split(';|,', s)`: the pieces between delimiters, empty ones included. */
  function Split(s: string): (r: seq<string>)
    ensures |r| == CountDelims(s) + 1
    ensures forall k | 0 <= k < |r| :: NoDelim(r[k])
  {
    if |s| == 0 then [""]
    else if IsDelim(s[0]) then [""] + Split(s[1..])
    else
      var t := Split(s[1..]);
      [[s[0]] + t[0]] + t[1..]
  }

  lemma {:induction false} SplitNoDelim(s: string)
    requires NoDelim(s)
    ensures Split(s) == [s]
  {
    if |s| > 0 {
      assert !IsDelim(s[0]);
      assert NoDelim(s[1..]);
      SplitNoDelim(s[1..]);
      assert [s[0]] + s[1..] == s;
    }
  }

  /** A delimiter always ends a piece: splitting distributes over it. */
  lemma {:induction false} SplitAtDelim(a: string, d: char, b: string)
    requires IsDelim(d)
    ensures Split(a + [d] + b) == Split(a) + Split(b)
  {
    if |a| == 0 {
      assert a + [d] + b == [d] + b;
      assert ([d] + b)[1..] == b;
    } else {
      assert (a + [d] + b)[1..] == a[1..] + [d] + b;
      SplitAtDelim(a[1..], d, b);
    }
  }

  /** Leading non-delimiter characters glue onto the first piece. */
  lemma {:induction false} SplitGlue(p: string, b: string)
    requires NoDelim(p)
    ensures Split(p + b) == [p + Split(b)[0]] + Split(b)[1..]
  {
    if |p| > 0 {
      assert (p + b)[1..] == p[1..] + b;
      assert !IsDelim((p + b)[0]);
      assert NoDelim(p[1..]);
      SplitGlue(p[1..], b);
      var t := Split(p[1..] + b);
      assert t == [p[1..] + Split(b)[0]] + Split(b)[1..];
      assert Split(p + b) == [[p[0]] + t[0]] + t[1..];
      assert [p[0]] + (p[1..] + Split(b)[0]) == p + Split(b)[0];
    } else {
      assert p + b == b;
      assert p + Split(b)[0] == Split(b)[0];
    }
  }

  // ----------------------------------------------------------------- join

  /** `sep.join(xs)`. */
  function Join(sep: string, xs: seq<string>): (r: string)
    ensures |xs| == 0 ==> r == ""
    ensures |xs| == 1 ==> r == xs[0]
  {
    if |xs| == 0 then ""
    else if |xs| == 1 then xs[0]
    else xs[0] + sep + Join(sep, xs[1..])
  }

  // ------------------------------------------------------------ substring

  /** The Python test `needle in hay`. */
  predicate Contains(hay: string, needle: string) {
    exists i | 0 <= i <= |hay| :: OccursAt(hay, needle, i)
  }

  predicate OccursAt(hay: string, needle: string, i: nat) {
    i + |needle| <= |hay| && hay[i..i + |needle|] == needle
  }

  /** The same test, computed by scanning left to right. */
  function Find(hay: string, needle: string): (r: bool)
    ensures r <==> Contains(hay, needle)
    decreases |hay|
  {
    if |needle| <= |hay| && hay[..|needle|] == needle then
      assert OccursAt(hay, needle, 0);
      true
    else if |needle| > |hay| then false
    else
      ContainsShift(hay, needle);
      Find(hay[1..], needle)
  }

  lemma ContainsShift(hay: string, needle: string)
    requires |needle| <= |hay| && hay[..|needle|] != needle
    ensures Contains(hay, needle) <==> Contains(hay[1..], needle)
  {
    if Contains(hay[1..], needle) {
      var i :| 0 <= i <= |hay[1..]| && OccursAt(hay[1..], needle, i);
      assert hay[i + 1..i + 1 + |needle|] == hay[1..][i..i + |needle|];
      assert OccursAt(hay, needle, i + 1);
    }
    if Contains(hay, needle) {
      var i :| 0 <= i <= |hay| && OccursAt(hay, needle, i);
      assert i != 0;
      assert hay[1..][i - 1..i - 1 + |needle|] == hay[i..i + |needle|];
      assert OccursAt(hay[1..], needle, i - 1);
    }
  }

  lemma ContainsEmpty(hay: string)
    ensures Contains(hay, "")
  {
    assert OccursAt(hay, "", 0);
  }

  lemma ContainsSelf(s: string)
    ensures Contains(s, s)
  {
    assert OccursAt(s, s, 0);
  }

  // -------------------------------------------------------------- replace

  /**
   * `s.replace(pat, rep)`: every non-overlapping occurrence of `pat`, found
   * left to right, becomes `rep`; an empty `pat` inserts `rep` around every
   * character.
   */
  function Replace(s: string, pat: string, rep: string): (r: string)
    decreases |s|
  {
    if |pat| == 0 then
      if |s| == 0 then rep else rep + [s[0]] + Replace(s[1..], pat, rep)
    else if |pat| <= |s| && s[..|pat|] == pat then
      rep + Replace(s[|pat|..], pat, rep)
    else if |s| == 0 then ""
    else [s[0]] + Replace(s[1..], pat, rep)
  }

  /** A string in which `pat` does not occur is left as it is. */
  lemma {:induction false} ReplaceAbsent(s: string, pat: string, rep: string)
    requires |pat| > 0 && !Contains(s, pat)
    ensures Replace(s, pat, rep) == s
  {
    assert !OccursAt(s, pat, 0);
    if |s| > 0 {
      if |pat| <= |s| {
        ContainsShift(s, pat);
      } else {
        assert !Contains(s[1..], pat);
      }
      ReplaceAbsent(s[1..], pat, rep);
    }
  }

  /** Replacing a value by itself changes nothing. */
  lemma {:induction false} ReplaceSame(s: string, a: string)
    ensures Replace(s, a, a) == s
    decreases |s|
  {
    if |a| == 0 {
      if |s| > 0 {
        ReplaceSame(s[1..], a);
      }
    } else if |a| <= |s| && s[..|a|] == a {
      ReplaceSame(s[|a|..], a);
      assert s == s[..|a|] + s[|a|..];
    } else if |s| > 0 {
      ReplaceSame(s[1..], a);
    }
  }
}
