// Release-number comparison (src/datastore/database/utl.py), used to decide
// whether a database file needs converting. `pkg_resources.parse_version`
// is not modelled: it is a parameter `pv` mapping a release string to a
// version, and `older` is the order on versions that `<` stands for.

module Release {
  import opened Outcomes
  import Text

  // ----------------------------------------------- parenthesised annotations

  /**
   * Where `re.match('\(.*?\)', s[i - 1..])` ends, for `s[i - 1] == '('`: the
   * first ')' at or after `i`, provided no line break comes before it (`.`
   * does not match a line break).
   */
  function CloseAt(s: string, i: nat): (r: Option<nat>)
    requires i <= |s|
    ensures r.Some? ==> i <= r.value < |s| && s[r.value] == ')'
    ensures r.Some? ==> forall k | i <= k < r.value :: s[k] != ')' && s[k] != '\n'
    ensures r.None? ==> forall k | i <= k < |s| ::
      s[k] != ')' || exists m | i <= m < k :: s[m] == '\n'
    decreases |s| - i
  {
    if i == |s| then None
    else if s[i] == ')' then Some(i)
    else if s[i] == '\n' then None
    else CloseAt(s, i + 1)
  }

  /** `re.sub('\(.*?\)', '', s)`: every parenthesised annotation, found left to right, is removed. */
  function StripParens(s: string): (r: string)
    ensures |r| <= |s|
    decreases |s|
  {
    if |s| == 0 then ""
    else if s[0] == '(' then
      match CloseAt(s, 1)
      case Some(j) => StripParens(s[j + 1..])
      case None => [s[0]] + StripParens(s[1..])
    else [s[0]] + StripParens(s[1..])
  }

  /** Text without a '(' holds no annotation. */
  lemma {:induction false} StripParensNone(s: string)
    requires '(' !in s
    ensures StripParens(s) == s
  {
    if |s| > 0 {
      assert '(' !in s[1..] by {
        forall k | 0 <= k < |s[1..]| ensures s[1..][k] != '(' {
          assert s[1..][k] == s[k + 1];
        }
      }
      StripParensNone(s[1..]);
    }
  }

  /** A closing annotation such as `(beta)` is dropped from a release number. */
  lemma {:induction false} StripParensAnnotation(s: string, note: string)
    requires '(' !in s && ')' !in note && '\n' !in note
    ensures StripParens(s + "(" + note + ")") == s
  {
    var t := s + "(" + note + ")";
    if |s| == 0 {
      assert t[0] == '(';
      assert CloseAt(t, 1) == Some(|note| + 1) by {
        CloseAtSkips(t, 1, |note| + 1);
      }
      assert t[|note| + 2..] == "";
    } else {
      assert t[1..] == s[1..] + "(" + note + ")";
      assert s[0] != '(';
      assert '(' !in s[1..] by {
        forall k | 0 <= k < |s[1..]| ensures s[1..][k] != '(' {
          assert s[1..][k] == s[k + 1];
        }
      }
      StripParensAnnotation(s[1..], note);
    }
  }

  /** The scan for ')' passes over text free of ')' and line breaks. */
  lemma {:induction false} CloseAtSkips(s: string, i: nat, j: nat)
    requires i <= j < |s| && s[j] == ')'
    requires forall k | i <= k < j :: s[k] != ')' && s[k] != '\n'
    ensures CloseAt(s, i) == Some(j)
    decreases j - i
  {
    if i < j {
      CloseAtSkips(s, i + 1, j);
    }
  }

  // ----------------------------------------------------------- comparison

  /** `older` is a strict total order on versions, as `parse_version`'s `<` is. */
  ghost predicate StrictTotal<V(!new)>(older: (V, V) -> bool) {
    (forall x :: !older(x, x))
    && (forall x, y :: older(x, y) ==> !older(y, x))
    && (forall x, y :: x != y ==> older(x, y) || older(y, x))
  }

  /**
   * `compareRelease(a, b)`: -1 when `a` is older, 0 when the two versions
   * are equal, 1 otherwise; annotations in parentheses are ignored.
   */
  function CompareRelease<V(==)>(pv: string -> V, older: (V, V) -> bool, a: string, b: string): (r: int)
    ensures r == -1 || r == 0 || r == 1
    ensures r == -1 <==> older(pv(StripParens(a)), pv(StripParens(b)))
    ensures r == 0 <==> !older(pv(StripParens(a)), pv(StripParens(b))) && pv(StripParens(a)) == pv(StripParens(b))
  {
    var va, vb := pv(StripParens(a)), pv(StripParens(b));
    if older(va, vb) then -1 else if va == vb then 0 else 1
  }

  /** Every release compares equal to itself. */
  lemma CompareReleaseSame<V(!new)>(pv: string -> V, older: (V, V) -> bool, a: string)
    requires StrictTotal(older)
    ensures CompareRelease(pv, older, a, a) == 0
  {
    var va := pv(StripParens(a));
    assert !older(va, va);
  }

  /** Swapping the arguments negates the answer. */
  lemma CompareReleaseSwap<V(!new)>(pv: string -> V, older: (V, V) -> bool, a: string, b: string)
    requires StrictTotal(older)
    ensures CompareRelease(pv, older, a, b) == -CompareRelease(pv, older, b, a)
  {
    var va, vb := pv(StripParens(a)), pv(StripParens(b));
    assert older(va, vb) ==> !older(vb, va);
    assert va != vb ==> older(va, vb) || older(vb, va);
    assert !older(va, va);
  }

  /** `0.3.1(beta)` is the same release as `0.3.1`. */
  lemma AnnotatedReleaseEqual<V(!new)>(pv: string -> V, older: (V, V) -> bool)
    requires forall x :: !older(x, x)
    ensures CompareRelease(pv, older, "0.3.1(beta)", "0.3.1") == 0
  {
    assert "0.3.1(beta)" == "0.3.1" + "(" + "beta" + ")";
    StripParensAnnotation("0.3.1", "beta");
    StripParensNone("0.3.1");
    assert !older(pv("0.3.1"), pv("0.3.1"));
  }

  // ------------------------------------------------------- minor revision

  /** `s.split(c)`. */
  function SplitOn(s: string, c: char): (r: seq<string>)
    ensures |r| >= 1
    ensures forall k | 0 <= k < |r| :: c !in r[k]
  {
    if |s| == 0 then [""]
    else
      var rest := SplitOn(s[1..], c);
      if s[0] == c then [""] + rest else [[s[0]] + rest[0]] + rest[1..]
  }

  /** Joining the pieces with the separator gives the text back. */
  lemma {:induction false} JoinSplitOn(s: string, c: char)
    ensures Text.Join([c], SplitOn(s, c)) == s
  {
    if |s| > 0 {
      var rest := SplitOn(s[1..], c);
      JoinSplitOn(s[1..], c);
      if s[0] == c {
        assert s == [c] + s[1..];
        if |rest| == 1 {
          assert Text.Join([c], [""] + rest) == "" + [c] + rest[0];
        } else {
          assert ([""] + rest)[1..] == rest;
        }
      } else {
        assert s == [s[0]] + s[1..];
        var r := [[s[0]] + rest[0]] + rest[1..];
        if |rest| > 1 {
          assert r[1..] == rest[1..];
          assert Text.Join([c], rest) == rest[0] + [c] + Text.Join([c], rest[1..]);
        }
      }
    }
  }

  /** A piece free of the separator, then the separator, splits off as the first piece. */
  lemma {:induction false} SplitOnFront(p: string, c: char, t: string)
    requires c !in p
    ensures SplitOn(p + [c] + t, c) == [p] + SplitOn(t, c)
  {
    if |p| == 0 {
      assert (p + [c] + t)[1..] == t;
    } else {
      assert (p + [c] + t)[1..] == p[1..] + [c] + t;
      assert c !in p[1..] by {
        forall k | 0 <= k < |p[1..]| ensures p[1..][k] != c {
          assert p[1..][k] == p[k + 1];
        }
      }
      SplitOnFront(p[1..], c, t);
      assert [p[0]] + p[1..] == p;
    }
  }

  /** `'.'.join(parts[:2])`: the release cut to its major and minor numbers. */
  function MinorPart(s: string): string {
    var parts := SplitOn(StripParens(s), '.');
    Text.Join(".", if |parts| < 2 then parts else parts[..2])
  }

  /** A patch number and what follows it do not reach the minor part. */
  lemma MinorPartDropsPatch(major: string, minor: string, rest: string)
    requires '.' !in major && '.' !in minor && '(' !in major + "." + minor + "." + rest
    ensures MinorPart(major + "." + minor + "." + rest) == major + "." + minor
  {
    var s := major + "." + minor + "." + rest;
    StripParensNone(s);
    assert s == major + ['.'] + (minor + ['.'] + rest);
    SplitOnFront(major, '.', minor + ['.'] + rest);
    SplitOnFront(minor, '.', rest);
    var parts := SplitOn(s, '.');
    assert parts[..2] == [major, minor];
  }

  /** `compareMinor(a, b)`: the two releases compared on their major and minor numbers only. */
  function CompareMinor<V(==)>(pv: string -> V, older: (V, V) -> bool, a: string, b: string): (r: int)
    ensures r == -1 || r == 0 || r == 1
  {
    CompareRelease(pv, older, MinorPart(a), MinorPart(b))
  }

  /** Releases with the same major and minor numbers are the same minor release, whatever follows. */
  lemma CompareMinorSamePart<V(!new)>(pv: string -> V, older: (V, V) -> bool, major: string, minor: string, p: string, q: string)
    requires forall x :: !older(x, x)
    requires '.' !in major && '.' !in minor
    requires '(' !in major + "." + minor + "." + p && '(' !in major + "." + minor + "." + q
    ensures CompareMinor(pv, older, major + "." + minor + "." + p, major + "." + minor + "." + q) == 0
  {
    MinorPartDropsPatch(major, minor, p);
    MinorPartDropsPatch(major, minor, q);
    var m := major + "." + minor;
    assert !older(pv(StripParens(m)), pv(StripParens(m)));
  }

  /** `0.3.1` and `0.3.7` are the same minor release. */
  lemma CompareMinorIgnoresPatch<V(!new)>(pv: string -> V, older: (V, V) -> bool)
    requires forall x :: !older(x, x)
    ensures CompareMinor(pv, older, "0.3.1", "0.3.7") == 0
  {
    assert "0.3.1" == "0" + "." + "3" + "." + "1";
    assert "0.3.7" == "0" + "." + "3" + "." + "7";
    CompareMinorSamePart(pv, older, "0", "3", "1", "7");
  }
}
