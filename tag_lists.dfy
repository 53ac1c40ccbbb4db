// The multi-valued tag cell. A cell holds its tags as one string delimited
// by `;` or `,`; it is read with
// `[k.strip() for k in re.split(';|,', s) if k.strip() != '']` and written
// back with `'; '.join(tags)`. Both the photo objects and the table model
// use this pair, and both compare tags case-insensitively through lists of
// lower-cased tags.

module TagLists {
  import opened Outcomes
  import Text
  import Lists

  /** A tag as the splitter produces it: non-empty, stripped, free of delimiters. */
  predicate CleanTag(t: string) {
    |t| > 0 && Text.Stripped(t) && Text.NoDelim(t)
  }

  predicate AllClean(ts: seq<string>) {
    forall k | 0 <= k < |ts| :: CleanTag(ts[k])
  }

  lemma StripKeepsNoDelim(p: string)
    requires Text.NoDelim(p)
    ensures Text.NoDelim(Text.Strip(p))
  {
    var t := Text.Strip(p);
    Text.StripTrims(p);
    var i, j :| 0 <= i <= j <= |p| && t == p[i..j] && Text.AllSpace(p[..i]) && Text.AllSpace(p[j..]);
    forall k | 0 <= k < |t| ensures !Text.IsDelim(t[k]) {
      assert t[k] == p[i + k];
    }
  }

  /** Strip every piece and drop the empty ones. */
  function CleanPieces(ps: seq<string>): (r: seq<string>)
    requires forall k | 0 <= k < |ps| :: Text.NoDelim(ps[k])
    ensures AllClean(r)
    ensures |r| <= |ps|
  {
    if |ps| == 0 then []
    else
      var t := Text.Strip(ps[0]);
      StripKeepsNoDelim(ps[0]);
      assert forall k | 0 <= k < |ps| - 1 :: ps[1..][k] == ps[k + 1];
      var rest := CleanPieces(ps[1..]);
      AllCleanCons(t, rest);
      (if t == "" then [] else [t]) + rest
  }

  lemma AllCleanCons(t: string, rest: seq<string>)
    requires Text.Stripped(t) && Text.NoDelim(t) && AllClean(rest)
    ensures AllClean((if t == "" then [] else [t]) + rest)
  {
    var r := (if t == "" then [] else [t]) + rest;
    if t != "" {
      forall k | 0 <= k < |r| ensures CleanTag(r[k]) {
        if k > 0 {
          assert r[k] == rest[k - 1];
        }
      }
    } else {
      assert r == rest;
    }
  }

  /** `splitTags`: the tags of a cell, in order. */
  function SplitTags(s: string): (r: seq<string>)
    ensures AllClean(r)
  {
    CleanPieces(Text.Split(s))
  }

  /** `'; '.join(tags)`: how a cell is written back. */
  function JoinTags(ts: seq<string>): string {
    Text.Join("; ", ts)
  }

  lemma CleanPiecesCons(p: string, ps: seq<string>)
    requires Text.NoDelim(p) && forall k | 0 <= k < |ps| :: Text.NoDelim(ps[k])
    ensures forall k | 0 <= k < |[p] + ps| :: Text.NoDelim(([p] + ps)[k])
    ensures CleanPieces([p] + ps)
         == (if Text.Strip(p) == "" then [] else [Text.Strip(p)]) + CleanPieces(ps)
  {
    assert ([p] + ps)[0] == p;
    assert ([p] + ps)[1..] == ps;
  }

  /** A leading blank does not change the tags read from a cell. */
  lemma SplitTagsSpace(j: string)
    ensures SplitTags([' '] + j) == SplitTags(j)
  {
    Text.SplitGlue([' '], j);
    var sj := Text.Split(j);
    assert sj == [sj[0]] + sj[1..];
    CleanPiecesCons([' '] + sj[0], sj[1..]);
    Text.StripSpacePrefix([' '], sj[0]);
    CleanPiecesCons(sj[0], sj[1..]);
  }

  /** A clean tag written in front of `'; '` is read back first. */
  lemma SplitTagsCons(t: string, j: string)
    requires CleanTag(t)
    ensures SplitTags(t + "; " + j) == [t] + SplitTags(j)
  {
    assert t + "; " + j == t + [';'] + ([' '] + j);
    Text.SplitAtDelim(t, ';', [' '] + j);
    Text.SplitNoDelim(t);
    Text.StripStripped(t);
    CleanPiecesCons(t, Text.Split([' '] + j));
    SplitTagsSpace(j);
  }

  lemma SplitJoinOne(t: string)
    requires CleanTag(t)
    ensures SplitTags(JoinTags([t])) == [t]
  {
    Text.SplitNoDelim(t);
    Text.StripStripped(t);
    CleanPiecesCons(t, []);
  }

  /**
   * Splitting a joined list of clean tags gives the list back: writing a cell
   * with `'; '.join` and reading it with `splitTags` loses nothing.
   */
  lemma {:induction false} SplitJoin(ts: seq<string>)
    requires AllClean(ts)
    ensures SplitTags(JoinTags(ts)) == ts
  {
    if |ts| == 0 {
      Text.SplitNoDelim("");
      assert Text.Strip("") == "";
    } else if |ts| == 1 {
      SplitJoinOne(ts[0]);
      assert ts == [ts[0]];
    } else {
      assert JoinTags(ts) == ts[0] + "; " + JoinTags(ts[1..]);
      SplitTagsCons(ts[0], JoinTags(ts[1..]));
      SplitJoin(ts[1..]);
    }
  }

  /** Re-reading a cell that was written from its own tags reads the same tags. */
  lemma SplitTagsNormal(s: string)
    ensures SplitTags(JoinTags(SplitTags(s))) == SplitTags(s)
  {
    SplitJoin(SplitTags(s));
  }

  /** `[k.lower() for k in tags]`. */
  function LowerAll(ts: seq<string>): (r: seq<string>)
    ensures |r| == |ts|
    ensures forall k | 0 <= k < |ts| :: r[k] == Text.Lower(ts[k])
  {
    if |ts| == 0 then [] else [Text.Lower(ts[0])] + LowerAll(ts[1..])
  }

  lemma LowerAllRemoveAt(ts: seq<string>, k: nat)
    requires k < |ts|
    ensures LowerAll(Lists.RemoveAt(ts, k)) == Lists.RemoveAt(LowerAll(ts), k)
  {
    var a := LowerAll(Lists.RemoveAt(ts, k));
    var b := Lists.RemoveAt(LowerAll(ts), k);
    forall j | 0 <= j < |a| ensures a[j] == b[j] {
      if j < k {
        assert a[j] == Text.Lower(ts[j]);
      } else {
        assert a[j] == Text.Lower(ts[j + 1]);
      }
    }
  }

  /** Whether `t` is among `ts` ignoring case. */
  predicate HasTag(ts: seq<string>, t: string) {
    Text.Lower(t) in LowerAll(ts)
  }

  /**
   * `tags.pop(tagsLow.index(t.lower()))` when present: the first tag equal
   * to `t` ignoring case is dropped; otherwise nothing changes.
   */
  function DropTag(ts: seq<string>, t: string): (r: seq<string>)
    ensures HasTag(ts, t) ==> |r| == |ts| - 1
    ensures !HasTag(ts, t) ==> r == ts
    ensures multiset(r) <= multiset(ts)
  {
    match Lists.IndexOf(LowerAll(ts), Text.Lower(t))
    case None => ts
    case Some(k) =>
      assert ts == ts[..k] + [ts[k]] + ts[k + 1..];
      Lists.RemoveAt(ts, k)
  }

  /** Dropping a tag removes exactly the first tag equal to it ignoring case. */
  lemma DropTagFirst(ts: seq<string>, t: string)
    requires HasTag(ts, t)
    ensures exists k | 0 <= k < |ts| ::
      Text.Lower(ts[k]) == Text.Lower(t)
      && (forall j | 0 <= j < k :: Text.Lower(ts[j]) != Text.Lower(t))
      && DropTag(ts, t) == ts[..k] + ts[k + 1..]
  {
    var low := LowerAll(ts);
    var k := Lists.IndexOf(low, Text.Lower(t)).value;
    assert Text.Lower(ts[k]) == Text.Lower(t);
    forall j | 0 <= j < k
      ensures Text.Lower(ts[j]) != Text.Lower(t)
    {
      assert low[j] == low[..k][j];
    }
    assert DropTag(ts, t) == ts[..k] + ts[k + 1..];
  }
}
