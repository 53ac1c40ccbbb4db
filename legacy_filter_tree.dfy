// The tag tree of the first generation (FilterTree.py): categories holding
// tags, each tag checkable; a refresh from a dictionary of category ids to
// (TagId, value) lists; the reachable-tag query; and the proxy that hides
// unreachable tags. The view and its item model are one class whose `cats`
// the methods rewrite. Categories are the Fields rows of `Tables.Store` and
// a tag's category is its row's `fieldId`.

module LegacyFilterTree {
  import opened Outcomes
  import opened Tables
  import Lists
  import FilterTree

  type CheckState = FilterTree.CheckState

  /** A tag row: its TagId, the text it shows and its check state. */
  datatype TagItem = TagItem(id: int, text: string, state: CheckState)

  /** A category row: its id, its text and its tag rows in model order. */
  datatype CatItem = CatItem(id: int, text: string, tags: seq<TagItem>)

  /** `catIds()`. */
  function CatIds(cs: seq<CatItem>): (r: seq<int>)
    ensures |r| == |cs| && forall i | 0 <= i < |cs| :: r[i] == cs[i].id
  {
    seq(|cs|, i requires 0 <= i < |cs| => cs[i].id)
  }

  function TagIds(ts: seq<TagItem>): (r: seq<int>)
    ensures |r| == |ts| && forall j | 0 <= j < |ts| :: r[j] == ts[j].id
  {
    seq(|ts|, j requires 0 <= j < |ts| => ts[j].id)
  }

  /** `catIds().index(catId)`: the first category with the id; ValueError when there is none. */
  function CatIndex(cs: seq<CatItem>, catId: int): (r: Result<nat>)
    ensures r.Err? <==> catId !in CatIds(cs)
    ensures r.Err? ==> r.error == ValueError
    ensures r.Ok? ==> r.value < |cs| && cs[r.value].id == catId && forall i | 0 <= i < r.value :: cs[i].id != catId
  {
    match Lists.IndexOf(CatIds(cs), catId)
    case None => Err(ValueError)
    case Some(i) =>
      assert forall k | 0 <= k < i :: CatIds(cs)[..i][k] == CatIds(cs)[k];
      Ok(i)
  }

  /** No earlier category has the same id, so `catIds().index` finds this one. */
  predicate FirstOfId(cs: seq<CatItem>, i: nat)
    requires i < |cs|
  {
    forall k | 0 <= k < i :: cs[k].id != cs[i].id
  }

  /** `addTag`: a user-checkable item, Unchecked. */
  function NewTag(tagId: int, value: string): (r: TagItem)
    ensures r.id == tagId && r.text == value && r.state == FilterTree.Unchecked
  {
    TagItem(tagId, value, FilterTree.Unchecked)
  }

  // ------------------------------------------------------------ updateTree

  /** The dictionary `updateTree` is given, as its items in iteration order. */
  type CatTagDict = seq<(int, seq<(int, string)>)>

  predicate DistinctKeys(d: CatTagDict) {
    forall a, b | 0 <= a < b < |d| :: d[a].0 != d[b].0
  }

  function Keys(d: CatTagDict): (r: seq<int>)
    ensures |r| == |d| && forall k | 0 <= k < |d| :: r[k] == d[k].0
  {
    seq(|d|, k requires 0 <= k < |d| => d[k].0)
  }

  /** `newIdPairs`: every (category id, TagId) the dictionary lists. */
  function Pairs(d: CatTagDict): set<(int, int)> {
    set k, j | 0 <= k < |d| && 0 <= j < |d[k].1| :: (d[k].0, d[k].1[j].0)
  }

  /** The inner add loop: each listed tag whose id is not yet among the category's tags is appended. */
  function AddMissing(ts: seq<TagItem>, taglist: seq<(int, string)>): (r: seq<TagItem>)
    ensures |ts| <= |r| && r[..|ts|] == ts
  {
    if |taglist| == 0 then ts
    else
      var before := AddMissing(ts, taglist[..|taglist| - 1]);
      var (tid, tv) := taglist[|taglist| - 1];
      if tid in TagIds(before) then before else before + [NewTag(tid, tv)]
  }

  /** The tree after the add loop, and whether a category id not in the tree cut it short. */
  datatype Added = Added(cats: seq<CatItem>, failed: bool)

  /**
   * The add loop from dictionary item `n` on: each item goes to the first
   * category with its id; an id no category has raises ValueError, and the
   * items added before it stay.
   */
  function AddFrom(cs: seq<CatItem>, d: CatTagDict, n: nat): (r: Added)
    requires n <= |d|
    ensures CatIds(r.cats) == CatIds(cs)
    decreases |d| - n
  {
    if n == |d| then Added(cs, false)
    else
      match CatIndex(cs, d[n].0)
      case Err(_) => Added(cs, true)
      case Ok(i) =>
        var next := cs[i := cs[i].(tags := AddMissing(cs[i].tags, d[n].1))];
        assert CatIds(next) == CatIds(cs);
        AddFrom(next, d, n + 1)
  }

  /** An item whose category exists adds its missing tags there and the loop goes on. */
  lemma AddFromNext(cs: seq<CatItem>, d: CatTagDict, n: nat, i: nat)
    requires n < |d| && CatIndex(cs, d[n].0) == Ok(i)
    ensures var next := cs[i := cs[i].(tags := AddMissing(cs[i].tags, d[n].1))];
      AddFrom(cs, d, n).cats == AddFrom(next, d, n + 1).cats && AddFrom(cs, d, n).failed == AddFrom(next, d, n + 1).failed
  {
  }

  /** When the add loop does not fail, every key it went over names a category. */
  lemma {:induction false} AddFromKnown(cs: seq<CatItem>, d: CatTagDict, n: nat)
    requires n <= |d| && !AddFrom(cs, d, n).failed
    ensures forall a | n <= a < |d| :: d[a].0 in CatIds(cs)
    decreases |d| - n
  {
    if n < |d| {
      var i := CatIndex(cs, d[n].0).value;
      var next := cs[i := cs[i].(tags := AddMissing(cs[i].tags, d[n].1))];
      assert CatIds(next) == CatIds(cs);
      AddFromKnown(next, d, n + 1);
    }
  }

  /** An item whose category is missing stops the loop with ValueError, keeping what was added. */
  lemma AddFromStops(cs: seq<CatItem>, d: CatTagDict, n: nat)
    requires n < |d| && CatIndex(cs, d[n].0).Err?
    ensures AddFrom(cs, d, n).failed && AddFrom(cs, d, n).cats == cs
  {
  }

  /** The tags of category `catId` that survive the removal loop: those whose pair is listed. */
  function KeepListed(ts: seq<TagItem>, catId: int, pairs: set<(int, int)>): seq<TagItem> {
    if |ts| == 0 then []
    else (if (catId, ts[0].id) in pairs then [ts[0]] else []) + KeepListed(ts[1..], catId, pairs)
  }

  /** The removal loop for the categories whose ids are in `keys`; the others are untouched. */
  function PruneCats(cs: seq<CatItem>, keys: seq<int>, pairs: set<(int, int)>): (r: seq<CatItem>)
    ensures |r| == |cs|
    ensures CatIds(r) == CatIds(cs)
  {
    seq(|cs|, i requires 0 <= i < |cs| =>
      if cs[i].id in keys && FirstOfId(cs, i) then cs[i].(tags := KeepListed(cs[i].tags, cs[i].id, pairs)) else cs[i])
  }

  /** `updateTree(catTagDict)`: the add loop, then (when it did not fail) the removal loop. */
  function UpdateSpec(cs: seq<CatItem>, d: CatTagDict): Added {
    var a := AddFrom(cs, d, 0);
    if a.failed then a else Added(PruneCats(a.cats, Keys(d), Pairs(d)), false)
  }

  // ------------------------------------------------------ checked and reach

  /** The tags of one category whose state is not Unchecked, in order. */
  function CheckedIn(ts: seq<TagItem>): seq<TagItem> {
    if |ts| == 0 then []
    else CheckedIn(ts[..|ts| - 1]) + (if ts[|ts| - 1].state != FilterTree.Unchecked then [ts[|ts| - 1]] else [])
  }

  /** `getCheckedItems()`: every tag whose check state is non-zero, category by category. */
  function CheckedItems(cs: seq<CatItem>): seq<TagItem> {
    if |cs| == 0 then []
    else CheckedItems(cs[..|cs| - 1]) + CheckedIn(cs[|cs| - 1].tags)
  }

  /**
   * `getCheckedTagIds()`: the ids as text; the query compares them with the
   * integer TagId column, which reads them back as the integers they print.
   */
  function IdsOf(ts: seq<TagItem>): (r: seq<int>)
    ensures |r| == |ts| && forall k | 0 <= k < |ts| :: r[k] == ts[k].id
  {
    seq(|ts|, k requires 0 <= k < |ts| => ts[k].id)
  }

  /**
   * `getFilteredTags(catId)`: None when no tag is checked, otherwise the
   * distinct tags of category `catId` mapped to a file whose number of
   * checked-tag mappings equals the number of checked tags. The checked
   * tags themselves are not added.
   */
  function GetFilteredTags(cs: seq<CatItem>, s: Store, catId: int): Option<set<int>> {
    var ids := IdsOf(CheckedItems(cs));
    if |ids| == 0 then None else Some(FilterTree.Reach(s, catId, ids))
  }

  /** `TagFilterProxyModel.filterAcceptsRow`: every category row; a tag row when nothing is checked or it is reachable. */
  function FilterAcceptsRow(cs: seq<CatItem>, s: Store, row: FilterTree.RowRef): bool
    requires ValidRef(cs, row)
  {
    match row
    case FieldRef(_) => true
    case TagRef(i, j) =>
      var accept := GetFilteredTags(cs, s, cs[i].id);
      accept.None? || cs[i].tags[j].id in accept.value
  }

  predicate ValidRef(cs: seq<CatItem>, row: FilterTree.RowRef) {
    match row
    case FieldRef(i) => i < |cs|
    case TagRef(i, j) => i < |cs| && j < |cs[i].tags|
  }

  // ----------------------------------------------------------------- view

  /** `TagTreeView` with its `TagItemModel`: the category rows. */
  class TagTreeView {
    var cats: seq<CatItem>

    constructor ()
      ensures cats == []
    {
      cats := [];
    }

    /** `addCategory(catId, catValue)`: a category row with no tags, appended. */
    method AddCategory(catId: int, catValue: string) returns (pos: nat)
      modifies this`cats
      ensures cats == old(cats) + [CatItem(catId, catValue, [])] && pos == |old(cats)|
    {
      cats := cats + [CatItem(catId, catValue, [])];
      pos := |cats| - 1;
    }

    /**
     * `addTag(cat, tagId, tagValue)`: the category is the item itself or is
     * found by id (ValueError when no category has it); the new tag is
     * appended Unchecked.
     */
    method AddTag(cat: FilterTree.CatRef, tagId: int, tagValue: string) returns (r: Result<()>)
      requires cat.ByItem? ==> cat.pos < |cats|
      modifies this`cats
      ensures cat.ById? ==> (r.Ok? <==> cat.catId in CatIds(old(cats)))
      ensures cat.ByItem? ==> r.Ok?
      ensures r.Err? ==> r.error == ValueError && cats == old(cats)
      ensures r.Ok? ==> var i := if cat.ByItem? then cat.pos else CatIndex(old(cats), cat.catId).value;
        cats == old(cats)[i := old(cats)[i].(tags := old(cats)[i].tags + [NewTag(tagId, tagValue)])]
    {
      var i: nat;
      if cat.ByItem? {
        i := cat.pos;
      } else {
        var found := CatIndex(cats, cat.catId);
        if found.Err? {
          return Err(found.error);
        }
        i := found.value;
      }
      cats := cats[i := cats[i].(tags := cats[i].tags + [NewTag(tagId, tagValue)])];
      r := Ok(());
    }

    /**
     * `updateTree(catTagDict)`: for each dictionary item, the listed tags
     * whose ids the category lacks are added (ValueError for an unknown
     * category id, after the earlier additions); then, for each category the
     * dictionary names, its tags are walked from the last to the first and
     * those whose (category id, TagId) pair is not listed are removed.
     */
    method UpdateTree(d: CatTagDict) returns (r: Result<()>)
      requires DistinctKeys(d)
      modifies this`cats
      ensures var u := UpdateSpec(old(cats), d);
        cats == u.cats && (r.Ok? <==> !u.failed) && (r.Err? ==> r.error == ValueError)
    {
      var catIds := CatIds(cats);
      var ok := AddPass(d, catIds);
      if !ok {
        return Err(ValueError);
      }
      PrunePass(d, catIds);
      r := Ok(());
    }

    /** The add loop of `updateTree`: it stops at the first id that no category has. */
    method AddPass(d: CatTagDict, catIds: seq<int>) returns (ok: bool)
      requires catIds == CatIds(cats)
      modifies this`cats
      ensures cats == AddFrom(old(cats), d, 0).cats && ok == !AddFrom(old(cats), d, 0).failed
      ensures ok ==> forall a | 0 <= a < |d| :: d[a].0 in catIds
    {
      ghost var cs0 := cats;
      ghost var goal := AddFrom(cats, d, 0);
      var n := 0;
      while n < |d|
        invariant 0 <= n <= |d| && goal.cats == AddFrom(cats, d, n).cats && goal.failed == AddFrom(cats, d, n).failed
        invariant CatIds(cats) == catIds
      {
        var cid := d[n].0;
        var taglist := d[n].1;
        var found := Lists.IndexOf(catIds, cid);
        if found.None? {
          AddFromStops(cats, d, n);
          return false;
        }
        var i := found.value;
        assert CatIndex(cats, cid) == Ok(i);
        var ts := AddTags(cats[i].tags, taglist);
        AddFromNext(cats, d, n, i);
        cats := cats[i := cats[i].(tags := ts)];
        n := n + 1;
      }
      ok := true;
      AddFromKnown(cs0, d, 0);
    }

    /** The removal loop of `updateTree`, over the dictionary's keys, each of which names a category. */
    method PrunePass(d: CatTagDict, catIds: seq<int>)
      requires DistinctKeys(d) && catIds == CatIds(cats)
      requires forall a | 0 <= a < |d| :: d[a].0 in catIds
      modifies this`cats
      ensures cats == PruneCats(old(cats), Keys(d), Pairs(d))
    {
      ghost var added := cats;
      var pairs := Pairs(d);
      var keys := Keys(d);
      var q := 0;
      assert PruneCats(added, keys[..0], pairs) == added;
      while q < |keys|
        invariant 0 <= q <= |keys|
        invariant cats == PruneCats(added, keys[..q], pairs)
        invariant CatIds(added) == catIds && forall a | 0 <= a < |keys| :: keys[a] in catIds
      {
        var c := Lists.IndexOf(catIds, keys[q]).value;
        assert CatIndex(added, keys[q]) == Ok(c);
        assert forall a | 0 <= a < q :: keys[a] != keys[q];
        var ts := PruneTags(cats[c].tags, cats[c].id, pairs);
        PruneStep(added, keys, q, c, pairs);
        cats := cats[c := cats[c].(tags := ts)];
        q := q + 1;
      }
      assert keys[..|keys|] == keys;
    }

    /** The inner add loop of `updateTree`, over one category's tag list. */
    static method AddTags(ts0: seq<TagItem>, taglist: seq<(int, string)>) returns (ts: seq<TagItem>)
      ensures ts == AddMissing(ts0, taglist)
    {
      ts := ts0;
      for k := 0 to |taglist|
        invariant ts == AddMissing(ts0, taglist[..k])
      {
        assert taglist[..k + 1][..k] == taglist[..k];
        var (tid, tv) := taglist[k];
        var tagIds := TagIds(ts);
        if tid !in tagIds {
          ts := ts + [NewTag(tid, tv)];
        }
      }
      assert taglist[..|taglist|] == taglist;
    }

    /** The removal loop of `updateTree` over one category, from the last tag to the first. */
    static method PruneTags(ts0: seq<TagItem>, catId: int, pairs: set<(int, int)>) returns (ts: seq<TagItem>)
      ensures ts == KeepListed(ts0, catId, pairs)
    {
      ts := ts0;
      var t := |ts0|;
      while t > 0
        invariant 0 <= t <= |ts0|
        invariant ts == ts0[..t] + KeepListed(ts0[t..], catId, pairs)
      {
        t := t - 1;
        KeepListedStep(ts0, t, catId, pairs, ts);
        if (catId, ts[t].id) !in pairs {
          ts := Lists.RemoveAt(ts, t);
        }
      }
    }
  }

  // ------------------------------------------------------------ loop steps

  lemma KeepListedSplit(ts: seq<TagItem>, t: nat, catId: int, pairs: set<(int, int)>)
    requires t < |ts|
    ensures KeepListed(ts[t..], catId, pairs)
         == (if (catId, ts[t].id) in pairs then [ts[t]] else []) + KeepListed(ts[t + 1..], catId, pairs)
  {
    assert ts[t..][1..] == ts[t + 1..];
  }

  /** One step of the tag removal loop, kept apart from the loop. */
  lemma KeepListedStep(ts0: seq<TagItem>, t: nat, catId: int, pairs: set<(int, int)>, ts: seq<TagItem>)
    requires t < |ts0| && ts == ts0[..t + 1] + KeepListed(ts0[t + 1..], catId, pairs)
    ensures t < |ts| && ts[t] == ts0[t]
    ensures (catId, ts0[t].id) !in pairs ==> Lists.RemoveAt(ts, t) == ts0[..t] + KeepListed(ts0[t..], catId, pairs)
    ensures (catId, ts0[t].id) in pairs ==> ts == ts0[..t] + KeepListed(ts0[t..], catId, pairs)
  {
    var rest := KeepListed(ts0[t + 1..], catId, pairs);
    assert ts0[..t + 1] == ts0[..t] + [ts0[t]];
    assert ts == ts0[..t] + [ts0[t]] + rest;
    KeepListedSplit(ts0, t, catId, pairs);
    if (catId, ts0[t].id) in pairs {
      assert ts0[..t] + [ts0[t]] + rest == ts0[..t] + ([ts0[t]] + rest);
    } else {
      var r := Lists.RemoveAt(ts, t);
      assert r == ts0[..t] + rest by {
        assert forall j | 0 <= j < |r| :: r[j] == (ts0[..t] + rest)[j];
      }
    }
  }

  /** One pass of the category removal loop prunes the first category with the next key. */
  lemma PruneStep(added: seq<CatItem>, keys: seq<int>, q: nat, c: nat, pairs: set<(int, int)>)
    requires q < |keys| && CatIndex(added, keys[q]) == Ok(c)
    requires forall a | 0 <= a < q :: keys[a] != keys[q]
    ensures var cats := PruneCats(added, keys[..q], pairs);
      c < |cats| && cats[c] == added[c]
      && PruneCats(added, keys[..q + 1], pairs) == cats[c := added[c].(tags := KeepListed(added[c].tags, added[c].id, pairs))]
  {
    var cats := PruneCats(added, keys[..q], pairs);
    assert keys[q] !in keys[..q];
    assert keys[..q + 1] == keys[..q] + [keys[q]];
    assert FirstOfId(added, c);
    var next := PruneCats(added, keys[..q + 1], pairs);
    var want := cats[c := added[c].(tags := KeepListed(added[c].tags, added[c].id, pairs))];
    forall i | 0 <= i < |added| ensures next[i] == want[i] {
      if i != c && added[i].id == keys[q] {
        assert !FirstOfId(added, i);
      }
    }
  }

  // ---------------------------------------------------- what updateTree does

  /** Every category keeps its id and text and its earlier tags, which stay first. */
  ghost predicate Grows(a: seq<CatItem>, b: seq<CatItem>) {
    |a| == |b| && forall i | 0 <= i < |a| ::
      b[i].id == a[i].id && b[i].text == a[i].text && |a[i].tags| <= |b[i].tags| && b[i].tags[..|a[i].tags|] == a[i].tags
  }

  /** Every listed tag id is among the tags after the inner add loop. */
  lemma {:induction false} AddMissingHas(ts: seq<TagItem>, taglist: seq<(int, string)>, j: nat)
    requires j < |taglist|
    ensures taglist[j].0 in TagIds(AddMissing(ts, taglist))
  {
    var init := taglist[..|taglist| - 1];
    var before := AddMissing(ts, init);
    var r := AddMissing(ts, taglist);
    assert TagIds(before) <= TagIds(r) by {
      assert r[..|before|] == before;
    }
    if j < |taglist| - 1 {
      assert init[j] == taglist[j];
      AddMissingHas(ts, init, j);
    } else if taglist[j].0 !in TagIds(before) {
      assert r[|before|].id == taglist[j].0;
    }
  }

  /** The add loop only ever appends tags to the first category with a listed id. */
  lemma {:induction false} AddFromGrows(cs: seq<CatItem>, d: CatTagDict, n: nat)
    requires n <= |d|
    ensures Grows(cs, AddFrom(cs, d, n).cats)
    ensures forall i | 0 <= i < |cs| && (cs[i].id !in Keys(d)[n..] || !FirstOfId(cs, i)) :: AddFrom(cs, d, n).cats[i] == cs[i]
    decreases |d| - n
  {
    if n < |d| && CatIndex(cs, d[n].0).Ok? {
      var i := CatIndex(cs, d[n].0).value;
      var next := cs[i := cs[i].(tags := AddMissing(cs[i].tags, d[n].1))];
      assert CatIds(next) == CatIds(cs);
      AddFromGrows(next, d, n + 1);
      var r := AddFrom(next, d, n + 1).cats;
      assert r == AddFrom(cs, d, n).cats;
      forall k | 0 <= k < |cs| ensures r[k].tags[..|cs[k].tags|] == cs[k].tags {
        assert r[k].tags[..|next[k].tags|] == next[k].tags;
        assert next[k].tags[..|cs[k].tags|] == cs[k].tags;
      }
      forall k | 0 <= k < |cs| && (cs[k].id !in Keys(d)[n..] || !FirstOfId(cs, k)) ensures r[k] == cs[k] {
        assert Keys(d)[n..][0] == d[n].0;
        assert Keys(d)[n + 1..] == Keys(d)[n..][1..];
        if k == i {
          assert FirstOfId(cs, k);
          assert false;
        }
        assert next[k] == cs[k];
        forall m | 0 <= m < k ensures next[m].id == cs[m].id {
        }
      }
    }
  }

  /** The add loop fails exactly when some dictionary key is not the id of a category. */
  lemma {:induction false} AddFromFails(cs: seq<CatItem>, d: CatTagDict, n: nat)
    requires n <= |d|
    ensures AddFrom(cs, d, n).failed <==> exists k | n <= k < |d| :: d[k].0 !in CatIds(cs)
    decreases |d| - n
  {
    if n < |d| && CatIndex(cs, d[n].0).Ok? {
      var i := CatIndex(cs, d[n].0).value;
      var next := cs[i := cs[i].(tags := AddMissing(cs[i].tags, d[n].1))];
      assert CatIds(next) == CatIds(cs);
      AddFromFails(next, d, n + 1);
    }
  }

  /** After a successful add loop, every listed tag id is under the first category with the listed id. */
  lemma {:induction false} AddFromHas(cs: seq<CatItem>, d: CatTagDict, n: nat, k: nat, j: nat)
    requires n <= k < |d| && j < |d[k].1| && !AddFrom(cs, d, n).failed
    ensures CatIndex(cs, d[k].0).Ok?
    ensures d[k].1[j].0 in TagIds(AddFrom(cs, d, n).cats[CatIndex(cs, d[k].0).value].tags)
    decreases |d| - n
  {
    AddFromFails(cs, d, n);
    var i := CatIndex(cs, d[n].0).value;
    var next := cs[i := cs[i].(tags := AddMissing(cs[i].tags, d[n].1))];
    assert CatIds(next) == CatIds(cs);
    assert CatIndex(next, d[k].0) == CatIndex(cs, d[k].0) by {
      assert CatIds(next) == CatIds(cs);
    }
    var r := AddFrom(next, d, n + 1).cats;
    if k > n {
      AddFromHas(next, d, n + 1, k, j);
    } else {
      AddMissingHas(cs[i].tags, d[n].1, j);
      AddFromGrows(next, d, n + 1);
      var t :| 0 <= t < |next[i].tags| && next[i].tags[t].id == d[k].1[j].0;
      assert r[i].tags[..|next[i].tags|] == next[i].tags;
      assert r[i].tags[t] == next[i].tags[t];
    }
  }

  lemma {:induction false} KeepListedExact(ts: seq<TagItem>, catId: int, pairs: set<(int, int)>, t: TagItem)
    ensures t in KeepListed(ts, catId, pairs) <==> t in ts && (catId, t.id) in pairs
  {
    if |ts| > 0 {
      KeepListedExact(ts[1..], catId, pairs, t);
      assert ts == [ts[0]] + ts[1..];
    }
  }

  /** `updateTree` fails exactly when a dictionary key is not a category id. */
  lemma UpdateTreeFails(cs: seq<CatItem>, d: CatTagDict)
    ensures UpdateSpec(cs, d).failed <==> exists k | 0 <= k < |d| :: d[k].0 !in CatIds(cs)
  {
    AddFromFails(cs, d, 0);
  }

  /** After a successful `updateTree`, every listed tag id is under the first category with the listed id. */
  lemma UpdateTreeAdds(cs: seq<CatItem>, d: CatTagDict, k: nat, j: nat)
    requires !UpdateSpec(cs, d).failed && k < |d| && j < |d[k].1|
    ensures CatIndex(cs, d[k].0).Ok?
    ensures d[k].1[j].0 in TagIds(UpdateSpec(cs, d).cats[CatIndex(cs, d[k].0).value].tags)
  {
    var a := AddFrom(cs, d, 0);
    AddFromHas(cs, d, 0, k, j);
    var i := CatIndex(cs, d[k].0).value;
    var u :| 0 <= u < |a.cats[i].tags| && a.cats[i].tags[u].id == d[k].1[j].0;
    assert (d[k].0, d[k].1[j].0) in Pairs(d);
    assert Keys(d)[k] == d[k].0;
    assert FirstOfId(a.cats, i) by {
      assert CatIds(a.cats) == CatIds(cs);
      forall m | 0 <= m < i ensures a.cats[m].id == cs[m].id {
        assert CatIds(a.cats)[m] == CatIds(cs)[m];
      }
      assert a.cats[i].id == cs[i].id by {
        assert CatIds(a.cats)[i] == CatIds(cs)[i];
      }
    }
    KeepListedExact(a.cats[i].tags, a.cats[i].id, Pairs(d), a.cats[i].tags[u]);
  }

  /** After a successful `updateTree`, the first category with a listed id holds only listed tags. */
  lemma UpdateTreeOnlyListed(cs: seq<CatItem>, d: CatTagDict, i: nat, t: TagItem)
    requires !UpdateSpec(cs, d).failed && i < |cs| && cs[i].id in Keys(d) && FirstOfId(cs, i)
    requires t in UpdateSpec(cs, d).cats[i].tags
    ensures (cs[i].id, t.id) in Pairs(d)
  {
    var a := AddFrom(cs, d, 0);
    assert CatIds(a.cats) == CatIds(cs);
    assert a.cats[i].id == cs[i].id by {
      assert CatIds(a.cats)[i] == CatIds(cs)[i];
    }
    assert FirstOfId(a.cats, i) by {
      forall m | 0 <= m < i ensures a.cats[m].id == cs[m].id {
        assert CatIds(a.cats)[m] == CatIds(cs)[m];
      }
    }
    KeepListedExact(a.cats[i].tags, a.cats[i].id, Pairs(d), t);
  }

  /** After a successful `updateTree`, a tag that was there and is listed for its category is still there, state and all. */
  lemma UpdateTreeKeepsListed(cs: seq<CatItem>, d: CatTagDict, i: nat, t: TagItem)
    requires !UpdateSpec(cs, d).failed && i < |cs| && t in cs[i].tags && (cs[i].id, t.id) in Pairs(d)
    ensures t in UpdateSpec(cs, d).cats[i].tags
  {
    var a := AddFrom(cs, d, 0);
    AddFromGrows(cs, d, 0);
    assert a.cats[i].tags[..|cs[i].tags|] == cs[i].tags;
    assert t in a.cats[i].tags;
    if a.cats[i].id in Keys(d) && FirstOfId(a.cats, i) {
      KeepListedExact(a.cats[i].tags, a.cats[i].id, Pairs(d), t);
    }
  }

  /** `updateTree` leaves alone every category whose id the dictionary does not name, and every later duplicate. */
  lemma UpdateTreeUntouched(cs: seq<CatItem>, d: CatTagDict, i: nat)
    requires i < |cs| && (cs[i].id !in Keys(d) || !FirstOfId(cs, i))
    ensures UpdateSpec(cs, d).cats[i] == cs[i]
  {
    var a := AddFrom(cs, d, 0);
    AddFromGrows(cs, d, 0);
    assert Keys(d)[0..] == Keys(d);
    assert a.cats[i] == cs[i];
    if !a.failed {
      assert CatIds(a.cats) == CatIds(cs);
      if cs[i].id in Keys(d) {
        var m :| 0 <= m < i && cs[m].id == cs[i].id;
        assert CatIds(a.cats)[m] == CatIds(cs)[m];
        assert !FirstOfId(a.cats, i);
      }
    }
  }

  // ------------------------------------------------------ checked and shown

  /** `getFilteredTags` answers None exactly when no tag is checked or partially checked. */
  lemma {:induction false} CheckedItemsExact(cs: seq<CatItem>)
    ensures |CheckedItems(cs)| == 0 <==> forall i, j | 0 <= i < |cs| && 0 <= j < |cs[i].tags| :: cs[i].tags[j].state == FilterTree.Unchecked
  {
    if |cs| > 0 {
      var init := cs[..|cs| - 1];
      CheckedItemsExact(init);
      CheckedInEmpty(cs[|cs| - 1].tags);
      forall i, j | 0 <= i < |init| && 0 <= j < |init[i].tags| ensures init[i].tags[j] == cs[i].tags[j] {
      }
    }
  }

  lemma {:induction false} CheckedInEmpty(ts: seq<TagItem>)
    ensures |CheckedIn(ts)| == 0 <==> forall j | 0 <= j < |ts| :: ts[j].state == FilterTree.Unchecked
  {
    if |ts| > 0 {
      CheckedInEmpty(ts[..|ts| - 1]);
    }
  }

  /**
   * What the proxy shows: category rows always; a tag row when nothing is
   * checked, or when the tag is of its category and some file carries it
   * together with every checked tag (the checked ids being distinct).
   */
  lemma FilterAcceptsRowShows(cs: seq<CatItem>, s: Store, row: FilterTree.RowRef)
    requires ValidRef(cs, row)
    ensures row.FieldRef? ==> FilterAcceptsRow(cs, s, row)
    ensures row.TagRef? && |CheckedItems(cs)| == 0 ==> FilterAcceptsRow(cs, s, row)
    ensures row.TagRef? && |CheckedItems(cs)| > 0 && Distinct(IdsOf(CheckedItems(cs))) ==>
      var t := cs[row.field].tags[row.tag].id;
      var checked := IdsOf(CheckedItems(cs));
      (FilterAcceptsRow(cs, s, row) <==>
        t in s.tags && s.tags[t].fieldId == cs[row.field].id
        && exists f :: (f, t) in s.tagMap && forall c | c in checked :: (f, c) in s.tagMap)
  {
    if row.TagRef? && |CheckedItems(cs)| > 0 && Distinct(IdsOf(CheckedItems(cs))) {
      FilterTree.ReachExact(s, cs[row.field].id, IdsOf(CheckedItems(cs)), cs[row.field].tags[row.tag].id);
    }
  }

  predicate Distinct(xs: seq<int>) {
    forall a, b | 0 <= a < b < |xs| :: xs[a] != xs[b]
  }

  // ------------------------------------------ against the second generation

  /** A legacy tag row as the second generation's tree holds it: a real, checkable tag. */
  function SrcTag(t: TagItem): FilterTree.TagItem {
    FilterTree.TagItem(Some(t.id), Some(t.text), t.text, true, t.state)
  }

  function SrcField(c: CatItem): (r: FilterTree.FieldItem)
    ensures r.id == c.id && r.text == c.text && |r.tags| == |c.tags|
    ensures forall j | 0 <= j < |c.tags| :: r.tags[j] == SrcTag(c.tags[j])
  {
    FilterTree.FieldItem(c.id, c.text, seq(|c.tags|, j requires 0 <= j < |c.tags| => SrcTag(c.tags[j])))
  }

  /** The same tree in the second generation's terms. */
  function ToSrc(cs: seq<CatItem>): (r: seq<FilterTree.FieldItem>)
    ensures |r| == |cs| && forall i | 0 <= i < |cs| :: r[i] == SrcField(cs[i])
  {
    seq(|cs|, i requires 0 <= i < |cs| => SrcField(cs[i]))
  }

  /** No tag is partially checked. */
  predicate NoPartial(cs: seq<CatItem>) {
    forall i, j | 0 <= i < |cs| && 0 <= j < |cs[i].tags| :: cs[i].tags[j].state != FilterTree.PartiallyChecked
  }

  /** Rows of the second generation that stand for the given legacy tags, one for one. */
  predicate Corr(rows: seq<(string, FilterTree.TagItem)>, ts: seq<TagItem>) {
    |rows| == |ts| && forall k | 0 <= k < |ts| :: rows[k].1.id == Some(ts[k].id)
  }

  lemma CorrAppend(a: seq<(string, FilterTree.TagItem)>, ta: seq<TagItem>, b: seq<(string, FilterTree.TagItem)>, tb: seq<TagItem>)
    requires Corr(a, ta) && Corr(b, tb)
    ensures Corr(a + b, ta + tb)
  {
    assert forall k | |a| <= k < |a| + |b| :: (a + b)[k] == b[k - |a|] && (ta + tb)[k] == tb[k - |a|];
  }

  lemma {:induction false} InStateAppend(a: seq<(string, FilterTree.TagItem)>, b: seq<(string, FilterTree.TagItem)>, st: CheckState)
    ensures FilterTree.InState(a + b, st) == FilterTree.InState(a, st) + FilterTree.InState(b, st)
  {
    if |b| == 0 {
      assert a + b == a;
    } else {
      var init := b[..|b| - 1];
      InStateAppend(a, init, st);
      assert (a + b)[..|a + b| - 1] == a + init;
      assert (a + b)[|a + b| - 1] == b[|b| - 1];
    }
  }

  /** Without partial checks, one category's Checked rows stand for its non-Unchecked tags. */
  lemma {:induction false} CorrField(c: CatItem)
    requires forall j | 0 <= j < |c.tags| :: c.tags[j].state != FilterTree.PartiallyChecked
    ensures Corr(FilterTree.InState(FilterTree.RowsOf(SrcField(c)), FilterTree.Checked), CheckedIn(c.tags))
    decreases |c.tags|
  {
    if |c.tags| > 0 {
      var init := c.(tags := c.tags[..|c.tags| - 1]);
      CorrField(init);
      var rows := FilterTree.RowsOf(SrcField(c));
      var last := c.tags[|c.tags| - 1];
      assert rows == FilterTree.RowsOf(SrcField(init)) + [(c.text, SrcTag(last))];
      InStateAppend(FilterTree.RowsOf(SrcField(init)), [(c.text, SrcTag(last))], FilterTree.Checked);
      var one := FilterTree.InState([(c.text, SrcTag(last))], FilterTree.Checked);
      assert one == FilterTree.InState([], FilterTree.Checked) + (if last.state == FilterTree.Checked then [(c.text, SrcTag(last))] else []) by {
        assert [(c.text, SrcTag(last))][..0] == [];
      }
      CorrAppend(FilterTree.InState(FilterTree.RowsOf(SrcField(init)), FilterTree.Checked), CheckedIn(init.tags),
                 one, if last.state != FilterTree.Unchecked then [last] else []);
    }
  }

  /** Without partial checks, the second generation's Checked rows stand for the legacy checked items. */
  lemma {:induction false} CorrTree(cs: seq<CatItem>)
    requires NoPartial(cs)
    ensures Corr(FilterTree.InState(FilterTree.Flatten(ToSrc(cs)), FilterTree.Checked), CheckedItems(cs))
  {
    if |cs| > 0 {
      var init := cs[..|cs| - 1];
      CorrTree(init);
      assert ToSrc(cs)[..|cs| - 1] == ToSrc(init);
      InStateAppend(FilterTree.Flatten(ToSrc(init)), FilterTree.RowsOf(SrcField(cs[|cs| - 1])), FilterTree.Checked);
      CorrField(cs[|cs| - 1]);
      CorrAppend(FilterTree.InState(FilterTree.Flatten(ToSrc(init)), FilterTree.Checked), CheckedItems(init),
                 FilterTree.InState(FilterTree.RowsOf(SrcField(cs[|cs| - 1])), FilterTree.Checked), CheckedIn(cs[|cs| - 1].tags));
    }
  }

  /**
   * Without partial checks the two generations query the same reachable
   * tags from the same checked ids; the second adds the checked ids
   * themselves, which the first leaves out.
   */
  lemma SameReachWithoutPartial(cs: seq<CatItem>, s: Store, catId: int)
    requires NoPartial(cs)
    ensures GetFilteredTags(cs, s, catId).None? <==> FilterTree.GetFilteredTags(ToSrc(cs), s, catId) == Ok(None)
    ensures GetFilteredTags(cs, s, catId).Some? ==>
      FilterTree.GetFilteredTags(ToSrc(cs), s, catId)
        == Ok(Some(FilterTree.Filtered(IdsOf(CheckedItems(cs)), GetFilteredTags(cs, s, catId).value)))
  {
    var rows := FilterTree.InState(FilterTree.Flatten(ToSrc(cs)), FilterTree.Checked);
    CorrTree(cs);
    var ids := IdsOf(CheckedItems(cs));
    if |rows| > 0 {
      var got := FilterTree.CheckedIds(rows);
      assert got.Ok? by {
        forall k | 0 <= k < |rows| ensures rows[k].1.id.Some? {
        }
      }
      assert got.value == ids;
    }
  }

  /** Without partial checks, every tag row the legacy proxy shows is shown by the second generation's proxy in FilterMode. */
  lemma LegacyShowsNoMore(cs: seq<CatItem>, s: Store, row: FilterTree.RowRef)
    requires NoPartial(cs) && ValidRef(cs, row) && FilterAcceptsRow(cs, s, row)
    ensures FilterTree.ValidRef(ToSrc(cs), row)
    ensures FilterTree.FilterAcceptsRow(ToSrc(cs), s, FilterTree.FilterMode, row) == Ok(true)
  {
    if row.TagRef? {
      SameReachWithoutPartial(cs, s, cs[row.field].id);
    }
  }

  /**
   * A checked tag that no file carries is hidden by the legacy proxy,
   * which does not add the checked ids to the reachable ones, and shown by
   * the second generation's.
   */
  lemma CheckedTagHiddenWithoutUnion(cs: seq<CatItem>, s: Store, i: nat, j: nat)
    requires NoPartial(cs) && i < |cs| && j < |cs[i].tags| && cs[i].tags[j].state == FilterTree.Checked
    requires forall f :: (f, cs[i].tags[j].id) !in s.tagMap
    ensures !FilterAcceptsRow(cs, s, FilterTree.TagRef(i, j))
    ensures FilterTree.FilterAcceptsRow(ToSrc(cs), s, FilterTree.FilterMode, FilterTree.TagRef(i, j)) == Ok(true)
  {
    SameReachWithoutPartial(cs, s, cs[i].id);
    FilterTree.CheckedTagAccepted(ToSrc(cs), s, cs[i].id, i, j);
  }

  /**
   * A partially checked tag counts as checked in the legacy tree, so it
   * switches the filter on and hides a tag that no file carries; the second
   * generation counts only Checked tags and, with none, shows every tag.
   */
  lemma PartialCountsAsChecked(cs: seq<CatItem>, s: Store, i: nat, j: nat, k: nat, l: nat)
    requires i < |cs| && j < |cs[i].tags| && k < |cs| && l < |cs[k].tags|
    requires cs[k].tags[l].state == FilterTree.PartiallyChecked
    requires forall a, b | 0 <= a < |cs| && 0 <= b < |cs[a].tags| :: cs[a].tags[b].state != FilterTree.Checked
    requires forall f :: (f, cs[i].tags[j].id) !in s.tagMap
    ensures !FilterAcceptsRow(cs, s, FilterTree.TagRef(i, j))
    ensures FilterTree.FilterAcceptsRow(ToSrc(cs), s, FilterTree.FilterMode, FilterTree.TagRef(i, j)) == Ok(true)
  {
    CheckedItemsExact(cs);
    var src := ToSrc(cs);
    var rows := FilterTree.InState(FilterTree.Flatten(src), FilterTree.Checked);
    if |rows| > 0 {
      FilterTree.ItemsInStateExact(src, FilterTree.Checked, rows[0]);
      assert false;
    }
  }
}
