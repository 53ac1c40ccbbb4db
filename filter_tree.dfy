// The tag tree beside the album (src/FilterTree.py): one top-level item per
// tag field, one child per tag, and under each field a last "<New ...>"
// placeholder row through which a new tag is typed in. Qt items are
// records; the view and its item model are one class `TagTree` whose
// `fields` the methods rewrite. The tables are read through `Tables.Store`.

module FilterTree {
  import opened Outcomes
  import opened Tables
  import Text
  import Values
  import Lists
  import Database

  /** The modes of `TagTreeView`. */
  const FilterMode: int := 1
  const TagMode: int := 2
  const EditMode: int := 3

  /** `Qt.CheckState`. */
  datatype CheckState = Unchecked | PartiallyChecked | Checked

  /**
   * A tag row: its TagId and value (both None on the placeholder), the text
   * it shows, whether the user may check it, and its check state (an item
   * whose state was never set reads as Unchecked).
   */
  datatype TagItem = TagItem(id: Option<int>, tag: Option<string>, text: string, checkable: bool, state: CheckState)

  /** A field row: its FieldId, the text it shows and its tag rows in model order. */
  datatype FieldItem = FieldItem(id: int, text: string, tags: seq<TagItem>)

  predicate IsPlaceholder(t: TagItem) {
    t.id.None?
  }

  /** `str(item.tag)`: the placeholder's None prints as "None". */
  function TagStr(t: TagItem): string {
    match t.tag
    case None => "None"
    case Some(v) => v
  }

  /** `str(item.tag).lower()`, the key the tree compares tags by. */
  function TagKey(t: TagItem): string {
    Text.Lower(TagStr(t))
  }

  /** `addEmptyTag`: the editable, uncheckable "<New field>" row. */
  function Placeholder(fieldText: string): (r: TagItem)
    ensures IsPlaceholder(r) && !r.checkable && r.state == Unchecked
    ensures TagKey(r) == "none"
  {
    TagItem(None, None, "<New " + fieldText + ">", false, Unchecked)
  }

  /**
   * The row `addTag` creates: labelled "value (cnt)" only in EditMode with a
   * count, user-checkable and Unchecked outside EditMode.
   */
  function NewTagItem(mode: int, tagId: int, value: string, cnt: Option<int>): (r: TagItem)
    ensures r.id == Some(tagId) && r.tag == Some(value) && r.state == Unchecked
    ensures r.checkable <==> mode != EditMode
    ensures r.text == value <==> !(cnt.Some? && mode == EditMode)
  {
    var caption := if cnt.Some? && mode == EditMode then value + " (" + Values.IntToString(cnt.value) + ")" else value;
    assert cnt.Some? && mode == EditMode ==> |caption| > |value|;
    TagItem(Some(tagId), Some(value), caption, mode != EditMode, Unchecked)
  }

  // ------------------------------------------------------ check states

  /** A row of `tagsByFileId(file)`: the tag is mapped to the file and exists in Tags. */
  predicate Carries(s: Store, file: int, tagId: int) {
    (file, tagId) in s.tagMap && tagId in s.tags
  }

  /** `tagIds.count(id)` over the concatenated `tagsByFileId` lists of `files`. */
  function Count(s: Store, files: seq<int>, id: Option<int>): nat {
    if |files| == 0 || id.None? then 0
    else Count(s, files[..|files| - 1], id) + (if Carries(s, files[|files| - 1], id.value) then 1 else 0)
  }

  /** The state `checkFileTags` gives one row; a row that matches no branch keeps its state. */
  function Recheck(t: TagItem, s: Store, files: seq<int>): TagItem {
    var c := Count(s, files, t.id);
    if c == |files| then t.(state := Checked)
    else if c > 0 then t.(state := PartiallyChecked)
    else if t.id.Some? then t.(state := Unchecked)
    else t
  }

  function RecheckField(f: FieldItem, s: Store, files: seq<int>): FieldItem {
    f.(tags := seq(|f.tags|, j requires 0 <= j < |f.tags| => Recheck(f.tags[j], s, files)))
  }

  function RecheckAll(fs: seq<FieldItem>, s: Store, files: seq<int>): seq<FieldItem> {
    seq(|fs|, i requires 0 <= i < |fs| => RecheckField(fs[i], s, files))
  }

  lemma {:induction false} CountBounds(s: Store, files: seq<int>, id: int)
    ensures Count(s, files, Some(id)) == |files| <==> forall k | 0 <= k < |files| :: Carries(s, files[k], id)
    ensures Count(s, files, Some(id)) > 0 <==> exists k | 0 <= k < |files| :: Carries(s, files[k], id)
    ensures Count(s, files, Some(id)) <= |files|
  {
    if |files| > 0 {
      var init := files[..|files| - 1];
      CountBounds(s, init, id);
      assert forall k | 0 <= k < |init| :: init[k] == files[k];
    }
  }

  /**
   * With at least one file selected, a tag is Checked iff every file carries
   * it, PartiallyChecked iff some but not all do, Unchecked iff none does;
   * the placeholder keeps its state, and nothing but the state changes.
   */
  lemma CheckFileTagsStates(t: TagItem, s: Store, files: seq<int>)
    requires |files| > 0
    ensures IsPlaceholder(t) ==> Recheck(t, s, files) == t
    ensures Recheck(t, s, files) == t.(state := Recheck(t, s, files).state)
    ensures t.id.Some? ==>
      var st := Recheck(t, s, files).state;
      (st == Checked <==> forall k | 0 <= k < |files| :: Carries(s, files[k], t.id.value)) &&
      (st == PartiallyChecked <==>
        (exists k | 0 <= k < |files| :: Carries(s, files[k], t.id.value)) &&
        !(forall k | 0 <= k < |files| :: Carries(s, files[k], t.id.value))) &&
      (st == Unchecked <==> forall k | 0 <= k < |files| :: !Carries(s, files[k], t.id.value))
  {
    if t.id.Some? {
      CountBounds(s, files, t.id.value);
    }
  }

  /** With no file given every row, the placeholder included, counts as carried by all of them. */
  lemma CheckNoFilesChecksAll(t: TagItem, s: Store)
    ensures Recheck(t, s, []).state == Checked
  {
  }

  // ----------------------------------------------------------- lookups

  /** `catIds()`. */
  function CatIds(fs: seq<FieldItem>): (r: seq<int>)
    ensures |r| == |fs| && forall i | 0 <= i < |fs| :: r[i] == fs[i].id
  {
    seq(|fs|, i requires 0 <= i < |fs| => fs[i].id)
  }

  /** `catItemById(catId)`: the first field with the id; `.index` raises ValueError otherwise. */
  function CatItemById(fs: seq<FieldItem>, catId: int): (r: Result<nat>)
    ensures r.Err? <==> forall i | 0 <= i < |fs| :: fs[i].id != catId
    ensures r.Err? ==> r.error == ValueError
    ensures r.Ok? ==> r.value < |fs| && fs[r.value].id == catId && forall i | 0 <= i < r.value :: fs[i].id != catId
  {
    var ids := CatIds(fs);
    match Lists.IndexOf(ids, catId)
    case None => Err(ValueError)
    case Some(i) =>
      assert forall k | 0 <= k < i :: ids[..i][k] == ids[k];
      Ok(i)
  }

  /** `itemById(id, fieldId)`: field and row of the first tag with the id under the field. */
  function ItemById(fs: seq<FieldItem>, tagId: Option<int>, fieldId: int): (r: Result<(nat, nat)>)
    ensures r.Err? ==> r.error == ValueError
    ensures r.Err? <==> (CatItemById(fs, fieldId).Err? ||
      forall j | 0 <= j < |fs[CatItemById(fs, fieldId).value].tags| :: fs[CatItemById(fs, fieldId).value].tags[j].id != tagId)
    ensures r.Ok? ==> (r.value.0 == CatItemById(fs, fieldId).value && r.value.1 < |fs[r.value.0].tags| &&
      fs[r.value.0].tags[r.value.1].id == tagId &&
      forall j | 0 <= j < r.value.1 :: fs[r.value.0].tags[j].id != tagId)
  {
    match CatItemById(fs, fieldId)
    case Err(e) => Err(e)
    case Ok(i) =>
      var ts := fs[i].tags;
      var ids := seq(|ts|, j requires 0 <= j < |ts| => ts[j].id);
      match Lists.IndexOf(ids, tagId)
      case None =>
        assert forall j | 0 <= j < |ts| :: ts[j].id == ids[j];
        Err(ValueError)
      case Some(j) =>
        assert forall k | 0 <= k < j :: ids[..j][k] == ids[k] == ts[k].id;
        Ok((i, j))
  }

  /** `itemByText(name, fieldId)`: the first tag under the field whose `str(tag)` equals the name, case-insensitively. */
  function ItemByText(fs: seq<FieldItem>, name: string, fieldId: int): (r: Result<(nat, nat)>)
    ensures r.Err? ==> r.error == ValueError
    ensures r.Err? <==> (CatItemById(fs, fieldId).Err? ||
      forall j | 0 <= j < |fs[CatItemById(fs, fieldId).value].tags| ::
        TagKey(fs[CatItemById(fs, fieldId).value].tags[j]) != Text.Lower(name))
    ensures r.Ok? ==> (r.value.0 == CatItemById(fs, fieldId).value && r.value.1 < |fs[r.value.0].tags| &&
      TagKey(fs[r.value.0].tags[r.value.1]) == Text.Lower(name) &&
      forall j | 0 <= j < r.value.1 :: TagKey(fs[r.value.0].tags[j]) != Text.Lower(name))
  {
    match CatItemById(fs, fieldId)
    case Err(e) => Err(e)
    case Ok(i) =>
      TagIndexNone(fs[i].tags, Text.Lower(name));
      TagIndexSome(fs[i].tags, Text.Lower(name));
      match TagIndex(fs[i].tags, Text.Lower(name))
      case None => Err(ValueError)
      case Some(j) => Ok((i, j))
  }

  /** The first tag row whose key is `key`, if any. */
  function TagIndex(ts: seq<TagItem>, key: string): Option<nat> {
    Lists.IndexOf(TagKeys(ts), key)
  }

  /** No row is found exactly when no row has the key. */
  lemma TagIndexNone(ts: seq<TagItem>, key: string)
    ensures TagIndex(ts, key).None? <==> forall j | 0 <= j < |ts| :: TagKey(ts[j]) != key
  {
    var keys := TagKeys(ts);
    if TagIndex(ts, key).None? {
      forall j | 0 <= j < |ts|
        ensures TagKey(ts[j]) != key
      {
        assert keys[j] == TagKey(ts[j]);
      }
    } else {
      var i := TagIndex(ts, key).value;
      assert keys[i] == TagKey(ts[i]);
    }
  }

  /** A row that is found has the key, and no earlier row has it. */
  lemma TagIndexSome(ts: seq<TagItem>, key: string)
    ensures TagIndex(ts, key).Some? ==> TagIndex(ts, key).value < |ts| && TagKey(ts[TagIndex(ts, key).value]) == key
    ensures TagIndex(ts, key).Some? ==> forall j | 0 <= j < TagIndex(ts, key).value :: TagKey(ts[j]) != key
  {
    var keys := TagKeys(ts);
    if TagIndex(ts, key).Some? {
      var i := TagIndex(ts, key).value;
      assert keys[i] == TagKey(ts[i]);
      forall j | 0 <= j < i
        ensures TagKey(ts[j]) != key
      {
        assert keys[..i][j] == keys[j] == TagKey(ts[j]);
      }
    }
  }

  lemma LowerNone()
    ensures Text.Lower("None") == "none"
  {
    assert Text.Lower("None") == [Text.LowerChar('N')] + Text.Lower("one");
  }

  /** A name other than "none" in any case finds a real tag, never a row whose tag is None. */
  lemma ItemByTextFindsTag(fs: seq<FieldItem>, name: string, fieldId: int)
    requires Text.Lower(name) != "none"
    requires ItemByText(fs, name, fieldId).Ok?
    ensures fs[ItemByText(fs, name, fieldId).value.0].tags[ItemByText(fs, name, fieldId).value.1].tag.Some?
  {
    LowerNone();
  }

  // ----------------------------------------------------- checked items

  /** The tag rows of one field, each with the field's text (`item.parent().text()`). */
  function RowsOf(f: FieldItem): (r: seq<(string, TagItem)>)
    ensures |r| == |f.tags| && forall j | 0 <= j < |f.tags| :: r[j] == (f.text, f.tags[j])
  {
    seq(|f.tags|, j requires 0 <= j < |f.tags| => (f.text, f.tags[j]))
  }

  /** Every tag row in model order, with the text of its field. */
  function Flatten(fs: seq<FieldItem>): seq<(string, TagItem)> {
    if |fs| == 0 then []
    else Flatten(fs[..|fs| - 1]) + RowsOf(fs[|fs| - 1])
  }

  /** The rows in a given check state, in model order. */
  function InState(rows: seq<(string, TagItem)>, st: CheckState): seq<(string, TagItem)> {
    if |rows| == 0 then []
    else InState(rows[..|rows| - 1], st) + (if rows[|rows| - 1].1.state == st then [rows[|rows| - 1]] else [])
  }

  /** Taking one more tag row of field `cat` adds it to the rows in state `st` exactly when it is in that state. */
  lemma InStateNextRow(done: seq<(string, TagItem)>, cat: FieldItem, t: nat, st: CheckState)
    requires t < |cat.tags|
    ensures InState(done + RowsOf(cat)[..t + 1], st) ==
      InState(done + RowsOf(cat)[..t], st) + (if cat.tags[t].state == st then [(cat.text, cat.tags[t])] else [])
  {
    var xs := done + RowsOf(cat)[..t + 1];
    assert xs[..|xs| - 1] == done + RowsOf(cat)[..t];
    assert xs[|xs| - 1] == (cat.text, cat.tags[t]);
  }

  /** A row of the tree: field `i`, tag `j`. */
  predicate At(fs: seq<FieldItem>, i: int, j: int, x: (string, TagItem)) {
    0 <= i < |fs| && 0 <= j < |fs[i].tags| && x == (fs[i].text, fs[i].tags[j])
  }

  lemma {:induction false} FlattenHas(fs: seq<FieldItem>, x: (string, TagItem))
    ensures x in Flatten(fs) <==> exists i, j :: At(fs, i, j, x)
  {
    if |fs| > 0 {
      var init := fs[..|fs| - 1];
      var last := fs[|fs| - 1];
      FlattenHas(init, x);
      var tail := RowsOf(last);
      if x in tail {
        var j :| 0 <= j < |tail| && tail[j] == x;
        assert At(fs, |fs| - 1, j, x);
      }
      if exists i, j :: At(fs, i, j, x) {
        var i, j :| At(fs, i, j, x);
        if i < |init| {
          assert At(init, i, j, x);
        } else {
          assert tail[j] == x;
        }
      }
      forall i, j | At(init, i, j, x) ensures At(fs, i, j, x) {
      }
    }
  }

  lemma {:induction false} InStateHas(rows: seq<(string, TagItem)>, st: CheckState, x: (string, TagItem))
    ensures x in InState(rows, st) <==> x in rows && x.1.state == st
  {
    if |rows| > 0 {
      InStateHas(rows[..|rows| - 1], st, x);
      assert rows == rows[..|rows| - 1] + [rows[|rows| - 1]];
    }
  }

  /** `getItemsByCheckState(st)` returns exactly the tree's rows in that state, with their fields. */
  lemma ItemsInStateExact(fs: seq<FieldItem>, st: CheckState, x: (string, TagItem))
    ensures x in InState(Flatten(fs), st) <==> x.1.state == st && exists i, j :: At(fs, i, j, x)
  {
    InStateHas(Flatten(fs), st, x);
    FlattenHas(fs, x);
  }

  // --------------------------------------------------- reachable tags

  /** The checked rows' `str(id)`, read back with `int`: a checked placeholder makes `int('None')` raise ValueError. */
  function CheckedIds(rows: seq<(string, TagItem)>): (r: Result<seq<int>>)
    ensures r.Err? <==> exists k | 0 <= k < |rows| :: rows[k].1.id.None?
    ensures r.Err? ==> r.error == ValueError
    ensures r.Ok? ==> |r.value| == |rows| && forall k | 0 <= k < |rows| :: rows[k].1.id == Some(r.value[k])
  {
    if |rows| == 0 then Ok([])
    else
      var init := rows[..|rows| - 1];
      assert forall k | 0 <= k < |init| :: init[k] == rows[k];
      match CheckedIds(init)
      case Err(e) => Err(e)
      case Ok(ids) =>
        match rows[|rows| - 1].1.id
        case None => Err(ValueError)
        case Some(id) => Ok(ids + [id])
  }

  /** The number of TagMap rows of a file whose TagId is among the checked ones. */
  function Hits(s: Store, file: int, checked: seq<int>): nat {
    |set t | t in checked && (file, t) in s.tagMap|
  }

  /**
   * The second query of `getFilteredTags`: the tags of field `catId` mapped
   * to a file whose checked-tag count equals the number of checked ids.
   * The AllTags view is taken to be TagMap joined with Tags.
   */
  function Reach(s: Store, catId: int, checked: seq<int>): set<int> {
    set p | p in s.tagMap && p.1 in s.tags && s.tags[p.1].fieldId == catId && Hits(s, p.0, checked) == |checked| :: p.1
  }

  /** What `getFilteredTags` returns: the checked ids, then the reachable ones (in the database's order). */
  datatype Filtered = Filtered(checked: seq<int>, reach: set<int>)

  predicate Accepts(f: Filtered, id: int) {
    id in f.checked || id in f.reach
  }

  /** `getFilteredTags(catId)`: None when nothing is checked. */
  function GetFilteredTags(fs: seq<FieldItem>, s: Store, catId: int): (r: Result<Option<Filtered>>)
    ensures r == Ok(None) <==> InState(Flatten(fs), Checked) == []
    ensures r.Ok? && r.value.Some? ==> |r.value.value.checked| == |InState(Flatten(fs), Checked)| > 0
  {
    var rows := InState(Flatten(fs), Checked);
    if |rows| == 0 then Ok(None)
    else
      match CheckedIds(rows)
      case Err(e) => Err(e)
      case Ok(ids) => Ok(Some(Filtered(ids, Reach(s, catId, ids))))
  }

  /** A checked tag is always among the accepted ids. */
  lemma CheckedTagAccepted(fs: seq<FieldItem>, s: Store, catId: int, i: nat, j: nat)
    requires i < |fs| && j < |fs[i].tags| && fs[i].tags[j].state == Checked
    requires GetFilteredTags(fs, s, catId).Ok?
    ensures GetFilteredTags(fs, s, catId).value.Some?
    ensures fs[i].tags[j].id.Some? && Accepts(GetFilteredTags(fs, s, catId).value.value, fs[i].tags[j].id.value)
  {
    var x := (fs[i].text, fs[i].tags[j]);
    var rows := InState(Flatten(fs), Checked);
    ItemsInStateExact(fs, Checked, x);
    assert At(fs, i, j, x);
    var k :| 0 <= k < |rows| && rows[k] == x;
    var ids := CheckedIds(rows).value;
    assert rows[k].1.id == Some(ids[k]);
  }

  lemma {:induction false} DistinctCard(xs: seq<int>)
    requires forall a, b | 0 <= a < b < |xs| :: xs[a] != xs[b]
    ensures |set t | t in xs| == |xs|
  {
    if |xs| > 0 {
      var init := xs[..|xs| - 1];
      DistinctCard(init);
      assert (set t | t in xs) == (set t | t in init) + {xs[|xs| - 1]};
      assert xs[|xs| - 1] !in (set t | t in init);
    }
  }

  lemma SubsetFull(a: set<int>, b: set<int>)
    requires a <= b && |a| == |b|
    ensures a == b
  {
    var d := b - a;
    assert a + d == b;
    assert a * d == {};
    assert |d| == 0;
    forall x | x in b ensures x in a {
      assert x !in d;
    }
  }

  /**
   * With distinct checked ids, a tag is reachable iff it belongs to the
   * field and some file carries it together with every checked tag.
   */
  lemma ReachExact(s: Store, catId: int, checked: seq<int>, t: int)
    requires forall a, b | 0 <= a < b < |checked| :: checked[a] != checked[b]
    ensures t in Reach(s, catId, checked) <==>
      t in s.tags && s.tags[t].fieldId == catId &&
      exists f :: (f, t) in s.tagMap && forall c | c in checked :: (f, c) in s.tagMap
  {
    DistinctCard(checked);
    var all := set c | c in checked;
    forall f ensures Hits(s, f, checked) == |checked| <==> forall c | c in checked :: (f, c) in s.tagMap {
      var hit := set c | c in checked && (f, c) in s.tagMap;
      if |hit| == |checked| {
        SubsetFull(hit, all);
        forall c | c in checked ensures (f, c) in s.tagMap {
          assert c in all;
        }
      }
      if forall c | c in checked :: (f, c) in s.tagMap {
        assert hit == all;
      }
    }
    if exists f :: (f, t) in s.tagMap && forall c | c in checked :: (f, c) in s.tagMap {
      var f :| (f, t) in s.tagMap && forall c | c in checked :: (f, c) in s.tagMap;
      if t in s.tags && s.tags[t].fieldId == catId {
        assert (f, t) in s.tagMap && Hits(s, f, checked) == |checked|;
      }
    }
  }

  // ------------------------------------------------------------ proxy

  /** A row of the proxy's source model: a field, or tag `tag` of field `field`. */
  datatype RowRef = FieldRef(field: nat) | TagRef(field: nat, tag: nat)

  predicate ValidRef(fs: seq<FieldItem>, row: RowRef) {
    match row
    case FieldRef(i) => i < |fs|
    case TagRef(i, j) => i < |fs| && j < |fs[i].tags|
  }

  /**
   * `TagFilterProxyModel.filterAcceptsRow`: every row outside FilterMode
   * (TagMode, EditMode), every field row, and in FilterMode a tag row that is
   * not the placeholder and whose id is accepted when anything is checked.
   * The reachable tags are queried before the placeholder test, so their
   * ValueError reaches the placeholder too.
   */
  function FilterAcceptsRow(fs: seq<FieldItem>, s: Store, mode: int, row: RowRef): Result<bool>
    requires ValidRef(fs, row)
  {
    if mode == TagMode || mode == EditMode then Ok(true)
    else if row.FieldRef? then Ok(true)
    else
      match GetFilteredTags(fs, s, fs[row.field].id)
      case Err(e) => Err(e)
      case Ok(accept) =>
        var item := fs[row.field].tags[row.tag];
        if item.id.None? then Ok(false)
        else Ok(accept.None? || Accepts(accept.value, item.id.value))
  }

  /** Which rows the tag tree shows. */
  lemma FilterAcceptsRowShows(fs: seq<FieldItem>, s: Store, mode: int, row: RowRef)
    requires ValidRef(fs, row)
    ensures mode != FilterMode && (mode == TagMode || mode == EditMode) ==> FilterAcceptsRow(fs, s, mode, row) == Ok(true)
    ensures row.FieldRef? ==> FilterAcceptsRow(fs, s, mode, row) == Ok(true)
    ensures row.TagRef? && IsPlaceholder(fs[row.field].tags[row.tag]) && mode == FilterMode ==>
      FilterAcceptsRow(fs, s, mode, row) != Ok(true)
    ensures row.TagRef? && mode == FilterMode && InState(Flatten(fs), Checked) == [] ==>
      FilterAcceptsRow(fs, s, mode, row) == Ok(!IsPlaceholder(fs[row.field].tags[row.tag]))
    ensures (row.TagRef? && mode == FilterMode && !IsPlaceholder(fs[row.field].tags[row.tag]) &&
      GetFilteredTags(fs, s, fs[row.field].id).Ok? && GetFilteredTags(fs, s, fs[row.field].id).value.Some?) ==>
      (FilterAcceptsRow(fs, s, mode, row) == Ok(true) <==>
        Accepts(GetFilteredTags(fs, s, fs[row.field].id).value.value, fs[row.field].tags[row.tag].id.value))
  {
  }

  /** Case-insensitive lexicographic order, the proxy's default comparison of two texts. */
  predicate TextLess(a: string, b: string) {
    var la := Text.Lower(a);
    var lb := Text.Lower(b);
    if |la| == 0 then |lb| > 0
    else if |lb| == 0 then false
    else if la[0] != lb[0] then la[0] < lb[0]
    else TextLess(a[1..], b[1..])
  }

  /** `lessThan`: the placeholder is never less than anything, and anything else is less than the placeholder. */
  predicate LessThan(left: TagItem, right: TagItem) {
    if left.id.None? then false
    else if right.id.None? then true
    else TextLess(left.text, right.text)
  }

  /** The placeholder sorts after every real tag and before none. */
  lemma PlaceholderSortsLast(p: TagItem, t: TagItem)
    requires IsPlaceholder(p)
    ensures !LessThan(p, t)
    ensures !IsPlaceholder(t) ==> LessThan(t, p) && !LessThan(p, t)
  {
  }

  lemma {:induction false} TextLessAsymmetric(a: string, b: string)
    ensures !(TextLess(a, b) && TextLess(b, a))
  {
    if |a| > 0 && |b| > 0 && Text.Lower(a)[0] == Text.Lower(b)[0] {
      TextLessAsymmetric(a[1..], b[1..]);
    }
  }

  /** Between real tags the order is asymmetric, so sorting is well defined. */
  lemma LessThanAsymmetric(x: TagItem, y: TagItem)
    ensures !(LessThan(x, y) && LessThan(y, x))
  {
    if x.id.Some? && y.id.Some? {
      TextLessAsymmetric(x.text, y.text);
    }
  }

  // --------------------------------------------------- tags by field

  /** The `str(tag)` of the rows under one field text, in order. */
  function TagsUnder(rows: seq<(string, TagItem)>, field: string): seq<string> {
    if |rows| == 0 then []
    else TagsUnder(rows[..|rows| - 1], field) + (if rows[|rows| - 1].0 == field then [TagStr(rows[|rows| - 1].1)] else [])
  }

  /** The dictionary `getCheckedTagDict` fills: one list per field text, appended to in row order. */
  function Grouped(rows: seq<(string, TagItem)>): map<string, seq<string>> {
    if |rows| == 0 then map[]
    else
      var out := Grouped(rows[..|rows| - 1]);
      var (field, item) := rows[|rows| - 1];
      if field in out then out[field := out[field] + [TagStr(item)]] else out[field := [TagStr(item)]]
  }

  function LowerAll(xs: seq<string>): (r: seq<string>)
    ensures |r| == |xs| && forall k | 0 <= k < |xs| :: r[k] == Text.Lower(xs[k])
  {
    seq(|xs|, k requires 0 <= k < |xs| => Text.Lower(xs[k]))
  }

  function LowerValues(m: map<string, seq<string>>): map<string, seq<string>> {
    map k | k in m :: LowerAll(m[k])
  }

  /** The dictionary has a key for each field with a row, holding that field's tags in row order. */
  lemma {:induction false} GroupedExact(rows: seq<(string, TagItem)>, field: string)
    ensures field in Grouped(rows) <==> exists k | 0 <= k < |rows| :: rows[k].0 == field
    ensures field in Grouped(rows) ==> Grouped(rows)[field] == TagsUnder(rows, field)
  {
    if |rows| > 0 {
      var init := rows[..|rows| - 1];
      GroupedExact(init, field);
      assert forall k | 0 <= k < |init| :: init[k] == rows[k];
      if field !in Grouped(init) {
        assert TagsUnder(init, field) == [] by {
          TagsUnderAbsent(init, field);
        }
      }
    }
  }

  lemma {:induction false} TagsUnderAbsent(rows: seq<(string, TagItem)>, field: string)
    requires forall k | 0 <= k < |rows| :: rows[k].0 != field
    ensures TagsUnder(rows, field) == []
  {
    if |rows| > 0 {
      TagsUnderAbsent(rows[..|rows| - 1], field);
    }
  }

  // ------------------------------------------------------ refreshing

  /** A tag of the field's query result: TagId, Value and the number of files mapped to it. */
  datatype TagInfo = TagInfo(id: int, value: string, count: int)

  /** One tag field as `updateTree` reads it: its FieldId, its name and its tags. */
  datatype Cat = Cat(id: int, name: string, tags: seq<TagInfo>)

  /** `alreadyFields`: the lower-cased texts of the field rows. */
  function Keys(fs: seq<FieldItem>): (r: seq<string>)
    ensures |r| == |fs| && forall i | 0 <= i < |fs| :: r[i] == Text.Lower(fs[i].text)
  {
    seq(|fs|, i requires 0 <= i < |fs| => Text.Lower(fs[i].text))
  }

  /** `currentFields`: the lower-cased names of the tag fields. */
  function CatKeys(cats: seq<Cat>): (r: seq<string>)
    ensures |r| == |cats| && forall i | 0 <= i < |cats| :: r[i] == Text.Lower(cats[i].name)
  {
    seq(|cats|, i requires 0 <= i < |cats| => Text.Lower(cats[i].name))
  }

  /** `alreadyTags`: the lower-cased `str(tag)` of a field's rows. */
  function TagKeys(ts: seq<TagItem>): (r: seq<string>)
    ensures |r| == |ts| && forall j | 0 <= j < |ts| :: r[j] == TagKey(ts[j])
  {
    seq(|ts|, j requires 0 <= j < |ts| => TagKey(ts[j]))
  }

  /** `currentTags`: the lower-cased values of a field's tags. */
  function InfoKeys(infos: seq<TagInfo>): (r: seq<string>)
    ensures |r| == |infos| && forall j | 0 <= j < |infos| :: r[j] == Text.Lower(infos[j].value)
  {
    seq(|infos|, j requires 0 <= j < |infos| => Text.Lower(infos[j].value))
  }

  /** The field rows that survive the removal loop, in order. */
  function KeepFields(fs: seq<FieldItem>, current: seq<string>): seq<FieldItem> {
    if |fs| == 0 then []
    else (if Text.Lower(fs[0].text) in current then [fs[0]] else []) + KeepFields(fs[1..], current)
  }

  /** The tag rows that survive the removal loop, in order. */
  function KeepTags(ts: seq<TagItem>, current: seq<string>): seq<TagItem> {
    if |ts| == 0 then []
    else (if TagKey(ts[0]) in current then [ts[0]] else []) + KeepTags(ts[1..], current)
  }

  /** The rows `addTag` appends: each tag whose lower-cased value was not already under the field. */
  function NewTags(infos: seq<TagInfo>, already: seq<string>, mode: int): seq<TagItem> {
    if |infos| == 0 then []
    else
      var last := infos[|infos| - 1];
      NewTags(infos[..|infos| - 1], already, mode) +
        (if Text.Lower(last.value) !in already then [NewTagItem(mode, last.id, last.value, Some(last.count))] else [])
  }

  /** `findItems(name, MatchFixedString)`: the field rows whose text equals the name, case-insensitively. */
  function Matches(fs: seq<FieldItem>, name: string): seq<nat> {
    if |fs| == 0 then []
    else Matches(fs[..|fs| - 1], name) + (if Text.Lower(fs[|fs| - 1].text) == Text.Lower(name) then [|fs| - 1] else [])
  }

  /** A field row after its tag field was refreshed: survivors, then new tags, then a fresh placeholder. */
  function Updated(f: FieldItem, c: Cat, mode: int): (r: FieldItem)
    ensures r.id == f.id && r.text == f.text
  {
    f.(tags := KeepTags(f.tags, InfoKeys(c.tags)) + NewTags(c.tags, TagKeys(f.tags), mode) + [Placeholder(f.text)])
  }

  /** One pass of the loop over the tag fields. */
  function CatStep(fs: seq<FieldItem>, c: Cat, already: seq<string>, mode: int): Result<seq<FieldItem>> {
    if Text.Lower(c.name) in already then
      var m := Matches(fs, c.name);
      if |m| != 1 || m[0] >= |fs| then Err(ValueError)
      else Ok(fs[m[0] := Updated(fs[m[0]], c, mode)])
    else Ok(fs + [Updated(FieldItem(c.id, c.name, []), c, mode)])
  }

  /** The tree after `updateTree`, and whether a ValueError cut it short (leaving the earlier passes in place). */
  datatype Refresh = Refresh(fields: seq<FieldItem>, failed: bool)

  /** The fold after `n` passes: surviving rows updated in place for the tag fields seen so far, new rows appended. */
  function CatsFold(fs: seq<FieldItem>, cats: seq<Cat>, already: seq<string>, mode: int, n: nat): Refresh
    requires n <= |cats|
  {
    if n == 0 then Refresh(fs, false)
    else NextPass(CatsFold(fs, cats, already, mode, n - 1), cats[n - 1], already, mode)
  }

  /** The same loop read forwards: the passes from `n` on, starting from the rows `fs` the earlier passes left. */
  function FoldFrom(fs: seq<FieldItem>, cats: seq<Cat>, already: seq<string>, mode: int, n: nat): Refresh
    requires n <= |cats|
    decreases |cats| - n
  {
    if n == |cats| then Refresh(fs, false)
    else
      match CatStep(fs, cats[n], already, mode)
      case Err(_) => Refresh(fs, true)
      case Ok(g) => FoldFrom(g, cats, already, mode, n + 1)
  }

  /** A pass runs only while no earlier one has failed. */
  function NextPass(r: Refresh, c: Cat, already: seq<string>, mode: int): Refresh {
    if r.failed then r
    else
      match CatStep(r.fields, c, already, mode)
      case Err(_) => Refresh(r.fields, true)
      case Ok(g) => Refresh(g, false)
  }

  function UpdateSpec(fs: seq<FieldItem>, cats: seq<Cat>, mode: int): Refresh {
    CatsFold(KeepFields(fs, CatKeys(cats)), cats, Keys(fs), mode, |cats|)
  }

  /** Mark the resolved row Checked, outside EditMode. */
  function CheckAt(fs: seq<FieldItem>, at: (nat, nat), mode: int): seq<FieldItem>
    requires at.0 < |fs| && at.1 < |fs[at.0].tags|
  {
    if mode == EditMode then fs
    else fs[at.0 := fs[at.0].(tags := fs[at.0].tags[at.1 := fs[at.0].tags[at.1].(state := Checked)])]
  }

  lemma RemoveAtSplit<T>(p: seq<T>, x: T, q: seq<T>)
    ensures Lists.RemoveAt(p + [x] + q, |p|) == p + q
  {
    var r := Lists.RemoveAt(p + [x] + q, |p|);
    assert forall j | 0 <= j < |r| :: r[j] == (p + q)[j];
  }

  /** Row `k` of a back-to-front removal loop either stays in front of the rows kept after it or is cut out. */
  lemma BackStep<T>(s: seq<T>, k: nat, rest: seq<T>)
    requires k < |s|
    ensures s[..k + 1] + rest == s[..k] + ([s[k]] + rest)
    ensures Lists.RemoveAt(s[..k + 1] + rest, k) == s[..k] + rest
  {
    assert s[..k + 1] == s[..k] + [s[k]];
    RemoveAtSplit(s[..k], s[k], rest);
  }

  lemma KeepTagsAt(ts: seq<TagItem>, k: nat, current: seq<string>)
    requires k < |ts|
    ensures KeepTags(ts[k..], current) == (if TagKey(ts[k]) in current then [ts[k]] else []) + KeepTags(ts[k + 1..], current)
  {
    assert ts[k..][1..] == ts[k + 1..];
  }

  lemma KeepFieldsAt(fs: seq<FieldItem>, k: nat, current: seq<string>)
    requires k < |fs|
    ensures KeepFields(fs[k..], current) == (if Text.Lower(fs[k].text) in current then [fs[k]] else []) + KeepFields(fs[k + 1..], current)
  {
    assert fs[k..][1..] == fs[k + 1..];
  }

  /** One step of the tag removal loop, kept apart from the loop. */
  lemma PruneTagStep(ts0: seq<TagItem>, k: nat, current: seq<string>, ts: seq<TagItem>)
    requires k < |ts0| && ts == ts0[..k + 1] + KeepTags(ts0[k + 1..], current)
    ensures TagKey(ts0[k]) !in current ==> k < |ts| && Lists.RemoveAt(ts, k) == ts0[..k] + KeepTags(ts0[k..], current)
    ensures TagKey(ts0[k]) in current ==> ts == ts0[..k] + KeepTags(ts0[k..], current)
  {
    var rest := KeepTags(ts0[k + 1..], current);
    KeepTagsAt(ts0, k, current);
    BackStep(ts0, k, rest);
    if TagKey(ts0[k]) !in current {
      assert [] + rest == rest;
    }
  }

  /** One step of the field removal loop, kept apart from the loop. */
  lemma PruneFieldStep(fs0: seq<FieldItem>, k: nat, current: seq<string>, fs: seq<FieldItem>)
    requires k < |fs0| && fs == fs0[..k + 1] + KeepFields(fs0[k + 1..], current)
    ensures Text.Lower(fs0[k].text) !in current ==> k < |fs| && Lists.RemoveAt(fs, k) == fs0[..k] + KeepFields(fs0[k..], current)
    ensures Text.Lower(fs0[k].text) in current ==> fs == fs0[..k] + KeepFields(fs0[k..], current)
  {
    var rest := KeepFields(fs0[k + 1..], current);
    KeepFieldsAt(fs0, k, current);
    BackStep(fs0, k, rest);
    if Text.Lower(fs0[k].text) !in current {
      assert [] + rest == rest;
    }
  }

  /** Once a pass fails, the later passes are skipped. */
  lemma {:induction false} CatsFoldFailed(fs: seq<FieldItem>, cats: seq<Cat>, already: seq<string>, mode: int, n: nat, m: nat)
    requires n <= m <= |cats|
    requires CatsFold(fs, cats, already, mode, n).failed
    ensures CatsFold(fs, cats, already, mode, m).failed
    ensures CatsFold(fs, cats, already, mode, m).fields == CatsFold(fs, cats, already, mode, n).fields
    decreases m
  {
    if m > n {
      CatsFoldFailed(fs, cats, already, mode, n, m - 1);
      FailedStays(fs, cats, already, mode, m);
    }
  }

  /** A failed fold stays as it is through the next pass. */
  lemma FailedStays(fs: seq<FieldItem>, cats: seq<Cat>, already: seq<string>, mode: int, m: nat)
    requires 0 < m <= |cats| && CatsFold(fs, cats, already, mode, m - 1).failed
    ensures CatsFold(fs, cats, already, mode, m).failed
    ensures CatsFold(fs, cats, already, mode, m).fields == CatsFold(fs, cats, already, mode, m - 1).fields
  {
  }

  /** The fold after `m` passes is one more pass over the fold after `m - 1`. */
  lemma CatsFoldLast(fs: seq<FieldItem>, cats: seq<Cat>, already: seq<string>, mode: int, m: nat)
    requires 0 < m <= |cats|
    ensures CatsFold(fs, cats, already, mode, m) == NextPass(CatsFold(fs, cats, already, mode, m - 1), cats[m - 1], already, mode)
  {
  }

  /** What one pass of the loop in `updateTree` leaves: the next fold, failed exactly when the pass raised ValueError. */
  lemma FoldAdvance(fs: seq<FieldItem>, cats: seq<Cat>, already: seq<string>, mode: int, n: nat, before: seq<FieldItem>, after: seq<FieldItem>, ok: bool)
    requires n < |cats| && !CatsFold(fs, cats, already, mode, n).failed
    requires before == CatsFold(fs, cats, already, mode, n).fields
    requires ok == CatStep(before, cats[n], already, mode).Ok?
    requires after == if ok then CatStep(before, cats[n], already, mode).value else before
    ensures CatsFold(fs, cats, already, mode, n + 1).failed == !ok
    ensures CatsFold(fs, cats, already, mode, n + 1).fields == after
  {
    CatsFoldLast(fs, cats, already, mode, n + 1);
  }

  /** A pass that raises ValueError ends the forward fold on the rows it started from. */
  lemma FoldFromStops(fs: seq<FieldItem>, cats: seq<Cat>, already: seq<string>, mode: int, n: nat)
    requires n < |cats| && CatStep(fs, cats[n], already, mode).Err?
    ensures FoldFrom(fs, cats, already, mode, n).failed && FoldFrom(fs, cats, already, mode, n).fields == fs
  {
  }

  /** A pass that succeeds hands its rows to the rest of the forward fold. */
  lemma FoldFromNext(fs: seq<FieldItem>, cats: seq<Cat>, already: seq<string>, mode: int, n: nat)
    requires n < |cats| && CatStep(fs, cats[n], already, mode).Ok?
    ensures var g := CatStep(fs, cats[n], already, mode).value;
      FoldFrom(fs, cats, already, mode, n).fields == FoldFrom(g, cats, already, mode, n + 1).fields &&
      FoldFrom(fs, cats, already, mode, n).failed == FoldFrom(g, cats, already, mode, n + 1).failed
  {
  }

  /** Where a pass fails, both readings stop on the rows before it. */
  lemma AgreeStops(fs: seq<FieldItem>, cats: seq<Cat>, already: seq<string>, mode: int, n: nat)
    requires n < |cats| && !CatsFold(fs, cats, already, mode, n).failed
    requires CatStep(CatsFold(fs, cats, already, mode, n).fields, cats[n], already, mode).Err?
    ensures FoldFrom(CatsFold(fs, cats, already, mode, n).fields, cats, already, mode, n).fields == CatsFold(fs, cats, already, mode, |cats|).fields
    ensures FoldFrom(CatsFold(fs, cats, already, mode, n).fields, cats, already, mode, n).failed == CatsFold(fs, cats, already, mode, |cats|).failed
  {
    var cur := CatsFold(fs, cats, already, mode, n).fields;
    FoldFromStops(cur, cats, already, mode, n);
    FoldAdvance(fs, cats, already, mode, n, cur, cur, false);
    CatsFoldFailed(fs, cats, already, mode, n + 1, |cats|);
  }

  /** Both readings of the loop agree: the forward fold from where `n` passes left off ends where all passes end. */
  lemma {:induction false} FoldFromAgrees(fs: seq<FieldItem>, cats: seq<Cat>, already: seq<string>, mode: int, n: nat)
    requires n <= |cats| && !CatsFold(fs, cats, already, mode, n).failed
    ensures FoldFrom(CatsFold(fs, cats, already, mode, n).fields, cats, already, mode, n).fields == CatsFold(fs, cats, already, mode, |cats|).fields
    ensures FoldFrom(CatsFold(fs, cats, already, mode, n).fields, cats, already, mode, n).failed == CatsFold(fs, cats, already, mode, |cats|).failed
    decreases |cats| - n
  {
    if n < |cats| {
      var cur := CatsFold(fs, cats, already, mode, n).fields;
      if CatStep(cur, cats[n], already, mode).Err? {
        AgreeStops(fs, cats, already, mode, n);
      } else {
        var g := CatStep(cur, cats[n], already, mode).value;
        FoldAdvance(fs, cats, already, mode, n, cur, g, true);
        FoldFromNext(cur, cats, already, mode, n);
        FoldFromAgrees(fs, cats, already, mode, n + 1);
      }
    }
  }

  // ------------------------------------------- refreshing, declaratively

  predicate DistinctKeys(keys: seq<string>) {
    forall a, b | 0 <= a < b < |keys| :: keys[a] != keys[b]
  }

  /** Placeholder rows hold no tag value. */
  predicate Sane(fs: seq<FieldItem>) {
    forall i, j | 0 <= i < |fs| && 0 <= j < |fs[i].tags| :: IsPlaceholder(fs[i].tags[j]) ==> fs[i].tags[j].tag.None?
  }

  /** The rows end with a placeholder, and it is the only one. */
  predicate OnePlaceholderLast(ts: seq<TagItem>) {
    |ts| > 0 && IsPlaceholder(ts[|ts| - 1]) && forall j | 0 <= j < |ts| - 1 :: !IsPlaceholder(ts[j])
  }

  /** The tag field a surviving field row belongs to: the first with its lower-cased name. */
  function CatOf(cats: seq<Cat>, text: string): (r: nat)
    requires Text.Lower(text) in CatKeys(cats)
    ensures r < |cats| && Text.Lower(cats[r].name) == Text.Lower(text)
    ensures forall j | 0 <= j < r :: Text.Lower(cats[j].name) != Text.Lower(text)
  {
    var keys := CatKeys(cats);
    var r := Lists.IndexOf(keys, Text.Lower(text)).value;
    assert forall j | 0 <= j < r :: keys[j] == keys[..r][j];
    r
  }

  /** The surviving field rows once the first `n` tag fields have been handled. */
  function Mid(ps: seq<FieldItem>, cats: seq<Cat>, mode: int, n: nat): (r: seq<FieldItem>)
    requires forall i | 0 <= i < |ps| :: Text.Lower(ps[i].text) in CatKeys(cats)
    ensures |r| == |ps|
    ensures forall i {:trigger r[i]} | 0 <= i < |ps| ::
      r[i] == if CatOf(cats, ps[i].text) < n then Updated(ps[i], cats[CatOf(cats, ps[i].text)], mode) else ps[i]
  {
    seq(|ps|, i requires 0 <= i < |ps| =>
      if CatOf(cats, ps[i].text) < n then Updated(ps[i], cats[CatOf(cats, ps[i].text)], mode) else ps[i])
  }

  /** The field rows added for the first `n` tag fields that were not in the tree. */
  function Added(cats: seq<Cat>, keys: seq<string>, mode: int, n: nat): seq<FieldItem>
    requires n <= |cats|
  {
    if n == 0 then []
    else
      var c := cats[n - 1];
      Added(cats, keys, mode, n - 1) +
        (if Text.Lower(c.name) !in keys then [Updated(FieldItem(c.id, c.name, []), c, mode)] else [])
  }

  lemma {:induction false} KeepFieldsFrom(fs: seq<FieldItem>, current: seq<string>, f: FieldItem)
    ensures f in KeepFields(fs, current) <==> f in fs && Text.Lower(f.text) in current
  {
    if |fs| > 0 {
      KeepFieldsFrom(fs[1..], current, f);
      assert fs == [fs[0]] + fs[1..];
    }
  }

  lemma {:induction false} KeepTagsFrom(ts: seq<TagItem>, current: seq<string>, t: TagItem)
    ensures t in KeepTags(ts, current) <==> t in ts && TagKey(t) in current
  {
    if |ts| > 0 {
      KeepTagsFrom(ts[1..], current, t);
      assert ts == [ts[0]] + ts[1..];
    }
  }

  lemma {:induction false} NewTagsFrom(infos: seq<TagInfo>, already: seq<string>, mode: int, t: TagItem)
    requires t in NewTags(infos, already, mode)
    ensures t.id.Some? && t.tag.Some?
    ensures exists k | 0 <= k < |infos| :: t.tag == Some(infos[k].value) && Text.Lower(infos[k].value) !in already
  {
    if |infos| > 0 {
      var init := infos[..|infos| - 1];
      if t in NewTags(init, already, mode) {
        NewTagsFrom(init, already, mode, t);
        var k :| 0 <= k < |init| && t.tag == Some(init[k].value) && Text.Lower(init[k].value) !in already;
        assert init[k] == infos[k];
      } else {
        assert t.tag == Some(infos[|infos| - 1].value);
      }
    }
  }

  lemma {:induction false} KeepFieldsDistinct(fs: seq<FieldItem>, current: seq<string>)
    requires DistinctKeys(Keys(fs))
    ensures DistinctKeys(Keys(KeepFields(fs, current)))
  {
    if |fs| > 0 {
      var tail := fs[1..];
      forall a, b | 0 <= a < b < |tail| ensures Keys(tail)[a] != Keys(tail)[b] {
        assert Keys(fs)[a + 1] != Keys(fs)[b + 1];
      }
      KeepFieldsDistinct(tail, current);
      var k := KeepFields(tail, current);
      if Text.Lower(fs[0].text) in current {
        forall b | 0 <= b < |k| ensures Text.Lower(k[b].text) != Text.Lower(fs[0].text) {
          KeepFieldsFrom(tail, current, k[b]);
          var y :| 0 <= y < |tail| && tail[y] == k[b];
          assert Keys(fs)[0] != Keys(fs)[y + 1];
        }
        var r := [fs[0]] + k;
        forall a, b | 0 <= a < b < |r| ensures Keys(r)[a] != Keys(r)[b] {
          if a > 0 {
            assert Keys(k)[a - 1] != Keys(k)[b - 1];
          }
        }
      } else {
        assert KeepFields(fs, current) == k;
      }
    }
  }

  lemma {:induction false} MatchesExact(fs: seq<FieldItem>, name: string, i: nat)
    requires i < |fs| && Text.Lower(fs[i].text) == Text.Lower(name)
    requires forall j | 0 <= j < |fs| && j != i :: Text.Lower(fs[j].text) != Text.Lower(name)
    ensures Matches(fs, name) == [i]
  {
    var init := fs[..|fs| - 1];
    if i < |init| {
      MatchesExact(init, name, i);
    } else {
      MatchesNone(init, name);
    }
  }

  lemma {:induction false} MatchesNone(fs: seq<FieldItem>, name: string)
    requires forall j | 0 <= j < |fs| :: Text.Lower(fs[j].text) != Text.Lower(name)
    ensures Matches(fs, name) == []
  {
    if |fs| > 0 {
      MatchesNone(fs[..|fs| - 1], name);
    }
  }

  lemma CatOfIs(cats: seq<Cat>, k: nat, text: string)
    requires DistinctKeys(CatKeys(cats)) && k < |cats| && Text.Lower(cats[k].name) == Text.Lower(text)
    ensures CatOf(cats, text) == k
  {
    var keys := CatKeys(cats);
    assert keys[k] == keys[CatOf(cats, text)];
  }

  /** No row's lower-cased text is among `keys`. */
  predicate AllOutside(rows: seq<FieldItem>, keys: seq<string>) {
    forall y | 0 <= y < |rows| :: Text.Lower(rows[y].text) !in keys
  }

  lemma OutsideConcat(a: seq<FieldItem>, b: seq<FieldItem>, keys: seq<string>)
    requires AllOutside(a, keys) && AllOutside(b, keys)
    ensures AllOutside(a + b, keys)
  {
    forall y | 0 <= y < |a + b| ensures Text.Lower((a + b)[y].text) !in keys {
      if y >= |a| {
        assert (a + b)[y] == b[y - |a|];
      }
    }
  }

  /** The rows added for new tag fields never match a field that was already in the tree. */
  lemma {:induction false} AddedOutside(cats: seq<Cat>, keys: seq<string>, mode: int, n: nat)
    requires n <= |cats|
    ensures AllOutside(Added(cats, keys, mode, n), keys)
  {
    if n > 0 {
      AddedOutside(cats, keys, mode, n - 1);
      var prev := Added(cats, keys, mode, n - 1);
      var c := cats[n - 1];
      var tail := if Text.Lower(c.name) !in keys then [Updated(FieldItem(c.id, c.name, []), c, mode)] else [];
      AddedLast(cats, keys, mode, n);
      assert AllOutside(tail, keys);
      OutsideConcat(prev, tail, keys);
    }
  }

  /** `w[c]` is the surviving row of each tag field `c` that was already in the tree. */
  predicate Witnessed(ps: seq<FieldItem>, cats: seq<Cat>, keys: seq<string>, w: seq<nat>) {
    |w| == |cats| &&
    forall c {:trigger w[c]} | 0 <= c < |cats| && Text.Lower(cats[c].name) in keys ::
      w[c] < |ps| && Text.Lower(ps[w[c]].text) == Text.Lower(cats[c].name)
  }

  /** What the shape lemmas need of the surviving rows: distinct keys, each row's tag field known, and a witness row per known tag field. */
  predicate ShapeReady(ps: seq<FieldItem>, cats: seq<Cat>, keys: seq<string>, w: seq<nat>) {
    DistinctKeys(CatKeys(cats)) && DistinctKeys(Keys(ps)) &&
    (forall i | 0 <= i < |ps| :: Text.Lower(ps[i].text) in CatKeys(cats) && Text.Lower(ps[i].text) in keys) &&
    Witnessed(ps, cats, keys, w)
  }

  /** After `n` passes the fold has not failed and holds the surviving rows followed by the added ones. */
  predicate Shaped(ps: seq<FieldItem>, cats: seq<Cat>, keys: seq<string>, mode: int, n: nat)
    requires n <= |cats| && forall i | 0 <= i < |ps| :: Text.Lower(ps[i].text) in CatKeys(cats)
  {
    CatsFold(ps, cats, keys, mode, n).fields == Mid(ps, cats, mode, n) + Added(cats, keys, mode, n) && !CatsFold(ps, cats, keys, mode, n).failed
  }

  lemma {:induction false} CatsFoldShape(ps: seq<FieldItem>, cats: seq<Cat>, keys: seq<string>, mode: int, n: nat, w: seq<nat>)
    requires n <= |cats| && ShapeReady(ps, cats, keys, w)
    ensures Shaped(ps, cats, keys, mode, n)
  {
    if n == 0 {
      assert Mid(ps, cats, mode, 0) == ps;
    } else {
      CatsFoldShape(ps, cats, keys, mode, n - 1, w);
      ShapeStep(ps, cats, keys, mode, n, w);
    }
  }

  /** One pass of the fold, from the shape after the passes before it. */
  lemma ShapeStep(ps: seq<FieldItem>, cats: seq<Cat>, keys: seq<string>, mode: int, n: nat, w: seq<nat>)
    requires 0 < n <= |cats| && ShapeReady(ps, cats, keys, w)
    ensures Shaped(ps, cats, keys, mode, n - 1) ==> Shaped(ps, cats, keys, mode, n)
  {
    if !Shaped(ps, cats, keys, mode, n - 1) {
      return;
    }
    if Text.Lower(cats[n - 1].name) in keys {
      ShapeStepKnown(ps, cats, keys, mode, n, w[n - 1]);
    } else {
      ShapeStepNew(ps, cats, keys, mode, n);
    }
  }

  /** A pass over a tag field already in the tree updates its row in place. */
  lemma ShapeStepKnown(ps: seq<FieldItem>, cats: seq<Cat>, keys: seq<string>, mode: int, n: nat, i: nat)
    requires 0 < n <= |cats| && Text.Lower(cats[n - 1].name) in keys
    requires DistinctKeys(CatKeys(cats)) && DistinctKeys(Keys(ps))
    requires forall i | 0 <= i < |ps| :: Text.Lower(ps[i].text) in CatKeys(cats) && Text.Lower(ps[i].text) in keys
    requires i < |ps| && Text.Lower(ps[i].text) == Text.Lower(cats[n - 1].name)
    requires CatsFold(ps, cats, keys, mode, n - 1).fields == Mid(ps, cats, mode, n - 1) + Added(cats, keys, mode, n - 1) && !CatsFold(ps, cats, keys, mode, n - 1).failed
    ensures CatsFold(ps, cats, keys, mode, n).fields == Mid(ps, cats, mode, n) + Added(cats, keys, mode, n) && !CatsFold(ps, cats, keys, mode, n).failed
  {
    var g := Mid(ps, cats, mode, n - 1) + Added(cats, keys, mode, n - 1);
    StepKnown(ps, cats, keys, mode, n, i);
    var step := CatStep(g, cats[n - 1], keys, mode);
    assert step.Ok? && step.value == Mid(ps, cats, mode, n) + Added(cats, keys, mode, n);
    CatsFoldLast(ps, cats, keys, mode, n);
  }

  lemma StepKnown(ps: seq<FieldItem>, cats: seq<Cat>, keys: seq<string>, mode: int, n: nat, i: nat)
    requires 0 < n <= |cats| && Text.Lower(cats[n - 1].name) in keys
    requires DistinctKeys(CatKeys(cats)) && DistinctKeys(Keys(ps))
    requires forall i | 0 <= i < |ps| :: Text.Lower(ps[i].text) in CatKeys(cats) && Text.Lower(ps[i].text) in keys
    requires i < |ps| && Text.Lower(ps[i].text) == Text.Lower(cats[n - 1].name)
    ensures CatStep(Mid(ps, cats, mode, n - 1) + Added(cats, keys, mode, n - 1), cats[n - 1], keys, mode).Ok?
    ensures CatStep(Mid(ps, cats, mode, n - 1) + Added(cats, keys, mode, n - 1), cats[n - 1], keys, mode).value ==
      Mid(ps, cats, mode, n) + Added(cats, keys, mode, n - 1)
    ensures Added(cats, keys, mode, n) == Added(cats, keys, mode, n - 1)
  {
    var c := cats[n - 1];
    var m := Mid(ps, cats, mode, n - 1);
    var a := Added(cats, keys, mode, n - 1);
    var g := m + a;
    CatOfIs(cats, n - 1, ps[i].text);
    KnownMatches(ps, cats, keys, mode, n, i);
    assert g[i] == ps[i];
    CatStepKnown(g, c, keys, mode, i);
    assert Added(cats, keys, mode, n) == a + [];
    KnownMid(ps, cats, mode, n, i);
    UpdateInPlace(m, a, i, Updated(ps[i], c, mode), Mid(ps, cats, mode, n));
  }

  /** A tag field already in the tree whose name matches exactly row `i` updates that row. */
  lemma CatStepKnown(g: seq<FieldItem>, c: Cat, keys: seq<string>, mode: int, i: nat)
    requires Text.Lower(c.name) in keys && Matches(g, c.name) == [i] && i < |g|
    ensures CatStep(g, c, keys, mode).Ok? && CatStep(g, c, keys, mode).value == g[i := Updated(g[i], c, mode)]
  {
  }

  /** Before pass `n`, only the surviving row `i` matches the `n`th tag field. */
  lemma KnownMatches(ps: seq<FieldItem>, cats: seq<Cat>, keys: seq<string>, mode: int, n: nat, i: nat)
    requires 0 < n <= |cats|
    requires DistinctKeys(Keys(ps))
    requires forall i | 0 <= i < |ps| :: Text.Lower(ps[i].text) in CatKeys(cats) && Text.Lower(ps[i].text) in keys
    requires i < |ps| && Text.Lower(ps[i].text) == Text.Lower(cats[n - 1].name)
    ensures Matches(Mid(ps, cats, mode, n - 1) + Added(cats, keys, mode, n - 1), cats[n - 1].name) == [i]
  {
    var name := cats[n - 1].name;
    var m := Mid(ps, cats, mode, n - 1);
    var a := Added(cats, keys, mode, n - 1);
    MidOthers(ps, cats, mode, n - 1, i, name);
    AddedOutside(cats, keys, mode, n - 1);
    assert Text.Lower(name) in keys;
    OnlyRowMatches(m, a, i, name, keys);
  }

  /** The passes keep the texts of the surviving rows, so row `i` alone among them carries its name. */
  lemma MidOthers(ps: seq<FieldItem>, cats: seq<Cat>, mode: int, k: nat, i: nat, name: string)
    requires DistinctKeys(Keys(ps))
    requires forall i | 0 <= i < |ps| :: Text.Lower(ps[i].text) in CatKeys(cats)
    requires i < |ps| && Text.Lower(ps[i].text) == Text.Lower(name)
    ensures Text.Lower(Mid(ps, cats, mode, k)[i].text) == Text.Lower(name)
    ensures forall j | 0 <= j < |ps| && j != i :: Text.Lower(Mid(ps, cats, mode, k)[j].text) != Text.Lower(name)
  {
    var m := Mid(ps, cats, mode, k);
    assert m[i].text == ps[i].text;
    forall j | 0 <= j < |ps| && j != i ensures Text.Lower(m[j].text) != Text.Lower(name) {
      assert m[j].text == ps[j].text;
      DistinctRows(ps, i, j);
    }
  }

  /** Row `i` of `m` is the only row of `m + a` with the name, when the rows of `a` lie outside `keys` and the name does not. */
  lemma OnlyRowMatches(m: seq<FieldItem>, a: seq<FieldItem>, i: nat, name: string, keys: seq<string>)
    requires i < |m| && Text.Lower(m[i].text) == Text.Lower(name)
    requires forall j | 0 <= j < |m| && j != i :: Text.Lower(m[j].text) != Text.Lower(name)
    requires AllOutside(a, keys) && Text.Lower(name) in keys
    ensures Matches(m + a, name) == [i]
  {
    var g := m + a;
    forall j | 0 <= j < |g| && j != i ensures Text.Lower(g[j].text) != Text.Lower(name) {
      if j < |m| {
        assert g[j] == m[j];
      } else {
        assert g[j] == a[j - |m|];
      }
    }
    MatchesExact(g, name, i);
  }

  /** Distinct keys: two different field rows never share their lower-cased text. */
  lemma DistinctRows(ps: seq<FieldItem>, i: nat, j: nat)
    requires DistinctKeys(Keys(ps)) && i < |ps| && j < |ps| && i != j
    ensures Text.Lower(ps[i].text) != Text.Lower(ps[j].text)
  {
    if i < j {
      assert Keys(ps)[i] != Keys(ps)[j];
    } else {
      assert Keys(ps)[j] != Keys(ps)[i];
    }
  }

  /** Pass `n` changes, among the surviving rows, only row `i`. */
  lemma KnownMid(ps: seq<FieldItem>, cats: seq<Cat>, mode: int, n: nat, i: nat)
    requires 0 < n <= |cats|
    requires DistinctKeys(CatKeys(cats)) && DistinctKeys(Keys(ps))
    requires forall i | 0 <= i < |ps| :: Text.Lower(ps[i].text) in CatKeys(cats)
    requires i < |ps| && Text.Lower(ps[i].text) == Text.Lower(cats[n - 1].name)
    ensures Mid(ps, cats, mode, n)[i] == Updated(ps[i], cats[n - 1], mode)
    ensures forall j | 0 <= j < |ps| && j != i :: Mid(ps, cats, mode, n)[j] == Mid(ps, cats, mode, n - 1)[j]
  {
    var c := cats[n - 1];
    CatOfIs(cats, n - 1, ps[i].text);
    forall j | 0 <= j < |ps| && j != i ensures Mid(ps, cats, mode, n)[j] == Mid(ps, cats, mode, n - 1)[j] {
      assert Text.Lower(ps[j].text) != Text.Lower(c.name) by {
        if j < i {
          assert Keys(ps)[j] != Keys(ps)[i];
        } else {
          assert Keys(ps)[i] != Keys(ps)[j];
        }
      }
      MidStable(ps, cats, mode, n, j);
    }
  }

  lemma UpdateInPlace<T>(m: seq<T>, a: seq<T>, i: nat, x: T, m2: seq<T>)
    requires i < |m| == |m2| && m2[i] == x
    requires forall j | 0 <= j < |m| && j != i :: m2[j] == m[j]
    ensures (m + a)[i := x] == m2 + a
  {
    var lhs := (m + a)[i := x];
    assert forall j | 0 <= j < |lhs| :: lhs[j] == (m2 + a)[j];
  }

  /** A row whose tag field is not the `n`th keeps its state through pass `n`. */
  lemma MidStable(ps: seq<FieldItem>, cats: seq<Cat>, mode: int, n: nat, j: nat)
    requires 0 < n <= |cats| && j < |ps|
    requires forall i | 0 <= i < |ps| :: Text.Lower(ps[i].text) in CatKeys(cats)
    requires Text.Lower(ps[j].text) != Text.Lower(cats[n - 1].name)
    ensures Mid(ps, cats, mode, n)[j] == Mid(ps, cats, mode, n - 1)[j]
  {
    assert CatOf(cats, ps[j].text) != n - 1;
  }

  /** A pass over a tag field not yet in the tree appends a row for it. */
  lemma ShapeStepNew(ps: seq<FieldItem>, cats: seq<Cat>, keys: seq<string>, mode: int, n: nat)
    requires 0 < n <= |cats| && Text.Lower(cats[n - 1].name) !in keys
    requires forall i | 0 <= i < |ps| :: Text.Lower(ps[i].text) in CatKeys(cats) && Text.Lower(ps[i].text) in keys
    requires CatsFold(ps, cats, keys, mode, n - 1).fields == Mid(ps, cats, mode, n - 1) + Added(cats, keys, mode, n - 1) && !CatsFold(ps, cats, keys, mode, n - 1).failed
    ensures CatsFold(ps, cats, keys, mode, n).fields == Mid(ps, cats, mode, n) + Added(cats, keys, mode, n) && !CatsFold(ps, cats, keys, mode, n).failed
  {
    StepNew(ps, cats, keys, mode, n);
  }

  lemma StepNew(ps: seq<FieldItem>, cats: seq<Cat>, keys: seq<string>, mode: int, n: nat)
    requires 0 < n <= |cats| && Text.Lower(cats[n - 1].name) !in keys
    requires forall i | 0 <= i < |ps| :: Text.Lower(ps[i].text) in CatKeys(cats) && Text.Lower(ps[i].text) in keys
    ensures CatStep(Mid(ps, cats, mode, n - 1) + Added(cats, keys, mode, n - 1), cats[n - 1], keys, mode) ==
      Ok(Mid(ps, cats, mode, n) + Added(cats, keys, mode, n))
  {
    var c := cats[n - 1];
    var m := Mid(ps, cats, mode, n - 1);
    var a := Added(cats, keys, mode, n - 1);
    var created := Updated(FieldItem(c.id, c.name, []), c, mode);
    forall i | 0 <= i < |ps| ensures CatOf(cats, ps[i].text) != n - 1 {
      assert CatKeys(cats)[n - 1] == Text.Lower(c.name);
    }
    assert Mid(ps, cats, mode, n) == m;
    assert CatStep(m + a, c, keys, mode) == Ok(m + a + [created]);
    assert Added(cats, keys, mode, n) == a + [created];
    assert m + a + [created] == m + (a + [created]);
  }

  /** The tree `updateTree` leaves, stated without the loop. */
  function Expected(fs: seq<FieldItem>, cats: seq<Cat>, mode: int): seq<FieldItem> {
    var ps := KeepFields(fs, CatKeys(cats));
    KeepFieldsAll(fs, CatKeys(cats));
    Mid(ps, cats, mode, |cats|) + Added(cats, Keys(fs), mode, |cats|)
  }

  lemma KeepFieldsAll(fs: seq<FieldItem>, current: seq<string>)
    ensures forall i | 0 <= i < |KeepFields(fs, current)| ::
      Text.Lower(KeepFields(fs, current)[i].text) in current && KeepFields(fs, current)[i] in fs
  {
    var ps := KeepFields(fs, current);
    forall i | 0 <= i < |ps| ensures Text.Lower(ps[i].text) in current && ps[i] in fs {
      KeepFieldsFrom(fs, current, ps[i]);
    }
  }

  /**
   * With field rows and tag fields each distinct case-insensitively, a
   * refresh never fails: the surviving rows stay first, in order, each
   * updated from its tag field, and the new tag fields follow.
   */
  lemma UpdateTreeShape(fs: seq<FieldItem>, cats: seq<Cat>, mode: int)
    requires DistinctKeys(Keys(fs)) && DistinctKeys(CatKeys(cats))
    ensures !UpdateSpec(fs, cats, mode).failed
    ensures UpdateSpec(fs, cats, mode).fields == Expected(fs, cats, mode)
  {
    var current := CatKeys(cats);
    var ps := KeepFields(fs, current);
    KeepFieldsDistinct(fs, current);
    KeepFieldsAll(fs, current);
    forall i | 0 <= i < |ps| ensures Text.Lower(ps[i].text) in Keys(fs) {
      var x :| 0 <= x < |fs| && fs[x] == ps[i];
      assert Keys(fs)[x] == Text.Lower(ps[i].text);
    }
    var w := SurvivorRows(fs, cats);
    CatsFoldShape(ps, cats, Keys(fs), mode, |cats|, w);
  }

  /** Each tag field already in the tree has a surviving row. */
  lemma SurvivorRows(fs: seq<FieldItem>, cats: seq<Cat>) returns (w: seq<nat>)
    ensures Witnessed(KeepFields(fs, CatKeys(cats)), cats, Keys(fs), w)
  {
    var current := CatKeys(cats);
    var ps := KeepFields(fs, current);
    var keys := Keys(ps);
    w := seq(|cats|, c requires 0 <= c < |cats| =>
      match Lists.IndexOf(keys, Text.Lower(cats[c].name)) case None => 0 case Some(k) => k);
    forall c | 0 <= c < |cats| && Text.Lower(cats[c].name) in Keys(fs)
      ensures w[c] < |ps| && Text.Lower(ps[w[c]].text) == Text.Lower(cats[c].name)
    {
      var x :| 0 <= x < |fs| && Keys(fs)[x] == Text.Lower(cats[c].name);
      assert current[c] == Text.Lower(cats[c].name);
      KeepFieldsFrom(fs, current, fs[x]);
      var i :| 0 <= i < |ps| && ps[i] == fs[x];
      assert keys[i] == Text.Lower(cats[c].name);
    }
  }

  /** A field row that still names a tag field survives with its id and text, and keeps its tags that remain, check states included. */
  lemma RefreshKeepsSurvivors(fs: seq<FieldItem>, cats: seq<Cat>, mode: int, x: nat, t: TagItem)
    requires DistinctKeys(Keys(fs)) && DistinctKeys(CatKeys(cats))
    requires x < |fs| && Text.Lower(fs[x].text) in CatKeys(cats)
    requires t in fs[x].tags && TagKey(t) in InfoKeys(cats[CatOf(cats, fs[x].text)].tags)
    ensures exists i | 0 <= i < |UpdateSpec(fs, cats, mode).fields| ::
      UpdateSpec(fs, cats, mode).fields[i].id == fs[x].id &&
      UpdateSpec(fs, cats, mode).fields[i].text == fs[x].text &&
      t in UpdateSpec(fs, cats, mode).fields[i].tags
  {
    UpdateTreeShape(fs, cats, mode);
    var current := CatKeys(cats);
    var ps := KeepFields(fs, current);
    KeepFieldsFrom(fs, current, fs[x]);
    KeepFieldsAll(fs, current);
    var i :| 0 <= i < |ps| && ps[i] == fs[x];
    var c := cats[CatOf(cats, fs[x].text)];
    KeepTagsFrom(fs[x].tags, InfoKeys(c.tags), t);
    var r := UpdateSpec(fs, cats, mode).fields;
    assert r[i] == Updated(ps[i], c, mode);
    assert t in r[i].tags;
  }

  /** After a refresh every field row names a tag field, and every tag field has a row. */
  lemma RefreshCoversFields(fs: seq<FieldItem>, cats: seq<Cat>, mode: int)
    requires DistinctKeys(Keys(fs)) && DistinctKeys(CatKeys(cats))
    ensures var r := UpdateSpec(fs, cats, mode).fields;
      (forall i | 0 <= i < |r| :: Text.Lower(r[i].text) in CatKeys(cats)) &&
      forall c | 0 <= c < |cats| :: exists i | 0 <= i < |r| :: Text.Lower(r[i].text) == Text.Lower(cats[c].name)
  {
    UpdateTreeShape(fs, cats, mode);
    ExpectedNamesCats(fs, cats, mode);
    var r := Expected(fs, cats, mode);
    forall c | 0 <= c < |cats| ensures exists i | 0 <= i < |r| :: Text.Lower(r[i].text) == Text.Lower(cats[c].name) {
      var i := ExpectedHasCat(fs, cats, mode, c);
    }
  }

  lemma ExpectedNamesCats(fs: seq<FieldItem>, cats: seq<Cat>, mode: int)
    ensures forall i | 0 <= i < |Expected(fs, cats, mode)| :: Text.Lower(Expected(fs, cats, mode)[i].text) in CatKeys(cats)
  {
    var current := CatKeys(cats);
    var ps := KeepFields(fs, current);
    KeepFieldsAll(fs, current);
    var r := Expected(fs, cats, mode);
    var a := Added(cats, Keys(fs), mode, |cats|);
    AddedTexts(cats, Keys(fs), mode, |cats|);
    forall i | 0 <= i < |r| ensures Text.Lower(r[i].text) in current {
      if i >= |ps| {
        assert r[i] == a[i - |ps|];
      } else {
        assert r[i].text == ps[i].text;
      }
    }
  }

  /** Row `i` of the refreshed tree carries the name of tag field `c`. */
  lemma ExpectedHasCat(fs: seq<FieldItem>, cats: seq<Cat>, mode: int, c: nat) returns (i: nat)
    requires c < |cats|
    ensures i < |Expected(fs, cats, mode)| && Text.Lower(Expected(fs, cats, mode)[i].text) == Text.Lower(cats[c].name)
  {
    if Text.Lower(cats[c].name) in Keys(fs) {
      i := KeptCatRow(fs, cats, mode, c);
    } else {
      i := AddedCatRow(fs, cats, mode, c);
    }
  }

  /** A tag field the tree already had keeps its surviving row. */
  lemma KeptCatRow(fs: seq<FieldItem>, cats: seq<Cat>, mode: int, c: nat) returns (i: nat)
    requires c < |cats| && Text.Lower(cats[c].name) in Keys(fs)
    ensures i < |Expected(fs, cats, mode)| && Text.Lower(Expected(fs, cats, mode)[i].text) == Text.Lower(cats[c].name)
  {
    var current := CatKeys(cats);
    var ps := KeepFields(fs, current);
    KeepFieldsAll(fs, current);
    var r := Expected(fs, cats, mode);
    var x :| 0 <= x < |fs| && Keys(fs)[x] == Text.Lower(cats[c].name);
    assert current[c] == Text.Lower(cats[c].name);
    KeepFieldsFrom(fs, current, fs[x]);
    i :| 0 <= i < |ps| && ps[i] == fs[x];
    assert r[i].text == ps[i].text;
  }

  /** A tag field the tree did not have gets an appended row. */
  lemma AddedCatRow(fs: seq<FieldItem>, cats: seq<Cat>, mode: int, c: nat) returns (i: nat)
    requires c < |cats| && Text.Lower(cats[c].name) !in Keys(fs)
    ensures i < |Expected(fs, cats, mode)| && Expected(fs, cats, mode)[i].text == cats[c].name
  {
    var ps := KeepFields(fs, CatKeys(cats));
    KeepFieldsAll(fs, CatKeys(cats));
    var a := Added(cats, Keys(fs), mode, |cats|);
    var y := AddedHas(cats, Keys(fs), mode, |cats|, c);
    i := |ps| + y;
    assert Expected(fs, cats, mode)[i] == a[y];
  }

  lemma {:induction false} AddedTexts(cats: seq<Cat>, keys: seq<string>, mode: int, n: nat)
    requires n <= |cats|
    ensures forall y | 0 <= y < |Added(cats, keys, mode, n)| :: Text.Lower(Added(cats, keys, mode, n)[y].text) in CatKeys(cats)
  {
    if n > 0 {
      AddedTexts(cats, keys, mode, n - 1);
      assert CatKeys(cats)[n - 1] == Text.Lower(cats[n - 1].name);
    }
  }

  /** A tag field that was not in the tree has a row among those the passes appended: row `y`. */
  lemma {:induction false} AddedHas(cats: seq<Cat>, keys: seq<string>, mode: int, n: nat, c: nat) returns (y: nat)
    requires c < n <= |cats| && Text.Lower(cats[c].name) !in keys
    ensures y < |Added(cats, keys, mode, n)| && Added(cats, keys, mode, n)[y].text == cats[c].name
  {
    var prev := Added(cats, keys, mode, n - 1);
    AddedLast(cats, keys, mode, n);
    if c < n - 1 {
      y := AddedHas(cats, keys, mode, n - 1, c);
      assert Added(cats, keys, mode, n)[y] == prev[y];
    } else {
      y := |prev|;
    }
  }

  /** Pass `n` appends a row exactly for a tag field that was not in the tree. */
  lemma AddedLast(cats: seq<Cat>, keys: seq<string>, mode: int, n: nat)
    requires 0 < n <= |cats|
    ensures var c := cats[n - 1];
      Added(cats, keys, mode, n) == Added(cats, keys, mode, n - 1) +
        (if Text.Lower(c.name) !in keys then [Updated(FieldItem(c.id, c.name, []), c, mode)] else [])
  {
  }

  /** A refreshed field row ends with one fresh placeholder, unless some tag of its field is named "none". */
  lemma UpdatedOnePlaceholder(f: FieldItem, c: Cat, mode: int)
    requires forall j | 0 <= j < |f.tags| :: IsPlaceholder(f.tags[j]) ==> f.tags[j].tag.None?
    requires forall k | 0 <= k < |c.tags| :: Text.Lower(c.tags[k].value) != "none"
    ensures OnePlaceholderLast(Updated(f, c, mode).tags)
    ensures Updated(f, c, mode).tags[|Updated(f, c, mode).tags| - 1] == Placeholder(f.text)
  {
    var kept := KeepTags(f.tags, InfoKeys(c.tags));
    var added := NewTags(c.tags, TagKeys(f.tags), mode);
    forall t | t in kept ensures !IsPlaceholder(t) {
      KeptNotPlaceholder(f, c, t);
    }
    forall t | t in added ensures !IsPlaceholder(t) {
      NewTagsFrom(c.tags, TagKeys(f.tags), mode, t);
    }
    PlaceholderLast(kept, added, Placeholder(f.text));
  }

  /** Rows that are no placeholders, followed by one placeholder. */
  lemma PlaceholderLast(kept: seq<TagItem>, added: seq<TagItem>, p: TagItem)
    requires forall t | t in kept :: !IsPlaceholder(t)
    requires forall t | t in added :: !IsPlaceholder(t)
    requires IsPlaceholder(p)
    ensures OnePlaceholderLast(kept + added + [p]) && (kept + added + [p])[|kept + added|] == p
  {
    var ts := kept + added + [p];
    forall j | 0 <= j < |ts| - 1 ensures !IsPlaceholder(ts[j]) {
      if j < |kept| {
        assert ts[j] == kept[j];
      } else {
        assert ts[j] == added[j - |kept|];
      }
    }
  }

  /** A kept tag row is never a placeholder: a placeholder's key is "none", which no tag field lists. */
  lemma KeptNotPlaceholder(f: FieldItem, c: Cat, t: TagItem)
    requires forall j | 0 <= j < |f.tags| :: IsPlaceholder(f.tags[j]) ==> f.tags[j].tag.None?
    requires forall k | 0 <= k < |c.tags| :: Text.Lower(c.tags[k].value) != "none"
    requires t in KeepTags(f.tags, InfoKeys(c.tags))
    ensures !IsPlaceholder(t)
  {
    KeepTagsFrom(f.tags, InfoKeys(c.tags), t);
    LowerNone();
  }

  /**
   * After a refresh of a tree whose placeholders hold no value, every field
   * row ends with exactly one placeholder, provided no tag is named "none".
   */
  lemma RefreshOnePlaceholder(fs: seq<FieldItem>, cats: seq<Cat>, mode: int)
    requires DistinctKeys(Keys(fs)) && DistinctKeys(CatKeys(cats)) && Sane(fs)
    requires forall c, k | 0 <= c < |cats| && 0 <= k < |cats[c].tags| :: Text.Lower(cats[c].tags[k].value) != "none"
    ensures var r := UpdateSpec(fs, cats, mode).fields;
      forall i | 0 <= i < |r| :: OnePlaceholderLast(r[i].tags)
  {
    UpdateTreeShape(fs, cats, mode);
    var current := CatKeys(cats);
    var ps := KeepFields(fs, current);
    KeepFieldsAll(fs, current);
    var mid := Mid(ps, cats, mode, |cats|);
    var a := Added(cats, Keys(fs), mode, |cats|);
    assert UpdateSpec(fs, cats, mode).fields == mid + a;
    forall i | 0 <= i < |mid| ensures OnePlaceholderLast(mid[i].tags) {
      MidPlaceholder(fs, cats, mode, i);
    }
    forall j | 0 <= j < |a| ensures OnePlaceholderLast(a[j].tags) {
      AddedPlaceholder(cats, Keys(fs), mode, |cats|, j);
    }
    AllOnePlaceholder(mid, a);
  }

  lemma AllOnePlaceholder(mid: seq<FieldItem>, a: seq<FieldItem>)
    requires forall i | 0 <= i < |mid| :: OnePlaceholderLast(mid[i].tags)
    requires forall j | 0 <= j < |a| :: OnePlaceholderLast(a[j].tags)
    ensures forall i | 0 <= i < |mid + a| :: OnePlaceholderLast((mid + a)[i].tags)
  {
    forall i | 0 <= i < |mid + a| ensures OnePlaceholderLast((mid + a)[i].tags) {
      if i >= |mid| {
        assert (mid + a)[i] == a[i - |mid|];
      }
    }
  }

  /** A surviving field row, updated from its tag field, ends with its one placeholder. */
  lemma MidPlaceholder(fs: seq<FieldItem>, cats: seq<Cat>, mode: int, i: nat)
    requires Sane(fs)
    requires forall c, k | 0 <= c < |cats| && 0 <= k < |cats[c].tags| :: Text.Lower(cats[c].tags[k].value) != "none"
    requires forall i | 0 <= i < |KeepFields(fs, CatKeys(cats))| ::
      Text.Lower(KeepFields(fs, CatKeys(cats))[i].text) in CatKeys(cats) && KeepFields(fs, CatKeys(cats))[i] in fs
    requires i < |KeepFields(fs, CatKeys(cats))|
    ensures OnePlaceholderLast(Mid(KeepFields(fs, CatKeys(cats)), cats, mode, |cats|)[i].tags)
  {
    var ps := KeepFields(fs, CatKeys(cats));
    var x :| 0 <= x < |fs| && fs[x] == ps[i];
    var c := cats[CatOf(cats, ps[i].text)];
    assert Mid(ps, cats, mode, |cats|)[i] == Updated(fs[x], c, mode);
    UpdatedOnePlaceholder(fs[x], c, mode);
  }

  lemma {:induction false} AddedPlaceholder(cats: seq<Cat>, keys: seq<string>, mode: int, n: nat, y: nat)
    requires n <= |cats| && y < |Added(cats, keys, mode, n)|
    requires forall c, k | 0 <= c < |cats| && 0 <= k < |cats[c].tags| :: Text.Lower(cats[c].tags[k].value) != "none"
    ensures OnePlaceholderLast(Added(cats, keys, mode, n)[y].tags)
  {
    var prev := Added(cats, keys, mode, n - 1);
    if y < |prev| {
      AddedPlaceholder(cats, keys, mode, n - 1, y);
      assert Added(cats, keys, mode, n)[y] == prev[y];
    } else {
      var c := cats[n - 1];
      assert Added(cats, keys, mode, n)[y] == Updated(FieldItem(c.id, c.name, []), c, mode);
      UpdatedOnePlaceholder(FieldItem(c.id, c.name, []), c, mode);
    }
  }

  // ------------------------------------------------------------- tree

  /** Which field item `addTag` and `addEmptyTag` are given: the item itself, or a FieldId to look up. */
  datatype CatRef = ByItem(pos: nat) | ById(catId: int)

  /** `TagTreeView` together with its `TagItemModel`: the item tree and the mode. */
  class TagTree {
    var fields: seq<FieldItem>
    var mode: int

    constructor(mode: int)
      ensures fields == [] && this.mode == mode
    {
      fields := [];
      this.mode := mode;
    }

    /** The field row `addTag`/`addEmptyTag` append to: ValueError from `catItemById` for an unknown id. */
    function Parent(cat: CatRef): (r: Result<nat>)
      reads this
      ensures r.Ok? ==> r.value < |fields|
    {
      match cat
      case ByItem(i) => if i < |fields| then Ok(i) else Err(IndexError)
      case ById(id) => CatItemById(fields, id)
    }

    /** `addField`: append a field row with no tags. */
    method AddField(catId: int, name: string) returns (pos: nat)
      modifies this`fields
      ensures fields == old(fields) + [FieldItem(catId, name, [])] && pos == |old(fields)|
    {
      fields := fields + [FieldItem(catId, name, [])];
      pos := |fields| - 1;
    }

    /** `addTag`: append a tag row to the field. */
    method AddTag(cat: CatRef, tagId: int, value: string, cnt: Option<int>) returns (r: Result<()>)
      requires cat.ByItem? ==> cat.pos < |fields|
      modifies this`fields
      ensures r.Ok? <==> old(Parent(cat)).Ok?
      ensures r.Err? ==> r.error == ValueError && fields == old(fields)
      ensures r.Ok? ==> var i := old(Parent(cat)).value;
        fields == old(fields)[i := old(fields)[i].(tags := old(fields)[i].tags + [NewTagItem(mode, tagId, value, cnt)])]
    {
      var p := Parent(cat);
      if p.Err? {
        return Err(p.error);
      }
      var i := p.value;
      fields := fields[i := fields[i].(tags := fields[i].tags + [NewTagItem(mode, tagId, value, cnt)])];
      r := Ok(());
    }

    /** `addEmptyTag`: append the field's placeholder row. */
    method AddEmptyTag(cat: CatRef) returns (r: Result<()>)
      requires cat.ByItem? ==> cat.pos < |fields|
      modifies this`fields
      ensures r.Ok? <==> old(Parent(cat)).Ok?
      ensures r.Err? ==> r.error == ValueError && fields == old(fields)
      ensures r.Ok? ==> var i := old(Parent(cat)).value;
        fields == old(fields)[i := old(fields)[i].(tags := old(fields)[i].tags + [Placeholder(old(fields)[i].text)])]
    {
      var p := Parent(cat);
      if p.Err? {
        return Err(p.error);
      }
      var i := p.value;
      fields := fields[i := fields[i].(tags := fields[i].tags + [Placeholder(fields[i].text)])];
      r := Ok(());
    }

    /** `checkFileTags`: set every row's check state from the files' tags. */
    method CheckFileTags(files: Database.OneOrMany<int>, s: Store)
      modifies this`fields
      ensures fields == RecheckAll(old(fields), s, Database.Listed(files))
    {
      var ids := Database.Listed(files);
      var numfiles := |ids|;
      var tagIds: multiset<int> := multiset{};
      for k := 0 to |ids|
        invariant forall id :: tagIds[id] == Count(s, ids[..k], Some(id))
      {
        var ofFile := set p | p in s.tagMap && p.0 == ids[k] && p.1 in s.tags :: p.1;
        tagIds := tagIds + multiset(ofFile);
        forall id ensures tagIds[id] == Count(s, ids[..k + 1], Some(id)) {
          assert ids[..k + 1][..k] == ids[..k];
          assert id in ofFile <==> Carries(s, ids[k], id) by {
            if Carries(s, ids[k], id) {
              assert (ids[k], id) in s.tagMap;
            }
          }
        }
      }
      assert ids[..|ids|] == ids;
      ghost var before := fields;
      for f := 0 to |fields|
        invariant |fields| == |before|
        invariant forall i | 0 <= i < |fields| :: fields[i] == if i < f then RecheckField(before[i], s, ids) else before[i]
      {
        var ts := fields[f].tags;
        for p := 0 to |ts|
          invariant |ts| == |before[f].tags|
          invariant forall j | 0 <= j < |ts| :: ts[j] == if j < p then Recheck(before[f].tags[j], s, ids) else before[f].tags[j]
        {
          var item := ts[p];
          var count := if item.id.Some? then tagIds[item.id.value] else 0;
          if count == numfiles {
            ts := ts[p := item.(state := Checked)];
          } else if count > 0 {
            ts := ts[p := item.(state := PartiallyChecked)];
          } else if item.id.Some? {
            ts := ts[p := item.(state := Unchecked)];
          }
        }
        fields := fields[f := fields[f].(tags := ts)];
      }
    }

    /** `getItemsByCheckState`: the rows in a state, in model order, with their fields' texts. */
    method GetItemsByCheckState(st: CheckState) returns (checked: seq<(string, TagItem)>)
      ensures checked == InState(Flatten(fields), st)
    {
      checked := [];
      for c := 0 to |fields|
        invariant checked == InState(Flatten(fields[..c]), st)
      {
        checked := CollectField(fields[c], st, checked, Flatten(fields[..c]));
        assert fields[..c + 1][..c] == fields[..c];
      }
      assert fields[..|fields|] == fields;
    }

    /** The inner loop of `getItemsByCheckState`, over one field's rows. */
    static method CollectField(cat: FieldItem, st: CheckState, checked0: seq<(string, TagItem)>, ghost done: seq<(string, TagItem)>)
      returns (checked: seq<(string, TagItem)>)
      requires checked0 == InState(done, st)
      ensures checked == InState(done + RowsOf(cat), st)
    {
      checked := checked0;
      assert done + RowsOf(cat)[..0] == done;
      for t := 0 to |cat.tags|
        invariant checked == InState(done + RowsOf(cat)[..t], st)
      {
        var item := cat.tags[t];
        InStateNextRow(done, cat, t, st);
        if item.state == st {
          checked := checked + [(cat.text, item)];
        }
      }
      assert RowsOf(cat)[..|cat.tags|] == RowsOf(cat);
    }

    /** `getCheckedTagDict(st, lower)`: the rows in a state grouped by field text. */
    method GetCheckedTagDict(st: CheckState, lower: bool) returns (out: map<string, seq<string>>)
      ensures var g := Grouped(InState(Flatten(fields), st)); out == if lower then LowerValues(g) else g
    {
      var items := GetItemsByCheckState(st);
      out := map[];
      for k := 0 to |items|
        invariant out == Grouped(items[..k])
      {
        var (fieldName, item) := items[k];
        var itemText := TagStr(item);
        assert items[..k + 1][..k] == items[..k];
        if fieldName in out {
          out := out[fieldName := out[fieldName] + [itemText]];
        } else {
          out := out[fieldName := [itemText]];
        }
      }
      assert items[..|items|] == items;
      if lower {
        out := LowerValues(out);
      }
    }

    /** `getCheckedTagNames(lower)`: `str(tag)` of every Checked row in model order. */
    function GetCheckedTagNames(lower: bool): (r: seq<string>)
      reads this
      ensures var rows := InState(Flatten(fields), Checked);
        |r| == |rows| && forall k | 0 <= k < |rows| :: r[k] == (if lower then Text.Lower(TagStr(rows[k].1)) else TagStr(rows[k].1))
    {
      var rows := InState(Flatten(fields), Checked);
      var names := seq(|rows|, k requires 0 <= k < |rows| => TagStr(rows[k].1));
      if lower then LowerAll(names) else names
    }

    /** The removal loop over the field rows, from the last to the first. */
    method PruneFields(current: seq<string>)
      modifies this`fields
      ensures fields == KeepFields(old(fields), current)
    {
      ghost var fs0 := fields;
      var already := Keys(fields);
      var k := |already|;
      while k > 0
        invariant 0 <= k <= |fs0|
        invariant fields == fs0[..k] + KeepFields(fs0[k..], current)
      {
        k := k - 1;
        PruneFieldStep(fs0, k, current, fields);
        if already[k] !in current {
          fields := Lists.RemoveAt(fields, k);
        }
      }
    }

    /** The removal loop over a field's tag rows, from the last to the first. */
    static method PruneTags(ts0: seq<TagItem>, current: seq<string>) returns (ts: seq<TagItem>)
      ensures ts == KeepTags(ts0, current)
    {
      var already := TagKeys(ts0);
      ts := ts0;
      var k := |already|;
      while k > 0
        invariant 0 <= k <= |ts0|
        invariant ts == ts0[..k] + KeepTags(ts0[k..], current)
      {
        k := k - 1;
        PruneTagStep(ts0, k, current, ts);
        if already[k] !in current {
          ts := Lists.RemoveAt(ts, k);
        }
      }
    }

    /** The loop adding the tags whose lower-cased value is not among `already`. */
    method AddNewTags(i: nat, infos: seq<TagInfo>, already: seq<string>)
      requires i < |fields|
      modifies this`fields
      ensures fields == old(fields)[i := old(fields)[i].(tags := old(fields)[i].tags + NewTags(infos, already, mode))]
    {
      ghost var fs0 := fields;
      assert fs0[i].tags + NewTags(infos[..0], already, mode) == fs0[i].tags;
      for k := 0 to |infos|
        invariant |fields| == |fs0|
        invariant forall x | 0 <= x < |fields| && x != i :: fields[x] == fs0[x]
        invariant fields[i] == fs0[i].(tags := fs0[i].tags + NewTags(infos[..k], already, mode))
      {
        var tag := infos[k];
        assert infos[..k + 1][..k] == infos[..k];
        if Text.Lower(tag.value) !in already {
          var added := AddTag(ByItem(i), tag.id, tag.value, Some(tag.count));
        }
      }
      assert infos[..|infos|] == infos;
    }

    /** One pass of `updateTree`'s loop over the tag fields. */
    method RefreshField(c: Cat, alreadyFields: seq<string>) returns (ok: bool)
      modifies this`fields
      ensures ok == CatStep(old(fields), c, alreadyFields, mode).Ok?
      ensures fields == if ok then CatStep(old(fields), c, alreadyFields, mode).value else old(fields)
    {
      var i: nat;
      var alreadyTags: seq<string>;
      if Text.Lower(c.name) in alreadyFields {
        var parents := Matches(fields, c.name);
        if |parents| != 1 || parents[0] >= |fields| {
          return false;
        }
        i := parents[0];
        alreadyTags := TagKeys(fields[i].tags);
        var kept := PruneTags(fields[i].tags, InfoKeys(c.tags));
        fields := fields[i := fields[i].(tags := kept)];
      } else {
        i := AddField(c.id, c.name);
        alreadyTags := [];
      }
      AddNewTags(i, c.tags, alreadyTags);
      var added := AddEmptyTag(ByItem(i));
      ok := true;
    }

    /** `updateTree`: bring the tree in line with the tag fields read from the tables, in the dictionary's order. */
    method UpdateTree(cats: seq<Cat>) returns (r: Result<()>)
      modifies this`fields
      ensures fields == UpdateSpec(old(fields), cats, mode).fields
      ensures r.Err? <==> UpdateSpec(old(fields), cats, mode).failed
      ensures r.Err? ==> r.error == ValueError
    {
      var alreadyFields := Keys(fields);
      PruneFields(CatKeys(cats));
      ghost var pruned := fields;
      var ok := RefreshAll(cats, alreadyFields);
      FoldFromAgrees(pruned, cats, alreadyFields, mode, 0);
      r := if ok then Ok(()) else Err(ValueError);
    }

    /** The loop of `updateTree` over the tag fields; it stops at the first pass that raises ValueError. */
    method RefreshAll(cats: seq<Cat>, alreadyFields: seq<string>) returns (ok: bool)
      modifies this`fields
      ensures fields == FoldFrom(old(fields), cats, alreadyFields, mode, 0).fields
      ensures ok == !FoldFrom(old(fields), cats, alreadyFields, mode, 0).failed
    {
      ghost var goal := FoldFrom(fields, cats, alreadyFields, mode, 0);
      ghost var m := mode;
      for n := 0 to |cats|
        invariant mode == m
        invariant goal.fields == FoldFrom(fields, cats, alreadyFields, m, n).fields
        invariant goal.failed == FoldFrom(fields, cats, alreadyFields, m, n).failed
      {
        ghost var prev := fields;
        var stepOk := RefreshField(cats[n], alreadyFields);
        if !stepOk {
          FoldFromStops(prev, cats, alreadyFields, m, n);
          return false;
        }
        FoldFromNext(prev, cats, alreadyFields, m, n);
      }
      ok := true;
    }

    /**
     * `setData` on a row: the placeholder stores nothing and, for a
     * non-empty text other than its label, asks for a new tag in its field;
     * any other row takes the text.
     */
    method SetData(row: RowRef, value: string) returns (ok: bool, request: Option<(int, string)>)
      requires ValidRef(fields, row)
      modifies this`fields
      ensures ok
      ensures row.TagRef? && IsPlaceholder(old(fields)[row.field].tags[row.tag]) ==>
        fields == old(fields) &&
        (request.Some? <==> value != "" && value != old(fields)[row.field].tags[row.tag].text) &&
        (request.Some? ==> request.value == (old(fields)[row.field].id, value))
      ensures row.TagRef? && !IsPlaceholder(old(fields)[row.field].tags[row.tag]) ==> (request.None? &&
        fields == old(fields)[row.field := old(fields)[row.field].(tags :=
          old(fields)[row.field].tags[row.tag := old(fields)[row.field].tags[row.tag].(text := value)])])
      ensures row.FieldRef? ==> request.None? && fields == old(fields)[row.field := old(fields)[row.field].(text := value)]
    {
      request := None;
      ok := true;
      match row
      case FieldRef(i) =>
        fields := fields[i := fields[i].(text := value)];
      case TagRef(i, j) =>
        var item := fields[i].tags[j];
        if item.id.None? {
          if value != "" && value != item.text {
            request := Some((fields[i].id, value));
          }
        } else {
          fields := fields[i := fields[i].(tags := fields[i].tags[j := item.(text := value)])];
        }
    }

    /**
     * `on_newTag(fieldId, name)`: the tag is inserted into the database's
     * Tags table; when a row was inserted the tree is refreshed (`cats` is
     * what the refresh reads from the tables) and the new id looked up,
     * otherwise the existing tag is found by its name. The row found is
     * checked outside EditMode. A failed lookup raises ValueError.
     */
    method OnNewTag(db: Database.PhotoDatabase, fieldId: int, name: string, cats: seq<Cat>) returns (r: Result<()>)
      requires db.Valid()
      modifies this`fields, db`store
      ensures db.Valid()
      ensures var ins := InsertAll(old(db.store.tags), old(db.store.tagSeq), db.same, [(fieldId, name)]);
        db.store == old(db.store).(tags := ins.tags, tagSeq := ins.tagSeq)
      ensures r.Err? ==> r.error == ValueError
      ensures Refused(old(db.store.tags), db.same, fieldId, name) ==>
        (r.Ok? <==> ItemByText(old(fields), name, fieldId).Ok?) &&
        fields == if r.Ok? then CheckAt(old(fields), ItemByText(old(fields), name, fieldId).value, mode) else old(fields)
      ensures !Refused(old(db.store.tags), db.same, fieldId, name) ==>
        var u := UpdateSpec(old(fields), cats, mode);
        var id := old(db.store.tagSeq) + 1;
        id in db.store.tags && db.store.tags[id] == TagRow(fieldId, name) &&
        (r.Ok? <==> !u.failed && ItemById(u.fields, Some(id), fieldId).Ok?) &&
        fields == if r.Ok? then CheckAt(u.fields, ItemById(u.fields, Some(id), fieldId).value, mode) else u.fields
    {
      InsertOne(db.store.tags, db.store.tagSeq, db.same, fieldId, name);
      var inserted := db.InsertTags(Database.Ids(Database.One(fieldId)), Some(Database.One(name)));
      var ids := inserted.value;
      var found: Result<(nat, nat)>;
      if |ids| > 0 {
        var u := UpdateTree(cats);
        if u.Err? {
          return Err(u.error);
        }
        found := ItemById(fields, Some(ids[0]), fieldId);
      } else {
        found := ItemByText(fields, name, fieldId);
      }
      if found.Err? {
        return Err(found.error);
      }
      var (i, j) := found.value;
      if mode != EditMode {
        fields := fields[i := fields[i].(tags := fields[i].tags[j := fields[i].tags[j].(state := Checked)])];
      }
      r := Ok(());
    }
  }
}
