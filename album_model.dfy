// The table model over an album (src/datastore/models/album_model.py,
// class AlbumModel and its undo commands).
//
// The model's dataset is the photo database of module Database. Here it is
// seen the way the table model sees it: the field properties of its
// columns, one row of cell values per photo, and the tag tables. A write
// `dataset[row, field] = v` is modelled as a write of one cell only: the
// `updateAlbum` that the database runs on each such write is the subject
// of Database.PhotoDatabase.SetItem, and here the tag tables stay as they
// were, so the round trips below speak of the cells alone.

module AlbumModel {
  import opened Outcomes
  import opened Values
  import opened FieldObjects
  import Text
  import Lists
  import TagLists
  import Tables
  import Database

  // ---------------------------------------------------------- the dataset

  /** What the table model reads and writes: field properties, cells by row and column, and the tag tables. */
  datatype Dataset = Dataset(columns: seq<Props>, grid: seq<seq<Value>>, store: Tables.Store)

  /** Every row has a cell per column, and no two columns share a name (an Album refuses a duplicate name). */
  ghost predicate Shaped(d: Dataset) {
    (forall r | 0 <= r < |d.grid| :: |d.grid[r]| == |d.columns|)
    && forall i, j | 0 <= i < j < |d.columns| :: d.columns[i].name != d.columns[j].name
  }

  /** `index.isValid()` for `self.index(row, col)`: a cell of the table. */
  predicate InTable(d: Dataset, row: int, col: int) {
    0 <= row < |d.grid| && 0 <= col < |d.columns| && col < |d.grid[row]|
  }

  /** `dataset[row, field] = v` for an existing cell: that cell changes and nothing else. */
  function SetCell(d: Dataset, row: nat, col: nat, v: Value): (r: Dataset)
    requires row < |d.grid| && col < |d.grid[row]|
    ensures r.columns == d.columns && r.store == d.store && |r.grid| == |d.grid|
    ensures forall i | 0 <= i < |d.grid| :: |r.grid[i]| == |d.grid[i]|
    ensures r.grid[row][col] == v
    ensures forall i, j | 0 <= i < |d.grid| && 0 <= j < |d.grid[i]| && (i != row || j != col) :: r.grid[i][j] == d.grid[i][j]
  {
    d.(grid := d.grid[row := d.grid[row][col := v]])
  }

  /** The text of a cell as `str(index.data().toPyObject())` gives it. */
  function CellText(v: Value): string {
    PyStr(v)
  }

  // ------------------------------------------------------------ setTagState

  /**
   * `setTagState`'s edit of a cell's tags: adding appends the tag unless a
   * tag equal to it ignoring case is present; removing drops the first such
   * tag.
   */
  function TagState(ts: seq<string>, tag: string, state: bool): (r: seq<string>)
    ensures state ==> ts <= r && |r| <= |ts| + 1 && TagLists.HasTag(r, tag)
    ensures state && TagLists.HasTag(ts, tag) ==> r == ts
    ensures !state ==> multiset(r) <= multiset(ts)
    ensures !state ==> (TagLists.HasTag(ts, tag) <==> |r| == |ts| - 1)
    ensures !state && !TagLists.HasTag(ts, tag) ==> r == ts
  {
    if state then
      if TagLists.HasTag(ts, tag) then ts
      else
        assert TagLists.LowerAll(ts + [tag])[|ts|] == Text.Lower(tag);
        ts + [tag]
    else TagLists.DropTag(ts, tag)
  }

  /**
   * Where `DropTag` cuts: the position of the first tag equal to `t`
   * ignoring case, when there is one.
   */
  lemma DropTagAt(ts: seq<string>, t: string) returns (k: nat)
    requires TagLists.HasTag(ts, t)
    ensures k < |ts| && Text.Lower(ts[k]) == Text.Lower(t)
    ensures forall j | 0 <= j < k :: Text.Lower(ts[j]) != Text.Lower(t)
    ensures TagLists.DropTag(ts, t) == ts[..k] + ts[k + 1..]
  {
    var low := TagLists.LowerAll(ts);
    k := Lists.IndexOf(low, Text.Lower(t)).value;
    forall j | 0 <= j < k
      ensures Text.Lower(ts[j]) != Text.Lower(t)
    {
      assert low[j] == low[..k][j];
    }
  }

  /** Adding a tag that was absent and then removing it gives the tags back. */
  lemma TagStateAddRemove(ts: seq<string>, tag: string)
    requires !TagLists.HasTag(ts, tag)
    ensures TagState(TagState(ts, tag, true), tag, false) == ts
  {
    var added := ts + [tag];
    assert TagState(ts, tag, true) == added;
    var k := DropTagAt(added, tag);
    assert added[..k] + added[k + 1..] == ts;
  }

  /** Editing a clean tag list with a clean tag keeps it clean. */
  lemma TagStateClean(ts: seq<string>, tag: string, state: bool)
    requires TagLists.AllClean(ts) && TagLists.CleanTag(tag)
    ensures TagLists.AllClean(TagState(ts, tag, state))
  {
    var r := TagState(ts, tag, state);
    if !state && TagLists.HasTag(ts, tag) {
      var k := DropTagAt(ts, tag);
      forall i | 0 <= i < |r|
        ensures TagLists.CleanTag(r[i])
      {
        if i < k { assert r[i] == ts[i]; } else { assert r[i] == ts[i + 1]; }
      }
    }
  }

  /**
   * The tags a cell holds after `setTagState` are the edited tags: the cell
   * written with `'; '.join` reads back as exactly that list.
   */
  lemma TagStateCell(cell: Value, tag: string, state: bool)
    requires TagLists.CleanTag(tag)
    ensures TagLists.SplitTags(TagLists.JoinTags(TagState(TagLists.SplitTags(CellText(cell)), tag, state)))
         == TagState(TagLists.SplitTags(CellText(cell)), tag, state)
  {
    var ts := TagLists.SplitTags(CellText(cell));
    TagStateClean(ts, tag, state);
    TagLists.SplitJoin(TagState(ts, tag, state));
  }

  // --------------------------------------------------- _batchAddTags cells

  /** What `_batchAddTags` is given for a cell: tags to add, or a QVariant to store as it is. */
  datatype NewValue = Tags(tags: seq<string>) | Raw(v: Variant)

  /** `for rv in rvalues: drop the first tag equal to rv ignoring case, if any`. */
  function DropAllTags(ts: seq<string>, rs: seq<string>): (r: seq<string>)
    ensures multiset(r) <= multiset(ts)
    decreases |rs|
  {
    if |rs| == 0 then ts else DropAllTags(TagLists.DropTag(ts, rs[0]), rs[1..])
  }

  /** A tag that equals none of the removals, ignoring case, survives them. */
  lemma {:induction false} DropAllTagsKeeps(ts: seq<string>, rs: seq<string>, t: string)
    requires t in ts
    requires forall k | 0 <= k < |rs| :: Text.Lower(rs[k]) != Text.Lower(t)
    ensures t in DropAllTags(ts, rs)
    decreases |rs|
  {
    if |rs| > 0 {
      var next := TagLists.DropTag(ts, rs[0]);
      if TagLists.HasTag(ts, rs[0]) {
        var k := DropTagAt(ts, rs[0]);
        var i :| 0 <= i < |ts| && ts[i] == t;
        assert i != k;
        if i < k {
          assert next[i] == t;
        } else {
          assert next[i - 1] == t;
        }
      }
      assert DropAllTags(ts, rs) == DropAllTags(next, rs[1..]);
      assert forall k | 0 <= k < |rs| - 1 :: rs[1..][k] == rs[k + 1];
      DropAllTagsKeeps(next, rs[1..], t);
    }
  }

  /** A removed tag that the cell held once, ignoring case, is gone afterwards. */
  lemma {:induction false} DropAllTagsDrops(ts: seq<string>, rs: seq<string>, k: nat)
    requires k < |rs|
    requires Distinct(ts)
    ensures !TagLists.HasTag(DropAllTags(ts, rs), rs[k])
    decreases |rs|
  {
    var next := TagLists.DropTag(ts, rs[0]);
    assert DropAllTags(ts, rs) == DropAllTags(next, rs[1..]);
    DropTagDistinct(ts, rs[0]);
    if k == 0 {
      DropAllTagsAbsent(next, rs[1..], rs[0]);
    } else {
      assert rs[1..][k - 1] == rs[k];
      DropAllTagsDrops(next, rs[1..], k - 1);
    }
  }

  /** No two tags are equal ignoring case. */
  predicate Distinct(ts: seq<string>) {
    forall i, j | 0 <= i < j < |ts| :: Text.Lower(ts[i]) != Text.Lower(ts[j])
  }

  /** Dropping the first match from tags distinct ignoring case keeps them distinct and leaves no match. */
  lemma DropTagDistinct(ts: seq<string>, t: string)
    requires Distinct(ts)
    ensures !TagLists.HasTag(TagLists.DropTag(ts, t), t) && Distinct(TagLists.DropTag(ts, t))
  {
    var r := TagLists.DropTag(ts, t);
    if TagLists.HasTag(ts, t) {
      var k := DropTagAt(ts, t);
      forall i, j | 0 <= i < j < |r|
        ensures Text.Lower(r[i]) != Text.Lower(r[j])
      {
        var i' := if i < k then i else i + 1;
        var j' := if j < k then j else j + 1;
        assert r[i] == ts[i'] && r[j] == ts[j'];
      }
      var low := TagLists.LowerAll(r);
      forall i | 0 <= i < |low|
        ensures low[i] != Text.Lower(t)
      {
        var i' := if i < k then i else i + 1;
        assert r[i] == ts[i'];
      }
    }
  }

  /** Removals never bring back a tag that is absent. */
  lemma {:induction false} DropAllTagsAbsent(ts: seq<string>, rs: seq<string>, t: string)
    requires !TagLists.HasTag(ts, t)
    ensures !TagLists.HasTag(DropAllTags(ts, rs), t)
    decreases |rs|
  {
    if |rs| > 0 {
      var next := TagLists.DropTag(ts, rs[0]);
      if TagLists.HasTag(ts, rs[0]) {
        var k := DropTagAt(ts, rs[0]);
        var low := TagLists.LowerAll(next);
        forall i | 0 <= i < |low|
          ensures low[i] != Text.Lower(t)
        {
          var i' := if i < k then i else i + 1;
          assert next[i] == ts[i'];
          assert TagLists.LowerAll(ts)[i'] == Text.Lower(ts[i']);
        }
      }
      DropAllTagsAbsent(next, rs[1..], t);
    }
  }

  /** `[k for k in newTags if k not in oldTags]`: exact comparison, and a repeated new tag is kept twice. */
  function Additions(kept: seq<string>, adds: seq<string>): (r: seq<string>)
    ensures forall t :: t in r <==> t in adds && t !in kept
    ensures |r| <= |adds|
  {
    if |adds| == 0 then []
    else (if adds[0] in kept then [] else [adds[0]]) + Additions(kept, adds[1..])
  }

  /**
   * The tags of a list-valued cell after a batch edit: the removals first,
   * then the new tags not already there, appended in order.
   */
  function MergeTags(ts: seq<string>, adds: seq<string>, rs: seq<string>): (r: seq<string>)
    ensures DropAllTags(ts, rs) <= r
    ensures forall t | t in adds :: t in r
    ensures forall k | |DropAllTags(ts, rs)| <= k < |r| :: r[k] in adds && r[k] !in DropAllTags(ts, rs)
  {
    var kept := DropAllTags(ts, rs);
    kept + Additions(kept, adds)
  }

  /** A clean tag list stays clean through a batch edit with clean new tags. */
  lemma MergeTagsClean(ts: seq<string>, adds: seq<string>, rs: seq<string>)
    requires TagLists.AllClean(ts) && TagLists.AllClean(adds)
    ensures TagLists.AllClean(MergeTags(ts, adds, rs))
  {
    var kept := DropAllTags(ts, rs);
    var r := MergeTags(ts, adds, rs);
    forall k | 0 <= k < |r|
      ensures TagLists.CleanTag(r[k])
    {
      if k < |kept| {
        assert kept[k] in multiset(ts);
      } else {
        assert r[k] in adds;
      }
    }
  }

  /** The removals a row names for a field (`rvalues[r][fieldname]`); `[]` where none are given. */
  function RemovalsFor(rems: map<string, seq<string>>, f: string): seq<string> {
    if f in rems then rems[f] else []
  }

  /** `values[r].get(fieldname, [])`. */
  function NewFor(vals: map<string, NewValue>, f: string): NewValue {
    if f in vals then vals[f] else Tags([])
  }

  /**
   * The value a batch edit stores in one cell: a QVariant goes through the
   * editor's coercion; a tag list is merged into the cell's tags and the
   * joined text goes through the coercion.
   */
  function BatchValue(editor: Option<int>, cell: Value, nv: NewValue, rs: seq<string>): (r: Value)
    ensures Fits(editor, r)
  {
    match nv
    case Raw(v) => Coerce(editor, v)
    case Tags(adds) => Coerce(editor, VStr(TagLists.JoinTags(MergeTags(TagLists.SplitTags(CellText(cell)), adds, rs))))
  }

  /** In a text column, the tags the cell holds after the batch edit are the merged tags. */
  lemma BatchValueTags(editor: Option<int>, cell: Value, adds: seq<string>, rs: seq<string>)
    requires editor != Some(CheckBoxEditor) && editor != Some(DateEditEditor)
    requires TagLists.AllClean(adds)
    ensures BatchValue(editor, cell, Tags(adds), rs).Str?
    ensures TagLists.SplitTags(BatchValue(editor, cell, Tags(adds), rs).s)
         == MergeTags(TagLists.SplitTags(CellText(cell)), adds, rs)
  {
    var m := MergeTags(TagLists.SplitTags(CellText(cell)), adds, rs);
    MergeTagsClean(TagLists.SplitTags(CellText(cell)), adds, rs);
    TagLists.SplitJoin(m);
  }

  // ------------------------------------------------- _batchAddTags as a fold

  /** The cells and the captured old values, by row position, as `_batchAddTags` goes along. */
  datatype Batch = Batch(grid: seq<seq<Value>>, olds: seq<map<string, NewValue>>)

  /**
   * One empty record per row position. `_batchAddTags` starts its records
   * with `None` for each field of `values[0]`; every one of those is
   * overwritten by the loop, so the records are taken to start empty. As
   * removals, `[{}]*len(rows)` is what the undo passes.
   */
  function Empties<V>(n: nat): (r: seq<map<string, V>>)
    ensures |r| == n && forall k | 0 <= k < n :: r[k] == map[]
  {
    seq(n, _ => map[])
  }

  /** The column `self.dataset.fields.index(fieldname)` finds. */
  function ColOf(cols: seq<Props>, f: string): (c: nat)
    requires f in Tables.PropNames(cols)
    ensures c < |cols| && cols[c].name == f
  {
    Lists.IndexOf(Tables.PropNames(cols), f).value
  }

  /** Two grids with the same number of rows, each of the same length. */
  ghost predicate SameShape(a: seq<seq<Value>>, b: seq<seq<Value>>) {
    |a| == |b| && forall x | 0 <= x < |a| :: |a[x]| == |b[x]|
  }

  /** Every row position names a row of the grid, and each row has `width` cells. */
  ghost predicate Reaches(g: seq<seq<Value>>, width: nat, rows: seq<int>) {
    (forall x | 0 <= x < |g| :: |g[x]| == width)
    && forall k | 0 <= k < |rows| :: 0 <= rows[k] < |g|
  }

  /** No row is listed twice. */
  predicate Once<T(==)>(xs: seq<T>) {
    forall a, c | 0 <= a < c < |xs| :: xs[a] != xs[c]
  }

  /** The record holds a QVariant for field `f`. */
  predicate Recorded(rec: map<string, NewValue>, f: string) {
    f in rec && rec[f].Raw?
  }

  /** How one cell is rewritten: from its current value, what it is given, and its removals. */
  type CellStep = (Value, NewValue, seq<string>) -> Value

  /** The rewrite `_batchAddTags` applies in a column with this editor. */
  function StepFor(editor: Option<int>): CellStep {
    (cell, nv, rs) => BatchValue(editor, cell, nv, rs)
  }

  /** A QVariant is stored through the editor's coercion, whatever the cell held. */
  lemma StepForRaw(editor: Option<int>, cell: Value, v: Variant, rs: seq<string>)
    ensures StepFor(editor)(cell, Raw(v), rs) == Coerce(editor, v)
  {
  }

  /**
   * The inner loop over the first `i` row positions for one field: each
   * visit records the cell's current value as a QVariant and stores the
   * cell's rewritten value.
   */
  function RowsFold(b: Batch, step: CellStep, col: nat, f: string, rows: seq<int>,
                    vals: seq<map<string, NewValue>>, rems: seq<map<string, seq<string>>>, i: nat): (r: Batch)
    requires i <= |rows| && |vals| == |rows| && |rems| == |rows| && |b.olds| == |rows|
    requires forall k | 0 <= k < |rows| :: 0 <= rows[k] < |b.grid| && col < |b.grid[rows[k]]|
    ensures |r.grid| == |b.grid| && |r.olds| == |b.olds|
    ensures forall x | 0 <= x < |b.grid| :: |r.grid[x]| == |b.grid[x]|
    decreases i
  {
    if i == 0 then b
    else
      var p := RowsFold(b, step, col, f, rows, vals, rems, i - 1);
      var row := rows[i - 1];
      var cell := p.grid[row][col];
      var v := step(cell, NewFor(vals[i - 1], f), RemovalsFor(rems[i - 1], f));
      Batch(p.grid[row := p.grid[row][col := v]], p.olds[i - 1 := p.olds[i - 1][f := Raw(ToVariant(cell))]])
  }

  /**
   * What the inner loop records: every visited position holds a QVariant
   * for the field, other fields' records are untouched, and the positions
   * not yet visited keep their records.
   */
  lemma {:induction false} RowsFoldOlds(b: Batch, step: CellStep, col: nat, f: string, rows: seq<int>,
                                        vals: seq<map<string, NewValue>>, rems: seq<map<string, seq<string>>>, i: nat)
    requires i <= |rows| && |vals| == |rows| && |rems| == |rows| && |b.olds| == |rows|
    requires forall k | 0 <= k < |rows| :: 0 <= rows[k] < |b.grid| && col < |b.grid[rows[k]]|
    ensures forall k | 0 <= k < i :: Recorded(RowsFold(b, step, col, f, rows, vals, rems, i).olds[k], f)
    ensures forall k, g | 0 <= k < |rows| && g in b.olds[k] && g != f ::
      g in RowsFold(b, step, col, f, rows, vals, rems, i).olds[k] && RowsFold(b, step, col, f, rows, vals, rems, i).olds[k][g] == b.olds[k][g]
    ensures forall k | i <= k < |rows| :: RowsFold(b, step, col, f, rows, vals, rems, i).olds[k] == b.olds[k]
    decreases i
  {
    if i > 0 {
      RowsFoldOlds(b, step, col, f, rows, vals, rems, i - 1);
      var p := RowsFold(b, step, col, f, rows, vals, rems, i - 1);
      var r := RowsFold(b, step, col, f, rows, vals, rems, i);
      var cell := p.grid[rows[i - 1]][col];
      assert r.olds == p.olds[i - 1 := p.olds[i - 1][f := Raw(ToVariant(cell))]];
      forall k, g | 0 <= k < |rows| && g in b.olds[k] && g != f
        ensures g in r.olds[k] && r.olds[k][g] == b.olds[k][g]
      {
        assert g in p.olds[k] && p.olds[k][g] == b.olds[k][g];
        if k == i - 1 {
          assert r.olds[k] == p.olds[k][f := Raw(ToVariant(cell))];
        } else {
          assert r.olds[k] == p.olds[k];
        }
      }
    }
  }

  /** Row `x` is not among the first `i` listed rows. */
  predicate Unlisted(rows: seq<int>, x: int, i: nat) {
    forall k | 0 <= k < i && k < |rows| :: rows[k] != x
  }

  /**
   * With no row listed twice, the inner loop rewrites each listed row's
   * cell from its value before the loop, records that value, and leaves
   * every other cell alone.
   */
  lemma {:induction false} RowsFoldCells(b: Batch, step: CellStep, col: nat, f: string, rows: seq<int>,
                                         vals: seq<map<string, NewValue>>, rems: seq<map<string, seq<string>>>, i: nat)
    requires i <= |rows| && |vals| == |rows| && |rems| == |rows| && |b.olds| == |rows|
    requires forall k | 0 <= k < |rows| :: 0 <= rows[k] < |b.grid| && col < |b.grid[rows[k]]|
    requires Once(rows)
    ensures forall k | 0 <= k < i ::
      RowsFold(b, step, col, f, rows, vals, rems, i).grid[rows[k]][col] == step(b.grid[rows[k]][col], NewFor(vals[k], f), RemovalsFor(rems[k], f))
    ensures forall k | 0 <= k < i ::
      f in RowsFold(b, step, col, f, rows, vals, rems, i).olds[k] && RowsFold(b, step, col, f, rows, vals, rems, i).olds[k][f] == Raw(ToVariant(b.grid[rows[k]][col]))
    ensures forall x, y | 0 <= x < |b.grid| && 0 <= y < |b.grid[x]| && (y != col || Unlisted(rows, x, i)) ::
      RowsFold(b, step, col, f, rows, vals, rems, i).grid[x][y] == b.grid[x][y]
    decreases i
  {
    if i > 0 {
      RowsFoldCells(b, step, col, f, rows, vals, rems, i - 1);
      var p := RowsFold(b, step, col, f, rows, vals, rems, i - 1);
      var r := RowsFold(b, step, col, f, rows, vals, rems, i);
      var row := rows[i - 1];
      var cell := p.grid[row][col];
      var v := step(cell, NewFor(vals[i - 1], f), RemovalsFor(rems[i - 1], f));
      assert r.grid == p.grid[row := p.grid[row][col := v]];
      assert r.olds == p.olds[i - 1 := p.olds[i - 1][f := Raw(ToVariant(cell))]];
      assert Unlisted(rows, row, i - 1);
      assert cell == b.grid[row][col];
      forall k | 0 <= k < i - 1
        ensures r.grid[rows[k]][col] == p.grid[rows[k]][col] && r.olds[k] == p.olds[k]
      {
        assert rows[k] != row;
      }
      forall x, y | 0 <= x < |b.grid| && 0 <= y < |b.grid[x]| && (y != col || Unlisted(rows, x, i))
        ensures r.grid[x][y] == b.grid[x][y]
      {
        if y == col {
          assert rows[i - 1] != x;
        }
      }
    }
  }

  /**
   * The outer loop over the first `j` fields of `order`: field `order[m]`
   * lives in column `cs[m]` and its cells are rewritten by `steps[m]`.
   */
  function FieldsFold(b: Batch, cs: seq<nat>, steps: seq<CellStep>, order: seq<string>, rows: seq<int>,
                      vals: seq<map<string, NewValue>>, rems: seq<map<string, seq<string>>>, width: nat, j: nat): (r: Batch)
    requires j <= |order| == |cs| == |steps| && |vals| == |rows| && |rems| == |rows| && |b.olds| == |rows|
    requires forall m | 0 <= m < |cs| :: cs[m] < width
    requires Reaches(b.grid, width, rows)
    ensures |r.grid| == |b.grid| && |r.olds| == |b.olds| && Reaches(r.grid, width, rows)
    decreases j
  {
    if j == 0 then b
    else
      var p := FieldsFold(b, cs, steps, order, rows, vals, rems, width, j - 1);
      RowsFold(p, steps[j - 1], cs[j - 1], order[j - 1], rows, vals, rems, |rows|)
  }

  /** Column `y` is none of the first `j` columns of `cs`. */
  predicate Untouched(cs: seq<nat>, y: int, j: nat) {
    forall m | 0 <= m < j && m < |cs| :: cs[m] != y
  }

  /** The first `j` fields leave every cell of an unlisted row, and every column of another field, alone. */
  lemma {:induction false} FieldsFoldFrame(b: Batch, cs: seq<nat>, steps: seq<CellStep>, order: seq<string>, rows: seq<int>,
                                           vals: seq<map<string, NewValue>>, rems: seq<map<string, seq<string>>>, width: nat, j: nat)
    requires j <= |order| == |cs| == |steps| && |vals| == |rows| && |rems| == |rows| && |b.olds| == |rows|
    requires forall m | 0 <= m < |cs| :: cs[m] < width
    requires Reaches(b.grid, width, rows)
    requires Once(rows)
    ensures forall x, y | 0 <= x < |b.grid| && 0 <= y < width && Unlisted(rows, x, |rows|) ::
      FieldsFold(b, cs, steps, order, rows, vals, rems, width, j).grid[x][y] == b.grid[x][y]
    ensures forall x, y | 0 <= x < |b.grid| && 0 <= y < width && Untouched(cs, y, j) ::
      FieldsFold(b, cs, steps, order, rows, vals, rems, width, j).grid[x][y] == b.grid[x][y]
    decreases j
  {
    if j > 0 {
      FieldsFoldFrame(b, cs, steps, order, rows, vals, rems, width, j - 1);
      var p := FieldsFold(b, cs, steps, order, rows, vals, rems, width, j - 1);
      RowsFoldCells(p, steps[j - 1], cs[j - 1], order[j - 1], rows, vals, rems, |rows|);
      var r := FieldsFold(b, cs, steps, order, rows, vals, rems, width, j);
      forall x, y | 0 <= x < |b.grid| && 0 <= y < width && Untouched(cs, y, j)
        ensures r.grid[x][y] == b.grid[x][y]
      {
        assert y != cs[j - 1];
        assert Untouched(cs, y, j - 1);
        assert |p.grid[x]| == width;
      }
    }
  }

  /** After the first `j` fields every record holds a QVariant for each of them, whether rows repeat or not. */
  lemma {:induction false} FieldsFoldOlds(b: Batch, cs: seq<nat>, steps: seq<CellStep>, order: seq<string>, rows: seq<int>,
                                          vals: seq<map<string, NewValue>>, rems: seq<map<string, seq<string>>>, width: nat, j: nat)
    requires j <= |order| == |cs| == |steps| && |vals| == |rows| && |rems| == |rows| && |b.olds| == |rows|
    requires forall m | 0 <= m < |cs| :: cs[m] < width
    requires Reaches(b.grid, width, rows)
    ensures forall m, k | 0 <= m < j && 0 <= k < |rows| ::
      Recorded(FieldsFold(b, cs, steps, order, rows, vals, rems, width, j).olds[k], order[m])
    decreases j
  {
    if j > 0 {
      FieldsFoldOlds(b, cs, steps, order, rows, vals, rems, width, j - 1);
      var p := FieldsFold(b, cs, steps, order, rows, vals, rems, width, j - 1);
      RowsFoldOlds(p, steps[j - 1], cs[j - 1], order[j - 1], rows, vals, rems, |rows|);
      var r := FieldsFold(b, cs, steps, order, rows, vals, rems, width, j);
      forall m, k | 0 <= m < j && 0 <= k < |rows|
        ensures Recorded(r.olds[k], order[m])
      {
        if order[m] != order[j - 1] {
          assert Recorded(p.olds[k], order[m]);
        }
      }
    }
  }

  /**
   * With no row and no column listed twice, `_batchAddTags` stores in each
   * listed cell the value rewritten from the cell as it was before the call.
   */
  lemma {:induction false} FieldsFoldCells(b: Batch, cs: seq<nat>, steps: seq<CellStep>, order: seq<string>, rows: seq<int>,
                                           vals: seq<map<string, NewValue>>, rems: seq<map<string, seq<string>>>, width: nat, j: nat)
    requires j <= |order| == |cs| == |steps| && |vals| == |rows| && |rems| == |rows| && |b.olds| == |rows|
    requires forall m | 0 <= m < |cs| :: cs[m] < width
    requires Reaches(b.grid, width, rows)
    requires Once(rows) && Once(cs)
    ensures forall m, k | 0 <= m < j && 0 <= k < |rows| ::
      FieldsFold(b, cs, steps, order, rows, vals, rems, width, j).grid[rows[k]][cs[m]]
        == steps[m](b.grid[rows[k]][cs[m]], NewFor(vals[k], order[m]), RemovalsFor(rems[k], order[m]))
    decreases j
  {
    if j > 0 {
      FieldsFoldCells(b, cs, steps, order, rows, vals, rems, width, j - 1);
      FieldsFoldFrame(b, cs, steps, order, rows, vals, rems, width, j - 1);
      var p := FieldsFold(b, cs, steps, order, rows, vals, rems, width, j - 1);
      var c, f := cs[j - 1], order[j - 1];
      RowsFoldCells(p, steps[j - 1], c, f, rows, vals, rems, |rows|);
      var r := FieldsFold(b, cs, steps, order, rows, vals, rems, width, j);
      forall m, k | 0 <= m < j && 0 <= k < |rows|
        ensures r.grid[rows[k]][cs[m]] == steps[m](b.grid[rows[k]][cs[m]], NewFor(vals[k], order[m]), RemovalsFor(rems[k], order[m]))
      {
        if m < j - 1 {
          assert cs[m] != c;
          assert r.grid[rows[k]][cs[m]] == p.grid[rows[k]][cs[m]];
        } else {
          assert Untouched(cs, c, j - 1);
          assert p.grid[rows[k]][c] == b.grid[rows[k]][c];
        }
      }
    }
  }

  /** The record of listed position `k` for field `order[m]` holds the cell's value before the call. */
  lemma {:induction false} FieldsFoldRecordAt(b: Batch, cs: seq<nat>, steps: seq<CellStep>, order: seq<string>, rows: seq<int>,
                                              vals: seq<map<string, NewValue>>, rems: seq<map<string, seq<string>>>, width: nat,
                                              j: nat, m: nat, k: nat)
    requires j <= |order| == |cs| == |steps| && |vals| == |rows| && |rems| == |rows| && |b.olds| == |rows|
    requires forall m | 0 <= m < |cs| :: cs[m] < width
    requires Reaches(b.grid, width, rows)
    requires Once(rows) && Once(cs) && Once(order)
    requires m < j && k < |rows|
    ensures order[m] in FieldsFold(b, cs, steps, order, rows, vals, rems, width, j).olds[k] && FieldsFold(b, cs, steps, order, rows, vals, rems, width, j).olds[k][order[m]] == Raw(ToVariant(b.grid[rows[k]][cs[m]]))
    decreases j
  {
    var p := FieldsFold(b, cs, steps, order, rows, vals, rems, width, j - 1);
    var c, f := cs[j - 1], order[j - 1];
    if m < j - 1 {
      FieldsFoldRecordAt(b, cs, steps, order, rows, vals, rems, width, j - 1, m, k);
      RowsFoldOlds(p, steps[j - 1], c, f, rows, vals, rems, |rows|);
      assert order[m] != f;
    } else {
      FieldsFoldFrame(b, cs, steps, order, rows, vals, rems, width, j - 1);
      RowsFoldCells(p, steps[j - 1], c, f, rows, vals, rems, |rows|);
      assert Untouched(cs, c, j - 1);
      assert p.grid[rows[k]][c] == b.grid[rows[k]][c];
    }
  }

  /**
   * With no row and no field listed twice, `_batchAddTags` records for each
   * listed cell the value it held before the call.
   */
  lemma FieldsFoldRecords(b: Batch, cs: seq<nat>, steps: seq<CellStep>, order: seq<string>, rows: seq<int>,
                          vals: seq<map<string, NewValue>>, rems: seq<map<string, seq<string>>>, width: nat, j: nat)
    requires j <= |order| == |cs| == |steps| && |vals| == |rows| && |rems| == |rows| && |b.olds| == |rows|
    requires forall m | 0 <= m < |cs| :: cs[m] < width
    requires Reaches(b.grid, width, rows)
    requires Once(rows) && Once(cs) && Once(order)
    ensures forall m, k | 0 <= m < j && 0 <= k < |rows| ::
      order[m] in FieldsFold(b, cs, steps, order, rows, vals, rems, width, j).olds[k] && FieldsFold(b, cs, steps, order, rows, vals, rems, width, j).olds[k][order[m]] == Raw(ToVariant(b.grid[rows[k]][cs[m]]))
  {
    forall m: nat, k: nat | m < j && k < |rows|
      ensures order[m] in FieldsFold(b, cs, steps, order, rows, vals, rems, width, j).olds[k] && FieldsFold(b, cs, steps, order, rows, vals, rems, width, j).olds[k][order[m]] == Raw(ToVariant(b.grid[rows[k]][cs[m]]))
    {
      FieldsFoldRecordAt(b, cs, steps, order, rows, vals, rems, width, j, m, k);
    }
  }

  // ------------------------------------------ _batchAddTags on the dataset

  /** The column of each field of `order`, as `self.dataset.fields.index(fieldname)` finds it. */
  function Cols(cols: seq<Props>, order: seq<string>): (cs: seq<nat>)
    requires forall m | 0 <= m < |order| :: order[m] in Tables.PropNames(cols)
    ensures |cs| == |order|
    ensures forall m | 0 <= m < |order| :: cs[m] < |cols| && cols[cs[m]].name == order[m]
  {
    seq(|order|, m requires 0 <= m < |order| => ColOf(cols, order[m]))
  }

  /** The rewrite of each listed column, by the column's editor. */
  function Steps(cols: seq<Props>, cs: seq<nat>): (r: seq<CellStep>)
    requires forall m | 0 <= m < |cs| :: cs[m] < |cols|
    ensures |r| == |cs|
    ensures forall m | 0 <= m < |cs| :: r[m] == StepFor(cols[cs[m]].editor)
  {
    seq(|cs|, m requires 0 <= m < |cs| => StepFor(cols[cs[m]].editor))
  }

  /** Every listed row is a row of the dataset and every listed field one of its columns. */
  ghost predicate Addressable(d: Dataset, rows: seq<int>, order: seq<string>) {
    Shaped(d)
    && (forall k | 0 <= k < |rows| :: 0 <= rows[k] < |d.grid|)
    && forall m | 0 <= m < |order| :: order[m] in Tables.PropNames(d.columns)
  }

  /**
   * What `_batchAddTags(rows, values, rvalues)` leaves, its field loop
   * running through `order` (the iteration order of
   * `set(values[0].keys() + rvalues[0].keys())`): the new cells and the
   * records it returns.
   */
  function Redone(d: Dataset, rows: seq<int>, vals: seq<map<string, NewValue>>, rems: seq<map<string, seq<string>>>,
                  order: seq<string>): (r: Batch)
    requires Addressable(d, rows, order) && |vals| == |rows| && |rems| == |rows|
    ensures |r.grid| == |d.grid| && |r.olds| == |rows| && Reaches(r.grid, |d.columns|, rows)
  {
    var cs := Cols(d.columns, order);
    FieldsFold(Batch(d.grid, Empties(|rows|)), cs, Steps(d.columns, cs), order, rows, vals, rems, |d.columns|, |order|)
  }

  /**
   * What `batchAddCmd.undo` leaves after the redo: `_batchAddTags(rows,
   * oldvalues)` with the redo's records as QVariants and no removals, over
   * the same fields in the same order.
   */
  function Undone(d: Dataset, rows: seq<int>, vals: seq<map<string, NewValue>>, rems: seq<map<string, seq<string>>>,
                  order: seq<string>): (r: Batch)
    requires Addressable(d, rows, order) && |vals| == |rows| && |rems| == |rows|
    ensures |r.grid| == |d.grid| && Reaches(r.grid, |d.columns|, rows)
  {
    var b1 := Redone(d, rows, vals, rems, order);
    var cs := Cols(d.columns, order);
    FieldsFold(Batch(b1.grid, Empties(|rows|)), cs, Steps(d.columns, cs), order, rows, b1.olds, Empties(|rows|), |d.columns|, |order|)
  }

  /** Distinct field names find distinct columns. */
  lemma ColsOnce(cols: seq<Props>, order: seq<string>)
    requires forall m | 0 <= m < |order| :: order[m] in Tables.PropNames(cols)
    requires Once(order)
    ensures Once(Cols(cols, order))
  {
    var cs := Cols(cols, order);
    forall a, c | 0 <= a < c < |cs|
      ensures cs[a] != cs[c]
    {
      assert cols[cs[a]].name == order[a] && cols[cs[c]].name == order[c];
    }
  }

  /**
   * What the redo writes: each listed cell gets the value its editor
   * stores for the cell's old value, the row's new value for the field and
   * the row's removals for it.
   */
  lemma BatchRedoTouched(d: Dataset, rows: seq<int>, vals: seq<map<string, NewValue>>, rems: seq<map<string, seq<string>>>,
                         order: seq<string>, k: nat, m: nat)
    requires Addressable(d, rows, order) && |vals| == |rows| && |rems| == |rows|
    requires Once(rows) && Once(order)
    requires k < |rows| && m < |order|
    ensures var y := Cols(d.columns, order)[m];
      Redone(d, rows, vals, rems, order).grid[rows[k]][y]
        == BatchValue(d.columns[y].editor, d.grid[rows[k]][y], NewFor(vals[k], order[m]), RemovalsFor(rems[k], order[m]))
  {
    var cs := Cols(d.columns, order);
    var steps := Steps(d.columns, cs);
    ColsOnce(d.columns, order);
    var b0 := Batch(d.grid, Empties(|rows|));
    assert Redone(d, rows, vals, rems, order) == FieldsFold(b0, cs, steps, order, rows, vals, rems, |d.columns|, |order|);
    FieldsFoldCells(b0, cs, steps, order, rows, vals, rems, |d.columns|, |order|);
  }

  /** The redo records, for a listed cell, the value the cell held before. */
  lemma BatchRedoRecord(d: Dataset, rows: seq<int>, vals: seq<map<string, NewValue>>, rems: seq<map<string, seq<string>>>,
                        order: seq<string>, k: nat, m: nat)
    requires Addressable(d, rows, order) && |vals| == |rows| && |rems| == |rows|
    requires Once(rows) && Once(order)
    requires k < |rows| && m < |order|
    ensures var y := Cols(d.columns, order)[m];
      Recorded(Redone(d, rows, vals, rems, order).olds[k], order[m])
      && Redone(d, rows, vals, rems, order).olds[k][order[m]] == Raw(ToVariant(d.grid[rows[k]][y]))
  {
    var cs := Cols(d.columns, order);
    var steps := Steps(d.columns, cs);
    ColsOnce(d.columns, order);
    var b0 := Batch(d.grid, Empties(|rows|));
    assert Redone(d, rows, vals, rems, order) == FieldsFold(b0, cs, steps, order, rows, vals, rems, |d.columns|, |order|);
    FieldsFoldRecordAt(b0, cs, steps, order, rows, vals, rems, |d.columns|, |order|, m, k);
  }

  /** The redo leaves every cell outside the listed rows and fields as it was. */
  lemma BatchRedoUntouched(d: Dataset, rows: seq<int>, vals: seq<map<string, NewValue>>, rems: seq<map<string, seq<string>>>,
                           order: seq<string>, x: nat, y: nat)
    requires Addressable(d, rows, order) && |vals| == |rows| && |rems| == |rows|
    requires Once(rows)
    requires x < |d.grid| && y < |d.columns| && !(x in rows && d.columns[y].name in order)
    ensures Redone(d, rows, vals, rems, order).grid[x][y] == d.grid[x][y]
  {
    var cs := Cols(d.columns, order);
    var steps := Steps(d.columns, cs);
    var b0 := Batch(d.grid, Empties(|rows|));
    assert Redone(d, rows, vals, rems, order) == FieldsFold(b0, cs, steps, order, rows, vals, rems, |d.columns|, |order|);
    FieldsFoldFrame(b0, cs, steps, order, rows, vals, rems, |d.columns|, |order|);
    if x in rows {
      forall m | 0 <= m < |order|
        ensures cs[m] != y
      {
        assert d.columns[cs[m]].name == order[m];
      }
      assert Untouched(cs, y, |order|);
    } else {
      assert Unlisted(rows, x, |rows|);
    }
  }

  /** A touched cell: undo writes the recorded QVariant back through the column's editor. */
  lemma BatchUndoTouched(d: Dataset, rows: seq<int>, vals: seq<map<string, NewValue>>, rems: seq<map<string, seq<string>>>,
                         order: seq<string>, k: nat, m: nat)
    requires Addressable(d, rows, order) && |vals| == |rows| && |rems| == |rows|
    requires Once(rows) && Once(order)
    requires k < |rows| && m < |order|
    ensures var y := Cols(d.columns, order)[m];
      Undone(d, rows, vals, rems, order).grid[rows[k]][y] == Coerce(d.columns[y].editor, ToVariant(d.grid[rows[k]][y]))
  {
    var n, w := |rows|, |d.columns|;
    var cs := Cols(d.columns, order);
    var steps := Steps(d.columns, cs);
    ColsOnce(d.columns, order);
    var b0 := Batch(d.grid, Empties(n));
    var b1 := Redone(d, rows, vals, rems, order);
    var u0 := Batch(b1.grid, Empties(n));
    var b2 := Undone(d, rows, vals, rems, order);
    assert b1 == FieldsFold(b0, cs, steps, order, rows, vals, rems, w, |order|);
    assert b2 == FieldsFold(u0, cs, steps, order, rows, b1.olds, Empties(n), w, |order|);
    var x, y, e := rows[k], cs[m], d.columns[cs[m]].editor;
    FieldsFoldRecords(b0, cs, steps, order, rows, vals, rems, w, |order|);
    FieldsFoldCells(u0, cs, steps, order, rows, b1.olds, Empties(n), w, |order|);
    var nv, rs := NewFor(b1.olds[k], order[m]), RemovalsFor(Empties<seq<string>>(n)[k], order[m]);
    assert b2.grid[x][y] == steps[m](b1.grid[x][y], nv, rs);
    assert nv == Raw(ToVariant(d.grid[x][y]));
    StepForRaw(e, b1.grid[x][y], ToVariant(d.grid[x][y]), rs);
  }

  /** An untouched cell: neither the redo nor the undo writes it. */
  lemma BatchUndoUntouched(d: Dataset, rows: seq<int>, vals: seq<map<string, NewValue>>, rems: seq<map<string, seq<string>>>,
                           order: seq<string>, x: nat, y: nat)
    requires Addressable(d, rows, order) && |vals| == |rows| && |rems| == |rows|
    requires Once(rows)
    requires x < |d.grid| && y < |d.columns| && !(x in rows && d.columns[y].name in order)
    ensures Undone(d, rows, vals, rems, order).grid[x][y] == d.grid[x][y]
  {
    var n, w := |rows|, |d.columns|;
    var cs := Cols(d.columns, order);
    var steps := Steps(d.columns, cs);
    var b0 := Batch(d.grid, Empties(n));
    var b1 := Redone(d, rows, vals, rems, order);
    var u0 := Batch(b1.grid, Empties(n));
    assert b1 == FieldsFold(b0, cs, steps, order, rows, vals, rems, w, |order|);
    assert Undone(d, rows, vals, rems, order) == FieldsFold(u0, cs, steps, order, rows, b1.olds, Empties(n), w, |order|);
    FieldsFoldFrame(b0, cs, steps, order, rows, vals, rems, w, |order|);
    FieldsFoldFrame(u0, cs, steps, order, rows, b1.olds, Empties(n), w, |order|);
    if x in rows {
      forall m | 0 <= m < |order|
        ensures cs[m] != y
      {
        assert d.columns[cs[m]].name == order[m];
      }
      assert Untouched(cs, y, |order|);
    } else {
      assert Unlisted(rows, x, n);
    }
  }

  /**
   * Undo after redo, cell by cell: a cell the batch did not touch is as it
   * was, and a touched cell gets its old value back exactly when that value
   * is one its column's editor would store (the undo writes the recorded
   * QVariant back through the editor's coercion).
   */
  lemma BatchUndoCell(d: Dataset, rows: seq<int>, vals: seq<map<string, NewValue>>, rems: seq<map<string, seq<string>>>,
                      order: seq<string>, x: nat, y: nat)
    requires Addressable(d, rows, order) && |vals| == |rows| && |rems| == |rows|
    requires Once(rows) && Once(order)
    requires x < |d.grid| && y < |d.columns|
    ensures Undone(d, rows, vals, rems, order).grid[x][y] == d.grid[x][y]
        <==> !(x in rows && d.columns[y].name in order) || Fits(d.columns[y].editor, d.grid[x][y])
  {
    if x in rows && d.columns[y].name in order {
      var k :| 0 <= k < |rows| && rows[k] == x;
      var m :| 0 <= m < |order| && order[m] == d.columns[y].name;
      var cs := Cols(d.columns, order);
      assert cs[m] == y by {
        assert d.columns[cs[m]].name == d.columns[y].name;
      }
      BatchUndoTouched(d, rows, vals, rems, order, k, m);
      CoerceRestores(d.columns[y].editor, d.grid[x][y]);
    } else {
      BatchUndoUntouched(d, rows, vals, rems, order, x, y);
    }
  }

  /** When every touched cell holds a value its editor would store, undo after redo gives back the whole grid. */
  lemma BatchUndoRestores(d: Dataset, rows: seq<int>, vals: seq<map<string, NewValue>>, rems: seq<map<string, seq<string>>>,
                          order: seq<string>)
    requires Addressable(d, rows, order) && |vals| == |rows| && |rems| == |rows|
    requires Once(rows) && Once(order)
    requires forall x, y | 0 <= x < |d.grid| && 0 <= y < |d.columns| && x in rows && d.columns[y].name in order ::
      Fits(d.columns[y].editor, d.grid[x][y])
    ensures Undone(d, rows, vals, rems, order).grid == d.grid
  {
    var g := Undone(d, rows, vals, rems, order).grid;
    forall x | 0 <= x < |d.grid|
      ensures g[x] == d.grid[x]
    {
      forall y | 0 <= y < |d.columns|
        ensures g[x][y] == d.grid[x][y]
      {
        BatchUndoCell(d, rows, vals, rems, order, x, y);
      }
    }
  }

  /**
   * The removal loop of `_batchAddTags` for one cell: for each tag to
   * remove, the first tag equal to it ignoring case is popped, and the
   * lower-cased copy is kept in step.
   */
  method DropRemovals(ts: seq<string>, rs: seq<string>) returns (kept: seq<string>)
    ensures kept == DropAllTags(ts, rs)
  {
    kept := ts;
    var low := TagLists.LowerAll(ts);
    for i := 0 to |rs|
      invariant low == TagLists.LowerAll(kept)
      invariant DropAllTags(kept, rs[i..]) == DropAllTags(ts, rs)
    {
      assert rs[i..][0] == rs[i] && rs[i..][1..] == rs[i + 1..];
      var rv := Text.Lower(rs[i]);
      if rv in low {
        var k := Lists.IndexOf(low, rv).value;
        TagLists.LowerAllRemoveAt(kept, k);
        kept := Lists.RemoveAt(kept, k);
        low := Lists.Remove(low, rv).value;
      }
    }
  }

  // ------------------------------------------------------ the undo commands

  /**
   * The commands the model pushes on its undo stack, each with the state it
   * captures: the value a cell held (`setDataCmd`), the records of the
   * first redo (`batchAddCmd`), the deleted tag's name, field and files
   * (`deleteTagCmd`), and the old name (`renameTagCmd`).
   */
  datatype Command =
    | SetDataCmd(row: int, col: int, newValue: Variant, oldValue: Variant)
    | BatchAddCmd(rows: seq<int>, values: seq<map<string, NewValue>>, removals: seq<map<string, seq<string>>>,
                  order: seq<string>, oldValues: Option<seq<map<string, NewValue>>>)
    | DeleteTagCmd(tagId: int, name: string, fieldId: int, files: Option<set<int>>)
    | RenameTagCmd(tagId: int, newName: string, oldName: string)

  /** The dataset, the command with what it captured, and how the step ended. */
  datatype Effect = Effect(data: Dataset, cmd: Command, result: Result<()>)

  /** The dataset a model keeps: cells in shape, and tag rows under the handed-out ids. */
  ghost predicate Sound(d: Dataset) {
    Shaped(d) && Tables.Valid(d.store)
  }

  /**
   * `_setData(index, value)` in the edit role: a cell of the table gets the
   * value coerced by its column's editor; an index outside the table writes
   * nothing.
   */
  function WriteCell(d: Dataset, row: int, col: int, v: Variant): (r: Result<Dataset>)
    ensures r.Ok? <==> InTable(d, row, col)
    ensures r.Err? ==> r.error == IndexError
    ensures r.Ok? ==> r.value.columns == d.columns && r.value.store == d.store && |r.value.grid| == |d.grid|
    ensures r.Ok? ==> InTable(r.value, row, col) && Fits(d.columns[col].editor, r.value.grid[row][col])
  {
    if InTable(d, row, col) then Ok(SetCell(d, row, col, Coerce(d.columns[col].editor, v))) else Err(IndexError)
  }

  /** Undoing a cell edit gives the dataset back exactly when the cell held a value its editor would store. */
  lemma WriteCellUndo(d: Dataset, row: int, col: int, v: Variant)
    requires InTable(d, row, col)
    ensures WriteCell(WriteCell(d, row, col, v).value, row, col, ToVariant(d.grid[row][col])) == Ok(d)
        <==> Fits(d.columns[col].editor, d.grid[row][col])
  {
    var e := d.columns[col].editor;
    var d1 := WriteCell(d, row, col, v).value;
    var d2 := WriteCell(d1, row, col, ToVariant(d.grid[row][col])).value;
    CoerceRestores(e, d.grid[row][col]);
    if Fits(e, d.grid[row][col]) {
      assert d2.grid[row] == d.grid[row];
      assert d2.grid == d.grid;
    } else {
      assert d2.grid[row][col] != d.grid[row][col];
    }
  }

  /**
   * The fields `_batchAddTags` loops over, in the order the set
   * `set(values[0].keys() + rvalues[0].keys())` yields them: each key of
   * the first row's additions or removals, once. With no rows the loop is
   * never reached (`min(rows)` raises first), so nothing is asked then.
   */
  predicate LoopFields(vals: seq<map<string, NewValue>>, rems: seq<map<string, seq<string>>>, order: seq<string>) {
    Once(order)
    && (|vals| > 0 && |rems| > 0 ==>
          (forall m | 0 <= m < |order| :: order[m] in vals[0] || order[m] in rems[0])
          && (forall f | f in vals[0] :: f in order)
          && (forall f | f in rems[0] :: f in order))
  }

  /**
   * A batch over the fields of its first row that runs through names only
   * columns of the table: a key that names no column stops it, as
   * `fields.index` raises ValueError.
   */
  lemma {:induction false} BatchKeysAreColumns(d: Dataset, rows: seq<int>, vals: seq<map<string, NewValue>>,
                                               rems: seq<map<string, seq<string>>>, order: seq<string>)
    requires |vals| == |rows| && |rems| == |rows| && LoopFields(vals, rems, order)
    requires BatchReady(d, rows, vals, rems, order)
    ensures forall f | f in vals[0] :: f in Tables.PropNames(d.columns)
    ensures forall f | f in rems[0] :: f in Tables.PropNames(d.columns)
  {
    forall f | f in vals[0] || f in rems[0] ensures f in Tables.PropNames(d.columns) {
      assert f in order;
      var m :| 0 <= m < |order| && order[m] == f;
    }
  }

  /**
   * What the batch loop needs to run through without raising: a row, the
   * fields among the columns, the rows among the table's, and removals
   * for every tag-list value. The model checks these before it writes.
   */
  predicate BatchReady(d: Dataset, rows: seq<int>, vals: seq<map<string, NewValue>>, rems: seq<map<string, seq<string>>>,
                       order: seq<string>)
  {
    |rows| > 0 && |vals| == |rows| && |rems| == |rows|
    && (forall k | 0 <= k < |rows| :: 0 <= rows[k] < |d.grid|)
    && (forall m | 0 <= m < |order| :: order[m] in Tables.PropNames(d.columns))
    && forall k, m | 0 <= k < |rows| && 0 <= m < |order| :: NewFor(vals[k], order[m]).Tags? ==> order[m] in rems[k]
  }

  /**
   * `_batchAddTags(rows, values, rvalues)`: no rows is a ValueError
   * (`min(rows)`); a batch the loop could not finish fails with the error
   * it would raise; otherwise the new cells and the records.
   */
  function BatchRun(d: Dataset, rows: seq<int>, vals: seq<map<string, NewValue>>, rems: seq<map<string, seq<string>>>,
                    order: seq<string>): (r: Result<(Dataset, seq<map<string, NewValue>>)>)
    requires Sound(d) && |vals| == |rows| && |rems| == |rows|
    ensures r.Ok? <==> BatchReady(d, rows, vals, rems, order)
    ensures |rows| == 0 ==> r == Err(ValueError)
    ensures r.Err? ==> r.error in {ValueError, IndexError, KeyError}
    ensures r.Ok? ==> Sound(r.value.0) && r.value.0.columns == d.columns && r.value.0.store == d.store
    ensures r.Ok? ==> Addressable(d, rows, order)
    ensures r.Ok? ==> r.value.0.grid == Redone(d, rows, vals, rems, order).grid && r.value.1 == Redone(d, rows, vals, rems, order).olds
  {
    if |rows| == 0 then Err(ValueError)
    else if exists k | 0 <= k < |rows| :: !(0 <= rows[k] < |d.grid|) then Err(IndexError)
    else if exists m | 0 <= m < |order| :: order[m] !in Tables.PropNames(d.columns) then Err(ValueError)
    else if !BatchReady(d, rows, vals, rems, order) then Err(KeyError)
    else
      var b := Redone(d, rows, vals, rems, order);
      Ok((d.(grid := b.grid), b.olds))
  }

  /** `deleteTagCmd`'s `tagById`: the tag's value and field, or `None` for an unknown id. */
  function TagById(s: Tables.Store, tagId: int): (r: Option<(string, int)>)
    ensures r.Some? <==> tagId in s.tags
    ensures r.Some? ==> s.tags[tagId] == Tables.TagRow(r.value.1, r.value.0)
  {
    if tagId in s.tags then Some((s.tags[tagId].value, s.tags[tagId].fieldId)) else None
  }

  /** The files mapped to a tag. */
  function FilesOf(tagMap: set<(int, int)>, tagId: int): (r: set<int>)
    ensures forall f :: f in r <==> (f, tagId) in tagMap
  {
    set p | p in tagMap && p.1 == tagId :: p.0
  }

  /**
   * The store's `deleteTag(tagId)`, which the database class does not
   * define: the tag row and its mappings go, and the files that were
   * mapped to it come back.
   */
  function DeleteTagRows(s: Tables.Store, tagId: int): (r: (Tables.Store, set<int>))
    ensures r.1 == FilesOf(s.tagMap, tagId)
    ensures r.0.tags == s.tags - {tagId} && r.0.fields == s.fields && r.0.files == s.files
    ensures r.0.fieldSeq == s.fieldSeq && r.0.tagSeq == s.tagSeq
    ensures forall p :: p in r.0.tagMap <==> p in s.tagMap && p.1 != tagId
  {
    (s.(tags := s.tags - {tagId}, tagMap := set p | p in s.tagMap && p.1 != tagId), FilesOf(s.tagMap, tagId))
  }

  /** The store's `mapTags(tagId, files)`, also not defined there: each file is mapped to the tag, insert-or-ignore. */
  function MapTags(s: Tables.Store, tagId: int, files: set<int>): (r: Tables.Store)
    ensures forall p :: p in r.tagMap <==> p in s.tagMap || (p.1 == tagId && p.0 in files)
    ensures r.tags == s.tags && r.fields == s.fields && r.files == s.files
    ensures r.fieldSeq == s.fieldSeq && r.tagSeq == s.tagSeq
  {
    var added := set f | f in files :: (f, tagId);
    assert forall f | f in files :: (f, tagId) in added;
    s.(tagMap := s.tagMap + added)
  }

  /** The corrected rename of one cell's text, as the function the cell loop applies. */
  function Renamer(oldName: string, newName: string): string -> string {
    s => Database.RenameTagText(s, oldName, newName)
  }

  /**
   * Renaming from row `i` on, as `renameTag`'s loop over the photos does:
   * each text cell of the column gets the tag renamed; the first cell that
   * is not text stops the loop with AttributeError (`.replace`
   * on a value that is not a string), the rows before it renamed.
   */
  function RenameFrom(g: seq<seq<Value>>, col: nat, rename: string -> string, i: nat): (r: (seq<seq<Value>>, Result<()>))
    requires i <= |g| && forall x | 0 <= x < |g| :: col < |g[x]|
    ensures SameShape(r.0, g)
    ensures r.1.Ok? <==> forall x | i <= x < |g| :: g[x][col].Str?
    ensures r.1.Err? ==> r.1.error == AttributeError
    decreases |g| - i
  {
    if i == |g| then (g, Ok(()))
    else if !g[i][col].Str? then (g, Err(AttributeError))
    else
      var g1 := WithRow(g, i, RenamedRow(g[i], col, rename));
      RenameFrom(g1, col, rename, i + 1)
  }

  /** A row whose text cell at `col` has the tag renamed. */
  function RenamedRow(row: seq<Value>, col: nat, rename: string -> string): (r: seq<Value>)
    requires col < |row| && row[col].Str?
    ensures |r| == |row| && r[col] == Str(rename(row[col].s))
    ensures forall y | 0 <= y < |row| && y != col :: r[y] == row[y]
  {
    row[col := Str(rename(row[col].s))]
  }

  /** The grid with row `i` replaced by one of the same length. */
  function WithRow(g: seq<seq<Value>>, i: nat, row: seq<Value>): (r: seq<seq<Value>>)
    requires i < |g| && |row| == |g[i]|
    ensures SameShape(r, g) && r[i] == row
    ensures forall x | 0 <= x < |g| && x != i :: r[x] == g[x]
  {
    g[i := row]
  }

  /**
   * When every cell of the column from row `i` on holds text, the loop
   * runs to the end: those cells are renamed and every other cell is as
   * it was.
   */
  lemma {:induction false} RenameFromCell(g: seq<seq<Value>>, col: nat, rename: string -> string, i: nat, x: nat, y: nat)
    requires i <= |g| && forall x | 0 <= x < |g| :: col < |g[x]|
    requires forall x | i <= x < |g| :: g[x][col].Str?
    requires x < |g| && y < |g[x]|
    ensures RenameFrom(g, col, rename, i).0[x][y]
        == if i <= x && y == col then Str(rename(g[x][col].s)) else g[x][y]
    decreases |g| - i
  {
    if i <= x && y == col {
      RenameFromRenames(g, col, rename, i, x);
    } else {
      RenameFromKeeps(g, col, rename, i, x, y);
    }
  }

  /** A cell before row `i` or outside the column is left alone by the loop. */
  lemma {:induction false} RenameFromKeeps(g: seq<seq<Value>>, col: nat, rename: string -> string, i: nat, x: nat, y: nat)
    requires i <= |g| && forall x | 0 <= x < |g| :: col < |g[x]|
    requires forall x | i <= x < |g| :: g[x][col].Str?
    requires x < |g| && y < |g[x]| && (x < i || y != col)
    ensures RenameFrom(g, col, rename, i).0[x][y] == g[x][y]
    decreases |g| - i
  {
    if i < |g| {
      var g1 := WithRow(g, i, RenamedRow(g[i], col, rename));
      RenameFromStep(g, col, rename, i);
      RenamedRowCell(g, col, rename, i, x, y);
      RenameFromKeeps(g1, col, rename, i + 1, x, y);
    }
  }

  /** A cell of the column from row `i` on is renamed by the loop. */
  lemma {:induction false} RenameFromRenames(g: seq<seq<Value>>, col: nat, rename: string -> string, i: nat, x: nat)
    requires i <= |g| && forall x | 0 <= x < |g| :: col < |g[x]|
    requires forall x | i <= x < |g| :: g[x][col].Str?
    requires i <= x < |g|
    ensures RenameFrom(g, col, rename, i).0[x][col] == Str(rename(g[x][col].s))
    decreases |g| - i
  {
    var g1 := WithRow(g, i, RenamedRow(g[i], col, rename));
    RenameFromStep(g, col, rename, i);
    RenamedRowCell(g, col, rename, i, x, col);
    if x == i {
      RenameFromKeeps(g1, col, rename, i + 1, x, col);
    } else {
      RenameFromRenames(g1, col, rename, i + 1, x);
    }
  }

  /** One step of the renaming loop over a text cell. */
  lemma RenameFromStep(g: seq<seq<Value>>, col: nat, rename: string -> string, i: nat)
    requires i < |g| && forall x | 0 <= x < |g| :: col < |g[x]|
    requires g[i][col].Str?
    ensures RenameFrom(g, col, rename, i)
        == RenameFrom(WithRow(g, i, RenamedRow(g[i], col, rename)), col, rename, i + 1)
  {
  }

  /** The grid after one step: only the cell at `(i, col)` differs. */
  lemma RenamedRowCell(g: seq<seq<Value>>, col: nat, rename: string -> string, i: nat, x: nat, y: nat)
    requires i < |g| && forall x | 0 <= x < |g| :: col < |g[x]|
    requires g[i][col].Str? && x < |g| && y < |g[x]|
    ensures var g1 := WithRow(g, i, RenamedRow(g[i], col, rename));
      |g1| == |g| && (forall z | 0 <= z < |g1| :: col < |g1[z]| && (z != i ==> g1[z] == g[z]))
      && g1[x][y] == if x == i && y == col then Str(rename(g[x][col].s)) else g[x][y]
  {
  }

  /** Renaming a tag and renaming it back gives every tag back exactly when no tag is merely a case variant of either name. */
  predicate RenameReversible(ts: seq<string>, oldName: string, newName: string) {
    forall k | 0 <= k < |ts| ::
      if Text.Lower(ts[k]) == Text.Lower(oldName) then ts[k] == oldName else Text.Lower(ts[k]) != Text.Lower(newName)
  }

  lemma RenameInRoundTrip(ts: seq<string>, oldName: string, newName: string)
    ensures Database.RenameIn(Database.RenameIn(ts, oldName, newName), newName, oldName) == ts
        <==> RenameReversible(ts, oldName, newName)
  {
    var back := Database.RenameIn(Database.RenameIn(ts, oldName, newName), newName, oldName);
    if back == ts {
      forall k | 0 <= k < |ts|
        ensures if Text.Lower(ts[k]) == Text.Lower(oldName) then ts[k] == oldName else Text.Lower(ts[k]) != Text.Lower(newName)
      {
        assert back[k] == ts[k];
      }
    }
  }

  /** Renaming to a clean tag keeps every tag clean. */
  lemma RenameInClean(ts: seq<string>, oldName: string, newName: string)
    requires TagLists.AllClean(ts) && TagLists.CleanTag(newName)
    ensures TagLists.AllClean(Database.RenameIn(ts, oldName, newName))
  {
  }

  /**
   * On a cell's text: renaming back after a rename leaves the cell's tags
   * rejoined with `'; '` exactly when the rename is reversible on them.
   */
  lemma RenameTextRoundTrip(s: string, oldName: string, newName: string)
    requires TagLists.CleanTag(oldName) && TagLists.CleanTag(newName)
    ensures Database.RenameTagText(Database.RenameTagText(s, oldName, newName), newName, oldName)
        == TagLists.JoinTags(TagLists.SplitTags(s))
        <==> RenameReversible(TagLists.SplitTags(s), oldName, newName)
  {
    var ts := TagLists.SplitTags(s);
    var back := Database.RenameIn(Database.RenameIn(ts, oldName, newName), newName, oldName);
    Database.RenameTagTextTags(s, oldName, newName);
    RenameInRoundTrip(ts, oldName, newName);
    RenameInClean(ts, oldName, newName);
    RenameInClean(Database.RenameIn(ts, oldName, newName), newName, oldName);
    if TagLists.JoinTags(back) == TagLists.JoinTags(ts) {
      TagLists.SplitJoin(back);
      TagLists.SplitJoin(ts);
    }
  }

  /**
   * The dataset's `renameTag(tagId, newName)`: the tag row is renamed when
   * the lookup succeeds; then each photo's cell of the tag's field is
   * renamed tag by tag. A field the table has no column for fails on the
   * first photo (ValueError).
   */
  function RenameRun(d: Dataset, same: (string, string) -> bool, tagId: int, newName: string): (r: (Dataset, Result<()>))
    requires Sound(d)
    ensures Sound(r.0) && r.0.columns == d.columns && |r.0.grid| == |d.grid|
    ensures Database.RenameLookup(d.store, same, tagId, newName).Err? ==>
      r == (d, Err(Database.RenameLookup(d.store, same, tagId, newName).error))
    ensures Database.RenameLookup(d.store, same, tagId, newName).Ok? ==>
      r.0.store == d.store.(tags := d.store.tags[tagId := Tables.TagRow(d.store.tags[tagId].fieldId, newName)])
  {
    match Database.RenameLookup(d.store, same, tagId, newName)
    case Err(e) => (d, Err(e))
    case Ok((oldName, field)) =>
      var s := d.store.(tags := d.store.tags[tagId := Tables.TagRow(d.store.tags[tagId].fieldId, newName)]);
      match Lists.IndexOf(Tables.PropNames(d.columns), field)
      case None => (d.(store := s), if |d.grid| == 0 then Ok(()) else Err(ValueError))
      case Some(col) =>
        var (g, res) := RenameFrom(d.grid, col, Renamer(oldName, newName), 0);
        (d.(store := s, grid := g), res)
  }

  /** `command.redo()`, with what the command captures on its first redo. */
  function RedoStep(d: Dataset, same: (string, string) -> bool, c: Command): (r: Effect)
    requires Sound(d)
    ensures Sound(r.data) && r.data.columns == d.columns
    ensures r.cmd.SetDataCmd? <==> c.SetDataCmd?
    ensures r.cmd.BatchAddCmd? <==> c.BatchAddCmd?
    ensures r.cmd.DeleteTagCmd? <==> c.DeleteTagCmd?
    ensures r.cmd.RenameTagCmd? <==> c.RenameTagCmd?
    ensures r.result.Err? ==> r.data.store == d.store || c.RenameTagCmd?
  {
    match c
    case SetDataCmd(row, col, nv, _) =>
      var w := WriteCell(d, row, col, nv);
      Effect(if w.Ok? then w.value else d, c, if w.Ok? then Ok(()) else Err(w.error))
    case BatchAddCmd(rows, vals, rems, order, olds) =>
      if |vals| < |rows| || |rems| < |rows| then Effect(d, c, Err(IndexError))
      else
        var run := BatchRun(d, rows, vals[..|rows|], rems[..|rows|], order);
        if run.Err? then Effect(d, c, Err(run.error))
        else Effect(run.value.0, if olds.None? then c.(oldValues := Some(run.value.1)) else c, Ok(()))
    case DeleteTagCmd(tagId, _, _, files) =>
      var (s, gone) := DeleteTagRows(d.store, tagId);
      Effect(d.(store := s), if files.None? then c.(files := Some(gone)) else c, Ok(()))
    case RenameTagCmd(tagId, newName, _) =>
      var (d1, res) := RenameRun(d, same, tagId, newName);
      Effect(d1, c, res)
  }

  /**
   * `command.undo()`: the cell gets its old value back; the batch writes
   * back the records of its first redo as QVariants, with no removals; the
   * deleted tag is inserted anew (its new id replacing the command's) and
   * mapped to the files it lost; the tag gets its old name back.
   */
  function UndoStep(d: Dataset, same: (string, string) -> bool, c: Command): (r: Effect)
    requires Sound(d)
    ensures Sound(r.data) && r.data.columns == d.columns
    ensures c.DeleteTagCmd? ==>
      r.cmd.DeleteTagCmd? && r.cmd.name == c.name && r.cmd.fieldId == c.fieldId && r.cmd.files == c.files
    ensures !c.DeleteTagCmd? ==> r.cmd == c
    ensures c.SetDataCmd? ==> r == RedoStep(d, same, c.(newValue := c.oldValue)).(cmd := c)
    ensures c.RenameTagCmd? ==> r == RedoStep(d, same, c.(newName := c.oldName)).(cmd := c)
    ensures c.BatchAddCmd? && c.oldValues.None? ==>
      r.data == d && r.result == Err(if |c.rows| == 0 then ValueError else TypeError)
  {
    match c
    case SetDataCmd(row, col, _, ov) =>
      var w := WriteCell(d, row, col, ov);
      Effect(if w.Ok? then w.value else d, c, if w.Ok? then Ok(()) else Err(w.error))
    case BatchAddCmd(rows, _, _, order, olds) =>
      if olds.None? then Effect(d, c, Err(if |rows| == 0 then ValueError else TypeError))
      else if |olds.value| < |rows| then Effect(d, c, Err(IndexError))
      else
        var run := BatchRun(d, rows, olds.value[..|rows|], Empties(|rows|), order);
        if run.Err? then Effect(d, c, Err(run.error)) else Effect(run.value.0, c, Ok(()))
    case DeleteTagCmd(_, name, fieldId, files) =>
      var ins := Tables.InsertAll(d.store.tags, d.store.tagSeq, same, [(fieldId, name)]);
      if |ins.ids| == 0 then Effect(d, c, Err(IndexError))
      else
        var s := d.store.(tags := ins.tags, tagSeq := ins.tagSeq);
        var c1 := DeleteTagCmd(ins.ids[0], name, fieldId, files);
        if files.None? then Effect(d.(store := s), c1, Err(TypeError))
        else Effect(d.(store := MapTags(s, ins.ids[0], files.value)), c1, Ok(()))
    case RenameTagCmd(tagId, _, oldName) =>
      var (d1, res) := RenameRun(d, same, tagId, oldName);
      Effect(d1, c, res)
  }

  // ------------------------------------------------- redo, then undo

  /** `setDataCmd`: undo after redo gives the table's cells back exactly when the old value is one the editor stores. */
  lemma SetDataRedoUndo(d: Dataset, same: (string, string) -> bool, row: int, col: int, v: Variant)
    requires Sound(d) && InTable(d, row, col)
    ensures var c := SetDataCmd(row, col, v, ToVariant(d.grid[row][col]));
      var e1 := RedoStep(d, same, c);
      var e2 := UndoStep(e1.data, same, e1.cmd);
      e1.result.Ok? && e2.result.Ok? && e2.cmd == c
      && (e2.data.grid == d.grid <==> Fits(d.columns[col].editor, d.grid[row][col]))
  {
    WriteCellUndo(d, row, col, v);
  }

  /**
   * Grid `g` after a batch's undo: every cell outside the listed rows and
   * fields is as in `d`, and a listed cell is as in `d` exactly when its
   * value there is one its column's editor stores.
   */
  ghost predicate BatchRestored(d: Dataset, g: seq<seq<Value>>, rows: seq<int>, order: seq<string>)
    requires Sound(d)
  {
    |g| == |d.grid| && (forall x | 0 <= x < |g| :: |g[x]| == |d.columns|)
    && forall x, y | 0 <= x < |d.grid| && 0 <= y < |d.columns| ::
      g[x][y] == d.grid[x][y] <==> !(x in rows && d.columns[y].name in order) || Fits(d.columns[y].editor, d.grid[x][y])
  }

  /**
   * `batchAddCmd`: a batch that runs through, undone after its first redo,
   * leaves every cell outside the listed rows and fields as it was, and
   * each listed cell as it was exactly when its old value is one its editor
   * stores.
   */
  lemma BatchRedoUndo(d: Dataset, same: (string, string) -> bool, rows: seq<int>, vals: seq<map<string, NewValue>>,
                      rems: seq<map<string, seq<string>>>, order: seq<string>)
    requires Sound(d) && BatchReady(d, rows, vals, rems, order) && Once(rows) && Once(order)
    ensures RedoStep(d, same, BatchAddCmd(rows, vals, rems, order, None)).result == Ok(())
    ensures var e1 := RedoStep(d, same, BatchAddCmd(rows, vals, rems, order, None));
      var e2 := UndoStep(e1.data, same, e1.cmd);
      e2.result == Ok(()) && BatchRestored(d, e2.data.grid, rows, order)
  {
    var n := |rows|;
    var c := BatchAddCmd(rows, vals, rems, order, None);
    assert vals[..n] == vals && rems[..n] == rems;
    var b1 := Redone(d, rows, vals, rems, order);
    var e1 := RedoStep(d, same, c);
    assert e1.data == d.(grid := b1.grid) && e1.cmd == c.(oldValues := Some(b1.olds));
    var d1 := e1.data;
    assert b1.olds[..n] == b1.olds;
    forall k, m | 0 <= k < n && 0 <= m < |order|
      ensures NewFor(b1.olds[k], order[m]).Raw?
    {
      BatchRedoRecord(d, rows, vals, rems, order, k, m);
    }
    assert BatchReady(d1, rows, b1.olds, Empties(n), order);
    var run := BatchRun(d1, rows, b1.olds, Empties(n), order);
    assert run.Ok?;
    var e2 := UndoStep(d1, same, e1.cmd);
    assert e2 == Effect(run.value.0, e1.cmd, Ok(()));
    var g2 := Undone(d, rows, vals, rems, order).grid;
    assert Redone(d1, rows, b1.olds, Empties(n), order).grid == g2;
    assert e2.data.grid == g2;
    forall x, y | 0 <= x < |d.grid| && 0 <= y < |d.columns|
      ensures g2[x][y] == d.grid[x][y]
        <==> !(x in rows && d.columns[y].name in order) || Fits(d.columns[y].editor, d.grid[x][y])
    {
      BatchUndoCell(d, rows, vals, rems, order, x, y);
    }
    assert BatchRestored(d, g2, rows, order);
  }

  /**
   * `deleteTagCmd`: when no other tag of the field counts as the same
   * value, undo after the first redo inserts the tag anew under the next
   * TagId with its value and field, maps it to exactly the files that lost
   * it, and leaves the other tags and mappings and every cell alone.
   */
  lemma DeleteTagRedoUndo(d: Dataset, same: (string, string) -> bool, tagId: int)
    requires Sound(d) && Tables.Linked(d.store) && tagId in d.store.tags
    requires !Tables.RenameRefused(d.store.tags, same, tagId, d.store.tags[tagId].value)
    ensures var row := d.store.tags[tagId];
      var c := DeleteTagCmd(tagId, row.value, row.fieldId, None);
      var e1 := RedoStep(d, same, c);
      var e2 := UndoStep(e1.data, same, e1.cmd);
      e1.result.Ok? && e2.result.Ok? && e2.cmd.tagId == d.store.tagSeq + 1 && e2.cmd.tagId !in d.store.tags
      && e2.data.store.tags == (d.store.tags - {tagId})[e2.cmd.tagId := row]
      && FilesOf(e2.data.store.tagMap, e2.cmd.tagId) == FilesOf(d.store.tagMap, tagId)
      && (forall p: (int, int) | p.1 != tagId && p.1 != e2.cmd.tagId :: p in e2.data.store.tagMap <==> p in d.store.tagMap)
      && e2.data.grid == d.grid
  {
    var row := d.store.tags[tagId];
    var c := DeleteTagCmd(tagId, row.value, row.fieldId, None);
    var (s1, gone) := DeleteTagRows(d.store, tagId);
    var e1 := RedoStep(d, same, c);
    assert e1.data.store == s1 && e1.cmd == c.(files := Some(gone));
    var ps := [(row.fieldId, row.value)];
    assert ps[..0] == [];
    assert !Tables.Refused(s1.tags, same, row.fieldId, row.value);
    assert Tables.InsertAll(s1.tags, s1.tagSeq, same, ps[..0]) == Tables.Inserted(s1.tags, s1.tagSeq, []);
    var ins := Tables.InsertAll(s1.tags, s1.tagSeq, same, ps);
    var id := d.store.tagSeq + 1;
    assert s1.tagSeq == d.store.tagSeq;
    assert row == Tables.TagRow(row.fieldId, row.value);
    assert ins == Tables.Inserted(s1.tags[id := row], id, [id]);
    var e2 := UndoStep(e1.data, same, e1.cmd);
    assert e2.cmd.tagId == id;
    assert id !in d.store.tags;
    assert e2.data.store == MapTags(s1.(tags := ins.tags, tagSeq := ins.tagSeq), id, gone);
    forall p | p in d.store.tagMap
      ensures p.1 != id
    {
    }
  }

  /** A cell's text comes back from a rename and its reverse: it is in joined form and the rename is reversible on its tags. */
  predicate RenameRestores(s: string, oldName: string, newName: string) {
    s == TagLists.JoinTags(TagLists.SplitTags(s)) && RenameReversible(TagLists.SplitTags(s), oldName, newName)
  }

  lemma RenameTextBack(s: string, oldName: string, newName: string)
    requires TagLists.CleanTag(oldName) && TagLists.CleanTag(newName)
    ensures Database.RenameTagText(Database.RenameTagText(s, oldName, newName), newName, oldName) == s
        <==> RenameRestores(s, oldName, newName)
  {
    var ts := TagLists.SplitTags(s);
    var back := Database.RenameIn(Database.RenameIn(ts, oldName, newName), newName, oldName);
    RenameTextRoundTrip(s, oldName, newName);
    Database.RenameTagTextTags(s, oldName, newName);
    if TagLists.JoinTags(back) == s {
      RenameInClean(ts, oldName, newName);
      RenameInClean(Database.RenameIn(ts, oldName, newName), newName, oldName);
      TagLists.SplitJoin(back);
      RenameInRoundTrip(ts, oldName, newName);
    }
  }

  /**
   * On the tables: when the old name is unique in its field, renaming the
   * tag back is accepted and restores the tables.
   */
  lemma RenameStoreBack(s: Tables.Store, same: (string, string) -> bool, tagId: int, newName: string)
    requires Database.RenameLookup(s, same, tagId, newName).Ok?
    requires !Tables.RenameRefused(s.tags, same, tagId, s.tags[tagId].value)
    ensures var s1 := s.(tags := s.tags[tagId := Tables.TagRow(s.tags[tagId].fieldId, newName)]);
      Database.RenameLookup(s1, same, tagId, s.tags[tagId].value)
        == Ok((newName, Database.RenameLookup(s, same, tagId, newName).value.1))
      && s1.(tags := s1.tags[tagId := Tables.TagRow(s1.tags[tagId].fieldId, s.tags[tagId].value)]) == s
  {
    var s1 := s.(tags := s.tags[tagId := Tables.TagRow(s.tags[tagId].fieldId, newName)]);
    assert !Tables.RenameRefused(s1.tags, same, tagId, s.tags[tagId].value);
    assert s1.tags[tagId := Tables.TagRow(s1.tags[tagId].fieldId, s.tags[tagId].value)] == s.tags;
  }

  /**
   * On the cells: when the column holds text throughout, renaming back
   * runs through, and gives the grid back exactly when every cell of the
   * column restores.
   */
  lemma RenameFromBack(g: seq<seq<Value>>, col: nat, rename: string -> string, back: string -> string)
    requires forall x | 0 <= x < |g| :: col < |g[x]| && g[x][col].Str?
    ensures RenameFrom(RenameFrom(g, col, rename, 0).0, col, back, 0).1.Ok?
    ensures (forall x | 0 <= x < |g| :: TextBack(g[x][col].s, rename, back))
        ==> RenameFrom(RenameFrom(g, col, rename, 0).0, col, back, 0).0 == g
    ensures RenameFrom(RenameFrom(g, col, rename, 0).0, col, back, 0).0 == g
        ==> forall x | 0 <= x < |g| :: TextBack(g[x][col].s, rename, back)
  {
    var g1: seq<seq<Value>> := RenameFrom(g, col, rename, 0).0;
    forall x | 0 <= x < |g|
      ensures g1[x][col].Str?
    {
      RenameFromCell(g, col, rename, 0, x, col);
    }
    assert |g1| == |g|;
    var run := RenameFrom(g1, col, back, 0);
    assert run.1.Ok?;
    var g2 := run.0;
    if g2 == g {
      forall x | 0 <= x < |g|
        ensures TextBack(g[x][col].s, rename, back)
      {
        RenameBackCell(g, col, rename, back, x, col);
      }
      assert forall x | 0 <= x < |g| :: TextBack(g[x][col].s, rename, back);
    } else {
      RenameBackGrid(g, col, rename, back);
      assert !forall x | 0 <= x < |g| :: TextBack(g[x][col].s, rename, back);
    }
  }

  /** The text of a cell comes back when the tag is renamed and renamed back. */
  predicate TextBack(s: string, rename: string -> string, back: string -> string) {
    back(rename(s)) == s
  }

  /** A cell after renaming and renaming back. */
  lemma RenameBackCell(g: seq<seq<Value>>, col: nat, rename: string -> string, back: string -> string, x: nat, y: nat)
    requires forall x | 0 <= x < |g| :: col < |g[x]| && g[x][col].Str?
    requires x < |g| && y < |g[x]|
    ensures var g1 := RenameFrom(g, col, rename, 0).0;
      (forall x | 0 <= x < |g| :: col < |g1[x]|) && RenameFrom(g1, col, back, 0).0[x][y]
        == if y == col then Str(back(rename(g[x][col].s)))
           else g[x][y]
  {
    var g1: seq<seq<Value>> := RenameFrom(g, col, rename, 0).0;
    forall x | 0 <= x < |g|
      ensures g1[x][col].Str?
    {
      RenameFromCell(g, col, rename, 0, x, col);
    }
    RenameFromCell(g, col, rename, 0, x, y);
    RenameFromCell(g1, col, back, 0, x, y);
  }

  /** When every cell of the column comes back, renaming and renaming back gives the grid back. */
  lemma RenameBackGrid(g: seq<seq<Value>>, col: nat, rename: string -> string, back: string -> string)
    requires forall x | 0 <= x < |g| :: col < |g[x]| && g[x][col].Str?
    ensures (forall x | 0 <= x < |g| :: TextBack(g[x][col].s, rename, back)) ==>
      var g1 := RenameFrom(g, col, rename, 0).0;
      (forall x | 0 <= x < |g| :: col < |g1[x]|) && RenameFrom(g1, col, back, 0).0 == g
  {
    var g1 := RenameFrom(g, col, rename, 0).0;
    if forall x | 0 <= x < |g| :: TextBack(g[x][col].s, rename, back) {
      var g2 := RenameFrom(g1, col, back, 0).0;
      assert |g2| == |g1| == |g|;
      forall x | 0 <= x < |g|
        ensures g2[x] == g[x]
      {
        RenameBackRow(g, col, rename, back, x);
      }
    }
  }

  /** A row whose cell of the column comes back comes back whole. */
  lemma RenameBackRow(g: seq<seq<Value>>, col: nat, rename: string -> string, back: string -> string, x: nat)
    requires forall x | 0 <= x < |g| :: col < |g[x]| && g[x][col].Str?
    requires x < |g| && TextBack(g[x][col].s, rename, back)
    ensures var g1 := RenameFrom(g, col, rename, 0).0;
      (forall x | 0 <= x < |g| :: col < |g1[x]|) && RenameFrom(g1, col, back, 0).0[x] == g[x]
  {
    var g1 := RenameFrom(g, col, rename, 0).0;
    var g2 := RenameFrom(g1, col, back, 0).0;
    forall y | 0 <= y < |g[x]|
      ensures g2[x][y] == g[x][y]
    {
      RenameBackCell(g, col, rename, back, x, y);
    }
  }

  /** The dataset's `renameTag` of a tag whose field is column `col`. */
  lemma RenameRunAt(d: Dataset, same: (string, string) -> bool, tagId: int, newName: string, col: nat)
    requires Sound(d) && col < |d.columns|
    requires Database.RenameLookup(d.store, same, tagId, newName).Ok?
    requires Database.RenameLookup(d.store, same, tagId, newName).value.1 == d.columns[col].name
    ensures var n := Database.RenameLookup(d.store, same, tagId, newName).value;
      var f := RenameFrom(d.grid, col, Renamer(n.0, newName), 0);
      RenameRun(d, same, tagId, newName)
        == (d.(store := d.store.(tags := d.store.tags[tagId := Tables.TagRow(d.store.tags[tagId].fieldId, newName)]), grid := f.0), f.1)
  {
    var names := Tables.PropNames(d.columns);
    assert names[col] == d.columns[col].name;
    assert Lists.IndexOf(names, d.columns[col].name) == Some(col);
  }

  /**
   * The dataset's `renameTag` and its reverse: with the tag's old name
   * clean and unique in its field, and the field's cells all text, both
   * run through, the tag row gets its old name back, and the cells come
   * back exactly when each restores.
   */
  lemma RenameRunBack(d: Dataset, same: (string, string) -> bool, tagId: int, newName: string, col: nat)
    requires Sound(d) && col < |d.columns|
    requires Database.RenameLookup(d.store, same, tagId, newName).Ok?
    requires Database.RenameLookup(d.store, same, tagId, newName).value.1 == d.columns[col].name
    requires !Tables.RenameRefused(d.store.tags, same, tagId, d.store.tags[tagId].value)
    requires TagLists.CleanTag(d.store.tags[tagId].value) && TagLists.CleanTag(newName)
    requires forall x | 0 <= x < |d.grid| :: d.grid[x][col].Str?
    ensures var o := d.store.tags[tagId].value;
      var r1 := RenameRun(d, same, tagId, newName);
      var r2 := RenameRun(r1.0, same, tagId, o);
      r1.1.Ok? && r2.1.Ok? && r2.0.store == d.store
      && (r2.0 == d <==> forall x | 0 <= x < |d.grid| :: RenameRestores(d.grid[x][col].s, o, newName))
  {
    var o := d.store.tags[tagId].value;
    var g := d.grid;
    RenameFromBack(g, col, Renamer(o, newName), Renamer(newName, o));
    RenameStoreBack(d.store, same, tagId, newName);
    RenameRunAt(d, same, tagId, newName, col);
    var r1 := RenameRun(d, same, tagId, newName);
    RenameRunAt(r1.0, same, tagId, o, col);
    forall x | 0 <= x < |g|
      ensures TextBack(g[x][col].s, Renamer(o, newName), Renamer(newName, o)) <==> RenameRestores(g[x][col].s, o, newName)
    {
      RenameTextBack(g[x][col].s, o, newName);
    }
  }

  /** `renameTagCmd`: undo after redo is the dataset's rename and its reverse. */
  lemma RenameRedoUndo(d: Dataset, same: (string, string) -> bool, tagId: int, newName: string, col: nat)
    requires Sound(d) && col < |d.columns|
    requires Database.RenameLookup(d.store, same, tagId, newName).Ok?
    requires Database.RenameLookup(d.store, same, tagId, newName).value.1 == d.columns[col].name
    requires !Tables.RenameRefused(d.store.tags, same, tagId, d.store.tags[tagId].value)
    requires TagLists.CleanTag(d.store.tags[tagId].value) && TagLists.CleanTag(newName)
    requires forall x | 0 <= x < |d.grid| :: d.grid[x][col].Str?
    ensures var c := RenameTagCmd(tagId, newName, d.store.tags[tagId].value);
      var e1 := RedoStep(d, same, c);
      var e2 := UndoStep(e1.data, same, e1.cmd);
      e1.result.Ok? && e2.result.Ok? && e2.data.store == d.store && e2.cmd == c
      && (e2.data == d <==> forall x | 0 <= x < |d.grid| :: RenameRestores(d.grid[x][col].s, d.store.tags[tagId].value, newName))
  {
    var o := d.store.tags[tagId].value;
    var c := RenameTagCmd(tagId, newName, o);
    RenameRunBack(d, same, tagId, newName, col);
    var r1 := RenameRun(d, same, tagId, newName);
    assert RedoStep(d, same, c) == Effect(r1.0, c, r1.1);
    assert UndoStep(r1.0, same, c) == Effect(RenameRun(r1.0, same, tagId, o).0, c, RenameRun(r1.0, same, tagId, o).1);
  }

  // ----------------------------------------------------- dropping a column

  /**
   * `dataset.dropField(position, force)` once the table model lets it
   * through: a tag field loses its mappings, tags and Fields rows and
   * leaves every row; a field that is not a tag field is left in place.
   */
  function DropColumn(d: Dataset, k: nat): (r: Dataset)
    requires Sound(d) && k < |d.columns|
    ensures Sound(r)
    ensures Tables.TagFieldId(d.store.fields, d.columns[k].name).None? ==> r == d
    ensures Tables.TagFieldId(d.store.fields, d.columns[k].name).Some? ==>
      r.columns == Lists.RemoveAt(d.columns, k) && |r.grid| == |d.grid|
      && (forall x | 0 <= x < |d.grid| :: r.grid[x] == Lists.RemoveAt(d.grid[x], k))
      && r.store == Tables.DropFieldRows(d.store, Tables.TagFieldId(d.store.fields, d.columns[k].name).value, d.columns[k].name)
  {
    var name := d.columns[k].name;
    match Tables.TagFieldId(d.store.fields, name)
    case None => d
    case Some(catId) =>
      var g := seq(|d.grid|, x requires 0 <= x < |d.grid| => Lists.RemoveAt(d.grid[x], k));
      var s := Tables.DropFieldRows(d.store, catId, name);
      Tables.DropNamedBelow(d.store.fields, d.store.fieldSeq, [name]);
      var r := Dataset(Lists.RemoveAt(d.columns, k), g, s);
      assert forall i, j | 0 <= i < j < |r.columns| :: r.columns[i].name != r.columns[j].name by {
        forall i, j | 0 <= i < j < |r.columns|
          ensures r.columns[i].name != r.columns[j].name
        {
          if j < k {
            assert r.columns[i] == d.columns[i] && r.columns[j] == d.columns[j];
          } else if i < k {
            assert r.columns[i] == d.columns[i] && r.columns[j] == d.columns[j + 1];
          } else {
            assert r.columns[i] == d.columns[i + 1] && r.columns[j] == d.columns[j + 1];
          }
        }
      }
      r
  }

  /**
   * After a tag field is dropped its name is no longer a column, no tag of
   * it remains, and every other column keeps its place relative to the rest.
   */
  lemma DropColumnGone(d: Dataset, k: nat)
    requires Sound(d) && k < |d.columns|
    requires Tables.TagFieldId(d.store.fields, d.columns[k].name).Some?
    ensures var r := DropColumn(d, k);
      d.columns[k].name !in Tables.PropNames(r.columns)
      && (forall id | id in r.store.tags :: r.store.tags[id].fieldId != Tables.TagFieldId(d.store.fields, d.columns[k].name).value)
      && (forall j | 0 <= j < |d.columns| && j != k :: d.columns[j] in r.columns)
  {
    var r := DropColumn(d, k);
    forall j | 0 <= j < |r.columns|
      ensures Tables.PropNames(r.columns)[j] != d.columns[k].name
    {
      if j < k {
        assert r.columns[j] == d.columns[j];
      } else {
        assert r.columns[j] == d.columns[j + 1];
      }
    }
    forall j | 0 <= j < |d.columns| && j != k
      ensures d.columns[j] in r.columns
    {
      if j < k {
        assert r.columns[j] == d.columns[j];
      } else {
        assert r.columns[j - 1] == d.columns[j];
      }
    }
  }

  // ----------------------------------------------------- the table model

  /**
   * `AlbumModel`: the dataset it edits and its undo stack, a list of
   * commands with the cursor `QUndoStack` keeps (the commands below the
   * cursor are done, those from it on are undone). `same` is the
   * uniqueness rule of the Tags table.
   */
  class Model {
    var data: Dataset
    var stack: seq<Command>
    var cursor: nat
    const same: (string, string) -> bool

    ghost predicate Valid()
      reads this
    {
      Sound(data) && cursor <= |stack|
    }

    constructor (d: Dataset, same: (string, string) -> bool)
      requires Sound(d)
      ensures Valid() && data == d && stack == [] && cursor == 0 && this.same == same
    {
      data := d;
      stack := [];
      cursor := 0;
      this.same := same;
    }

    /**
     * `_batchAddTags(rows, values, rvalues)` on a batch that runs through:
     * the loop over the fields, and within it over the rows, recording
     * each cell before rewriting it.
     */
    method RunBatch(rows: seq<int>, vals: seq<map<string, NewValue>>, rems: seq<map<string, seq<string>>>,
                    order: seq<string>) returns (olds: seq<map<string, NewValue>>)
      requires Valid() && BatchReady(data, rows, vals, rems, order)
      modifies this`data
      ensures Valid() && Addressable(old(data), rows, order)
      ensures data == old(data).(grid := Redone(old(data), rows, vals, rems, order).grid)
      ensures olds == Redone(old(data), rows, vals, rems, order).olds
    {
      var d := data;
      var cs := Cols(d.columns, order);
      var steps := Steps(d.columns, cs);
      var b0 := Batch(d.grid, Empties(|rows|));
      var b := b0;
      for j := 0 to |order|
        invariant b == FieldsFold(b0, cs, steps, order, rows, vals, rems, |d.columns|, j)
      {
        var col := ColOf(d.columns, order[j]);
        b := RunField(b, order[j], col, d.columns[col].editor, rows, vals, rems);
      }
      data := d.(grid := b.grid);
      olds := b.olds;
    }

    /** One more row of the row loop. */
    static lemma RowsFoldNext(b: Batch, editor: Option<int>, col: nat, f: string, rows: seq<int>,
                              vals: seq<map<string, NewValue>>, rems: seq<map<string, seq<string>>>, i: nat)
      requires i < |rows| && |vals| == |rows| && |rems| == |rows| && |b.olds| == |rows|
      requires forall k | 0 <= k < |rows| :: 0 <= rows[k] < |b.grid| && col < |b.grid[rows[k]]|
      ensures var p := RowsFold(b, StepFor(editor), col, f, rows, vals, rems, i);
        var cell := p.grid[rows[i]][col];
        RowsFold(b, StepFor(editor), col, f, rows, vals, rems, i + 1)
          == Batch(p.grid[rows[i] := p.grid[rows[i]][col := BatchValue(editor, cell, NewFor(vals[i], f), RemovalsFor(rems[i], f))]],
                   p.olds[i := p.olds[i][f := Raw(ToVariant(cell))]])
    {
    }

    /** The row loop of `_batchAddTags` for field `f` in column `col`. */
    static method RunField(b: Batch, f: string, col: nat, editor: Option<int>, rows: seq<int>,
                           vals: seq<map<string, NewValue>>, rems: seq<map<string, seq<string>>>) returns (r: Batch)
      requires |vals| == |rows| && |rems| == |rows| && |b.olds| == |rows|
      requires forall k | 0 <= k < |rows| :: 0 <= rows[k] < |b.grid| && col < |b.grid[rows[k]]|
      ensures r == RowsFold(b, StepFor(editor), col, f, rows, vals, rems, |rows|)
    {
      r := b;
      for i := 0 to |rows|
        invariant r == RowsFold(b, StepFor(editor), col, f, rows, vals, rems, i)
      {
        r := Visit(b, editor, col, f, rows, vals, rems, i, r);
      }
    }

    /** The body of the row loop: the cell is recorded, then rewritten. */
    static method Visit(b: Batch, editor: Option<int>, col: nat, f: string, rows: seq<int>,
                        vals: seq<map<string, NewValue>>, rems: seq<map<string, seq<string>>>, i: nat, r: Batch) returns (next: Batch)
      requires i < |rows| && |vals| == |rows| && |rems| == |rows| && |b.olds| == |rows|
      requires forall k | 0 <= k < |rows| :: 0 <= rows[k] < |b.grid| && col < |b.grid[rows[k]]|
      requires r == RowsFold(b, StepFor(editor), col, f, rows, vals, rems, i)
      ensures next == RowsFold(b, StepFor(editor), col, f, rows, vals, rems, i + 1)
    {
      var row := rows[i];
      var cell := r.grid[row][col];
      var v := CellValue(editor, cell, NewFor(vals[i], f), RemovalsFor(rems[i], f));
      RowsFoldNext(b, editor, col, f, rows, vals, rems, i);
      next := Batch(r.grid[row := r.grid[row][col := v]], r.olds[i := r.olds[i][f := Raw(ToVariant(cell))]]);
    }

    /**
     * The value one cell gets: a QVariant through the editor's coercion; a
     * tag list by the removal loop, the additions, and `'; '.join`.
     */
    static method CellValue(editor: Option<int>, cell: Value, nv: NewValue, rs: seq<string>) returns (v: Value)
      ensures v == BatchValue(editor, cell, nv, rs)
    {
      match nv
      case Raw(x) =>
        v := Coerce(editor, x);
      case Tags(adds) =>
        var kept := DropRemovals(TagLists.SplitTags(CellText(cell)), rs);
        v := Coerce(editor, VStr(TagLists.JoinTags(kept + Additions(kept, adds))));
    }

    /**
     * `command.redo()` on the model's dataset, the batch by its loops; the
     * command comes back with what its first redo captured.
     */
    method Apply(c: Command) returns (e: Effect)
      requires Valid()
      modifies this`data
      ensures Valid() && e == RedoStep(old(data), same, c) && data == e.data
    {
      if c.BatchAddCmd? && |c.values| >= |c.rows| && |c.removals| >= |c.rows| {
        var n := |c.rows|;
        if BatchReady(data, c.rows, c.values[..n], c.removals[..n], c.order) {
          var olds := RunBatch(c.rows, c.values[..n], c.removals[..n], c.order);
          e := Effect(data, if c.oldValues.None? then c.(oldValues := Some(olds)) else c, Ok(()));
          return;
        }
      }
      e := RedoStep(data, same, c);
      data := e.data;
    }

    /**
     * `undoStack.push(cmd)`: the command's redo runs, the undone commands
     * above the cursor are discarded, and the command goes on top.
     */
    method Push(c: Command) returns (r: Result<()>)
      requires Valid()
      modifies this`data, this`stack, this`cursor
      ensures Valid()
      ensures var e := RedoStep(old(data), same, c);
        data == e.data && r == e.result && stack == old(stack)[..old(cursor)] + [e.cmd] && cursor == |stack|
    {
      var e := Apply(c);
      stack := stack[..cursor] + [e.cmd];
      cursor := |stack|;
      r := e.result;
    }

    /** `undoStack.undo()`: the command below the cursor is undone; with none, nothing happens. */
    method Undo() returns (r: Result<()>)
      requires Valid()
      modifies this`data, this`stack, this`cursor
      ensures Valid()
      ensures old(cursor) == 0 ==> data == old(data) && stack == old(stack) && cursor == 0 && r.Ok?
      ensures old(cursor) > 0 ==>
        var e := UndoStep(old(data), same, old(stack)[old(cursor) - 1]);
        data == e.data && r == e.result && stack == old(stack)[old(cursor) - 1 := e.cmd] && cursor == old(cursor) - 1
    {
      if cursor == 0 {
        return Ok(());
      }
      var e := UndoStep(data, same, stack[cursor - 1]);
      data := e.data;
      stack := stack[cursor - 1 := e.cmd];
      cursor := cursor - 1;
      r := e.result;
    }

    /** `undoStack.redo()`: the command at the cursor is redone; with none, nothing happens. */
    method Redo() returns (r: Result<()>)
      requires Valid()
      modifies this`data, this`stack, this`cursor
      ensures Valid()
      ensures old(cursor) == |old(stack)| ==> data == old(data) && stack == old(stack) && cursor == old(cursor) && r.Ok?
      ensures old(cursor) < |old(stack)| ==>
        var e := RedoStep(old(data), same, old(stack)[old(cursor)]);
        data == e.data && r == e.result && stack == old(stack)[old(cursor) := e.cmd] && cursor == old(cursor) + 1
    {
      if cursor == |stack| {
        return Ok(());
      }
      var e := Apply(stack[cursor]);
      stack := stack[cursor := e.cmd];
      cursor := cursor + 1;
      r := e.result;
    }

    /**
     * `setData(index, value)`: a cell of the table pushes a `setDataCmd`
     * holding the cell's current value; any other index pushes nothing and
     * gives False.
     */
    method SetData(row: int, col: int, v: Variant) returns (pushed: bool)
      requires Valid()
      modifies this`data, this`stack, this`cursor
      ensures Valid()
      ensures pushed == InTable(old(data), row, col)
      ensures !pushed ==> data == old(data) && stack == old(stack) && cursor == old(cursor)
      ensures pushed ==>
        var e := RedoStep(old(data), same, SetDataCmd(row, col, v, ToVariant(old(data).grid[row][col])));
        data == e.data && stack == old(stack)[..old(cursor)] + [e.cmd] && cursor == |stack|
    {
      if !InTable(data, row, col) {
        return false;
      }
      var _ := Push(SetDataCmd(row, col, v, ToVariant(data.grid[row][col])));
      pushed := true;
    }

    /**
     * `setTagState(row, fieldName, tag, state)`: an unknown field name is a
     * ValueError; otherwise the cell's tags are edited and the joined text
     * goes through `setData`, which ignores a row outside the table.
     */
    method SetTagState(row: int, fieldName: string, tag: string, state: bool) returns (r: Result<()>)
      requires Valid()
      modifies this`data, this`stack, this`cursor
      ensures Valid()
      ensures r.Err? <==> fieldName !in Tables.PropNames(old(data).columns)
      ensures r.Err? ==> r.error == ValueError
      ensures var col := Lists.IndexOf(Tables.PropNames(old(data).columns), fieldName);
        if col.None? || !InTable(old(data), row, col.value) then
          data == old(data) && stack == old(stack) && cursor == old(cursor)
        else
          var cell := old(data).grid[row][col.value];
          var text := TagLists.JoinTags(TagState(TagLists.SplitTags(CellText(cell)), tag, state));
          var e := RedoStep(old(data), same, SetDataCmd(row, col.value, VStr(text), ToVariant(cell)));
          data == e.data && stack == old(stack)[..old(cursor)] + [e.cmd] && cursor == |stack|
    {
      var col := Lists.IndexOf(Tables.PropNames(data.columns), fieldName);
      if col.None? {
        return Err(ValueError);
      }
      r := Ok(());
      if InTable(data, row, col.value) {
        var cell := data.grid[row][col.value];
        var tags := TagLists.SplitTags(CellText(cell));
        var text := TagLists.JoinTags(TagState(tags, tag, state));
        var _ := SetData(row, col.value, VStr(text));
      }
    }

    /**
     * `batchAddTags(rows, values, rvalues)`: a `batchAddCmd` with no records
     * yet; `order` is the order in which the set of the first row's keys
     * yields them.
     */
    method BatchAddTags(rows: seq<int>, vals: seq<map<string, NewValue>>, rems: seq<map<string, seq<string>>>,
                        order: seq<string>) returns (r: Result<()>)
      requires Valid() && LoopFields(vals, rems, order)
      modifies this`data, this`stack, this`cursor
      ensures Valid()
      ensures var e := RedoStep(old(data), same, BatchAddCmd(rows, vals, rems, order, None));
        data == e.data && r == e.result && stack == old(stack)[..old(cursor)] + [e.cmd] && cursor == |stack|
    {
      r := Push(BatchAddCmd(rows, vals, rems, order, None));
    }

    /**
     * `deleteTag(tagId)`: the command reads the tag's value and field
     * first, so an unknown id is a TypeError (unpacking `None`) and nothing
     * is pushed.
     */
    method DeleteTag(tagId: int) returns (r: Result<()>)
      requires Valid()
      modifies this`data, this`stack, this`cursor
      ensures Valid()
      ensures tagId !in old(data).store.tags ==>
        r == Err(TypeError) && data == old(data) && stack == old(stack) && cursor == old(cursor)
      ensures tagId in old(data).store.tags ==>
        var t := old(data).store.tags[tagId];
        var e := RedoStep(old(data), same, DeleteTagCmd(tagId, t.value, t.fieldId, None));
        data == e.data && r == e.result && stack == old(stack)[..old(cursor)] + [e.cmd] && cursor == |stack|
    {
      match TagById(data.store, tagId)
      case None =>
        r := Err(TypeError);
      case Some((name, fieldId)) =>
        r := Push(DeleteTagCmd(tagId, name, fieldId, None));
    }

    /** `renameTag(tagId, newName)`: an unknown id is a TypeError (`None[0]`) and nothing is pushed. */
    method RenameTag(tagId: int, newName: string) returns (r: Result<()>)
      requires Valid()
      modifies this`data, this`stack, this`cursor
      ensures Valid()
      ensures tagId !in old(data).store.tags ==>
        r == Err(TypeError) && data == old(data) && stack == old(stack) && cursor == old(cursor)
      ensures tagId in old(data).store.tags ==>
        var e := RedoStep(old(data), same, RenameTagCmd(tagId, newName, old(data).store.tags[tagId].value));
        data == e.data && r == e.result && stack == old(stack)[..old(cursor)] + [e.cmd] && cursor == |stack|
    {
      match TagById(data.store, tagId)
      case None =>
        r := Err(TypeError);
      case Some((name, _)) =>
        r := Push(RenameTagCmd(tagId, newName, name));
    }

    /**
     * `removeColumns(position, force=force)`: a bad position is an
     * IndexError; a required field without `force` gives False and changes
     * nothing; otherwise the field is dropped and True comes back. The undo
     * stack is not involved.
     */
    method RemoveColumns(position: int, force: bool) returns (r: Result<bool>)
      requires Valid()
      modifies this`data
      ensures Valid()
      ensures var k := Lists.NormIndex(position, |old(data).columns|);
        (k.None? ==> r == Err(IndexError) && data == old(data))
        && (k.Some? && old(data).columns[k.value].required && !force ==> r == Ok(false) && data == old(data))
        && (k.Some? && !(old(data).columns[k.value].required && !force) ==> r == Ok(true) && data == DropColumn(old(data), k.value))
    {
      var k := Lists.NormIndex(position, |data.columns|);
      if k.None? {
        return Err(IndexError);
      }
      if data.columns[k.value].required && !force {
        return Ok(false);
      }
      data := DropColumn(data, k.value);
      r := Ok(true);
    }
  }
}
