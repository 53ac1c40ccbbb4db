// The table model and its filtering proxy of the first generation
// (datastore/models/album_model.py): cell edits through the field's editor,
// column removal, the delete-cells command and its undo, and the row filter
// (a date test that is always on, hide-tagged, and one pattern looked for in
// the filtered columns).

module LegacyAlbumModel {
  import opened Outcomes
  import opened Values
  import opened LegacyFieldObjects
  import opened LegacyPhotoObjects
  import Lists
  import Dates
  import AlbumFilter

  // ------------------------------------------------------------- setData

  /** The number a bool or an int stands for in a Python comparison. */
  function Num(v: Value): Option<int> {
    match v
    case Bool(b) => Some(if b then 1 else 0)
    case Int(i) => Some(i)
    case _ => None
  }

  /** Python's `a == b` on cell values, under which True equals 1 and False equals 0. */
  predicate PyEq(a: Value, b: Value) {
    if Num(a).Some? || Num(b).Some? then Num(a) == Num(b) else a == b
  }

  /** `index.isValid()` for an index of a table with these fields and `n` photos. */
  predicate InTable(fields: seq<FieldObject>, n: nat, row: int, col: int) {
    0 <= row < n && 0 <= col < |fields|
  }

  /** A cell `setData` writes to: a valid index under a column whose header is not empty. */
  predicate Writable(fields: seq<FieldObject>, n: nat, cell: (int, int))
    reads fields
  {
    InTable(fields, n, cell.0, cell.1) && fields[cell.1].name != ""
  }

  /** What `setData` returns, whether it emitted `dirty`, and the photos it leaves. */
  datatype Edit = Edit(result: Result<bool>, dirty: bool, entries: seq<Photo>)

  /**
   * `setData(index, value)` on the dataset's fields and photos. The column's
   * header is read first, with Python's indexing (IndexError when no index
   * reaches the column); a header that is empty, or an index outside the
   * table, returns False. Otherwise the value is coerced by the field's
   * editor, the photo's value under the field is read (KeyError when the
   * photo lacks it) and compared with Python's `!=` to decide `dirty`, and
   * the coerced value is stored under the first field with the field's name.
   */
  function SetDataSpec(fields: seq<FieldObject>, es: seq<Photo>, row: int, col: int, value: Variant): (r: Edit)
    reads fields
    ensures r.result.Err? <==> Lists.NormIndex(col, |fields|).None? || (Writable(fields, |es|, (row, col)) && fields[col] !in es[row].values)
    ensures r.result.Err? ==> r.result.error == IndexError || r.result.error == KeyError
    ensures r.result.Ok? && r.result.value <==> Writable(fields, |es|, (row, col)) && fields[col] in es[row].values
    ensures r.result != Ok(true) ==> r.entries == es && !r.dirty
    ensures r.result == Ok(true) ==>
      var f := fields[col];
      var key := FirstNamed(fields, f.name);
      var cvalue := Coerce(Some(f.editor), value);
      |r.entries| == |es| && r.entries[row].values == es[row].values[key := cvalue]
      && (forall x | 0 <= x < |es| && x != row :: r.entries[x] == es[x])
      && Fits(Some(f.editor), r.entries[row].values[key])
      && (r.dirty <==> !PyEq(es[row].values[f], cvalue))
  {
    match Lists.NormIndex(col, |fields|)
    case None => Edit(Err(IndexError), false, es)
    case Some(_) =>
      if !Writable(fields, |es|, (row, col)) then Edit(Ok(false), false, es)
      else
        var f := fields[col];
        var cvalue := Coerce(Some(f.editor), value);
        if f !in es[row].values then Edit(Err(KeyError), false, es)
        else Edit(Ok(true), !PyEq(es[row].values[f], cvalue), es[row := Photo(es[row].values[FirstNamed(fields, f.name) := cvalue])])
  }

  /**
   * Setting a cell a second time to the same value changes nothing and is
   * not dirty, when the field is the first with its name.
   */
  lemma SetDataSettles(fields: seq<FieldObject>, es: seq<Photo>, row: int, col: int, value: Variant)
    requires SetDataSpec(fields, es, row, col, value).result == Ok(true)
    requires FirstNamed(fields, fields[col].name) == fields[col]
    ensures var once := SetDataSpec(fields, es, row, col, value).entries;
      SetDataSpec(fields, once, row, col, value) == Edit(Ok(true), false, once)
  {
    var once := SetDataSpec(fields, es, row, col, value).entries;
    var twice := SetDataSpec(fields, once, row, col, value);
    var cvalue := Coerce(Some(fields[col].editor), value);
    assert once[row].values[fields[col]] == cvalue;
    assert once[row].values[fields[col] := cvalue] == once[row].values;
    assert twice.entries[row] == once[row];
    assert twice.entries == once;
  }

  /**
   * `dirty` follows Python's `!=`: a cell holding 1 that a check box sets to
   * True now holds True, and no `dirty` is emitted.
   */
  lemma CheckBoxRetypesQuietly(fields: seq<FieldObject>, es: seq<Photo>, row: int, col: int)
    requires Writable(fields, |es|, (row, col)) && fields[col].editor == CheckBoxEditor
    requires fields[col] in es[row].values && es[row].values[fields[col]] == Int(1)
    requires FirstNamed(fields, fields[col].name) == fields[col]
    ensures var e := SetDataSpec(fields, es, row, col, VBool(true));
      e.result == Ok(true) && !e.dirty && e.entries[row].values[fields[col]] == Bool(true)
  {
  }

  // ------------------------------------------------------- removing columns

  /** The photos with field `f` dropped from each. */
  function WithoutField(es: seq<Photo>, f: FieldObject?): (r: seq<Photo>)
    ensures |r| == |es| && forall x | 0 <= x < |es| :: r[x].values == es[x].values - {f}
  {
    seq(|es|, x requires 0 <= x < |es| => Photo(es[x].values - {f}))
  }

  /** What `removeColumns` returns, and the fields and photos it leaves. */
  datatype Removal = Removal(result: Result<bool>, fields: seq<FieldObject>, entries: seq<Photo>)

  /**
   * `removeColumns(position, force=force)`: the field at `position`
   * (IndexError when no Python index reaches it); a required field without
   * `force` stays and False is returned; otherwise the dataset drops the
   * field from its container and from every photo, and True is returned.
   */
  function RemoveSpec(fields: seq<FieldObject>, es: seq<Photo>, position: int, force: bool): (r: Removal)
    reads fields
    ensures Lists.NormIndex(position, |fields|).None? ==> r == Removal(Err(IndexError), fields, es)
    ensures r.result != Ok(true) ==> r.fields == fields && r.entries == es
    ensures Lists.NormIndex(position, |fields|).Some? ==>
      var k := Lists.NormIndex(position, |fields|).value;
      (r.result == Ok(false) <==> fields[k].required && !force)
      && (r.result == Ok(true) <==> !(fields[k].required && !force))
      && (r.result == Ok(true) ==> r.fields == Lists.RemoveAt(fields, k) && r.entries == WithoutField(es, fields[k]))
  {
    match Lists.NormIndex(position, |fields|)
    case None => Removal(Err(IndexError), fields, es)
    case Some(k) =>
      if fields[k].required && !force then Removal(Ok(false), fields, es)
      else Removal(Ok(true), Lists.RemoveAt(fields, k), WithoutField(es, fields[k]))
  }

  /** `removeField(field, force)`: the name's first position (ValueError when no field has it), then `removeColumns`. */
  function RemoveFieldSpec(fields: seq<FieldObject>, es: seq<Photo>, name: string, force: bool): (r: Removal)
    reads fields
    ensures name !in NamesOf(fields) ==> r == Removal(Err(ValueError), fields, es)
    ensures name in NamesOf(fields) ==> r == RemoveSpec(fields, es, Lists.IndexOf(NamesOf(fields), name).value, force)
  {
    match Lists.IndexOf(NamesOf(fields), name)
    case None => Removal(Err(ValueError), fields, es)
    case Some(i) => RemoveSpec(fields, es, i, force)
  }

  /**
   * Removing a field by name removes the first field with that name: when
   * the fields are distinct objects it is then in no place of the container
   * and a key of no photo, and the other fields keep their order.
   */
  lemma RemoveFieldGone(fields: seq<FieldObject>, es: seq<Photo>, name: string, force: bool)
    requires forall i, j | 0 <= i < j < |fields| :: fields[i] != fields[j]
    requires RemoveFieldSpec(fields, es, name, force).result == Ok(true)
    ensures var r := RemoveFieldSpec(fields, es, name, force);
      var f := FirstNamed(fields, name);
      f != null && f !in r.fields && |r.fields| == |fields| - 1
      && (forall x | 0 <= x < |r.entries| :: f !in r.entries[x].values)
      && forall g | g in fields && g != f :: g in r.fields
  {
    var r := RemoveFieldSpec(fields, es, name, force);
    var i := Lists.IndexOf(NamesOf(fields), name).value;
    assert NamesOf(fields)[..i] == NamesOf(fields[..i]);
    assert FirstNamed(fields, name) == fields[i];
    forall j | 0 <= j < |r.fields|
      ensures r.fields[j] != fields[i]
    {
      if j >= i {
        assert r.fields[j] == fields[j + 1];
      }
    }
    forall g | g in fields && g != fields[i]
      ensures g in r.fields
    {
      var j :| 0 <= j < |fields| && fields[j] == g;
      if j < i {
        assert r.fields[j] == g;
      } else {
        assert r.fields[j - 1] == g;
      }
    }
  }

  /** A required field is only removed with `force`. */
  lemma RequiredNeedsForce(fields: seq<FieldObject>, es: seq<Photo>, name: string)
    requires name in NamesOf(fields) && FirstNamed(fields, name).required
    ensures RemoveFieldSpec(fields, es, name, false) == Removal(Ok(false), fields, es)
  {
    var i := Lists.IndexOf(NamesOf(fields), name).value;
    assert NamesOf(fields)[..i] == NamesOf(fields[..i]);
    assert FirstNamed(fields, name) == fields[i];
  }

  // ------------------------------------------------------------ deleteCmd

  /** `deleteCmd(model, indexes)`: the cells, and what `index.data()` gave for each when the command was made. */
  datatype DeleteCmd = DeleteCmd(indexes: seq<(int, int)>, oldValues: seq<Variant>)

  /**
   * `index.data()`: for a valid index, `QVariant(dataset[row, fields[col]])`
   * (KeyError when the photo lacks the field); an invalid index belongs to
   * no model and gives the invalid variant.
   */
  function CellData(fields: seq<FieldObject>, es: seq<Photo>, cell: (int, int)): (r: Result<Variant>)
    ensures r.Err? <==> InTable(fields, |es|, cell.0, cell.1) && fields[cell.1] !in es[cell.0].values
    ensures r.Err? ==> r.error == KeyError
    ensures r.Ok? && InTable(fields, |es|, cell.0, cell.1) ==> r.value == ToVariant(es[cell.0].values[fields[cell.1]])
  {
    if !InTable(fields, |es|, cell.0, cell.1) then Ok(VInvalid)
    else if fields[cell.1] in es[cell.0].values then Ok(ToVariant(es[cell.0].values[fields[cell.1]]))
    else Err(KeyError)
  }

  /** The old values the constructor captures, cell by cell; a failing read raises. */
  function Capture(fields: seq<FieldObject>, es: seq<Photo>, cells: seq<(int, int)>): (r: Result<seq<Variant>>)
    ensures r.Ok? <==> forall k | 0 <= k < |cells| :: CellData(fields, es, cells[k]).Ok?
    ensures r.Err? ==> r.error == KeyError
    ensures r.Ok? ==> |r.value| == |cells| && forall k | 0 <= k < |cells| :: CellData(fields, es, cells[k]) == Ok(r.value[k])
  {
    if |cells| == 0 then Ok([])
    else
      assert forall k | 1 <= k < |cells| :: cells[1..][k - 1] == cells[k];
      match CellData(fields, es, cells[0])
      case Err(e) => Err(e)
      case Ok(v) =>
        match Capture(fields, es, cells[1..])
        case Err(e) => Err(e)
        case Ok(vs) => Ok([v] + vs)
  }

  /** How a run of `setData` calls ends: the first error, if any, and the photos as the calls left them. */
  datatype Run = Run(result: Result<()>, entries: seq<Photo>)

  /** `setData` on each (cell, value) in turn; an error stops the run and keeps the earlier writes. */
  function EditAll(fields: seq<FieldObject>, es: seq<Photo>, writes: seq<((int, int), Variant)>): (r: Run)
    reads fields
    ensures |r.entries| == |es|
    decreases |writes|
  {
    if |writes| == 0 then Run(Ok(()), es)
    else
      var e := SetDataSpec(fields, es, writes[0].0.0, writes[0].0.1, writes[0].1);
      if e.result.Err? then Run(Err(e.result.error), es)
      else EditAll(fields, e.entries, writes[1..])
  }

  /** `redo`: every cell is set to `''`. */
  function RedoWrites(cmd: DeleteCmd): (r: seq<((int, int), Variant)>)
    ensures |r| == |cmd.indexes| && forall k | 0 <= k < |r| :: r[k] == (cmd.indexes[k], VStr(""))
  {
    seq(|cmd.indexes|, k requires 0 <= k < |cmd.indexes| => (cmd.indexes[k], VStr("")))
  }

  /** `undo`: `zip(self.indexes, self.old_values)`, as long as the shorter of the two. */
  function UndoWrites(cmd: DeleteCmd): (r: seq<((int, int), Variant)>)
    ensures |r| <= |cmd.indexes| && |r| <= |cmd.oldValues|
    ensures |r| == |cmd.indexes| || |r| == |cmd.oldValues|
    ensures forall k | 0 <= k < |r| :: r[k] == (cmd.indexes[k], cmd.oldValues[k])
  {
    var n := if |cmd.indexes| < |cmd.oldValues| then |cmd.indexes| else |cmd.oldValues|;
    seq(n, k requires 0 <= k < n => (cmd.indexes[k], cmd.oldValues[k]))
  }

  /** Write `w` lands on photo `x` under field `g`. */
  predicate Hits(fields: seq<FieldObject>, n: nat, w: ((int, int), Variant), x: int, g: FieldObject?)
    reads fields
  {
    Writable(fields, n, w.0) && w.0.0 == x && fields[w.0.1] == g
  }

  /** The value the last write landing on photo `x` under field `g` leaves there, if any lands there. */
  function LastHit(fields: seq<FieldObject>, n: nat, writes: seq<((int, int), Variant)>, x: int, g: FieldObject?): (r: Option<Value>)
    reads fields
    ensures r.None? <==> forall k | 0 <= k < |writes| :: !Hits(fields, n, writes[k], x, g)
    ensures r.Some? ==> exists k | 0 <= k < |writes| ::
      Hits(fields, n, writes[k], x, g) && r.value == Coerce(Some(fields[writes[k].0.1].editor), writes[k].1)
  {
    if |writes| == 0 then None
    else
      assert forall k | 1 <= k < |writes| :: writes[1..][k - 1] == writes[k];
      match LastHit(fields, n, writes[1..], x, g)
      case Some(v) => Some(v)
      case None =>
        if Hits(fields, n, writes[0], x, g) then Some(Coerce(Some(fields[writes[0].0.1].editor), writes[0].1)) else None
  }

  /** What photo `x` holds under `g` after the writes, when it held `was` before. */
  function Landed(fields: seq<FieldObject>, n: nat, writes: seq<((int, int), Variant)>, x: int, g: FieldObject?, was: Value): Value
    reads fields
  {
    match LastHit(fields, n, writes, x, g)
    case None => was
    case Some(v) => v
  }

  /** A cell `setData` writes to has as key the first field of its name, and its photo holds that key. */
  ghost predicate KeyedCell(fields: seq<FieldObject>, es: seq<Photo>, cell: (int, int))
    reads fields
  {
    Writable(fields, |es|, cell) ==>
      FirstNamed(fields, fields[cell.1].name) == fields[cell.1] && fields[cell.1] in es[cell.0].values
  }

  /** Every write's cell is keyed. */
  ghost predicate Keyed(fields: seq<FieldObject>, es: seq<Photo>, writes: seq<((int, int), Variant)>)
    reads fields
  {
    forall k | 0 <= k < |writes| :: KeyedCell(fields, es, writes[k].0)
  }

  /** Every write reaches a column by Python's indexing. */
  predicate Headed(fields: seq<FieldObject>, writes: seq<((int, int), Variant)>) {
    forall k | 0 <= k < |writes| :: Lists.NormIndex(writes[k].0.1, |fields|).Some?
  }

  /** Photos whose keys are those of `es`, one for one. */
  ghost predicate SameKeys(es: seq<Photo>, es': seq<Photo>) {
    |es'| == |es| && forall x | 0 <= x < |es| :: es'[x].values.Keys == es[x].values.Keys
  }

  /**
   * A run of keyed writes succeeds, keeps every photo's keys, and leaves in
   * each cell the value of the last write landing there, or its old value.
   */
  lemma {:induction false} EditAllCells(fields: seq<FieldObject>, es: seq<Photo>, writes: seq<((int, int), Variant)>)
    requires Headed(fields, writes) && Keyed(fields, es, writes)
    ensures var run := EditAll(fields, es, writes);
      run.result.Ok? && SameKeys(es, run.entries)
      && forall x, g | 0 <= x < |es| && g in es[x].values ::
           run.entries[x].values[g] == Landed(fields, |es|, writes, x, g, es[x].values[g])
    decreases |writes|
  {
    if |writes| > 0 {
      var w := writes[0];
      var rest := writes[1..];
      assert forall k | 1 <= k < |writes| :: rest[k - 1] == writes[k];
      var e := SetDataSpec(fields, es, w.0.0, w.0.1, w.1);
      EditOne(fields, es, w);
      assert Keyed(fields, e.entries, rest);
      EditAllCells(fields, e.entries, rest);
      forall x, g | 0 <= x < |es| && g in es[x].values
        ensures EditAll(fields, es, writes).entries[x].values[g] == Landed(fields, |es|, writes, x, g, es[x].values[g])
      {
        LandedFirst(fields, |es|, writes, x, g, es[x].values[g]);
      }
    }
  }

  /** One keyed write succeeds, keeps every photo's keys, and changes only the cell it lands on. */
  lemma EditOne(fields: seq<FieldObject>, es: seq<Photo>, w: ((int, int), Variant))
    requires Lists.NormIndex(w.0.1, |fields|).Some? && KeyedCell(fields, es, w.0)
    ensures var e := SetDataSpec(fields, es, w.0.0, w.0.1, w.1);
      e.result.Ok? && SameKeys(es, e.entries)
      && forall x, g | 0 <= x < |es| && g in es[x].values ::
           e.entries[x].values[g] == if Hits(fields, |es|, w, x, g) then Coerce(Some(fields[w.0.1].editor), w.1) else es[x].values[g]
  {
    var e := SetDataSpec(fields, es, w.0.0, w.0.1, w.1);
    forall x | 0 <= x < |es|
      ensures e.entries[x].values.Keys == es[x].values.Keys
    {
      if Writable(fields, |es|, w.0) && x == w.0.0 {
        assert e.entries[x].values == es[x].values[fields[w.0.1] := Coerce(Some(fields[w.0.1].editor), w.1)];
      }
    }
  }

  /** The first write lands before the others: it sets what the rest of the run starts from. */
  lemma LandedFirst(fields: seq<FieldObject>, n: nat, writes: seq<((int, int), Variant)>, x: int, g: FieldObject?, was: Value)
    requires |writes| > 0
    ensures Landed(fields, n, writes, x, g, was) ==
      Landed(fields, n, writes[1..], x, g, if Hits(fields, n, writes[0], x, g) then Coerce(Some(fields[writes[0].0.1].editor), writes[0].1) else was)
  {
  }

  /**
   * What the delete-cells round trip asks of its cells: each reaches a
   * column, and each cell it writes is keyed by the first field of its name
   * and holds a value its editor could have stored.
   */
  ghost predicate Restorable(fields: seq<FieldObject>, es: seq<Photo>, indexes: seq<(int, int)>)
    reads fields
  {
    forall k | 0 <= k < |indexes| ::
      Lists.NormIndex(indexes[k].1, |fields|).Some? && KeyedCell(fields, es, indexes[k])
      && (Writable(fields, |es|, indexes[k]) ==> Fits(Some(fields[indexes[k].1].editor), es[indexes[k].0].values[fields[indexes[k].1]]))
  }

  /** One cell of the round trip: undoing the captured values after the redo gives back what the cell held. */
  lemma UndoRestoresCell(fields: seq<FieldObject>, es: seq<Photo>, indexes: seq<(int, int)>, x: int, g: FieldObject?)
    requires Restorable(fields, es, indexes) && Capture(fields, es, indexes).Ok?
    requires 0 <= x < |es| && g in es[x].values
    ensures var cmd := DeleteCmd(indexes, Capture(fields, es, indexes).value);
      var cleared := Landed(fields, |es|, RedoWrites(cmd), x, g, es[x].values[g]);
      Landed(fields, |es|, UndoWrites(cmd), x, g, cleared) == es[x].values[g]
  {
    var cmd := DeleteCmd(indexes, Capture(fields, es, indexes).value);
    var rw, uw := RedoWrites(cmd), UndoWrites(cmd);
    match LastHit(fields, |es|, uw, x, g)
    case None =>
      forall k | 0 <= k < |rw|
        ensures !Hits(fields, |es|, rw[k], x, g)
      {
        assert !Hits(fields, |es|, uw[k], x, g);
      }
    case Some(v) =>
      var k :| 0 <= k < |uw| && Hits(fields, |es|, uw[k], x, g) && v == Coerce(Some(fields[uw[k].0.1].editor), uw[k].1);
      assert CellData(fields, es, indexes[k]) == Ok(cmd.oldValues[k]);
      CoerceRestores(Some(g.editor), es[x].values[g]);
  }

  /**
   * The round trip of `deleteCmd`: when every written cell's field is the
   * first with its name and the cell holds a value its editor could have
   * stored, `redo` followed by `undo` gives every photo back exactly.
   */
  lemma DeleteRoundTrip(fields: seq<FieldObject>, es: seq<Photo>, indexes: seq<(int, int)>)
    requires Restorable(fields, es, indexes) && Capture(fields, es, indexes).Ok?
    ensures var cmd := DeleteCmd(indexes, Capture(fields, es, indexes).value);
      var redo := EditAll(fields, es, RedoWrites(cmd));
      var undo := EditAll(fields, redo.entries, UndoWrites(cmd));
      redo.result.Ok? && undo.result.Ok? && undo.entries == es
  {
    var cmd := DeleteCmd(indexes, Capture(fields, es, indexes).value);
    var rw, uw := RedoWrites(cmd), UndoWrites(cmd);
    assert Headed(fields, rw) && Keyed(fields, es, rw);
    EditAllCells(fields, es, rw);
    var redo := EditAll(fields, es, rw);
    assert Headed(fields, uw) && Keyed(fields, redo.entries, uw) by {
      forall k | 0 <= k < |uw|
        ensures KeyedCell(fields, redo.entries, uw[k].0)
      {
        assert KeyedCell(fields, es, indexes[k]);
      }
    }
    EditAllCells(fields, redo.entries, uw);
    var undo := EditAll(fields, redo.entries, uw);
    forall x | 0 <= x < |es|
      ensures undo.entries[x] == es[x]
    {
      forall g | g in es[x].values
        ensures undo.entries[x].values[g] == es[x].values[g]
      {
        assert redo.entries[x].values[g] == Landed(fields, |es|, rw, x, g, es[x].values[g]);
        assert undo.entries[x].values[g] == Landed(fields, |es|, uw, x, g, redo.entries[x].values[g]);
        UndoRestoresCell(fields, es, indexes, x, g);
      }
      assert undo.entries[x].values.Keys == es[x].values.Keys;
      assert undo.entries[x].values == es[x].values;
    }
    assert undo.entries == es;
  }

  /** `redo` clears every cell it writes: `''` through the field's editor, which a check box stores as False. */
  lemma DeleteRedoClears(fields: seq<FieldObject>, es: seq<Photo>, indexes: seq<(int, int)>, k: nat)
    requires Restorable(fields, es, indexes) && Capture(fields, es, indexes).Ok?
    requires k < |indexes| && Writable(fields, |es|, indexes[k])
    ensures var redo := EditAll(fields, es, RedoWrites(DeleteCmd(indexes, Capture(fields, es, indexes).value)));
      var f := fields[indexes[k].1];
      redo.result.Ok? && f in redo.entries[indexes[k].0].values
      && redo.entries[indexes[k].0].values[f] == Coerce(Some(f.editor), VStr(""))
      && Coerce(Some(f.editor), VStr("")) == if f.editor == CheckBoxEditor then Bool(false) else Str("")
  {
    var rw := RedoWrites(DeleteCmd(indexes, Capture(fields, es, indexes).value));
    assert Headed(fields, rw) && Keyed(fields, es, rw);
    EditAllCells(fields, es, rw);
    assert Hits(fields, |es|, rw[k], indexes[k].0, fields[indexes[k].1]);
  }

  // ------------------------------------------------------------ the model

  /** `AlbumModel`: the table model over a dataset (an Album). */
  class AlbumModel {
    const dataset: Album

    constructor (dataset: Album)
      ensures this.dataset == dataset
    {
      this.dataset := dataset;
    }

    /** `setData(index, value)` for the index (row, col); see `SetDataSpec`. */
    method SetData(row: int, col: int, value: Variant) returns (r: Result<bool>, dirty: bool)
      modifies dataset`entries
      ensures Edit(r, dirty, dataset.entries) == old(SetDataSpec(dataset.fields.fieldobjs, dataset.entries, row, col, value))
    {
      var names := dataset.FieldNames();
      var h := Lists.NormIndex(col, |names|);
      if h.None? {
        return Err(IndexError), false;
      }
      var header := names[h.value];
      if header == "" || !(0 <= row < |dataset.entries| && 0 <= col < |names|) {
        return Ok(false), false;
      }
      var field := dataset.fields.Get(ByPos(col));
      var f: FieldObject := field.value;
      var cvalue := Coerce(Some(f.editor), value);
      var current := dataset.Get(row, AtField(f));
      if current.Err? {
        return Err(current.error), false;
      }
      dirty := !PyEq(current.value, cvalue);
      var _ := dataset.SetCell(row, ByField(f), cvalue);
      r := Ok(true);
    }

    /** `removeColumns(position, force=force)`; see `RemoveSpec`. */
    method RemoveColumns(position: int, force: bool) returns (r: Result<bool>)
      modifies dataset`entries, dataset.fields
      ensures Removal(r, dataset.fields.fieldobjs, dataset.entries) == old(RemoveSpec(dataset.fields.fieldobjs, dataset.entries, position, force))
    {
      var field := dataset.fields.Get(ByPos(position));
      if field.Err? {
        return Err(field.error);
      }
      var f: FieldObject := field.value;
      if f.required && !force {
        return Ok(false);
      }
      dataset.entries := WithoutField(dataset.entries, f);
      var _ := dataset.fields.DelItem(position);
      r := Ok(true);
    }

    /** `removeField(field, force)`; see `RemoveFieldSpec`. */
    method RemoveField(field: string, force: bool) returns (r: Result<bool>)
      modifies dataset`entries, dataset.fields
      ensures Removal(r, dataset.fields.fieldobjs, dataset.entries) == old(RemoveFieldSpec(dataset.fields.fieldobjs, dataset.entries, field, force))
    {
      var idx := Lists.IndexOf(dataset.FieldNames(), field);
      if idx.None? {
        return Err(ValueError);
      }
      r := RemoveColumns(idx.value, force);
    }

    /** The `deleteCmd` constructor: `index.data()` of each cell, in order. */
    method NewDeleteCmd(indexes: seq<(int, int)>) returns (r: Result<DeleteCmd>)
      ensures Capture(dataset.fields.fieldobjs, dataset.entries, indexes).Err? ==> r == Err(KeyError)
      ensures Capture(dataset.fields.fieldobjs, dataset.entries, indexes).Ok? ==>
        r == Ok(DeleteCmd(indexes, Capture(dataset.fields.fieldobjs, dataset.entries, indexes).value))
    {
      var vals: seq<Variant> := [];
      for i := 0 to |indexes|
        invariant |vals| == i
        invariant forall k | 0 <= k < i :: CellData(dataset.fields.fieldobjs, dataset.entries, indexes[k]) == Ok(vals[k])
      {
        var row, col := indexes[i].0, indexes[i].1;
        var v := VInvalid;
        if 0 <= row < |dataset.entries| && 0 <= col < |dataset.fields.fieldobjs| {
          var got := dataset.Get(row, AtField(dataset.fields.fieldobjs[col]));
          if got.Err? {
            assert !Capture(dataset.fields.fieldobjs, dataset.entries, indexes).Ok?;
            return Err(got.error);
          }
          v := ToVariant(got.value);
        }
        vals := vals + [v];
      }
      var captured := Capture(dataset.fields.fieldobjs, dataset.entries, indexes);
      assert captured.value == vals;
      return Ok(DeleteCmd(indexes, vals));
    }

    /** The loop of `redo` and `undo`: `setData` on each cell in turn. */
    method WriteAll(writes: seq<((int, int), Variant)>) returns (r: Result<()>)
      modifies dataset`entries
      ensures Run(r, dataset.entries) == old(EditAll(dataset.fields.fieldobjs, dataset.entries, writes))
    {
      var i := 0;
      while i < |writes|
        invariant 0 <= i <= |writes|
        invariant EditAll(dataset.fields.fieldobjs, dataset.entries, writes[i..]) == old(EditAll(dataset.fields.fieldobjs, dataset.entries, writes))
      {
        assert writes[i..][1..] == writes[i + 1..];
        var res, _ := SetData(writes[i].0.0, writes[i].0.1, writes[i].1);
        if res.Err? {
          return Err(res.error);
        }
        i := i + 1;
      }
      r := Ok(());
    }

    /** `deleteCmd.redo()`: every cell is set to `''`. */
    method Redo(cmd: DeleteCmd) returns (r: Result<()>)
      modifies dataset`entries
      ensures Run(r, dataset.entries) == EditAll(dataset.fields.fieldobjs, old(dataset.entries), RedoWrites(cmd))
    {
      r := WriteAll(RedoWrites(cmd));
    }

    /** `deleteCmd.undo()`: every cell gets its captured value back, in order. */
    method Undo(cmd: DeleteCmd) returns (r: Result<()>)
      modifies dataset`entries
      ensures Run(r, dataset.entries) == EditAll(dataset.fields.fieldobjs, old(dataset.entries), UndoWrites(cmd))
    {
      r := WriteAll(UndoWrites(cmd));
    }

    /** `deleteCells(indexes)`: the command is made, and pushing it runs its `redo`. */
    method DeleteCells(indexes: seq<(int, int)>) returns (r: Result<DeleteCmd>)
      modifies dataset`entries
      ensures old(Capture(dataset.fields.fieldobjs, dataset.entries, indexes)).Err? ==>
        r == Err(KeyError) && dataset.entries == old(dataset.entries)
      ensures old(Capture(dataset.fields.fieldobjs, dataset.entries, indexes)).Ok? ==>
        var cmd := DeleteCmd(indexes, old(Capture(dataset.fields.fieldobjs, dataset.entries, indexes)).value);
        var run := old(EditAll(dataset.fields.fieldobjs, dataset.entries, RedoWrites(cmd)));
        dataset.entries == run.entries && (run.result.Ok? ==> r == Ok(cmd))
        && (run.result.Err? ==> r == Err(run.result.error))
    {
      var cmd := NewDeleteCmd(indexes);
      if cmd.Err? {
        return Err(cmd.error);
      }
      var done := Redo(cmd.value);
      if done.Err? {
        return Err(done.error);
      }
      r := cmd;
    }
  }

  // ------------------------------------------------------ the filter proxy

  /** `AlbumSortFilterModel`'s settings, each changed by its setter. */
  class SortFilter {
    var fromDate: Dates.Date
    var toDate: Dates.Date
    var dateBetween: bool
    var dateFilterType: int
    var hideTagged: bool

    /** The settings a new proxy starts with: 1 January of years 1 and 9999, range mode, day resolution. */
    constructor ()
      ensures fromDate == Dates.Date(1, 1, 1) && toDate == Dates.Date(9999, 1, 1)
      ensures dateBetween && dateFilterType == AlbumFilter.DayFilter && !hideTagged
    {
      fromDate := Dates.Date(1, 1, 1);
      toDate := Dates.Date(9999, 1, 1);
      dateBetween := true;
      dateFilterType := AlbumFilter.DayFilter;
      hideTagged := false;
    }

    /** `setDateFilterType(filt)`: anything but the three resolutions is a ValueError and changes nothing. */
    method SetDateFilterType(filt: int) returns (r: Result<()>)
      modifies this`dateFilterType
      ensures filt in {AlbumFilter.YearFilter, AlbumFilter.MonthFilter, AlbumFilter.DayFilter} ==> r.Ok? && dateFilterType == filt
      ensures filt !in {AlbumFilter.YearFilter, AlbumFilter.MonthFilter, AlbumFilter.DayFilter} ==>
        r == Err(ValueError) && dateFilterType == old(dateFilterType)
    {
      if filt != AlbumFilter.YearFilter && filt != AlbumFilter.MonthFilter && filt != AlbumFilter.DayFilter {
        return Err(ValueError);
      }
      dateFilterType := filt;
      r := Ok(());
    }

    /**
     * The row test: a row with a date passes the date test, which is always
     * on; a tagged row is hidden when the switch is on; and the pattern is
     * found in some column whose field has the `filter` flag.
     */
    predicate Verdict(row: AlbumFilter.Row, pattern: string, found: AlbumFilter.Finder)
      reads this
    {
      AlbumFilter.DatePasses(row.date, true, dateBetween, dateFilterType, fromDate, toDate)
      && !(hideTagged && Truthy(row.tagged))
      && AlbumFilter.FoundIn(row.cells, pattern, found)
    }

    /** `filterAcceptsRow(row)` with the proxy's pattern, as the source runs it: the first matching column ends the loop. */
    method FilterAcceptsRow(row: AlbumFilter.Row, pattern: string, found: AlbumFilter.Finder) returns (ok: bool)
      ensures ok == Verdict(row, pattern, found)
    {
      if row.date.Some? {
        var checkDate := AlbumFilter.RoundDate(row.date.value, dateFilterType);
        var from := AlbumFilter.RoundDate(fromDate, dateFilterType);
        var to := AlbumFilter.RoundDate(toDate, dateFilterType);
        if dateBetween {
          if Dates.Before(checkDate, from) || Dates.Before(to, checkDate) {
            return false;
          }
        } else if checkDate != from {
          return false;
        }
      }
      if hideTagged && Truthy(row.tagged) {
        return false;
      }
      for c := 0 to |row.cells|
        invariant forall j | 0 <= j < c :: !(row.cells[j].filter && found(pattern, AlbumFilter.CellString(row.cells[j].value)))
      {
        if !row.cells[c].filter {
          continue;
        }
        if found(pattern, AlbumFilter.CellString(row.cells[c].value)) {
          return true;
        }
      }
      return false;
    }

    /**
     * Against the later proxy: with its date test on, no tag tree, the same
     * settings, and a query that is the single term `pattern`, the two
     * decide every row alike.
     */
    lemma AgreesWithLaterProxy(later: AlbumFilter.SortFilter, row: AlbumFilter.Row, query: string, pattern: string,
                               checked: AlbumFilter.Checked, found: AlbumFilter.Finder)
      requires later.dateFilter && !later.hasFilterList
      requires later.fromDate == fromDate && later.toDate == toDate && later.dateBetween == dateBetween
      requires later.dateFilterType == dateFilterType && later.hideTagged == hideTagged
      requires AlbumFilter.UnquoteAll(AlbumFilter.Terms(query)) == [pattern]
      ensures later.Verdict(row, query, checked, found) == Ok(Verdict(row, pattern, found))
    {
      assert AlbumFilter.Terms(query) + [] == AlbumFilter.Terms(query);
      assert AlbumFilter.Patterns(query, false, checked) == [pattern];
    }

    /**
     * Without a filtered column the legacy proxy hides every row, where the
     * later one, given an empty query and no tag tree, shows a row that
     * passes its date and hide-tagged tests.
     */
    lemma NoFilterColumnHidesAll(later: AlbumFilter.SortFilter, row: AlbumFilter.Row, pattern: string,
                                 checked: AlbumFilter.Checked, found: AlbumFilter.Finder)
      requires forall c | 0 <= c < |row.cells| :: !row.cells[c].filter
      requires !later.hasFilterList
      requires AlbumFilter.DatePasses(row.date, later.dateFilter, later.dateBetween, later.dateFilterType, later.fromDate, later.toDate)
      requires !(later.hideTagged && Truthy(row.tagged))
      ensures !Verdict(row, pattern, found)
      ensures later.Verdict(row, "", checked, found) == Ok(true)
    {
      assert AlbumFilter.Patterns("", false, checked) == [];
    }
  }
}
