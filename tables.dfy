// The tables of the photo database file, as relations. SQLite itself is not
// modelled: a table is a sequence or a map of rows. Row ids are
// AUTOINCREMENT keys, as File's is: each table keeps the largest id it has
// handed out, and a new row takes the next one. The uniqueness rule of the
// Tags table is declared by the schema, which is not part of this model, so
// it is a parameter `same`: a row of a field holding `a` refuses a new value
// `b` for that field when `same(a, b)`.

module Tables {
  import opened Outcomes
  import opened FieldObjects
  import Text

  // ------------------------------------------------------------------ rows

  /** A row of Fields: its FieldId and the field properties in its columns. */
  datatype FieldRow = FieldRow(id: int, props: Props)

  /** A row of Tags: the FieldId it belongs to and its text. */
  datatype TagRow = TagRow(fieldId: int, value: string)

  /**
   * The tables the photo organiser writes: Fields in row order with the last
   * FieldId handed out, Tags by TagId with the last TagId handed out, the
   * (FilId, TagId) pairs of TagMap, and the Tagged column of File by FilId.
   */
  datatype Store = Store(
    fields: seq<FieldRow>,
    fieldSeq: nat,
    tags: map<int, TagRow>,
    tagSeq: nat,
    tagMap: set<(int, int)>,
    files: map<int, int>)

  /** Every FieldId in use was handed out, and no two rows share one. */
  ghost predicate FieldsBelow(rows: seq<FieldRow>, fieldSeq: nat) {
    DistinctIds(rows) && forall k | 0 <= k < |rows| :: 1 <= rows[k].id <= fieldSeq
  }

  /** Every TagId in use was handed out. */
  ghost predicate TagsBelow(tags: map<int, TagRow>, tagSeq: nat) {
    forall id | id in tags :: 1 <= id <= tagSeq
  }

  ghost predicate Valid(s: Store) {
    FieldsBelow(s.fields, s.fieldSeq) && TagsBelow(s.tags, s.tagSeq)
  }

  /** Every tag mapping names a tag and a file that exist. */
  ghost predicate Linked(s: Store) {
    forall p | p in s.tagMap :: p.1 in s.tags && p.0 in s.files
  }

  // ---------------------------------------------------------------- Fields

  predicate DistinctIds(rows: seq<FieldRow>) {
    forall i, j | 0 <= i < j < |rows| :: rows[i].id != rows[j].id
  }

  /** A row of the TagFields view (the Fields rows flagged as tag fields) with this name. */
  predicate IsTagField(row: FieldRow, name: string) {
    row.props.tags && row.props.name == name
  }

  /**
   * `SELECT FieldId FROM TagFields WHERE Name == ?` read with `fetchone`,
   * scanning from row `i`: the id of the first tag field with the name.
   */
  function TagFieldFrom(rows: seq<FieldRow>, name: string, i: nat): (r: Option<int>)
    requires i <= |rows|
    ensures r.None? <==> forall k | i <= k < |rows| :: !IsTagField(rows[k], name)
    ensures r.Some? ==> exists k | i <= k < |rows| ::
      IsTagField(rows[k], name) && rows[k].id == r.value && forall j | i <= j < k :: !IsTagField(rows[j], name)
    decreases |rows| - i
  {
    if i == |rows| then None
    else if IsTagField(rows[i], name) then Some(rows[i].id)
    else TagFieldFrom(rows, name, i + 1)
  }

  function TagFieldId(rows: seq<FieldRow>, name: string): Option<int> {
    TagFieldFrom(rows, name, 0)
  }

  /**
   * `dict(SELECT Name, FieldId FROM TagFields ...)[name]`: the rows come in
   * table order and the dictionary keeps the last id under each name.
   */
  function LastTagField(rows: seq<FieldRow>, name: string): (r: Option<int>)
    ensures r.None? <==> forall k | 0 <= k < |rows| :: !IsTagField(rows[k], name)
    ensures r.Some? ==> exists k | 0 <= k < |rows| :: IsTagField(rows[k], name) && rows[k].id == r.value
  {
    if |rows| == 0 then None
    else if IsTagField(rows[|rows| - 1], name) then Some(rows[|rows| - 1].id)
    else
      assert forall k | 0 <= k < |rows| - 1 :: rows[k] == rows[..|rows| - 1][k];
      LastTagField(rows[..|rows| - 1], name)
  }

  /** Fields rows with the last FieldId handed out. */
  datatype FieldTable = FieldTable(rows: seq<FieldRow>, fieldSeq: nat)

  /** `executemany('INSERT INTO Fields ...', ps)`: each property list becomes a row under the next FieldId. */
  function AddFieldRows(rows: seq<FieldRow>, fieldSeq: nat, ps: seq<Props>): (r: FieldTable)
    ensures |r.rows| == |rows| + |ps| && r.rows[..|rows|] == rows
    ensures forall k | 0 <= k < |ps| :: r.rows[|rows| + k] == FieldRow(fieldSeq + k + 1, ps[k])
    ensures r.fieldSeq == fieldSeq + |ps|
  {
    if |ps| == 0 then FieldTable(rows, fieldSeq)
    else
      var prev := AddFieldRows(rows, fieldSeq, ps[..|ps| - 1]);
      var r := prev.rows + [FieldRow(prev.fieldSeq + 1, ps[|ps| - 1])];
      assert r[..|rows|] == prev.rows[..|rows|];
      assert forall k | 0 <= k < |ps| - 1 :: r[|rows| + k] == prev.rows[|rows| + k] && ps[k] == ps[..|ps| - 1][k];
      FieldTable(r, prev.fieldSeq + 1)
  }

  /** New rows keep the ids in use distinct and handed out. */
  lemma AddFieldRowsBelow(rows: seq<FieldRow>, fieldSeq: nat, ps: seq<Props>)
    requires FieldsBelow(rows, fieldSeq)
    ensures var r := AddFieldRows(rows, fieldSeq, ps); FieldsBelow(r.rows, r.fieldSeq)
  {
    var r := AddFieldRows(rows, fieldSeq, ps);
    forall i, j | 0 <= i < j < |r.rows|
      ensures r.rows[i].id != r.rows[j].id
    {
      if j < |rows| {
        assert r.rows[i] == rows[i] && r.rows[j] == rows[j];
      } else if i < |rows| {
        assert r.rows[i] == rows[i];
      }
    }
    forall k | 0 <= k < |r.rows|
      ensures 1 <= r.rows[k].id <= r.fieldSeq
    {
      if k < |rows| {
        assert r.rows[k] == rows[k];
      } else {
        var j := k - |rows|;
        assert 0 <= j < |ps| && r.rows[|rows| + j] == FieldRow(fieldSeq + j + 1, ps[j]);
      }
    }
  }

  /** `UPDATE Fields SET ... WHERE Name=?` with the properties `p`: every row carrying `p`'s name gets `p`. */
  function UpdateFieldRows(rows: seq<FieldRow>, p: Props): (r: seq<FieldRow>)
    ensures |r| == |rows|
    ensures forall k | 0 <= k < |rows| ::
      r[k] == if rows[k].props.name == p.name then FieldRow(rows[k].id, p) else rows[k]
  {
    seq(|rows|, k requires 0 <= k < |rows| =>
      if rows[k].props.name == p.name then FieldRow(rows[k].id, p) else rows[k])
  }

  /** The last properties in `ps` carrying this name. */
  function LastNamed(ps: seq<Props>, name: string): (r: Option<Props>)
    ensures r.None? <==> forall k | 0 <= k < |ps| :: ps[k].name != name
    ensures r.Some? ==> r.value in ps && r.value.name == name
  {
    if |ps| == 0 then None
    else if ps[|ps| - 1].name == name then Some(ps[|ps| - 1])
    else LastNamed(ps[..|ps| - 1], name)
  }

  /**
   * `executemany(u, ucommands)`: the updates run in order, so each row ends
   * with the last properties given under its name; ids and names stay.
   */
  function UpdateAllRows(rows: seq<FieldRow>, ps: seq<Props>): (r: seq<FieldRow>)
    ensures |r| == |rows|
    ensures forall k | 0 <= k < |rows| :: r[k].id == rows[k].id && r[k].props.name == rows[k].props.name
    ensures forall k | 0 <= k < |rows| ::
      r[k].props == match LastNamed(ps, rows[k].props.name) case Some(p) => p case None => rows[k].props
  {
    if |ps| == 0 then rows
    else UpdateFieldRows(UpdateAllRows(rows, ps[..|ps| - 1]), ps[|ps| - 1])
  }

  /** `DELETE FROM Fields WHERE Name = ?` for each of `names`. */
  function DropNamed(rows: seq<FieldRow>, names: seq<string>): (r: seq<FieldRow>)
    ensures forall x | x in r :: x in rows && x.props.name !in names
    ensures forall x | x in rows && x.props.name !in names :: x in r
    ensures DistinctIds(rows) ==> DistinctIds(r)
  {
    if |rows| == 0 then []
    else
      var rest := DropNamed(rows[1..], names);
      if rows[0].props.name in names then rest
      else
        assert rows[0] !in rest ==> true;
        assert DistinctIds(rows) ==> forall x | x in rows[1..] :: x.id != rows[0].id by {
          if DistinctIds(rows) {
            forall x | x in rows[1..] ensures x.id != rows[0].id {
              var k :| 0 <= k < |rows[1..]| && rows[1..][k] == x;
              assert rows[k + 1] == x;
            }
          }
        }
        [rows[0]] + rest
  }

  function RowNames(rows: seq<FieldRow>): (r: seq<string>)
    ensures |r| == |rows| && forall k | 0 <= k < |rows| :: r[k] == rows[k].props.name
  {
    seq(|rows|, k requires 0 <= k < |rows| => rows[k].props.name)
  }

  function PropNames(ps: seq<Props>): (r: seq<string>)
    ensures |r| == |ps| && forall k | 0 <= k < |ps| :: r[k] == ps[k].name
  {
    seq(|ps|, k requires 0 <= k < |ps| => ps[k].name)
  }

  /** The properties among `ps` whose name is (`known`) or is not (`!known`) among `names`, in order. */
  function SplitKnown(ps: seq<Props>, names: seq<string>, known: bool): (r: seq<Props>)
    ensures forall p | p in r :: p in ps && (p.name in names <==> known)
    ensures forall p | p in ps && (p.name in names <==> known) :: p in r
  {
    if |ps| == 0 then []
    else
      var rest := SplitKnown(ps[..|ps| - 1], names, known);
      assert ps == ps[..|ps| - 1] + [ps[|ps| - 1]];
      if (ps[|ps| - 1].name in names) == known then rest + [ps[|ps| - 1]] else rest
  }

  /** The names among `db` that are not among `names`, in order. */
  function Missing(db: seq<string>, names: seq<string>): (r: seq<string>)
    ensures forall n :: n in r <==> n in db && n !in names
  {
    if |db| == 0 then []
    else
      var rest := Missing(db[..|db| - 1], names);
      assert db == db[..|db| - 1] + [db[|db| - 1]];
      if db[|db| - 1] in names then rest else rest + [db[|db| - 1]]
  }

  /**
   * What `setFields` leaves in Fields: properties whose name has no row are
   * inserted, the rows whose name is given are updated, and the rows whose
   * name was present before and is not given are deleted.
   */
  function SetFieldRows(rows: seq<FieldRow>, fieldSeq: nat, ps: seq<Props>): FieldTable {
    var db := RowNames(rows);
    var added := AddFieldRows(rows, fieldSeq, SplitKnown(ps, db, false));
    var updated := UpdateAllRows(added.rows, SplitKnown(ps, db, true));
    FieldTable(DropNamed(updated, Missing(db, PropNames(ps))), added.fieldSeq)
  }

  /** `setFields` keeps the FieldIds in use distinct and handed out. */
  lemma SetFieldRowsBelow(rows: seq<FieldRow>, fieldSeq: nat, ps: seq<Props>)
    requires FieldsBelow(rows, fieldSeq)
    ensures var t := SetFieldRows(rows, fieldSeq, ps); FieldsBelow(t.rows, t.fieldSeq)
  {
    var db := RowNames(rows);
    var added := AddFieldRows(rows, fieldSeq, SplitKnown(ps, db, false));
    AddFieldRowsBelow(rows, fieldSeq, SplitKnown(ps, db, false));
    UpdateAllRowsBelow(added.rows, added.fieldSeq, SplitKnown(ps, db, true));
    DropNamedBelow(UpdateAllRows(added.rows, SplitKnown(ps, db, true)), added.fieldSeq, Missing(db, PropNames(ps)));
  }

  lemma UpdateAllRowsBelow(rows: seq<FieldRow>, fieldSeq: nat, ps: seq<Props>)
    requires FieldsBelow(rows, fieldSeq)
    ensures FieldsBelow(UpdateAllRows(rows, ps), fieldSeq)
  {
    var updated := UpdateAllRows(rows, ps);
    assert forall k | 0 <= k < |updated| :: updated[k].id == rows[k].id;
  }

  lemma DropNamedBelow(rows: seq<FieldRow>, fieldSeq: nat, names: seq<string>)
    requires FieldsBelow(rows, fieldSeq)
    ensures FieldsBelow(DropNamed(rows, names), fieldSeq)
  {
    var r := DropNamed(rows, names);
    forall k | 0 <= k < |r|
      ensures 1 <= r[k].id <= fieldSeq
    {
      assert r[k] in r;
      var j :| 0 <= j < |rows| && rows[j] == r[k];
    }
  }

  /** After `setFields`, every name in Fields is one of the given names. */
  lemma SetFieldRowsOnlyGiven(rows: seq<FieldRow>, fieldSeq: nat, ps: seq<Props>)
    ensures forall x | x in SetFieldRows(rows, fieldSeq, ps).rows :: x.props.name in PropNames(ps)
  {
    var db := RowNames(rows);
    var unknown := SplitKnown(ps, db, false);
    var added := AddFieldRows(rows, fieldSeq, unknown).rows;
    var updated := UpdateAllRows(added, SplitKnown(ps, db, true));
    var gone := Missing(db, PropNames(ps));
    forall x | x in DropNamed(updated, gone)
      ensures x.props.name in PropNames(ps)
    {
      UpdatedNameKnownOrGiven(rows, fieldSeq, ps, x);
    }
  }

  /** A row after the inserts and updates of `setFields` has an old name or a given one. */
  lemma UpdatedNameKnownOrGiven(rows: seq<FieldRow>, fieldSeq: nat, ps: seq<Props>, x: FieldRow)
    requires x in UpdateAllRows(AddFieldRows(rows, fieldSeq, SplitKnown(ps, RowNames(rows), false)).rows, SplitKnown(ps, RowNames(rows), true))
    ensures x.props.name in RowNames(rows) || x.props.name in PropNames(ps)
  {
    var db := RowNames(rows);
    var unknown := SplitKnown(ps, db, false);
    var added := AddFieldRows(rows, fieldSeq, unknown).rows;
    var updated := UpdateAllRows(added, SplitKnown(ps, db, true));
    var k :| 0 <= k < |updated| && updated[k] == x;
    assert x.props.name == added[k].props.name;
    if k < |rows| {
      assert added[k] == rows[k];
      assert db[k] == x.props.name;
    } else {
      assert added[k].props == unknown[k - |rows|];
      assert unknown[k - |rows|] in ps;
      var j :| 0 <= j < |ps| && ps[j] == unknown[k - |rows|];
      assert PropNames(ps)[j] == x.props.name;
    }
  }

  /** After `setFields`, every given name is in Fields. */
  lemma SetFieldRowsAllGiven(rows: seq<FieldRow>, fieldSeq: nat, ps: seq<Props>)
    ensures forall k | 0 <= k < |ps| :: exists x | x in SetFieldRows(rows, fieldSeq, ps).rows :: x.props.name == ps[k].name
  {
    var r := SetFieldRows(rows, fieldSeq, ps).rows;
    forall k | 0 <= k < |ps|
      ensures exists x | x in r :: x.props.name == ps[k].name
    {
      if ps[k].name in RowNames(rows) {
        SetFieldRowsHasKnown(rows, fieldSeq, ps, k);
      } else {
        SetFieldRowsHasNew(rows, fieldSeq, ps, k);
      }
    }
  }

  lemma SetFieldRowsHasKnown(rows: seq<FieldRow>, fieldSeq: nat, ps: seq<Props>, k: nat)
    requires k < |ps| && ps[k].name in RowNames(rows)
    ensures exists x | x in SetFieldRows(rows, fieldSeq, ps).rows :: x.props.name == ps[k].name
  {
    var db := RowNames(rows);
    var added := AddFieldRows(rows, fieldSeq, SplitKnown(ps, db, false)).rows;
    var updated := UpdateAllRows(added, SplitKnown(ps, db, true));
    var gone := Missing(db, PropNames(ps));
    var j :| 0 <= j < |db| && db[j] == ps[k].name;
    assert added[j] == rows[j];
    assert ps[k].name in PropNames(ps);
    assert updated[j] in DropNamed(updated, gone);
  }

  lemma SetFieldRowsHasNew(rows: seq<FieldRow>, fieldSeq: nat, ps: seq<Props>, k: nat)
    requires k < |ps| && ps[k].name !in RowNames(rows)
    ensures exists x | x in SetFieldRows(rows, fieldSeq, ps).rows :: x.props.name == ps[k].name
  {
    var db := RowNames(rows);
    var unknown := SplitKnown(ps, db, false);
    var added := AddFieldRows(rows, fieldSeq, unknown).rows;
    var updated := UpdateAllRows(added, SplitKnown(ps, db, true));
    var gone := Missing(db, PropNames(ps));
    assert ps[k] in unknown;
    var j :| 0 <= j < |unknown| && unknown[j] == ps[k];
    assert added[|rows| + j].props == ps[k];
    assert updated[|rows| + j] in DropNamed(updated, gone);
  }

  /**
   * After `setFields`, a row whose name is given keeps its FieldId, so the
   * tags that refer to it stay attached, and it carries the last properties
   * given under its name.
   */
  lemma SetFieldRowsKeepsIds(rows: seq<FieldRow>, fieldSeq: nat, ps: seq<Props>, k: nat)
    requires k < |rows| && rows[k].props.name in PropNames(ps)
    ensures exists x | x in SetFieldRows(rows, fieldSeq, ps).rows ::
      x.id == rows[k].id && Some(x.props) == LastNamed(ps, rows[k].props.name)
  {
    var db := RowNames(rows);
    var unknown := SplitKnown(ps, db, false);
    var added := AddFieldRows(rows, fieldSeq, unknown).rows;
    var known := SplitKnown(ps, db, true);
    var updated := UpdateAllRows(added, known);
    var n := rows[k].props.name;
    assert added[k] == rows[k];
    assert n in db;
    assert updated[k] in SetFieldRows(rows, fieldSeq, ps).rows;
    LastNamedKnown(ps, db, n);
  }

  /** For a name that has a row, the last known properties under it are its last given ones. */
  lemma {:induction false} LastNamedKnown(ps: seq<Props>, db: seq<string>, n: string)
    requires n in db && n in PropNames(ps)
    ensures LastNamed(SplitKnown(ps, db, true), n) == LastNamed(ps, n) && LastNamed(ps, n).Some?
  {
    var i := |ps| - 1;
    var init := ps[..i];
    SplitKnownLast(ps, db, true);
    if ps[i].name == n {
      assert ps[i] in ps;
    } else {
      assert n in PropNames(init) by {
        var j :| 0 <= j < |ps| && ps[j].name == n;
        assert j < i && init[j] == ps[j];
      }
      LastNamedKnown(init, db, n);
      if ps[i].name in db {
        LastNamedAppend(SplitKnown(init, db, true), ps[i], n);
      }
    }
  }

  lemma SplitKnownLast(ps: seq<Props>, db: seq<string>, known: bool)
    requires |ps| > 0
    ensures var last := ps[|ps| - 1];
      SplitKnown(ps, db, known) == SplitKnown(ps[..|ps| - 1], db, known) + (if (last.name in db) == known then [last] else [])
  {
  }

  lemma LastNamedAppend(ps: seq<Props>, p: Props, n: string)
    ensures LastNamed(ps + [p], n) == if p.name == n then Some(p) else LastNamed(ps, n)
  {
    assert (ps + [p])[..|ps|] == ps;
  }

  // ------------------------------------------------------------------ Tags

  /** Whether the uniqueness rule refuses `value` for field `fieldId`: a row of that field holds a value it counts as the same. */
  predicate Refused(tags: map<int, TagRow>, same: (string, string) -> bool, fieldId: int, value: string) {
    exists id | id in tags :: tags[id].fieldId == fieldId && same(tags[id].value, value)
  }

  /** Field `fieldId` has a row holding `value`, or one that counts as the same tag. */
  ghost predicate Present(tags: map<int, TagRow>, same: (string, string) -> bool, fieldId: int, value: string) {
    exists id | id in tags :: tags[id].fieldId == fieldId && (tags[id].value == value || same(tags[id].value, value))
  }

  /** The rows, the last TagId handed out, and the ids of the inserted rows after a run of `insertTags`. */
  datatype Inserted = Inserted(tags: map<int, TagRow>, tagSeq: nat, ids: seq<int>)

  /**
   * `insertTags` over a list of (FieldId, value) pairs: each pair the
   * uniqueness rule accepts becomes a row under the next row id, and its id
   * is recorded; a refused pair is skipped. The rows already there stay.
   */
  function InsertAll(tags: map<int, TagRow>, tagSeq: nat, same: (string, string) -> bool, ps: seq<(int, string)>): (r: Inserted)
    requires TagsBelow(tags, tagSeq)
    ensures TagsBelow(r.tags, r.tagSeq) && r.tagSeq == tagSeq + |r.ids|
    ensures forall id | id in tags :: id in r.tags && r.tags[id] == tags[id]
    ensures forall id :: id in r.tags && id !in tags <==> id in r.ids
    ensures forall k | 0 <= k < |r.ids| :: r.ids[k] == tagSeq + k + 1
  {
    if |ps| == 0 then Inserted(tags, tagSeq, [])
    else
      InsertStep(InsertAll(tags, tagSeq, same, ps[..|ps| - 1]), same, ps[|ps| - 1].0, ps[|ps| - 1].1)
  }

  /** One pair of `insertTags`: skipped when refused, otherwise a row under the next TagId. */
  function InsertStep(prev: Inserted, same: (string, string) -> bool, f: int, v: string): (r: Inserted)
    ensures Refused(prev.tags, same, f, v) ==> r == prev
    ensures !Refused(prev.tags, same, f, v) ==>
      r.tags == prev.tags[prev.tagSeq + 1 := TagRow(f, v)] && r.tagSeq == prev.tagSeq + 1 && r.ids == prev.ids + [prev.tagSeq + 1]
  {
    if Refused(prev.tags, same, f, v) then prev
    else Inserted(prev.tags[prev.tagSeq + 1 := TagRow(f, v)], prev.tagSeq + 1, prev.ids + [prev.tagSeq + 1])
  }

  /** One more pair is one more step. */
  lemma InsertAllLast(tags: map<int, TagRow>, tagSeq: nat, same: (string, string) -> bool, ps: seq<(int, string)>)
    requires TagsBelow(tags, tagSeq) && |ps| > 0
    ensures InsertAll(tags, tagSeq, same, ps) == InsertStep(InsertAll(tags, tagSeq, same, ps[..|ps| - 1]), same, ps[|ps| - 1].0, ps[|ps| - 1].1)
  {
  }

  /**
   * Inserting a single tag: a row comes back, under the next TagId and
   * holding the tag, exactly when the uniqueness rule does not refuse it;
   * otherwise nothing changes.
   */
  lemma InsertOne(tags: map<int, TagRow>, tagSeq: nat, same: (string, string) -> bool, fieldId: int, value: string)
    requires TagsBelow(tags, tagSeq)
    ensures var r := InsertAll(tags, tagSeq, same, [(fieldId, value)]);
      (Refused(tags, same, fieldId, value) ==> r == Inserted(tags, tagSeq, []))
      && (!Refused(tags, same, fieldId, value) ==>
            r.ids == [tagSeq + 1] && r.tags == tags[tagSeq + 1 := TagRow(fieldId, value)])
  {
    var ps := [(fieldId, value)];
    assert ps[..0] == [];
    assert InsertAll(tags, tagSeq, same, []) == Inserted(tags, tagSeq, []);
    InsertAllLast(tags, tagSeq, same, ps);
  }

  /** The ids come back in increasing order, and each new row holds one of the given pairs. */
  lemma {:induction false} InsertAllIds(tags: map<int, TagRow>, tagSeq: nat, same: (string, string) -> bool, ps: seq<(int, string)>)
    requires TagsBelow(tags, tagSeq)
    ensures var r := InsertAll(tags, tagSeq, same, ps);
      |r.ids| <= |ps| && forall id | id in r.ids :: (r.tags[id].fieldId, r.tags[id].value) in ps
  {
    if |ps| > 0 {
      var init := ps[..|ps| - 1];
      InsertAllIds(tags, tagSeq, same, init);
      var prev := InsertAll(tags, tagSeq, same, init);
      var (f, v) := ps[|ps| - 1];
      assert forall x | x in init :: x in ps;
      if !Refused(prev.tags, same, f, v) {
        var id := prev.tagSeq + 1;
        var r := InsertAll(tags, tagSeq, same, ps);
        assert r == Inserted(prev.tags[id := TagRow(f, v)], id, prev.ids + [id]);
        assert (f, v) in ps;
        forall x | x in r.ids
          ensures (r.tags[x].fieldId, r.tags[x].value) in ps
        {
          if x != id {
            assert x in prev.ids && r.tags[x] == prev.tags[x];
          }
        }
      }
    }
  }

  /** After `insertTags`, each given pair is in its field, or a row the uniqueness rule counts as the same is. */
  lemma {:induction false} InsertAllPresent(tags: map<int, TagRow>, tagSeq: nat, same: (string, string) -> bool, ps: seq<(int, string)>)
    requires TagsBelow(tags, tagSeq)
    ensures forall k | 0 <= k < |ps| :: Present(InsertAll(tags, tagSeq, same, ps).tags, same, ps[k].0, ps[k].1)
  {
    if |ps| > 0 {
      var init := ps[..|ps| - 1];
      InsertAllPresent(tags, tagSeq, same, init);
      var prev := InsertAll(tags, tagSeq, same, init);
      var last := ps[|ps| - 1];
      InsertAllLast(tags, tagSeq, same, ps);
      forall k | 0 <= k < |ps| - 1
        ensures Present(InsertStep(prev, same, last.0, last.1).tags, same, ps[k].0, ps[k].1)
      {
        assert ps[k] == init[k];
        StepKeepsPresent(prev, same, last.0, last.1, ps[k].0, ps[k].1);
      }
      StepPresent(prev, same, last.0, last.1);
    }
  }

  lemma StepKeepsPresent(prev: Inserted, same: (string, string) -> bool, f: int, v: string, g: int, w: string)
    requires TagsBelow(prev.tags, prev.tagSeq) && Present(prev.tags, same, g, w)
    ensures Present(InsertStep(prev, same, f, v).tags, same, g, w)
  {
    var next := InsertStep(prev, same, f, v).tags;
    var id :| id in prev.tags && prev.tags[id].fieldId == g && (prev.tags[id].value == w || same(prev.tags[id].value, w));
    assert id in next && next[id] == prev.tags[id];
  }

  lemma StepPresent(prev: Inserted, same: (string, string) -> bool, f: int, v: string)
    ensures Present(InsertStep(prev, same, f, v).tags, same, f, v)
  {
    if !Refused(prev.tags, same, f, v) {
      var id := prev.tagSeq + 1;
      assert id in InsertStep(prev, same, f, v).tags;
    }
  }

  /** A tag stays present when rows are only added. */
  lemma PresentKept(a: map<int, TagRow>, b: map<int, TagRow>, same: (string, string) -> bool, f: int, v: string)
    requires forall id | id in a :: id in b && b[id] == a[id]
    requires Present(a, same, f, v)
    ensures Present(b, same, f, v)
  {
    var w :| w in a && a[w].fieldId == f && (a[w].value == v || same(a[w].value, v));
    assert b[w] == a[w];
  }

  /**
   * `UPDATE Tags SET Value = ? WHERE TagId == ?`: refused when another row of
   * the same field holds a value the uniqueness rule counts as the same.
   */
  predicate RenameRefused(tags: map<int, TagRow>, same: (string, string) -> bool, tagId: int, value: string)
    requires tagId in tags
  {
    exists id | id in tags && id != tagId :: tags[id].fieldId == tags[tagId].fieldId && same(tags[id].value, value)
  }

  /** Row `id` is a tag of field `catId` whose lower-cased text is `low`. */
  predicate IsLow(tags: map<int, TagRow>, catId: int, low: string, id: int) {
    id in tags && tags[id].fieldId == catId && Text.Lower(tags[id].value) == low
  }

  /**
   * `{(k[0], k[2].lower()): k[1] for k in alltags}[(catId, low)]`: the rows
   * are read in TagId order and the last one wins, so this is the largest
   * matching TagId, searched for downwards from `n`, the last TagId handed
   * out; None where the dictionary raises KeyError.
   */
  function TagIdFor(tags: map<int, TagRow>, catId: int, low: string, n: nat): (r: Option<int>)
    ensures r.None? <==> forall id | 1 <= id <= n :: !IsLow(tags, catId, low, id)
    ensures r.Some? ==> 1 <= r.value <= n && IsLow(tags, catId, low, r.value)
    ensures r.Some? ==> forall id | r.value < id <= n :: !IsLow(tags, catId, low, id)
  {
    if n == 0 then None
    else if IsLow(tags, catId, low, n) then Some(n)
    else TagIdFor(tags, catId, low, n - 1)
  }

  /** The lower-cased texts of field `catId`: the keys of `existing` in `updateAlbum`. */
  function LowValues(tags: map<int, TagRow>, catId: int): set<string> {
    set id | id in tags && tags[id].fieldId == catId :: Text.Lower(tags[id].value)
  }

  // ---------------------------------------------------------------- TagMap

  /** `DELETE FROM TagMap WHERE FilId == ?`. */
  function DropFileMaps(tagMap: set<(int, int)>, fileId: int): (r: set<(int, int)>)
    ensures forall p :: p in r <==> p in tagMap && p.0 != fileId
  {
    set p | p in tagMap && p.0 != fileId
  }

  /**
   * The mapping delete of `updateAlbum`: the mappings of file `fileId` to a
   * tag of field `catId` whose lower-cased text is not among `keep` go. A
   * mapping whose tag row is missing is kept, as the subquery yields NULL.
   */
  function DropUnkept(tagMap: set<(int, int)>, tags: map<int, TagRow>, fileId: int, catId: int, keep: seq<string>): (r: set<(int, int)>)
    ensures forall p :: p in r <==> p in tagMap && !Unkept(tags, fileId, catId, keep, p)
  {
    set p | p in tagMap && !Unkept(tags, fileId, catId, keep, p)
  }

  predicate Unkept(tags: map<int, TagRow>, fileId: int, catId: int, keep: seq<string>, p: (int, int)) {
    p.0 == fileId && p.1 in tags && tags[p.1].fieldId == catId && Text.Lower(tags[p.1].value) !in keep
  }

  /**
   * `dropField` on the tag field `catId` named `name`: the mappings to the
   * field's tags, then its tags, then every Fields row with the name.
   */
  function DropFieldRows(s: Store, catId: int, name: string): (r: Store)
    ensures forall p :: p in r.tagMap <==> p in s.tagMap && !(p.1 in s.tags && s.tags[p.1].fieldId == catId)
    ensures forall id :: id in r.tags <==> id in s.tags && s.tags[id].fieldId != catId
    ensures forall id | id in r.tags :: r.tags[id] == s.tags[id]
    ensures r.fields == DropNamed(s.fields, [name]) && r.files == s.files
  {
    var tm := set p | p in s.tagMap && !(p.1 in s.tags && s.tags[p.1].fieldId == catId);
    var tg := map id | id in s.tags && s.tags[id].fieldId != catId :: s.tags[id];
    s.(fields := DropNamed(s.fields, [name]), tags := tg, tagMap := tm)
  }

  /** Dropping a field leaves no tag of it, no row with its name, and every mapping still names a tag and a file. */
  lemma DropFieldRowsLinked(s: Store, catId: int, name: string)
    requires Linked(s)
    ensures Linked(DropFieldRows(s, catId, name))
    ensures forall id | id in DropFieldRows(s, catId, name).tags :: DropFieldRows(s, catId, name).tags[id].fieldId != catId
    ensures forall x | x in DropFieldRows(s, catId, name).fields :: x.props.name != name
  {
  }

  /** `deleteFile`'s two deletes: the file's mappings, then its File row. */
  function DeleteFileRows(s: Store, fileId: int): (r: Store)
    ensures r.files == s.files - {fileId} && r.tags == s.tags && r.fields == s.fields
    ensures forall p :: p in r.tagMap <==> p in s.tagMap && p.0 != fileId
  {
    s.(tagMap := DropFileMaps(s.tagMap, fileId), files := s.files - {fileId})
  }

  /** Deleting a file keeps every mapping pointing at a tag and a file. */
  lemma DeleteFileRowsLinked(s: Store, fileId: int)
    requires Linked(s)
    ensures Linked(DeleteFileRows(s, fileId))
    ensures forall p | p in DeleteFileRows(s, fileId).tagMap :: p.0 != fileId
  {
  }

  // ------------------------------------------------------------ File.Tagged

  /** `zip(a, b)`. */
  function Zip<A, B>(a: seq<A>, b: seq<B>): (r: seq<(A, B)>)
    ensures |r| == if |a| < |b| then |a| else |b|
    ensures forall k | 0 <= k < |r| :: r[k] == (a[k], b[k])
  {
    if |a| == 0 || |b| == 0 then [] else [(a[0], b[0])] + Zip(a[1..], b[1..])
  }

  /** The flag of the last pair naming `fileId`. */
  function LastFlag(pairs: seq<(int, int)>, fileId: int): (r: Option<int>)
    ensures r.None? <==> forall k | 0 <= k < |pairs| :: pairs[k].1 != fileId
    ensures r.Some? ==> exists k | 0 <= k < |pairs| :: pairs[k] == (r.value, fileId)
  {
    if |pairs| == 0 then None
    else if pairs[|pairs| - 1].1 == fileId then Some(pairs[|pairs| - 1].0)
    else
      assert forall k | 0 <= k < |pairs| - 1 :: pairs[k] == pairs[..|pairs| - 1][k];
      LastFlag(pairs[..|pairs| - 1], fileId)
  }

  /** How many pairs name an existing file. */
  function Matched(files: map<int, int>, pairs: seq<(int, int)>): nat {
    if |pairs| == 0 then 0
    else Matched(files, pairs[..|pairs| - 1]) + (if pairs[|pairs| - 1].1 in files then 1 else 0)
  }

  datatype Flags = Flags(files: map<int, int>, rowcount: nat)

  /**
   * `executemany('UPDATE File SET Tagged = ? WHERE FilId == ?', pairs)` over
   * (flag, FilId) pairs: each file ends with the flag of the last pair naming
   * it, the other files keep theirs, no file appears or goes, and the
   * rowcount is the number of pairs that named a file.
   */
  function SetTagged(files: map<int, int>, pairs: seq<(int, int)>): (r: Flags)
    ensures r.files.Keys == files.Keys
    ensures forall id | id in files :: r.files[id] == (if LastFlag(pairs, id).Some? then LastFlag(pairs, id).value else files[id])
    ensures r.rowcount == Matched(files, pairs)
  {
    if |pairs| == 0 then Flags(files, 0)
    else
      var prev := SetTagged(files, pairs[..|pairs| - 1]);
      var (v, id) := pairs[|pairs| - 1];
      if id in prev.files then Flags(prev.files[id := v], prev.rowcount + 1) else prev
  }
}
