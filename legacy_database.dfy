// The photo database object of the first generation
// (datastore/database/database.py). Its queries are those of the later
// PhotoDatabase (module Database) but for three things: it keeps no album
// (`updateAlbum` is handed the photos), `dropField` takes a field name and
// touches no album, and the mapping delete of `updateAlbum` tests the
// tag's field inside the subquery, so that a cell cleared of every tag
// deletes the file's mappings in every field (see
// `LegacyClearedCellUnmapsFile`).
//
// As in module Database, each `with self.connect() as con:` block is one
// assignment to `store`, made on the paths where the block completes, and
// signals are not modelled.

module LegacyDatabase {
  import opened Outcomes
  import opened FieldObjects
  import opened PhotoObjects
  import opened Tables
  import opened TagSync
  import opened Database
  import Text
  import TagLists

  // ----------------------------------------------------- the mapping delete

  /**
   * `DELETE FROM TagMap WHERE FilId == ? AND (SELECT lower(Value) FROM Tags
   * AS t WHERE t.TagId == TagMap.TagId AND t.FieldId == ?) NOT IN (...)`:
   * the subquery yields NULL for a tag of another field (or a missing one),
   * and NULL is kept by `NOT IN` a non-empty list but not by `NOT IN ()`,
   * which holds for every left operand.
   */
  predicate LegacyUnkept(tags: map<int, TagRow>, fileId: int, catId: int, keep: seq<string>, p: (int, int)) {
    p.0 == fileId
    && (|keep| == 0 || (p.1 in tags && tags[p.1].fieldId == catId && Text.Lower(tags[p.1].value) !in keep))
  }

  function LegacyDropUnkept(tagMap: set<(int, int)>, tags: map<int, TagRow>, fileId: int, catId: int, keep: seq<string>): (r: set<(int, int)>)
    ensures forall p :: p in r <==> p in tagMap && !LegacyUnkept(tags, fileId, catId, keep, p)
  {
    set p | p in tagMap && !LegacyUnkept(tags, fileId, catId, keep, p)
  }

  /** The legacy prunes run one after another. */
  function LegacyDropAll(tagMap: set<(int, int)>, tags: map<int, TagRow>, dels: seq<DelMap>): (r: set<(int, int)>)
    ensures forall p :: p in r <==> p in tagMap && forall k | 0 <= k < |dels| :: !LegacyUnkept(tags, dels[k].fileId, dels[k].catId, dels[k].keep, p)
  {
    if |dels| == 0 then tagMap
    else
      var d := dels[|dels| - 1];
      var init := dels[..|dels| - 1];
      assert forall k | 0 <= k < |init| :: init[k] == dels[k];
      LegacyDropUnkept(LegacyDropAll(tagMap, tags, init), tags, d.fileId, d.catId, d.keep)
  }

  /** The writes of the legacy `updateAlbum`: those of `TagSync.Apply`, with the legacy prunes. */
  function LegacyApply(s: Store, same: (string, string) -> bool, plan: Plan): Outcome
    requires TagsBelow(s.tags, s.tagSeq)
  {
    var flags := SetTagged(s.files, Zip(plan.vals, plan.ids));
    var ins := InsertAll(s.tags, s.tagSeq, same, plan.inserts);
    var s1 := s.(files := flags.files, tags := ins.tags, tagSeq := ins.tagSeq);
    match Resolve(s1.tags, s1.tagSeq, plan.maps)
    case None => Outcome(Err(KeyError), s1)
    case Some(pairs) => Outcome(Ok(()), s1.(tagMap := LegacyDropAll(s1.tagMap + PairSet(pairs), s1.tags, plan.dels)))
  }

  /** `updateAlbum(album, fileIds, fieldnames)` on tables `s` and photos `es`. */
  function LegacyUpdateAlbumSpec(s: Store, same: (string, string) -> bool, es: seq<Photo>, fileIds: seq<int>, fieldnames: seq<string>): Outcome
    requires TagsBelow(s.tags, s.tagSeq)
    reads KeyObjs(es)
  {
    match FileIds(es)
    case Err(e) => Outcome(Err(e), s)
    case Ok(allFiles) =>
      match PlanFold(Ctx(es, allFiles, s.fields, s.tags), Cells(fileIds, fieldnames))
      case Err(e) => Outcome(Err(e), s)
      case Ok(plan) => LegacyApply(s, same, plan)
  }

  // ----------------------------------------------------------- the database

  class PhotoDatabase {
    /** The tables of the database file. */
    var store: Store
    /** The uniqueness rule of Tags, which counts two values of one field as the same tag. */
    const same: (string, string) -> bool

    constructor (store: Store, same: (string, string) -> bool)
      ensures this.store == store && this.same == same
    {
      this.store, this.same := store, same;
    }

    ghost predicate Valid()
      reads this
    {
      Tables.Valid(store)
    }

    /**
     * `dropField(name)`: nothing happens when no tag field has the name;
     * otherwise the mappings to the first such field's tags, its tags and
     * every Fields row with the name are deleted. No field is protected.
     */
    method DropField(name: string)
      requires Valid()
      modifies this`store
      ensures Valid()
      ensures TagFieldId(old(store.fields), name).None? ==> store == old(store)
      ensures TagFieldId(old(store.fields), name).Some? ==>
        store == DropFieldRows(old(store), TagFieldId(old(store.fields), name).value, name)
    {
      var catId := TagFieldId(store.fields, name);
      if catId.None? {
        return;
      }
      DropNamedBelow(store.fields, store.fieldSeq, [name]);
      store := DropFieldRows(store, catId.value, name);
    }

    /** `insertField(fieldobj)`: a Fields row with the field's properties under the next FieldId, which is returned. */
    method InsertField(fieldobj: FieldObject) returns (newId: int)
      requires Valid()
      modifies this`store
      ensures Valid()
      ensures store == old(store).(fields := old(store.fields) + [FieldRow(old(store.fieldSeq) + 1, old(fieldobj.PropsOf()))],
                                   fieldSeq := old(store.fieldSeq) + 1)
      ensures newId == store.fieldSeq
    {
      var props := fieldobj.PropsOf();
      var added := AddFieldRows(store.fields, store.fieldSeq, [props]);
      AddFieldRowsBelow(store.fields, store.fieldSeq, [props]);
      assert added.rows == store.fields + [FieldRow(store.fieldSeq + 1, props)];
      store := store.(fields := added.rows, fieldSeq := added.fieldSeq);
      newId := added.fieldSeq;
    }

    /**
     * `insertTags(catIds, tagValues)`: the rows of `TagParams` are inserted
     * in order and the ids of the inserted rows returned; a malformed
     * argument raises TypeError with nothing inserted.
     */
    method InsertTags(catIds: FieldIdsArg, tagValues: Option<OneOrMany<string>>) returns (r: Result<seq<int>>)
      requires Valid()
      modifies this`store
      ensures Valid()
      ensures TagParams(catIds, tagValues).Err? ==> r == Err(TypeError) && store == old(store)
      ensures TagParams(catIds, tagValues).Ok? ==>
        var ins := InsertAll(old(store.tags), old(store.tagSeq), same, TagParams(catIds, tagValues).value);
        r == Ok(ins.ids) && store == old(store).(tags := ins.tags, tagSeq := ins.tagSeq)
    {
      var params := TagParams(catIds, tagValues);
      if params.Err? {
        return Err(params.error);
      }
      var ids := InsertPairs(params.value);
      return Ok(ids);
    }

    /** The loop of `insertTags`: each pair the uniqueness rule accepts becomes a row, and its id is recorded. */
    method InsertPairs(params: seq<(int, string)>) returns (ids: seq<int>)
      requires Valid()
      modifies this`store
      ensures Valid()
      ensures var ins := InsertAll(old(store.tags), old(store.tagSeq), same, params);
        store == old(store).(tags := ins.tags, tagSeq := ins.tagSeq) && ids == ins.ids
    {
      ghost var s0 := store;
      ids := [];
      var i := 0;
      while i < |params|
        invariant 0 <= i <= |params| && Valid()
        invariant var ins := InsertAll(s0.tags, s0.tagSeq, same, params[..i]); store == s0.(tags := ins.tags, tagSeq := ins.tagSeq) && ids == ins.ids
      {
        var (f, v) := params[i];
        assert params[..i + 1][..i] == params[..i];
        if !Refused(store.tags, same, f, v) {
          var id := store.tagSeq + 1;
          store := store.(tags := store.tags[id := TagRow(f, v)], tagSeq := id);
          ids := ids + [id];
        }
        i := i + 1;
      }
      assert params[..|params|] == params;
    }

    /** `updateTagged(FileIds, tagged)`: each file named gets the flag paired with it, the last pairing winning. */
    method UpdateTagged(fileIds: OneOrMany<int>, tagged: OneOrMany<int>) returns (rowcount: nat)
      requires Valid()
      modifies this`store
      ensures Valid()
      ensures var pairs := Zip(Listed(tagged), Listed(fileIds));
        store == old(store).(files := SetTagged(old(store.files), pairs).files)
        && rowcount == Matched(old(store.files), pairs)
    {
      var flags := SetTagged(store.files, Zip(Listed(tagged), Listed(fileIds)));
      store := store.(files := flags.files);
      rowcount := flags.rowcount;
    }

    /**
     * `setFields(fields)`: properties of fields whose name has no row are
     * inserted, rows whose name is among the fields are updated, and rows
     * whose name is not are deleted.
     */
    method SetFields(fields: FieldObjectContainer)
      requires Valid()
      modifies this`store
      ensures Valid()
      ensures var t := SetFieldRows(old(store.fields), old(store.fieldSeq), old(PropsAll(fields.fieldobjs)));
        store == old(store).(fields := t.rows, fieldSeq := t.fieldSeq)
    {
      ghost var ps := PropsAll(fields.fieldobjs);
      var dbfields := RowNames(store.fields);
      var icommands: seq<Props> := [];
      var ucommands: seq<Props> := [];
      var i := 0;
      while i < |fields.fieldobjs|
        invariant 0 <= i <= |fields.fieldobjs|
        invariant icommands == SplitKnown(ps[..i], dbfields, false)
        invariant ucommands == SplitKnown(ps[..i], dbfields, true)
      {
        var f := fields.fieldobjs[i];
        var values := f.PropsOf();
        assert values == ps[i];
        assert ps[..i + 1] == ps[..i] + [ps[i]];
        if f.name in dbfields {
          ucommands := ucommands + [values];
        } else {
          icommands := icommands + [values];
        }
        i := i + 1;
      }
      assert ps[..|ps|] == ps;
      assert PropNames(ps) == fields.Names();
      SetFieldRowsBelow(store.fields, store.fieldSeq, ps);
      var added := AddFieldRows(store.fields, store.fieldSeq, icommands);
      var updated := UpdateAllRows(added.rows, ucommands);
      var df := Missing(dbfields, fields.Names());
      ghost var t := SetFieldRows(store.fields, store.fieldSeq, ps);
      assert t == FieldTable(DropNamed(updated, df), added.fieldSeq);
      store := store.(fields := DropNamed(updated, df), fieldSeq := added.fieldSeq);
    }

    /**
     * `updateAlbum(album, fileIds, fieldnames)`: the collecting loops
     * gather a plan from the photos `es`, then the flags are written, the
     * tags inserted, the mappings resolved and inserted, and the legacy
     * prunes run; the tables end as `LegacyUpdateAlbumSpec` says.
     */
    method UpdateAlbum(es: seq<Photo>, fileIds: seq<int>, fieldnames: seq<string>) returns (r: Result<()>)
      requires Valid()
      modifies this`store
      ensures Valid()
      ensures Outcome(r, store) == old(LegacyUpdateAlbumSpec(store, same, es, fileIds, fieldnames))
    {
      var allFiles := FileIds(es);
      if allFiles.Err? {
        return Err(allFiles.error);
      }
      assert forall o | o in KeyObjs(es) :: allocated(o);
      var collected := CollectPlan(Ctx(es, allFiles.value, store.fields, store.tags), fileIds, fieldnames);
      if collected.Err? {
        return Err(collected.error);
      }
      var plan := collected.value;
      var _ := UpdateTagged(Many(plan.ids), Many(plan.vals));
      var _ := InsertTags(Pairs(plan.inserts), None);
      var pairs := Resolve(store.tags, store.tagSeq, plan.maps);
      if pairs.None? {
        return Err(KeyError);
      }
      var tagMap := LegacyPruneMaps(store.tagMap + PairSet(pairs.value), store.tags, plan.dels);
      store := store.(tagMap := tagMap);
      return Ok(());
    }
  }

  /** The loop over the legacy prunes. */
  method LegacyPruneMaps(tagMap: set<(int, int)>, tags: map<int, TagRow>, dels: seq<DelMap>) returns (r: set<(int, int)>)
    ensures r == LegacyDropAll(tagMap, tags, dels)
  {
    r := tagMap;
    for i := 0 to |dels|
      invariant r == LegacyDropAll(tagMap, tags, dels[..i])
    {
      assert dels[..i + 1][..i] == dels[..i];
      r := LegacyDropUnkept(r, tags, dels[i].fileId, dels[i].catId, dels[i].keep);
    }
    assert dels[..|dels|] == dels;
  }

  // ------------------------------------------------ against the later query

  /**
   * The legacy prunes delete at least what the later ones do, and the same
   * when no prune keeps an empty list.
   */
  lemma LegacyDropAllCovers(tagMap: set<(int, int)>, tags: map<int, TagRow>, dels: seq<DelMap>)
    ensures LegacyDropAll(tagMap, tags, dels) <= DropAll(tagMap, tags, dels)
    ensures (forall k | 0 <= k < |dels| :: |dels[k].keep| > 0) ==> LegacyDropAll(tagMap, tags, dels) == DropAll(tagMap, tags, dels)
  {
    forall p | p in LegacyDropAll(tagMap, tags, dels) ensures p in DropAll(tagMap, tags, dels) {
      forall k | 0 <= k < |dels| ensures !Unkept(tags, dels[k].fileId, dels[k].catId, dels[k].keep, p) {
        assert !LegacyUnkept(tags, dels[k].fileId, dels[k].catId, dels[k].keep, p);
      }
    }
    if forall k | 0 <= k < |dels| :: |dels[k].keep| > 0 {
      forall p | p in DropAll(tagMap, tags, dels) ensures p in LegacyDropAll(tagMap, tags, dels) {
        forall k | 0 <= k < |dels| ensures !LegacyUnkept(tags, dels[k].fileId, dels[k].catId, dels[k].keep, p) {
          assert !Unkept(tags, dels[k].fileId, dels[k].catId, dels[k].keep, p);
        }
      }
    }
  }

  /**
   * The legacy `updateAlbum` ends as the later one does, with the same
   * result and the same tables, but for the mappings, of which it keeps no
   * more than the later one.
   */
  lemma LegacyUpdateAlbumAgrees(s: Store, same: (string, string) -> bool, es: seq<Photo>, fileIds: seq<int>, fieldnames: seq<string>)
    requires Tables.Valid(s)
    ensures var legacy := LegacyUpdateAlbumSpec(s, same, es, fileIds, fieldnames);
      var later := UpdateAlbumSpec(s, same, es, fileIds, fieldnames);
      legacy.result == later.result && legacy.store == later.store.(tagMap := legacy.store.tagMap)
      && legacy.store.tagMap <= later.store.tagMap
  {
    if FileIds(es).Ok? {
      var c := Ctx(es, FileIds(es).value, s.fields, s.tags);
      if PlanFold(c, Cells(fileIds, fieldnames)).Ok? {
        var plan := PlanFold(c, Cells(fileIds, fieldnames)).value;
        var ins := InsertAll(s.tags, s.tagSeq, same, plan.inserts);
        var pairs := Resolve(ins.tags, ins.tagSeq, plan.maps);
        if pairs.Some? {
          LegacyDropAllCovers(s.tagMap + PairSet(pairs.value), ins.tags, plan.dels);
        }
      }
    }
  }

  /**
   * As written, a tag cell cleared of every tag unmaps the file from every
   * tag, in every field: the prune for that cell keeps an empty list, and
   * `NOT IN ()` holds for all of the file's mappings, even those the same
   * call has just inserted for other fields.
   */
  lemma LegacyClearedCellUnmapsFile(s: Store, same: (string, string) -> bool, es: seq<Photo>, fileIds: seq<int>, fieldnames: seq<string>, i: nat, j: nat)
    requires Tables.Valid(s) && LegacyUpdateAlbumSpec(s, same, es, fileIds, fieldnames).result.Ok?
    requires i < |fileIds| && j < |fieldnames| && fieldnames[j] != TaggedField && LastTagField(s.fields, fieldnames[j]).Some?
    requires AlbumTags(es, fileIds[i], fieldnames[j]) == []
    ensures forall p | p in LegacyUpdateAlbumSpec(s, same, es, fileIds, fieldnames).store.tagMap :: p.0 != fileIds[i]
  {
    var fileId, field := fileIds[i], fieldnames[j];
    var catId := LastTagField(s.fields, field).value;
    var c := Ctx(es, FileIds(es).value, s.fields, s.tags);
    var cells := Cells(fileIds, fieldnames);
    var plan := PlanFold(c, cells).value;
    CellsHas(fileIds, fieldnames, i, j);
    var n :| 0 <= n < |cells| && cells[n] == (fileId, field);
    PlanFoldPrunes(c, cells);
    assert Pruned(c.rows, plan, cells[n]);
    var k :| 0 <= k < |plan.dels| && plan.dels[k].fileId == fileId && plan.dels[k].catId == catId;
    PlanFoldCoherent(c, cells);
    NameOfTagField(s.fields, field);
    assert plan.dels[k].keep == [];
  }
}
