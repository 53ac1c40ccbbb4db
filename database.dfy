// The photo database object (src/datastore/database/database.py): the
// tables it writes, the album it keeps in step with them, and the queries
// that change both.
//
// A `with self.connect() as con:` block commits its statements when it
// completes and rolls them back when it raises; each such block is one
// assignment to `store` here, made only on the paths where the block
// completes. Signals to the views are not modelled.

module Database {
  import opened Outcomes
  import opened Values
  import opened FieldObjects
  import opened PhotoObjects
  import opened Tables
  import opened TagSync
  import Text
  import TagLists
  import Lists

  // ---------------------------------------------------------- renaming tags

  /** The tags with every tag equal to `oldName`, ignoring case, replaced by `newName`. */
  function RenameIn(ts: seq<string>, oldName: string, newName: string): (r: seq<string>)
    ensures |r| == |ts|
    ensures forall k | 0 <= k < |ts| :: r[k] == if Text.Lower(ts[k]) == Text.Lower(oldName) then newName else ts[k]
  {
    seq(|ts|, k requires 0 <= k < |ts| => if Text.Lower(ts[k]) == Text.Lower(oldName) then newName else ts[k])
  }

  /** A tag cell with one tag renamed, tag by tag rather than as a substring. */
  function RenameTagText(s: string, oldName: string, newName: string): string {
    TagLists.JoinTags(RenameIn(TagLists.SplitTags(s), oldName, newName))
  }

  /** Renaming tag by tag renames exactly the tags equal to the old name and leaves every other tag as it was. */
  lemma RenameTagTextTags(s: string, oldName: string, newName: string)
    requires TagLists.CleanTag(newName)
    ensures TagLists.SplitTags(RenameTagText(s, oldName, newName)) == RenameIn(TagLists.SplitTags(s), oldName, newName)
  {
    var ts := TagLists.SplitTags(s);
    var r := RenameIn(ts, oldName, newName);
    forall k | 0 <= k < |r|
      ensures TagLists.CleanTag(r[k])
    {
      assert r[k] == newName || r[k] == ts[k];
    }
    TagLists.SplitJoin(r);
    assert RenameTagText(s, oldName, newName) == TagLists.JoinTags(r);
  }

  /**
   * As written, `str.replace` also rewrites a longer tag that begins with the
   * old name: renaming `Mom` in the cell `Mom; Momma` yields the tags
   * `Mother` and `Motherma`.
   */
  lemma ReplaceRewritesLongerTag(oldName: string, newName: string, rest: string)
    requires oldName == "Mom" && newName == "Mother" && rest == "ma"
    ensures TagLists.SplitTags(oldName + "; " + (oldName + rest)) == [oldName, oldName + rest]
    ensures TagLists.SplitTags(Text.Replace(oldName + "; " + (oldName + rest), oldName, newName)) == [newName, newName + rest]
  {
    assert Text.Replace(rest, oldName, newName) == rest by {
      ReplacePast('a', [], oldName, newName);
      assert rest == ['m'] + "a";
      ReplacePast('m', "a", oldName, newName);
    }
    ReplaceEachTag(oldName, rest, newName);
    var replaced := Text.Replace(oldName + "; " + (oldName + rest), oldName, newName);
    assert replaced == newName + "; " + (newName + rest);
    assert TagLists.CleanTag(rest);
    CleanConcat(oldName, rest);
    CleanConcat(newName, rest);
    TwoTags(oldName, oldName + rest);
    TwoTags(newName, newName + rest);
  }

  /** `pat; pat<rest>` with `pat` replaced: both occurrences change. */
  lemma ReplaceEachTag(pat: string, rest: string, rep: string)
    requires |pat| > 0 && pat[0] != ';' && pat[0] != ' '
    ensures Text.Replace(pat + "; " + (pat + rest), pat, rep) == rep + "; " + (rep + Text.Replace(rest, pat, rep))
  {
    var longer := pat + rest;
    ReplaceAt(pat, rest, rep);
    ReplacePast(' ', longer, pat, rep);
    ReplacePast(';', [' '] + longer, pat, rep);
    var tail := [';'] + ([' '] + longer);
    assert pat + "; " + longer == pat + tail;
    ReplaceAt(pat, tail, rep);
    var done := rep + Text.Replace(rest, pat, rep);
    assert Text.Replace(tail, pat, rep) == [';'] + ([' '] + done);
    assert rep + "; " + done == rep + ([';'] + ([' '] + done));
  }

  /** Two clean tags written together form a clean tag. */
  lemma CleanConcat(a: string, b: string)
    requires TagLists.CleanTag(a) && TagLists.CleanTag(b)
    ensures TagLists.CleanTag(a + b)
  {
    assert (a + b)[0] == a[0] && (a + b)[|a + b| - 1] == b[|b| - 1];
    forall i | 0 <= i < |a + b|
      ensures !Text.IsDelim((a + b)[i])
    {
      if i < |a| {
        assert (a + b)[i] == a[i];
      } else {
        assert (a + b)[i] == b[i - |a|];
      }
    }
  }

  /** `str.replace` at an occurrence of the pattern. */
  lemma ReplaceAt(pat: string, t: string, rep: string)
    requires |pat| > 0
    ensures Text.Replace(pat + t, pat, rep) == rep + Text.Replace(t, pat, rep)
  {
    assert (pat + t)[..|pat|] == pat;
    assert (pat + t)[|pat|..] == t;
  }

  /** `str.replace` past a character that cannot start the pattern. */
  lemma ReplacePast(c: char, t: string, pat: string, rep: string)
    requires |pat| > 0 && pat[0] != c
    ensures Text.Replace([c] + t, pat, rep) == [c] + Text.Replace(t, pat, rep)
  {
    assert ([c] + t)[1..] == t;
    if |pat| <= |[c] + t| {
      assert ([c] + t)[..|pat|][0] == c;
    }
  }

  /** Two clean tags joined by the separator split back into the two. */
  lemma TwoTags(a: string, b: string)
    requires TagLists.CleanTag(a) && TagLists.CleanTag(b)
    ensures TagLists.SplitTags(a + "; " + b) == [a, b]
  {
    assert TagLists.JoinTags([a, b]) == a + "; " + b;
    TagLists.SplitJoin([a, b]);
  }

  /** Renaming tag by tag changes `Mom` in `Mom; Momma` and leaves `Momma` alone. */
  lemma RenameTagTextKeepsLongerTag(oldName: string, newName: string, rest: string)
    requires oldName == "Mom" && newName == "Mother" && rest == "ma"
    ensures RenameTagText(oldName + "; " + (oldName + rest), oldName, newName) == newName + "; " + (oldName + rest)
    ensures TagLists.SplitTags(RenameTagText(oldName + "; " + (oldName + rest), oldName, newName)) == [newName, oldName + rest]
  {
    assert TagLists.CleanTag(rest);
    CleanConcat(oldName, rest);
    TwoTags(oldName, oldName + rest);
    var renamed := RenameIn([oldName, oldName + rest], oldName, newName);
    assert |Text.Lower(oldName + rest)| != |Text.Lower(oldName)|;
    assert renamed == [newName, oldName + rest];
    assert TagLists.JoinTags(renamed) == newName + "; " + TagLists.JoinTags([oldName + rest]);
    RenameTagTextTags(oldName + "; " + (oldName + rest), oldName, newName);
  }

  /** How a photo's cell is renamed: as `renameTag` writes it, or as it is evidently meant. */
  datatype RenameMode = AsWritten | Intended

  /**
   * `photo[field] = photo[field].replace(oldName, newName)` for one photo.
   * The read goes through `field_by_name` (ValueError, or AttributeError
   * when the photo holds a stray key); a cell that is not text has no
   * `replace` (AttributeError). As written, the write `photo[field] = ...`
   * stores the substring-replaced text under the field's name, a new stray
   * key, and leaves the cell as it was; as intended, the cell itself gets
   * the tag renamed, tag by tag.
   */
  function RenameCell(p: Photo, field: string, oldName: string, newName: string, mode: RenameMode): (r: Result<Photo>)
    reads p.values.Keys
    ensures r.Ok? <==> Get(p, AtName(field)).Ok? && Get(p, AtName(field)).value.Str?
    ensures r.Err? ==> r.error == if Get(p, AtName(field)).Err? then Get(p, AtName(field)).error else AttributeError
    ensures r.Ok? ==> r.value.values.Keys == p.values.Keys
    ensures r.Ok? && mode == AsWritten ==>
      r.value.values == p.values
      && r.value.strays == p.strays[NameKey(field) := Str(Text.Replace(Get(p, AtName(field)).value.s, oldName, newName))]
    ensures r.Ok? && mode == Intended ==>
      var k := FieldByName(p, field).value;
      k in p.values && r.value.strays == p.strays
      && r.value.values == p.values[k := Str(RenameTagText(Get(p, AtName(field)).value.s, oldName, newName))]
  {
    match FieldByName(p, field)
    case Err(e) => Err(e)
    case Ok(k) =>
      assert k in KeysNamed(p, field);
      var v := p.values[k];
      if !v.Str? then Err(AttributeError)
      else if mode == AsWritten then Ok(p.(strays := p.strays[NameKey(field) := Str(Text.Replace(v.s, oldName, newName))]))
      else Ok(p.(values := p.values[k := Str(RenameTagText(v.s, oldName, newName))]))
  }

  /** After an intended rename, the cell's tags are the old ones with the matching tags renamed. */
  lemma RenameCellTags(p: Photo, field: string, oldName: string, newName: string)
    requires TagLists.CleanTag(newName)
    requires RenameCell(p, field, oldName, newName, Intended).Ok?
    ensures Tags(p, AtName(field)).Ok?
    ensures Tags(RenameCell(p, field, oldName, newName, Intended).value, AtName(field))
         == Ok(RenameIn(Tags(p, AtName(field)).value, oldName, newName))
  {
    var q := RenameCell(p, field, oldName, newName, Intended).value;
    var k := FieldByName(p, field).value;
    assert k in KeysNamed(p, field);
    assert KeysNamed(q, field) == KeysNamed(p, field);
    assert FieldByName(q, field) == Ok(k);
    RenameTagTextTags(p.values[k].s, oldName, newName);
  }

  /**
   * As written, a renamed photo can no longer be read by name: the stray key
   * makes every later `photo[name]`, and so the next rename, raise
   * AttributeError, while its cells stay as they were.
   */
  lemma RenameCellAsWrittenPoisons(p: Photo, field: string, oldName: string, newName: string, name: string)
    requires RenameCell(p, field, oldName, newName, AsWritten).Ok?
    ensures var q := RenameCell(p, field, oldName, newName, AsWritten).value;
      q.values == p.values && Get(q, AtName(name)) == Err(AttributeError)
  {
    var q := RenameCell(p, field, oldName, newName, AsWritten).value;
    assert NameKey(field) in q.strays;
    assert FieldByName(q, name) == Err(AttributeError);
  }

  /**
   * What `renameTag` reads before its update: the renamed row's old value
   * and its field's name. A missing row or field makes the unpacking of
   * `fetchone()` fail (TypeError); a value the uniqueness rule refuses
   * fails the update (IntegrityError).
   */
  function RenameLookup(s: Store, same: (string, string) -> bool, tagId: int, newName: string): (r: Result<(string, string)>)
    ensures r == Err(TypeError) <==> tagId !in s.tags || NameOfId(s.fields, s.tags[tagId].fieldId).None?
    ensures r == Err(IntegrityError) <==>
      tagId in s.tags && NameOfId(s.fields, s.tags[tagId].fieldId).Some? && RenameRefused(s.tags, same, tagId, newName)
    ensures r.Err? ==> r.error == TypeError || r.error == IntegrityError
    ensures r.Ok? ==>
      tagId in s.tags && r.value.0 == s.tags[tagId].value && Some(r.value.1) == NameOfId(s.fields, s.tags[tagId].fieldId)
  {
    if tagId !in s.tags then Err(TypeError)
    else
      var field := NameOfId(s.fields, s.tags[tagId].fieldId);
      if field.None? then Err(TypeError)
      else if RenameRefused(s.tags, same, tagId, newName) then Err(IntegrityError)
      else Ok((s.tags[tagId].value, field.value))
  }

  /** Photo `after` is photo `before` with its cell of `field` renamed. */
  ghost predicate CellRenamed(before: Photo, after: Photo, field: string, oldName: string, newName: string, mode: RenameMode)
    reads before.values.Keys
  {
    RenameCell(before, field, oldName, newName, mode).Ok? && after == RenameCell(before, field, oldName, newName, mode).value
  }

  /**
   * `after` is `before` with the first `k` photos renamed by RenameCell and
   * the others as they were.
   */
  ghost predicate RenamedUpTo(before: seq<Photo>, after: seq<Photo>, field: string, oldName: string, newName: string,
                              mode: RenameMode, k: nat)
    reads KeyObjs(before)
  {
    |after| == |before| && k <= |before|
    && (forall j | 0 <= j < k :: CellRenamed(before[j], after[j], field, oldName, newName, mode))
    && (forall j | k <= j < |before| :: after[j] == before[j])
  }

  /**
   * The loop over the photos ended: all of them renamed, or the first `k`
   * renamed and the error of photo `k` raised.
   */
  ghost predicate RenameLoopEnded(before: seq<Photo>, after: seq<Photo>, field: string, oldName: string, newName: string,
                                  mode: RenameMode, r: Result<()>)
    reads KeyObjs(before)
  {
    (r.Ok? ==> RenamedUpTo(before, after, field, oldName, newName, mode, |before|))
    && (r.Err? ==> exists k | 0 <= k < |before| ::
          RenamedUpTo(before, after, field, oldName, newName, mode, k)
          && RenameCell(before[k], field, oldName, newName, mode).Err?
          && r == Err(RenameCell(before[k], field, oldName, newName, mode).error))
  }

  /** A photo whose cell cannot be renamed ends the loop with its error. */
  lemma RenameStoppedAt(before: seq<Photo>, after: seq<Photo>, field: string, oldName: string, newName: string,
                        mode: RenameMode, i: nat, r: Result<()>)
    requires RenamedUpTo(before, after, field, oldName, newName, mode, i) && i < |before|
    requires RenameCell(before[i], field, oldName, newName, mode).Err?
    requires r == Err(RenameCell(before[i], field, oldName, newName, mode).error)
    ensures RenameLoopEnded(before, after, field, oldName, newName, mode, r)
  {
  }

  /** Renaming the next photo's cell extends the renamed prefix by one. */
  lemma RenamedOneMore(before: seq<Photo>, after: seq<Photo>, field: string, oldName: string, newName: string,
                       mode: RenameMode, i: nat)
    requires RenamedUpTo(before, after, field, oldName, newName, mode, i) && i < |before|
    requires RenameCell(before[i], field, oldName, newName, mode).Ok?
    ensures RenamedUpTo(before, after[i := RenameCell(before[i], field, oldName, newName, mode).value],
                        field, oldName, newName, mode, i + 1)
  {
    var v := RenameCell(before[i], field, oldName, newName, mode);
    var a2 := after[i := v.value];
    forall j | 0 <= j < i + 1
      ensures CellRenamed(before[j], a2[j], field, oldName, newName, mode)
    {
      if j < i {
        assert a2[j] == after[j];
      }
    }
    forall j | i + 1 <= j < |before|
      ensures a2[j] == before[j]
    {
      assert a2[j] == after[j];
    }
  }

  /**
   * As written, renaming twice fails: after a rename that went through a
   * non-empty album, the next rename (the undo's, say) stops at the first
   * photo with AttributeError and changes no photo.
   */
  lemma RenameTwiceFails(before: seq<Photo>, after: seq<Photo>, field: string, oldName: string, newName: string,
                         again: seq<Photo>, field2: string, oldName2: string, newName2: string, r: Result<()>)
    requires |before| > 0 && RenamedUpTo(before, after, field, oldName, newName, AsWritten, |before|)
    requires RenameLoopEnded(after, again, field2, oldName2, newName2, AsWritten, r)
    ensures r == Err(AttributeError) && again == after
  {
    RenameCellAsWrittenPoisons(before[0], field, oldName, newName, field2);
    assert RenameCell(after[0], field2, oldName2, newName2, AsWritten) == Err(AttributeError);
    assert !RenamedUpTo(after, again, field2, oldName2, newName2, AsWritten, |after|);
    var k :| 0 <= k < |after| && RenamedUpTo(after, again, field2, oldName2, newName2, AsWritten, k)
      && RenameCell(after[k], field2, oldName2, newName2, AsWritten).Err?
      && r == Err(RenameCell(after[k], field2, oldName2, newName2, AsWritten).error);
    assert k == 0;
    assert again == after;
  }

  // ------------------------------------------------------------- arguments

  /** An argument given either as one item or as a list of them. */
  datatype OneOrMany<T> = One(x: T) | Many(xs: seq<T>)

  /** `if isinstance(a, ...): a = [a]`. */
  function Listed<T>(a: OneOrMany<T>): seq<T> {
    match a
    case One(x) => [x]
    case Many(xs) => xs
  }

  /** The first argument of `insertTags`: FieldIds, or (FieldId, value) pairs. */
  datatype FieldIdsArg = Ids(ids: OneOrMany<int>) | Pairs(pairs: seq<(int, string)>)

  /**
   * The parameter rows `insertTags` executes its INSERT with: with values,
   * the FieldIds and the values, each wrapped into a list when single, are
   * zipped; without, the pairs are used as given. Any other combination
   * fails on the first row (TypeError), and so only when there is a row.
   */
  function TagParams(fieldIds: FieldIdsArg, tagValues: Option<OneOrMany<string>>): (r: Result<seq<(int, string)>>)
    ensures tagValues.Some? && fieldIds.Ids? ==> r == Ok(Zip(Listed(fieldIds.ids), Listed(tagValues.value)))
    ensures tagValues.None? && fieldIds.Pairs? ==> r == Ok(fieldIds.pairs)
    ensures r.Err? ==> r.error == TypeError
    ensures r.Ok? ==> fieldIds.Ids? == tagValues.Some? || r.value == []
  {
    match tagValues
    case Some(vs) =>
      if fieldIds.Ids? then Ok(Zip(Listed(fieldIds.ids), Listed(vs)))
      else if |Zip(fieldIds.pairs, Listed(vs))| == 0 then Ok([])
      else Err(TypeError)
    case None =>
      if fieldIds.Pairs? then Ok(fieldIds.pairs)
      else if fieldIds.ids.Many? && |fieldIds.ids.xs| == 0 then Ok([])
      else Err(TypeError)
  }

  // ----------------------------------------------------------- the database

  class PhotoDatabase {
    /** The tables of the database file. */
    var store: Store
    /** The album of the open database. */
    const album: Album
    /** The uniqueness rule of Tags, which counts two values of one field as the same tag. */
    const same: (string, string) -> bool

    constructor (store: Store, album: Album, same: (string, string) -> bool)
      ensures this.store == store && this.album == album && this.same == same
    {
      this.store, this.album, this.same := store, album, same;
    }

    /** Every row id in use was handed out, and no two Fields rows share one. */
    ghost predicate Valid()
      reads this
    {
      Tables.Valid(store)
    }

    /**
     * `nextDefaultField()`: one more than the largest N of the fields named
     * `Tag Field N`, or 1; the name it gives is never in use.
     */
    function NextDefaultField(): (r: nat)
      reads this, album, album.fields, album.fields.fieldobjs
      ensures r >= 1
      ensures forall k | 0 <= k < |album.FieldNames()| && TagFieldNumber(album.FieldNames()[k]).Some? ::
        TagFieldNumber(album.FieldNames()[k]).value < r
      ensures DefaultName(r) !in album.FieldNames()
    {
      DefaultNameFresh(album.FieldNames(), NextNumber(album.FieldNames()));
      NextNumber(album.FieldNames())
    }

    /**
     * `deleteFile(filId)`: the file's mappings and its File row go (and
     * stay gone); then the photo with that FileId leaves the album, where
     * ValueError is raised when no photo has it.
     */
    method DeleteFile(filId: int) returns (r: Result<()>)
      requires Valid()
      modifies this`store, album`entries
      ensures Valid()
      ensures store == DeleteFileRows(old(store), filId)
      ensures var ids := old(FileIds(album.entries));
        (r.Ok? <==> ids.Ok? && Int(filId) in ids.value)
        && (r.Err? ==> r.error == (if ids.Err? then ids.error else ValueError) && album.entries == old(album.entries))
        && (r.Ok? ==> album.entries == Lists.RemoveAt(old(album.entries), Lists.IndexOf(ids.value, Int(filId)).value))
    {
      // Reading the FileIds does not depend on the tables, so it is read
      // first; the tables change either way, as in the source.
      var ids := FileIds(album.entries);
      store := DeleteFileRows(store, filId);
      if ids.Err? {
        return Err(ids.error);
      }
      match Lists.IndexOf(ids.value, Int(filId))
      case None =>
        r := Err(ValueError);
      case Some(dex) =>
        r := album.DelItem(dex);
    }

    /**
     * `dropField(idx, force)`, with `force` passed on to the album: a bad
     * position raises IndexError and a required field DatabaseError unless
     * forced, before any change; a field that is not a tag field changes
     * nothing; otherwise its mappings, tags and Fields rows are deleted and
     * the field leaves the album.
     */
    method DropField(idx: int, force: bool) returns (r: Result<()>)
      requires Valid() && album.Covers()
      modifies this`store, album`entries, album.fields
      ensures Valid()
      ensures var k := Lists.NormIndex(idx, |old(album.fields.fieldobjs)|);
        && (k.None? ==> r == Err(IndexError))
        && (k.Some? && old(album.fields.fieldobjs[k.value].required) && !force ==> r == Err(DatabaseError))
        && (r.Err? || TagFieldId(old(store.fields), old(album.fields.fieldobjs[k.value].name)).None? ==>
              store == old(store) && album.fields.fieldobjs == old(album.fields.fieldobjs) && album.entries == old(album.entries))
        && (k.Some? && !(old(album.fields.fieldobjs[k.value].required) && !force) ==> r.Ok?)
        && (r.Ok? && TagFieldId(old(store.fields), old(album.fields.fieldobjs[k.value].name)).Some? ==>
              var f := old(album.fields.fieldobjs[k.value]);
              store == DropFieldRows(old(store), TagFieldId(old(store.fields), f.name).value, f.name)
              && album.fields.fieldobjs == Lists.RemoveAt(old(album.fields.fieldobjs), k.value)
              && |album.entries| == |old(album.entries)|
              && forall j | 0 <= j < |album.entries| :: f in old(album.entries)[j].values && album.entries[j] == RemoveKey(old(album.entries)[j], f))
    {
      var field := album.fields.Get(ByPos(idx));
      if field.Err? {
        return Err(field.error);
      }
      var f := field.value;
      if f.required && !force {
        return Err(DatabaseError);
      }
      var catId := TagFieldId(store.fields, f.name);
      if catId.None? {
        return Ok(());
      }
      store := DropFieldRows(store, catId.value, f.name);
      r := album.RemoveField(idx, force);

    }
  
    /**
     * `dropField(idx, force)` as written: the album is asked to remove the
     * field without `force`, so a forced drop of a required tag field
     * deletes its rows from the tables and then raises AlbumError, leaving
     * the field in the album.
     */
    method DropFieldAsWritten(idx: int, force: bool) returns (r: Result<()>)
      requires Valid() && album.Covers()
      modifies this`store, album`entries, album.fields
      ensures Valid()
      ensures var k := Lists.NormIndex(idx, |old(album.fields.fieldobjs)|);
        && (k.None? ==> r == Err(IndexError))
        && (k.Some? && old(album.fields.fieldobjs[k.value].required) && !force ==> r == Err(DatabaseError))
        && (k.None? || (old(album.fields.fieldobjs[k.value].required) && !force)
              || TagFieldId(old(store.fields), old(album.fields.fieldobjs[k.value].name)).None? ==>
              store == old(store) && album.fields.fieldobjs == old(album.fields.fieldobjs) && album.entries == old(album.entries))
        && (k.Some? && !(old(album.fields.fieldobjs[k.value].required) && !force) ==>
              var f := old(album.fields.fieldobjs[k.value]);
              match TagFieldId(old(store.fields), f.name)
              case None => r.Ok?
              case Some(catId) =>
                store == DropFieldRows(old(store), catId, f.name)
                && (f.required ==>
                      r == Err(AlbumError) && album.fields.fieldobjs == old(album.fields.fieldobjs) && album.entries == old(album.entries))
                && (!f.required ==> r.Ok? && album.fields.fieldobjs == Lists.RemoveAt(old(album.fields.fieldobjs), k.value)))
    {
      var field := album.fields.Get(ByPos(idx));
      if field.Err? {
        return Err(field.error);
      }
      var f := field.value;
      if f.required && !force {
        return Err(DatabaseError);
      }
      var catId := TagFieldId(store.fields, f.name);
      if catId.None? {
        return Ok(());
      }
      store := DropFieldRows(store, catId.value, f.name);
      r := album.RemoveField(idx, false);
    }
  
    /**
     * `insertField(index, name)`: without a name the field is called
     * `Tag Field N` with N from `nextDefaultField`, so it is never refused. A
     * name in use raises ValueError before any write. Otherwise the field's
     * properties become a new Fields row, whose id is returned; the field
     * (the given object, or a fresh one with default properties) is inserted
     * at `index` (default: the end), and every photo gets `''` under
     * `fields[index]` of the new list; when photos exist and `index` is not
     * a valid position of the new list, IndexError is raised after the row
     * and the field are in.
     */
    method InsertField(index: Option<int>, name: Option<FieldArg>) returns (r: Result<int>)
      requires Valid()
      modifies this`store, album`entries, album.fields
      ensures Valid()
      ensures var n := if name.None? then DefaultName(old(NextDefaultField()))
                       else if name.value.Obj? then name.value.f.name else name.value.s;
        (r == Err(ValueError) <==> n in old(album.FieldNames()))
        && (r == Err(ValueError) ==>
              store == old(store) && album.fields.fieldobjs == old(album.fields.fieldobjs) && album.entries == old(album.entries))
        && (r.Err? ==> r.error == ValueError || r.error == IndexError)
        && (r != Err(ValueError) ==>
              var p := Lists.InsertPos(if index.Some? then index.value else |old(album.fields.fieldobjs)|, |old(album.fields.fieldobjs)|);
              |album.fields.fieldobjs| == |old(album.fields.fieldobjs)| + 1
              && album.fields.fieldobjs[..p] == old(album.fields.fieldobjs)[..p]
              && album.fields.fieldobjs[p + 1..] == old(album.fields.fieldobjs)[p..]
              && album.fields.fieldobjs[p].name == n
              && (name.Some? && name.value.Obj? ==> album.fields.fieldobjs[p] == name.value.f)
              && (!(name.Some? && name.value.Obj?) ==>
                    fresh(album.fields.fieldobjs[p]) && album.fields.fieldobjs[p].PropsOf() == DefaultProps(n))
              && store == old(store).(fields := old(store.fields) + [FieldRow(old(store.fieldSeq) + 1, album.fields.fieldobjs[p].PropsOf())],
                                      fieldSeq := old(store.fieldSeq) + 1))
      ensures name.None? ==> r != Err(ValueError)
      ensures r == Err(IndexError) <==>
        r != Err(ValueError) && |old(album.entries)| > 0
        && Lists.NormIndex(if index.Some? then index.value else |old(album.fields.fieldobjs)|, |old(album.fields.fieldobjs)| + 1).None?
      ensures r == Err(IndexError) ==> album.entries == old(album.entries)
      ensures r.Ok? ==>
        var q := Lists.NormIndex(if index.Some? then index.value else |old(album.fields.fieldobjs)|, |album.fields.fieldobjs|);
        r.value == old(store.fieldSeq) + 1
        && (|old(album.entries)| > 0 ==> q.Some?)
        && album.entries == (if q.Some? then SetAll(old(album.entries), album.fields.fieldobjs[q.value], Str("")) else old(album.entries))
    {
      var newField: FieldObject? := null;
      var nm: string;
      if name.Some? && name.value.Obj? {
        newField := name.value.f;
        nm := newField.name;
      } else if name.Some? {
        nm := name.value.s;
      } else {
        nm := DefaultName(NextDefaultField());
      }
      var idx := if index.Some? then index.value else |album.fields.fieldobjs|;
      if nm in album.fields.Names() {
        return Err(ValueError);
      }
      if newField == null {
        newField := new FieldObject.Named(nm);
      }
      var props := newField.PropsOf();
      var newId := AddFieldRow(props);
      var placed := PlaceField(idx, newField);
      r := if placed.Ok? then Ok(newId) else Err(placed.error);
    }

    /** `INSERT INTO Fields ...` with one field's properties: a row under the next FieldId, which is returned. */
    method AddFieldRow(props: Props) returns (newId: int)
      requires Valid()
      modifies this`store
      ensures Valid()
      ensures store == old(store).(fields := old(store.fields) + [FieldRow(old(store.fieldSeq) + 1, props)], fieldSeq := old(store.fieldSeq) + 1)
      ensures newId == store.fieldSeq
    {
      var added := AddFieldRows(store.fields, store.fieldSeq, [props]);
      AddFieldRowsBelow(store.fields, store.fieldSeq, [props]);
      assert added.rows == store.fields + [FieldRow(store.fieldSeq + 1, props)];
      store := store.(fields := added.rows, fieldSeq := added.fieldSeq);
      newId := added.fieldSeq;
    }

    /**
     * `self.fields.insert(index, f)`, then `''` under `self.fields[index]`
     * in every photo; IndexError, with `f` inserted, when photos exist and
     * `index` is not a valid position of the new list.
     */
    method PlaceField(idx: int, f: FieldObject) returns (r: Result<()>)
      modifies album`entries, album.fields
      ensures var p := Lists.InsertPos(idx, |old(album.fields.fieldobjs)|);
        |album.fields.fieldobjs| == |old(album.fields.fieldobjs)| + 1
        && album.fields.fieldobjs[..p] == old(album.fields.fieldobjs)[..p]
        && album.fields.fieldobjs[p + 1..] == old(album.fields.fieldobjs)[p..]
        && album.fields.fieldobjs[p] == f
      ensures var q := Lists.NormIndex(idx, |album.fields.fieldobjs|);
        (r.Err? <==> |old(album.entries)| > 0 && q.None?)
        && (r.Err? ==> r.error == IndexError && album.entries == old(album.entries))
        && (r.Ok? ==> album.entries == if q.Some? then SetAll(old(album.entries), album.fields.fieldobjs[q.value], Str("")) else old(album.entries))
    {
      album.fields.Insert(idx, Obj(f));
      if |album.entries| == 0 {
        return Ok(());
      }
      var q := Lists.NormIndex(idx, |album.fields.fieldobjs|);
      if q.None? {
        return Err(IndexError);
      }
      album.FillColumn(album.fields.fieldobjs[q.value], Str(""));
      return Ok(());
    }
  
    /**
     * `insertTags(fieldIds, tagValues)`: the rows of `TagParams` are inserted
     * in order and the ids of the inserted rows returned; a malformed
     * argument raises TypeError with nothing inserted.
     */
    method InsertTags(fieldIds: FieldIdsArg, tagValues: Option<OneOrMany<string>>) returns (r: Result<seq<int>>)
      requires Valid()
      modifies this`store
      ensures Valid()
      ensures TagParams(fieldIds, tagValues).Err? ==> r == Err(TypeError) && store == old(store)
      ensures TagParams(fieldIds, tagValues).Ok? ==>
        var ins := InsertAll(old(store.tags), old(store.tagSeq), same, TagParams(fieldIds, tagValues).value);
        r == Ok(ins.ids) && store == old(store).(tags := ins.tags, tagSeq := ins.tagSeq)
    {
      var params := TagParams(fieldIds, tagValues);
      if params.Err? {
        return Err(params.error);
      }
      var ids := InsertPairs(params.value);
      return Ok(ids);
    }

    /**
     * The loop of `insertTags`: each (FieldId, value) pair becomes a Tags row
     * under the next TagId, whose id is recorded; a pair the uniqueness rule
     * refuses raises IntegrityError, which is caught and the pair skipped.
     */
    method InsertPairs(params: seq<(int, string)>) returns (ids: seq<int>)
      requires Valid()
      modifies this`store
      ensures Valid()
      ensures var ins := InsertAll(old(store.tags), old(store.tagSeq), same, params);
        store == old(store).(tags := ins.tags, tagSeq := ins.tagSeq) && ids == ins.ids
    {
      ghost var s0 := store;
      ids := [];
      var i := 0;
      while i < |params|
        invariant 0 <= i <= |params| && Valid()
        invariant var ins := InsertAll(s0.tags, s0.tagSeq, same, params[..i]); store == s0.(tags := ins.tags, tagSeq := ins.tagSeq) && ids == ins.ids
      {
        var (f, v) := params[i];
        assert params[..i + 1][..i] == params[..i];
        if !Refused(store.tags, same, f, v) {
          var id := store.tagSeq + 1;
          store := store.(tags := store.tags[id := TagRow(f, v)], tagSeq := id);
          ids := ids + [id];
        }
        i := i + 1;
      }
      assert params[..|params|] == params;
    }

    /**
     * `updateTagged(FileIds, tagged)`: each file named gets the flag paired
     * with it (True is 1), the last pairing winning; the rowcount is the
     * number of pairs that named a file.
     */
    method UpdateTagged(fileIds: OneOrMany<int>, tagged: OneOrMany<int>) returns (rowcount: nat)
      requires Valid()
      modifies this`store
      ensures Valid()
      ensures var pairs := Zip(Listed(tagged), Listed(fileIds));
        store == old(store).(files := SetTagged(old(store.files), pairs).files)
        && rowcount == Matched(old(store.files), pairs)
    {
      var flags := SetTagged(store.files, Zip(Listed(tagged), Listed(fileIds)));
      store := store.(files := flags.files);
      rowcount := flags.rowcount;
    }

    /**
     * `setFields(fields)`: properties of fields whose name has no row are
     * inserted, rows whose name is among the fields are updated, and rows
     * whose name is not are deleted; nothing but Fields changes.
     */
    method SetFields(c: FieldObjectContainer)
      requires Valid()
      modifies this`store
      ensures Valid()
      ensures var t := SetFieldRows(old(store.fields), old(store.fieldSeq), old(PropsAll(c.fieldobjs)));
        store == old(store).(fields := t.rows, fieldSeq := t.fieldSeq)
    {
      ghost var ps := PropsAll(c.fieldobjs);
      var dbfields := RowNames(store.fields);
      var icommands: seq<Props> := [];
      var ucommands: seq<Props> := [];
      var i := 0;
      while i < |c.fieldobjs|
        invariant 0 <= i <= |c.fieldobjs|
        invariant icommands == SplitKnown(ps[..i], dbfields, false)
        invariant ucommands == SplitKnown(ps[..i], dbfields, true)
      {
        var f := c.fieldobjs[i];
        var values := f.PropsOf();
        assert values == ps[i];
        assert ps[..i + 1] == ps[..i] + [ps[i]];
        if f.name in dbfields {
          ucommands := ucommands + [values];
        } else {
          icommands := icommands + [values];
        }
        i := i + 1;
      }
      assert ps[..|ps|] == ps;
      assert PropNames(ps) == c.Names();
      SetFieldRowsBelow(store.fields, store.fieldSeq, ps);
      var added := AddFieldRows(store.fields, store.fieldSeq, icommands);
      var updated := UpdateAllRows(added.rows, ucommands);
      var df := Missing(dbfields, c.Names());
      ghost var t := SetFieldRows(store.fields, store.fieldSeq, ps);
      assert t == FieldTable(DropNamed(updated, df), added.fieldSeq);
      store := store.(fields := DropNamed(updated, df), fieldSeq := added.fieldSeq);
    }
  
    /**
     * The database half of `renameTag(tagId, newName)`: the tag's row is
     * renamed when `RenameLookup` finds it renameable, and the store is
     * otherwise left as it was.
     */
    method RenameTagRow(tagId: int, newName: string) returns (r: Result<(string, string)>)
      requires Valid()
      modifies this`store
      ensures Valid()
      ensures r == RenameLookup(old(store), same, tagId, newName)
      ensures r.Ok? ==> store == old(store).(tags := old(store.tags)[tagId := TagRow(old(store.tags)[tagId].fieldId, newName)])
      ensures r.Err? ==> store == old(store)
    {
      r := RenameLookup(store, same, tagId, newName);
      if r.Ok? {
        store := store.(tags := store.tags[tagId := TagRow(store.tags[tagId].fieldId, newName)]);
      }
    }

    /**
     * The album half of `renameTag`: every photo gets RenameCell; the first
     * photo whose cell cannot be read stops the loop with its error, the
     * photos before it renamed and the rest untouched.
     */
    method RenameCells(field: string, oldName: string, newName: string, mode: RenameMode) returns (r: Result<()>)
      modifies album`entries
      ensures RenameLoopEnded(old(album.entries), album.entries, field, oldName, newName, mode, r)
    {
      ghost var es := album.entries;
      var photos := album.entries;
      var i := 0;
      while i < |photos|
        invariant 0 <= i <= |photos|
        invariant RenamedUpTo(es, photos, field, oldName, newName, mode, i)
      {
        assert photos[i] == es[i];
        var renamed := RenameCell(photos[i], field, oldName, newName, mode);
        if renamed.Err? {
          r := Err(renamed.error);
          RenameStoppedAt(es, photos, field, oldName, newName, mode, i, r);
          assert album !in KeyObjs(es);
          album.entries := photos;
          return;
        }
        RenamedOneMore(es, photos, field, oldName, newName, mode, i);
        photos := photos[i := renamed.value];
        i := i + 1;
      }
      assert album !in KeyObjs(es);
      album.entries := photos;
      r := Ok(());
    }

    /**
     * `renameTag(tagId, newName)`: the Tags row is renamed when RenameLookup
     * finds it renameable (the store is otherwise left as it was), then the
     * photos of the album are renamed in the given mode.
     */
    method RenameTag(tagId: int, newName: string, mode: RenameMode) returns (r: Result<()>)
      requires Valid()
      modifies this`store, album`entries
      ensures Valid()
      ensures var n := RenameLookup(old(store), same, tagId, newName);
        (n.Err? ==> r == Err(n.error) && store == old(store) && album.entries == old(album.entries))
        && (n.Ok? ==>
          store == old(store).(tags := old(store.tags)[tagId := TagRow(old(store.tags)[tagId].fieldId, newName)])
          && RenameLoopEnded(old(album.entries), album.entries, n.value.1, n.value.0, newName, mode, r))
    {
      var names := RenameTagRow(tagId, newName);
      if names.Err? {
        return Err(names.error);
      }
      r := RenameCells(names.value.1, names.value.0, newName, mode);
    }

    /**
     * `updateAlbum(fileIds, fieldnames)`: the album's FileIds are read, the
     * collecting loops gather a plan, then the Tagged flags are written,
     * the new tags inserted, the mappings resolved to TagIds and inserted,
     * and the stale mappings pruned; the tables end as the specification
     * `UpdateAlbumSpec` says.
     */
    method UpdateAlbum(fileIds: seq<int>, fieldnames: seq<string>) returns (r: Result<()>)
      requires Valid()
      modifies this`store
      ensures Valid()
      ensures Outcome(r, store) == old(UpdateAlbumSpec(store, same, album.entries, fileIds, fieldnames))
      ensures store.fields == old(store.fields) && store.fieldSeq == old(store.fieldSeq)
      ensures r.Err? ==> r.error in {ValueError, TypeError, AttributeError, KeyError}
      ensures SameLower(same) && r.Err? ==> store == old(store) && r.error != KeyError
    {
      if SameLower(same) {
        UpdateAlbumErrors(store, same, album.entries, fileIds, fieldnames);
      }
      var allFiles := FileIds(album.entries);
      if allFiles.Err? {
        return Err(allFiles.error);
      }
      assert forall o | o in KeyObjs(album.entries) :: allocated(o);
      var collected := CollectPlan(Ctx(album.entries, allFiles.value, store.fields, store.tags), fileIds, fieldnames);
      if collected.Err? {
        PlanFoldErrors(Ctx(album.entries, allFiles.value, store.fields, store.tags), Cells(fileIds, fieldnames));
        return Err(collected.error);
      }
      var plan := collected.value;
      var _ := UpdateTagged(Many(plan.ids), Many(plan.vals));
      var _ := InsertTags(Pairs(plan.inserts), None);
      var pairs := Resolve(store.tags, store.tagSeq, plan.maps);
      if pairs.None? {
        return Err(KeyError);
      }
      var tagMap := PruneMaps(store.tagMap + PairSet(pairs.value), store.tags, plan.dels);
      store := store.(tagMap := tagMap);
      return Ok(());
    }

    /**
     * `db[entry, fdex] = value`: the album's cell is set (see Album.SetCell;
     * a field name the album lacks becomes a stray None key of the photo),
     * then the photo's FileId is read by name and `updateAlbum` runs for
     * that file and the field's name. With a FileId that is not an integer,
     * a field that is neither Tagged nor a tag field is skipped by the loop,
     * so only the read of every photo's FileId can fail and no table is
     * written; for the Tagged field or a tag field such an id is refused
     * with TypeError before any table is written.
     */
    /** A field the loop of `updateAlbum` passes over: neither Tagged nor a tag field. */
    static predicate Skipped(s: Store, f: FieldObject?)
      reads f
    {
      f != null && f.name != TaggedField && LastTagField(s.fields, f.name).None?
    }

    method SetItem(entry: int, fdex: Key, value: Value) returns (r: Result<()>)
      requires Valid()
      modifies this`store, album`entries
      ensures Valid()
      ensures var f := old(album.fields.Get(fdex));
        var k := Lists.NormIndex(entry, |old(album.entries)|);
        !(f.Ok? && k.Some?) ==> r == Err(IndexError) && store == old(store) && album.entries == old(album.entries)
      ensures var f := old(album.fields.Get(fdex));
        var k := Lists.NormIndex(entry, |old(album.entries)|);
        f.Ok? && k.Some? ==>
          var photo := Put(old(album.entries)[k.value], f.value, value);
          var id := Get(photo, AtName(FileIdField));
          album.entries == old(album.entries)[k.value := photo]
          && (f.value == null ==> r == Err(AttributeError) && store == old(store))
          && (id.Err? ==> r == Err(id.error) && store == old(store))
          && (id.Ok? && !id.value.Int? ==> store == old(store))
          && (id.Ok? && !id.value.Int? && Skipped(old(store), f.value) ==>
                r == if FileIds(album.entries).Ok? then Ok(()) else Err(FileIds(album.entries).error))
          && (id.Ok? && !id.value.Int? && !Skipped(old(store), f.value) ==> r == Err(TypeError))
          && (id.Ok? && id.value.Int? ==>
                f.value != null
                && Outcome(r, store) == UpdateAlbumSpec(old(store), same, album.entries, [id.value.i], [f.value.name]))
    {
      ghost var k := Lists.NormIndex(entry, |album.entries|);
      ghost var es := album.entries;
      ghost var f := album.fields.Get(fdex);
      var cell := album.SetCell(entry, fdex, value);
      if cell.Err? {
        return Err(cell.error);
      }
      var photo := album.Entry(entry);
      var field := album.fields.Get(fdex);
      assert field == f;
      assert photo.value == Put(es[k.value], field.value, value);
      var id := Get(photo.value, AtName(FileIdField));
      if id.Err? {
        return Err(id.error);
      }
      if !id.value.Int? {
        if Skipped(store, field.value) {
          var all := FileIds(album.entries);
          if all.Err? {
            return Err(all.error);
          }
          return Ok(());
        }
        return Err(TypeError);
      }
      assert store == old(store);
      assert forall o | o in KeyObjs(album.entries) :: allocated(o);
      assert this !in KeyObjs(album.entries);
      ghost var spec := UpdateAlbumSpec(store, same, album.entries, [id.value.i], [field.value.name]);
      r := UpdateAlbum([id.value.i], [field.value.name]);
      assert Outcome(r, store) == spec;
      assert album.entries == es[k.value := photo.value];
      assert Get(photo.value, AtName(FileIdField)) == id;
      assert f.value != null && f.value.name == field.value.name;
      assert UpdateAlbumSpec(old(store), same, album.entries, [id.value.i], [f.value.name]) == spec;
    }
  }

  // ------------------------------------------------- updateAlbum's loops


  /** The loop over the prunes: each deletes the mappings its file and field no longer keep. */
  method PruneMaps(tagMap: set<(int, int)>, tags: map<int, TagRow>, dels: seq<DelMap>) returns (r: set<(int, int)>)
    ensures r == DropAll(tagMap, tags, dels)
  {
    r := tagMap;
    for i := 0 to |dels|
      invariant r == DropAll(tagMap, tags, dels[..i])
    {
      assert dels[..i + 1][..i] == dels[..i];
      r := DropUnkept(r, tags, dels[i].fileId, dels[i].catId, dels[i].keep);
    }
    assert dels[..|dels|] == dels;
  }

  /** The two collecting loops of `updateAlbum`, file by file and field by field; the first error ends them. */
  method CollectPlan(c: Ctx, fileIds: seq<int>, fieldnames: seq<string>) returns (r: Result<Plan>)
    requires |c.allFiles| == |c.es|
    ensures r == PlanFold(c, Cells(fileIds, fieldnames))
  {
    var plan := NoPlan;
    var i := 0;
    while i < |fileIds|
      invariant 0 <= i <= |fileIds|
      invariant forall o | o in KeyObjs(c.es) :: allocated(o)
      invariant PlanFold(c, Cells(fileIds[..i], fieldnames)) == Ok(plan)
    {
      var next := CollectRow(c, plan, fileIds[i], fieldnames, Cells(fileIds[..i], fieldnames));
      CollectedRow(c, fileIds, fieldnames, i, next);
      if next.Err? {
        return next;
      }
      plan := next.value;
      i := i + 1;
    }
    assert fileIds[..|fileIds|] == fileIds;
    return Ok(plan);
  }

  /** The inner collecting loop: the fields of one file, after the cells `done` gave `plan`. */
  method CollectRow(c: Ctx, plan: Plan, fileId: int, fieldnames: seq<string>, ghost done: seq<(int, string)>)
    returns (r: Result<Plan>)
    requires |c.allFiles| == |c.es| && PlanFold(c, done) == Ok(plan)
    ensures r == PlanFold(c, done + RowCells(fileId, fieldnames))
  {
    ghost var row := RowCells(fileId, fieldnames);
    assert done + row[..0] == done;
    var acc := plan;
    var j := 0;
    while j < |fieldnames|
      invariant 0 <= j <= |fieldnames|
      invariant PlanFold(c, done + row[..j]) == Ok(acc)
    {
      var step := StepCell(c, acc, fileId, fieldnames, j, done);
      if step.Err? {
        PlanFoldRowStops(c, done, fileId, fieldnames, j);
        return step;
      }
      acc := step.value;
      j := j + 1;
    }
    assert row[..|fieldnames|] == row;
    return Ok(acc);
  }

  /**
   * The body of the inner collecting loop for field `fieldnames[j]` of one
   * file: the photo is found by its FileId, then the Tagged flag is queued,
   * or the photo's tags in a tag field are queued one by one, or the field
   * is skipped. The plan it gives is one more step of the fold.
   */
  method StepCell(c: Ctx, p: Plan, fileId: int, fieldnames: seq<string>, j: nat, ghost done: seq<(int, string)>)
    returns (r: Result<Plan>)
    requires |c.allFiles| == |c.es| && j < |fieldnames|
    requires PlanFold(c, done + RowCells(fileId, fieldnames)[..j]) == Ok(p)
    ensures r == PlanFold(c, done + RowCells(fileId, fieldnames)[..j + 1])
  {
    PlanFoldRowStep(c, done, fileId, fieldnames, j);
    var field := fieldnames[j];
    var found := Lists.IndexOf(c.allFiles, Int(fileId));
    if found.None? {
      return Err(ValueError);
    }
    var photo := c.es[found.value];
    if field == TaggedField {
      var v := Get(photo, AtName(field));
      if v.Err? {
        return Err(v.error);
      }
      StepTagged(c, p, fileId, field, found.value);
      return Ok(p.(ids := p.ids + [fileId], vals := p.vals + [if Truthy(v.value) then 1 else 0]));
    }
    var catId := LastTagField(c.rows, field);
    if catId.None? {
      StepOtherField(c, p, fileId, field, found.value);
      return Ok(p);
    }
    var cur := Tags(photo, AtName(field));
    if cur.Err? {
      return Err(cur.error);
    }
    StepTagField(c, p, fileId, field, found.value, catId.value);
    var existing := LowValues(c.before, catId.value);
    ghost var all := QueueTags(p, fileId, catId.value, existing, cur.value);
    assert PlanFold(c, done + RowCells(fileId, fieldnames)[..j + 1])
      == Ok(all.(dels := all.dels + [DelMap(fileId, catId.value, TagLists.LowerAll(cur.value))]));
    var q := p;
    for k := 0 to |cur.value|
      invariant q == QueueTags(p, fileId, catId.value, existing, cur.value[..k])
      invariant PlanFold(c, done + RowCells(fileId, fieldnames)[..j + 1]) == Ok(all.(dels := all.dels + [DelMap(fileId, catId.value, TagLists.LowerAll(cur.value))]))
    {
      var tag := cur.value[k];
      QueueTagsStep(p, fileId, catId.value, existing, cur.value, k);
      if Text.Strip(tag) != "" {
        if Text.Lower(tag) !in existing && (catId.value, tag) !in q.inserts {
          q := q.(inserts := q.inserts + [(catId.value, tag)]);
        }
        q := q.(maps := q.maps + [(fileId, (catId.value, Text.Lower(tag)))]);
      }
    }
    assert cur.value[..|cur.value|] == cur.value;
    return Ok(q.(dels := q.dels + [DelMap(fileId, catId.value, TagLists.LowerAll(cur.value))]));
  }

  /** The Tagged field queues the photo's flag. */
  lemma StepTagged(c: Ctx, p: Plan, fileId: int, field: string, row: nat)
    requires |c.allFiles| == |c.es| && Lists.IndexOf(c.allFiles, Int(fileId)) == Some(row)
    requires field == TaggedField && Get(c.es[row], AtName(field)).Ok?
    ensures Step(c, p, fileId, field)
      == Ok(p.(ids := p.ids + [fileId], vals := p.vals + [if Truthy(Get(c.es[row], AtName(field)).value) then 1 else 0]))
  {
  }

  /** A tag field queues the photo's tags and a prune keeping them. */
  lemma StepTagField(c: Ctx, p: Plan, fileId: int, field: string, row: nat, catId: int)
    requires |c.allFiles| == |c.es| && Lists.IndexOf(c.allFiles, Int(fileId)) == Some(row)
    requires field != TaggedField && LastTagField(c.rows, field) == Some(catId) && Tags(c.es[row], AtName(field)).Ok?
    ensures var cur := Tags(c.es[row], AtName(field)).value;
      var q := QueueTags(p, fileId, catId, LowValues(c.before, catId), cur);
      Step(c, p, fileId, field) == Ok(q.(dels := q.dels + [DelMap(fileId, catId, TagLists.LowerAll(cur))]))
  {
  }

  /** Any other field is skipped. */
  lemma StepOtherField(c: Ctx, p: Plan, fileId: int, field: string, row: nat)
    requires |c.allFiles| == |c.es| && Lists.IndexOf(c.allFiles, Int(fileId)) == Some(row)
    requires field != TaggedField && LastTagField(c.rows, field).None?
    ensures Step(c, p, fileId, field) == Ok(p)
  {
  }

  /** One more tag of the cell: queued for insertion when new, and for mapping unless blank. */
  lemma QueueTagsStep(p: Plan, fileId: int, catId: int, existing: set<string>, tags: seq<string>, k: nat)
    requires k < |tags|
    ensures var q := QueueTags(p, fileId, catId, existing, tags[..k]);
      var q2 := QueueTags(p, fileId, catId, existing, tags[..k + 1]);
      var t := tags[k];
      q2.ids == q.ids && q2.vals == q.vals && q2.dels == q.dels &&
      q2.inserts == (if Text.Strip(t) != "" && Text.Lower(t) !in existing && (catId, t) !in q.inserts
        then q.inserts + [(catId, t)] else q.inserts) &&
      q2.maps == (if Text.Strip(t) == "" then q.maps else q.maps + [(fileId, (catId, Text.Lower(t)))])
  {
    QueueInsertsStep(p.inserts, catId, existing, tags, k);
    TagMapsStep(p.maps, fileId, catId, tags, k);
  }

  /** One more tag queues it for insertion when it is not blank, not in the field and not yet queued. */
  lemma QueueInsertsStep(ins: seq<(int, string)>, catId: int, existing: set<string>, tags: seq<string>, k: nat)
    requires k < |tags|
    ensures var q := QueueInserts(ins, catId, existing, tags[..k]);
      QueueInserts(ins, catId, existing, tags[..k + 1]) ==
        if Text.Strip(tags[k]) != "" && Text.Lower(tags[k]) !in existing && (catId, tags[k]) !in q
        then q + [(catId, tags[k])] else q
  {
    var pre := tags[..k + 1];
    assert pre[..|pre| - 1] == tags[..k] && pre[|pre| - 1] == tags[k];
  }

  /** One more tag queues its mapping, after those already queued, unless it is blank. */
  lemma TagMapsStep(queued: seq<(int, (int, string))>, fileId: int, catId: int, tags: seq<string>, k: nat)
    requires k < |tags|
    ensures queued + TagMaps(fileId, catId, tags[..k + 1]) ==
      if Text.Strip(tags[k]) == "" then queued + TagMaps(fileId, catId, tags[..k])
      else queued + TagMaps(fileId, catId, tags[..k]) + [(fileId, (catId, Text.Lower(tags[k])))]
  {
    var pre := tags[..k + 1];
    assert pre[..|pre| - 1] == tags[..k] && pre[|pre| - 1] == tags[k];
    var m := TagMaps(fileId, catId, tags[..k]);
    if Text.Strip(tags[k]) != "" {
      var x := (fileId, (catId, Text.Lower(tags[k])));
      assert TagMaps(fileId, catId, pre) == m + [x];
      assert queued + (m + [x]) == queued + m + [x];
    }
  }

  /** One more cell after a prefix: the fold steps once, unless the prefix already failed. */
  lemma PlanFoldSnoc(c: Ctx, cells: seq<(int, string)>, x: (int, string))
    requires |c.allFiles| == |c.es|
    ensures PlanFold(c, cells).Err? ==> PlanFold(c, cells + [x]) == PlanFold(c, cells)
    ensures PlanFold(c, cells).Ok? ==> PlanFold(c, cells + [x]) == Step(c, PlanFold(c, cells).value, x.0, x.1)
  {
    assert (cells + [x])[..|cells|] == cells;
  }

  /** One more field of the current file's row steps the fold once. */
  lemma PlanFoldRowStep(c: Ctx, done: seq<(int, string)>, fileId: int, fieldnames: seq<string>, j: nat)
    requires |c.allFiles| == |c.es| && j < |fieldnames|
    requires PlanFold(c, done + RowCells(fileId, fieldnames)[..j]).Ok?
    ensures PlanFold(c, done + RowCells(fileId, fieldnames)[..j + 1])
      == Step(c, PlanFold(c, done + RowCells(fileId, fieldnames)[..j]).value, fileId, fieldnames[j])
  {
    var row := RowCells(fileId, fieldnames);
    RowCellsStep(done, fileId, fieldnames, j);
    PlanFoldSnoc(c, done + row[..j], (fileId, fieldnames[j]));
  }

  /** A step that fails within the current file's row is what the fold over the whole row gives. */
  lemma PlanFoldRowStops(c: Ctx, done: seq<(int, string)>, fileId: int, fieldnames: seq<string>, j: nat)
    requires |c.allFiles| == |c.es| && j < |fieldnames|
    requires PlanFold(c, done + RowCells(fileId, fieldnames)[..j + 1]).Err?
    ensures PlanFold(c, done + RowCells(fileId, fieldnames)) == PlanFold(c, done + RowCells(fileId, fieldnames)[..j + 1])
  {
    var row := RowCells(fileId, fieldnames);
    PrefixOfConcat(done, row, j + 1);
    PlanFoldPrefixStops(c, done + row, done + row[..j + 1]);
  }

  /** Once the fold fails on a prefix of the cells, it fails the same way on all of them. */
  lemma PlanFoldPrefixStops(c: Ctx, cells: seq<(int, string)>, pre: seq<(int, string)>)
    requires |c.allFiles| == |c.es| && pre <= cells && PlanFold(c, pre).Err?
    ensures PlanFold(c, cells) == PlanFold(c, pre)
  {
    assert cells[..|pre|] == pre;
    PlanFoldStops(c, cells, |pre|);
  }

  lemma PrefixOfConcat<T>(a: seq<T>, b: seq<T>, j: nat)
    requires j <= |b|
    ensures a + b[..j] <= a + b
  {
    assert (a + b)[..|a| + j] == a + b[..j];
  }

  /** One more field of the current file's row. */
  lemma RowCellsStep(done: seq<(int, string)>, fileId: int, fieldnames: seq<string>, j: nat)
    requires j < |fieldnames|
    ensures done + RowCells(fileId, fieldnames)[..j + 1] == (done + RowCells(fileId, fieldnames)[..j]) + [(fileId, fieldnames[j])]
  {
    var row := RowCells(fileId, fieldnames);
    assert row[..j + 1] == row[..j] + [row[j]];
  }

  /** The cells of one more file are those of the files before it, then its own row. */
  lemma CellsSnoc(fileIds: seq<int>, fieldnames: seq<string>, i: nat)
    requires i < |fileIds|
    ensures Cells(fileIds[..i + 1], fieldnames) == Cells(fileIds[..i], fieldnames) + RowCells(fileIds[i], fieldnames)
  {
    assert fileIds[..i + 1][..i] == fileIds[..i];
  }

  /** The plan after file `i`'s row is the fold over the first `i + 1` files, and an error there is the fold's over all of them. */
  lemma CollectedRow(c: Ctx, fileIds: seq<int>, fieldnames: seq<string>, i: nat, next: Result<Plan>)
    requires |c.allFiles| == |c.es| && i < |fileIds|
    requires next == PlanFold(c, Cells(fileIds[..i], fieldnames) + RowCells(fileIds[i], fieldnames))
    ensures next == PlanFold(c, Cells(fileIds[..i + 1], fieldnames))
    ensures next.Err? ==> next == PlanFold(c, Cells(fileIds, fieldnames))
  {
    CellsSnoc(fileIds, fieldnames, i);
    if next.Err? {
      CellsPrefix(fileIds, fieldnames, i + 1);
      PlanFoldPrefixStops(c, Cells(fileIds, fieldnames), Cells(fileIds[..i + 1], fieldnames));
    }
  }

  /** The cells of the first `i` files come first among all the cells. */
  lemma {:induction false} CellsPrefix(fileIds: seq<int>, fieldnames: seq<string>, i: nat)
    requires i <= |fileIds|
    ensures Cells(fileIds[..i], fieldnames) <= Cells(fileIds, fieldnames)
    decreases |fileIds| - i
  {
    if i < |fileIds| {
      CellsPrefix(fileIds, fieldnames, i + 1);
      CellsSnoc(fileIds, fieldnames, i);
    } else {
      assert fileIds[..i] == fileIds;
    }
  }
}
