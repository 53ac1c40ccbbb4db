# PhotoOrganizer core in Dafny

This project models the core of PhotoOrganizer, a desktop photo catalogue whose photos carry metadata fields, some of which hold multi-valued tag cells (`;`/`,`-delimited strings). The model covers:

- how a tag cell is edited: coercion by editor, toggling one tag, and batch add/remove over rows and fields, with undo commands whose redo and undo are proved to round-trip;
- how those edits are mirrored into the Fields / Tags / TagMap / File tables (`PhotoDatabase.updateAlbum`, `insertTags`, `dropField`, `renameTag`, ...), with the tables as abstract relations and the Tags uniqueness rule as a parameter;
- how the tag tree computes checked, partially checked and unchecked tags, refreshes itself against the store, and decides which tags are still reachable;
- how a photo row is judged visible: date rounding and range test, hide-tagged, checked-tag substrings and a quote-aware query;
- the in-memory `Photo`, `Album`, `FieldObject` and `FieldObjectContainer` objects, the release-number comparison and the image viewer's navigation.

Both generations of the program are modelled, one Dafny module per source file:

| source | module |
|---|---|
| src/datastore/objects/fieldobjects.py | `FieldObjects` (field_objects.dfy) |
| src/datastore/objects/photo_objects.py | `PhotoObjects` (photo_objects.dfy) |
| src/datastore/database/database.py | `Database` (database.dfy), `TagSync` (tag_sync.dfy, the `updateAlbum` plan and its proofs), `Tables` (tables.dfy, the relations) |
| src/datastore/models/album_model.py | `AlbumModel` (album_model.dfy), `AlbumFilter` (album_filter.dfy) |
| src/FilterTree.py | `FilterTree` (filter_tree.dfy) |
| src/PhotoViewer.py | `PhotoViewer` (photo_viewer.dfy) |
| src/datastore/database/utl.py | `Release` (release.dfy) |
| datastore/objects/fieldobjects.py | `LegacyFieldObjects` |
| datastore/objects/photo_objects.py | `LegacyPhotoObjects` |
| datastore/database/database.py | `LegacyDatabase` |
| datastore/models/album_model.py | `LegacyAlbumModel` |
| FilterTree.py | `LegacyFilterTree` |
| PhotoViewer.py | `LegacyPhotoViewer` |

Shared helpers: `Outcomes` (Python exceptions as `Result` errors), `Text` (strip, lower, split, replace), `Lists` (Python indexing and list edits), `Dates` (the `strptime` formats used), `Values` (cell values and `QVariant`), `TagLists` (`splitTags` and joining).

Objects the source mutates in place (`FieldObject`, `FieldObjectContainer`, `Album`, `PhotoDatabase`, the table model with its undo stack, the tag tree, the viewer, the proxies' settings) are classes whose methods are proved against specification functions; photos, tables, commands and tree rows are values. A raised Python exception is an `Err` of the same name; where the source stops part-way, the state it leaves is stated. The exceptions the model does not raise (among them the UnicodeEncodeError of `str()` on text that is not ASCII, and the OperationalError of a field name holding a quote) and the members whose failure state differs are listed under "## Left out".

## Model

| member | source | states |
|---|---|---|
| `Text.Lower` | src/datastore/models/album_model.py:328-332 | `lower()` keeps the length, lowers each ASCII capital and leaves every other character as it is |
| `Text.LowerIdempotent` | src/datastore/database/database.py:624-638 | lowering a lowered tag changes nothing, so the tag keys built with `lower()` are stable |
| `Text.Strip` | src/datastore/objects/photo_objects.py:66 | `strip()` yields text that neither starts nor ends with white space and is no longer than its input |
| `Text.StripTrims` | src/datastore/objects/photo_objects.py:66 | what `strip()` keeps is an infix of the text, and what it drops on either side is white space |
| `Text.StripStripped` | src/datastore/objects/photo_objects.py:66 | stripping an already stripped piece gives it back |
| `Text.Split` | src/datastore/objects/photo_objects.py:66 | `re.split(';|,', s)` yields one more piece than `s` has delimiters, and no piece holds a delimiter |
| `Text.SplitAtDelim` | src/datastore/objects/photo_objects.py:66 | a delimiter always ends a piece: the split of `a + ";" + b` is the split of `a` followed by that of `b` |
| `Text.Join` | src/datastore/models/album_model.py:233 | `sep.join` of no items is "" and of one item is that item |
| `Text.Find` | src/datastore/models/album_model.py:407 | the left-to-right scan answers the substring test `needle in hay` exactly |
| `Text.ReplaceAbsent` | src/datastore/database/database.py:471 | `str.replace` leaves a text without the (non-empty) old name unchanged |
| `Text.ReplaceSame` | src/datastore/database/database.py:471 | replacing a name by itself changes nothing |
| `Lists.NormIndex` | src/datastore/objects/fieldobjects.py:160-171 | Python indexing accepts exactly `-n <= i < n` and reaches `i` or `i + n` |
| `Lists.InsertPos` | src/datastore/objects/fieldobjects.py:196 | `insert` clamps its index to both ends and counts a negative one from the end |
| `Lists.Insert` | src/datastore/objects/fieldobjects.py:196 | `insert` grows the list by one, with the new item at `InsertPos` and the others in order around it |
| `Lists.IndexOf` | src/datastore/objects/fieldobjects.py:223 | `index` is None exactly when the item is absent, otherwise the first position holding it |
| `Lists.RemoveAt` | src/datastore/objects/photo_objects.py:245 | `pop(k)` shortens the list by one and shifts the items after `k` down |
| `Lists.Remove` | src/datastore/models/album_model.py:227 | `remove` is None (ValueError) exactly when the item is absent, and otherwise takes out one occurrence |
| `Lists.RemoveInserted` | src/datastore/objects/fieldobjects.py:196 | removing the item just inserted gives the list back |
| `Dates.ParseDate` | src/datastore/models/album_model.py:117 | `strptime(s, '%Y-%m-%d')` yields only dates that exist (years 1 to 9999); the day is one or two digits or a blank and one digit; the example lemmas below pin down what it accepts |
| `Dates.ParseDateTime` | src/datastore/objects/photo_objects.py:83 | `strptime(s, '%Y-%m-%d %H:%M:%S')` yields only a valid date with hour, minute and second in range |
| `Dates.FormatDate` | src/datastore/models/album_model.py:112 | `toString('yyyy-MM-dd')` writes ten characters with dashes at positions 4 and 7 |
| `Dates.FormatParse` | src/datastore/models/album_model.py:112-117 | what the date editor writes for a valid date, `strptime` reads back as that same date |
| `Dates.ShortFieldsAccepted` | src/datastore/models/album_model.py:117 | `2017-1-5` is read as 5 January 2017 |
| `Dates.BlankDayAccepted` | src/datastore/models/album_model.py:117 | `%d` also reads a blank and one digit: `2017-01- 5` is 5 January 2017 |
| `Dates.NoSuchDayRefused` | src/datastore/models/album_model.py:117-119 | 29 February 2017 is refused, so the date editor stores "" for it |
| `Dates.ColonDateRefused` | src/datastore/objects/photo_objects.py:83 | a date-time whose date part uses colons does not parse |
| `Values.Coerce` | src/datastore/models/album_model.py:101-122 | `_getSetValue` stores `toBool()` for a check box, an ISO date or "" for a date editor, and the string form otherwise; the result always fits the editor |
| `Values.CoerceRestores` | src/datastore/models/album_model.py:101-122 | writing a cell's own value back through its editor restores it if and only if the value fits that editor |
| `Values.CoerceIdempotent` | src/datastore/models/album_model.py:101-122 | a coerced value survives a second coercion by the same editor |
| `Values.DateEditorStoresIso` | src/datastore/models/album_model.py:111-112 | a date given to a date editor is stored as its `yyyy-MM-dd` text |
| `Values.DateEditorDropsText` | src/datastore/models/album_model.py:113-119 | text that `strptime` refuses is stored as "" by a date editor |
| `Values.CheckBoxReadsText` | src/datastore/models/album_model.py:108-109 | a check box reads "False", "0" and "" as unchecked and any other text as checked |
| `TagLists.CleanPieces` | src/datastore/objects/photo_objects.py:66 | stripping each delimiter-free piece and dropping the empty ones leaves no more pieces, all clean |
| `TagLists.SplitTags` | src/datastore/objects/photo_objects.py:64-66 | `splitTags` gives clean tags: non-empty, stripped and free of delimiters |
| `TagLists.SplitJoin` | src/datastore/models/album_model.py:218-233 | a list of clean tags joined with `'; '` splits back into the same list |
| `TagLists.SplitTagsNormal` | src/datastore/models/album_model.py:218-233 | rewriting a cell from its own tags reads back the same tags |
| `TagLists.SplitTagsSpace` | src/datastore/objects/photo_objects.py:66 | a leading blank does not change the tags read from a cell |
| `TagLists.LowerAll` | src/datastore/models/album_model.py:223 | the lowered list has the same length and the lowered tag at each position |
| `TagLists.DropTag` | src/datastore/models/album_model.py:223-227 | when a tag is present ignoring case, one tag is popped and nothing else changes; otherwise the list is unchanged |
| `TagLists.DropTagFirst` | src/datastore/models/album_model.py:336-339 | dropping a tag removes exactly the first tag equal to it ignoring case and keeps the rest in order |
| `Release.StripParens` | src/datastore/database/utl.py:8-9 | `re.sub('\(.*?\)', '', s)` never lengthens the text; the lemmas below say what it removes |
| `Release.StripParensNone` | src/datastore/database/utl.py:8-9 | a release without `(` is left as it is |
| `Release.StripParensAnnotation` | src/datastore/database/utl.py:8-9 | a trailing annotation such as `(beta)` is dropped |
| `Release.CompareRelease` | src/datastore/database/utl.py:5-15 | -1, 0 or 1 exactly as the annotation-free versions are older, equal or newer |
| `Release.CompareReleaseSame` | src/datastore/database/utl.py:5-15 | every release compares equal to itself |
| `Release.CompareReleaseSwap` | src/datastore/database/utl.py:5-15 | swapping the arguments negates the answer |
| `Release.AnnotatedReleaseEqual` | src/datastore/database/utl.py:5-15 | `0.3.1(beta)` and `0.3.1` compare equal |
| `Release.SplitOn` | src/datastore/database/utl.py:24-25 | `split('.')` yields at least one piece and no piece holds the separator |
| `Release.CompareMinor` | src/datastore/database/utl.py:18-28 | the answer is -1, 0 or 1; `CompareMinorSamePart` ties it to the first two parts |
| `Release.CompareMinorSamePart` | src/datastore/database/utl.py:18-28 | releases with the same major and minor parts compare equal whatever follows |
| `Release.CompareMinorIgnoresPatch` | src/datastore/database/utl.py:18-28 | `0.3.1` and `0.3.7` are the same minor release |
| `FieldObjects.FieldObject.constructor` | src/datastore/objects/fieldobjects.py:35-45 | a field holds exactly the properties it is built with |
| `FieldObjects.FieldObject.Named` | src/datastore/objects/fieldobjects.py:35-45 | `FieldObject(name)` gets the defaults: line edit, optional, editable, renamable, shown, no filter, no tags |
| `FieldObjects.FieldObject.SetEditable` | src/datastore/objects/fieldobjects.py:57-59 | the setter stores the value and changes nothing else |
| `FieldObjects.FieldObject.SetEditor` | src/datastore/objects/fieldobjects.py:65-67 | the setter stores the editor and changes nothing else |
| `FieldObjects.FieldObject.SetHidden` | src/datastore/objects/fieldobjects.py:73-75 | the setter stores the truth value of what it is given |
| `FieldObjects.FieldObject.SetName` | src/datastore/objects/fieldobjects.py:81-86 | renaming succeeds exactly when the name is editable; otherwise ValueError and the name is kept |
| `FieldObjects.FirstNamed` | src/datastore/objects/fieldobjects.py:159-165 | a name lookup gives None exactly when no field has the name, and otherwise the first field that has it |
| `FieldObjects.BoolsOr` | src/datastore/objects/fieldobjects.py:124-126 | `makeBool(lst) or default` is the truth values of a non-empty list, else `n` copies of the default |
| `FieldObjects.ZipPropsDefaults` | src/datastore/objects/fieldobjects.py:133-146 | names alone give every field the documented default properties |
| `FieldObjects.FieldObjectContainer.constructor` | src/datastore/objects/fieldobjects.py:127-128 | a container built from field objects (or from nothing) holds exactly those fields |
| `FieldObjects.FieldObjectContainer.Create` | src/datastore/objects/fieldobjects.py:121-152 | TypeError exactly for a mixed list; names give fresh fields with the zipped properties; field objects are kept as given |
| `FieldObjects.FieldObjectContainer.Names` | src/datastore/objects/fieldobjects.py:232-234 | `names` lists each field's name in order |
| `FieldObjects.FieldObjectContainer.Get` | src/datastore/objects/fieldobjects.py:159-167 | a position follows Python indexing (IndexError outside); a name or a field gives the first field with that name, or None |
| `FieldObjects.FieldObjectContainer.Index` | src/datastore/objects/fieldobjects.py:216-225 | `index` gives the first position of the name or of the very object, and ValueError exactly when it is absent |
| `FieldObjects.FieldObjectContainer.SetItem` | src/datastore/objects/fieldobjects.py:169-173 | a position in range is overwritten (a non-field value by a fresh default field), other positions are kept; IndexError otherwise |
| `FieldObjects.FieldObjectContainer.DelItem` | src/datastore/objects/fieldobjects.py:175-176 | the field at the position is removed and later fields shift down; IndexError outside the list |
| `FieldObjects.FieldObjectContainer.Insert` | src/datastore/objects/fieldobjects.py:186-198 | the field (or a fresh default field for a name) goes at the clamped position, the others keep their order |
| `FieldObjects.FieldObjectContainer.Append` | src/datastore/objects/fieldobjects.py:200-211 | the field (or a fresh default field for a name) is added at the end |
| `FieldObjects.FieldObjectContainer.Extend` | src/datastore/objects/fieldobjects.py:213-214 | the given fields are added at the end in order |
| `FieldObjects.FieldObjectContainer.Remove` | src/datastore/objects/fieldobjects.py:227-230 | a name is resolved to its first field, the first occurrence of that field is removed; ValueError when nothing matches |
| `FieldObjects.Target` | src/datastore/objects/fieldobjects.py:227-229 | what `remove` deletes is None exactly for a name no field has |
| `FieldObjects.GetterTest` | src/datastore/objects/fieldobjects.py:270-273 | by position, by name and by field the first field is found |
| `FieldObjects.IndexTest` | src/datastore/objects/fieldobjects.py:292-294 | `index` finds the second field by object and the first by name |
| `FieldObjects.MissingNameIsNone` | src/datastore/objects/fieldobjects.py:162-165 | a name no field has looks up as None |
| `FieldObjects.MixedIsRefused` | src/datastore/objects/fieldobjects.py:262-268 | a list mixing a name and a field is neither all names nor all fields, so construction raises TypeError |
| `PhotoObjects.FieldByName` | src/datastore/objects/photo_objects.py:47-55 | `field_by_name` succeeds exactly when every key is a field object and one key has the name; AttributeError when a stray key is present, ValueError for no or several fields |
| `PhotoObjects.Get` | src/datastore/objects/photo_objects.py:38-42 | a field object is looked up directly (KeyError when absent); a name goes through `field_by_name` and gives that field's value |
| `PhotoObjects.Tags` | src/datastore/objects/photo_objects.py:60-75 | `photo.tags(field)` is the clean tags of a text cell; a read error propagates, and a non-text cell raises TypeError |
| `PhotoObjects.DateTimeOf` | src/datastore/objects/photo_objects.py:76-85 | `photo.datetime` is None without a Date field or with an empty, non-text or unparsable cell, the parsed date-time otherwise; ValueError or AttributeError from the name lookup |
| `PhotoObjects.MakePhoto` | src/datastore/objects/photo_objects.py:28-36 | `Photo(fields, values)` has exactly the given fields as keys and no stray key |
| `PhotoObjects.MakePhotoLastWins` | src/datastore/objects/photo_objects.py:36 | `dict(zip(...))`: a field holds the value at its last position |
| `PhotoObjects.Put` | src/datastore/objects/photo_objects.py:167-171 | a resolved field gets the value in its cell; None becomes a stray key, after which no field of the photo can be read by name (AttributeError) |
| `PhotoObjects.RemoveKey` | src/datastore/objects/photo_objects.py:57-58 | `removeField` deletes exactly that key and keeps every other cell |
| `PhotoObjects.NextNumber` | src/datastore/objects/photo_objects.py:146-149 | the counter is at least 1 and above every `Tag Field <n>` number among the names |
| `PhotoObjects.DefaultNameNumber` | src/datastore/objects/photo_objects.py:146-149 | the number in a generated `Tag Field <n>` name reads back as `n` |
| `PhotoObjects.DefaultNameFresh` | src/datastore/objects/photo_objects.py:221-228 | a generated name numbered at or above the counter is none of the given names |
| `PhotoObjects.DefaultFields` | src/datastore/objects/photo_objects.py:182-204 | `initializeFields` yields a fresh container of eight fresh fields with the listed properties |
| `PhotoObjects.DefaultNamesDistinct` | src/datastore/objects/photo_objects.py:182-204 | the eight default names are pairwise distinct |
| `PhotoObjects.DropUsedStep` | src/datastore/objects/photo_objects.py:132-133 | each `fields.remove(f)` for the next used field removes exactly that field's first occurrence |
| `PhotoObjects.LastNamed` | src/datastore/objects/photo_objects.py:125-131 | the field that ends up replacing a default is the last given field with that name |
| `PhotoObjects.ReplaceAllLastWins` | src/datastore/objects/photo_objects.py:125-131 | after the replacement loop each default named by a given field is the last such field, and the other defaults stay in place |
| `PhotoObjects.ReplaceStep` | src/datastore/objects/photo_objects.py:127-130 | one iteration replaces the field with the given name, if any, and keeps the names |
| `PhotoObjects.ReplaceNamed` | src/datastore/objects/photo_objects.py:124-131 | the first loop replaces same-named fields in order and collects exactly the used fields |
| `PhotoObjects.NewNamedFields` | src/datastore/objects/photo_objects.py:119-123 | the list path's loop makes a fresh default field per name and raises ValueError exactly at the first repeated name |
| `PhotoObjects.NamedFields` | src/datastore/objects/photo_objects.py:113-123 | the list path raises ValueError exactly when a name repeats (or is a default name) and otherwise gives the defaults plus one fresh field per name |
| `PhotoObjects.RemoveUsed` | src/datastore/objects/photo_objects.py:132-133 | the second loop leaves exactly the given fields that were not used |
| `PhotoObjects.ReplaceAndExtend` | src/datastore/objects/photo_objects.py:124-134 | the container path replaces same-named defaults and appends the rest; the used fields leave the caller's container |
| `PhotoObjects.ContainerFields` | src/datastore/objects/photo_objects.py:124-134 | the container path yields fresh fields that satisfy the replaced-and-extended description |
| `PhotoObjects.Album.FromContainer` | src/datastore/objects/photo_objects.py:113-149 | `Album(fields, values)` on a container: the fields as above, one photo per value row, and the counter from the appended names |
| `PhotoObjects.Album.FieldNames` | src/datastore/objects/photo_objects.py:257-259 | `field_names` lists the fields' names in order |
| `PhotoObjects.Album.Entry` | src/datastore/objects/photo_objects.py:154-162 | `album[row]` follows Python indexing; IndexError outside the list |
| `PhotoObjects.Album.Cell` | src/datastore/objects/photo_objects.py:154-160 | `album[row, field]`: IndexError for the row; a field object looks up its cell; a name resolves to its first field and reads that cell |
| `PhotoObjects.Album.SetCell` | src/datastore/objects/photo_objects.py:167-171 | the field is resolved by the container (IndexError), then the photo at the row (IndexError) gets the value under it; a name no field has writes a stray None key |
| `PhotoObjects.Album.InsertField` | src/datastore/objects/photo_objects.py:206-238 | a missing name is `Tag Field <counter>` and advances the counter; a name in use raises ValueError with nothing changed; otherwise the field is inserted and every photo gets "" under it |
| `PhotoObjects.Album.FillColumn` | src/datastore/objects/photo_objects.py:237-238 | every photo gets the value under the field |
| `PhotoObjects.Album.RemoveField` | src/datastore/objects/photo_objects.py:240-247 | IndexError for a bad position; AlbumError for a required field unless forced, with nothing changed; otherwise the field leaves the container and every photo |
| `PhotoObjects.Album.DropColumn` | src/datastore/objects/photo_objects.py:246-247 | every photo loses the field's key and keeps its other cells |
| `PhotoObjects.Album.DelItem` | src/datastore/objects/photo_objects.py:151-152 | the photo at the Python index leaves the list; IndexError otherwise |
| `PhotoObjects.Album.Insert` | src/datastore/objects/photo_objects.py:173-174 | `insert` places the photo with Python's clamping |
| `PhotoObjects.InsertKeepsConsistent` | src/datastore/objects/photo_objects.py:234-238 | inserting a field with a fresh name keeps names distinct and gives every photo exactly the fields' keys |
| `PhotoObjects.GetByNameTest` | src/datastore/objects/photo_objects.py:293-294 | test_getItem: the fixture photo reads 'meta1' by name and by field |
| `PhotoObjects.DateFixtureTest` | src/datastore/objects/photo_objects.py:275-297 | test_date as written: the fixture's colon-separated date is refused, so `datetime` is None, not the expected value |
| `PhotoObjects.DashedFixtureTest` | src/datastore/objects/photo_objects.py:275-297 | with the date written as `2017-01-01 00:00:01`, `datetime` is 1 January 2017 00:00:01, as the test expects |
| `Dates.DashedDateTimeAccepted` | src/datastore/objects/photo_objects.py:83 | `strptime('2017-01-01 00:00:01', '%Y-%m-%d %H:%M:%S')` is 1 January 2017 00:00:01 |
| `PhotoObjects.Album.FromNames` | src/datastore/objects/photo_objects.py:113-123 | `Album(names, values)`: ValueError exactly when a name repeats a default field or an earlier name; otherwise the default fields, then one plain field per name, one photo per value row, and the counter from the names |
| `PhotoObjects.Album.MakeEntries` | src/datastore/objects/photo_objects.py:140-142 | one photo per value row over the album's fields, in order |
| `PhotoObjects.MaxNumber` | src/datastore/objects/photo_objects.py:146-149 | none exactly when no name is a numbered generic name; otherwise at least every such number |
| `Tables.TagFieldFrom` | src/datastore/database/database.py:113-116 | `SELECT FieldId FROM TagFields WHERE Name == ?` with `fetchone` is None exactly when no tag field has the name, otherwise the id of the first such row |
| `Tables.LastTagField` | src/datastore/database/database.py:592-596 | `dict(SELECT Name, FieldId ...)[name]` is None exactly when no tag field has the name, otherwise the id of a row with that name (the last) |
| `Tables.AddFieldRows` | src/datastore/database/database.py:213-218 | each inserted property list becomes a new Fields row under the next FieldId, after the existing rows |
| `Tables.AddFieldRowsBelow` | src/datastore/database/database.py:213-218 | inserting fields keeps the FieldIds in use distinct and below the last id handed out |
| `Tables.UpdateFieldRows` | src/datastore/database/database.py:490 | `UPDATE Fields SET ... WHERE Name=?` gives every row with the name the new properties and keeps its id |
| `Tables.UpdateAllRows` | src/datastore/database/database.py:502-503 | the updates run in order: each row keeps its id and name and ends with the last properties given under its name |
| `Tables.DropNamed` | src/datastore/database/database.py:506-511 | deleting by name removes exactly the rows with the listed names and keeps ids distinct |
| `Tables.SplitKnown` | src/datastore/database/database.py:493-498 | the loop splits the given fields into those whose name is already in Fields (updates) and the others (inserts), in order |
| `Tables.Missing` | src/datastore/database/database.py:506 | the names to delete are exactly the Fields names not among the given fields |
| `Tables.SetFieldRowsBelow` | src/datastore/database/database.py:473-512 | `setFields` keeps the FieldIds in use distinct and handed out |
| `Tables.SetFieldRowsOnlyGiven` | src/datastore/database/database.py:473-512 | after `setFields` every Fields name is one of the given names |
| `Tables.SetFieldRowsAllGiven` | src/datastore/database/database.py:473-512 | after `setFields` every given name has a Fields row |
| `Tables.SetFieldRowsKeepsIds` | src/datastore/database/database.py:473-512 | a row whose name is given keeps its FieldId and carries the last properties given under its name |
| `Tables.InsertAll` | src/datastore/database/database.py:315-326 | each accepted (FieldId, value) pair becomes a row under the next TagId and its id is returned; a refused pair is skipped; earlier rows are kept |
| `Tables.InsertOne` | src/datastore/database/database.py:315-326 | a single tag comes back as a new row exactly when the uniqueness rule does not refuse it; otherwise nothing changes |
| `Tables.InsertAllIds` | src/datastore/database/database.py:315-326 | at most one id per pair, and each new row holds one of the given pairs |
| `Tables.InsertAllPresent` | src/datastore/database/database.py:315-326 | after `insertTags` every given pair is present in its field, itself or as a row the uniqueness rule counts as the same |
| `Tables.TagIdFor` | src/datastore/database/database.py:652-654 | `tagIds[(catId, low)]` is the largest TagId whose row matches, and None when no row does (the KeyError case) |
| `Tables.DropFileMaps` | src/datastore/database/database.py:90-91 | `DELETE FROM TagMap WHERE FilId == ?` keeps exactly the mappings of other files |
| `Tables.DropUnkept` | src/datastore/database/database.py:580-585 | the mapping delete of `updateAlbum` removes exactly the file's mappings to tags of the field whose lowered text is not kept |
| `Tables.DropFieldRows` | src/datastore/database/database.py:117-123 | `dropField` removes the mappings to the field's tags, its tags and every Fields row with its name, and nothing else |
| `Tables.DropFieldRowsLinked` | src/datastore/database/database.py:117-123 | after the drop no tag of the field remains and every mapping still names a tag and a file |
| `Tables.DeleteFileRows` | src/datastore/database/database.py:89-94 | `deleteFile` removes the file's mappings and its File row only |
| `Tables.DeleteFileRowsLinked` | src/datastore/database/database.py:89-94 | after the delete every mapping still names a tag and a file, and none names the deleted file |
| `Tables.Zip` | src/datastore/database/database.py:678 | `zip(tagged, FileIds)` pairs the lists up to the shorter length |
| `Tables.SetTagged` | src/datastore/database/database.py:676-678 | each file ends with the flag of the last pair naming it, other files keep theirs, and `rowcount` counts the matched pairs |
| `TagSync.FileIds` | src/datastore/database/database.py:573 | `[k.fileId for k in album]` succeeds exactly when every photo's FileId reads by name, and lists them in order; the errors are those of `field_by_name` |
| `TagSync.QueueTags` | src/datastore/database/database.py:628-638 | one photo's tag loop only adds to the insert and map queues; the tagged and prune queues are untouched |
| `TagSync.TagMaps` | src/datastore/database/database.py:628-638 | every mapping queued for a cell is for this file and field and holds a lowered tag of the cell |
| `TagSync.QueueInserts` | src/datastore/database/database.py:631-635 | insertions are only appended, each for this field, one of the cell's tags and a lowered text the field lacks |
| `TagSync.QueueInsertsHas` | src/datastore/database/database.py:631-635 | a non-blank tag whose lowered text the field lacks ends up queued for insertion |
| `TagSync.QueueInsertsOnce` | src/datastore/database/database.py:632-633 | the `cat_tag not in tags2insert` test never queues a pair twice |
| `TagSync.TagMapsFrom` | src/datastore/database/database.py:628-638 | each queued mapping comes from a non-blank tag of the cell |
| `TagSync.TagMapsHas` | src/datastore/database/database.py:628-638 | each non-blank tag of the cell gets its mapping queued |
| `TagSync.Resolve` | src/datastore/database/database.py:652-654 | the TagId lookup fails (KeyError) exactly when some queued mapping has no matching row, and otherwise pairs each file with its tag's id |
| `TagSync.DropAll` | src/datastore/database/database.py:661-662 | after the prune queries a mapping remains exactly when no queued prune removes it |
| `TagSync.PlanFoldResolvable` | src/datastore/database/database.py:604-645 | the collecting loops only queue mappings that will resolve once the queued tags are inserted |
| `TagSync.PlanFoldDelsFrom` | src/datastore/database/database.py:604-645 | every prune the loops queue belongs to a visited file and a tag field it names |
| `TagSync.UpdateAlbumKeepsOtherFields` | src/datastore/database/database.py:580-585 | a mapping to a tag of a field that no listed field name maps to survives `updateAlbum`, whatever the photos hold |
| `TagSync.ApplyResolves` | src/datastore/database/database.py:647-654 | when the uniqueness rule only merges tags equal ignoring case, every queued mapping resolves after the inserts, so no KeyError |
| `TagSync.PlanFoldStops` | src/datastore/database/database.py:604-645 | once reading a cell fails, the later cells change nothing |
| `TagSync.PlanFoldErrors` | src/datastore/database/database.py:604-645 | collecting fails only as reading a photo does: ValueError, TypeError or AttributeError |
| `TagSync.NameOfTagField` | src/datastore/database/database.py:591-596 | with distinct FieldIds the tag field found by name is the row carrying that name |
| `TagSync.PlanFoldCoherent` | src/datastore/database/database.py:604-645 | the plan the loops build agrees with the album: queued maps and prunes hold the cells' lowered tags |
| `TagSync.PlanFoldPrunes` | src/datastore/database/database.py:604-645 | every visited cell of a tag field has queued its prune |
| `TagSync.ApplyKeeps` | src/datastore/database/database.py:646-662 | a tag the album keeps for a pruned cell is mapped after the writes |
| `TagSync.ApplySyncs` | src/datastore/database/database.py:646-662 | after the writes a pruned file and field is mapped to exactly the tags kept for it |
| `TagSync.UpdateAlbumSyncs` | src/datastore/database/database.py:561-662 | on success every listed photo is mapped, in every listed tag field, to exactly the tags (ignoring case) its cell holds |
| `TagSync.UpdateAlbumErrors` | src/datastore/database/database.py:561-662 | with a case-insensitive uniqueness rule `updateAlbum` fails only while reading the album, before any write, with ValueError, TypeError or AttributeError |
| `Database.RenameIn` | src/datastore/database/database.py:471 | the intended rename of a tag list: same length, each tag equal to the old name ignoring case becomes the new name and every other tag is kept |
| `Database.RenameTagTextTags` | src/datastore/database/database.py:471 | renaming tag by tag gives a cell whose tags are exactly the old ones with the matching tags renamed |
| `Database.ReplaceRewritesLongerTag` | src/datastore/database/database.py:471 | as written, `str.replace` renaming `Mom` to `Mother` in `Mom; Momma` also rewrites the longer tag, giving `Mother; Motherma` |
| `Database.ReplaceEachTag` | src/datastore/database/database.py:471 | `str.replace` rewrites every occurrence of the pattern, including one at the head of a later tag |
| `Database.TwoTags` | src/datastore/objects/photo_objects.py:60-66 | two clean tags joined by `; ` split back into exactly those two |
| `Database.RenameTagTextKeepsLongerTag` | src/datastore/database/database.py:471 | the corrected rename of `Mom` in `Mom; Momma` changes the first tag only |
| `Database.RenameCell` | src/datastore/database/database.py:470-471 | one photo's rename succeeds exactly when the cell reads by name and holds text; the error is the read's (ValueError, AttributeError) or the AttributeError of `.replace` on a cell that is not text; as written the result lands under a new stray key and the cells stay as they were |
| `Database.RenameCellTags` | src/datastore/database/database.py:470-471 | after the corrected rename of one photo the cell's tags are its old tags with the matching ones renamed |
| `Database.RenameCellAsWrittenPoisons` | src/datastore/database/database.py:470-471 | as written, a renamed photo keeps its cells but every later by-name read of it raises AttributeError |
| `Database.RenameLookup` | src/datastore/database/database.py:460-466 | the lookup fails with TypeError exactly when the tag row or its field row is missing, with IntegrityError exactly when the uniqueness rule refuses the new value, and with nothing else |
| `Database.RenamedOneMore` | src/datastore/database/database.py:470-471 | one more pass of the photo loop extends the renamed prefix by one photo |
| `Database.RenameTwiceFails` | src/datastore/database/database.py:470-471 | as written, after a rename over a non-empty album the next rename stops with AttributeError at the first photo and changes nothing |
| `Database.TagParams` | src/datastore/database/database.py:306-313 | the parameter rows of `insertTags`: scalars are wrapped into lists and zipped with the values, pairs are taken as given, and any other shape is a TypeError |
| `Database.PhotoDatabase.NextDefaultField` | src/datastore/database/database.py:430-436 | the number is at least 1 and above every N of a `Tag Field N` name, so the default name it yields is never in use |
| `Database.PhotoDatabase.DeleteFile` | src/datastore/database/database.py:83-97 | the file's mappings and File row are deleted, then the photo with that FileId leaves the album; ValueError when none has it |
| `Database.PhotoDatabase.DropField` | src/datastore/database/database.py:99-127 | corrected drop: IndexError or DatabaseError before any change; a field with no TagFields row changes nothing; otherwise its mappings, tags and Fields row go and the album drops the column with `force` passed on |
| `Database.PhotoDatabase.DropFieldAsWritten` | src/datastore/database/database.py:99-127 | as written: a forced drop of a required tag field deletes its rows and then fails with AlbumError, leaving the album as it was |
| `Database.PhotoDatabase.InsertField` | src/datastore/database/database.py:178-227 | a missing name becomes `Tag Field N`; a name in use raises ValueError before any write; otherwise a Fields row is added, the field is inserted at the index (default end) and every photo gets `''` for it |
| `Database.PhotoDatabase.AddFieldRow` | src/datastore/database/database.py:209-218 | one Fields row is added under the next FieldId, which is returned, and nothing else changes |
| `Database.PhotoDatabase.PlaceField` | src/datastore/database/database.py:223-225 | the field is inserted at the normalised position and every photo gets `''` under it; IndexError when photos exist and the index is not a valid position |
| `Database.PhotoDatabase.InsertTags` | src/datastore/database/database.py:294-326 | the parameter rows are inserted in order and the ids of the accepted ones returned; a malformed argument is a TypeError with nothing inserted |
| `Database.PhotoDatabase.InsertPairs` | src/datastore/database/database.py:317-324 | each pair the uniqueness rule accepts becomes a Tags row under the next TagId and its id is recorded; a refused pair is skipped |
| `Database.PhotoDatabase.UpdateTagged` | src/datastore/database/database.py:664-678 | each named file gets the flag paired with it, the last pairing winning, and the rowcount counts the pairs that name a file |
| `Database.PhotoDatabase.SetFields` | src/datastore/database/database.py:473-512 | rows for new names are inserted, rows for listed names updated, rows for unlisted names deleted, and no other table changes |
| `Database.PhotoDatabase.RenameTagRow` | src/datastore/database/database.py:460-466 | the Tags row is renamed exactly when the lookup finds it renameable; otherwise the store is unchanged |
| `Database.PhotoDatabase.RenameCells` | src/datastore/database/database.py:469-471 | the photo loop renames photos in order and stops at the first photo whose cell cannot be read, with that error |
| `Database.PhotoDatabase.RenameTag` | src/datastore/database/database.py:452-471 | `renameTag`: the Tags row is renamed when it can be, then the photos are renamed, as written or as intended |
| `Database.PhotoDatabase.UpdateAlbum` | src/datastore/database/database.py:561-662 | the outcome and the new tables are those of the `updateAlbum` specification over the old tables, which the TagSync lemmas prove keeps the mappings in step with the cells |
| `Database.PhotoDatabase.SetItem` | src/datastore/database/database.py:687-692 | the album cell is set (a name the album lacks becomes a stray None key, and the FileId read then fails with AttributeError); otherwise `updateAlbum` runs for that one photo and field and its outcome and tables are stated; with a FileId that is not an integer a field that is neither Tagged nor a tag field is skipped, leaving the tables as they were and failing only when some photo's FileId cannot be read |
| `Database.PruneMaps` | src/datastore/database/database.py:660-662 | running the prune queries one after another leaves the mappings `DropAll` gives |
| `Database.CollectPlan` | src/datastore/database/database.py:604-645 | the two collecting loops compute the fold of the loop body over all (file, field) cells, stopping at the first error |
| `Database.CollectRow` | src/datastore/database/database.py:604-645 | the inner loop over one file's fields extends that fold by the file's row of cells |
| `Database.StepCell` | src/datastore/database/database.py:606-644 | one pass of the inner loop body is one step of the fold |
| `Database.StepTagged` | src/datastore/database/database.py:610-613 | the Tagged field queues the photo's flag as 1 or 0 |
| `Database.StepTagField` | src/datastore/database/database.py:617-644 | a tag field queues the photo's tags for insertion and mapping and a prune that keeps them |
| `Database.StepOtherField` | src/datastore/database/database.py:617-619 | any other field leaves the plan as it was |
| `Database.PhotoDatabase.constructor` | src/datastore/database/database.py:23-27 | the connection starts over the given tables, album and tag comparison |
| `AlbumModel.SetCell` | src/datastore/database/database.py:687-689 | writing one existing cell changes that cell only: same columns, tables and shape |
| `AlbumModel.TagState` | src/datastore/models/album_model.py:325-339 | adding keeps the old tags as a prefix and appends the tag only when no tag equal to it ignoring case is present; removing only takes tags away |
| `AlbumModel.DropTagAt` | src/datastore/models/album_model.py:336-338 | removal cuts at the first tag equal to the given one ignoring case |
| `AlbumModel.TagStateAddRemove` | src/datastore/models/album_model.py:316-340 | checking then unchecking a tag that was absent gives the cell's tags back |
| `AlbumModel.TagStateClean` | src/datastore/models/album_model.py:325-339 | toggling a clean tag keeps every tag of the cell clean |
| `AlbumModel.TagStateCell` | src/datastore/models/album_model.py:325-340 | the text written back with `'; '.join` splits into exactly the edited tags |
| `AlbumModel.DropAllTags` | src/datastore/models/album_model.py:222-227 | the removal loop only takes tags away |
| `AlbumModel.DropAllTagsKeeps` | src/datastore/models/album_model.py:222-227 | a tag equal to no removal, ignoring case, survives the loop |
| `AlbumModel.DropAllTagsDrops` | src/datastore/models/album_model.py:222-227 | with tags distinct ignoring case, every removed tag is gone afterwards |
| `AlbumModel.DropAllTagsAbsent` | src/datastore/models/album_model.py:222-227 | the removal loop never brings back an absent tag |
| `AlbumModel.Additions` | src/datastore/models/album_model.py:230-231 | the added tags are the new tags not already present by exact, case-sensitive comparison |
| `AlbumModel.MergeTags` | src/datastore/models/album_model.py:221-231 | the batch edit keeps the surviving old tags in order as a prefix, contains every new tag, and appends only new tags not already there |
| `AlbumModel.MergeTagsClean` | src/datastore/models/album_model.py:217-231 | a clean cell stays clean through a batch edit with clean new tags |
| `AlbumModel.BatchValue` | src/datastore/models/album_model.py:211-233 | the value a batch stores in a cell is always one its column's editor would store |
| `AlbumModel.BatchValueTags` | src/datastore/models/album_model.py:215-233 | in a text column the cell's tags after the batch are the merged tags |
| `AlbumModel.ColOf` | src/datastore/models/album_model.py:201 | `fields.index(fieldname)` finds a column carrying that name |
| `AlbumModel.StepForRaw` | src/datastore/models/album_model.py:211-213 | a QVariant value is stored through the editor's coercion, whatever the cell held |
| `AlbumModel.RowsFoldCells` | src/datastore/models/album_model.py:205-235 | with no row listed twice the inner loop rewrites each listed row's cell from its value before the loop and leaves every other cell alone |
| `AlbumModel.RowsFoldOlds` | src/datastore/models/album_model.py:205-214 | every visited position records a QVariant for the field, and other records are untouched |
| `AlbumModel.FieldsFoldFrame` | src/datastore/models/album_model.py:200-235 | the field loop leaves unlisted rows and unlisted fields' columns alone |
| `AlbumModel.FieldsFoldOlds` | src/datastore/models/album_model.py:200-214 | after the field loop every record holds a QVariant for each field visited |
| `AlbumModel.FieldsFoldCells` | src/datastore/models/album_model.py:185-240 | with no row and no field listed twice, each listed cell gets the value rewritten from the cell as it was before the call |
| `AlbumModel.FieldsFoldRecords` | src/datastore/models/album_model.py:185-240 | with no row and no field listed twice, the records returned hold each listed cell's value from before the call |
| `AlbumModel.ColsOnce` | src/datastore/models/album_model.py:200-201 | distinct field names find distinct columns |
| `AlbumModel.BatchRedoTouched` | src/datastore/models/album_model.py:544-547 | the redo writes each listed cell with its editor's value for the old cell, the new tags and the removals |
| `AlbumModel.BatchRedoRecord` | src/datastore/models/album_model.py:544-547 | the redo records each listed cell's previous value |
| `AlbumModel.BatchRedoUntouched` | src/datastore/models/album_model.py:544-547 | the redo leaves every cell outside the listed rows and fields as it was |
| `AlbumModel.BatchUndoTouched` | src/datastore/models/album_model.py:549-550 | the undo writes the recorded QVariant back through the column's editor |
| `AlbumModel.BatchUndoUntouched` | src/datastore/models/album_model.py:544-550 | a cell the batch did not touch is written by neither redo nor undo |
| `AlbumModel.BatchUndoCell` | src/datastore/models/album_model.py:544-550 | undo after redo: an untouched cell is as it was, and a touched cell gets its old value back exactly when its editor would store that value |
| `AlbumModel.BatchUndoRestores` | src/datastore/models/album_model.py:544-550 | when every touched cell holds a value its editor would store, undo after redo restores the whole grid |
| `AlbumModel.DropRemovals` | src/datastore/models/album_model.py:222-227 | the loop that pops a tag and keeps the lower-cased copy in step computes exactly the removal fold |
| `AlbumModel.WriteCell` | src/datastore/models/album_model.py:140-155 | `_setData` succeeds exactly for a cell of the table (else IndexError) and stores the value coerced by the column's editor there, and nothing else |
| `AlbumModel.WriteCellUndo` | src/datastore/models/album_model.py:657-663 | writing back the old value undoes a cell edit exactly when the old value is one the editor would store |
| `AlbumModel.BatchRun` | src/datastore/models/album_model.py:185-240 | `_batchAddTags` runs through exactly when the batch is addressable; no rows is a ValueError from `min(rows)` |
| `AlbumModel.TagById` | src/datastore/models/album_model.py:587 | the tag's value and field for a known id, and None exactly for an unknown one |
| `AlbumModel.FilesOf` | src/datastore/models/album_model.py:593-596 | exactly the files mapped to the tag |
| `AlbumModel.DeleteTagRows` | src/datastore/models/album_model.py:593-596 | deleting a tag removes its row and mappings and returns exactly the files that were mapped to it |
| `AlbumModel.MapTags` | src/datastore/models/album_model.py:603 | mapping adds exactly the pairs of the tag with the given files to the mappings and changes nothing else |
| `AlbumModel.RenameFrom` | src/datastore/database/database.py:469-471 | the loop over the photos keeps the grid's shape and runs through exactly when every remaining cell of the column is text, and a cell that is not text stops it with AttributeError |
| `AlbumModel.RenamedRow` | src/datastore/database/database.py:471 | a renamed row changes only its cell of the column |
| `AlbumModel.RenameFromCell` | src/datastore/database/database.py:469-471 | when the column holds text throughout, each of its cells is renamed and every other cell is as it was |
| `AlbumModel.RenameInRoundTrip` | src/datastore/models/album_model.py:627-633 | renaming a tag list and renaming it back gives it back exactly when the rename is reversible on it |
| `AlbumModel.RenameInClean` | src/datastore/database/database.py:471 | renaming to a clean tag keeps every tag clean |
| `AlbumModel.RenameTextRoundTrip` | src/datastore/models/album_model.py:627-633 | renaming a cell's text and back gives the cell's tags rejoined with `'; '` exactly when the rename is reversible on them |
| `AlbumModel.RenameRun` | src/datastore/database/database.py:452-471 | the dataset's corrected rename keeps the table sound and its shape; a failed lookup leaves the dataset as it was |
| `AlbumModel.RedoStep` | src/datastore/models/album_model.py:544-663 | `redo()` of each command keeps the table sound and the command's kind, capturing its records only on the first redo |
| `AlbumModel.UndoStep` | src/datastore/models/album_model.py:549-663 | `undo()` of each command keeps the table sound; a deleted tag comes back under a new id that replaces the command's; undoing a batch whose redo captured no records is a TypeError (ValueError for an empty batch) and changes nothing |
| `AlbumModel.SetDataRedoUndo` | src/datastore/models/album_model.py:636-663 | `setDataCmd` undo after redo gives the table's cells back exactly when the old value is one the editor stores |
| `AlbumModel.BatchRedoUndo` | src/datastore/models/album_model.py:523-550 | `batchAddCmd` that runs through: undo after the first redo leaves untouched cells as they were and restores each touched cell exactly when its editor would store its old value |
| `AlbumModel.DeleteTagRedoUndo` | src/datastore/models/album_model.py:574-604 | `deleteTagCmd`: undo after redo inserts the tag anew under the next id with its value and field and maps it to exactly the files the first redo captured |
| `AlbumModel.RenameTextBack` | src/datastore/models/album_model.py:627-633 | renaming back restores a cell's text exactly when the rename restores on it |
| `AlbumModel.RenameStoreBack` | src/datastore/models/album_model.py:627-633 | when the old name is unique in its field, renaming back is accepted and restores the tables |
| `AlbumModel.RenameFromBack` | src/datastore/models/album_model.py:627-633 | when the column holds text throughout, renaming back runs through and restores the grid exactly when every cell restores |
| `AlbumModel.RenameBackGrid` | src/datastore/models/album_model.py:627-633 | when every cell of the column restores, renaming and renaming back gives the grid back |
| `AlbumModel.RenameRunBack` | src/datastore/models/album_model.py:607-633 | with a clean old name unique in its field and a text column, rename and its reverse both run through and restore the tag row and the cells that restore |
| `AlbumModel.RenameRedoUndo` | src/datastore/models/album_model.py:607-633 | `renameTagCmd` (over the corrected rename): undo after redo is the dataset's rename and its reverse |
| `AlbumModel.DropColumn` | src/datastore/database/database.py:99-127 | a tag field loses its mappings, tags and Fields row and its column in every row; a field that is not a tag field leaves the dataset as it was |
| `AlbumModel.DropColumnGone` | src/datastore/database/database.py:111-127 | after a tag field is dropped its name is no longer a column, none of its tags remain and the other columns keep their order |
| `AlbumModel.Model.RunBatch` | src/datastore/models/album_model.py:185-240 | the two nested loops of `_batchAddTags` compute exactly the field fold over the rows, recording each cell before rewriting it |
| `AlbumModel.Model.Apply` | src/datastore/models/album_model.py:544-663 | running a command's redo gives exactly the redo step's dataset and captured command |
| `AlbumModel.Model.Push` | src/datastore/models/album_model.py:135 | `undoStack.push`: the command's redo runs, the commands above the cursor are discarded and the command goes on top |
| `AlbumModel.Model.Undo` | src/datastore/models/album_model.py:549-663 | the command below the cursor is undone and the cursor moves down; with none nothing happens |
| `AlbumModel.Model.Redo` | src/datastore/models/album_model.py:544-663 | the command at the cursor is redone and the cursor moves up; with none nothing happens |
| `AlbumModel.Model.SetData` | src/datastore/models/album_model.py:124-138 | a cell of the table pushes a `setDataCmd` holding the cell's value and returns True; any other index pushes nothing and returns False |
| `AlbumModel.Model.SetTagState` | src/datastore/models/album_model.py:316-340 | an unknown field name is a ValueError; otherwise the cell's tags are toggled and the joined text goes through `setData` |
| `AlbumModel.Model.BatchAddTags` | src/datastore/models/album_model.py:164-183 | pushes a `batchAddCmd` with no records yet, whose field order is the first row's addition and removal keys, each exactly once (`set(values[0].keys() + rvalues[0].keys())`) |
| `AlbumModel.BatchKeysAreColumns` | src/datastore/models/album_model.py:200-201 | when the field order is the first row's addition and removal keys, each once, a batch that runs through names only existing columns: any other key stops it with the ValueError of `fields.index` |
| `AlbumModel.Model.DeleteTag` | src/datastore/models/album_model.py:297-304 | an unknown id is a TypeError with nothing pushed; otherwise a `deleteTagCmd` is pushed |
| `AlbumModel.Model.RenameTag` | src/datastore/models/album_model.py:306-314 | an unknown id is a TypeError with nothing pushed; otherwise a `renameTagCmd` is pushed |
| `AlbumModel.Model.RemoveColumns` | src/datastore/models/album_model.py:62-78 | a bad position is an IndexError; a required field without `force` gives False and changes nothing; otherwise the field is dropped and True comes back |
| `AlbumModel.RenameRunAt` | src/datastore/database/database.py:452-471 | when the lookup succeeds for column `col`, the corrected rename renames the tag row and runs the cell loop over that column |
| `AlbumModel.Model.RunField` | src/datastore/models/album_model.py:205-235 | the row loop for one field computes the row fold over all listed rows |
| `AlbumModel.Model.Visit` | src/datastore/models/album_model.py:206-235 | one pass of the row loop is one step of the row fold |
| `AlbumModel.Model.CellValue` | src/datastore/models/album_model.py:211-233 | the value computed for one cell is the batch value: a QVariant coerced, or the removals, additions and `'; '.join` |
| `AlbumModel.Model.constructor` | src/datastore/models/album_model.py:14-18 | a new model holds the dataset, with an empty undo stack |
| `AlbumFilter.RoundDate` | src/datastore/models/album_model.py:440-451 | rounding keeps the year; below day resolution the day becomes 1, below month resolution the month too |
| `AlbumFilter.RoundDateIdempotent` | src/datastore/models/album_model.py:440-451 | rounding a rounded date changes nothing |
| `AlbumFilter.RoundDateDay` | src/datastore/models/album_model.py:447-451 | day resolution leaves a date alone |
| `AlbumFilter.RoundDateMonotone` | src/datastore/models/album_model.py:385-394 | rounding keeps the order of dates, so a row inside the range stays inside after rounding |
| `AlbumFilter.RoundDateCoarser` | src/datastore/models/album_model.py:440-451 | rounding finer and then coarser is rounding coarser |
| `AlbumFilter.DateCoarserAccepts` | src/datastore/models/album_model.py:382-394 | a coarser resolution lets through every row a finer one lets through, in range and in single-date mode |
| `AlbumFilter.QuoteAt` | src/datastore/models/album_model.py:416 | the position of the first `"`, or none when there is none |
| `AlbumFilter.TokenLen` | src/datastore/models/album_model.py:416 | the length of the pattern's match at the start of the text never exceeds the text |
| `AlbumFilter.Terms` | src/datastore/models/album_model.py:416-417 | `PATTERN.split(pat)[1::2]` yields only non-empty matches |
| `AlbumFilter.Unquote` | src/datastore/models/album_model.py:420 | `k.replace('"', '')` leaves no quote |
| `AlbumFilter.TokenLenWord` | src/datastore/models/album_model.py:416 | a word followed by white space or the end is matched whole |
| `AlbumFilter.TokenLenPhrase` | src/datastore/models/album_model.py:416 | a quoted phrase followed by white space or the end is matched whole, quotes included |
| `AlbumFilter.TermsSpace` | src/datastore/models/album_model.py:416-417 | a leading space is skipped |
| `AlbumFilter.TermsItem` | src/datastore/models/album_model.py:416-417 | the match of a word or phrase followed by white space or the end is the item as written |
| `AlbumFilter.UnquoteItem` | src/datastore/models/album_model.py:420 | unquoting a written item gives its text |
| `AlbumFilter.QueryTerms` | src/datastore/models/album_model.py:413-422 | words and quoted phrases written with single spaces split and unquote back to the words and phrases themselves |
| `AlbumFilter.PeopleNewYork` | src/datastore/models/album_model.py:413-422 | the query `people "new york"` gives the patterns `people` and `new york` |
| `AlbumFilter.LoneQuoteDropped` | src/datastore/models/album_model.py:416-417 | a `"` without a partner belongs to no term |
| `AlbumFilter.Lookup` | src/datastore/models/album_model.py:406 | the row's value under a field name is that of a column with the name, and none exactly when no column has it |
| `AlbumFilter.FieldTagsPass` | src/datastore/models/album_model.py:404-408 | a field with no checked tags passes; the only errors are ValueError (an unknown field) and AttributeError (a cell that is not text) |
| `AlbumFilter.CheckedPassAll` | src/datastore/models/album_model.py:401-408 | the row passes the checked-tag test exactly when every field's checked tags pass |
| `AlbumFilter.AllFoundPrefix` | src/datastore/models/album_model.py:425-438 | more patterns let no more rows through |
| `AlbumFilter.NoFilterColumn` | src/datastore/models/album_model.py:425-438 | with no filtered column a row matches exactly the empty pattern list |
| `AlbumFilter.Patterns` | src/datastore/models/album_model.py:413-422 | the patterns are the query's terms followed by the checked tag names when a tag tree is set |
| `AlbumFilter.MatchAll` | src/datastore/models/album_model.py:424-438 | the matching loops accept exactly when every pattern is found in some filtered column |
| `AlbumFilter.CheckTags` | src/datastore/models/album_model.py:401-408 | the checked-tag loops compute the checked-tag test |
| `AlbumFilter.SortFilter.constructor` | src/datastore/models/album_model.py:359-368 | a new proxy ranges from 1 January of year 1 to 1 January of year 9999, date test off, range mode, day resolution, tagged rows shown, no tag tree |
| `AlbumFilter.SortFilter.SetDateFilterType` | src/datastore/models/album_model.py:453-463 | one of the three resolutions is set; anything else is a ValueError and changes nothing |
| `AlbumFilter.SortFilter.SetDateBetween` | src/datastore/models/album_model.py:465-472 | range mode is set as given |
| `AlbumFilter.SortFilter.OnHideTagged` | src/datastore/models/album_model.py:478-487 | the hide-tagged switch is set as given |
| `AlbumFilter.SortFilter.SetDateFilterStatus` | src/datastore/models/album_model.py:489-492 | the date test is switched as given |
| `AlbumFilter.SortFilter.SetFromDate` | src/datastore/models/album_model.py:494-498 | the lower bound is set |
| `AlbumFilter.SortFilter.SetToDate` | src/datastore/models/album_model.py:500-504 | the upper bound is set |
| `AlbumFilter.SortFilter.SetFilterList` | src/datastore/models/album_model.py:474-476 | the tag tree takes part in the filter from now on |
| `AlbumFilter.SortFilter.FilterAcceptsRow` | src/datastore/models/album_model.py:370-438 | the method with its loops gives exactly the filter's verdict on the row |
| `AlbumFilter.SortFilter.VerdictShows` | src/datastore/models/album_model.py:370-438 | a row is shown exactly when it passes the date test, is not a hidden tagged row, holds every checked tag and has every pattern in some filtered column |
| `AlbumFilter.SortFilter.HideTaggedHides` | src/datastore/models/album_model.py:396-399 | with the switch on, a tagged row is never shown |
| `AlbumFilter.SortFilter.NoFilterColumnHides` | src/datastore/models/album_model.py:424-438 | with no filtered column and a non-empty query, no row is shown |
| `FilterTree.Placeholder` | src/FilterTree.py:40-59 | the placeholder row has no tag, is not checkable, starts Unchecked and compares as `none` |
| `FilterTree.NewTagItem` | src/FilterTree.py:75-106 | a new tag row carries its id and value, starts Unchecked and is checkable exactly outside EditMode |
| `FilterTree.CountBounds` | src/FilterTree.py:118-128 | a tag's count over the files is the number of files exactly when every file carries it, and positive exactly when some file does |
| `FilterTree.CheckFileTagsStates` | src/FilterTree.py:108-131 | with at least one file a tag is Checked iff every file carries it, PartiallyChecked iff some but not all do, Unchecked iff none does; the placeholder keeps its state |
| `FilterTree.CheckNoFilesChecksAll` | src/FilterTree.py:116-127 | with no file every row, placeholder included, counts as carried by all files and is Checked |
| `FilterTree.CatIds` | src/FilterTree.py:312-314 | the field rows' ids in order |
| `FilterTree.CatItemById` | src/FilterTree.py:316-322 | the first field row with the id, and ValueError exactly when there is none |
| `FilterTree.ItemById` | src/FilterTree.py:324-333 | the first tag row with the id under the field, and ValueError exactly when the field or the tag is missing |
| `FilterTree.ItemByText` | src/FilterTree.py:335-345 | the first tag row of the field whose `str(tag)` equals the name ignoring case, and ValueError exactly when the field or the row is missing |
| `FilterTree.ItemByTextFindsTag` | src/FilterTree.py:335-345 | a name other than `none` in any case finds a real tag, never the placeholder |
| `FilterTree.RowsOf` | src/FilterTree.py:359-368 | a field's tag rows, each paired with the field's text |
| `FilterTree.ItemsInStateExact` | src/FilterTree.py:359-368 | `getItemsByCheckState` returns exactly the rows of the tree in that state |
| `FilterTree.CheckedIds` | src/FilterTree.py:370-372 | reading the checked ids back with `int` fails with ValueError exactly when a checked row is the placeholder |
| `FilterTree.GetFilteredTags` | src/FilterTree.py:378-405 | None exactly when no row is checked; otherwise the checked ids come first, one per checked row |
| `FilterTree.CheckedTagAccepted` | src/FilterTree.py:378-405 | a checked tag is always among the accepted ids |
| `FilterTree.ReachExact` | src/FilterTree.py:396-404 | with distinct checked ids a tag is reachable iff it belongs to the field and some file carries it together with every checked tag |
| `FilterTree.FilterAcceptsRowShows` | src/FilterTree.py:428-456 | TagMode and EditMode show every row; FilterMode shows field rows, hides the placeholder, and shows a tag iff nothing is checked or it is accepted |
| `FilterTree.PlaceholderSortsLast` | src/FilterTree.py:458-467 | the placeholder never sorts before another row and every real tag sorts before it |
| `FilterTree.LessThanAsymmetric` | src/FilterTree.py:458-467 | between real tags the order is asymmetric |
| `FilterTree.GroupedExact` | src/FilterTree.py:150-161 | the dictionary has a key for each field with a row in the state, holding that field's tags in tree order |
| `FilterTree.Keys` | src/FilterTree.py:223 | `alreadyFields` is the lower-cased texts of the field rows |
| `FilterTree.CatKeys` | src/FilterTree.py:226 | `currentFields` is the lower-cased names of the tag fields |
| `FilterTree.TagKeys` | src/FilterTree.py:240-241 | `alreadyTags` is the lower-cased `str(tag)` of a field's rows |
| `FilterTree.InfoKeys` | src/FilterTree.py:244 | `currentTags` is the lower-cased values of a field's tags |
| `FilterTree.Updated` | src/FilterTree.py:240-258 | a refreshed field row keeps its id and text |
| `FilterTree.PruneTagStep` | src/FilterTree.py:245-248 | one step of the backwards removal loop removes a row whose key is gone and keeps the rest |
| `FilterTree.CatsFoldFailed` | src/FilterTree.py:233-238 | once a pass fails with ValueError the later passes are skipped |
| `FilterTree.UpdateTreeShape` | src/FilterTree.py:206-260 | with field rows and tag fields distinct ignoring case, a refresh never fails: surviving rows stay first in order, each updated, and new tag fields follow |
| `FilterTree.RefreshKeepsSurvivors` | src/FilterTree.py:225-257 | a field row that still names a tag field survives with its id and text and keeps its remaining tags, check states included |
| `FilterTree.RefreshCoversFields` | src/FilterTree.py:225-257 | after a refresh every field row names a tag field and every tag field has a row |
| `FilterTree.UpdatedOnePlaceholder` | src/FilterTree.py:240-258 | a refreshed field row ends with exactly one fresh placeholder when no tag of its field is named `none` |
| `FilterTree.RefreshOnePlaceholder` | src/FilterTree.py:206-258 | after a refresh every field row holds exactly one placeholder, provided no tag is named `none` |
| `FilterTree.TagTree.Parent` | src/FilterTree.py:85-89 | the field row `addTag` appends to: a given row, or the one `catItemById` finds |
| `FilterTree.TagTree.AddField` | src/FilterTree.py:61-73 | a field row with no tags is appended and its position returned |
| `FilterTree.TagTree.AddTag` | src/FilterTree.py:75-106 | the new tag row is appended to the field; ValueError for an unknown field id and nothing changes |
| `FilterTree.TagTree.AddEmptyTag` | src/FilterTree.py:40-59 | the placeholder is appended to the field; ValueError for an unknown field id and nothing changes |
| `FilterTree.TagTree.CheckFileTags` | src/FilterTree.py:108-131 | the loops set every row's state to the recheck of the tree over the files |
| `FilterTree.TagTree.GetItemsByCheckState` | src/FilterTree.py:359-368 | the loops return exactly the rows in the state, in model order |
| `FilterTree.TagTree.GetCheckedTagDict` | src/FilterTree.py:141-165 | the rows in the state grouped by field text, values lowered when asked |
| `FilterTree.TagTree.GetCheckedTagNames` | src/FilterTree.py:167-176 | `str(tag)` of every checked row in model order, lowered when asked |
| `FilterTree.TagTree.PruneFields` | src/FilterTree.py:227-230 | the backwards removal loop keeps exactly the field rows whose key is current |
| `FilterTree.TagTree.AddNewTags` | src/FilterTree.py:255-257 | the loop appends a row for each tag whose lowered value is not among the field's rows |
| `FilterTree.TagTree.RefreshField` | src/FilterTree.py:233-258 | one pass of the field loop does what the refresh step specifies, and fails exactly when it does |
| `FilterTree.TagTree.UpdateTree` | src/FilterTree.py:206-260 | the tree becomes the refresh of the old tree against the tag fields |
| `FilterTree.TagTree.SetData` | src/FilterTree.py:407-419 | the placeholder stores nothing and asks for a new tag in its field exactly for non-empty text other than its label; any other row takes the text |
| `FilterTree.TagTree.OnNewTag` | src/FilterTree.py:274-292 | the tag is inserted through `insertTags`; when a row was inserted the tree is refreshed and the tag found by id, otherwise it is found by text ignoring case; it is checked unless in EditMode |
| `FilterTree.TagTree.PruneTags` | src/FilterTree.py:245-248 | the backwards removal loop keeps exactly the tag rows whose key is current |
| `FilterTree.TagTree.CollectField` | src/FilterTree.py:364-367 | the inner loop over a field's rows extends the rows in the state by that field's |
| `FilterTree.TagTree.constructor` | src/FilterTree.py:19-24 | a new tree has no field rows and the given mode |
| `PhotoViewer.NextIndex` | src/PhotoViewer.py:171-177 | from a position in the list the next one stays in the list, is one on, and wraps from the last to 0 |
| `PhotoViewer.BackIndex` | src/PhotoViewer.py:131-137 | from a position in the list the previous one stays in the list, is one back, and wraps from 0 to the last |
| `PhotoViewer.BackAfterNext` | src/PhotoViewer.py:131-177 | Next then Back returns to the same photo |
| `PhotoViewer.NextAfterBack` | src/PhotoViewer.py:131-177 | Back then Next returns to the same photo |
| `PhotoViewer.AfterDelete` | src/PhotoViewer.py:140-152 | after a pop the same position is shown, moved back to the new last photo when it is past the end |
| `PhotoViewer.AfterDeleteInRange` | src/PhotoViewer.py:140-152 | a delete that leaves photos leaves the position inside the list |
| `PhotoViewer.ImageViewer.constructor` | src/PhotoViewer.py:14-58 | a new viewer holds no photos and shows nothing |
| `PhotoViewer.ImageViewer.SetImageList` | src/PhotoViewer.py:71-74 | the list and position are replaced, then IndexError exactly when the position is outside the list |
| `PhotoViewer.ImageViewer.SetImageIndex` | src/PhotoViewer.py:75-77 | only the position changes, then IndexError exactly when it is outside the list |
| `PhotoViewer.ImageViewer.Show` | src/PhotoViewer.py:87-97 | the photo at the position is shown with navigation enabled; a position outside the list is an IndexError that shows nothing new |
| `PhotoViewer.ImageViewer.SetImagePhoto` | src/PhotoViewer.py:78-89 | a photo in the list is shown at its first position; any other is shown alone with the list cleared and Back/Next disabled |
| `PhotoViewer.ImageViewer.OnBack` | src/PhotoViewer.py:131-137 | the position moves one back, wrapping to the last; TypeError when no position is set |
| `PhotoViewer.ImageViewer.OnNext` | src/PhotoViewer.py:171-177 | the position moves one on, wrapping to 0; TypeError when no position is set |
| `PhotoViewer.ImageViewer.OnDelete` | src/PhotoViewer.py:140-152 | the shown photo is handed on for deletion and popped; an emptied viewer closes, otherwise the same position (or the new last) is shown |
| `LegacyPhotoViewer.ImageViewer.constructor` | PhotoViewer.py:9-34 | a new viewer holds no images and shows nothing |
| `LegacyPhotoViewer.ImageViewer.SetImageList` | PhotoViewer.py:38-41 | the list and position are replaced, then IndexError exactly when the position is outside the list |
| `LegacyPhotoViewer.ImageViewer.SetImageIndex` | PhotoViewer.py:42-44 | only the position changes, then IndexError exactly when it is outside the list |
| `LegacyPhotoViewer.ImageViewer.Show` | PhotoViewer.py:51-61 | the image at the position is shown with navigation enabled; IndexError outside the list |
| `LegacyPhotoViewer.ImageViewer.SetImagePath` | PhotoViewer.py:45-49 | a path is always shown alone, the list cleared and Back/Next disabled, even when it is in the list |
| `LegacyPhotoViewer.ImageViewer.OnBack` | PhotoViewer.py:82-87 | the position moves one back, wrapping to the last, as the later viewer does; TypeError when no position is set |
| `LegacyPhotoViewer.ImageViewer.OnNext` | PhotoViewer.py:90-95 | the position moves one on, wrapping to 0, as the later viewer does; TypeError when no position is set |
| `LegacyFieldObjects.Default` | datastore/objects/fieldobjects.py:40 | the default of a field's `type` (`''`, `0` or `False`) is always falsy |
| `LegacyFieldObjects.FieldObject.constructor` | datastore/objects/fieldobjects.py:32-40 | a new field carries exactly the properties it was given |
| `LegacyFieldObjects.FieldObject.SetEditable` | datastore/objects/fieldobjects.py:52-54 | the `editable` setter stores the value |
| `LegacyFieldObjects.FieldObject.SetEditor` | datastore/objects/fieldobjects.py:60-62 | the `editor` setter stores the value |
| `LegacyFieldObjects.FieldObject.SetHidden` | datastore/objects/fieldobjects.py:68-70 | the `hidden` setter stores the truth value of what it is given |
| `LegacyFieldObjects.FieldObject.SetName` | datastore/objects/fieldobjects.py:76-81 | the name changes exactly when it is editable; otherwise ValueError and the old name stays |
| `LegacyFieldObjects.FirstNamed` | datastore/objects/fieldobjects.py:114-117 | the first field with the name, and None exactly when no field has it |
| `LegacyFieldObjects.ZipTypes` | datastore/objects/fieldobjects.py:101-104 | the all-strings constructor zips `types or [str]*len(names)` with the names, so the shorter list decides the length |
| `LegacyFieldObjects.FieldObjectContainer.Names` | datastore/objects/fieldobjects.py:162-164 | the names of the fields, in order |
| `LegacyFieldObjects.FieldObjectContainer.Get` | datastore/objects/fieldobjects.py:111-119 | a field or a name gives the first field of that name or None; a position follows Python's indexing and fails with IndexError exactly outside the list |
| `LegacyFieldObjects.FieldObjectContainer.Index` | datastore/objects/fieldobjects.py:151-160 | the first position of the name or the very object, and ValueError exactly when it is absent |
| `LegacyFieldObjects.FieldObjectContainer.SetItem` | datastore/objects/fieldobjects.py:121-125 | a valid position gets the field, or a fresh `FieldObject(str(value))`; the other positions keep theirs; IndexError outside the list |
| `LegacyFieldObjects.FieldObjectContainer.DelItem` | datastore/objects/fieldobjects.py:127-128 | later fields shift down by one; IndexError outside the list |
| `LegacyFieldObjects.FieldObjectContainer.Insert` | datastore/objects/fieldobjects.py:138-149 | the list grows by one, the field (or a fresh one from its text) at the clamped position |
| `LegacyFieldObjects.NewField` | datastore/objects/fieldobjects.py:146-149 | a field is kept as it is, anything else becomes a fresh field with default properties |
| `LegacyFieldObjects.GetterTest` | datastore/objects/fieldobjects.py:200-203 | by position, by name and by field all find the first field |
| `LegacyFieldObjects.IndexTest` | datastore/objects/fieldobjects.py:222-224 | `index` finds a field by object and by name |
| `LegacyFieldObjects.MissingNameIsNone` | datastore/objects/fieldobjects.py:114-117 | a name no field carries gives None |
| `LegacyFieldObjects.MixedIsRefused` | datastore/objects/fieldobjects.py:192-198 | a list mixing a name and a field is neither all names nor all fields, so it is refused with TypeError |
| `LegacyFieldObjects.ZipTypesDefaults` | datastore/objects/fieldobjects.py:101-104 | names without types give one `str` field per name |
| `LegacyFieldObjects.ZipTypesTruncates` | datastore/objects/fieldobjects.py:101-104 | a shorter list of types cuts the fields short, as `zip` does |
| `LegacyFieldObjects.FieldObjectContainer.Create` | datastore/objects/fieldobjects.py:94-109 | no list gives an empty container; all names give fresh fields of the zipped types; all fields are kept as given; TypeError exactly for a mixture |
| `LegacyPhotoObjects.ZipDict` | datastore/objects/photo_objects.py:36 | `dict(zip(fields, values))` has a key for every field |
| `LegacyPhotoObjects.ZipDictLastWins` | datastore/objects/photo_objects.py:36 | a repeated field holds the value at its last position |
| `LegacyPhotoObjects.TypeDefaults` | datastore/objects/photo_objects.py:28 | one type default per field, in order |
| `LegacyPhotoObjects.MakePhoto` | datastore/objects/photo_objects.py:24-36 | `Photo(fields, values)`: AssertionError exactly when values are given and their count differs from the fields'; otherwise each field holds its value, or its type's default when no values are given |
| `LegacyPhotoObjects.RemoveField` | datastore/objects/photo_objects.py:38-39 | `del photo[field]`: KeyError exactly when the photo has no such key; otherwise only that key goes |
| `LegacyPhotoObjects.Album.Init` | datastore/objects/photo_objects.py:70-71 | the album holds exactly the given container and photos |
| `LegacyPhotoObjects.Album.Create` | datastore/objects/photo_objects.py:58-75 | `Album(fields, values, types)`: a list becomes a container of the typed fields; a mixed list is a TypeError; a value list of the wrong length is an AssertionError; otherwise one photo per value list |
| `LegacyPhotoObjects.Album.FieldNames` | datastore/objects/photo_objects.py:109-111 | the names of the album's fields, in order |
| `LegacyPhotoObjects.Album.Entry` | datastore/objects/photo_objects.py:80-88 | `album[i]`: the photo at the Python position, and IndexError exactly outside the list |
| `LegacyPhotoObjects.Album.Resolve` | datastore/objects/photo_objects.py:82-84 | a field is used as it is and a name goes through the container, giving None when no field has it |
| `LegacyPhotoObjects.Album.Get` | datastore/objects/photo_objects.py:80-85 | `album[row, field]`: IndexError for a bad row, KeyError when the photo has no such key, and otherwise the photo's value under the resolved field |
| `LegacyPhotoObjects.Album.SetCell` | datastore/objects/photo_objects.py:93-97 | `album[entry, fdex] = value`: IndexError for a bad position or row; otherwise only that photo's value under the resolved key changes |
| `LegacyPhotoObjects.Album.Insert` | datastore/objects/photo_objects.py:99-100 | the photo is inserted at the clamped position |
| `LegacyPhotoObjects.Album.Append` | datastore/objects/photo_objects.py:102-103 | the photo is appended |
| `LegacyPhotoObjects.Album.DelItem` | datastore/objects/photo_objects.py:77-78 | later photos shift down by one; IndexError outside the list |
| `LegacyPhotoObjects.RemoveFieldKeepsOthers` | datastore/objects/photo_objects.py:135-138 | removing the field at `i` from a photo over distinct fields leaves exactly the other fields with their values |
| `LegacyPhotoObjects.PhotoDefaultsTest` | datastore/objects/photo_objects.py:127-133 | a photo built without values holds each field's default, and a wrong count of values is refused |
| `LegacyPhotoObjects.InsertGetTest` | datastore/objects/photo_objects.py:155-165 | a photo inserted at position 1 of a two-photo album is the one `album[1, field]` reads its value from, and the other photos keep their order around it |
| `LegacyFilterTree.CatIds` | FilterTree.py:133-135 | the category rows' ids in order |
| `LegacyFilterTree.CatIndex` | FilterTree.py:137-143 | the first category with the id, and ValueError exactly when none has it |
| `LegacyFilterTree.NewTag` | FilterTree.py:31-51 | a new tag row carries its id and value and starts Unchecked |
| `LegacyFilterTree.AddMissing` | FilterTree.py:103-108 | the inner add loop only appends to a category's tags |
| `LegacyFilterTree.AddFrom` | FilterTree.py:101-108 | the add loop keeps the categories and their ids |
| `LegacyFilterTree.PruneCats` | FilterTree.py:116-123 | the removal loop keeps the categories and their ids |
| `LegacyFilterTree.IdsOf` | FilterTree.py:156-158 | the checked rows' ids, in order |
| `LegacyFilterTree.TagTreeView.AddCategory` | FilterTree.py:17-29 | a category row with no tags is appended and its position returned |
| `LegacyFilterTree.TagTreeView.AddTag` | FilterTree.py:31-51 | the tag is appended Unchecked to the given category, or to the one found by id; ValueError exactly when no category has the id |
| `LegacyFilterTree.TagTreeView.UpdateTree` | FilterTree.py:86-124 | the categories become the update of the old ones by the dictionary, and the call fails exactly when the update does |
| `LegacyFilterTree.TagTreeView.AddTags` | FilterTree.py:103-108 | the inner add loop computes the added tag list |
| `LegacyFilterTree.TagTreeView.PruneTags` | FilterTree.py:120-123 | the backwards removal loop keeps exactly the tags whose (category, tag) pair is listed |
| `LegacyFilterTree.KeepListedStep` | FilterTree.py:120-123 | one step of the removal loop drops an unlisted tag and keeps the rest |
| `LegacyFilterTree.PruneStep` | FilterTree.py:116-123 | one pass of the category loop prunes the first category with the next key |
| `LegacyFilterTree.AddMissingHas` | FilterTree.py:103-108 | every listed tag id is among the category's tags after the inner loop |
| `LegacyFilterTree.AddFromGrows` | FilterTree.py:101-108 | the add loop only appends tags, and only to the first category with a listed id |
| `LegacyFilterTree.AddFromFails` | FilterTree.py:101-102 | the add loop fails exactly when some key is not a category id |
| `LegacyFilterTree.AddFromHas` | FilterTree.py:101-108 | after a successful add loop every listed tag id is under the first category with its key |
| `LegacyFilterTree.KeepListedExact` | FilterTree.py:120-123 | a tag survives exactly when it was there and its pair is listed |
| `LegacyFilterTree.UpdateTreeFails` | FilterTree.py:86-124 | `updateTree` fails exactly when a dictionary key is not a category id |
| `LegacyFilterTree.UpdateTreeAdds` | FilterTree.py:86-124 | after a successful update every listed tag id is under the first category with its key |
| `LegacyFilterTree.UpdateTreeOnlyListed` | FilterTree.py:86-124 | after a successful update a named category holds only listed tags |
| `LegacyFilterTree.UpdateTreeKeepsListed` | FilterTree.py:86-124 | a tag that was there and is listed for its category survives with its check state |
| `LegacyFilterTree.UpdateTreeUntouched` | FilterTree.py:86-124 | a category the dictionary does not name, and every later duplicate, is left alone |
| `LegacyFilterTree.CheckedItemsExact` | FilterTree.py:145-154 | no item counts as checked exactly when every tag is Unchecked, so a partial check counts |
| `LegacyFilterTree.FilterAcceptsRowShows` | FilterTree.py:197-216 | category rows are always shown; a tag row when nothing is checked, or when it belongs to its category and some file carries it together with every checked tag |
| `LegacyFilterTree.ToSrc` | FilterTree.py:127-188 | the same tree in the later generation's terms |
| `LegacyFilterTree.CorrTree` | FilterTree.py:145-158 | without partial checks the later generation's Checked rows stand for the legacy checked items |
| `LegacyFilterTree.SameReachWithoutPartial` | FilterTree.py:164-188 | without partial checks both generations answer None together and query the same reachable tags; the later one adds the checked ids |
| `LegacyFilterTree.LegacyShowsNoMore` | FilterTree.py:197-216 | without partial checks every tag row the legacy proxy shows is shown by the later proxy in FilterMode |
| `LegacyFilterTree.CheckedTagHiddenWithoutUnion` | FilterTree.py:164-216 | a checked tag no file carries is hidden by the legacy proxy and shown by the later one |
| `LegacyFilterTree.PartialCountsAsChecked` | FilterTree.py:145-216 | a partially checked tag switches the legacy filter on and hides a tag no file carries, where the later generation shows every tag |
| `LegacyFilterTree.TagTreeView.constructor` | FilterTree.py:7-10 | a new tree has no category rows |
| `LegacyDatabase.LegacyDropUnkept` | datastore/database/database.py:324-327 | one legacy prune deletes exactly the file's mappings whose tag is in the field and not listed, and, when the list is empty, every mapping of the file whatever its field |
| `LegacyDatabase.LegacyDropAll` | datastore/database/database.py:396-398 | a mapping survives the prunes run in turn exactly when no prune deletes it |
| `LegacyDatabase.PhotoDatabase.constructor` | datastore/database/database.py:21-23 | the connection starts over the given tables and tag comparison |
| `LegacyDatabase.PhotoDatabase.DropField` | datastore/database/database.py:48-67 | nothing happens when no tag field has the name; otherwise the mappings to that field's tags, its tags and every Fields row with the name are deleted |
| `LegacyDatabase.PhotoDatabase.InsertField` | datastore/database/database.py:97-115 | a Fields row with the field's properties under the next FieldId, which is returned; nothing else changes |
| `LegacyDatabase.PhotoDatabase.InsertTags` | datastore/database/database.py:117-142 | the tag rows the uniqueness rule accepts are inserted in order and their ids returned; a malformed argument is a TypeError with nothing inserted |
| `LegacyDatabase.PhotoDatabase.InsertPairs` | datastore/database/database.py:134-142 | the insert loop: each accepted (field, value) pair becomes a row under a fresh id |
| `LegacyDatabase.PhotoDatabase.UpdateTagged` | datastore/database/database.py:400-414 | each named file gets its paired flag, the last pairing winning; other files keep theirs |
| `LegacyDatabase.PhotoDatabase.SetFields` | datastore/database/database.py:250-290 | rows of new names are inserted, rows of kept names updated, and rows of names not given deleted |
| `LegacyDatabase.PhotoDatabase.UpdateAlbum` | datastore/database/database.py:305-398 | the result and the new tables are those of the legacy `updateAlbum` plan: flags written, tags inserted, mappings resolved and inserted, then the legacy prunes |
| `LegacyDatabase.LegacyPruneMaps` | datastore/database/database.py:396-398 | the loop over the prunes computes `LegacyDropAll` |
| `LegacyDatabase.LegacyDropAllCovers` | datastore/database/database.py:324-327 | the legacy prunes delete at least what the later ones do, and exactly the same when no prune keeps an empty list |
| `LegacyDatabase.LegacyUpdateAlbumAgrees` | datastore/database/database.py:305-398 | the legacy `updateAlbum` gives the same result and tables as the later one, but keeps a subset of its mappings |
| `LegacyDatabase.LegacyClearedCellUnmapsFile` | datastore/database/database.py:324-327 | a tag cell cleared of every tag leaves the file with no mapping at all, in any field |
| `LegacyAlbumModel.SetDataSpec` | datastore/models/album_model.py:116-142 | `setData`: an error exactly when no Python index reaches the column or a writable cell's photo lacks the field; True exactly when a writable cell was written |
| `LegacyAlbumModel.SetDataSettles` | datastore/models/album_model.py:116-142 | setting a cell a second time to the same value changes nothing and is not dirty |
| `LegacyAlbumModel.CheckBoxRetypesQuietly` | datastore/models/album_model.py:121-138 | a cell holding 1 set by a check box to True now holds True and emits no `dirty`, as Python's `1 != True` is false |
| `LegacyAlbumModel.WithoutField` | datastore/models/album_model.py:78 | every photo loses exactly the field's key |
| `LegacyAlbumModel.RemoveSpec` | datastore/models/album_model.py:65-82 | `removeColumns`: IndexError outside the fields; a required field without `force` stays and False is returned; otherwise the field leaves the container and every photo |
| `LegacyAlbumModel.RemoveFieldSpec` | datastore/models/album_model.py:84-88 | `removeField`: ValueError when no field has the name, otherwise `removeColumns` at the name's first position |
| `LegacyAlbumModel.RemoveFieldGone` | datastore/models/album_model.py:65-88 | over distinct fields a removed field is in no place of the container and a key of no photo, and the other fields keep their order |
| `LegacyAlbumModel.RequiredNeedsForce` | datastore/models/album_model.py:74-76 | a required field is never removed without `force`, and nothing changes |
| `LegacyAlbumModel.CellData` | datastore/models/album_model.py:31-46 | `index.data()`: KeyError exactly when the cell's photo lacks the field, otherwise the cell's value as a variant |
| `LegacyAlbumModel.Capture` | datastore/models/album_model.py:337 | the captured old values succeed exactly when every cell can be read, and are those cells' values in order |
| `LegacyAlbumModel.EditAll` | datastore/models/album_model.py:340-348 | `setData` run on each write in turn keeps the number of photos |
| `LegacyAlbumModel.RedoWrites` | datastore/models/album_model.py:340-343 | `redo` writes `''` into every captured cell, in order |
| `LegacyAlbumModel.UndoWrites` | datastore/models/album_model.py:345-348 | `undo` pairs the cells with their old values, as long as the shorter list |
| `LegacyAlbumModel.LastHit` | datastore/models/album_model.py:340-348 | the value a cell ends with is the coerced value of the last write that lands there, and none exactly when no write lands there |
| `LegacyAlbumModel.EditAllCells` | datastore/models/album_model.py:340-348 | a run of keyed writes succeeds, keeps every photo's keys, and leaves each cell with its last write or its old value |
| `LegacyAlbumModel.UndoRestoresCell` | datastore/models/album_model.py:330-348 | after `redo` then `undo` one cell holds its old value again |
| `LegacyAlbumModel.DeleteRoundTrip` | datastore/models/album_model.py:330-348 | `redo` followed by `undo` gives every photo back exactly, when the written fields are the first with their names and hold values their editors could store |
| `LegacyAlbumModel.DeleteRedoClears` | datastore/models/album_model.py:340-343 | `redo` leaves every written cell holding `''` through its editor, False for a check box |
| `LegacyAlbumModel.AlbumModel.constructor` | datastore/models/album_model.py:17-21 | the model starts over the given dataset |
| `LegacyAlbumModel.AlbumModel.SetData` | datastore/models/album_model.py:116-142 | the result, the dirty flag and the new photos are those of `SetDataSpec` |
| `LegacyAlbumModel.AlbumModel.RemoveColumns` | datastore/models/album_model.py:65-82 | the result, fields and photos are those of `RemoveSpec` |
| `LegacyAlbumModel.AlbumModel.RemoveField` | datastore/models/album_model.py:84-88 | the result, fields and photos are those of `RemoveFieldSpec` |
| `LegacyAlbumModel.AlbumModel.NewDeleteCmd` | datastore/models/album_model.py:334-337 | the command holds the cells and their captured values, or the read's KeyError |
| `LegacyAlbumModel.AlbumModel.WriteAll` | datastore/models/album_model.py:342-348 | the loop of `redo` and `undo` ends with the photos of `EditAll` |
| `LegacyAlbumModel.AlbumModel.Redo` | datastore/models/album_model.py:340-343 | the photos end as `EditAll` of the redo writes leaves them |
| `LegacyAlbumModel.AlbumModel.Undo` | datastore/models/album_model.py:345-348 | the photos end as `EditAll` of the undo writes leaves them |
| `LegacyAlbumModel.AlbumModel.DeleteCells` | datastore/models/album_model.py:111-114 | a failing capture changes nothing; otherwise the command is returned and its `redo` has run |
| `LegacyAlbumModel.SortFilter.constructor` | datastore/models/album_model.py:205-211 | a new proxy filters between 1 January of years 1 and 9999 by day, and does not hide tagged rows |
| `LegacyAlbumModel.SortFilter.SetDateFilterType` | datastore/models/album_model.py:269-279 | one of the three resolutions is stored; anything else is a ValueError and changes nothing |
| `LegacyAlbumModel.SortFilter.FilterAcceptsRow` | datastore/models/album_model.py:213-254 | the column loop, stopped at the first match, decides as `Verdict` |
| `LegacyAlbumModel.SortFilter.AgreesWithLaterProxy` | datastore/models/album_model.py:213-254 | with the same settings, no tag tree and a single-term query, the legacy and later proxies decide every row alike |
| `LegacyAlbumModel.SortFilter.NoFilterColumnHidesAll` | datastore/models/album_model.py:243-254 | with no filtered column the legacy proxy hides every row, where the later one shows a row passing its date and hide-tagged tests |

## Left out

- SQLite, Qt and file I/O: tables are relations in `Tables.Store`, Qt items are records, signals (`dirty`, `dataChanged`, `albumChanged`) and view calls (`invalidate`, `sort`, `beginRemoveColumns`) are not modelled beyond the flags the source sets.
- The Tags uniqueness rule lives in a schema file that is not part of this model; it is a parameter `same`, and `updateAlbum` is modelled for rules that never count two values with different lower-case forms as one tag (otherwise the source's lookup would raise KeyError).
- Fresh row ids: AUTOINCREMENT is modelled as a counter, and a new row takes the id after every id handed out so far; the id values SQLite would choose are not modelled.
- `AllTags` and the reachable-tag queries are modelled as the TagMap ⋈ Tags join they express, not as SQL text.
- Python dict iteration order (`catTagDict.iteritems()`, `getCheckedTagDict`) is an explicit sequence of pairs passed in by the caller.
- `Text.Lower`: lower-cases ASCII letters only; SQLite and Python lower-case other Unicode letters too.
- Aliasing: photos are values, so a `Photo` shared between two albums, or the viewer's `imageList` shared with its caller, is not modelled; each update is to the owner's copy.
- `**kwargs` of `FieldObjectContainer.insert`/`append` (properties for a name wrapped into a new field) are not modelled; the wrapped field takes the default properties.
- `PhotoObjects.Album.RemoveField`: requires every photo to hold every field (`Covers()`); the KeyError `del photo[field]` raises otherwise is not modelled. The same requires sits on `Database.PhotoDatabase.DropField` and `Database.PhotoDatabase.DropFieldAsWritten`.
- `PhotoObjects.Album.FromNames`: requires each value list to match the final number of fields; the AssertionError `Photo(...)` raises otherwise is not modelled. The same holds for `PhotoObjects.Album.FromContainer`.
- `AlbumModel.WriteCell`: a cell write changes the grid only; the `updateAlbum` that `dataset[row, field] = v` runs on the database is modelled separately by `Database.PhotoDatabase.SetItem`, so the redo/undo round trips (`AlbumModel.SetDataRedoUndo`, `AlbumModel.BatchRedoUndo`) are about the cells, and the Tags rows a redo inserts are not shown to survive an undo.
- `AlbumModel.RenameRun`: the rename command runs the corrected, tag-by-tag rename (see Findings); the as-written rename and what it breaks is modelled by `Database.RenameCellAsWrittenPoisons` and `Database.RenameTwiceFails`.
- `AlbumModel.Model.RemoveColumns`: drops through the corrected `Database.PhotoDatabase.DropField` (see Findings); the as-written drop is `Database.PhotoDatabase.DropFieldAsWritten`.
- `PhotoDatabase.__init__`, `load`, `connect`, `insertFile`, `getTableAsDict`, `updateAppData` and the database-creation scripts: the tables are given to the model, not built from a file.
- The `isinstance` asserts of the constructors are type-level in Dafny except where a mixed list is possible, which is modelled as TypeError.
- `QVariant` conversion is reduced to the cases the cell editors produce; header truthiness in the legacy `setData` is modelled through the header text.
- The legacy undo stack is not modelled: `deleteCells` pushes one command, whose push runs `redo`, and the command's `redo`/`undo` are methods of their own.
- QRegExp matching in the legacy proxy and `QString.contains` in the later one are a `Finder` parameter; the regex language is not modelled.
- The thumbnail and image loading in the viewers, and their widgets, are not modelled; only the list and index logic is.
- `parse_version` is a parameter: a key function into a strict total order.
- The legacy `roundDate` is the same function as the later one and is modelled once (`AlbumFilter.RoundDate`).
- `AlbumModel.BatchRun`: takes the field order from the command it runs; only `AlbumModel.Model.BatchAddTags`, where the command is made, requires that order to be exactly the first row's keys, each once (`AlbumModel.LoopFields`), and the order Python's `set` iterates in is left as that argument.
- `AlbumModel.BatchRun`: every field name and row is checked before any cell is written, so an unknown field (ValueError from `fields.index`), a row outside the table (IndexError) or a missing removal list (KeyError) leaves the grid unchanged, where `_batchAddTags` keeps the cells it already wrote; a negative row is an IndexError here, where Python's indexing would wrap it to a row from the end.
- `AlbumModel.RedoStep`: a batch redo that fails leaves the table as it was; the source keeps the cells written before the failing one, and these are not modelled.
- `FilterTree.TagTree.OnNewTag`: `cats` (the category and tag rows the refresh reads) is a parameter that is not tied to the Tags table after the insert, so the model does not prove that the new tag is found and checked; it states the outcome for whatever rows the refresh reads.
- `AlbumModel.DeleteTagRows`: the later `PhotoDatabase` defines no `deleteTag`, which `deleteTagCmd` calls; the contract is what the command's use of it implies, not a model of code in the repository.
- `AlbumModel.MapTags`: the later `PhotoDatabase` defines no `mapTags`, which `deleteTagCmd` calls on undo; the contract is what the command's use of it implies.
- `LegacyAlbumModel.RemoveSpec`: assumes an `album.removeField` the legacy `Album` does not define; its contract is what `removeColumns` implies for such a method.
- `Tables.TagIdFor`: the dictionary built from the Tags rows keeps the last row for a key, taken here as the largest TagId; this assumes SQLite returns the rows in TagId order, which the query does not ask for.
- `Database.PhotoDatabase.SetItem`: when the photo's FileId is not an integer and the field is Tagged or a tag field, the model returns TypeError with the tables unchanged; the source runs `updateAlbum` with that id in its SQL parameters, which the integer-keyed tables of the model cannot hold. The TypeError is the model's, not the source's.
- Text is taken to be ASCII wherever Python 2's `str()` converts a `unicode` or `QString` value; the UnicodeEncodeError `str()` raises on other text is not modelled. The members where the source would raise it and the model carries on are listed one per line below.
- `Values.Coerce`: `_getSetValue`'s `str()` of the editor's text (src/datastore/models/album_model.py:111-121) raises UnicodeEncodeError on text that is not ASCII; the model coerces it.
- `LegacyAlbumModel.SetDataSpec`: the legacy `_getSetValue`'s `str()` (datastore/models/album_model.py:126-135) raises UnicodeEncodeError on text that is not ASCII; the model writes it.
- `AlbumModel.Model.CellValue`: the `str()` of the old cell (src/datastore/models/album_model.py:217) raises UnicodeEncodeError on text that is not ASCII; the model reads it.
- `AlbumModel.Model.SetTagState`: the `str()` of the tag and the cell (src/datastore/models/album_model.py:326-329) raises UnicodeEncodeError on text that is not ASCII; the model edits the cell.
- `AlbumFilter.SortFilter.FilterAcceptsRow`: `str()` of the filter pattern (src/datastore/models/album_model.py:414) raises UnicodeEncodeError on a query that is not ASCII; the model filters with it.
- `FilterTree.ItemByText`: `str()` of each tag (src/FilterTree.py:343) raises UnicodeEncodeError on a tag that is not ASCII; the model compares it.
- `FilterTree.Keys`: `str()` of each field's text (src/FilterTree.py:223) raises UnicodeEncodeError on a field name that is not ASCII; the model keys on it.
- `FilterTree.TagKeys`: `str()` of each tag (src/FilterTree.py:240) raises UnicodeEncodeError on a tag that is not ASCII; the model keys on it.
- `FilterTree.TagTree.GetCheckedTagDict`: `str()` of the tag and its parent's text (src/FilterTree.py:156-157) raises UnicodeEncodeError on text that is not ASCII; the model collects them.
- `FilterTree.TagTree.GetCheckedTagNames`: `str()` of each tag (src/FilterTree.py:176) raises UnicodeEncodeError on a tag that is not ASCII; the model collects it.
- `FilterTree.TagTree.UpdateTree`: the `str()` of field texts and tags it keys on (src/FilterTree.py:223, 240) raises UnicodeEncodeError on text that is not ASCII; the model refreshes the tree.
- `FilterTree.TagTree.SetData`: `str()` of the new value (src/FilterTree.py:413) raises UnicodeEncodeError on text that is not ASCII; the model stores it or asks for the new tag.
- `Text.Strip`: removes the six ASCII white-space characters only; cells read from SQLite in the later generation are `unicode`, whose `strip()` also removes `\x1c`-`\x1f`, `\x85`, `\xa0` and the Unicode spaces, so a cell `\xa0Mom` is the tag `Mom` in the source but `\xa0Mom` in `TagLists.SplitTags` and `PhotoObjects.Tags`.
- `Database.PhotoDatabase.UpdateAlbum`: the tag-field query pastes the field names into SQL between single quotes (src/datastore/database/database.py:589-590), so a name containing `'` makes sqlite3 raise OperationalError before any write; the model looks names up as values and field names are taken to hold no `'`.
- `LegacyDatabase.PhotoDatabase.UpdateAlbum`: the same quoting (datastore/database/database.py:333) raises OperationalError for a field name containing `'`; the model takes field names to hold no `'`.
- The later generation's `deleteCmd`, the table model's `data`, `headerData`, `flags` and the row insert/remove methods are outside the modelled core.

## Findings

| source | as written | input that shows it | evidently intended | confidence | as-written member | corrected member |
|---|---|---|---|---|---|---|
| src/datastore/database/database.py:467-471 | `photo[field] = photo[field].replace(old, new)` stores the result under a new string key, since `Photo` resolves names only when reading; no cell changes and every later by-name read raises AttributeError | any non-empty album, rename `Mom` to `Mother`, then rename it back (the undo) | the tag cells of the field are rewritten and the photo keeps only field keys | not executed | `Database.RenameTwiceFails` | `Database.RenameCellTags` |
| src/datastore/database/database.py:471 | `str.replace` rewrites every substring occurrence, so tags that contain the old value are changed too | cell `Mom; Momma`, rename `Mom` to `Mother`: the tags become `Mother` and `Motherma` | only tags equal (case-insensitively) to the old value are renamed | not executed | `Database.ReplaceRewritesLongerTag` | `Database.RenameTagTextKeepsLongerTag` |
| src/datastore/database/database.py:99-127 | `dropField(idx, force=True)` calls `album.removeField(idx)` without `force`, so a forced drop of a required tag field deletes its TagMap, Tags and Fields rows and then raises AlbumError, leaving the column in the album | a required tag field dropped with `force=True` | with `force` the rows and the album column both go | not executed | `Database.PhotoDatabase.DropFieldAsWritten` | `Database.PhotoDatabase.DropField` |
| datastore/database/database.py:324-327 | the prune of a tag cell tests the field inside the subquery, and a cell cleared of every tag gives `NOT IN ()`, which SQLite holds true even for NULL, so the file loses its mappings in every field | a photo whose tag cell in one field is emptied while it keeps tags in another field | only the file's mappings in that field whose value is no longer listed are deleted | not executed | `LegacyDatabase.LegacyClearedCellUnmapsFile` | `TagSync.UpdateAlbumKeepsOtherFields` |
| src/datastore/objects/photo_objects.py:275-297 | the fixture writes its date as `2017:01:01 00:00:01`, which `%Y-%m-%d %H:%M:%S` refuses, so `photo.datetime` is None and test_date's expectation fails | the test fixture itself | the fixture date written `2017-01-01 00:00:01`, giving 1 January 2017 00:00:01 | not executed | `PhotoObjects.DateFixtureTest` | `PhotoObjects.DashedFixtureTest` |
