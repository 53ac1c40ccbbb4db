// Photos and the album that holds them (src/datastore/objects/photo_objects.py).
//
// A Photo is a dictionary from field objects to cell values; the album keeps
// its fields in a FieldObjectContainer and its photos in a list. Photos are
// modelled as values held in the album's list, so writing a cell replaces the
// photo at its position.

module PhotoObjects {
  import opened Outcomes
  import opened Values
  import opened FieldObjects
  import Text
  import Dates
  import Lists
  import TagLists

  /** The names of the fields every album starts with that the code refers to by name. */
  const DateField := "Date"
  const FileIdField := "FileId"
  const TaggedField := "Tagged"
  const DirectoryField := "Directory"
  const FileNameField := "File Name"

  /**
   * A key of a photo's dictionary that is not a field object: a field name
   * stored as a key (`photo['People'] = ...`) or None (a name the field
   * container does not know resolves to None before the write).
   */
  datatype StrayKey = NameKey(name: string) | NoneKey

  /**
   * A photo: its cells under field objects, and whatever the code has stored
   * under keys that are not field objects. Every by-name read first collects
   * `k.name` for every key, so one stray key makes it raise AttributeError.
   */
  datatype Photo = Photo(values: map<FieldObject, Value>, strays: map<StrayKey, Value>)

  /** A key of `photo[key]`: a field object, or a field name. */
  datatype PhotoKey = AtField(f: FieldObject) | AtName(name: string)

  // ------------------------------------------------------------------ photo

  function KeysNamed(p: Photo, name: string): set<FieldObject>
    reads p.values.Keys
  {
    set k | k in p.values.Keys && k.name == name
  }

  lemma SingletonUnique<T>(s: set<T>, x: T)
    requires |s| == 1 && x in s
    ensures s == {x}
  {
    var rest := s - {x};
    assert |rest| == 0;
  }

  /**
   * `field_by_name`: the one field with this name; AttributeError when a key
   * is not a field object, ValueError when no field or more than one has the
   * name.
   */
  function FieldByName(p: Photo, name: string): (r: Result<FieldObject>)
    reads p.values.Keys
    ensures r.Ok? <==> p.strays == map[] && |KeysNamed(p, name)| == 1
    ensures r.Ok? ==> KeysNamed(p, name) == {r.value}
    ensures r.Err? ==> r.error == if p.strays == map[] then ValueError else AttributeError
  {
    var ks := KeysNamed(p, name);
    if p.strays != map[] then Err(AttributeError)
    else if |ks| == 1 then
      var k :| k in ks;
      SingletonUnique(ks, k);
      Ok(k)
    else Err(ValueError)
  }

  /** `photo[key]`: a field object is looked up directly (KeyError), a name through `field_by_name`. */
  function Get(p: Photo, key: PhotoKey): (r: Result<Value>)
    reads p.values.Keys
    ensures key.AtField? ==> (r.Ok? <==> key.f in p.values) && (r.Ok? ==> r.value == p.values[key.f])
    ensures key.AtName? ==> (r.Ok? <==> p.strays == map[] && |KeysNamed(p, key.name)| == 1)
    ensures key.AtName? && r.Ok? ==> exists k | k in p.values && k.name == key.name :: r.value == p.values[k]
    ensures key.AtField? && r.Err? ==> r.error == KeyError
    ensures key.AtName? && r.Err? ==> r.error == FieldByName(p, key.name).error
  {
    if key.AtField? then
      if key.f in p.values then Ok(p.values[key.f]) else Err(KeyError)
    else
      match FieldByName(p, key.name)
      case Err(e) => Err(e)
      case Ok(k) => assert k in KeysNamed(p, key.name); Ok(p.values[k])
  }

  /** `photo.tags(field)`: the clean tags of a text cell; splitting anything else raises TypeError. */
  function Tags(p: Photo, key: PhotoKey): (r: Result<seq<string>>)
    reads p.values.Keys
    ensures r.Ok? <==> Get(p, key).Ok? && Get(p, key).value.Str?
    ensures r.Ok? ==> TagLists.AllClean(r.value)
    ensures Get(p, key).Ok? && !Get(p, key).value.Str? ==> r == Err(TypeError)
  {
    match Get(p, key)
    case Err(e) => Err(e)
    case Ok(v) => if v.Str? then Ok(TagLists.SplitTags(v.s)) else Err(TypeError)
  }

  /**
   * `photo.datetime`: the Date cell read as `%Y-%m-%d %H:%M:%S`; None when the
   * photo has no Date field, the cell is empty or not text, or strptime
   * refuses it; ValueError when more than one field is named Date;
   * AttributeError when a key is not a field object.
   */
  function DateTimeOf(p: Photo): (r: Result<Option<Dates.DateTime>>)
    reads p.values.Keys
    ensures r.Err? <==> p.strays != map[] || |KeysNamed(p, DateField)| > 1
    ensures r.Err? ==> r.error == if p.strays == map[] then ValueError else AttributeError
    ensures p.strays == map[] && KeysNamed(p, DateField) == {} ==> r == Ok(None)
    ensures forall k | p.strays == map[] && k in KeysNamed(p, DateField) && |KeysNamed(p, DateField)| == 1 ::
      r == Ok(if p.values[k].Str? && p.values[k].s != "" then Dates.ParseDateTime(p.values[k].s) else None)
  {
    var ks := KeysNamed(p, DateField);
    if p.strays != map[] then Err(AttributeError)
    else if |ks| == 0 then
      Ok(None)
    else
      match FieldByName(p, DateField)
      case Err(e) => Err(e)
      case Ok(k) =>
        var v := p.values[k];
        if Truthy(v) && v.Str? then Ok(Dates.ParseDateTime(v.s)) else Ok(None)
  }

  /** `Photo(fields, values)`: `dict(zip(fields, values))`, so a repeated field keeps its last value. */
  function MakePhoto(fields: seq<FieldObject>, values: seq<Value>): (r: Photo)
    requires |fields| == |values|
    ensures r.values.Keys == set f | f in fields
    ensures r.strays == map[]
  {
    if |fields| == 0 then Photo(map[], map[])
    else
      var rest := MakePhoto(fields[1..], values[1..]);
      if fields[0] in rest.values then rest else rest.(values := rest.values[fields[0] := values[0]])
  }

  /** Each field of a new photo holds the value at the field's last position. */
  lemma {:induction false} MakePhotoLastWins(fields: seq<FieldObject>, values: seq<Value>, k: nat)
    requires |fields| == |values| && k < |fields|
    requires fields[k] !in fields[k + 1..]
    ensures MakePhoto(fields, values).values[fields[k]] == values[k]
  {
    if k > 0 {
      assert fields[1..][k - 1] == fields[k];
      assert fields[1..][k..] == fields[k + 1..];
      MakePhotoLastWins(fields[1..], values[1..], k - 1);
    }
  }

  /**
   * `photo[key] = v` for a key the field container resolved: a field object
   * gets its cell, None becomes a stray key, after which no field of the
   * photo can be read by name.
   */
  function Put(p: Photo, f: FieldObject?, v: Value): (r: Photo)
    ensures f != null ==> r.values == p.values[f := v] && r.strays == p.strays && Get(r, AtField(f)) == Ok(v)
    ensures f == null ==> r.values == p.values && r.strays == p.strays[NoneKey := v]
    ensures f == null ==> forall name :: Get(r, AtName(name)) == Err(AttributeError)
  {
    if f == null then
      var r := p.(strays := p.strays[NoneKey := v]);
      assert NoneKey in r.strays;
      r
    else p.(values := p.values[f := v])
  }

  /** `photo.removeField(field)`: `del photo[field]`. */
  function RemoveKey(p: Photo, f: FieldObject): (r: Photo)
    requires f in p.values
    ensures r.values.Keys == p.values.Keys - {f}
    ensures forall g | g in r.values :: r.values[g] == p.values[g]
    ensures r.strays == p.strays
  {
    p.(values := p.values - {f})
  }

  // ----------------------------------------------------- generic field names

  const TagFieldPrefix := "Tag Field "

  /** `re.match('Tag Field (\d+)', s)`: the number after the prefix, if digits follow it. */
  function TagFieldNumber(s: string): Option<nat> {
    var n := |TagFieldPrefix|;
    if |s| >= n && s[..n] == TagFieldPrefix && Dates.DigitRun(s, n) > 0 then
      var digits := s[n..n + Dates.DigitRun(s, n)];
      Dates.DigitRunDigits(s, n);
      assert forall k | 0 <= k < |digits| :: digits[k] == s[n + k];
      Dates.ValueNonNegative(digits);
      Some(Dates.Value(digits))
    else None
  }

  /** The largest generic-field number among the names. */
  function MaxNumber(names: seq<string>): (r: Option<nat>)
    ensures r.None? <==> forall k | 0 <= k < |names| :: TagFieldNumber(names[k]).None?
    ensures r.Some? ==> forall k | 0 <= k < |names| && TagFieldNumber(names[k]).Some? :: TagFieldNumber(names[k]).value <= r.value
  {
    if |names| == 0 then None
    else
      var rest := MaxNumber(names[1..]);
      assert forall k | 1 <= k < |names| :: names[k] == names[1..][k - 1];
      match TagFieldNumber(names[0])
      case None => rest
      case Some(m) => if rest.Some? && rest.value > m then rest else Some(m)
  }

  /** `max(numbers) + 1 if numbers else 1`: the next generic-field number. */
  function NextNumber(names: seq<string>): (r: nat)
    ensures r >= 1
    ensures forall k | 0 <= k < |names| && TagFieldNumber(names[k]).Some? :: TagFieldNumber(names[k]).value < r
  {
    match MaxNumber(names)
    case None => 1
    case Some(m) => m + 1
  }

  /** `'Tag Field {}'.format(n)`. */
  function DefaultName(n: nat): string {
    TagFieldPrefix + NatToString(n)
  }

  lemma {:induction false} ValueOfNatToString(n: nat)
    ensures Dates.Value(NatToString(n)) == n
  {
    if n >= 10 {
      var s := NatToString(n);
      assert s[..|s| - 1] == NatToString(n / 10);
      ValueOfNatToString(n / 10);
    }
  }

  lemma {:induction false} DigitRunToEnd(s: string, i: nat)
    requires i <= |s|
    requires forall k | i <= k < |s| :: Dates.IsDigit(s[k])
    ensures Dates.DigitRun(s, i) == |s| - i
    decreases |s| - i
  {
    if i < |s| {
      DigitRunToEnd(s, i + 1);
    }
  }

  /** The number in a generated name reads back as the number it was made from. */
  lemma DefaultNameNumber(n: nat)
    ensures TagFieldNumber(DefaultName(n)) == Some(n)
  {
    var s := DefaultName(n);
    var p := |TagFieldPrefix|;
    assert s[..p] == TagFieldPrefix;
    assert s[p..] == NatToString(n);
    DigitRunToEnd(s, p);
    assert s[p..p + Dates.DigitRun(s, p)] == NatToString(n);
    ValueOfNatToString(n);
  }

  /**
   * A generated name with a number at or above the counter computed from a
   * list of names is none of those names, so `nextDefaultField` and the
   * album's counter never produce a name that is already taken.
   */
  lemma DefaultNameFresh(names: seq<string>, n: nat)
    requires n >= NextNumber(names)
    ensures DefaultName(n) !in names
  {
    DefaultNameNumber(n);
    forall k | 0 <= k < |names|
      ensures names[k] != DefaultName(n)
    {
      assert TagFieldNumber(names[k]).Some? ==> TagFieldNumber(names[k]).value < n;
    }
  }

  // --------------------------------------------------------- default fields

  /** The eight fields of `initializeFields`, in order. */
  function DefaultFieldProps(): (r: seq<Props>)
    ensures |r| == 8
  {
    [ Props("Image", true, Some(LineEditEditor), false, false, false, false, false),
      Props(TaggedField, true, Some(CheckBoxEditor), true, false, false, false, false),
      Props(FileNameField, true, Some(LineEditEditor), false, false, false, true, false),
      Props(DateField, true, Some(LineEditEditor), false, false, false, false, false),
      Props("Import Date", true, Some(LineEditEditor), false, false, false, false, false),
      Props("Hash", true, Some(LineEditEditor), false, false, true, false, false),
      Props(FileIdField, false, Some(LineEditEditor), false, false, true, false, false),
      Props(DirectoryField, true, Some(LineEditEditor), false, false, false, false, false) ]
  }

  function DefaultNames(): (r: seq<string>)
    ensures |r| == 8 && forall k | 0 <= k < 8 :: r[k] == DefaultFieldProps()[k].name
  {
    ["Image", TaggedField, FileNameField, DateField, "Import Date", "Hash", FileIdField, DirectoryField]
  }

  /** No two fields share a name (which also makes the field objects distinct). */
  predicate DistinctNames(fs: seq<FieldObject>)
    reads fs
  {
    forall i, j | 0 <= i < j < |fs| :: fs[i].name != fs[j].name
  }

  lemma DefaultNamesDistinct()
    ensures forall i, j | 0 <= i < j < 8 :: DefaultNames()[i] != DefaultNames()[j]
  {
  }

  /** The eight default fields, in order, with the default properties. */
  ghost predicate DefaultsOk(fs: seq<FieldObject>)
    reads fs
  {
    |fs| == 8 && NamesOf(fs) == DefaultNames() && DistinctNames(fs)
    && forall k | 0 <= k < 8 :: fs[k].PropsOf() == DefaultFieldProps()[k]
  }

  /** `initializeFields`: a fresh container of eight fresh fields. */
  method DefaultFields() returns (c: FieldObjectContainer)
    ensures fresh(c) && |c.fieldobjs| == 8
    ensures forall k | 0 <= k < 8 :: fresh(c.fieldobjs[k])
    ensures DefaultsOk(c.fieldobjs)
  {
    var ps := DefaultFieldProps();
    var fs: seq<FieldObject> := [];
    for i := 0 to 8
      invariant |fs| == i
      invariant forall k | 0 <= k < i :: fresh(fs[k]) && fs[k].PropsOf() == ps[k]
    {
      var f := new FieldObject(ps[i]);
      fs := fs + [f];
    }
    c := new FieldObjectContainer(fs);
    DefaultNamesDistinct();
  }

  // ---------------------------------------------------- construction paths
  //
  // `d` below is the list of names the album already carries when the given
  // fields are examined: the default names.

  /** The given fields (named `xn`) that replace an existing field, in order. */
  function Used(xs: seq<FieldObject>, xn: seq<string>, d: seq<string>): (r: seq<FieldObject>)
    requires |xs| == |xn|
    ensures forall k | 0 <= k < |r| :: r[k] in xs
  {
    if |xs| == 0 then []
    else (if xn[0] in d then [xs[0]] else []) + Used(xs[1..], xn[1..], d)
  }

  /** The given fields (named `xn`) that are appended, in order. */
  function Kept(xs: seq<FieldObject>, xn: seq<string>, d: seq<string>): (r: seq<FieldObject>)
    requires |xs| == |xn|
    ensures forall k | 0 <= k < |r| :: r[k] in xs
  {
    if |xs| == 0 then []
    else (if xn[0] in d then [] else [xs[0]]) + Kept(xs[1..], xn[1..], d)
  }

  /** The list with its first `j` fields that carry a name in `d` removed. */
  function DropUsed(xs: seq<FieldObject>, xn: seq<string>, d: seq<string>, j: nat): seq<FieldObject>
    requires |xs| == |xn|
  {
    if |xs| == 0 then []
    else if xn[0] in d then (if j > 0 then DropUsed(xs[1..], xn[1..], d, j - 1) else xs)
    else [xs[0]] + DropUsed(xs[1..], xn[1..], d, j)
  }

  lemma {:induction false} DropUsedAll(xs: seq<FieldObject>, xn: seq<string>, d: seq<string>)
    requires |xs| == |xn|
    ensures DropUsed(xs, xn, d, |Used(xs, xn, d)|) == Kept(xs, xn, d)
  {
    if |xs| > 0 {
      DropUsedAll(xs[1..], xn[1..], d);
    }
  }

  lemma {:induction false} DropUsedNone(xs: seq<FieldObject>, xn: seq<string>, d: seq<string>)
    requires |xs| == |xn|
    ensures DropUsed(xs, xn, d, 0) == xs
  {
    if |xs| > 0 && xn[0] !in d {
      DropUsedNone(xs[1..], xn[1..], d);
    }
  }

  /**
   * `fields.remove(f)` for the next used field removes exactly that field's
   * first occurrence, which is the first used field still present: a field
   * object carries one name, so it cannot be both kept and used.
   */
  lemma {:induction false} DropUsedStep(xs: seq<FieldObject>, xn: seq<string>, d: seq<string>, j: nat)
    requires xn == NamesOf(xs) && j < |Used(xs, xn, d)|
    ensures Lists.Remove(DropUsed(xs, xn, d, j), Used(xs, xn, d)[j]) == Some(DropUsed(xs, xn, d, j + 1))
  {
    NamesOfSlice(xs, 1, |xs|);
    if xn[0] in d {
      if j == 0 {
        DropUsedStepHead(xs, xn, d);
      } else {
        DropUsedStep(xs[1..], xn[1..], d, j - 1);
        DropUsedStepUsed(xs, xn, d, j);
      }
    } else {
      DropUsedStep(xs[1..], xn[1..], d, j);
      DropUsedStepKept(xs, xn, d, j);
    }
  }

  lemma DropUsedStepHead(xs: seq<FieldObject>, xn: seq<string>, d: seq<string>)
    requires |xs| == |xn| > 0 && xn[0] in d
    ensures Used(xs, xn, d)[0] == xs[0]
    ensures Lists.Remove(DropUsed(xs, xn, d, 0), xs[0]) == Some(DropUsed(xs, xn, d, 1))
  {
    DropUsedNone(xs[1..], xn[1..], d);
    assert xs == [xs[0]] + xs[1..];
    Lists.RemoveHead(xs[0], xs[1..]);
  }

  lemma DropUsedStepUsed(xs: seq<FieldObject>, xn: seq<string>, d: seq<string>, j: nat)
    requires |xs| == |xn| > 0 && xn[0] in d && 0 < j < |Used(xs, xn, d)|
    requires Lists.Remove(DropUsed(xs[1..], xn[1..], d, j - 1), Used(xs[1..], xn[1..], d)[j - 1])
          == Some(DropUsed(xs[1..], xn[1..], d, j))
    ensures Lists.Remove(DropUsed(xs, xn, d, j), Used(xs, xn, d)[j]) == Some(DropUsed(xs, xn, d, j + 1))
  {
    assert Used(xs, xn, d) == [xs[0]] + Used(xs[1..], xn[1..], d);
  }

  lemma DropUsedStepKept(xs: seq<FieldObject>, xn: seq<string>, d: seq<string>, j: nat)
    requires xn == NamesOf(xs) && |xs| > 0 && xn[0] !in d && j < |Used(xs, xn, d)|
    requires Lists.Remove(DropUsed(xs[1..], xn[1..], d, j), Used(xs[1..], xn[1..], d)[j])
          == Some(DropUsed(xs[1..], xn[1..], d, j + 1))
    ensures Lists.Remove(DropUsed(xs, xn, d, j), Used(xs, xn, d)[j]) == Some(DropUsed(xs, xn, d, j + 1))
  {
    assert Used(xs, xn, d) == Used(xs[1..], xn[1..], d);
    var u := Used(xs, xn, d)[j];
    UsedNamed(xs[1..], xn[1..], d, j);
    assert xs[0] != u;
    Lists.RemoveBehind(xs[0], DropUsed(xs[1..], xn[1..], d, j), u);
  }

  /** A used field carries a name in `d` and is still present after dropping fewer used fields. */
  lemma {:induction false} UsedNamed(xs: seq<FieldObject>, xn: seq<string>, d: seq<string>, j: nat)
    requires xn == NamesOf(xs) && j < |Used(xs, xn, d)|
    ensures Used(xs, xn, d)[j].name in d
    ensures Used(xs, xn, d)[j] in DropUsed(xs, xn, d, j)
  {
    NamesOfSlice(xs, 1, |xs|);
    if xn[0] in d {
      if j > 0 {
        UsedNamed(xs[1..], xn[1..], d, j - 1);
      }
    } else {
      UsedNamed(xs[1..], xn[1..], d, j);
    }
  }

  /** The last field in the list (named `xn`) with the given name: the one that ends up replacing a default. */
  function LastNamed(xs: seq<FieldObject>, xn: seq<string>, name: string): (r: FieldObject)
    requires |xs| == |xn| && name in xn
    ensures exists k | 0 <= k < |xs| :: xs[k] == r && xn[k] == name && forall j | k < j < |xs| :: xn[j] != name
  {
    var n := |xs| - 1;
    if xn[n] == name then xs[n]
    else
      assert xn == xn[..n] + [xn[n]];
      LastNamed(xs[..n], xn[..n], name)
  }

  /**
   * What the replacement loop has done after examining `given` (named `gn`):
   * each name's last carrier holds the place of that name in `d`.
   */
  ghost predicate Replaced(fs: seq<FieldObject>, before: seq<FieldObject>, d: seq<string>, given: seq<FieldObject>, gn: seq<string>)
    requires |fs| == |before| == |d| && |given| == |gn|
  {
    forall k | 0 <= k < |d| ::
      if d[k] in gn then fs[k] == LastNamed(given, gn, d[k]) else fs[k] == before[k]
  }

  /** One more given field: it takes the place of the field with its name, if any. */
  lemma ReplacedStep(
    fs: seq<FieldObject>, before: seq<FieldObject>, d: seq<string>, given: seq<FieldObject>, gn: seq<string>,
    f: FieldObject, name: string, dex: int)
    requires |fs| == |before| == |d| && |given| == |gn|
    requires forall i, j | 0 <= i < j < |d| :: d[i] != d[j]
    requires Replaced(fs, before, d, given, gn)
    requires -1 <= dex
    requires dex == -1 ==> name !in d
    requires 0 <= dex ==> dex < |d| && d[dex] == name
    ensures Replaced(if dex == -1 then fs else fs[dex := f], before, d, given + [f], gn + [name])
  {
    var g, h := given + [f], gn + [name];
    assert g[..|given|] == given && h[..|gn|] == gn;
    var fs' := if dex == -1 then fs else fs[dex := f];
    forall k | 0 <= k < |d|
      ensures if d[k] in h then fs'[k] == LastNamed(g, h, d[k]) else fs'[k] == before[k]
    {
      if d[k] == name {
        assert dex == k;
      }
    }
  }

  /**
   * `fields[fields.index(name)] = f` when a field of that name is present;
   * `d` holds the names of `fs`, and `name` is the name of `f`.
   */
  function ReplaceOne(fs: seq<FieldObject>, d: seq<string>, f: FieldObject, name: string): (r: seq<FieldObject>)
    requires |fs| == |d|
    ensures |r| == |fs|
  {
    match Lists.IndexOf(d, name)
    case None => fs
    case Some(k) => fs[k := f]
  }

  /** The replacement loop over the given fields (whose names are `gn`), in order. */
  function ReplaceAll(fs: seq<FieldObject>, d: seq<string>, given: seq<FieldObject>, gn: seq<string>): (r: seq<FieldObject>)
    requires |fs| == |d| && |given| == |gn|
    ensures |r| == |fs|
    decreases |given|
  {
    if |given| == 0 then fs
    else ReplaceAll(ReplaceOne(fs, d, given[0], gn[0]), d, given[1..], gn[1..])
  }

  /** Replacing by the fields of `given`, after those of `prefix`, leaves each name's last carrier in place. */
  lemma {:induction false} ReplaceAllReplaced(
    fs: seq<FieldObject>, before: seq<FieldObject>, d: seq<string>,
    prefix: seq<FieldObject>, pn: seq<string>, given: seq<FieldObject>, gn: seq<string>)
    requires |fs| == |before| == |d| && |prefix| == |pn| && |given| == |gn|
    requires forall i, j | 0 <= i < j < |d| :: d[i] != d[j]
    requires Replaced(fs, before, d, prefix, pn)
    ensures Replaced(ReplaceAll(fs, d, given, gn), before, d, prefix + given, pn + gn)
    decreases |given|
  {
    if |given| == 0 {
      assert prefix + given == prefix && pn + gn == pn;
    } else {
      var next := ReplaceOne(fs, d, given[0], gn[0]);
      var dex := match Lists.IndexOf(d, gn[0]) case None => -1 case Some(k) => k;
      assert next == if dex == -1 then fs else fs[dex := given[0]];
      ReplacedStep(fs, before, d, prefix, pn, given[0], gn[0], dex);
      assert (prefix + [given[0]]) + given[1..] == prefix + given;
      assert (pn + [gn[0]]) + gn[1..] == pn + gn;
      ReplaceAllReplaced(next, before, d, prefix + [given[0]], pn + [gn[0]], given[1..], gn[1..]);
    }
  }

  /**
   * After the replacement loop over fields with distinct names `d`, each
   * field whose name some given field carries is the last such given field,
   * and every other field is left in place.
   */
  lemma ReplaceAllLastWins(fs: seq<FieldObject>, d: seq<string>, given: seq<FieldObject>, gn: seq<string>)
    requires |fs| == |d| && |given| == |gn|
    requires forall i, j | 0 <= i < j < |d| :: d[i] != d[j]
    ensures Replaced(ReplaceAll(fs, d, given, gn), fs, d, given, gn)
  {
    ReplaceAllReplaced(fs, fs, d, [], [], given, gn);
    assert [] + given == given && [] + gn == gn;
  }

  /** One iteration of the replacement loop peels the next given field off the specification. */
  lemma ReplaceLoopStep(fs: seq<FieldObject>, d: seq<string>, given: seq<FieldObject>, gn: seq<string>, i: nat, used: seq<FieldObject>)
    requires |fs| == |d| && |given| == |gn| && i < |given|
    ensures ReplaceAll(fs, d, given[i..], gn[i..]) == ReplaceAll(ReplaceOne(fs, d, given[i], gn[i]), d, given[i + 1..], gn[i + 1..])
    ensures used + Used(given[i..], gn[i..], d)
         == (if gn[i] in d then used + [given[i]] else used) + Used(given[i + 1..], gn[i + 1..], d)
  {
    assert given[i..][0] == given[i] && given[i..][1..] == given[i + 1..];
    assert gn[i..][0] == gn[i] && gn[i..][1..] == gn[i + 1..];
    var rest := Used(given[i + 1..], gn[i + 1..], d);
    if gn[i] in d {
      assert (used + [given[i]]) + rest == used + ([given[i]] + rest);
    } else {
      assert [] + rest == rest;
    }
  }

  /** One iteration of the replacement loop: `f` takes the place of the field with its name, if any. */
  method ReplaceStep(fc: FieldObjectContainer, f: FieldObject, ghost d: seq<string>, ghost name: string) returns (hit: bool)
    requires NamesOf(fc.fieldobjs) == d && f.name == name
    modifies fc
    ensures hit <==> name in d
    ensures fc.fieldobjs == ReplaceOne(old(fc.fieldobjs), d, f, name)
    ensures NamesOf(fc.fieldobjs) == d
  {
    ghost var cur := fc.fieldobjs;
    var names := fc.Names();
    assert names == d;
    hit := f.name in names;
    if hit {
      var dex := Lists.IndexOf(names, f.name).value;
      var _ := fc.SetItem(dex, Obj(f));
      NamesOfUpdate(cur, dex, f);
    }
  }

  /**
   * The first loop of the container path, over the names `d` of the
   * container and `gn` of the given fields: each given field whose name is
   * already present takes that field's place, so a later field with the same
   * name wins; the replacing fields are returned in order.
   */
  method ReplaceNamed(fc: FieldObjectContainer, given: seq<FieldObject>, ghost d: seq<string>, ghost gn: seq<string>)
    returns (used: seq<FieldObject>)
    requires NamesOf(fc.fieldobjs) == d && gn == NamesOf(given)
    modifies fc
    ensures used == Used(given, gn, d)
    ensures fc.fieldobjs == ReplaceAll(old(fc.fieldobjs), d, given, gn)
  {
    ghost var final := ReplaceAll(fc.fieldobjs, d, given, gn);
    ghost var allUsed := Used(given, gn, d);
    used := [];
    for i := 0 to |given|
      invariant NamesOf(fc.fieldobjs) == d
      invariant used + Used(given[i..], gn[i..], d) == allUsed
      invariant ReplaceAll(fc.fieldobjs, d, given[i..], gn[i..]) == final
    {
      ReplaceLoopStep(fc.fieldobjs, d, given, gn, i, used);
      var hit := ReplaceStep(fc, given[i], d, gn[i]);
      if hit {
        used := used + [given[i]];
      }
    }
  }

  /** Some name is already in `d` or occurs twice. */
  predicate Repeats(d: seq<string>, names: seq<string>) {
    (exists i | 0 <= i < |names| :: names[i] in d)
    || exists i, j | 0 <= i < j < |names| :: names[i] == names[j]
  }

  /**
   * The loop of the list path of `Album(fields)`: a fresh field per name,
   * each checked against the names present so far (`existing`, then the
   * names already added); ValueError at the first name already present.
   */
  method NewNamedFields(existing: seq<string>, names: seq<string>) returns (r: Result<seq<FieldObject>>)
    ensures r.Err? <==> Repeats(existing, names)
    ensures r.Err? ==> r.error == ValueError
    ensures r.Ok? ==> |r.value| == |names|
    ensures r.Ok? ==> forall k | 0 <= k < |names| :: fresh(r.value[k]) && r.value[k].PropsOf() == DefaultProps(names[k])
  {
    var added: seq<FieldObject> := [];
    var current := existing;
    for i := 0 to |names|
      invariant |added| == i && current == existing + names[..i]
      invariant forall k | 0 <= k < i :: fresh(added[k]) && added[k].PropsOf() == DefaultProps(names[k])
      invariant !Repeats(existing, names[..i])
    {
      assert names[..i + 1] == names[..i] + [names[i]];
      if names[i] in current {
        return Err(ValueError);
      }
      var f := new FieldObject.Named(names[i]);
      added := added + [f];
      current := current + [names[i]];
    }
    assert names[..|names|] == names;
    return Ok(added);
  }

  /** The argument of `Album(fields, values)`: a list of names or a container. */
  datatype FieldsArg = Names(names: seq<string>) | Fields(c: FieldObjectContainer)

  /** Some name repeats a default name or an earlier name; the list is refused there. */
  predicate HasDuplicate(names: seq<string>) {
    Repeats(DefaultNames(), names)
  }

  /** The fields made from a list of names: the eight defaults, then one fresh field per name. */
  ghost predicate NamedFieldsOk(names: seq<string>, fs: seq<FieldObject>)
    reads fs
  {
    |fs| == 8 + |names| && NamesOf(fs) == DefaultNames() + names
    && (forall k | 0 <= k < 8 :: fs[k].PropsOf() == DefaultFieldProps()[k])
    && (forall k | 8 <= k < |fs| :: fs[k].PropsOf() == DefaultProps(names[k - 8]))
  }

  /**
   * The fields made from a container: each default whose name a given field
   * carries is replaced by the last such field, and the other given fields
   * follow in order.
   */
  ghost predicate ContainerFieldsOk(given: seq<FieldObject>, gn: seq<string>, fs: seq<FieldObject>, fp: seq<Props>)
  {
    |gn| == |given|
    && var kept := Kept(given, gn, DefaultNames());
    |fs| == |fp| == 8 + |kept| && fs[8..] == kept
    && (forall k | 0 <= k < 8 && DefaultNames()[k] !in gn :: fp[k] == DefaultFieldProps()[k])
    && (forall k | 0 <= k < 8 && DefaultNames()[k] in gn :: fs[k] == LastNamed(given, gn, DefaultNames()[k]))
  }

  /** The list path of `Album(fields)`. */
  method NamedFields(names: seq<string>) returns (r: Result<FieldObjectContainer>)
    ensures r.Err? <==> HasDuplicate(names)
    ensures r.Err? ==> r.error == ValueError
    ensures r.Ok? ==> fresh(r.value) && NamedFieldsOk(names, r.value.fieldobjs)
  {
    var fc := DefaultFields();
    var added := NewNamedFields(fc.Names(), names);
    if added.Err? {
      return Err(added.error);
    }
    ghost var defaults := fc.fieldobjs;
    fc.Extend(added.value);
    NamesOfAppend(defaults, added.value);
    assert NamesOf(added.value) == names;
    assert forall k | 0 <= k < 8 :: fc.fieldobjs[k] == defaults[k];
    assert forall k | 8 <= k < |fc.fieldobjs| :: fc.fieldobjs[k] == added.value[k - 8];
    return Ok(fc);
  }

  /** The second loop of the container path: `fields.remove(f)` for every used field. */
  method RemoveUsed(c: FieldObjectContainer, used: seq<FieldObject>, ghost d: seq<string>, ghost gn: seq<string>)
    requires gn == NamesOf(c.fieldobjs) && used == Used(c.fieldobjs, gn, d)
    modifies c
    ensures c.fieldobjs == Kept(old(c.fieldobjs), gn, d)
  {
    ghost var given := c.fieldobjs;
    DropUsedNone(given, gn, d);
    for j := 0 to |used|
      invariant c.fieldobjs == DropUsed(given, gn, d, j)
    {
      DropUsedStep(given, gn, d, j);
      var _ := c.Remove(Obj(used[j]));
    }
    DropUsedAll(given, gn, d);
  }

  /**
   * The container path of `Album(fields)` over the fields `fc` already
   * holds (named `d`): fields of `c` (named `gn`) replace the same-named
   * fields of `fc`, leave `c`, and the rest of `c` is appended to `fc`.
   */
  method ReplaceAndExtend(fc: FieldObjectContainer, c: FieldObjectContainer, ghost d: seq<string>, ghost gn: seq<string>)
    requires fc != c && d == NamesOf(fc.fieldobjs) && gn == NamesOf(c.fieldobjs)
    modifies fc, c
    ensures fc.fieldobjs == ReplaceAll(old(fc.fieldobjs), d, old(c.fieldobjs), gn) + Kept(old(c.fieldobjs), gn, d)
    ensures c.fieldobjs == Kept(old(c.fieldobjs), gn, d)
  {
    var used := ReplaceNamed(fc, c.fieldobjs, d, gn);
    RemoveUsed(c, used, d, gn);
    fc.Extend(c.fieldobjs);
  }

  lemma ContainerFieldsFromDefaults(given: seq<FieldObject>, gn: seq<string>, defaults: seq<FieldObject>, fs: seq<FieldObject>)
    requires DefaultsOk(defaults) && |given| == |gn|
    requires fs == ReplaceAll(defaults, DefaultNames(), given, gn) + Kept(given, gn, DefaultNames())
    ensures ContainerFieldsOk(given, gn, fs, PropsAll(fs))
  {
    DefaultNamesDistinct();
    ReplaceAllLastWins(defaults, DefaultNames(), given, gn);
    assert fs[..8] == ReplaceAll(defaults, DefaultNames(), given, gn);
  }

  /** The fields of the container path of `Album(fields)`; the used fields leave `c`. */
  method ContainerFields(c: FieldObjectContainer) returns (fc: FieldObjectContainer)
    modifies c
    ensures fresh(fc)
    ensures ContainerFieldsOk(old(c.fieldobjs), old(NamesOf(c.fieldobjs)), fc.fieldobjs, PropsAll(fc.fieldobjs))
    ensures c.fieldobjs == Kept(old(c.fieldobjs), old(NamesOf(c.fieldobjs)), DefaultNames())
    ensures NamesOf(c.fieldobjs) == old(NamesOf(Kept(c.fieldobjs, NamesOf(c.fieldobjs), DefaultNames())))
  {
    fc := DefaultFields();
    ghost var defaults := fc.fieldobjs;
    ghost var given := c.fieldobjs;
    ghost var d := fc.Names();
    ghost var gn := c.Names();
    ReplaceAndExtend(fc, c, d, gn);
    ContainerFieldsFromDefaults(given, gn, defaults, fc.fieldobjs);
  }

  // ------------------------------------------------------------------ album

  class Album {
    const fields: FieldObjectContainer
    var entries: seq<Photo>
    var counter: nat

    constructor Init(fields: FieldObjectContainer, entries: seq<Photo>, counter: nat)
      ensures this.fields == fields && this.entries == entries && this.counter == counter
    {
      this.fields, this.entries, this.counter := fields, entries, counter;
    }

    /** Every photo has a value for every field. */
    ghost predicate Covers()
      reads this, fields
    {
      forall e, f | e in entries && f in fields.fieldobjs :: f in e.values
    }

    /** The fields have distinct names and every photo has exactly the album's fields. */
    ghost predicate Consistent()
      reads this, fields, fields.fieldobjs
    {
      DistinctNames(fields.fieldobjs)
      && forall e | e in entries :: e.values.Keys == set f | f in fields.fieldobjs
    }

    function FieldNames(): (r: seq<string>)
      reads this, fields, fields.fieldobjs
      ensures r == NamesOf(fields.fieldobjs)
    {
      fields.Names()
    }

    /** The list path of `Album(fields, values)`. */
    static method FromNames(names: seq<string>, values: seq<seq<Value>>) returns (r: Result<Album>)
      requires forall v | v in values :: |v| == 8 + |names|
      ensures r.Err? <==> HasDuplicate(names)
      ensures r.Err? ==> r.error == ValueError
      ensures r.Ok? ==> fresh(r.value) && fresh(r.value.fields)
      ensures r.Ok? ==> NamedFieldsOk(names, r.value.fields.fieldobjs) && r.value.counter == NextNumber(names)
      ensures r.Ok? ==> |r.value.entries| == |values|
      ensures r.Ok? ==> forall k | 0 <= k < |values| ::
        |values[k]| == |r.value.fields.fieldobjs| && r.value.entries[k] == MakePhoto(r.value.fields.fieldobjs, values[k])
    {
      var res := NamedFields(names);
      if res.Err? {
        return Err(res.error);
      }
      var fc := res.value;
      var es := MakeEntries(fc.fieldobjs, values);
      var album := new Album.Init(fc, es, NextNumber(names));
      return Ok(album);
    }

    /**
     * The container path of `Album(fields, values)`: the defaults, then the
     * fields of `c` (see ReplaceAndExtend); the used fields leave `c`.
     */
    constructor FromContainer(c: FieldObjectContainer, values: seq<seq<Value>>)
      requires forall v | v in values :: |v| == 8 + |Kept(c.fieldobjs, NamesOf(c.fieldobjs), DefaultNames())|
      modifies c
      ensures fresh(fields)
      ensures ContainerFieldsOk(old(c.fieldobjs), old(NamesOf(c.fieldobjs)), fields.fieldobjs, PropsAll(fields.fieldobjs))
      ensures c.fieldobjs == Kept(old(c.fieldobjs), old(NamesOf(c.fieldobjs)), DefaultNames())
      ensures counter == NextNumber(old(NamesOf(Kept(c.fieldobjs, NamesOf(c.fieldobjs), DefaultNames()))))
      ensures |entries| == |values|
      ensures forall k | 0 <= k < |values| ::
        |values[k]| == |fields.fieldobjs| && entries[k] == MakePhoto(fields.fieldobjs, values[k])
    {
      var fc := ContainerFields(c);
      var names := NamesOf(c.fieldobjs);
      var es := MakeEntries(fc.fieldobjs, values);
      fields, entries, counter := fc, es, NextNumber(names);
    }

    /** One photo per value list, over the album's fields. */
    static method MakeEntries(fs: seq<FieldObject>, values: seq<seq<Value>>) returns (es: seq<Photo>)
      requires forall v | v in values :: |v| == |fs|
      ensures |es| == |values|
      ensures forall k | 0 <= k < |values| :: |values[k]| == |fs| && es[k] == MakePhoto(fs, values[k])
    {
      es := [];
      for k := 0 to |values|
        invariant |es| == k
        invariant forall j | 0 <= j < k :: |values[j]| == |fs| && es[j] == MakePhoto(fs, values[j])
      {
        assert values[k] in values;
        es := es + [MakePhoto(fs, values[k])];
      }
    }

    /** `fields[key]` on the album: a position, a name, or a field resolved through its name. */
    function FieldAt(key: Key): (r: Result<FieldObject?>)
      reads this, fields, fields.fieldobjs, if key.ByField? then {key.f} else {}
    {
      fields.Get(key)
    }

    /** `album[row]`: the photo at a Python index, IndexError outside the list. */
    function Entry(row: int): (r: Result<Photo>)
      reads this
      ensures r.Ok? <==> Lists.NormIndex(row, |entries|).Some?
      ensures r.Ok? ==> r.value in entries && r.value == entries[Lists.NormIndex(row, |entries|).value]
      ensures r.Err? ==> r.error == IndexError
    {
      match Lists.NormIndex(row, |entries|)
      case None => Err(IndexError)
      case Some(k) => Ok(entries[k])
    }

    /**
     * `album[row, field]`: a name is first resolved through the field
     * container; a name no field carries reaches the photo as None, which
     * `field_by_name` refuses with ValueError; a field object is looked up
     * directly (KeyError when the photo lacks it).
     */
    function Cell(row: int, field: FieldArg): (r: Result<Value>)
      reads this, fields, fields.fieldobjs
      ensures Entry(row).Err? ==> r == Err(IndexError)
      ensures Entry(row).Ok? && field.Obj? ==>
        (r.Ok? <==> field.f in Entry(row).value.values)
        && (r.Ok? ==> r.value == Entry(row).value.values[field.f])
      ensures Entry(row).Ok? && field.Text? ==>
        (r.Ok? <==> field.s in FieldNames() && FirstNamed(fields.fieldobjs, field.s) in Entry(row).value.values)
        && (r.Ok? ==> r.value == Entry(row).value.values[FirstNamed(fields.fieldobjs, field.s)])
    {
      var target := if field.Obj? then field.f else FirstNamed(fields.fieldobjs, field.s);
      match Entry(row)
      case Err(e) => Err(e)
      case Ok(p) =>
        if target == null then Err(ValueError)
        else if target in p.values then Ok(p.values[target])
        else Err(KeyError)
    }

    /**
     * `album[row, fdex] = value`: the field is resolved through the container
     * (IndexError for a bad position), then the photo at `row` (IndexError)
     * gets the value under that field; a name no field carries resolves to
     * None, which the photo's dictionary takes as a key like any other.
     * Nothing else changes.
     */
    method SetCell(row: int, fdex: Key, value: Value) returns (r: Result<()>)
      modifies this`entries
      ensures r.Ok? <==> fields.Get(fdex).Ok? && Lists.NormIndex(row, |old(entries)|).Some?
      ensures r.Err? ==> r.error == IndexError && entries == old(entries)
      ensures r.Ok? ==>
        var k := Lists.NormIndex(row, |old(entries)|).value;
        entries == old(entries)[k := Put(old(entries)[k], fields.Get(fdex).value, value)]
    {
      var field := fields.Get(fdex);
      if field.Err? {
        return Err(field.error);
      }
      var k := Lists.NormIndex(row, |entries|);
      if k.None? {
        return Err(IndexError);
      }
      entries := entries[k.value := Put(entries[k.value], field.value, value)];
      r := Ok(());
    }

    /**
     * `insertField(index, name)`. Without a name the field is called
     * `Tag Field <counter>` and the counter advances, even when the insert is
     * then refused. A name already in use raises ValueError and changes no
     * field or photo. Otherwise the field (the given object, or a fresh field
     * with default properties) is inserted at `index` (default: the end),
     * and every photo gets `''` under `fields[index]` of the new list, which
     * is the new field when `0 <= index <= len(fields)`; when photos exist
     * and `index` is not a valid position of the new list, the field stays
     * inserted and IndexError is raised.
     */
    method InsertField(index: Option<int>, name: Option<FieldArg>) returns (r: Result<()>)
      modifies this`entries, this`counter, fields
      ensures var n := if name.None? then DefaultName(old(counter))
                       else if name.value.Obj? then name.value.f.name else name.value.s;
        (r == Err(ValueError) <==> n in old(FieldNames()))
        && (r == Err(ValueError) ==> fields.fieldobjs == old(fields.fieldobjs) && entries == old(entries))
        && (r.Err? ==> r.error == ValueError || r.error == IndexError)
        && (r.Ok? || r.error == IndexError ==>
              var p := Lists.InsertPos(if index.Some? then index.value else |old(fields.fieldobjs)|, |old(fields.fieldobjs)|);
              |fields.fieldobjs| == |old(fields.fieldobjs)| + 1
              && fields.fieldobjs[..p] == old(fields.fieldobjs)[..p]
              && fields.fieldobjs[p + 1..] == old(fields.fieldobjs)[p..]
              && fields.fieldobjs[p].name == n
              && (name.Some? && name.value.Obj? ==> fields.fieldobjs[p] == name.value.f)
              && (!(name.Some? && name.value.Obj?) ==> fresh(fields.fieldobjs[p]) && fields.fieldobjs[p].PropsOf() == DefaultProps(n)))
      ensures counter == if name.None? then old(counter) + 1 else old(counter)
      ensures r == Err(IndexError) <==>
        r != Err(ValueError) && |old(entries)| > 0
        && Lists.NormIndex(if index.Some? then index.value else |old(fields.fieldobjs)|, |old(fields.fieldobjs)| + 1).None?
      ensures r == Err(IndexError) ==> entries == old(entries)
      ensures r.Ok? ==>
        var q := Lists.NormIndex(if index.Some? then index.value else |old(fields.fieldobjs)|, |fields.fieldobjs|);
        (|old(entries)| > 0 ==> q.Some?)
        && entries == (if q.Some? then SetAll(old(entries), fields.fieldobjs[q.value], Str("")) else old(entries))
      ensures forall f | f in old(fields.fieldobjs) :: f.PropsOf() == old(f.PropsOf())
    {
      var newField: FieldObject? := null;
      var nm: string;
      if name.Some? && name.value.Obj? {
        newField := name.value.f;
        nm := newField.name;
      } else if name.Some? {
        nm := name.value.s;
      }
      var idx := if index.Some? then index.value else |fields.fieldobjs|;
      if name.None? {
        nm := DefaultName(counter);
        counter := counter + 1;
      }
      if nm in fields.Names() {
        return Err(ValueError);
      }
      if newField == null {
        newField := new FieldObject.Named(nm);
      }
      fields.Insert(idx, Obj(newField));
      var q := Lists.NormIndex(idx, |fields.fieldobjs|);
      if |entries| == 0 {
        return Ok(());
      }
      if q.None? {
        return Err(IndexError);
      }
      FillColumn(fields.fieldobjs[q.value], Str(""));
      return Ok(());
    }

    /** `for entry in self._entries: entry[f] = v`. */
    method FillColumn(f: FieldObject, v: Value)
      modifies this`entries
      ensures entries == SetAll(old(entries), f, v)
    {
      ghost var es := entries;
      var i := 0;
      while i < |entries|
        invariant 0 <= i <= |entries| && |entries| == |es|
        invariant forall j | 0 <= j < i :: entries[j] == Put(es[j], f, v)
        invariant forall j | i <= j < |es| :: entries[j] == es[j]
      {
        entries := entries[i := Put(entries[i], f, v)];
        i := i + 1;
      }
      assert entries == SetAll(es, f, v);
    }

    /**
     * `removeField(idx, force)`: IndexError for a bad position; AlbumError
     * for a required field unless forced, changing nothing; otherwise the
     * field leaves the container and every photo.
     */
    method RemoveField(idx: int, force: bool) returns (r: Result<()>)
      requires Covers()
      modifies this`entries, fields
      ensures var k := Lists.NormIndex(idx, |old(fields.fieldobjs)|);
        (r.Ok? <==> k.Some? && (force || !old(fields.fieldobjs[k.value].required)))
        && (k.None? ==> r == Err(IndexError))
        && (k.Some? && r.Err? ==> r.error == AlbumError)
        && (r.Err? ==> fields.fieldobjs == old(fields.fieldobjs) && entries == old(entries))
        && (r.Ok? ==>
              var f := old(fields.fieldobjs[k.value]);
              fields.fieldobjs == Lists.RemoveAt(old(fields.fieldobjs), k.value)
              && |entries| == |old(entries)|
              && forall j | 0 <= j < |entries| :: f in old(entries)[j].values && entries[j] == RemoveKey(old(entries)[j], f))
    {
      var k := Lists.NormIndex(idx, |fields.fieldobjs|);
      if k.None? {
        return Err(IndexError);
      }
      var f := fields.fieldobjs[k.value];
      if f.required && !force {
        return Err(AlbumError);
      }
      assert forall j | 0 <= j < |entries| :: f in entries[j].values by {
        forall j | 0 <= j < |entries| ensures f in entries[j].values {
          assert entries[j] in entries && f in fields.fieldobjs;
        }
      }
      var _ := fields.DelItem(idx);
      DropColumn(f);
      return Ok(());
    }

    /** `for entry in self: entry.removeField(f)`; every photo holds `f`. */
    method DropColumn(f: FieldObject)
      requires forall j | 0 <= j < |entries| :: f in entries[j].values
      modifies this`entries
      ensures |entries| == |old(entries)|
      ensures forall j | 0 <= j < |entries| :: entries[j] == RemoveKey(old(entries)[j], f)
    {
      ghost var es := entries;
      var i := 0;
      while i < |entries|
        invariant 0 <= i <= |entries| && |entries| == |es|
        invariant forall j | 0 <= j < i :: entries[j] == RemoveKey(es[j], f)
        invariant forall j | i <= j < |es| :: entries[j] == es[j]
      {
        entries := entries[i := RemoveKey(entries[i], f)];
        i := i + 1;
      }
    }

    /** `del album[key]`: the photo at a Python index leaves the list. */
    method DelItem(key: int) returns (r: Result<()>)
      modifies this`entries
      ensures r.Ok? <==> Lists.NormIndex(key, |old(entries)|).Some?
      ensures r.Err? ==> r.error == IndexError && entries == old(entries)
      ensures r.Ok? ==> entries == Lists.RemoveAt(old(entries), Lists.NormIndex(key, |old(entries)|).value)
    {
      match Lists.NormIndex(key, |entries|)
      case None =>
        r := Err(IndexError);
      case Some(k) =>
        entries := Lists.RemoveAt(entries, k);
        r := Ok(());
    }

    /** `album.insert(key, photo)`. */
    method Insert(key: int, photo: Photo)
      modifies this`entries
      ensures entries == Lists.Insert(old(entries), key, photo)
    {
      entries := Lists.Insert(entries, key, photo);
    }
  }

  /** Every photo with `v` under field `f`. */
  function SetAll(es: seq<Photo>, f: FieldObject, v: Value): (r: seq<Photo>)
    ensures |r| == |es|
    ensures forall j | 0 <= j < |es| :: r[j] == Put(es[j], f, v)
  {
    seq(|es|, j requires 0 <= j < |es| => Put(es[j], f, v))
  }

  /**
   * Inserting a field at a position inside the list keeps the album
   * consistent: the new field is the one every photo receives.
   */
  lemma InsertKeepsConsistent(before: seq<FieldObject>, after: seq<FieldObject>, p: nat, es: seq<Photo>)
    requires p <= |before| && |after| == |before| + 1
    requires after[..p] == before[..p] && after[p + 1..] == before[p..]
    requires DistinctNames(before) && after[p].name !in NamesOf(before)
    requires forall e | e in es :: e.values.Keys == set f | f in before
    ensures DistinctNames(after)
    ensures forall e | e in SetAll(es, after[p], Str("")) :: e.values.Keys == set f | f in after
  {
    InsertKeepsDistinct(before, after, p);
    InsertGivesKeys(before, after, p, es);
  }

  lemma InsertKeepsDistinct(before: seq<FieldObject>, after: seq<FieldObject>, p: nat)
    requires p <= |before| && |after| == |before| + 1
    requires after[..p] == before[..p] && after[p + 1..] == before[p..]
    requires DistinctNames(before) && after[p].name !in NamesOf(before)
    ensures DistinctNames(after)
  {
    forall i, j | 0 <= i < j < |after| ensures after[i].name != after[j].name {
      if j == p {
        assert after[i] == after[..p][i] == before[i];
      } else if i == p {
        assert after[j] == after[p + 1..][j - p - 1] == before[j - 1];
      } else {
        var i', j' := if i < p then i else i - 1, if j < p then j else j - 1;
        assert after[i] == before[i'] by {
          if i < p { assert after[i] == after[..p][i]; } else { assert after[i] == after[p + 1..][i - p - 1]; }
        }
        assert after[j] == before[j'] by {
          if j < p { assert after[j] == after[..p][j]; } else { assert after[j] == after[p + 1..][j - p - 1]; }
        }
      }
    }
  }

  lemma InsertGivesKeys(before: seq<FieldObject>, after: seq<FieldObject>, p: nat, es: seq<Photo>)
    requires p <= |before| && |after| == |before| + 1
    requires after[..p] == before[..p] && after[p + 1..] == before[p..]
    requires forall e | e in es :: e.values.Keys == set f | f in before
    ensures forall e | e in SetAll(es, after[p], Str("")) :: e.values.Keys == set f | f in after
  {
    assert after == before[..p] + [after[p]] + before[p..] by {
      assert after == after[..p] + [after[p]] + after[p + 1..];
    }
    assert (set f | f in after) == (set f | f in before) + {after[p]};
    forall e | e in SetAll(es, after[p], Str("")) ensures e.values.Keys == set f | f in after {
      var j :| 0 <= j < |es| && SetAll(es, after[p], Str(""))[j] == e;
      assert es[j] in es;
    }
  }

  // -------------------------------------------------------------- unit tests

  /** test_getItem: a photo is read by field name. */
  lemma GetByNameTest(field: FieldObject, field2: FieldObject, field3: FieldObject, dateField: FieldObject)
    requires field.name == "Field1" && field2.name == "Field2" && field3.name == "IntField" && dateField.name == "Date"
    ensures
      var p := MakePhoto([field, field2, field3, dateField], [Str("meta1"), Str("meta2"), Int(1), Str("2017:01:01 00:00:01")]);
      Get(p, AtName("Field1")) == Ok(Str("meta1")) && Get(p, AtField(field)) == Ok(Str("meta1"))
  {
    var fs := [field, field2, field3, dateField];
    var p := MakePhoto(fs, [Str("meta1"), Str("meta2"), Int(1), Str("2017:01:01 00:00:01")]);
    assert field !in fs[1..];
    assert KeysNamed(p, "Field1") == {field};
  }

  /**
   * test_date: the fixture writes its date with colons, which
   * `%Y-%m-%d %H:%M:%S` refuses, so the photo reports no date.
   */
  lemma DateFixtureTest(field: FieldObject, field2: FieldObject, field3: FieldObject, dateField: FieldObject)
    requires field.name == "Field1" && field2.name == "Field2" && field3.name == "IntField" && dateField.name == "Date"
    ensures
      var p := MakePhoto([field, field2, field3, dateField], [Str("meta1"), Str("meta2"), Int(1), Str("2017:01:01 00:00:01")]);
      DateTimeOf(p) == Ok(None)
  {
    var fs := [field, field2, field3, dateField];
    var vs := [Str("meta1"), Str("meta2"), Int(1), Str("2017:01:01 00:00:01")];
    var p := MakePhoto(fs, vs);
    MakePhotoLastWins(fs, vs, 3);
    assert p.values[dateField] == Str("2017:01:01 00:00:01");
    assert KeysNamed(p, DateField) == {dateField};
    Dates.ColonDateRefused();
  }

  /**
   * test_date with the fixture's date written as `%Y-%m-%d %H:%M:%S`
   * expects: the photo then reports 1 January 2017, 00:00:01.
   */
  lemma DashedFixtureTest(field: FieldObject, field2: FieldObject, field3: FieldObject, dateField: FieldObject)
    requires field.name == "Field1" && field2.name == "Field2" && field3.name == "IntField" && dateField.name == "Date"
    ensures
      var p := MakePhoto([field, field2, field3, dateField], [Str("meta1"), Str("meta2"), Int(1), Str("2017-01-01 00:00:01")]);
      DateTimeOf(p) == Ok(Some(Dates.DateTime(Dates.Date(2017, 1, 1), 0, 0, 1)))
  {
    var fs := [field, field2, field3, dateField];
    var vs := [Str("meta1"), Str("meta2"), Int(1), Str("2017-01-01 00:00:01")];
    var p := MakePhoto(fs, vs);
    MakePhotoLastWins(fs, vs, 3);
    assert p.values[dateField] == Str("2017-01-01 00:00:01");
    assert KeysNamed(p, DateField) == {dateField};
    Dates.DashedDateTimeAccepted();
  }
}
