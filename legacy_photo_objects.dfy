// Photos and the album of the earlier generation at the repository root
// (datastore/objects/photo_objects.py). A photo is a dictionary from field
// objects to values with no by-name reads; the album is a list of photos
// with a field container, and its cells are written by position or name.
// A name the container does not know resolves to None, which then becomes a
// key of the photo like any other.

module LegacyPhotoObjects {
  import opened Outcomes
  import opened Values
  import opened LegacyFieldObjects
  import Lists

  /** A photo: its values by key; a key is a field object or None. */
  datatype Photo = Photo(values: map<FieldObject?, Value>)

  /** `dict(zip(fields, values))`: a repeated field keeps its last value. */
  function ZipDict(fields: seq<FieldObject>, values: seq<Value>): (r: map<FieldObject?, Value>)
    requires |fields| == |values|
    ensures forall k | 0 <= k < |fields| :: fields[k] in r
    ensures forall f | f in r :: exists k | 0 <= k < |fields| :: fields[k] == f
  {
    if |fields| == 0 then map[]
    else
      var rest := ZipDict(fields[1..], values[1..]);
      assert forall k | 1 <= k < |fields| :: fields[k] == fields[1..][k - 1];
      if fields[0] in rest then rest else rest[fields[0] := values[0]]
  }

  /** Each field of the dictionary holds the value at the field's last position. */
  lemma {:induction false} ZipDictLastWins(fields: seq<FieldObject>, values: seq<Value>, k: nat)
    requires |fields| == |values| && k < |fields|
    requires fields[k] !in fields[k + 1..]
    ensures ZipDict(fields, values)[fields[k]] == values[k]
  {
    if k > 0 {
      assert fields[1..][k - 1] == fields[k];
      assert fields[1..][k..] == fields[k + 1..];
      ZipDictLastWins(fields[1..], values[1..], k - 1);
    }
  }

  /** `[k.type() for k in fields]`. */
  function TypeDefaults(fields: seq<FieldObject>): (r: seq<Value>)
    reads fields
    ensures |r| == |fields| && forall k | 0 <= k < |fields| :: r[k] == Default(fields[k].typ)
  {
    seq(|fields|, k requires 0 <= k < |fields| reads fields => Default(fields[k].typ))
  }

  /**
   * `Photo(fields, values)`: `values or [k.type() for k in fields]`, then
   * AssertionError unless there are as many values as fields.
   */
  function MakePhoto(fields: seq<FieldObject>, values: seq<Value>): (r: Result<Photo>)
    reads fields
    ensures r.Err? <==> |values| > 0 && |values| != |fields|
    ensures r.Err? ==> r.error == AssertionError
    ensures r.Ok? ==> forall k | 0 <= k < |fields| :: fields[k] in r.value.values
    ensures r.Ok? ==> forall f | f in r.value.values :: exists k | 0 <= k < |fields| :: fields[k] == f
    ensures r.Ok? && |values| == 0 ==> forall f | f in fields :: r.value.values[f] == Default(f.typ)
    ensures r.Ok? && |values| > 0 ==> forall k | 0 <= k < |fields| && fields[k] !in fields[k + 1..] :: r.value.values[fields[k]] == values[k]
  {
    var vs := if |values| > 0 then values else TypeDefaults(fields);
    if |vs| != |fields| then Err(AssertionError)
    else
      var d := ZipDict(fields, vs);
      assert forall k | 0 <= k < |fields| && fields[k] !in fields[k + 1..] :: d[fields[k]] == vs[k] by {
        forall k | 0 <= k < |fields| && fields[k] !in fields[k + 1..] ensures d[fields[k]] == vs[k] {
          ZipDictLastWins(fields, vs, k);
        }
      }
      if |values| == 0 then
        DefaultsEverywhere(fields, vs, d);
        Ok(Photo(d))
      else Ok(Photo(d))
  }

  lemma DefaultsEverywhere(fields: seq<FieldObject>, vs: seq<Value>, d: map<FieldObject?, Value>)
    requires |vs| == |fields|
    requires forall k | 0 <= k < |fields| :: fields[k] in d
    requires forall k | 0 <= k < |fields| :: vs[k] == Default(fields[k].typ)
    requires forall k | 0 <= k < |fields| && fields[k] !in fields[k + 1..] :: d[fields[k]] == vs[k]
    ensures forall f | f in fields :: d[f] == Default(f.typ)
  {
    forall f | f in fields ensures d[f] == Default(f.typ) {
      var k := LastIndex(fields, f);
      assert fields[k] !in fields[k + 1..];
    }
  }

  /** The last position of a member of a list. */
  function LastIndex(xs: seq<FieldObject>, x: FieldObject): (k: nat)
    requires x in xs
    ensures k < |xs| && xs[k] == x && x !in xs[k + 1..]
  {
    if xs[|xs| - 1] == x then |xs| - 1
    else
      assert x in xs[..|xs| - 1] by {
        var j :| 0 <= j < |xs| && xs[j] == x;
        assert xs[..|xs| - 1][j] == x;
      }
      var k := LastIndex(xs[..|xs| - 1], x);
      assert xs[k + 1..] == xs[..|xs| - 1][k + 1..] + [xs[|xs| - 1]];
      k
  }

  /** `photo.removeField(field)`: `del photo[field]`; KeyError when the photo has no such key. */
  function RemoveField(p: Photo, f: FieldObject?): (r: Result<Photo>)
    ensures r.Err? <==> f !in p.values
    ensures r.Err? ==> r.error == KeyError
    ensures r.Ok? ==> r.value.values.Keys == p.values.Keys - {f}
    ensures r.Ok? ==> forall g | g in r.value.values :: r.value.values[g] == p.values[g]
  {
    if f in p.values then Ok(Photo(p.values - {f})) else Err(KeyError)
  }

  /** The first argument of `Album(fields, ...)`: a list of names or fields, or a container. */
  datatype FieldsArg = List(args: seq<FieldArg>) | Container(c: FieldObjectContainer)

  /** A field key of `album[row, field]`: a field object (or None), or a name resolved by the container. */
  datatype CellKey = AtField(f: FieldObject?) | AtName(name: string)

  /** How many fields `Album(fields, ..., types)` ends up with, when the fields are not a mixture. */
  function FieldCount(fields: FieldsArg, types: Option<seq<FieldType>>): nat
    reads if fields.Container? then {fields.c} else {}
  {
    match fields
    case Container(c) => |c.fieldobjs|
    case List(args) => if AllText(args) then |ZipTypes(args, types)| else |args|
  }

  class Album {
    const fields: FieldObjectContainer
    var entries: seq<Photo>

    constructor Init(fields: FieldObjectContainer, entries: seq<Photo>)
      ensures this.fields == fields && this.entries == entries
    {
      this.fields, this.entries := fields, entries;
    }

    /**
     * `Album(fields, values, types)`: a list (or an empty container, which
     * is falsy) is turned into a container with the types, `str` by
     * default; then one photo per value list. A mixed list raises TypeError,
     * and a value list of the wrong length AssertionError.
     */
    static method Create(fields: FieldsArg, values: seq<seq<Value>>, types: Option<seq<FieldType>>)
      returns (r: Result<Album>)
      ensures fields.List? && !AllText(fields.args) && !AllObj(fields.args) ==> r == Err(TypeError)
      ensures r.Err? ==> r.error == TypeError || r.error == AssertionError
      ensures r.Ok? ==> fresh(r.value)
      ensures r.Ok? && fields.Container? && |fields.c.fieldobjs| > 0 ==> r.value.fields == fields.c
      ensures r.Ok? && fields.Container? && |fields.c.fieldobjs| == 0 ==> r.value.fields.fieldobjs == []
      ensures r.Ok? && fields.List? && AllText(fields.args) ==>
        var ps := ZipTypes(fields.args, types);
        |r.value.fields.fieldobjs| == |ps|
        && forall k | 0 <= k < |ps| :: r.value.fields.fieldobjs[k].PropsOf() == ps[k]
      ensures r.Ok? && fields.List? && !AllText(fields.args) ==> r.value.fields.fieldobjs == Objs(fields.args)
      ensures !(fields.List? && !AllText(fields.args) && !AllObj(fields.args)) ==>
        (r == Err(AssertionError) <==> exists k | 0 <= k < |values| :: |values[k]| > 0 && |values[k]| != FieldCount(fields, types))
      ensures r.Ok? ==> |r.value.entries| == |values| && forall k | 0 <= k < |values| ::
        MakePhoto(r.value.fields.fieldobjs, values[k]) == Ok(r.value.entries[k])
  {
      var fc: FieldObjectContainer;
      if fields.Container? && |fields.c.fieldobjs| > 0 {
        fc := fields.c;
      } else {
        var args := if fields.List? then fields.args else [];
        var ts := if types.Some? && |types.value| > 0 then types.value else seq(|args|, _ => StrType);
        var made := FieldObjectContainer.Create(Some(args), Some(ts));
        if made.Err? {
          return Err(made.error);
        }
        fc := made.value;
      }
      var es: seq<Photo> := [];
      var i := 0;
      while i < |values|
        invariant 0 <= i <= |values| && |es| == i
        invariant forall k | 0 <= k < i :: MakePhoto(fc.fieldobjs, values[k]) == Ok(es[k])
      {
        var p := MakePhoto(fc.fieldobjs, values[i]);
        if p.Err? {
          return Err(p.error);
        }
        es := es + [p.value];
        i := i + 1;
      }
      var album := new Album.Init(fc, es);
      return Ok(album);
    }

    /** `field_names`. */
    function FieldNames(): (r: seq<string>)
      reads this, fields, fields.fieldobjs
      ensures |r| == |fields.fieldobjs| && forall k | 0 <= k < |r| :: r[k] == fields.fieldobjs[k].name
    {
      fields.Names()
    }

    /** `album[key]` with an integer: the photo at that position; IndexError outside the list. */
    function Entry(key: int): (r: Result<Photo>)
      reads this
      ensures r.Ok? <==> Lists.NormIndex(key, |entries|).Some?
      ensures r.Ok? ==> r.value == entries[Lists.NormIndex(key, |entries|).value]
      ensures r.Err? ==> r.error == IndexError
    {
      match Lists.NormIndex(key, |entries|)
      case None => Err(IndexError)
      case Some(k) => Ok(entries[k])
    }

    /** The key a cell key resolves to: a name goes through the container, None when no field has it. */
    function Resolve(key: CellKey): (r: FieldObject?)
      reads this, fields, fields.fieldobjs
      ensures key.AtField? ==> r == key.f
      ensures key.AtName? ==> r == FirstNamed(fields.fieldobjs, key.name)
    {
      match key
      case AtField(f) => f
      case AtName(n) => FirstNamed(fields.fieldobjs, n)
    }

    /**
     * `album[row, field]`: the field is resolved first, then the photo is
     * found (IndexError) and its value read (KeyError when the photo has no
     * such key).
     */
    function Get(row: int, field: CellKey): (r: Result<Value>)
      reads this, fields, fields.fieldobjs
      ensures Entry(row).Err? ==> r == Err(IndexError)
      ensures Entry(row).Ok? ==>
        var f := Resolve(field);
        (r.Ok? <==> f in Entry(row).value.values)
        && (r.Ok? ==> r.value == Entry(row).value.values[f])
        && (r.Err? ==> r.error == KeyError)
    {
      var f := Resolve(field);
      match Entry(row)
      case Err(e) => Err(e)
      case Ok(p) => if f in p.values then Ok(p.values[f]) else Err(KeyError)
    }

    /**
     * `album[entry, fdex] = value`: the container resolves `fdex`
     * (IndexError for a bad position), the photo is found (IndexError), and
     * only that photo's value under the resolved key changes.
     */
    method SetCell(entry: int, fdex: Key, value: Value) returns (r: Result<()>)
      modifies this`entries
      ensures var f := fields.Get(fdex);
        var k := Lists.NormIndex(entry, |old(entries)|);
        (r.Ok? <==> f.Ok? && k.Some?)
        && (r.Err? ==> r.error == IndexError && entries == old(entries))
        && (r.Ok? ==> entries == old(entries)[k.value := Photo(old(entries)[k.value].values[f.value := value])])
    {
      var field := fields.Get(fdex);
      if field.Err? {
        return Err(field.error);
      }
      match Lists.NormIndex(entry, |entries|)
      case None =>
        r := Err(IndexError);
      case Some(k) =>
        entries := entries[k := Photo(entries[k].values[field.value := value])];
        r := Ok(());
    }

    /** `album.insert(key, photo)`, with Python's clamping of the position. */
    method Insert(key: int, photo: Photo)
      modifies this`entries
      ensures entries == Lists.Insert(old(entries), key, photo)
    {
      entries := Lists.Insert(entries, key, photo);
    }

    method Append(photo: Photo)
      modifies this`entries
      ensures entries == old(entries) + [photo]
    {
      entries := entries + [photo];
    }

    /** `del album[key]`: the photos after it shift down by one. */
    method DelItem(key: int) returns (r: Result<()>)
      modifies this`entries
      ensures r.Ok? <==> Lists.NormIndex(key, |old(entries)|).Some?
      ensures r.Err? ==> r.error == IndexError && entries == old(entries)
      ensures r.Ok? ==> entries == Lists.RemoveAt(old(entries), Lists.NormIndex(key, |old(entries)|).value)
    {
      match Lists.NormIndex(key, |entries|)
      case None =>
        r := Err(IndexError);
      case Some(k) =>
        entries := Lists.RemoveAt(entries, k);
        r := Ok(());
    }
  }

  // ------------------------------------------------------------ unit tests

  /**
   * test_removeField, for any distinct fields and values: removing the
   * field at `i` leaves exactly the other fields, with their values.
   */
  lemma RemoveFieldKeepsOthers(fields: seq<FieldObject>, values: seq<Value>, i: nat)
    requires |fields| == |values| && i < |fields|
    requires forall a, b | 0 <= a < b < |fields| :: fields[a] != fields[b]
    ensures var p := MakePhoto(fields, values);
      p.Ok? && RemoveField(p.value, fields[i]).Ok?
      && var q := RemoveField(p.value, fields[i]).value.values;
      fields[i] !in q
      && (forall k | 0 <= k < |fields| && k != i :: fields[k] in q && q[fields[k]] == values[k])
      && (forall g | g in q :: exists k | 0 <= k < |fields| :: k != i && fields[k] == g)
  {
    assert forall k | 0 <= k < |fields| :: fields[k] !in fields[k + 1..];
  }

  /** A photo built from fields but no values holds each field's type default; a wrong count of values is refused. */
  lemma PhotoDefaultsTest(f1: FieldObject, f2: FieldObject)
    ensures var p := MakePhoto([f1, f2], []);
      p.Ok? && p.value.values[f1] == Default(f1.typ) && p.value.values[f2] == Default(f2.typ)
    ensures MakePhoto([f1, f2], [Str("a")]) == Err(AssertionError)
  {
  }

  /**
   * test_getitem and test_insert: a photo inserted at position 1 of a
   * two-photo album is the one `album[1, field]` reads from, and the other
   * two photos keep their order around it.
   */
  method InsertGetTest(fc: FieldObjectContainer, strField: FieldObject, p0: Photo, p1: Photo, photo: Photo)
    returns (r: Result<Value>, entries: seq<Photo>)
    requires strField in photo.values && photo.values[strField] == Str("c")
    ensures r == Ok(Str("c"))
    ensures entries == [p0, photo, p1]
  {
    var album := new Album.Init(fc, [p0, p1]);
    album.Insert(1, photo);
    r := album.Get(1, AtField(strField));
    entries := album.entries;
  }
}
