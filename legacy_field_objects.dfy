// Field descriptors of the earlier generation at the repository root
// (datastore/objects/fieldobjects.py). A field carries a value type instead
// of the `filter` and `tags` flags of the later generation, its editor is a
// plain integer, and the container's lookups differ in small ways: a name
// nobody carries gives None, and `index` works on names or objects only.

module LegacyFieldObjects {
  import opened Outcomes
  import opened Values
  import Lists

  /** The Python types a field may declare for its values. */
  datatype FieldType = StrType | IntType | BoolType

  /** What `typ()` gives: `''`, `0` or `False`. */
  function Default(t: FieldType): (r: Value)
    ensures !Truthy(r)
    ensures t.StrType? ==> r == Str("")
    ensures t.IntType? ==> r == Int(0)
    ensures t.BoolType? ==> r == Bool(false)
  {
    match t
    case StrType => Str("")
    case IntType => Int(0)
    case BoolType => Bool(false)
  }

  /** The properties of one field, in the constructor's argument order. */
  datatype Props = Props(
    name: string,
    required: bool,
    editor: int,
    editable: bool,
    nameEditable: bool,
    hidden: bool,
    typ: FieldType)

  /** The properties `FieldObject(name, typ=t)` gets. */
  function DefaultProps(name: string, t: FieldType): Props {
    Props(name, false, LineEditEditor, true, true, false, t)
  }

  class FieldObject {
    var name: string
    var required: bool
    var editor: int
    var editable: bool
    var nameEditable: bool
    var hidden: bool
    var typ: FieldType

    function PropsOf(): Props
      reads this
    {
      Props(name, required, editor, editable, nameEditable, hidden, typ)
    }

    constructor (p: Props)
      ensures PropsOf() == p
    {
      name, required, editor, editable := p.name, p.required, p.editor, p.editable;
      nameEditable, hidden, typ := p.nameEditable, p.hidden, p.typ;
    }

    method SetEditable(value: bool)
      modifies this`editable
      ensures editable == value
    {
      editable := value;
    }

    method SetEditor(value: int)
      modifies this`editor
      ensures editor == value
    {
      editor := value;
    }

    /** The `hidden` setter stores the truth value of whatever it is given. */
    method SetHidden(value: Value)
      modifies this`hidden
      ensures hidden == Truthy(value)
    {
      hidden := Truthy(value);
    }

    /** The `name` setter: ValueError, and the name kept, when the name is not editable. */
    method SetName(value: string) returns (r: Result<()>)
      modifies this`name
      ensures r.Ok? <==> nameEditable
      ensures r.Err? ==> r.error == ValueError
      ensures name == if nameEditable then value else old(name)
    {
      if nameEditable {
        name := value;
        r := Ok(());
      } else {
        r := Err(ValueError);
      }
    }
  }

  /** A value given to the container: a FieldObject, or anything else by its `str()`. */
  datatype FieldArg = Obj(f: FieldObject) | Text(s: string)

  /** A lookup key: a field (resolved by its name), a name, or a position. */
  datatype Key = ByField(f: FieldObject) | ByName(name: string) | ByPos(i: int)

  function NamesOf(fs: seq<FieldObject>): (r: seq<string>)
    reads fs
    ensures |r| == |fs|
    ensures forall k | 0 <= k < |fs| :: r[k] == fs[k].name
  {
    seq(|fs|, k requires 0 <= k < |fs| reads fs => fs[k].name)
  }

  /** The first field with the given name, or null (Python's None) when there is none. */
  function FirstNamed(fs: seq<FieldObject>, key: string): (r: FieldObject?)
    reads fs
    ensures r == null <==> key !in NamesOf(fs)
    ensures r != null ==> exists k | 0 <= k < |fs| :: fs[k] == r && r.name == key && key !in NamesOf(fs[..k])
  {
    match Lists.IndexOf(NamesOf(fs), key)
    case None => null
    case Some(k) =>
      assert NamesOf(fs[..k]) == NamesOf(fs)[..k];
      fs[k]
  }

  predicate AllText(args: seq<FieldArg>) {
    forall k | 0 <= k < |args| :: args[k].Text?
  }

  predicate AllObj(args: seq<FieldArg>) {
    forall k | 0 <= k < |args| :: args[k].Obj?
  }

  function Objs(args: seq<FieldArg>): (r: seq<FieldObject>)
    requires AllObj(args)
    ensures |r| == |args| && forall k | 0 <= k < |r| :: r[k] == args[k].f
  {
    seq(|args|, k requires 0 <= k < |args| => args[k].f)
  }

  /**
   * The properties the all-strings constructor builds: `types or
   * [str]*len(names)` zipped with the names, so the shorter list decides
   * the length.
   */
  function ZipTypes(args: seq<FieldArg>, types: Option<seq<FieldType>>): (r: seq<Props>)
    requires AllText(args)
    ensures var ts := if types.Some? && |types.value| > 0 then types.value else seq(|args|, _ => StrType);
      |r| == (if |args| < |ts| then |args| else |ts|)
      && forall k | 0 <= k < |r| :: r[k] == DefaultProps(args[k].s, ts[k])
  {
    var ts := if types.Some? && |types.value| > 0 then types.value else seq(|args|, _ => StrType);
    var m := if |args| < |ts| then |args| else |ts|;
    seq(m, k requires 0 <= k < m => DefaultProps(args[k].s, ts[k]))
  }

  class FieldObjectContainer {
    var fieldobjs: seq<FieldObject>

    constructor (fs: seq<FieldObject>)
      ensures fieldobjs == fs
    {
      fieldobjs := fs;
    }

    /**
     * `FieldObjectContainer(fieldobjs, types)`: no list gives an empty
     * container; all strings give fresh fields of the zipped types (`str`
     * by default) with every other property at its default; all
     * FieldObjects are kept as given; a mixture raises TypeError.
     */
    static method Create(fieldobjs: Option<seq<FieldArg>>, types: Option<seq<FieldType>>)
      returns (r: Result<FieldObjectContainer>)
      ensures r.Err? <==> fieldobjs.Some? && !AllText(fieldobjs.value) && !AllObj(fieldobjs.value)
      ensures r.Err? ==> r.error == TypeError
      ensures r.Ok? ==> fresh(r.value)
      ensures r.Ok? && fieldobjs.None? ==> r.value.fieldobjs == []
      ensures r.Ok? && fieldobjs.Some? && AllText(fieldobjs.value) ==>
        var ps := ZipTypes(fieldobjs.value, types);
        |r.value.fieldobjs| == |ps|
        && forall k | 0 <= k < |ps| :: fresh(r.value.fieldobjs[k]) && r.value.fieldobjs[k].PropsOf() == ps[k]
      ensures r.Ok? && fieldobjs.Some? && !AllText(fieldobjs.value) ==> r.value.fieldobjs == Objs(fieldobjs.value)
    {
      if fieldobjs.None? {
        var c := new FieldObjectContainer([]);
        return Ok(c);
      }
      var args := fieldobjs.value;
      if AllText(args) {
        var ps := ZipTypes(args, types);
        var fs: seq<FieldObject> := [];
        var i := 0;
        while i < |ps|
          invariant 0 <= i <= |ps| && |fs| == i
          invariant forall k | 0 <= k < i :: fresh(fs[k]) && fs[k].PropsOf() == ps[k]
        {
          var f := new FieldObject(ps[i]);
          fs := fs + [f];
          i := i + 1;
        }
        var c := new FieldObjectContainer(fs);
        return Ok(c);
      } else if AllObj(args) {
        var c := new FieldObjectContainer(Objs(args));
        return Ok(c);
      } else {
        return Err(TypeError);
      }
    }

    /** `names`: the names of the fields, in order. */
    function Names(): (r: seq<string>)
      reads this, fieldobjs
      ensures |r| == |fieldobjs| && forall k | 0 <= k < |r| :: r[k] == fieldobjs[k].name
    {
      NamesOf(fieldobjs)
    }

    /**
     * `container[key]`: a field is looked up by its name, a name gives the
     * first field so named (None if there is none), a position follows
     * Python's indexing and raises IndexError outside the list.
     */
    function Get(key: Key): (r: Result<FieldObject?>)
      reads this, fieldobjs, if key.ByField? then {key.f} else {}
      ensures key.ByPos? ==> (r.Ok? <==> Lists.NormIndex(key.i, |fieldobjs|).Some?)
      ensures key.ByPos? && r.Ok? ==> r.value == fieldobjs[Lists.NormIndex(key.i, |fieldobjs|).value]
      ensures !key.ByPos? ==> r.Ok? && r.value == FirstNamed(fieldobjs, if key.ByName? then key.name else key.f.name)
      ensures r.Err? ==> r.error == IndexError
    {
      match key
      case ByField(f) => Ok(FirstNamed(fieldobjs, f.name))
      case ByName(n) => Ok(FirstNamed(fieldobjs, n))
      case ByPos(i) =>
        match Lists.NormIndex(i, |fieldobjs|)
        case None => Err(IndexError)
        case Some(k) => Ok(fieldobjs[k])
    }

    /** `container.index(value)`: the first position of a name, or of the very object; ValueError when absent. */
    function Index(value: FieldArg): (r: Result<nat>)
      reads this, fieldobjs
      ensures value.Text? ==> (r.Ok? <==> value.s in Names())
      ensures value.Obj? ==> (r.Ok? <==> value.f in fieldobjs)
      ensures r.Ok? ==> r.value < |fieldobjs|
      ensures r.Ok? && value.Text? ==> fieldobjs[r.value].name == value.s && value.s !in Names()[..r.value]
      ensures r.Ok? && value.Obj? ==> fieldobjs[r.value] == value.f && value.f !in fieldobjs[..r.value]
      ensures r.Err? ==> r.error == ValueError
    {
      match value
      case Text(s) => (match Lists.IndexOf(Names(), s) case None => Err(ValueError) case Some(k) => Ok(k))
      case Obj(f) => (match Lists.IndexOf(fieldobjs, f) case None => Err(ValueError) case Some(k) => Ok(k))
    }

    /** `container[key] = value`: a non-field value becomes a fresh `FieldObject(str(value))`; the other positions keep their fields. */
    method SetItem(key: int, value: FieldArg) returns (r: Result<()>)
      modifies this
      ensures r.Ok? <==> Lists.NormIndex(key, |old(fieldobjs)|).Some?
      ensures r.Err? ==> r.error == IndexError && fieldobjs == old(fieldobjs)
      ensures r.Ok? ==>
        var k := Lists.NormIndex(key, |old(fieldobjs)|).value;
        |fieldobjs| == |old(fieldobjs)|
        && fieldobjs[..k] == old(fieldobjs)[..k] && fieldobjs[k + 1..] == old(fieldobjs)[k + 1..]
        && (value.Obj? ==> fieldobjs == old(fieldobjs)[k := value.f])
        && (value.Text? ==> fresh(fieldobjs[k]) && fieldobjs[k].PropsOf() == DefaultProps(value.s, StrType))
    {
      match Lists.NormIndex(key, |fieldobjs|)
      case None =>
        r := Err(IndexError);
      case Some(k) =>
        var f := NewField(value);
        fieldobjs := fieldobjs[k := f];
        r := Ok(());
    }

    /** `del container[key]`: later fields shift down by one. */
    method DelItem(key: int) returns (r: Result<()>)
      modifies this
      ensures r.Ok? <==> Lists.NormIndex(key, |old(fieldobjs)|).Some?
      ensures r.Err? ==> r.error == IndexError && fieldobjs == old(fieldobjs)
      ensures r.Ok? ==> fieldobjs == Lists.RemoveAt(old(fieldobjs), Lists.NormIndex(key, |old(fieldobjs)|).value)
    {
      match Lists.NormIndex(key, |fieldobjs|)
      case None =>
        r := Err(IndexError);
      case Some(k) =>
        fieldobjs := Lists.RemoveAt(fieldobjs, k);
        r := Ok(());
    }

    /** `container.insert(index, value)`, with Python's clamping of the position. */
    method Insert(index: int, value: FieldArg)
      modifies this
      ensures |fieldobjs| == |old(fieldobjs)| + 1
      ensures var p := Lists.InsertPos(index, |old(fieldobjs)|);
        fieldobjs[..p] == old(fieldobjs)[..p] && fieldobjs[p + 1..] == old(fieldobjs)[p..]
        && (value.Obj? ==> fieldobjs[p] == value.f)
        && (value.Text? ==> fresh(fieldobjs[p]) && fieldobjs[p].PropsOf() == DefaultProps(value.s, StrType))
    {
      var f := NewField(value);
      fieldobjs := Lists.Insert(fieldobjs, index, f);
    }
  }

  method NewField(value: FieldArg) returns (f: FieldObject)
    ensures value.Obj? ==> f == value.f
    ensures value.Text? ==> fresh(f) && f.PropsOf() == DefaultProps(value.s, StrType)
  {
    if value.Obj? {
      f := value.f;
    } else {
      f := new FieldObject(DefaultProps(value.s, StrType));
    }
  }

  // ------------------------------------------------------------ unit tests

  /** test_getter: by position, by name and by field all find the first field. */
  lemma GetterTest(c: FieldObjectContainer, field1: FieldObject, field2: FieldObject)
    requires c.fieldobjs == [field1, field2]
    requires field1.name == "field1" && field2.name == "field2"
    ensures c.Get(ByPos(0)) == Ok(field1 as FieldObject?)
    ensures c.Get(ByName("field1")) == Ok(field1 as FieldObject?)
    ensures c.Get(ByField(field1)) == Ok(field1 as FieldObject?)
  {
  }

  /** test_index: `index` finds a field by object and by name. */
  lemma IndexTest(c: FieldObjectContainer, field1: FieldObject, field2: FieldObject)
    requires c.fieldobjs == [field1, field2] && field1 != field2
    requires field1.name == "field1" && field2.name == "field2"
    ensures c.Index(Obj(field2)) == Ok(1)
    ensures c.Index(Text("field1")) == Ok(0)
  {
    assert c.Names() == ["field1", "field2"];
  }

  /** A name that no field carries is not found: `container['x']` is None. */
  lemma MissingNameIsNone(c: FieldObjectContainer, key: string)
    requires key !in c.Names()
    ensures c.Get(ByName(key)) == Ok(null)
  {
  }

  /** test_container_construction: a list mixing a name and a field is refused. */
  lemma MixedIsRefused(f: FieldObject)
    ensures !AllText([Text("str"), Obj(f)]) && !AllObj([Text("str"), Obj(f)])
  {
    assert [Text("str"), Obj(f)][1].Obj?;
    assert [Text("str"), Obj(f)][0].Text?;
  }

  /** Names with no types give `str` fields with every default, one per name. */
  lemma ZipTypesDefaults(args: seq<FieldArg>)
    requires AllText(args)
    ensures |ZipTypes(args, None)| == |args|
    ensures forall k | 0 <= k < |args| :: ZipTypes(args, None)[k] == Props(args[k].s, false, LineEditEditor, true, true, false, StrType)
  {
  }

  /** A shorter list of types cuts the fields short, as `zip` does. */
  lemma ZipTypesTruncates(args: seq<FieldArg>, types: seq<FieldType>)
    requires AllText(args) && 0 < |types| < |args|
    ensures |ZipTypes(args, Some(types))| == |types|
  {
  }
}
