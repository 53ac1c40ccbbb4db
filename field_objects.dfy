// Field descriptors (column headings) of an album and the list-like
// container that holds them (src/datastore/objects/fieldobjects.py).
//
// A FieldObject is compared by identity and its setters change it in place,
// so it is a class; the container keeps its fields in a sequence that its
// methods reassign.

module FieldObjects {
  import opened Outcomes
  import opened Values
  import Lists

  /** The properties of one field, in the constructor's argument order. */
  datatype Props = Props(
    name: string,
    required: bool,
    editor: Option<int>,
    editable: bool,
    nameEditable: bool,
    hidden: bool,
    filter: bool,
    tags: bool)

  /** The properties `FieldObject(name)` gets. */
  function DefaultProps(name: string): Props {
    Props(name, false, Some(LineEditEditor), true, true, false, false, false)
  }

  class FieldObject {
    var name: string
    var required: bool
    var editor: Option<int>
    var editable: bool
    var nameEditable: bool
    var hidden: bool
    var filter: bool
    var tags: bool

    function PropsOf(): Props
      reads this
    {
      Props(name, required, editor, editable, nameEditable, hidden, filter, tags)
    }

    constructor (p: Props)
      ensures PropsOf() == p
    {
      name, required, editor, editable := p.name, p.required, p.editor, p.editable;
      nameEditable, hidden, filter, tags := p.nameEditable, p.hidden, p.filter, p.tags;
    }

    /** `FieldObject(name)`: a line-edit field that is optional, editable, renamable, shown, unfiltered and not a tag field. */
    constructor Named(name: string)
      ensures PropsOf() == DefaultProps(name)
    {
      this.name, required, editor, editable := name, false, Some(LineEditEditor), true;
      nameEditable, hidden, filter, tags := true, false, false, false;
    }

    method SetEditable(value: bool)
      modifies this`editable
      ensures editable == value
    {
      editable := value;
    }

    method SetEditor(value: Option<int>)
      modifies this`editor
      ensures editor == value
    {
      editor := value;
    }

    /** The `hidden` setter stores the truth value of whatever it is given. */
    method SetHidden(value: Value)
      modifies this`hidden
      ensures hidden == Truthy(value)
    {
      hidden := Truthy(value);
    }

    /** The `name` setter: ValueError, and the name kept, when the name is not editable. */
    method SetName(value: string) returns (r: Result<()>)
      modifies this`name
      ensures r.Ok? <==> nameEditable
      ensures r.Err? ==> r.error == ValueError
      ensures name == if nameEditable then value else old(name)
    {
      if nameEditable {
        name := value;
        r := Ok(());
      } else {
        r := Err(ValueError);
      }
    }
  }

  /** A value given to the container: a FieldObject, or anything else by its `str()`. */
  datatype FieldArg = Obj(f: FieldObject) | Text(s: string)

  /** A lookup key: a field (resolved by its name), a name, or a position. */
  datatype Key = ByField(f: FieldObject) | ByName(name: string) | ByPos(i: int)

  function NamesOf(fs: seq<FieldObject>): (r: seq<string>)
    reads fs
    ensures |r| == |fs|
    ensures forall k | 0 <= k < |fs| :: r[k] == fs[k].name
  {
    seq(|fs|, k requires 0 <= k < |fs| reads fs => fs[k].name)
  }

  /** The properties of each field, in order. */
  function PropsAll(fs: seq<FieldObject>): (r: seq<Props>)
    reads fs
    ensures |r| == |fs|
    ensures forall k | 0 <= k < |fs| :: r[k] == fs[k].PropsOf()
  {
    seq(|fs|, k requires 0 <= k < |fs| reads fs => fs[k].PropsOf())
  }

  lemma NamesOfSlice(fs: seq<FieldObject>, i: nat, j: nat)
    requires i <= j <= |fs|
    ensures NamesOf(fs[i..j]) == NamesOf(fs)[i..j]
  {
  }

  lemma NamesOfUpdate(fs: seq<FieldObject>, k: nat, f: FieldObject)
    requires k < |fs| && fs[k].name == f.name
    ensures NamesOf(fs[k := f]) == NamesOf(fs)
  {
  }

  lemma NamesOfAppend(a: seq<FieldObject>, b: seq<FieldObject>)
    ensures NamesOf(a + b) == NamesOf(a) + NamesOf(b)
  {
    assert forall k | 0 <= k < |a + b| :: (a + b)[k] == if k < |a| then a[k] else b[k - |a|];
  }

  /** The first field with the given name, or null when there is none. */
  function FirstNamed(fs: seq<FieldObject>, key: string): (r: FieldObject?)
    reads fs
    ensures r == null <==> key !in NamesOf(fs)
    ensures r != null ==> exists k | 0 <= k < |fs| :: fs[k] == r && r.name == key && key !in NamesOf(fs[..k])
  {
    match Lists.IndexOf(NamesOf(fs), key)
    case None => null
    case Some(k) =>
      assert NamesOf(fs[..k]) == NamesOf(fs)[..k];
      fs[k]
  }

  /** `makeBool(lst) or default`: the truth values of a given non-empty list, else `n` copies of the default. */
  function BoolsOr(lst: Option<seq<Value>>, n: nat, default: bool): (r: seq<bool>)
    ensures lst.Some? && |lst.value| > 0 ==> |r| == |lst.value| && forall k | 0 <= k < |r| :: r[k] == Truthy(lst.value[k])
    ensures !(lst.Some? && |lst.value| > 0) ==> r == seq(n, _ => default)
  {
    if lst.Some? && |lst.value| > 0 then seq(|lst.value|, k requires 0 <= k < |lst.value| => Truthy(lst.value[k]))
    else seq(n, _ => default)
  }

  function Min(a: nat, b: nat): nat {
    if a < b then a else b
  }

  /**
   * The properties the all-strings constructor zips together: omitted (or
   * empty) lists default to editor None, required False, editable True,
   * name_editable True, hidden False, filter False and tags False, and `zip`
   * stops at the shortest list.
   */
  function ZipProps(
    names: seq<string>, required: Option<seq<Value>>, editor: Option<seq<Option<int>>>,
    editable: Option<seq<Value>>, nameEditable: Option<seq<Value>>, hidden: Option<seq<Value>>,
    filt: Option<seq<Value>>, tags: Option<seq<Value>>): (r: seq<Props>)
    ensures |r| <= |names|
  {
    var n := |names|;
    var ed := if editor.Some? && |editor.value| > 0 then editor.value else seq(n, _ => None);
    var rq := BoolsOr(required, n, false);
    var eb := BoolsOr(editable, n, true);
    var ne := BoolsOr(nameEditable, n, true);
    var hd := BoolsOr(hidden, n, false);
    var fl := BoolsOr(filt, n, false);
    var tg := BoolsOr(tags, n, false);
    var m := Min(Min(Min(n, |ed|), Min(|rq|, |eb|)), Min(Min(|ne|, |hd|), Min(|fl|, |tg|)));
    seq(m, k requires 0 <= k < m => Props(names[k], rq[k], ed[k], eb[k], ne[k], hd[k], fl[k], tg[k]))
  }

  /** With only names given, every field gets the documented defaults. */
  lemma ZipPropsDefaults(names: seq<string>)
    ensures ZipProps(names, None, None, None, None, None, None, None)
         == seq(|names|, k requires 0 <= k < |names| => Props(names[k], false, None, true, true, false, false, false))
  {
  }

  predicate AllText(args: seq<FieldArg>) {
    forall k | 0 <= k < |args| :: args[k].Text?
  }

  predicate AllObj(args: seq<FieldArg>) {
    forall k | 0 <= k < |args| :: args[k].Obj?
  }

  function Objs(args: seq<FieldArg>): (r: seq<FieldObject>)
    requires AllObj(args)
    ensures |r| == |args| && forall k | 0 <= k < |r| :: r[k] == args[k].f
  {
    seq(|args|, k requires 0 <= k < |args| => args[k].f)
  }

  function Texts(args: seq<FieldArg>): (r: seq<string>)
    requires AllText(args)
    ensures |r| == |args| && forall k | 0 <= k < |r| :: r[k] == args[k].s
  {
    seq(|args|, k requires 0 <= k < |args| => args[k].s)
  }

  class FieldObjectContainer {
    var fieldobjs: seq<FieldObject>

    /** A container over the given fields (the all-FieldObjects case, and `[]` for no argument). */
    constructor (fs: seq<FieldObject>)
      ensures fieldobjs == fs
    {
      fieldobjs := fs;
    }

    /**
     * `FieldObjectContainer(name, required, ...)`: all strings give fresh
     * fields with the zipped properties, all FieldObjects are kept as given,
     * a mixture raises TypeError.
     */
    static method Create(
      name: Option<seq<FieldArg>>, required: Option<seq<Value>>, editor: Option<seq<Option<int>>>,
      editable: Option<seq<Value>>, nameEditable: Option<seq<Value>>, hidden: Option<seq<Value>>,
      filt: Option<seq<Value>>, tags: Option<seq<Value>>)
      returns (r: Result<FieldObjectContainer>)
      ensures r.Err? <==> name.Some? && !AllText(name.value) && !AllObj(name.value)
      ensures r.Err? ==> r.error == TypeError
      ensures r.Ok? ==> fresh(r.value)
      ensures r.Ok? && name.None? ==> r.value.fieldobjs == []
      ensures r.Ok? && name.Some? && AllText(name.value) ==>
        var ps := ZipProps(Texts(name.value), required, editor, editable, nameEditable, hidden, filt, tags);
        |r.value.fieldobjs| == |ps|
        && forall k | 0 <= k < |ps| :: fresh(r.value.fieldobjs[k]) && r.value.fieldobjs[k].PropsOf() == ps[k]
      ensures r.Ok? && name.Some? && !AllText(name.value) ==> r.value.fieldobjs == Objs(name.value)
    {
      if name.None? {
        var c := new FieldObjectContainer([]);
        return Ok(c);
      }
      var args := name.value;
      if AllText(args) {
        var ps := ZipProps(Texts(args), required, editor, editable, nameEditable, hidden, filt, tags);
        var fs: seq<FieldObject> := [];
        var i := 0;
        while i < |ps|
          invariant 0 <= i <= |ps| && |fs| == i
          invariant forall k | 0 <= k < i :: fresh(fs[k]) && fs[k].PropsOf() == ps[k]
        {
          var f := new FieldObject(ps[i]);
          fs := fs + [f];
          i := i + 1;
        }
        var c := new FieldObjectContainer(fs);
        return Ok(c);
      } else if AllObj(args) {
        var c := new FieldObjectContainer(Objs(args));
        return Ok(c);
      } else {
        return Err(TypeError);
      }
    }

    function Names(): (r: seq<string>)
      reads this, fieldobjs
      ensures |r| == |fieldobjs| && forall k | 0 <= k < |r| :: r[k] == fieldobjs[k].name
    {
      NamesOf(fieldobjs)
    }

    /**
     * `container[key]`: a field is looked up by its name, a name gives the
     * first field so named (None if there is none), a position follows
     * Python's indexing and raises IndexError outside the list.
     */
    function Get(key: Key): (r: Result<FieldObject?>)
      reads this, fieldobjs, if key.ByField? then {key.f} else {}
      ensures key.ByPos? ==> (r.Ok? <==> Lists.NormIndex(key.i, |fieldobjs|).Some?)
      ensures key.ByPos? && r.Ok? ==> r.value == fieldobjs[Lists.NormIndex(key.i, |fieldobjs|).value]
      ensures !key.ByPos? ==> r.Ok? && r.value == FirstNamed(fieldobjs, if key.ByName? then key.name else key.f.name)
      ensures r.Err? ==> r.error == IndexError
    {
      match key
      case ByField(f) => Ok(FirstNamed(fieldobjs, f.name))
      case ByName(n) => Ok(FirstNamed(fieldobjs, n))
      case ByPos(i) =>
        match Lists.NormIndex(i, |fieldobjs|)
        case None => Err(IndexError)
        case Some(k) => Ok(fieldobjs[k])
    }

    /** `container.index(value)`: the first position of a name or of the very object; ValueError when absent. */
    function Index(value: FieldArg): (r: Result<nat>)
      reads this, fieldobjs
      ensures value.Text? ==> (r.Ok? <==> value.s in Names())
      ensures value.Obj? ==> (r.Ok? <==> value.f in fieldobjs)
      ensures r.Ok? ==> r.value < |fieldobjs|
      ensures r.Ok? && value.Text? ==> fieldobjs[r.value].name == value.s && value.s !in Names()[..r.value]
      ensures r.Ok? && value.Obj? ==> fieldobjs[r.value] == value.f && value.f !in fieldobjs[..r.value]
      ensures r.Err? ==> r.error == ValueError
    {
      match value
      case Text(s) => (match Lists.IndexOf(Names(), s) case None => Err(ValueError) case Some(k) => Ok(k))
      case Obj(f) => (match Lists.IndexOf(fieldobjs, f) case None => Err(ValueError) case Some(k) => Ok(k))
    }

    /** `container[key] = value`: a non-field value becomes a fresh `FieldObject(str(value))`. */
    method SetItem(key: int, value: FieldArg) returns (r: Result<()>)
      modifies this
      ensures r.Ok? <==> Lists.NormIndex(key, |old(fieldobjs)|).Some?
      ensures r.Err? ==> r.error == IndexError && fieldobjs == old(fieldobjs)
      ensures r.Ok? ==>
        var k := Lists.NormIndex(key, |old(fieldobjs)|).value;
        |fieldobjs| == |old(fieldobjs)|
        && fieldobjs[..k] == old(fieldobjs)[..k] && fieldobjs[k + 1..] == old(fieldobjs)[k + 1..]
        && (value.Obj? ==> fieldobjs == old(fieldobjs)[k := value.f])
        && (value.Text? ==> fresh(fieldobjs[k]) && fieldobjs[k].PropsOf() == DefaultProps(value.s))
    {
      match Lists.NormIndex(key, |fieldobjs|)
      case None =>
        r := Err(IndexError);
      case Some(k) =>
        var f := NewField(value);
        fieldobjs := fieldobjs[k := f];
        r := Ok(());
    }

    /** `del container[key]`: later fields shift down by one. */
    method DelItem(key: int) returns (r: Result<()>)
      modifies this
      ensures r.Ok? <==> Lists.NormIndex(key, |old(fieldobjs)|).Some?
      ensures r.Err? ==> r.error == IndexError && fieldobjs == old(fieldobjs)
      ensures r.Ok? ==> fieldobjs == Lists.RemoveAt(old(fieldobjs), Lists.NormIndex(key, |old(fieldobjs)|).value)
    {
      match Lists.NormIndex(key, |fieldobjs|)
      case None =>
        r := Err(IndexError);
      case Some(k) =>
        fieldobjs := Lists.RemoveAt(fieldobjs, k);
        r := Ok(());
    }

    /** `container.insert(index, value)`, with Python's clamping of the position. */
    method Insert(index: int, value: FieldArg)
      modifies this
      ensures |fieldobjs| == |old(fieldobjs)| + 1
      ensures var p := Lists.InsertPos(index, |old(fieldobjs)|);
        fieldobjs[..p] == old(fieldobjs)[..p] && fieldobjs[p + 1..] == old(fieldobjs)[p..]
        && (value.Obj? ==> fieldobjs[p] == value.f)
        && (value.Text? ==> fresh(fieldobjs[p]) && fieldobjs[p].PropsOf() == DefaultProps(value.s))
    {
      var f := NewField(value);
      fieldobjs := Lists.Insert(fieldobjs, index, f);
    }

    method Append(value: FieldArg)
      modifies this
      ensures |fieldobjs| == |old(fieldobjs)| + 1 && fieldobjs[..|old(fieldobjs)|] == old(fieldobjs)
      ensures value.Obj? ==> fieldobjs[|old(fieldobjs)|] == value.f
      ensures value.Text? ==> fresh(fieldobjs[|old(fieldobjs)|]) && fieldobjs[|old(fieldobjs)|].PropsOf() == DefaultProps(value.s)
    {
      var f := NewField(value);
      fieldobjs := fieldobjs + [f];
    }

    method Extend(values: seq<FieldObject>)
      modifies this
      ensures fieldobjs == old(fieldobjs) + values
    {
      fieldobjs := fieldobjs + values;
    }

    /** `container.remove(value)`: a name is first resolved to its field; ValueError when nothing matches. */
    method Remove(value: FieldArg) returns (r: Result<()>)
      modifies this
      ensures r.Ok? <==> if value.Obj? then value.f in old(fieldobjs) else value.s in NamesOf(old(fieldobjs))
      ensures r.Err? ==> r.error == ValueError && fieldobjs == old(fieldobjs)
      ensures r.Ok? ==> fieldobjs == Lists.RemoveAt(old(fieldobjs), Lists.IndexOf(old(fieldobjs), Target(old(fieldobjs), value)).value)
    {
      var fs := fieldobjs;
      var target := Target(fs, value);
      if target == null || target !in fs {
        r := Err(ValueError);
      } else {
        var k := Lists.IndexOf(fs, target).value;
        fieldobjs := Lists.RemoveAt(fs, k);
        r := Ok(());
      }
      assert NamesOf(fs) == old(NamesOf(fieldobjs));
    }
  }

  /** The field `remove` deletes: the object itself, or the first field with the given name. */
  function Target(fs: seq<FieldObject>, value: FieldArg): (t: FieldObject?)
    reads fs
    ensures t != null <==> if value.Obj? then true else value.s in NamesOf(fs)
    ensures value.Text? && t != null ==> t in fs
  {
    if value.Obj? then value.f else FirstNamed(fs, value.s)
  }

  method NewField(value: FieldArg) returns (f: FieldObject)
    ensures value.Obj? ==> f == value.f
    ensures value.Text? ==> fresh(f) && f.PropsOf() == DefaultProps(value.s)
  {
    if value.Obj? {
      f := value.f;
    } else {
      f := new FieldObject.Named(value.s);
    }
  }

  // ------------------------------------------------------------ unit tests

  /** test_getter: by position, by name and by field all find the first field. */
  lemma GetterTest(c: FieldObjectContainer, field1: FieldObject, field2: FieldObject)
    requires c.fieldobjs == [field1, field2]
    requires field1.name == "field1" && field2.name == "field2"
    ensures c.Get(ByPos(0)) == Ok(field1 as FieldObject?)
    ensures c.Get(ByName("field1")) == Ok(field1 as FieldObject?)
    ensures c.Get(ByField(field1)) == Ok(field1 as FieldObject?)
  {
  }

  /** test_index: `index` finds a field by object and by name. */
  lemma IndexTest(c: FieldObjectContainer, field1: FieldObject, field2: FieldObject)
    requires c.fieldobjs == [field1, field2] && field1 != field2
    requires field1.name == "field1" && field2.name == "field2"
    ensures c.Index(Obj(field2)) == Ok(1)
    ensures c.Index(Text("field1")) == Ok(0)
  {
    assert c.Names() == ["field1", "field2"];
  }

  /** A name that no field carries is not found: `container['x']` is None. */
  lemma MissingNameIsNone(c: FieldObjectContainer, key: string)
    requires key !in c.Names()
    ensures c.Get(ByName(key)) == Ok(null)
  {
  }

  /** test_container_construction: a list mixing a name and a field is refused. */
  lemma MixedIsRefused(f: FieldObject)
    ensures !AllText([Text("str"), Obj(f)]) && !AllObj([Text("str"), Obj(f)])
  {
    assert [Text("str"), Obj(f)][1].Obj?;
    assert [Text("str"), Obj(f)][0].Text?;
  }
}
