// What `PhotoDatabase.updateAlbum` (src/datastore/database/database.py)
// does to the tables, as a specification. The method first reads the album
// and collects a plan (Tagged flags to write, tags to insert, file-to-tag
// mappings to add, mappings to prune); errors met while collecting leave the
// tables alone. It then writes the flags, inserts the tags, resolves each
// mapping to a TagId (KeyError when one is missing, after the earlier
// writes), inserts the mappings and prunes the stale ones.

module TagSync {
  import opened Outcomes
  import opened Values
  import opened PhotoObjects
  import opened Tables
  import Text
  import TagLists
  import Lists

  /** The field objects that key a list of photos; reading a cell by name reads their names. */
  ghost function KeyObjs(es: seq<Photo>): set<object> {
    set p, f | p in es && f in p.values :: f as object
  }

  /** `[k.fileId for k in album]`: each photo's FileId cell, read by name, failing as `field_by_name` does. */
  function FileIds(es: seq<Photo>): (r: Result<seq<Value>>)
    reads KeyObjs(es)
    ensures r.Ok? <==> forall k | 0 <= k < |es| :: Get(es[k], AtName(FileIdField)).Ok?
    ensures r.Ok? ==> |r.value| == |es| && forall k | 0 <= k < |es| :: r.value[k] == Get(es[k], AtName(FileIdField)).value
    ensures r.Err? ==> r.error in {ValueError, AttributeError}
  {
    if |es| == 0 then Ok([])
    else
      var init := es[..|es| - 1];
      assert forall k | 0 <= k < |init| :: init[k] == es[k];
      match FileIds(init)
      case Err(e) => Err(e)
      case Ok(ids) =>
        match Get(es[|es| - 1], AtName(FileIdField))
        case Err(e) => Err(e)
        case Ok(v) => Ok(ids + [v])
  }

  // ------------------------------------------------------------------ plan

  /** A prune of `updateAlbum`: the mappings of `fileId` in field `catId` whose lower-cased tag is not in `keep`. */
  datatype DelMap = DelMap(fileId: int, catId: int, keep: seq<string>)

  /**
   * What the collecting loops gather: the Tagged flags (`ids`, `vals`), the
   * (FieldId, tag) pairs to insert, the mappings as (FilId, (FieldId,
   * lower-cased tag)), and the prunes.
   */
  datatype Plan = Plan(
    ids: seq<int>,
    vals: seq<int>,
    inserts: seq<(int, string)>,
    maps: seq<(int, (int, string))>,
    dels: seq<DelMap>)

  const NoPlan := Plan([], [], [], [], [])

  /** What the loops read: the photos, their FileIds, the Fields rows and the Tags rows as they were before any write. */
  datatype Ctx = Ctx(es: seq<Photo>, allFiles: seq<Value>, rows: seq<FieldRow>, before: map<int, TagRow>)

  /** The (file, field) pairs the two loops visit, file by file. */
  function Cells(fileIds: seq<int>, fieldnames: seq<string>): seq<(int, string)> {
    if |fileIds| == 0 then []
    else Cells(fileIds[..|fileIds| - 1], fieldnames) + RowCells(fileIds[|fileIds| - 1], fieldnames)
  }

  function RowCells(fileId: int, fieldnames: seq<string>): (r: seq<(int, string)>)
    ensures |r| == |fieldnames| && forall k | 0 <= k < |r| :: r[k] == (fileId, fieldnames[k])
  {
    seq(|fieldnames|, k requires 0 <= k < |fieldnames| => (fileId, fieldnames[k]))
  }

  /**
   * The loop over one photo's tags in field `catId`: every tag is queued for
   * mapping under its lower-cased text, and a tag whose lower-cased text the
   * field lacks is queued for insertion unless the same (FieldId, tag) pair
   * is already queued. Blank tags are skipped.
   */
  function QueueTags(p: Plan, fileId: int, catId: int, existing: set<string>, tags: seq<string>): (r: Plan)
    ensures r.ids == p.ids && r.vals == p.vals && r.dels == p.dels
  {
    p.(inserts := QueueInserts(p.inserts, catId, existing, tags), maps := p.maps + TagMaps(fileId, catId, tags))
  }

  /** The mappings queued for one photo's tags in field `catId`. */
  function TagMaps(fileId: int, catId: int, tags: seq<string>): (r: seq<(int, (int, string))>)
    ensures forall m | m in r :: m.0 == fileId && m.1.0 == catId && m.1.1 in TagLists.LowerAll(tags)
  {
    if |tags| == 0 then []
    else
      var init := tags[..|tags| - 1];
      var t := tags[|tags| - 1];
      assert forall x | x in TagLists.LowerAll(init) :: x in TagLists.LowerAll(tags) by {
        forall x | x in TagLists.LowerAll(init) ensures x in TagLists.LowerAll(tags) {
          var k :| 0 <= k < |init| && TagLists.LowerAll(init)[k] == x;
          assert TagLists.LowerAll(tags)[k] == x;
        }
      }
      assert TagLists.LowerAll(tags)[|tags| - 1] == Text.Lower(t);
      TagMaps(fileId, catId, init) + if Text.Strip(t) == "" then [] else [(fileId, (catId, Text.Lower(t)))]
  }

  /** The insertions queued for one photo's tags in field `catId`, after those already queued. */
  function QueueInserts(ins: seq<(int, string)>, catId: int, existing: set<string>, tags: seq<string>): (r: seq<(int, string)>)
    ensures |ins| <= |r| && r[..|ins|] == ins
    ensures forall k | |ins| <= k < |r| :: r[k].0 == catId && r[k].1 in tags && Text.Lower(r[k].1) !in existing
  {
    if |tags| == 0 then ins
    else
      var init := tags[..|tags| - 1];
      var t := tags[|tags| - 1];
      var q := QueueInserts(ins, catId, existing, init);
      assert forall x | x in init :: x in tags;
      if Text.Strip(t) != "" && Text.Lower(t) !in existing && (catId, t) !in q then
        QueuedAppend(ins, q, (catId, t));
        q + [(catId, t)]
      else q
  }

  lemma QueuedAppend(ins: seq<(int, string)>, q: seq<(int, string)>, x: (int, string))
    requires |ins| <= |q| && q[..|ins|] == ins
    ensures (q + [x])[..|ins|] == ins
    ensures forall k | |ins| <= k < |q| + 1 :: (q + [x])[k] == if k < |q| then q[k] else x
  {
    assert (q + [x])[..|ins|] == q[..|ins|];
  }

  /**
   * One pass of the inner loop body, for file `fileId` and field `field`:
   * the photo is found by its FileId (ValueError when absent); the Tagged
   * field queues the photo's flag as 1 or 0; a tag field queues its tags and
   * a prune keeping them; any other field is skipped. Reading the cell can
   * raise ValueError (no such field), AttributeError (a stray key) or
   * TypeError (not text).
   */
  function Step(c: Ctx, p: Plan, fileId: int, field: string): (r: Result<Plan>)
    requires |c.allFiles| == |c.es|
    reads KeyObjs(c.es)
  {
    match Lists.IndexOf(c.allFiles, Int(fileId))
    case None => Err(ValueError)
    case Some(row) =>
      var photo := c.es[row];
      assert photo in c.es;
      if field == TaggedField then
        match Get(photo, AtName(field))
        case Err(e) => Err(e)
        case Ok(v) => Ok(p.(ids := p.ids + [fileId], vals := p.vals + [if Truthy(v) then 1 else 0]))
      else
        match LastTagField(c.rows, field)
        case None => Ok(p)
        case Some(catId) =>
          match Tags(photo, AtName(field))
          case Err(e) => Err(e)
          case Ok(cur) =>
            var q := QueueTags(p, fileId, catId, LowValues(c.before, catId), cur);
            Ok(q.(dels := q.dels + [DelMap(fileId, catId, TagLists.LowerAll(cur))]))
  }

  /** The collecting loops over the given cells; the first error ends them. */
  function PlanFold(c: Ctx, cells: seq<(int, string)>): Result<Plan>
    requires |c.allFiles| == |c.es|
    reads KeyObjs(c.es)
  {
    if |cells| == 0 then Ok(NoPlan)
    else
      match PlanFold(c, cells[..|cells| - 1])
      case Err(e) => Err(e)
      case Ok(p) => Step(c, p, cells[|cells| - 1].0, cells[|cells| - 1].1)
  }

  // ----------------------------------------------------------------- apply

  /** `[(k[0], tagIds[k[1]]) for k in mapParams1]`: None where the dictionary raises KeyError. */
  function Resolve(tags: map<int, TagRow>, tagSeq: nat, maps: seq<(int, (int, string))>): (r: Option<seq<(int, int)>>)
    ensures r.None? <==> exists k | 0 <= k < |maps| :: TagIdFor(tags, maps[k].1.0, maps[k].1.1, tagSeq).None?
    ensures r.Some? ==> |r.value| == |maps| && forall k | 0 <= k < |maps| ::
      r.value[k] == (maps[k].0, TagIdFor(tags, maps[k].1.0, maps[k].1.1, tagSeq).value)
  {
    if |maps| == 0 then Some([])
    else
      var init := maps[..|maps| - 1];
      var m := maps[|maps| - 1];
      assert forall k | 0 <= k < |init| :: init[k] == maps[k];
      match Resolve(tags, tagSeq, init)
      case None => None
      case Some(ps) =>
        match TagIdFor(tags, m.1.0, m.1.1, tagSeq)
        case None => None
        case Some(id) => Some(ps + [(m.0, id)])
  }

  function PairSet(ps: seq<(int, int)>): (r: set<(int, int)>)
    ensures forall p :: p in r <==> p in ps
  {
    set p | p in ps
  }

  /** The prunes run one after another. */
  function DropAll(tagMap: set<(int, int)>, tags: map<int, TagRow>, dels: seq<DelMap>): (r: set<(int, int)>)
    ensures forall p :: p in r <==> p in tagMap && forall k | 0 <= k < |dels| :: !Unkept(tags, dels[k].fileId, dels[k].catId, dels[k].keep, p)
  {
    if |dels| == 0 then tagMap
    else
      var d := dels[|dels| - 1];
      var init := dels[..|dels| - 1];
      assert forall k | 0 <= k < |init| :: init[k] == dels[k];
      DropUnkept(DropAll(tagMap, tags, init), tags, d.fileId, d.catId, d.keep)
  }

  /** The result of `updateAlbum` and the tables it leaves. */
  datatype Outcome = Outcome(result: Result<()>, store: Store)

  /**
   * The writes: the Tagged flags, then the tags, then (when every mapping
   * resolves) the mappings, inserted or ignored, and the prunes.
   */
  function Apply(s: Store, same: (string, string) -> bool, plan: Plan): Outcome
    requires TagsBelow(s.tags, s.tagSeq)
  {
    var flags := SetTagged(s.files, Zip(plan.vals, plan.ids));
    var ins := InsertAll(s.tags, s.tagSeq, same, plan.inserts);
    var s1 := s.(files := flags.files, tags := ins.tags, tagSeq := ins.tagSeq);
    match Resolve(s1.tags, s1.tagSeq, plan.maps)
    case None => Outcome(Err(KeyError), s1)
    case Some(pairs) => Outcome(Ok(()), s1.(tagMap := DropAll(s1.tagMap + PairSet(pairs), s1.tags, plan.dels)))
  }

  /** `updateAlbum(fileIds, fieldnames)` on tables `s` and photos `es`. */
  function UpdateAlbumSpec(s: Store, same: (string, string) -> bool, es: seq<Photo>, fileIds: seq<int>, fieldnames: seq<string>): Outcome
    requires TagsBelow(s.tags, s.tagSeq)
    reads KeyObjs(es)
  {
    match FileIds(es)
    case Err(e) => Outcome(Err(e), s)
    case Ok(allFiles) =>
      match PlanFold(Ctx(es, allFiles, s.fields, s.tags), Cells(fileIds, fieldnames))
      case Err(e) => Outcome(Err(e), s)
      case Ok(plan) => Apply(s, same, plan)
  }

  // ------------------------------------------------- every mapping resolves

  /** The uniqueness rule only counts tags as the same when they are equal ignoring case. */
  ghost predicate SameLower(same: (string, string) -> bool) {
    forall a, b :: same(a, b) ==> Text.Lower(a) == Text.Lower(b)
  }

  /** Each queued mapping names a lower-cased tag the field had before, or one a queued insert carries. */
  ghost predicate Resolvable(p: Plan, before: map<int, TagRow>) {
    forall k | 0 <= k < |p.maps| :: Resolves(p.maps[k], p.inserts, before)
  }

  /** A mapping names a lower-cased tag its field had before, or one a queued insert carries. */
  ghost predicate Resolves(m: (int, (int, string)), inserts: seq<(int, string)>, before: map<int, TagRow>) {
    m.1.1 in LowValues(before, m.1.0) || exists t | (m.1.0, t) in inserts :: Text.Lower(t) == m.1.1
  }

  /** Queued insertions stay queued. */
  lemma {:induction false} QueueInsertsKeeps(ins: seq<(int, string)>, catId: int, existing: set<string>, tags: seq<string>)
    ensures forall x | x in ins :: x in QueueInserts(ins, catId, existing, tags)
  {
    var r := QueueInserts(ins, catId, existing, tags);
    forall x | x in ins ensures x in r {
      var k :| 0 <= k < |ins| && ins[k] == x;
      assert r[..|ins|][k] == x;
    }
  }

  /** A tag the field lacks ends up queued for insertion. */
  lemma {:induction false} QueueInsertsHas(ins: seq<(int, string)>, catId: int, existing: set<string>, tags: seq<string>, k: nat)
    requires k < |tags| && Text.Strip(tags[k]) != "" && Text.Lower(tags[k]) !in existing
    ensures (catId, tags[k]) in QueueInserts(ins, catId, existing, tags)
  {
    QueueInsertsLast(ins, catId, existing, tags);
    if k < |tags| - 1 {
      var init := tags[..|tags| - 1];
      assert init[k] == tags[k];
      QueueInsertsHas(ins, catId, existing, init, k);
    }
  }

  /** One more tag queues at most its own insertion, and only when it is not queued yet. */
  lemma QueueInsertsLast(ins: seq<(int, string)>, catId: int, existing: set<string>, tags: seq<string>)
    requires |tags| > 0
    ensures var q := QueueInserts(ins, catId, existing, tags[..|tags| - 1]);
      var last := tags[|tags| - 1];
      var r := QueueInserts(ins, catId, existing, tags);
      if Text.Strip(last) != "" && Text.Lower(last) !in existing && (catId, last) !in q
      then r == q + [(catId, last)] else r == q
  {
  }

  /** A queued insertion is never queued twice. */
  lemma {:induction false} QueueInsertsOnce(ins: seq<(int, string)>, catId: int, existing: set<string>, tags: seq<string>)
    requires forall i, j | 0 <= i < j < |ins| :: ins[i] != ins[j]
    ensures var r := QueueInserts(ins, catId, existing, tags);
      forall i, j | 0 <= i < j < |r| :: r[i] != r[j]
  {
    if |tags| > 0 {
      var q := QueueInserts(ins, catId, existing, tags[..|tags| - 1]);
      var r := QueueInserts(ins, catId, existing, tags);
      QueueInsertsOnce(ins, catId, existing, tags[..|tags| - 1]);
      QueueInsertsLast(ins, catId, existing, tags);
      if r != q {
        forall i, j | 0 <= i < j < |r| ensures r[i] != r[j] {
          assert r[i] == q[i];
          if j < |q| {
            assert r[j] == q[j];
          } else {
            assert q[i] in q;
          }
        }
      }
    }
  }

  /** Each mapping queued for a tag list comes from one of its non-blank tags. */
  lemma {:induction false} TagMapsFrom(fileId: int, catId: int, tags: seq<string>)
    ensures forall m | m in TagMaps(fileId, catId, tags) :: exists t | t in tags && Text.Strip(t) != "" :: m.1.1 == Text.Lower(t)
  {
    if |tags| > 0 {
      var init := tags[..|tags| - 1];
      TagMapsFrom(fileId, catId, init);
      assert forall x | x in init :: x in tags;
    }
  }

  /** Each non-blank tag gets its mapping queued. */
  lemma TagMapsHas(fileId: int, catId: int, tags: seq<string>)
    ensures forall t | t in tags && Text.Strip(t) != "" :: (fileId, (catId, Text.Lower(t))) in TagMaps(fileId, catId, tags)
  {
    forall t | t in tags && Text.Strip(t) != ""
      ensures (fileId, (catId, Text.Lower(t))) in TagMaps(fileId, catId, tags)
    {
      var k :| 0 <= k < |tags| && tags[k] == t;
      TagMapsHasAt(fileId, catId, tags, k);
    }
  }

  lemma {:induction false} TagMapsHasAt(fileId: int, catId: int, tags: seq<string>, k: nat)
    requires k < |tags| && Text.Strip(tags[k]) != ""
    ensures (fileId, (catId, Text.Lower(tags[k]))) in TagMaps(fileId, catId, tags)
  {
    TagMapsLast(fileId, catId, tags);
    if k < |tags| - 1 {
      var init := tags[..|tags| - 1];
      assert init[k] == tags[k];
      TagMapsHasAt(fileId, catId, init, k);
    }
  }

  lemma TagMapsLast(fileId: int, catId: int, tags: seq<string>)
    requires |tags| > 0
    ensures var last := tags[|tags| - 1];
      TagMaps(fileId, catId, tags)
      == TagMaps(fileId, catId, tags[..|tags| - 1]) + if Text.Strip(last) == "" then [] else [(fileId, (catId, Text.Lower(last)))]
  {
  }

  /** Queuing one photo's tags keeps every queued mapping resolvable. */
  lemma QueueTagsResolvable(p: Plan, fileId: int, catId: int, before: map<int, TagRow>, tags: seq<string>)
    requires Resolvable(p, before)
    ensures Resolvable(QueueTags(p, fileId, catId, LowValues(before, catId), tags), before)
  {
    var existing := LowValues(before, catId);
    var r := QueueTags(p, fileId, catId, existing, tags);
    QueueInsertsKeeps(p.inserts, catId, existing, tags);
    TagMapsFrom(fileId, catId, tags);
    forall k | 0 <= k < |r.maps|
      ensures Resolves(r.maps[k], r.inserts, before)
    {
      if k < |p.maps| {
        assert r.maps[k] == p.maps[k];
        ResolvesKept(p.maps[k], p.inserts, r.inserts, before);
      } else {
        assert r.maps[k] in TagMaps(fileId, catId, tags);
        NewMapResolves(p.inserts, fileId, catId, before, tags, r.maps[k]);
      }
    }
  }

  /** A mapping that resolved still does once more insertions are queued. */
  lemma ResolvesKept(m: (int, (int, string)), a: seq<(int, string)>, b: seq<(int, string)>, before: map<int, TagRow>)
    requires forall x | x in a :: x in b
    requires Resolves(m, a, before)
    ensures Resolves(m, b, before)
  {
    if m.1.1 !in LowValues(before, m.1.0) {
      var t :| (m.1.0, t) in a && Text.Lower(t) == m.1.1;
      assert (m.1.0, t) in b;
    }
  }

  /** A mapping queued for a photo's tags resolves once its insertions are queued. */
  lemma NewMapResolves(ins: seq<(int, string)>, fileId: int, catId: int, before: map<int, TagRow>, tags: seq<string>, m: (int, (int, string)))
    requires m in TagMaps(fileId, catId, tags)
    requires exists t | t in tags && Text.Strip(t) != "" :: m.1.1 == Text.Lower(t)
    ensures Resolves(m, QueueInserts(ins, catId, LowValues(before, catId), tags), before)
  {
    var t :| t in tags && Text.Strip(t) != "" && m.1.1 == Text.Lower(t);
    if m.1.1 !in LowValues(before, catId) {
      var j :| 0 <= j < |tags| && tags[j] == t;
      QueueInsertsHas(ins, catId, LowValues(before, catId), tags, j);
    }
  }

  /** One pass of the loop body keeps every queued mapping resolvable. */
  lemma StepResolvable(c: Ctx, p: Plan, fileId: int, field: string)
    requires |c.allFiles| == |c.es| && Resolvable(p, c.before)
    ensures Step(c, p, fileId, field).Ok? ==> Resolvable(Step(c, p, fileId, field).value, c.before)
  {
    match Lists.IndexOf(c.allFiles, Int(fileId))
    case None =>
    case Some(row) =>
      if field != TaggedField && LastTagField(c.rows, field).Some? {
        var catId := LastTagField(c.rows, field).value;
        var photo := c.es[row];
        assert photo in c.es;
        var cur := Tags(photo, AtName(field));
        if cur.Ok? {
          QueueTagsResolvable(p, fileId, catId, c.before, cur.value);
          var q := QueueTags(p, fileId, catId, LowValues(c.before, catId), cur.value);
          var q' := q.(dels := q.dels + [DelMap(fileId, catId, TagLists.LowerAll(cur.value))]);
          assert q'.maps == q.maps && q'.inserts == q.inserts;
        }
      }
  }

  /** The collecting loops only queue resolvable mappings. */
  lemma {:induction false} PlanFoldResolvable(c: Ctx, cells: seq<(int, string)>)
    requires |c.allFiles| == |c.es|
    ensures PlanFold(c, cells).Ok? ==> Resolvable(PlanFold(c, cells).value, c.before)
  {
    if |cells| > 0 {
      var init := cells[..|cells| - 1];
      PlanFoldResolvable(c, init);
      if PlanFold(c, init).Ok? {
        StepResolvable(c, PlanFold(c, init).value, cells[|cells| - 1].0, cells[|cells| - 1].1);
      }
    }
  }

  /** A prune comes from a visited cell of a tag field: its file, and the FieldId that field's name maps to. */
  ghost predicate PruneFrom(rows: seq<FieldRow>, cells: seq<(int, string)>, d: DelMap) {
    exists n | 0 <= n < |cells| :: cells[n].0 == d.fileId && cells[n].1 != TaggedField && LastTagField(rows, cells[n].1) == Some(d.catId)
  }

  /** One pass of the loop body queues prunes only for its own file and tag field. */
  lemma StepDelsFrom(c: Ctx, p: Plan, fileId: int, field: string)
    requires |c.allFiles| == |c.es|
    ensures Step(c, p, fileId, field).Ok? ==>
      var r := Step(c, p, fileId, field).value;
      forall k | |p.dels| <= k < |r.dels| ::
        r.dels[k].fileId == fileId && field != TaggedField && LastTagField(c.rows, field) == Some(r.dels[k].catId)
  {
    if Step(c, p, fileId, field).Ok? {
      var r := Step(c, p, fileId, field).value;
      var row := Lists.IndexOf(c.allFiles, Int(fileId)).value;
      if field != TaggedField && LastTagField(c.rows, field).Some? {
        var catId := LastTagField(c.rows, field).value;
        var cur := Tags(c.es[row], AtName(field)).value;
        assert r.dels == p.dels + [DelMap(fileId, catId, TagLists.LowerAll(cur))];
      } else {
        assert r.dels == p.dels;
      }
    }
  }

  /** Every prune the loops queue comes from a visited cell of a tag field. */
  lemma {:induction false} PlanFoldDelsFrom(c: Ctx, cells: seq<(int, string)>)
    requires |c.allFiles| == |c.es|
    ensures PlanFold(c, cells).Ok? ==>
      forall k | 0 <= k < |PlanFold(c, cells).value.dels| :: PruneFrom(c.rows, cells, PlanFold(c, cells).value.dels[k])
  {
    if |cells| > 0 && PlanFold(c, cells).Ok? {
      var init := cells[..|cells| - 1];
      var last := cells[|cells| - 1];
      PlanFoldDelsFrom(c, init);
      var p := PlanFold(c, init).value;
      var r := PlanFold(c, cells).value;
      StepPrunes(c, p, last.0, last.1);
      StepDelsFrom(c, p, last.0, last.1);
      forall k | 0 <= k < |r.dels| ensures PruneFrom(c.rows, cells, r.dels[k]) {
        if k < |p.dels| {
          assert r.dels[k] == p.dels[k];
          var n :| 0 <= n < |init| && init[n].0 == p.dels[k].fileId && init[n].1 != TaggedField
            && LastTagField(c.rows, init[n].1) == Some(p.dels[k].catId);
          assert cells[n] == init[n];
        } else {
          assert cells[|cells| - 1] == last;
        }
      }
    }
  }

  /** Every cell the loops visit pairs a listed file with a listed field. */
  lemma {:induction false} CellsFrom(fileIds: seq<int>, fieldnames: seq<string>, n: nat)
    requires n < |Cells(fileIds, fieldnames)|
    ensures Cells(fileIds, fieldnames)[n].0 in fileIds && Cells(fileIds, fieldnames)[n].1 in fieldnames
  {
    var init := fileIds[..|fileIds| - 1];
    var front := Cells(init, fieldnames);
    if n < |front| {
      CellsFrom(init, fieldnames, n);
      assert forall x | x in init :: x in fileIds;
    } else {
      assert Cells(fileIds, fieldnames)[n] == RowCells(fileIds[|fileIds| - 1], fieldnames)[n - |front|];
    }
  }

  /**
   * `updateAlbum` prunes only the fields it visits: a mapping to a tag of a
   * field that none of the listed field names maps to survives, whatever
   * the photos hold.
   */
  lemma UpdateAlbumKeepsOtherFields(s: Store, same: (string, string) -> bool, es: seq<Photo>, fileIds: seq<int>, fieldnames: seq<string>, p: (int, int))
    requires Valid(s) && UpdateAlbumSpec(s, same, es, fileIds, fieldnames).result.Ok?
    requires p in s.tagMap && p.1 in s.tags
    requires forall j | 0 <= j < |fieldnames| && fieldnames[j] != TaggedField :: LastTagField(s.fields, fieldnames[j]) != Some(s.tags[p.1].fieldId)
    ensures p in UpdateAlbumSpec(s, same, es, fileIds, fieldnames).store.tagMap
  {
    var c := Ctx(es, FileIds(es).value, s.fields, s.tags);
    var cells := Cells(fileIds, fieldnames);
    var plan := PlanFold(c, cells).value;
    var ins := InsertAll(s.tags, s.tagSeq, same, plan.inserts);
    PlanFoldDelsFrom(c, cells);
    forall k | 0 <= k < |plan.dels| ensures !Unkept(ins.tags, plan.dels[k].fileId, plan.dels[k].catId, plan.dels[k].keep, p) {
      var n :| 0 <= n < |cells| && cells[n].0 == plan.dels[k].fileId && cells[n].1 != TaggedField
        && LastTagField(c.rows, cells[n].1) == Some(plan.dels[k].catId);
      CellsFrom(fileIds, fieldnames, n);
    }
  }

  /**
   * When the uniqueness rule only merges tags equal ignoring case, every
   * queued mapping resolves after the insertions, so `updateAlbum` never
   * raises KeyError.
   */
  lemma ApplyResolves(s: Store, same: (string, string) -> bool, plan: Plan)
    requires TagsBelow(s.tags, s.tagSeq) && SameLower(same) && Resolvable(plan, s.tags)
    ensures Apply(s, same, plan).result.Ok?
  {
    var ins := InsertAll(s.tags, s.tagSeq, same, plan.inserts);
    InsertAllPresent(s.tags, s.tagSeq, same, plan.inserts);
    forall k | 0 <= k < |plan.maps|
      ensures TagIdFor(ins.tags, plan.maps[k].1.0, plan.maps[k].1.1, ins.tagSeq).Some?
    {
      var (catId, low) := plan.maps[k].1;
      var id: int;
      if low in LowValues(s.tags, catId) {
        id :| id in s.tags && s.tags[id].fieldId == catId && Text.Lower(s.tags[id].value) == low;
      } else {
        var t :| (catId, t) in plan.inserts && Text.Lower(t) == low;
        var j :| 0 <= j < |plan.inserts| && plan.inserts[j] == (catId, t);
        id :| id in ins.tags && ins.tags[id].fieldId == catId && (ins.tags[id].value == t || same(ins.tags[id].value, t));
      }
      assert IsLow(ins.tags, catId, low, id);
    }
  }

  // ---------------------------------------------- the loops stop at an error

  /** Once the collecting loops fail at a prefix of the cells, the later cells change nothing. */
  lemma {:induction false} PlanFoldStops(c: Ctx, cells: seq<(int, string)>, n: nat)
    requires |c.allFiles| == |c.es| && n <= |cells| && PlanFold(c, cells[..n]).Err?
    ensures PlanFold(c, cells) == PlanFold(c, cells[..n])
    decreases |cells|
  {
    if n < |cells| {
      var init := cells[..|cells| - 1];
      assert init[..n] == cells[..n];
      PlanFoldStops(c, init, n);
    } else {
      assert cells[..n] == cells;
    }
  }

  /** Collecting only fails as reading a photo does: no such photo or field (ValueError), a stray key (AttributeError), or a cell that is not text (TypeError). */
  lemma {:induction false} PlanFoldErrors(c: Ctx, cells: seq<(int, string)>)
    requires |c.allFiles| == |c.es|
    ensures PlanFold(c, cells).Err? ==> PlanFold(c, cells).error in {ValueError, TypeError, AttributeError}
  {
    if |cells| > 0 {
      PlanFoldErrors(c, cells[..|cells| - 1]);
    }
  }

  // -------------------------------------------- the mappings follow the album

  /** The name on the first Fields row with FieldId `id`. */
  function NameOfId(rows: seq<FieldRow>, id: int): (r: Option<string>)
    ensures r.None? <==> forall k | 0 <= k < |rows| :: rows[k].id != id
    ensures r.Some? ==> exists k | 0 <= k < |rows| :: rows[k].id == id && rows[k].props.name == r.value
  {
    if |rows| == 0 then None
    else if rows[0].id == id then Some(rows[0].props.name)
    else
      assert forall k | 0 <= k < |rows| - 1 :: rows[1..][k] == rows[k + 1];
      NameOfId(rows[1..], id)
  }

  /** With distinct FieldIds, the tag field found by name is the row that carries that name. */
  lemma NameOfTagField(rows: seq<FieldRow>, name: string)
    requires DistinctIds(rows) && LastTagField(rows, name).Some?
    ensures NameOfId(rows, LastTagField(rows, name).value) == Some(name)
  {
    var id := LastTagField(rows, name).value;
    var k :| 0 <= k < |rows| && IsTagField(rows[k], name) && rows[k].id == id;
    var j :| 0 <= j < |rows| && rows[j].id == id && rows[j].props.name == NameOfId(rows, id).value;
    assert j == k;
  }

  /** The lower-cased tags the album holds for the photo with FileId `fileId` in field `field`; none when that cell cannot be read. */
  ghost function AlbumTags(es: seq<Photo>, fileId: int, field: string): seq<string>
    reads KeyObjs(es)
  {
    match FileIds(es)
    case Err(_) => []
    case Ok(all) =>
      match Lists.IndexOf(all, Int(fileId))
      case None => []
      case Some(row) =>
        assert es[row] in es;
        match Tags(es[row], AtName(field))
        case Err(_) => []
        case Ok(cur) => TagLists.LowerAll(cur)
  }

  /** The album's lower-cased tags for file `fileId` in the field with FieldId `catId`. */
  ghost function KeepOf(c: Ctx, fileId: int, catId: int): seq<string>
    reads KeyObjs(c.es)
  {
    match NameOfId(c.rows, catId)
    case None => []
    case Some(name) => AlbumTags(c.es, fileId, name)
  }

  /** The lower-cased tags of field `catId` that file `fileId` is mapped to. */
  ghost function Mapped(s: Store, fileId: int, catId: int): set<string> {
    set p | p in s.tagMap && p.0 == fileId && p.1 in s.tags && s.tags[p.1].fieldId == catId :: Text.Lower(s.tags[p.1].value)
  }

  /**
   * A plan agrees with the album: each queued mapping and each prune's kept
   * list come from the album's tags for that file and field, and every kept
   * tag is queued for mapping.
   */
  ghost predicate Coherent(c: Ctx, p: Plan)
    reads KeyObjs(c.es)
  {
    MapsKept(c, p.maps) && PrunesKept(c, p.dels) && PrunesMapped(p.maps, p.dels)
  }

  ghost predicate MapsKept(c: Ctx, maps: seq<(int, (int, string))>)
    reads KeyObjs(c.es)
  {
    forall k | 0 <= k < |maps| :: maps[k].1.1 in KeepOf(c, maps[k].0, maps[k].1.0)
  }

  ghost predicate PrunesKept(c: Ctx, dels: seq<DelMap>)
    reads KeyObjs(c.es)
  {
    forall k | 0 <= k < |dels| :: dels[k].keep == KeepOf(c, dels[k].fileId, dels[k].catId)
  }

  predicate PrunesMapped(maps: seq<(int, (int, string))>, dels: seq<DelMap>) {
    forall k, j | 0 <= k < |dels| && 0 <= j < |dels[k].keep| :: (dels[k].fileId, (dels[k].catId, dels[k].keep[j])) in maps
  }

  /** Every tag in a photo's cell is non-blank, so each gets its mapping queued. */
  lemma TagMapsCoverCell(fileId: int, catId: int, cur: seq<string>, j: nat)
    requires TagLists.AllClean(cur) && j < |cur|
    ensures (fileId, (catId, TagLists.LowerAll(cur)[j])) in TagMaps(fileId, catId, cur)
  {
    Text.StripStripped(cur[j]);
    TagMapsHas(fileId, catId, cur);
    assert cur[j] in cur;
  }

  /** The mappings queued for a cell come from the album's tags for it. */
  lemma MapsKeptTags(c: Ctx, maps: seq<(int, (int, string))>, fileId: int, catId: int, cur: seq<string>)
    requires MapsKept(c, maps) && KeepOf(c, fileId, catId) == TagLists.LowerAll(cur)
    ensures MapsKept(c, maps + TagMaps(fileId, catId, cur))
  {
    var r := maps + TagMaps(fileId, catId, cur);
    forall k | 0 <= k < |r| ensures r[k].1.1 in KeepOf(c, r[k].0, r[k].1.0) {
      if k >= |maps| {
        assert r[k] in TagMaps(fileId, catId, cur);
      } else {
        assert r[k] == maps[k];
      }
    }
  }

  /** The prune queued for a cell keeps all of the cell's tags, each of which is queued for mapping. */
  lemma PrunesMappedTags(maps: seq<(int, (int, string))>, dels: seq<DelMap>, fileId: int, catId: int, cur: seq<string>)
    requires PrunesMapped(maps, dels) && TagLists.AllClean(cur)
    ensures PrunesMapped(maps + TagMaps(fileId, catId, cur), dels + [DelMap(fileId, catId, TagLists.LowerAll(cur))])
  {
    var m := maps + TagMaps(fileId, catId, cur);
    var d := dels + [DelMap(fileId, catId, TagLists.LowerAll(cur))];
    forall k, j | 0 <= k < |d| && 0 <= j < |d[k].keep| ensures (d[k].fileId, (d[k].catId, d[k].keep[j])) in m {
      if k == |dels| {
        TagMapsCoverCell(fileId, catId, cur, j);
      } else {
        assert d[k] == dels[k];
      }
    }
  }

  /** Queuing a cell's tags and its prune keeps the plan in agreement with the album. */
  lemma QueueCoherent(c: Ctx, p: Plan, fileId: int, catId: int, existing: set<string>, cur: seq<string>)
    requires Coherent(c, p) && TagLists.AllClean(cur) && KeepOf(c, fileId, catId) == TagLists.LowerAll(cur)
    ensures var q := QueueTags(p, fileId, catId, existing, cur);
      Coherent(c, q.(dels := q.dels + [DelMap(fileId, catId, TagLists.LowerAll(cur))]))
  {
    var keep := TagLists.LowerAll(cur);
    var m := p.maps + TagMaps(fileId, catId, cur);
    var d := p.dels + [DelMap(fileId, catId, keep)];
    MapsKeptTags(c, p.maps, fileId, catId, cur);
    PrunesMappedTags(p.maps, p.dels, fileId, catId, cur);
    assert PrunesKept(c, d) by {
      forall k | 0 <= k < |d| ensures d[k].keep == KeepOf(c, d[k].fileId, d[k].catId) {
        if k < |p.dels| {
          assert d[k] == p.dels[k];
        }
      }
    }
  }

  /** One pass of the loop body keeps the plan in agreement with the album. */
  lemma StepCoherent(c: Ctx, p: Plan, fileId: int, field: string)
    requires FileIds(c.es) == Ok(c.allFiles) && DistinctIds(c.rows) && Coherent(c, p)
    ensures Step(c, p, fileId, field).Ok? ==> Coherent(c, Step(c, p, fileId, field).value)
  {
    match Lists.IndexOf(c.allFiles, Int(fileId))
    case None =>
    case Some(row) =>
      if field != TaggedField && LastTagField(c.rows, field).Some? {
        var catId := LastTagField(c.rows, field).value;
        var cur := Tags(c.es[row], AtName(field));
        if cur.Ok? {
          assert KeepOf(c, fileId, catId) == TagLists.LowerAll(cur.value) by {
            NameOfTagField(c.rows, field);
          }
          QueueCoherent(c, p, fileId, catId, LowValues(c.before, catId), cur.value);
        }
      }
  }

  /** The collecting loops build a plan that agrees with the album. */
  lemma {:induction false} PlanFoldCoherent(c: Ctx, cells: seq<(int, string)>)
    requires FileIds(c.es) == Ok(c.allFiles) && DistinctIds(c.rows)
    ensures PlanFold(c, cells).Ok? ==> Coherent(c, PlanFold(c, cells).value)
  {
    if |cells| > 0 {
      var init := cells[..|cells| - 1];
      PlanFoldCoherent(c, init);
      if PlanFold(c, init).Ok? {
        StepCoherent(c, PlanFold(c, init).value, cells[|cells| - 1].0, cells[|cells| - 1].1);
      }
    }
  }

  /** A visited cell of a tag field has queued a prune for that file and field. */
  ghost predicate Pruned(rows: seq<FieldRow>, p: Plan, cell: (int, string)) {
    cell.1 == TaggedField || LastTagField(rows, cell.1).None?
    || exists j | 0 <= j < |p.dels| :: p.dels[j].fileId == cell.0 && p.dels[j].catId == LastTagField(rows, cell.1).value
  }

  /** One pass of the loop body keeps the queued prunes and queues one for its own cell. */
  lemma StepPrunes(c: Ctx, p: Plan, fileId: int, field: string)
    requires |c.allFiles| == |c.es|
    ensures Step(c, p, fileId, field).Ok? ==>
      var r := Step(c, p, fileId, field).value;
      |p.dels| <= |r.dels| && r.dels[..|p.dels|] == p.dels && Pruned(c.rows, r, (fileId, field))
  {
    if Step(c, p, fileId, field).Ok? {
      var r := Step(c, p, fileId, field).value;
      var row := Lists.IndexOf(c.allFiles, Int(fileId)).value;
      if field != TaggedField && LastTagField(c.rows, field).Some? {
        var catId := LastTagField(c.rows, field).value;
        var cur := Tags(c.es[row], AtName(field)).value;
        assert r.dels == p.dels + [DelMap(fileId, catId, TagLists.LowerAll(cur))];
        assert r.dels[|p.dels|].fileId == fileId && r.dels[|p.dels|].catId == catId;
      } else {
        assert r.dels == p.dels;
      }
      assert r.dels[..|p.dels|] == p.dels;
    }
  }

  /** Every visited cell of a tag field has queued its prune. */
  lemma {:induction false} PlanFoldPrunes(c: Ctx, cells: seq<(int, string)>)
    requires |c.allFiles| == |c.es|
    ensures PlanFold(c, cells).Ok? ==> forall k | 0 <= k < |cells| :: Pruned(c.rows, PlanFold(c, cells).value, cells[k])
  {
    if |cells| > 0 {
      var init := cells[..|cells| - 1];
      PlanFoldPrunes(c, init);
      if PlanFold(c, init).Ok? {
        var p := PlanFold(c, init).value;
        StepPrunes(c, p, cells[|cells| - 1].0, cells[|cells| - 1].1);
        if PlanFold(c, cells).Ok? {
          var r := PlanFold(c, cells).value;
          forall k | 0 <= k < |cells| - 1 ensures Pruned(c.rows, r, cells[k]) {
            assert cells[k] == init[k];
            if cells[k].1 != TaggedField && LastTagField(c.rows, cells[k].1).Some? {
              var j :| 0 <= j < |p.dels| && p.dels[j].fileId == cells[k].0 && p.dels[j].catId == LastTagField(c.rows, cells[k].1).value;
              assert r.dels[j] == p.dels[j];
            }
          }
        }
      }
    }
  }

  /** The loops visit every pair of a listed file and a listed field. */
  lemma {:induction false} CellsHas(fileIds: seq<int>, fieldnames: seq<string>, i: nat, j: nat)
    requires i < |fileIds| && j < |fieldnames|
    ensures (fileIds[i], fieldnames[j]) in Cells(fileIds, fieldnames)
  {
    var init := fileIds[..|fileIds| - 1];
    if i < |fileIds| - 1 {
      assert init[i] == fileIds[i];
      CellsHas(init, fieldnames, i, j);
    } else {
      assert RowCells(fileIds[i], fieldnames)[j] == (fileIds[i], fieldnames[j]);
    }
  }

  /** A tag the album keeps for the pruned file and field is mapped after the writes. */
  lemma ApplyKeeps(s: Store, same: (string, string) -> bool, c: Ctx, plan: Plan, k: nat, j: nat)
    requires TagsBelow(s.tags, s.tagSeq) && Coherent(c, plan) && Apply(s, same, plan).result.Ok?
    requires k < |plan.dels| && j < |plan.dels[k].keep|
    ensures plan.dels[k].keep[j] in Mapped(Apply(s, same, plan).store, plan.dels[k].fileId, plan.dels[k].catId)
  {
    var d := plan.dels[k];
    var low := d.keep[j];
    var out := Apply(s, same, plan);
    var ins := InsertAll(s.tags, s.tagSeq, same, plan.inserts);
    var m := (d.fileId, (d.catId, low));
    var i :| 0 <= i < |plan.maps| && plan.maps[i] == m;
    var pairs := Resolve(ins.tags, ins.tagSeq, plan.maps).value;
    var id := TagIdFor(ins.tags, d.catId, low, ins.tagSeq).value;
    assert pairs[i] == (d.fileId, id);
    assert (d.fileId, id) in PairSet(pairs);
    forall k' | 0 <= k' < |plan.dels| ensures !Unkept(ins.tags, plan.dels[k'].fileId, plan.dels[k'].catId, plan.dels[k'].keep, (d.fileId, id)) {
      var e := plan.dels[k'];
      if e.fileId == d.fileId && e.catId == d.catId {
        assert low in KeepOf(c, plan.maps[i].0, plan.maps[i].1.0);
      }
    }
    assert (d.fileId, id) in out.store.tagMap;
  }

  /** After the writes, a pruned file and field is mapped to exactly the tags the album keeps for it. */
  lemma ApplySyncs(s: Store, same: (string, string) -> bool, c: Ctx, plan: Plan, k: nat)
    requires TagsBelow(s.tags, s.tagSeq) && Coherent(c, plan) && Apply(s, same, plan).result.Ok?
    requires k < |plan.dels|
    ensures Mapped(Apply(s, same, plan).store, plan.dels[k].fileId, plan.dels[k].catId) == set t | t in plan.dels[k].keep
  {
    var d := plan.dels[k];
    var st := Apply(s, same, plan).store;
    forall t | t in d.keep ensures t in Mapped(st, d.fileId, d.catId) {
      var j :| 0 <= j < |d.keep| && d.keep[j] == t;
      ApplyKeeps(s, same, c, plan, k, j);
    }
    forall t | t in Mapped(st, d.fileId, d.catId) ensures t in d.keep {
      var p :| p in st.tagMap && p.0 == d.fileId && p.1 in st.tags && st.tags[p.1].fieldId == d.catId && Text.Lower(st.tags[p.1].value) == t;
      assert !Unkept(st.tags, d.fileId, d.catId, d.keep, p);
    }
  }

  /**
   * The promise of `updateAlbum`: when it succeeds, every listed photo is
   * mapped, in every listed tag field, to exactly the tags (ignoring case)
   * its cell holds.
   */
  lemma UpdateAlbumSyncs(s: Store, same: (string, string) -> bool, es: seq<Photo>, fileIds: seq<int>, fieldnames: seq<string>, i: nat, j: nat)
    requires Valid(s) && UpdateAlbumSpec(s, same, es, fileIds, fieldnames).result.Ok?
    requires i < |fileIds| && j < |fieldnames| && fieldnames[j] != TaggedField && LastTagField(s.fields, fieldnames[j]).Some?
    ensures Mapped(UpdateAlbumSpec(s, same, es, fileIds, fieldnames).store, fileIds[i], LastTagField(s.fields, fieldnames[j]).value)
      == set t | t in AlbumTags(es, fileIds[i], fieldnames[j])
  {
    var fileId, field := fileIds[i], fieldnames[j];
    var catId := LastTagField(s.fields, field).value;
    var c := Ctx(es, FileIds(es).value, s.fields, s.tags);
    var cells := Cells(fileIds, fieldnames);
    var plan := PlanFold(c, cells).value;
    CellsHas(fileIds, fieldnames, i, j);
    var n :| 0 <= n < |cells| && cells[n] == (fileId, field);
    PlanFoldPrunes(c, cells);
    assert Pruned(c.rows, plan, cells[n]);
    var k :| 0 <= k < |plan.dels| && plan.dels[k].fileId == fileId && plan.dels[k].catId == catId;
    PlanFoldCoherent(c, cells);
    NameOfTagField(s.fields, field);
    assert plan.dels[k].keep == AlbumTags(es, fileId, field);
    ApplySyncs(s, same, c, plan, k);
  }

  /**
   * When the uniqueness rule only merges tags equal ignoring case,
   * `updateAlbum` fails only while reading the album (ValueError,
   * TypeError or AttributeError), before any write.
   */
  lemma UpdateAlbumErrors(s: Store, same: (string, string) -> bool, es: seq<Photo>, fileIds: seq<int>, fieldnames: seq<string>)
    requires Valid(s) && SameLower(same)
    ensures var out := UpdateAlbumSpec(s, same, es, fileIds, fieldnames);
      out.result.Err? ==> out.store == s && out.result.error in {ValueError, TypeError, AttributeError}
  {
    if FileIds(es).Ok? {
      var c := Ctx(es, FileIds(es).value, s.fields, s.tags);
      var cells := Cells(fileIds, fieldnames);
      PlanFoldErrors(c, cells);
      PlanFoldResolvable(c, cells);
      if PlanFold(c, cells).Ok? {
        ApplyResolves(s, same, PlanFold(c, cells).value);
      }
    }
  }
}
