// Which photo rows the album view shows (src/datastore/models/album_model.py,
// class AlbumSortFilterModel): a date test at a chosen resolution, the
// hide-tagged switch, the tags checked in the tag tree, and a text query
// whose every term has to be found in some filtered column.

module AlbumFilter {
  import opened Outcomes
  import opened Values
  import Text
  import Dates

  /** The date resolutions of `setDateFilterType`. */
  const YearFilter: int := 0
  const MonthFilter: int := 1
  const DayFilter: int := 2

  // ------------------------------------------------------------------ dates

  /** `roundDate(date)`: below day resolution the day becomes 1, below month resolution the month too. */
  function RoundDate(d: Dates.Date, kind: int): (r: Dates.Date)
    ensures r.year == d.year
  {
    Dates.Date(d.year, if kind < MonthFilter then 1 else d.month, if kind < DayFilter then 1 else d.day)
  }

  /** `a <= b` on QDates. */
  predicate NotAfter(a: Dates.Date, b: Dates.Date) {
    !Dates.Before(b, a)
  }

  /** Rounding a rounded date changes nothing. */
  lemma RoundDateIdempotent(d: Dates.Date, kind: int)
    ensures RoundDate(RoundDate(d, kind), kind) == RoundDate(d, kind)
  {
  }

  /** Day resolution leaves a date alone. */
  lemma RoundDateDay(d: Dates.Date)
    ensures RoundDate(d, DayFilter) == d
  {
  }

  /** Rounding keeps the order of dates. */
  lemma RoundDateMonotone(a: Dates.Date, b: Dates.Date, kind: int)
    requires NotAfter(a, b)
    ensures NotAfter(RoundDate(a, kind), RoundDate(b, kind))
  {
  }

  /** Rounding to a finer resolution first and then to a coarser one is rounding to the coarser one. */
  lemma RoundDateCoarser(d: Dates.Date, fine: int, coarse: int)
    requires coarse <= fine
    ensures RoundDate(RoundDate(d, fine), coarse) == RoundDate(d, coarse)
  {
  }

  /**
   * The date test of `filterAcceptsRow`: a row without a date, or with the
   * date filter off, passes; otherwise its rounded date has to lie within
   * the rounded range, or equal the rounded from-date.
   */
  predicate DatePasses(date: Option<Dates.Date>, on: bool, between: bool, kind: int, from: Dates.Date, to: Dates.Date) {
    if date.None? || !on then true
    else
      var c := RoundDate(date.value, kind);
      var f := RoundDate(from, kind);
      var t := RoundDate(to, kind);
      if between then !(Dates.Before(c, f) || Dates.Before(t, c)) else c == f
  }

  /** A coarser resolution lets through every row a finer one lets through, in either mode. */
  lemma DateCoarserAccepts(date: Option<Dates.Date>, on: bool, between: bool, fine: int, coarse: int,
                           from: Dates.Date, to: Dates.Date)
    requires coarse <= fine
    requires DatePasses(date, on, between, fine, from, to)
    ensures DatePasses(date, on, between, coarse, from, to)
  {
    if date.Some? && on {
      var c := RoundDate(date.value, fine);
      var f := RoundDate(from, fine);
      var t := RoundDate(to, fine);
      RoundDateCoarser(date.value, fine, coarse);
      RoundDateCoarser(from, fine, coarse);
      RoundDateCoarser(to, fine, coarse);
      if between {
        RoundDateMonotone(f, c, coarse);
        RoundDateMonotone(c, t, coarse);
      }
    }
  }

  // ------------------------------------------------------------ the query

  /** Where the first `"` of `s` is, if any. */
  function QuoteAt(s: string): (r: Option<nat>)
    ensures r.Some? ==> r.value < |s| && s[r.value] == '"' && forall k | 0 <= k < r.value :: s[k] != '"'
    ensures r.None? ==> forall k | 0 <= k < |s| :: s[k] != '"'
  {
    if |s| == 0 then None
    else if s[0] == '"' then Some(0)
    else match QuoteAt(s[1..])
      case None => None
      case Some(j) => Some(j + 1)
  }

  /**
   * The length of the match of `((?:[^\s"]|"[^"]*")+)` at the start of
   * `s`, 0 when there is none: characters other than white space and `"`,
   * and quoted stretches (white space included) whose closing `"` exists.
   */
  function TokenLen(s: string): (n: nat)
    ensures n <= |s|
    decreases |s|
  {
    if |s| == 0 || Text.IsSpace(s[0]) then 0
    else if s[0] != '"' then 1 + TokenLen(s[1..])
    else match QuoteAt(s[1..])
      case None => 0
      case Some(j) => j + 2 + TokenLen(s[j + 2..])
  }

  /** `PATTERN.split(pat)[1::2]`: the matches, left to right; an unmatched position is skipped. */
  function Terms(s: string): (r: seq<string>)
    ensures forall k | 0 <= k < |r| :: |r[k]| > 0
    decreases |s|
  {
    if |s| == 0 then []
    else
      var n := TokenLen(s);
      if n == 0 then Terms(s[1..]) else [s[..n]] + Terms(s[n..])
  }

  /** `k.replace('"', '')`. */
  function Unquote(s: string): (r: string)
    ensures forall k | 0 <= k < |r| :: r[k] != '"'
  {
    if |s| == 0 then "" else (if s[0] == '"' then "" else [s[0]]) + Unquote(s[1..])
  }

  function UnquoteAll(ts: seq<string>): (r: seq<string>)
    ensures |r| == |ts| && forall k | 0 <= k < |ts| :: r[k] == Unquote(ts[k])
  {
    if |ts| == 0 then [] else [Unquote(ts[0])] + UnquoteAll(ts[1..])
  }

  /** A query item: a word, or a phrase in quotes. */
  datatype Item = Word(w: string) | Phrase(p: string)

  /** A word has no white space and no `"`, and is not empty; a phrase has no `"`. */
  predicate WellFormed(it: Item) {
    match it
    case Word(w) => |w| > 0 && forall k | 0 <= k < |w| :: !Text.IsSpace(w[k]) && w[k] != '"'
    case Phrase(p) => forall k | 0 <= k < |p| :: p[k] != '"'
  }

  function Render(it: Item): string {
    match it
    case Word(w) => w
    case Phrase(p) => "\"" + p + "\""
  }

  /** The items written out with one space between them. */
  function Query(items: seq<Item>): string {
    if |items| == 0 then ""
    else if |items| == 1 then Render(items[0])
    else Render(items[0]) + " " + Query(items[1..])
  }

  /** What each item stands for once its quotes are gone. */
  function Texts(items: seq<Item>): (r: seq<string>)
    ensures |r| == |items|
  {
    if |items| == 0 then [] else [TextOf(items[0])] + Texts(items[1..])
  }

  function TextOf(it: Item): string {
    match it
    case Word(w) => w
    case Phrase(p) => p
  }

  /** A word followed by white space or nothing is matched whole. */
  lemma {:induction false} TokenLenWord(w: string, rest: string)
    requires forall k | 0 <= k < |w| :: !Text.IsSpace(w[k]) && w[k] != '"'
    requires |rest| == 0 || Text.IsSpace(rest[0])
    ensures TokenLen(w + rest) == |w|
    decreases |w|
  {
    if |w| > 0 {
      assert (w + rest)[1..] == w[1..] + rest;
      TokenLenWord(w[1..], rest);
    } else {
      assert w + rest == rest;
    }
  }

  /** A phrase followed by white space or nothing is matched whole, quotes included. */
  lemma TokenLenPhrase(p: string, rest: string)
    requires forall k | 0 <= k < |p| :: p[k] != '"'
    requires |rest| == 0 || Text.IsSpace(rest[0])
    ensures TokenLen("\"" + p + "\"" + rest) == |p| + 2
  {
    var s := "\"" + p + "\"" + rest;
    assert s[1..] == p + "\"" + rest;
    QuoteAtAfter(p, rest);
    assert s[|p| + 2..] == rest;
  }

  lemma {:induction false} QuoteAtAfter(p: string, rest: string)
    requires forall k | 0 <= k < |p| :: p[k] != '"'
    ensures QuoteAt(p + "\"" + rest) == Some(|p|)
    decreases |p|
  {
    if |p| > 0 {
      assert (p + "\"" + rest)[1..] == p[1..] + "\"" + rest;
      QuoteAtAfter(p[1..], rest);
    } else {
      assert p + "\"" + rest == "\"" + rest;
    }
  }

  /** A leading space is skipped. */
  lemma TermsSpace(s: string)
    ensures Terms(" " + s) == Terms(s)
  {
    assert (" " + s)[1..] == s;
  }

  /** The match of an item followed by white space or nothing is the item as written. */
  lemma TermsItem(it: Item, rest: string)
    requires WellFormed(it)
    requires |rest| == 0 || Text.IsSpace(rest[0])
    ensures Terms(Render(it) + rest) == [Render(it)] + Terms(rest)
  {
    var s := Render(it) + rest;
    match it
    case Word(w) =>
      TokenLenWord(w, rest);
    case Phrase(p) =>
      TokenLenPhrase(p, rest);
    assert s[..|Render(it)|] == Render(it) && s[|Render(it)|..] == rest;
  }

  /** Unquoting what an item renders to gives its text. */
  lemma UnquoteItem(it: Item)
    requires WellFormed(it)
    ensures Unquote(Render(it)) == TextOf(it)
  {
    match it
    case Word(w) =>
      UnquoteNone(w);
    case Phrase(p) =>
      var s := "\"" + p + "\"";
      UnquoteNone(p);
      UnquoteConcat("\"", p + "\"");
      UnquoteConcat(p, "\"");
      assert s == "\"" + (p + "\"");
  }

  lemma {:induction false} UnquoteNone(s: string)
    requires forall k | 0 <= k < |s| :: s[k] != '"'
    ensures Unquote(s) == s
    decreases |s|
  {
    if |s| > 0 {
      UnquoteNone(s[1..]);
    }
  }

  lemma {:induction false} UnquoteConcat(a: string, b: string)
    ensures Unquote(a + b) == Unquote(a) + Unquote(b)
    decreases |a|
  {
    if |a| == 0 {
      assert a + b == b;
    } else {
      assert (a + b)[1..] == a[1..] + b;
      UnquoteConcat(a[1..], b);
    }
  }

  /**
   * The query round trip: words and quoted phrases written out with single
   * spaces come back, quotes removed, as the words and phrases themselves,
   * so `people "new york"` gives `people` and `new york`.
   */
  lemma {:induction false} QueryTerms(items: seq<Item>)
    requires forall k | 0 <= k < |items| :: WellFormed(items[k])
    ensures UnquoteAll(Terms(Query(items))) == Texts(items)
    decreases |items|
  {
    if |items| == 1 {
      TermsItem(items[0], "");
      assert Render(items[0]) + "" == Render(items[0]);
      assert Terms("") == [];
      UnquoteItem(items[0]);
    } else if |items| > 1 {
      QueryTermsCons(items);
      assert forall k | 0 <= k < |items| - 1 :: items[1..][k] == items[k + 1];
      QueryTerms(items[1..]);
      UnquoteItem(items[0]);
      UnquoteAllCons(Render(items[0]), Terms(Query(items[1..])));
      assert Texts(items) == [TextOf(items[0])] + Texts(items[1..]);
    }
  }

  /** The first item of a longer query is its first term. */
  lemma QueryTermsCons(items: seq<Item>)
    requires |items| > 1 && WellFormed(items[0])
    ensures Terms(Query(items)) == [Render(items[0])] + Terms(Query(items[1..]))
  {
    var rest := Query(items[1..]);
    assert Query(items) == Render(items[0]) + (" " + rest);
    TermsItem(items[0], " " + rest);
    TermsSpace(rest);
  }

  lemma UnquoteAllCons(t: string, ts: seq<string>)
    ensures UnquoteAll([t] + ts) == [Unquote(t)] + UnquoteAll(ts)
  {
    assert ([t] + ts)[1..] == ts;
  }

  /** The example of the query box: `people "new york"`. */
  lemma PeopleNewYork()
    ensures UnquoteAll(Terms(Query([Word("people"), Phrase("new york")]))) == ["people", "new york"]
  {
    var items := [Word("people"), Phrase("new york")];
    assert WellFormed(items[0]) && WellFormed(items[1]);
    QueryTerms(items);
    assert items[1..] == [Phrase("new york")];
    assert Texts(items[1..]) == ["new york"];
  }

  /** A `"` with no partner is not part of any term. */
  lemma LoneQuoteDropped()
    ensures Terms("ab\"cd") == ["ab", "cd"]
  {
    var s := "ab\"cd";
    var t := s[3..];
    assert t == "cd";
    assert TokenLen(t[2..]) == 0;
    assert TokenLen(t) == 2;
    assert Terms(t[2..]) == [];
    assert t[..2] == t;
    assert Terms(t) == [t];
    assert QuoteAt(t) == None;
    assert TokenLen(s[2..]) == 0;
    assert s[2..][1..] == t;
    assert Terms(s[2..]) == Terms(t);
    assert TokenLen(s) == 2;
    assert Terms(s) == [s[..2]] + Terms(s[2..]);
    assert s[..2] == "ab";
    assert Terms(s) == ["ab"] + [t];
  }

  // ---------------------------------------------------------------- a row

  /** A column as the filter reads it: the field's name, its `filter` flag, and the row's value there. */
  datatype Cell = Cell(name: string, filter: bool, value: Value)

  /** What `filterAcceptsRow` reads of one source row: the photo's date, its Tagged value, and its cells. */
  datatype Row = Row(date: Option<Dates.Date>, tagged: Value, cells: seq<Cell>)

  /**
   * What the tag tree answers when the filter asks: `getCheckedTagDict(lower=True)`
   * as field name and tags, in the order the dictionary is walked, and
   * `getCheckedTagNames()`.
   */
  datatype Checked = Checked(byField: seq<(string, seq<string>)>, names: seq<string>)

  /** Whether the case-insensitive regular expression made from a pattern finds a match in a text. */
  type Finder = (string, string) -> bool

  /** `index.data().toString()`. */
  function CellString(v: Value): string {
    VariantToString(ToVariant(v))
  }

  /** `dataset[row, fieldName]`: the value in the first column of that name. */
  function Lookup(cells: seq<Cell>, name: string): (r: Option<Value>)
    ensures r.None? <==> forall c | 0 <= c < |cells| :: cells[c].name != name
    ensures r.Some? ==> exists c | 0 <= c < |cells| :: cells[c].name == name && cells[c].value == r.value
  {
    if |cells| == 0 then None
    else if cells[0].name == name then Some(cells[0].value)
    else
      var r := Lookup(cells[1..], name);
      assert forall c | 1 <= c < |cells| :: cells[1..][c - 1] == cells[c];
      r
  }

  /**
   * One field of the checked-tag dictionary: each tag, lower-cased, has to
   * occur in the lower-cased text of the field's cell. A missing field is a
   * ValueError (the container gives None for an unknown name, which
   * `field_by_name` refuses) and a cell that is not text an AttributeError
   * (no `lower`),
   * raised only when there is a tag to test.
   */
  function FieldTagsPass(cells: seq<Cell>, name: string, tags: seq<string>): (r: Result<bool>)
    ensures |tags| == 0 ==> r == Ok(true)
    ensures r.Err? ==> r.error == ValueError || r.error == AttributeError
    ensures r.Ok? && r.value <==>
      |tags| == 0
      || (Lookup(cells, name).Some? && Lookup(cells, name).value.Str?
          && forall k | 0 <= k < |tags| :: Text.Contains(Text.Lower(Lookup(cells, name).value.s), Text.Lower(tags[k])))
  {
    if |tags| == 0 then Ok(true)
    else match Lookup(cells, name)
      case None => Err(ValueError)
      case Some(v) =>
        if !v.Str? then Err(AttributeError)
        else Ok(forall k | 0 <= k < |tags| :: Text.Contains(Text.Lower(v.s), Text.Lower(tags[k])))
  }

  /** The checked-tag test, field after field; the first field that fails or raises decides. */
  function CheckedPass(cells: seq<Cell>, byField: seq<(string, seq<string>)>): (r: Result<bool>)
  {
    if |byField| == 0 then Ok(true)
    else
      var r := FieldTagsPass(cells, byField[0].0, byField[0].1);
      if r.Err? || !r.value then r else CheckedPass(cells, byField[1..])
  }

  /** The row passes the checked-tag test exactly when it passes for every field. */
  lemma {:induction false} CheckedPassAll(cells: seq<Cell>, byField: seq<(string, seq<string>)>)
    ensures CheckedPass(cells, byField) == Ok(true)
        <==> forall i | 0 <= i < |byField| :: FieldTagsPass(cells, byField[i].0, byField[i].1) == Ok(true)
  {
    if |byField| > 0 {
      CheckedPassAll(cells, byField[1..]);
      assert forall i | 1 <= i < |byField| :: byField[1..][i - 1] == byField[i];
    }
  }

  /** A pattern is found in the row when some column with the `filter` flag has a match. */
  predicate FoundIn(cells: seq<Cell>, pat: string, found: Finder) {
    exists c | 0 <= c < |cells| :: cells[c].filter && found(pat, CellString(cells[c].value))
  }

  /** `all(out)`: every pattern is found. */
  predicate AllFound(cells: seq<Cell>, pats: seq<string>, found: Finder) {
    forall k | 0 <= k < |pats| :: FoundIn(cells, pats[k], found)
  }

  /** More patterns let no more rows through. */
  lemma AllFoundPrefix(cells: seq<Cell>, ps: seq<string>, qs: seq<string>, found: Finder)
    requires AllFound(cells, ps + qs, found)
    ensures AllFound(cells, ps, found)
  {
    forall k | 0 <= k < |ps|
      ensures FoundIn(cells, ps[k], found)
    {
      assert (ps + qs)[k] == ps[k];
    }
  }

  /** A row with no filtered column matches no pattern at all. */
  lemma NoFilterColumn(cells: seq<Cell>, pats: seq<string>, found: Finder)
    requires forall c | 0 <= c < |cells| :: !cells[c].filter
    ensures AllFound(cells, pats, found) <==> |pats| == 0
  {
    if |pats| > 0 {
      assert !FoundIn(cells, pats[0], found);
    }
  }

  /** The patterns: the query's terms, then the checked tag names when a tag tree is set, quotes removed. */
  function Patterns(query: string, hasList: bool, checked: Checked): (r: seq<string>)
    ensures |r| == |Terms(query)| + (if hasList then |checked.names| else 0)
  {
    UnquoteAll(Terms(query) + if hasList then checked.names else [])
  }

  /**
   * The matching loop of `filterAcceptsRow`: for each pattern the filtered
   * columns are tried in order until one has a match, and the row passes
   * when every pattern found one.
   */
  method MatchAll(cells: seq<Cell>, pats: seq<string>, found: Finder) returns (ok: bool)
    ensures ok == AllFound(cells, pats, found)
  {
    var out := seq(|pats|, _ => false);
    for k := 0 to |pats|
      invariant |out| == |pats|
      invariant forall j | 0 <= j < k :: out[j] == FoundIn(cells, pats[j], found)
      invariant forall j | k <= j < |pats| :: !out[j]
    {
      var c := 0;
      while c < |cells|
        invariant 0 <= c <= |cells| && |out| == |pats|
        invariant forall j | 0 <= j < k :: out[j] == FoundIn(cells, pats[j], found)
        invariant forall j | k <= j < |pats| :: !out[j]
        invariant forall e | 0 <= e < c :: !(cells[e].filter && found(pats[k], CellString(cells[e].value)))
      {
        if !cells[c].filter {
          c := c + 1;
          continue;
        }
        if found(pats[k], CellString(cells[c].value)) {
          out := out[k := true];
          break;
        }
        c := c + 1;
      }
    }
    ok := forall j | 0 <= j < |out| :: out[j];
  }

  /** The checked-tag loop of `filterAcceptsRow`, the field's cell read for each tag. */
  method CheckTags(cells: seq<Cell>, byField: seq<(string, seq<string>)>) returns (r: Result<bool>)
    ensures r == CheckedPass(cells, byField)
  {
    for i := 0 to |byField|
      invariant CheckedPass(cells, byField) == CheckedPass(cells, byField[i..])
    {
      var (name, tags) := byField[i];
      assert byField[i..][0] == byField[i] && byField[i..][1..] == byField[i + 1..];
      for j := 0 to |tags|
        invariant j > 0 ==> Lookup(cells, name).Some? && Lookup(cells, name).value.Str?
        invariant forall q | 0 <= q < j :: Text.Contains(Text.Lower(Lookup(cells, name).value.s), Text.Lower(tags[q]))
      {
        var tagStr := Lookup(cells, name);
        if tagStr.None? {
          return Err(ValueError);
        }
        if !tagStr.value.Str? {
          return Err(AttributeError);
        }
        if !Text.Find(Text.Lower(tagStr.value.s), Text.Lower(tags[j])) {
          return Ok(false);
        }
      }
    }
    return Ok(true);
  }

  // -------------------------------------------------------- the proxy model

  /** `AlbumSortFilterModel`'s filter settings, each changed by its setter. */
  class SortFilter {
    var fromDate: Dates.Date
    var toDate: Dates.Date
    var dateFilter: bool
    var dateBetween: bool
    var dateFilterType: int
    var hideTagged: bool
    var hasFilterList: bool

    /** The settings a new proxy starts with: 1 January of years 1 and 9999, date filter off, range mode, day resolution. */
    constructor ()
      ensures fromDate == Dates.Date(1, 1, 1) && toDate == Dates.Date(9999, 1, 1)
      ensures !dateFilter && dateBetween && dateFilterType == DayFilter && !hideTagged && !hasFilterList
    {
      fromDate := Dates.Date(1, 1, 1);
      toDate := Dates.Date(9999, 1, 1);
      dateFilter := false;
      dateBetween := true;
      dateFilterType := DayFilter;
      hideTagged := false;
      hasFilterList := false;
    }

    /** `setDateFilterType(filt)`: anything but the three resolutions is a ValueError and changes nothing. */
    method SetDateFilterType(filt: int) returns (r: Result<()>)
      modifies this`dateFilterType
      ensures filt in {YearFilter, MonthFilter, DayFilter} ==> r.Ok? && dateFilterType == filt
      ensures filt !in {YearFilter, MonthFilter, DayFilter} ==> r == Err(ValueError) && dateFilterType == old(dateFilterType)
    {
      if filt != YearFilter && filt != MonthFilter && filt != DayFilter {
        return Err(ValueError);
      }
      dateFilterType := filt;
      r := Ok(());
    }

    /** `setDateBetween(value)`: range mode on or off. */
    method SetDateBetween(value: bool)
      modifies this`dateBetween
      ensures dateBetween == value
    {
      dateBetween := value;
    }

    /** `on_hideTagged(checked)`. */
    method OnHideTagged(checked: bool)
      modifies this`hideTagged
      ensures hideTagged == checked
    {
      hideTagged := checked;
    }

    /** `setDateFilterStatus(status)`: the date test on or off. */
    method SetDateFilterStatus(status: bool)
      modifies this`dateFilter
      ensures dateFilter == status
    {
      dateFilter := status;
    }

    /** `setFromDate(date)`. */
    method SetFromDate(date: Dates.Date)
      modifies this`fromDate
      ensures fromDate == date
    {
      fromDate := date;
    }

    /** `setToDate(date)`. */
    method SetToDate(date: Dates.Date)
      modifies this`toDate
      ensures toDate == date
    {
      toDate := date;
    }

    /** `setFilterList(treeView)`: from now on the tag tree takes part in the filter. */
    method SetFilterList()
      modifies this`hasFilterList
      ensures hasFilterList
    {
      hasFilterList := true;
    }

    /**
     * `filterAcceptsRow(row)` with the query `query` and the tag tree
     * answering `checked`: the date test, then the hide-tagged test, then
     * the checked tags (which may raise), then the patterns.
     */
    function Verdict(row: Row, query: string, checked: Checked, found: Finder): Result<bool>
      reads this
    {
      if !DatePasses(row.date, dateFilter, dateBetween, dateFilterType, fromDate, toDate) then Ok(false)
      else if hideTagged && Truthy(row.tagged) then Ok(false)
      else
        var c := if hasFilterList then CheckedPass(row.cells, checked.byField) else Ok(true);
        if c.Err? then c
        else if !c.value then Ok(false)
        else Ok(AllFound(row.cells, Patterns(query, hasFilterList, checked), found))
    }

    /** The method as the source runs it, with its loops. */
    method FilterAcceptsRow(row: Row, query: string, checked: Checked, found: Finder) returns (r: Result<bool>)
      ensures r == Verdict(row, query, checked, found)
    {
      if !DatePasses(row.date, dateFilter, dateBetween, dateFilterType, fromDate, toDate) {
        return Ok(false);
      }
      if hideTagged && Truthy(row.tagged) {
        return Ok(false);
      }
      if hasFilterList {
        var c := CheckTags(row.cells, checked.byField);
        if c.Err? {
          return c;
        }
        if !c.value {
          return Ok(false);
        }
      }
      var patterns := Terms(query);
      if hasFilterList {
        patterns := patterns + checked.names;
      } else {
        assert patterns + [] == patterns;
      }
      var ok := MatchAll(row.cells, UnquoteAll(patterns), found);
      return Ok(ok);
    }

    /**
     * A row is shown exactly when it passes the date test, is not a tagged
     * row hidden by the switch, has every checked tag (when a tag tree is
     * set), and has every pattern in some filtered column.
     */
    lemma VerdictShows(row: Row, query: string, checked: Checked, found: Finder)
      ensures Verdict(row, query, checked, found) == Ok(true)
        <==> DatePasses(row.date, dateFilter, dateBetween, dateFilterType, fromDate, toDate)
             && !(hideTagged && Truthy(row.tagged))
             && (hasFilterList ==> forall i | 0 <= i < |checked.byField| ::
                   FieldTagsPass(row.cells, checked.byField[i].0, checked.byField[i].1) == Ok(true))
             && AllFound(row.cells, Patterns(query, hasFilterList, checked), found)
    {
      CheckedPassAll(row.cells, checked.byField);
    }

    /** With the switch on, a tagged row is never shown. */
    lemma HideTaggedHides(row: Row, query: string, checked: Checked, found: Finder)
      requires hideTagged && Truthy(row.tagged)
      ensures Verdict(row, query, checked, found) == Ok(false)
    {
    }

    /** With no filtered column, a row is shown only when there is no pattern at all. */
    lemma NoFilterColumnHides(row: Row, query: string, checked: Checked, found: Finder)
      requires forall c | 0 <= c < |row.cells| :: !row.cells[c].filter
      requires |Terms(query)| > 0
      ensures Verdict(row, query, checked, found) != Ok(true)
    {
      NoFilterColumn(row.cells, Patterns(query, hasFilterList, checked), found);
    }
  }
}
