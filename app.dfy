/** The market store: the list of records from the last successful fetch and
    the distinct categories derived from it, the loader that replaces them,
    and the two views drawn from them (the category dropdown and the
    filtered table with its count label). */
module App {
  import opened Js
  import opened Markets
  import opened Filtering

  // ---------------------------------------------------------------------------
  // The fetch result, as the loader sees it

  /** The decoded body object; `markets` is None when the field is missing or null. */
  datatype Payload = Payload(markets: Option<seq<Market>>)

  /** What `fetch` and `response.json()` produce: a network failure, or an HTTP
      status with a body that decoded to an object (Some), or that did not
      decode or decoded to `null` (None). An undecodable body makes
      `response.json()` throw, and a body that decodes to `null` makes the read
      of `data.markets` throw; either way the store is not touched. */
  datatype Response = NetworkFailure | HttpResponse(status: nat, body: Option<Payload>)

  datatype LoadError = FetchFailed | HttpError(status: nat) | BadBody

  datatype LoadOutcome = Loaded | Failed(error: LoadError)

  /** `response.ok`: a status in the range 200-299. */
  predicate IsOk(status: nat)
    ensures IsOk(status) ==> 200 <= status < 300
    ensures status == 200 ==> IsOk(status)
  {
    200 <= status <= 299
  }

  /** `data.markets || []`. */
  function MarketsOf(p: Payload): (ms: seq<Market>)
    ensures p.markets.None? ==> ms == []
    ensures p.markets.Some? ==> ms == p.markets.value
  {
    if p.markets.Some? then p.markets.value else []
  }

  /** The message of the error thrown for a non-ok status: `HTTP ${status}`. */
  function HttpErrorMessage(status: nat): (msg: string)
    ensures |msg| > 5 && msg[..5] == "HTTP " && IsDigits(msg[5..])
    ensures ParseNat(msg[5..]) == status
    ensures msg == "HTTP " + NatToString(status)
    ensures status >= 10 ==> msg[5] != '0'
  {
    var digits := NatToString(status);
    ParseNatToString(status);
    assert ("HTTP " + digits)[5..] == digits;
    "HTTP " + digits
  }

  // ---------------------------------------------------------------------------
  // Categories

  /** `new Set(markets.map(m => m.category).filter(Boolean))`, kept as a
      sequence in insertion order: each truthy category once, where it first
      occurs. */
  function Categories(ms: seq<Market>): (cats: seq<string>)
    ensures |cats| <= |ms|
    decreases |ms|
  {
    if ms == [] then []
    else
      var prev := Categories(ms[..|ms| - 1]);
      var c := ms[|ms| - 1].category;
      if Present(c) && c.value !in prev then prev + [c.value] else prev
  }

  predicate Distinct(s: seq<string>) {
    forall i, j :: 0 <= i < j < |s| ==> s[i] != s[j]
  }

  /** The categories are exactly the non-empty category values of the records. */
  lemma {:induction false} CategoriesExact(ms: seq<Market>)
    ensures forall c :: c in Categories(ms) <==> c != "" && exists m :: m in ms && m.category == Some(c)
    decreases |ms|
  {
    if ms != [] {
      var init, last := ms[..|ms| - 1], ms[|ms| - 1];
      CategoriesExact(init);
      assert ms == init + [last];
      forall c | c != "" && exists m :: m in ms && m.category == Some(c)
        ensures c in Categories(ms)
      {
        var m :| m in ms && m.category == Some(c);
        if m != last {
          assert m in init;
        }
      }
    }
  }

  /** No category is listed twice. */
  lemma {:induction false} CategoriesDistinct(ms: seq<Market>)
    ensures Distinct(Categories(ms))
    decreases |ms|
  {
    if ms != [] {
      CategoriesDistinct(ms[..|ms| - 1]);
    }
  }

  /** No listed category is the empty string. */
  lemma {:induction false} CategoriesNonEmpty(ms: seq<Market>)
    ensures forall k :: 0 <= k < |Categories(ms)| ==> Categories(ms)[k] != ""
    decreases |ms|
  {
    if ms != [] {
      CategoriesNonEmpty(ms[..|ms| - 1]);
    }
  }

  /** The index of the first record whose category is `c`, or `|ms|` when none is. */
  function FirstIndex(ms: seq<Market>, c: string): (k: nat)
    ensures k <= |ms|
    ensures k < |ms| ==> ms[k].category == Some(c)
    ensures forall j :: 0 <= j < k ==> ms[j].category != Some(c)
    decreases |ms|
  {
    if ms == [] then 0
    else if ms[0].category == Some(c) then 0
    else
      var rest := FirstIndex(ms[1..], c);
      assert forall j :: 1 <= j <= rest ==> ms[j] == ms[1..][j - 1];
      1 + rest
  }

  /** Appending a record leaves every earlier first occurrence where it was, and
      makes the new record the first occurrence of a category not seen before. */
  lemma FirstIndexAppend(init: seq<Market>, last: Market, c: string)
    ensures FirstIndex(init, c) < |init| ==> FirstIndex(init + [last], c) == FirstIndex(init, c)
    ensures FirstIndex(init, c) == |init| && last.category == Some(c) ==> FirstIndex(init + [last], c) == |init|
  {
    var ms := init + [last];
    var k, k' := FirstIndex(ms, c), FirstIndex(init, c);
    if k' < |init| {
      assert ms[k'] == init[k'];
      assert k <= k';
      assert ms[k] == init[k];
    } else if last.category == Some(c) {
      assert ms[|init|] == last;
      assert forall j :: 0 <= j < |init| ==> ms[j] == init[j];
    }
  }

  /** The categories are listed in the order of their first occurrence in the
      records, as a `Set` iterates in insertion order. */
  lemma {:induction false} CategoriesOrder(ms: seq<Market>)
    ensures forall i :: 0 <= i < |Categories(ms)| ==> FirstIndex(ms, Categories(ms)[i]) < |ms|
    ensures forall i, j :: 0 <= i < j < |Categories(ms)| ==>
              FirstIndex(ms, Categories(ms)[i]) < FirstIndex(ms, Categories(ms)[j])
    decreases |ms|
  {
    if ms != [] {
      var init, last := ms[..|ms| - 1], ms[|ms| - 1];
      CategoriesOrder(init);
      CategoriesExact(init);
      assert ms == init + [last];
      var prev := Categories(init);
      forall i | 0 <= i < |prev|
        ensures FirstIndex(ms, prev[i]) == FirstIndex(init, prev[i])
      {
        FirstIndexAppend(init, last, prev[i]);
      }
      var c := last.category;
      if Present(c) && c.value !in prev {
        forall j | 0 <= j < |init|
          ensures init[j].category != Some(c.value)
        {
          assert init[j] in init;
        }
        FirstIndexAppend(init, last, c.value);
      }
    }
  }

  /** Builds the category set by one pass over the records. */
  method CollectCategories(ms: seq<Market>) returns (cats: seq<string>)
    ensures cats == Categories(ms)
  {
    cats := [];
    var i := 0;
    while i < |ms|
      invariant 0 <= i <= |ms|
      invariant cats == Categories(ms[..i])
    {
      var c := ms[i].category;
      assert ms[..i + 1][..i] == ms[..i];
      if c.Some? && c.value != "" && c.value !in cats {
        cats := cats + [c.value];
      }
      i := i + 1;
    }
    assert ms[..|ms|] == ms;
  }

  // ---------------------------------------------------------------------------
  // The category dropdown

  datatype SelectOption = SelectOption(value: string, text: string)

  /** The sentinel option that stands for "no category filter". */
  const AllCategories: SelectOption := SelectOption("", "All Categories")

  // ---------------------------------------------------------------------------
  // The dashboard state

  class Dashboard {
    var allMarkets: seq<Market>
    var categories: seq<string>

    /** The category set is always the one derived from the current records. */
    ghost predicate Valid()
      reads this
    {
      categories == Categories(allMarkets)
    }

    /** The state at page load: no records, no categories. */
    constructor ()
      ensures Valid()
      ensures allMarkets == [] && categories == []
    {
      allMarkets := [];
      categories := [];
    }

    /** `loadMarkets`: a failed fetch, a non-ok status or an undecodable body
        leaves the store as it was; otherwise the records are replaced, not
        merged, and the categories are rebuilt from them. */
    method Load(response: Response) returns (outcome: LoadOutcome)
      requires Valid()
      modifies this
      ensures Valid()
      ensures response.NetworkFailure? ==> outcome == Failed(FetchFailed)
      ensures response.HttpResponse? && !IsOk(response.status) ==> outcome == Failed(HttpError(response.status))
      ensures response.HttpResponse? && IsOk(response.status) && response.body.None? ==> outcome == Failed(BadBody)
      ensures outcome.Failed? ==> allMarkets == old(allMarkets) && categories == old(categories)
      ensures outcome == Loaded <==> response.HttpResponse? && IsOk(response.status) && response.body.Some?
      ensures outcome == Loaded ==> allMarkets == MarketsOf(response.body.value)
      ensures outcome == Loaded ==> categories == Categories(allMarkets)
    {
      if response.NetworkFailure? {
        return Failed(FetchFailed);
      }
      if !IsOk(response.status) {
        return Failed(HttpError(response.status));
      }
      if response.body.None? {
        return Failed(BadBody);
      }
      allMarkets := MarketsOf(response.body.value);
      categories := CollectCategories(allMarkets);
      outcome := Loaded;
    }

    /** `populateCategoryFilter`: the sentinel first, then one option per
        category in set order, skipping falsy values. */
    method PopulateCategoryFilter() returns (options: seq<SelectOption>)
      requires Valid()
      ensures |options| == |categories| + 1
      ensures options[0] == AllCategories
      ensures forall k :: 0 <= k < |categories| ==> options[k + 1] == SelectOption(categories[k], categories[k])
      ensures forall k :: 1 <= k < |options| ==> options[k].value != ""
    {
      CategoriesNonEmpty(allMarkets);
      options := [AllCategories];
      var i := 0;
      while i < |categories|
        invariant 0 <= i <= |categories|
        invariant forall k :: 0 <= k < |categories| ==> categories[k] != ""
        invariant |options| == i + 1 && options[0] == AllCategories
        invariant forall k :: 0 <= k < i ==> options[k + 1] == SelectOption(categories[k], categories[k])
      {
        var cat := categories[i];
        if cat != "" {
          options := options + [SelectOption(cat, cat)];
        }
        i := i + 1;
      }
      assert forall k :: 1 <= k < |options| ==> options[k] == SelectOption(categories[k - 1], categories[k - 1]);
    }

    /** `filterMarkets`: applies the category filter when a category is
        selected, then the search filter when the lower-cased search text is
        non-empty; renders one row per remaining record and the count label. */
    method FilterMarkets(selectedCategory: string, searchInput: string)
      returns (filtered: seq<Market>, rows: seq<Row>, countText: string)
      ensures filtered == View(allMarkets, selectedCategory, searchInput)
      ensures |rows| == |filtered|
      ensures forall k :: 0 <= k < |rows| ==> rows[k] == RenderRow(filtered[k])
      ensures countText == CountLabel(|filtered|)
    {
      var searchText := Lower(searchInput);
      filtered := allMarkets;
      if selectedCategory != "" {
        filtered := KeepCategory(filtered, selectedCategory);
      } else {
        NoFiltersShowAll(allMarkets);
      }
      ghost var byCategory := filtered;
      if searchText != "" {
        filtered := KeepMatching(filtered, searchInput);
      } else {
        ViewOfPassing(byCategory, "", searchInput);
      }
      ViewCompose(allMarkets, selectedCategory, searchInput);
      rows := RenderRows(filtered);
      countText := CountLabel(|filtered|);
    }

    /** The render that follows a successful load: the dropdown is rebuilt
        (which leaves the sentinel selected), the table is filtered with no
        category and the current search text, and the top list is drawn from
        the whole store, whatever the filters. */
    method RenderAfterLoad(searchInput: string) returns (screen: Screen)
      requires Valid()
      ensures |screen.options| == |categories| + 1 && screen.options[0] == AllCategories
      ensures forall k :: 0 <= k < |categories| ==> screen.options[k + 1] == SelectOption(categories[k], categories[k])
      ensures screen.shown == View(allMarkets, "", searchInput)
      ensures searchInput == "" ==> screen.shown == allMarkets
      ensures |screen.rows| == |screen.shown|
      ensures forall k :: 0 <= k < |screen.rows| ==> screen.rows[k] == RenderRow(screen.shown[k])
      ensures screen.countText == CountLabel(|screen.shown|)
      ensures |screen.top| == Min(|allMarkets|, TopCount)
      ensures forall k :: 0 <= k < |screen.top| ==> screen.top[k] == TopEntryOf(allMarkets[k])
    {
      var options := PopulateCategoryFilter();
      var shown, rows, countText := FilterMarkets(AllCategories.value, searchInput);
      var top := RenderTopMarkets(allMarkets);
      NoFiltersShowAll(allMarkets);
      screen := Screen(options, shown, rows, countText, top);
    }
  }

  /** What the page shows after a render. */
  datatype Screen = Screen(
    options: seq<SelectOption>,
    shown: seq<Market>,
    rows: seq<Row>,
    countText: string,
    top: seq<TopEntry>)

  /** `markets.filter(m => m.category === selected)` for a non-empty selection. */
  method KeepCategory(ms: seq<Market>, selected: string) returns (kept: seq<Market>)
    requires selected != ""
    ensures kept == View(ms, selected, "")
  {
    kept := [];
    var i := 0;
    while i < |ms|
      invariant 0 <= i <= |ms|
      invariant kept == View(ms[..i], selected, "")
    {
      assert ms[..i + 1][..i] == ms[..i];
      if ms[i].category == Some(selected) {
        kept := kept + [ms[i]];
      }
      i := i + 1;
    }
    assert ms[..|ms|] == ms;
  }

  /** The search filter of `filterMarkets` for a non-empty search text: keeps the
      records whose question or truthy category contains it, ignoring case. */
  method KeepMatching(ms: seq<Market>, searchInput: string) returns (kept: seq<Market>)
    requires searchInput != ""
    ensures kept == View(ms, "", searchInput)
  {
    var searchText := Lower(searchInput);
    kept := [];
    var i := 0;
    while i < |ms|
      invariant 0 <= i <= |ms|
      invariant kept == View(ms[..i], "", searchInput)
    {
      assert ms[..i + 1][..i] == ms[..i];
      if SearchHit(ms[i], searchText) {
        kept := kept + [ms[i]];
      }
      i := i + 1;
    }
    assert ms[..|ms|] == ms;
  }

  /** `filtered.forEach(m => tbody.appendChild(renderMarketRow(m)))`: one row per record, in order. */
  method RenderRows(ms: seq<Market>) returns (rows: seq<Row>)
    ensures |rows| == |ms|
    ensures forall k :: 0 <= k < |rows| ==> rows[k] == RenderRow(ms[k])
  {
    rows := [];
    var i := 0;
    while i < |ms|
      invariant 0 <= i <= |ms|
      invariant |rows| == i
      invariant forall k :: 0 <= k < i ==> rows[k] == RenderRow(ms[k])
    {
      rows := rows + [RenderRow(ms[i])];
      i := i + 1;
    }
  }

  /** The first load of the page for a one-record response, followed by the
      initial render with the dropdown back on its sentinel and an empty search box. */
  method FirstLoadScenario() {
    var politics := Market("m1", "Will X happen?", Some("Politics"), None,
                           One, Num(0.0), Num(1000.0), None, Num(0.3), Num(0.35));
    assert [politics][..0] == [];
    var d := new Dashboard();
    var outcome := d.Load(HttpResponse(200, Some(Payload(Some([politics])))));
    assert outcome == Loaded;
    assert d.allMarkets == [politics];
    assert d.categories == ["Politics"];
    var options := d.PopulateCategoryFilter();
    assert d.categories[0] == "Politics";
    assert |options| == 2 && options[1] == SelectOption("Politics", "Politics");
    assert options == [AllCategories, SelectOption("Politics", "Politics")];
    var filtered, rows, countText := d.FilterMarkets("", "");
    NoFiltersShowAll([politics]);
    assert filtered == [politics];
    assert rows[0].status == Active && rows[0].badge == "Active";
    assert countText == "1 market";
    var failed := d.Load(HttpResponse(500, None));
    assert failed == Failed(HttpError(500));
    assert d.allMarkets == [politics];
  }
}
