/** A prediction-market record as the dashboard receives it, and the
    per-record display rules of the table row and the top-markets list:
    status derivation, the volume / bid / ask fallbacks and the truncated
    question text. */
module Markets {
  import opened Js

  /** The nested `raw_data` object; only `volumeNum` is read. */
  datatype RawData = RawData(volumeNum: JsValue)

  /** One market record. Numeric fields and flags keep their JavaScript value,
      so a field that is `null` differs from one that is `undefined`. */
  datatype Market = Market(
    id: string,
    question: string,
    category: Option<string>,
    endDate: Option<string>,
    active: JsValue,
    closed: JsValue,
    volume24h: JsValue,
    rawData: Option<RawData>,
    bestBid: JsValue,
    bestAsk: JsValue)

  datatype Status = Closed | Active | Inactive

  /** The number literal `1` that the flags are compared against with `===`. */
  const One: JsValue := Num(1.0)

  /** Status badge: a closed flag equal to 1 wins, then an active flag equal to 1;
      anything else (a boolean `true`, 2, null, missing) counts as not set. */
  function StatusOf(m: Market): (s: Status)
    ensures s == Closed <==> m.closed == One
    ensures s == Active <==> m.closed != One && m.active == One
    ensures s == Inactive <==> m.closed != One && m.active != One
  {
    if m.closed == One then Closed
    else if m.active == One then Active
    else Inactive
  }

  /** The badge text shown for a status. */
  function StatusLabel(s: Status): (text: string)
    ensures text != ""
  {
    match s
    case Closed => "Closed"
    case Active => "Active"
    case Inactive => "Inactive"
  }

  /** The three badges read differently, so the badge text tells the status. */
  lemma StatusLabelInjective(s: Status, t: Status)
    requires StatusLabel(s) == StatusLabel(t)
    ensures s == t
  {
  }

  /** Flags that are booleans rather than the number 1 never give Closed or Active. */
  lemma BooleanFlagsAreInactive(m: Market)
    requires m.closed.Bool? && m.active.Bool?
    ensures StatusOf(m) == Inactive
  {
  }

  // ---------------------------------------------------------------------------
  // Fallbacks for missing numbers

  /** `v !== null ? v : d`: only `null` is replaced; `undefined` passes through. */
  function NonNullOr(v: JsValue, d: real): (r: JsValue)
    ensures r != Null
    ensures v != Null ==> r == v
    ensures v == Null ==> r == Num(d)
  {
    if v != Null then v else Num(d)
  }

  /** `m.raw_data?.volumeNum` is truthy. */
  predicate HasRawVolume(m: Market) {
    m.rawData.Some? && Truthy(m.rawData.value.volumeNum)
  }

  /** `m.raw_data?.volumeNum || 0`. */
  function RawVolume(m: Market): (v: JsValue)
    ensures Truthy(v) || v == Num(0.0)
  {
    if HasRawVolume(m) then m.rawData.value.volumeNum else Num(0.0)
  }

  /** The volume shown for a record: its own 24-hour volume unless that is null,
      then the raw volume when truthy, else 0. */
  function DisplayVolume(m: Market): (v: JsValue)
    ensures v != Null
    ensures m.volume24h != Null ==> v == m.volume24h
    ensures m.volume24h == Null && HasRawVolume(m) ==> v == m.rawData.value.volumeNum
    ensures m.volume24h == Null && !HasRawVolume(m) ==> v == Num(0.0)
  {
    if m.volume24h != Null then m.volume24h else RawVolume(m)
  }

  /** The bid shown for a record: a null bid becomes 0. */
  function DisplayBid(m: Market): (v: JsValue)
    ensures v != Null
    ensures m.bestBid != Null ==> v == m.bestBid
    ensures m.bestBid == Null ==> v == Num(0.0)
  {
    NonNullOr(m.bestBid, 0.0)
  }

  /** The ask shown for a record: a null ask becomes 1. */
  function DisplayAsk(m: Market): (v: JsValue)
    ensures v != Null
    ensures m.bestAsk != Null ==> v == m.bestAsk
    ensures m.bestAsk == Null ==> v == One
  {
    NonNullOr(m.bestAsk, 1.0)
  }

  // ---------------------------------------------------------------------------
  // Table row

  /** The data one table row shows (the HTML around it is not modelled). */
  datatype Row = Row(
    question: string,
    id: string,
    endDate: string,
    category: string,
    volume: JsValue,
    bid: JsValue,
    ask: JsValue,
    status: Status,
    badge: string)

  /** `renderMarketRow`: the row for one record. */
  function RenderRow(m: Market): (r: Row)
    ensures r.question == m.question && r.id == m.id
    ensures r.category != "" && r.endDate != ""
    ensures Present(m.category) ==> r.category == m.category.value
    ensures !Present(m.category) ==> r.category == "Uncategorized"
    ensures Present(m.endDate) ==> r.endDate == m.endDate.value
    ensures !Present(m.endDate) ==> r.endDate == "N/A"
    ensures r.volume == DisplayVolume(m) && r.bid == DisplayBid(m) && r.ask == DisplayAsk(m)
    ensures r.volume != Null && r.bid != Null && r.ask != Null
    ensures r.status == StatusOf(m) && r.badge == StatusLabel(r.status)
  {
    var status := StatusOf(m);
    Row(m.question, m.id, OrElse(m.endDate, "N/A"), OrElse(m.category, "Uncategorized"),
        DisplayVolume(m), DisplayBid(m), DisplayAsk(m), status, StatusLabel(status))
  }

  // ---------------------------------------------------------------------------
  // Top-markets list

  const TopCount: nat := 5
  const TitleLimit: nat := 40
  const Ellipsis: string := "..."

  function Min(a: nat, b: nat): nat {
    if a < b then a else b
  }

  /** `q.substring(0, 40)` followed by `"..."` when the question is longer than 40. */
  function ShortQuestion(q: string): (r: string)
    ensures |q| <= TitleLimit ==> r == q
    ensures |q| > TitleLimit ==> r == q[..TitleLimit] + Ellipsis
    ensures |r| <= TitleLimit + |Ellipsis|
    ensures Min(|q|, TitleLimit) <= |r| && r[..Min(|q|, TitleLimit)] == q[..Min(|q|, TitleLimit)]
  {
    q[..Min(|q|, TitleLimit)] + (if |q| > TitleLimit then Ellipsis else "")
  }

  /** Shortening an already shortened question changes nothing. */
  lemma ShortQuestionIdempotent(q: string)
    ensures ShortQuestion(ShortQuestion(q)) == ShortQuestion(q)
  {
  }

  /** One entry of the top-markets list. The category is shown as it is, so a
      missing one is not replaced by a default label. */
  datatype TopEntry = TopEntry(title: string, category: Option<string>, volume: JsValue)

  function TopEntryOf(m: Market): (e: TopEntry)
    ensures e.title == ShortQuestion(m.question)
    ensures |e.title| <= TitleLimit + |Ellipsis|
    ensures Min(|m.question|, TitleLimit) <= |e.title|
    ensures e.title[..Min(|m.question|, TitleLimit)] == m.question[..Min(|m.question|, TitleLimit)]
    ensures e.category == m.category && e.volume == DisplayVolume(m)
  {
    TopEntry(ShortQuestion(m.question), m.category, DisplayVolume(m))
  }

  /** `renderTopMarkets`: the first five records, in order, one entry each. */
  method RenderTopMarkets(markets: seq<Market>) returns (entries: seq<TopEntry>)
    ensures |entries| == Min(|markets|, TopCount)
    ensures forall k :: 0 <= k < |entries| ==> entries[k] == TopEntryOf(markets[k])
    ensures forall k :: 0 <= k < |entries| ==> |entries[k].title| <= TitleLimit + |Ellipsis|
  {
    var top := markets[..Min(|markets|, TopCount)];
    entries := [];
    var i := 0;
    while i < |top|
      invariant 0 <= i <= |top|
      invariant |entries| == i
      invariant forall k :: 0 <= k < i ==> entries[k] == TopEntryOf(top[k])
    {
      entries := entries + [TopEntryOf(top[i])];
      i := i + 1;
    }
  }
}
