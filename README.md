# Polymarket dashboard: market store and filter engine

This project models the core of a browser dashboard for prediction markets
(`app.js`). The dashboard fetches a list of market records, keeps them in a
process-wide store together with the distinct categories found in them, and
draws three views of that store:

- a category dropdown,
- a table filtered by the selected category and a free-text search, with a count label under it,
- a "top markets" list of the first five records.

The model has four modules:

- `Js` (`js.dfy`): the JavaScript values a decoded record field can hold
  (`null`, `undefined`, booleans, numbers, strings) and their truthiness.
  It also holds ASCII lower-casing, `String.prototype.includes`, and the decimal
  rendering of a count, with its inverse `ParseNat`.
- `Markets` (`markets.dfy`): the market record and the per-record display rules.
  These are status derivation, the volume/bid/ask fallbacks, the table row,
  the question truncation and the top-markets list.
- `Filtering` (`filtering.dfy`): the reference definition of the filtered
  view (`View`, the records passing both filters, in store order), the
  lemmas about it, and the count label.
- `App` (`app.dfy`): the `Dashboard` class with the store's two fields
  `allMarkets` and `categories`. Its methods are `Load` (the state transition
  of `loadMarkets`), `PopulateCategoryFilter`, `FilterMarkets` and
  `RenderAfterLoad`. The module also holds the loop helpers those methods use.

The category set is a JavaScript `Set`, which iterates in insertion order. It is
modelled as a duplicate-free sequence in first-occurrence order (`Categories`,
whose order `App.CategoriesOrder` states), so the dropdown order is modelled too.

Two details of the source decide what the model shows:

- The source compares the status flags with `=== 1`. A record with `closed: true, active: true`
  is therefore shown as Inactive (`Markets.BooleanFlagsAreInactive`). Only the number 1 sets a flag.
- The volume, bid and ask fallbacks test `!== null`. A field that is `undefined`
  (absent) passes through unchanged rather than being replaced by the default.

`App.FirstLoadScenario` is a worked example whose assertions are proved. It
loads a one-record response into a fresh store and then draws the first
screen: the dropdown with its sentinel and one category, the full table with
an Active badge, and the label "1 market". It then shows that a later HTTP 500
response leaves the store as it was.

## Model

| member | source | states |
|---|---|---|
| `Markets.StatusOf` | app.js:76-86 | Closed exactly when `closed` is the number 1, whatever `active` is. Otherwise Active exactly when `active` is the number 1. Inactive in every other case. |
| `Markets.StatusLabel` | app.js:81-85 | The badge text of a status ("Closed", "Active", "Inactive") is never empty. |
| `Markets.StatusLabelInjective` | app.js:81-85 | Different statuses get different badge texts. |
| `Markets.BooleanFlagsAreInactive` | app.js:76-77 | Boolean flags (even `true`, `true`) never give Closed or Active. |
| `Markets.DisplayVolume` | app.js:73 | The shown volume is never null. A non-null `volume24h` passes through unchanged. A null one becomes `raw_data.volumeNum` when that is truthy, else 0. |
| `Markets.DisplayBid` | app.js:74 | The shown bid is never null. A non-null bid passes through unchanged. A null bid becomes 0. |
| `Markets.DisplayAsk` | app.js:75 | The shown ask is never null. A non-null ask passes through unchanged. A null ask becomes 1. |
| `Markets.RenderRow` | app.js:71-101 | A row keeps the question and id. Its category label is the category when truthy, else "Uncategorized". Its end-date label is the end date when truthy, else "N/A". Both labels are never empty. Volume, bid and ask are exactly `DisplayVolume`, `DisplayBid` and `DisplayAsk`, so never null. The status is `StatusOf` and the badge is its `StatusLabel`. |
| `Markets.ShortQuestion` | app.js:116 | A question of at most 40 characters is shown whole. A longer one is shown as its first 40 characters followed by "...". The shown text is never longer than 43. |
| `Markets.ShortQuestionIdempotent` | app.js:116 | Shortening an already shortened question changes nothing. |
| `Markets.RenderTopMarkets` | app.js:106-123 | The top list has min(5, n) entries. Entry k is `TopEntryOf` record k, in order: its title is `ShortQuestion` of the question, with the raw category and the shown volume. Every title is at most 43 characters. |
| `Markets.TopEntryOf` | app.js:114-119 | A top-list entry's title is exactly `ShortQuestion` of the question: at most 43 characters, starting with the question's first min(40, length) characters. The entry shows the category as it is and the shown volume. |
| `Js.ContainsIff` | app.js:149-150 | `includes` is true exactly when some offset of the text holds the needle. |
| `Js.Contains` | app.js:149-150 | `includes`: the empty needle is always found, and a needle longer than the text never is. |
| `Js.Lower` | app.js:141 | `toLowerCase` keeps the length and lower-cases each character on its own. |
| `Js.LowerIdempotent` | app.js:141 | Lower-casing twice is lower-casing once. |
| `Js.NatToString` | app.js:159 | A count renders as a non-empty string of decimal digits with no leading zero. It is one digit long exactly when the count is below 10. |
| `Js.ParseNatToString` | app.js:159 | Reading a rendered count back gives the count. |
| `Js.NatToStringInjective` | app.js:159 | Different counts render as different strings. |
| `Filtering.InCategory` | app.js:145 | The category test is exact equality with the selected value, so a non-empty selection matches only records with a truthy category. |
| `Filtering.SearchHit` | app.js:148-151 | The search test on lower-cased text: question or truthy category contains it; the empty text matches every record. |
| `Filtering.Passes` | app.js:141-151 | Both filters with AND, each skipped when its input is empty; with both inputs empty every record passes. |
| `Filtering.View` | app.js:143-152 | The filtered list: the passing records in store order; it is never longer than the store. |
| `Filtering.ViewIsSubsequence` | app.js:143-152 | The filtered list is an order-preserving subsequence of the store. |
| `Filtering.ViewMembers` | app.js:143-152 | A record is in the filtered list exactly when it is in the store and passes both active filters. |
| `Filtering.ViewCounts` | app.js:143-152 | A passing record keeps its number of occurrences in the filtered list. A failing record occurs 0 times. |
| `Filtering.ViewOfPassing` | app.js:143-152 | A store whose every record passes is shown unchanged. |
| `Filtering.NoFiltersShowAll` | app.js:143-147 | With an empty category and empty search text, the filtered list is the store unchanged. |
| `Filtering.ViewIdempotent` | app.js:143-152 | Filtering the filtered list again with the same inputs leaves it unchanged. |
| `Filtering.ViewCategoryExact` | app.js:144-146 | With a non-empty category selected, every shown record's category equals it exactly. |
| `Filtering.ViewCompose` | app.js:143-152 | The category filter followed by the search filter (the source's two steps) equals both filters applied at once. |
| `Filtering.ContainsIgnoringCase` | app.js:149-150 | The lower-cased `includes` test holds exactly when the needle occurs at some offset, compared lower-cased. |
| `Filtering.SearchMatches` | app.js:141-151 | A non-empty search matches a record exactly when its question contains the text ignoring case, or its category is non-empty and contains the text ignoring case. A record without a category can match only on its question. |
| `Filtering.SearchIgnoresInputCase` | app.js:141 | Typing the search text in upper or lower case gives the same result. |
| `Filtering.CountLabel` | app.js:159 | The label is "1 market" exactly when the count is 1. For every other count, including 0, it is the count followed by " markets". |
| `Filtering.CountLabelInjective` | app.js:159 | Different counts give different labels. |
| `App.HttpErrorMessage` | app.js:166 | The error for a non-ok status reads "HTTP " followed by the status's shortest decimal digits (no leading zero). The status can be read back from it. |
| `App.IsOk` | app.js:166 | `response.ok` holds only for a status in 200-299, and holds for 200. |
| `App.MarketsOf` | app.js:169 | `data.markets || []`: the list itself when present, else the empty list. |
| `App.Categories` | app.js:170 | The distinct truthy categories (their order is stated by `App.CategoriesOrder`); never more of them than records. |
| `App.FirstIndex` | app.js:170 | The position of the first record carrying a category: that record has it, no earlier record does, and it is the record count when none does. |
| `App.FirstIndexAppend` | app.js:170 | Appending a record keeps every existing first occurrence, and makes the new record the first occurrence of a category not seen before. |
| `App.CategoriesOrder` | app.js:170 | Each listed category occurs in some record, and categories are listed in strictly increasing order of their first occurrence, as a `Set` iterates in insertion order. With `CategoriesExact` this fixes the sequence exactly. |
| `App.CategoriesExact` | app.js:170 | A value is a category exactly when it is non-empty and some record has it as its category. |
| `App.CategoriesDistinct` | app.js:170 | No category is listed twice. |
| `App.CategoriesNonEmpty` | app.js:170 | No listed category is the empty string. |
| `App.CollectCategories` | app.js:170 | The one-pass loop computes exactly `Categories` of the records. |
| `App.KeepCategory` | app.js:144-146 | The category pass keeps exactly the view with only the category filter. |
| `App.KeepMatching` | app.js:147-152 | The search pass keeps exactly the view with only the search filter. |
| `App.RenderRows` | app.js:155-158 | One row per record, in order, each built by `RenderRow`. |
| `App.Dashboard.constructor` | app.js:18-19 | The store starts with no records and no categories, and its invariant holds. |
| `App.Dashboard.Load` | app.js:163-170 | The store is left unchanged on a network failure, a non-ok status (with an `HttpError` carrying the status) or an undecodable body. On success, `allMarkets` is replaced by `data.markets`, or by the empty list when that is missing. `categories` becomes `Categories` of the new list. The category invariant is kept either way. |
| `App.Dashboard.PopulateCategoryFilter` | app.js:126-136 | The dropdown holds the sentinel `""` option first, then one option per category in set order, and no other option has an empty value. |
| `App.Dashboard.FilterMarkets` | app.js:139-160 | The filtered list is `View` of the store for the given category and search text. Rows are one per filtered record. The count label is `CountLabel` of the filtered length. |
| `App.Dashboard.RenderAfterLoad` | app.js:176-179 | After a load, the dropdown has the sentinel first and then one option per category, in order. The table shows `View` with no category, which is the whole store when the search box is empty, with one `RenderRow` per shown record and `CountLabel` of their number. The top list is drawn from the whole, unfiltered store. |

## Left out

- `App.Dashboard.Load`: does not model a body whose `markets` is a truthy non-array or an array holding `null`. In the source, `allMarkets` is then already replaced when the category line throws, so `categories` is left stale and out of step with the records. The model's records are always well-formed, so `Load` keeps the two consistent in every case it covers.
- `Markets.TopEntryOf`: a missing and a `null` category are one value (`None`), while the top list prints them as "undefined" and "null".
- `Js.Lower`: lower-cases ASCII letters only. JavaScript's `toLowerCase` also folds non-ASCII letters, which are not modelled.
- `Markets.ShortQuestion`: counts characters, not UTF-16 code units as `substring` and `length` do. A question holding characters outside the Basic Multilingual Plane may therefore be cut at a different place.
- `formatCurrency` and `formatPercent` (app.js:22-31) are left out. They are floating-point rendering through `toLocaleString` and `toFixed`. Volume, bid and ask are modelled up to the value handed to them.
- `parseOutcomes` (app.js:34-45) is left out. It is a wrapper over `JSON.parse`, and both renderers drop its result.
- `updateStatus` (app.js:48-68) is left out: date parsing, locale time formatting and creating DOM nodes.
- All HTML string building and DOM access is left out. A row, a top-list entry and a dropdown option are modelled as the data they display.
- The network request and JSON decoding are parameters. `Load` takes the response as a value: a network failure, or a status and a body that decoded or did not. `response.ok` is modelled as a status in 200-299. The text of browser error messages other than the `HTTP` one is not modelled.
- Overlapping loads started by repeated Retry clicks are not modelled. Each `Load` is one atomic transition, so the race in which the last response to arrive wins is not captured.
- A failed load shows an error panel with a Retry button. This loading and error display is left out.
- The console messages `Loaded N markets` (app.js:181) and `Failed to load markets` (app.js:186) are left out: they are logging and change no state.
- Event-listener wiring, the upgrade modal and the payment-link redirect (app.js:198-219) are left out: third-party UI and an external page.
- NaN, and record fields holding objects or arrays where strings or numbers are expected, are not modelled. A question is always a string, and a category is a string or absent/null.
