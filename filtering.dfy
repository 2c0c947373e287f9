/** The filter engine: which records of the store the table shows for a
    selected category and a search text, and the count label under it. */
module Filtering {
  import opened Js
  import opened Markets

  /** The category filter: exact equality with the selected value. */
  predicate InCategory(m: Market, selected: string)
    ensures InCategory(m, selected) && selected != "" ==> Present(m.category)
  {
    m.category == Some(selected)
  }

  /** The search filter on already lower-cased text: the lower-cased question
      contains it, or the category is truthy and its lower-cased form contains it. */
  predicate SearchHit(m: Market, text: string)
    ensures text == "" ==> SearchHit(m, text)
  {
    Contains(Lower(m.question), text)
    || (Present(m.category) && Contains(Lower(m.category.value), text))
  }

  /** A record passes both filters. A filter whose input is empty is not applied;
      the search input is lower-cased before both the emptiness test and the match. */
  predicate Passes(m: Market, selected: string, searchInput: string)
    ensures selected == "" && searchInput == "" ==> Passes(m, selected, searchInput)
  {
    var text := Lower(searchInput);
    (selected == "" || InCategory(m, selected))
    && (text == "" || SearchHit(m, text))
  }

  /** The filtered view: the records that pass, in store order. */
  function View(ms: seq<Market>, selected: string, searchInput: string): (shown: seq<Market>)
    ensures |shown| <= |ms|
    decreases |ms|
  {
    if ms == [] then []
    else
      var last := ms[|ms| - 1];
      View(ms[..|ms| - 1], selected, searchInput)
      + (if Passes(last, selected, searchInput) then [last] else [])
  }

  /** `a` is obtained from `b` by deleting elements, without reordering. */
  predicate IsSubsequence(a: seq<Market>, b: seq<Market>)
    decreases |b|
  {
    if b == [] then a == []
    else
      (a != [] && a[|a| - 1] == b[|b| - 1] && IsSubsequence(a[..|a| - 1], b[..|b| - 1]))
      || IsSubsequence(a, b[..|b| - 1])
  }

  // ---------------------------------------------------------------------------
  // What the view holds

  /** The view is an order-preserving subsequence of the store. */
  lemma {:induction false} ViewIsSubsequence(ms: seq<Market>, selected: string, searchInput: string)
    ensures IsSubsequence(View(ms, selected, searchInput), ms)
    decreases |ms|
  {
    if ms != [] {
      var init, last := ms[..|ms| - 1], ms[|ms| - 1];
      ViewIsSubsequence(init, selected, searchInput);
      var v, prev := View(ms, selected, searchInput), View(init, selected, searchInput);
      if Passes(last, selected, searchInput) {
        assert v == prev + [last];
        assert v[..|v| - 1] == prev && v[|v| - 1] == last;
      } else {
        assert v == prev;
      }
    }
  }

  /** A record is in the view exactly when it is in the store and passes both filters. */
  lemma {:induction false} ViewMembers(ms: seq<Market>, selected: string, searchInput: string)
    ensures forall m :: m in View(ms, selected, searchInput) <==> m in ms && Passes(m, selected, searchInput)
    decreases |ms|
  {
    if ms != [] {
      var init, last := ms[..|ms| - 1], ms[|ms| - 1];
      ViewMembers(init, selected, searchInput);
      assert ms == init + [last];
    }
  }

  /** Each passing record keeps its multiplicity; every other record is dropped. */
  lemma {:induction false} ViewCounts(ms: seq<Market>, selected: string, searchInput: string)
    ensures forall m :: multiset(View(ms, selected, searchInput))[m]
                        == if Passes(m, selected, searchInput) then multiset(ms)[m] else 0
    decreases |ms|
  {
    if ms != [] {
      var init, last := ms[..|ms| - 1], ms[|ms| - 1];
      ViewCounts(init, selected, searchInput);
      assert ms == init + [last];
      assert multiset(ms) == multiset(init) + multiset{last};
    }
  }

  /** A store whose every record passes is shown unchanged. */
  lemma {:induction false} ViewOfPassing(ms: seq<Market>, selected: string, searchInput: string)
    requires forall m :: m in ms ==> Passes(m, selected, searchInput)
    ensures View(ms, selected, searchInput) == ms
    decreases |ms|
  {
    if ms != [] {
      var init := ms[..|ms| - 1];
      assert forall m :: m in init ==> m in ms;
      ViewOfPassing(init, selected, searchInput);
      assert ms == init + [ms[|ms| - 1]];
    }
  }

  /** With no category selected and no search text the table shows the whole store. */
  lemma {:induction false} NoFiltersShowAll(ms: seq<Market>)
    ensures View(ms, "", "") == ms
  {
    ViewOfPassing(ms, "", "");
  }

  /** Filtering the view again with the same inputs leaves it unchanged. */
  lemma ViewIdempotent(ms: seq<Market>, selected: string, searchInput: string)
    ensures View(View(ms, selected, searchInput), selected, searchInput) == View(ms, selected, searchInput)
  {
    var v := View(ms, selected, searchInput);
    ViewMembers(ms, selected, searchInput);
    ViewOfPassing(v, selected, searchInput);
  }

  /** With a category selected, every shown record has exactly that category. */
  lemma {:induction false} ViewCategoryExact(ms: seq<Market>, selected: string, searchInput: string)
    requires selected != ""
    ensures forall m :: m in View(ms, selected, searchInput) ==> m.category == Some(selected)
  {
    ViewMembers(ms, selected, searchInput);
  }

  /** Applying the category filter and then the search filter, as the source does
      in two steps, is the same as applying both at once. */
  lemma {:induction false} ViewCompose(ms: seq<Market>, selected: string, searchInput: string)
    ensures View(View(ms, selected, ""), "", searchInput) == View(ms, selected, searchInput)
    decreases |ms|
  {
    if ms != [] {
      var init, last := ms[..|ms| - 1], ms[|ms| - 1];
      ViewCompose(init, selected, searchInput);
      var byCategory := View(init, selected, "");
      assert Lower("") == "";
      if Passes(last, selected, "") {
        assert View(ms, selected, "") == byCategory + [last];
        assert (byCategory + [last])[..|byCategory|] == byCategory;
      } else {
        assert View(ms, selected, "") == byCategory;
      }
    }
  }

  // ---------------------------------------------------------------------------
  // What the search text matches

  /** `needle` occurs in `s` at some offset when both are compared lower-cased. */
  ghost predicate OccursIgnoringCase(s: string, needle: string) {
    exists i :: OccursAt(Lower(s), Lower(needle), i)
  }

  lemma ContainsIgnoringCase(s: string, needle: string)
    ensures Contains(Lower(s), Lower(needle)) <==> OccursIgnoringCase(s, needle)
  {
    ContainsIff(Lower(s), Lower(needle));
  }

  /** A non-empty search matches a record exactly when its question contains the
      text ignoring case, or its category is non-empty and contains it ignoring
      case; a record without a category can match only on its question. */
  lemma SearchMatches(m: Market, searchInput: string)
    requires searchInput != ""
    ensures Passes(m, "", searchInput) <==>
              OccursIgnoringCase(m.question, searchInput)
              || (Present(m.category) && OccursIgnoringCase(m.category.value, searchInput))
    ensures !Present(m.category) ==>
              (Passes(m, "", searchInput) <==> OccursIgnoringCase(m.question, searchInput))
  {
    ContainsIgnoringCase(m.question, searchInput);
    if Present(m.category) {
      ContainsIgnoringCase(m.category.value, searchInput);
    }
  }

  /** The search ignores the case of the typed text. */
  lemma SearchIgnoresInputCase(m: Market, selected: string, searchInput: string)
    ensures Passes(m, selected, Lower(searchInput)) == Passes(m, selected, searchInput)
  {
    LowerIdempotent(searchInput);
  }

  // ---------------------------------------------------------------------------
  // Count label

  /** `${n} market${n !== 1 ? 's' : ''}`. */
  function CountLabel(n: nat): (r: string)
    ensures n == 1 <==> r == "1 market"
    ensures n != 1 ==> r == NatToString(n) + " markets"
  {
    NatToString(n) + " market" + (if n != 1 then "s" else "")
  }

  /** Different counts give different labels, so the label reports the count. */
  lemma CountLabelInjective(a: nat, b: nat)
    requires CountLabel(a) == CountLabel(b)
    ensures a == b
  {
    var la, lb := CountLabel(a), CountLabel(b);
    if a != 1 && b != 1 {
      assert la[..|la| - 8] == NatToString(a);
      assert lb[..|lb| - 8] == NatToString(b);
      NatToStringInjective(a, b);
    }
  }
}
