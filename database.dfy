/** The prompt database view: the catalog of categorised prompts, the
    cards rendered from it, and the two rules that decide which cards are
    displayed (the category filter and the free-text search). */
module Database {
  import opened Text
  import opened Lookups

  /** One catalog entry. */
  datatype Prompt = Prompt(title: string, content: string, difficulty: string, tags: seq<string>)

  /** A category of the catalog: its id, display name and entries. */
  datatype Category = Category(id: string, name: string, prompts: seq<Prompt>)

  /** A rendered prompt card: its `data-id` and `data-category`, the text
      it shows, whether its favorite button starts out active, and whether
      it is displayed. */
  datatype Card = Card(
    id: string,
    category: string,
    title: string,
    content: string,
    difficulty: string,
    tags: seq<string>,
    favorited: bool,
    visible: bool)

  /** The `data-id` of the card for entry `pi` of category `ci`. */
  function CardId(ci: nat, pi: nat): string {
    Decimal(ci) + "-" + Decimal(pi)
  }

  /** The dash of a card id follows the category index's digits. */
  lemma DashPosition(ci: nat, pi: nat)
    ensures IndexOf(CardId(ci, pi), '-') == |Decimal(ci)|
  {
    var a := Decimal(ci);
    assert CardId(ci, pi)[..|a|] == a;
    assert CardId(ci, pi)[|a|] == '-';
  }

  /** Distinct catalog positions give distinct card ids. */
  lemma CardIdInjective(ci: nat, pi: nat, cj: nat, pj: nat)
    requires CardId(ci, pi) == CardId(cj, pj)
    ensures ci == cj && pi == pj
  {
    var s := CardId(ci, pi);
    DashPosition(ci, pi);
    DashPosition(cj, pj);
    var n := |Decimal(ci)|;
    assert Decimal(ci) == s[..n] == Decimal(cj);
    DecimalInjective(ci, cj);
    assert Decimal(pi) == s[n + 1..] == Decimal(pj);
    DecimalInjective(pi, pj);
  }

  /** `createPromptCard`: a displayed card whose favorite button is active
      when the entry's content is already a favorite. */
  function MakeCard(p: Prompt, categoryId: string, id: string, favorites: seq<string>): Card {
    Card(id, categoryId, p.title, p.content, p.difficulty, p.tags, p.content in favorites, true)
  }

  /** The cards of category `ci`, one per entry, in entry order. */
  function CategoryCards(c: Category, ci: nat, favorites: seq<string>): (cs: seq<Card>)
    ensures |cs| == |c.prompts|
  {
    seq(|c.prompts|, pi requires 0 <= pi < |c.prompts| => MakeCard(c.prompts[pi], c.id, CardId(ci, pi), favorites))
  }

  /** The cards of the whole catalog: category by category, entry by entry. */
  function CatalogCards(catalog: seq<Category>, favorites: seq<string>): seq<Card>
    decreases |catalog|
  {
    if catalog == [] then []
    else
      var n := |catalog| - 1;
      CatalogCards(catalog[..n], favorites) + CategoryCards(catalog[n], n, favorites)
  }

  /** The number of entries in the catalog. */
  function PromptCount(catalog: seq<Category>): nat
    decreases |catalog|
  {
    if catalog == [] then 0
    else PromptCount(catalog[..|catalog| - 1]) + |catalog[|catalog| - 1].prompts|
  }

  /** One card per catalog entry; entry `pi` of category `ci` sits after the
      entries of the earlier categories, carries that entry's title,
      content, difficulty and tags, the category id and the id "ci-pi", has
      its favorite button active exactly when the content is a favorite, and
      is displayed. */
  lemma {:induction false} CatalogCardsSpec(catalog: seq<Category>, favorites: seq<string>, ci: nat, pi: nat)
    requires ci < |catalog| && pi < |catalog[ci].prompts|
    ensures |CatalogCards(catalog, favorites)| == PromptCount(catalog)
    ensures PromptCount(catalog[..ci]) + pi < PromptCount(catalog)
    ensures var card := CatalogCards(catalog, favorites)[PromptCount(catalog[..ci]) + pi];
      && card.id == CardId(ci, pi)
      && card.category == catalog[ci].id
      && card.title == catalog[ci].prompts[pi].title
      && card.content == catalog[ci].prompts[pi].content
      && card.difficulty == catalog[ci].prompts[pi].difficulty
      && card.tags == catalog[ci].prompts[pi].tags
      && (card.favorited <==> catalog[ci].prompts[pi].content in favorites)
      && card.visible
    decreases |catalog|
  {
    var n := |catalog| - 1;
    CatalogCardsLength(catalog, favorites);
    if ci < n {
      assert catalog[..n][..ci] == catalog[..ci];
      assert catalog[..n][ci] == catalog[ci];
      CatalogCardsSpec(catalog[..n], favorites, ci, pi);
    } else {
      assert catalog[..n] == catalog[..ci];
      CatalogCardsLength(catalog[..n], favorites);
    }
  }

  /** The catalog yields exactly one card per entry. */
  lemma {:induction false} CatalogCardsLength(catalog: seq<Category>, favorites: seq<string>)
    ensures |CatalogCards(catalog, favorites)| == PromptCount(catalog)
    decreases |catalog|
  {
    if catalog != [] {
      CatalogCardsLength(catalog[..|catalog| - 1], favorites);
    }
  }

  /** The nested `forEach` of `populateDatabase` that appends one card per
      entry to the container. */
  method BuildCards(catalog: seq<Category>, favorites: seq<string>) returns (cards: seq<Card>)
    ensures cards == CatalogCards(catalog, favorites)
  {
    cards := [];
    for ci := 0 to |catalog|
      invariant cards == CatalogCards(catalog[..ci], favorites)
    {
      var category := catalog[ci];
      var row: seq<Card> := [];
      for pi := 0 to |category.prompts|
        invariant |row| == pi
        invariant forall j :: 0 <= j < pi ==> row[j] == MakeCard(category.prompts[j], category.id, CardId(ci, j), favorites)
      {
        row := row + [MakeCard(category.prompts[pi], category.id, CardId(ci, pi), favorites)];
      }
      assert row == CategoryCards(category, ci, favorites);
      assert catalog[..ci + 1][..ci] == catalog[..ci];
      cards := cards + row;
    }
    assert catalog[..|catalog|] == catalog;
  }

  /** The number of displayed cards. */
  function CountVisible(cards: seq<Card>): nat
    decreases |cards|
  {
    if cards == [] then 0
    else CountVisible(cards[..|cards| - 1]) + (if cards[|cards| - 1].visible then 1 else 0)
  }

  /** No card is displayed exactly when the count is zero; every card is
      displayed exactly when the count is the number of cards. */
  lemma {:induction false} CountVisibleSpec(cards: seq<Card>)
    ensures CountVisible(cards) <= |cards|
    ensures CountVisible(cards) == 0 <==> forall k :: 0 <= k < |cards| ==> !cards[k].visible
    ensures CountVisible(cards) == |cards| <==> forall k :: 0 <= k < |cards| ==> cards[k].visible
    decreases |cards|
  {
    if cards != [] {
      var init := cards[..|cards| - 1];
      CountVisibleSpec(init);
      assert forall k :: 0 <= k < |init| ==> init[k] == cards[k];
    }
  }

  /** `filterDatabase`'s rule: a card is shown under `filter` when the filter
      is `all` or names the card's category. */
  predicate FilterShows(c: Card, filter: string) {
    filter == "all" || c.category == filter
  }

  /** The text a search looks in: title, content, category display name and
      the tags joined by spaces, separated by single spaces. */
  function SearchText(c: Card): string {
    c.title + " " + c.content + " " + CategoryName(c.category) + " " + Join(c.tags, " ")
  }

  /** `performSearch`'s rule: the lower-cased query occurs in the lower-cased
      search text. */
  predicate SearchShows(c: Card, query: string) {
    Contains(Lower(SearchText(c)), Lower(query))
  }

  /** The cards with their display set by `filter`. */
  ghost predicate FilteredBy(out: seq<Card>, cards: seq<Card>, filter: string) {
    |out| == |cards| &&
    forall k :: 0 <= k < |cards| ==> out[k] == cards[k].(visible := FilterShows(cards[k], filter))
  }

  /** The cards with their display set by `query`. */
  ghost predicate SearchedBy(out: seq<Card>, cards: seq<Card>, query: string) {
    |out| == |cards| &&
    forall k :: 0 <= k < |cards| ==> out[k] == cards[k].(visible := SearchShows(cards[k], query))
  }

  /** The loop of `filterDatabase`: sets each card's display by the filter
      and counts the displayed cards. */
  method ApplyFilter(cards: seq<Card>, filter: string) returns (out: seq<Card>, visibleCount: nat)
    ensures FilteredBy(out, cards, filter)
    ensures visibleCount == CountVisible(out)
  {
    out := [];
    visibleCount := 0;
    for k := 0 to |cards|
      invariant |out| == k
      invariant forall j :: 0 <= j < k ==> out[j] == cards[j].(visible := FilterShows(cards[j], filter))
      invariant visibleCount == CountVisible(out)
    {
      var shouldShow := filter == "all" || cards[k].category == filter;
      var card := cards[k].(visible := shouldShow);
      assert (out + [card])[..k] == out;
      out := out + [card];
      if shouldShow {
        visibleCount := visibleCount + 1;
      }
    }
  }

  /** The loop of `performSearch` for a non-blank query: sets each card's
      display by the query and counts the displayed cards. */
  method ApplySearch(cards: seq<Card>, query: string) returns (out: seq<Card>, visibleCount: nat)
    ensures SearchedBy(out, cards, query)
    ensures visibleCount == CountVisible(out)
  {
    out := [];
    visibleCount := 0;
    var needle := Lower(query);
    for k := 0 to |cards|
      invariant |out| == k
      invariant forall j :: 0 <= j < k ==> out[j] == cards[j].(visible := SearchShows(cards[j], query))
      invariant visibleCount == CountVisible(out)
    {
      var c := cards[k];
      var searchText := Lower(SearchText(c));
      var shouldShow := Contains(searchText, needle);
      var card := c.(visible := shouldShow);
      assert (out + [card])[..k] == out;
      out := out + [card];
      if shouldShow {
        visibleCount := visibleCount + 1;
      }
    }
  }

  /** Re-applying a filter to the cards it produced changes nothing, so an
      empty search after choosing a filter shows the same cards. */
  lemma FilterIdempotent(cards: seq<Card>, once: seq<Card>, twice: seq<Card>, filter: string)
    requires FilteredBy(once, cards, filter) && FilteredBy(twice, once, filter)
    ensures twice == once
  {
    assert forall k :: 0 <= k < |cards| ==> twice[k] == once[k];
  }

  /** The filter `all` displays every card. */
  lemma FilterAllShowsAll(cards: seq<Card>, out: seq<Card>)
    requires FilteredBy(out, cards, "all")
    ensures CountVisible(out) == |cards|
  {
    CountVisibleSpec(out);
  }

  /** What a search shows depends only on the cards' text, not on which of
      them the current filter displays. */
  lemma SearchIgnoresDisplay(a: seq<Card>, b: seq<Card>, outA: seq<Card>, outB: seq<Card>, query: string)
    requires |a| == |b|
    requires forall k :: 0 <= k < |a| ==> a[k].(visible := false) == b[k].(visible := false)
    requires SearchedBy(outA, a, query) && SearchedBy(outB, b, query)
    ensures outA == outB
  {
    forall k | 0 <= k < |a| ensures outA[k] == outB[k] {
      assert a[k].(visible := false).title == b[k].(visible := false).title;
      assert SearchText(a[k]) == SearchText(b[k]);
    }
  }

  /** The search is case-insensitive in the query: any two queries that
      agree after lower-casing display the same cards. */
  lemma SearchCaseInsensitive(c: Card, q1: string, q2: string)
    requires Lower(q1) == Lower(q2)
    ensures SearchShows(c, q1) == SearchShows(c, q2)
  {
  }

  /** A card is shown by a query exactly when the lower-cased query occurs
      at some position of its lower-cased search text. */
  lemma SearchShowsIff(c: Card, query: string)
    ensures SearchShows(c, query) <==> exists i :: OccursAt(Lower(SearchText(c)), Lower(query), i)
  {
    ContainsIff(Lower(SearchText(c)), Lower(query));
  }
}
