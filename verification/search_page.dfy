/** The browse page's list (src/pages/books/SearchPage.jsx): the fetched listings
    filtered by the search box and the category and condition filters, then
    ordered by the chosen sort key. */
module SearchPage {
  import opened Common
  import Lists
  import Text

  /** The parts of a fetched listing the page reads. `createdAt` is the creation
      time in milliseconds. */
  datatype Book = Book(title: string, author: string, isbn: Option<string>, category: string,
                       condition: string, price: real, createdAt: int)

  /** The five filter selections; `classLevel` is the `class` filter. */
  datatype Filters = Filters(category: string, condition: string, classLevel: string, board: string,
                             location: string)

  /** Every filter on its "All …" choice: the initial state and what `clearFilters` restores. */
  const AllFilters: Filters :=
    Filters("All Categories", "All Conditions", "All Classes", "All Boards", "All Locations")

  /** The search box: an empty query matches everything; otherwise the title or
      the author contains the query ignoring case, or the listing has an ISBN
      that contains the query as typed. */
  predicate MatchesSearch(b: Book, query: string) {
    || query == ""
    || Text.Contains(Text.Lower(b.title), Text.Lower(query))
    || Text.Contains(Text.Lower(b.author), Text.Lower(query))
    || (b.isbn.Some? && Text.Contains(b.isbn.value, query))
  }

  /** Only the category and condition filters are applied; a chosen value is
      compared after lower-casing it. */
  predicate PassesFilters(b: Book, f: Filters) {
    && (f.category == "All Categories" || b.category == Text.Lower(f.category))
    && (f.condition == "All Conditions" || b.condition == Text.Lower(f.condition))
  }

  function Shown(query: string, f: Filters): Book -> bool {
    (b: Book) => MatchesSearch(b, query) && PassesFilters(b, f)
  }

  function PriceOf(b: Book): real {
    b.price
  }

  function CreatedAtOf(b: Book): real {
    b.createdAt as real
  }

  /** The comparator of every other sort key answers 0 for every pair. */
  function NoKey(b: Book): real {
    0.0
  }

  /** The listings the filter keeps, in fetched order. */
  function Matching(listings: seq<Book>, query: string, f: Filters): (r: seq<Book>)
    ensures forall b :: b in r <==> b in listings && MatchesSearch(b, query) && PassesFilters(b, f)
    ensures forall b ::
      multiset(r)[b] == if MatchesSearch(b, query) && PassesFilters(b, f) then multiset(listings)[b] else 0
    ensures Lists.IsSubsequence(r, listings)
  {
    Lists.FilterIsSubsequence(listings, Shown(query, f));
    Lists.Filter(listings, Shown(query, f))
  }

  /** `filteredBooks`: the matching listings, sorted stably by price ascending
      (`price-low`), by price descending (`price-high`), newest first (`newest`),
      and left in fetched order for any other key. */
  function FilteredBooks(listings: seq<Book>, query: string, f: Filters, sortBy: string): (r: seq<Book>)
    ensures multiset(r) == multiset(Matching(listings, query, f))
    ensures forall b :: b in r <==> b in listings && MatchesSearch(b, query) && PassesFilters(b, f)
    ensures forall b ::
      multiset(r)[b] == if MatchesSearch(b, query) && PassesFilters(b, f) then multiset(listings)[b] else 0
    ensures sortBy == "price-low" ==> forall i, j :: 0 <= i < j < |r| ==> r[i].price <= r[j].price
    ensures sortBy == "price-high" ==> forall i, j :: 0 <= i < j < |r| ==> r[i].price >= r[j].price
    ensures sortBy == "newest" ==> forall i, j :: 0 <= i < j < |r| ==> r[i].createdAt >= r[j].createdAt
    ensures sortBy !in {"price-low", "price-high", "newest"} ==> r == Matching(listings, query, f)
  {
    var m := Matching(listings, query, f);
    var r := Ordered(m, sortBy);
    SameMembers(r, m);
    r
  }

  /** Two lists with the same multiset have the same members. */
  lemma SameMembers(r: seq<Book>, m: seq<Book>)
    requires multiset(r) == multiset(m)
    ensures forall b :: b in r <==> b in m
  {
    assert forall b :: b in r <==> b in multiset(r);
    assert forall b :: b in m <==> b in multiset(m);
  }

  /** The sort step on its own. */
  function Ordered(m: seq<Book>, sortBy: string): (r: seq<Book>)
    ensures multiset(r) == multiset(m)
    ensures sortBy == "price-low" ==> forall i, j :: 0 <= i < j < |r| ==> r[i].price <= r[j].price
    ensures sortBy == "price-high" ==> forall i, j :: 0 <= i < j < |r| ==> r[i].price >= r[j].price
    ensures sortBy == "newest" ==> forall i, j :: 0 <= i < j < |r| ==> r[i].createdAt >= r[j].createdAt
    ensures sortBy !in {"price-low", "price-high", "newest"} ==> r == m
  {
    if sortBy == "price-low" then
      Lists.SortAscendingSorted(m, PriceOf);
      Lists.SortAscending(m, PriceOf)
    else if sortBy == "price-high" then
      Lists.SortDescendingSorted(m, PriceOf);
      Lists.SortDescending(m, PriceOf)
    else if sortBy == "newest" then
      Lists.SortDescendingSorted(m, CreatedAtOf);
      Lists.SortDescending(m, CreatedAtOf)
    else
      Lists.SortAscendingConstantKey(m, NoKey, 0.0);
      Lists.SortAscending(m, NoKey)
  }

  /** The price sorts are stable: listings of equal price keep their fetched
      order, in either direction. */
  lemma EqualPricesKeepOrder(listings: seq<Book>, query: string, f: Filters, price: real)
    ensures Lists.WithKey(FilteredBooks(listings, query, f, "price-low"), PriceOf, price) ==
            Lists.WithKey(Matching(listings, query, f), PriceOf, price)
    ensures Lists.WithKey(FilteredBooks(listings, query, f, "price-high"), PriceOf, price) ==
            Lists.WithKey(Matching(listings, query, f), PriceOf, price)
  {
    Lists.SortAscendingStable(Matching(listings, query, f), PriceOf, price);
    Lists.SortDescendingStable(Matching(listings, query, f), PriceOf, price);
  }

  /** The `newest` sort is stable: listings created at the same moment keep their
      fetched order. */
  lemma EqualTimesKeepOrder(listings: seq<Book>, query: string, f: Filters, at: int)
    ensures Lists.WithKey(FilteredBooks(listings, query, f, "newest"), CreatedAtOf, at as real) ==
            Lists.WithKey(Matching(listings, query, f), CreatedAtOf, at as real)
  {
    Lists.SortDescendingStable(Matching(listings, query, f), CreatedAtOf, at as real);
  }

  /** The class, board and location filters are kept in state but never change
      the list. */
  lemma UnappliedFiltersIgnored(listings: seq<Book>, query: string, f: Filters, sortBy: string,
                                classLevel: string, board: string, location: string)
    ensures FilteredBooks(listings, query, f.(classLevel := classLevel, board := board, location := location), sortBy)
            == FilteredBooks(listings, query, f, sortBy)
  {
    var g := f.(classLevel := classLevel, board := board, location := location);
    Lists.FilterCongruent(listings, Shown(query, g), Shown(query, f));
  }

  /** The page's query state. */
  datatype SearchState = SearchState(query: string, filters: Filters, sortBy: string)

  /** `clearFilters`: every filter back to "All …" and the query emptied; the sort
      key is kept. */
  function ClearFilters(s: SearchState): (r: SearchState)
    ensures r.query == "" && r.filters == AllFilters
    ensures r.sortBy == s.sortBy
  {
    SearchState("", AllFilters, s.sortBy)
  }

  /** After clearing, every fetched listing is shown again, each as often as it was
      fetched; under a key that does not sort, in fetched order. */
  lemma ClearedShowsAll(listings: seq<Book>, s: SearchState)
    ensures var c := ClearFilters(s);
      multiset(FilteredBooks(listings, c.query, c.filters, c.sortBy)) == multiset(listings)
    ensures var c := ClearFilters(s);
      c.sortBy !in {"price-low", "price-high", "newest"} ==>
        FilteredBooks(listings, c.query, c.filters, c.sortBy) == listings
  {
    Lists.FilterAll(listings, Shown("", AllFilters));
  }
}
