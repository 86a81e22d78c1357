/** `filteredProperties`: the listing page's visible sequence, the store filtered
    by the criteria and then sorted by the chosen mode. */
module Query {
  import opened Listings
  import opened Filter
  import opened Sort

  /** The filter is applied to the store and the sort to the filter's fresh result;
      the store is a value and is never changed. */
  function Visible(store: seq<Listing>, c: Criteria, m: SortMode): (r: seq<Listing>)
    ensures multiset(r) == multiset(FilterListings(store, c))
    ensures IsSubsequence(FilterListings(store, c), store)
  {
    SortListings(m, FilterListings(store, c))
  }

  /** A listing is visible iff it is in the store and meets every non-empty criterion. */
  lemma VisibleIff(store: seq<Listing>, c: Criteria, m: SortMode, p: Listing)
    ensures p in Visible(store, c, m) <==> p in store && MeetsEveryCriterion(p, c)
  {
    assert p in Visible(store, c, m) <==> p in multiset(FilterListings(store, c));
    MatchesIff(p, c);
  }

  /** With every field empty and "No sorting", the page shows the store in store order. */
  lemma VisibleInitially(store: seq<Listing>)
    ensures Visible(store, NoCriteria, NoSort) == store
  {
    FilterNoCriteria(store);
    NoSortKeepsOrder(store);
  }

  /** Under "No sorting" the page shows the filtered store in store order. */
  lemma VisibleUnsorted(store: seq<Listing>, c: Criteria)
    ensures Visible(store, c, NoSort) == FilterListings(store, c)
  {
    NoSortKeepsOrder(FilterListings(store, c));
  }

  /** Nothing is added or duplicated: identifiers stay unique. */
  lemma VisibleUniqueIds(store: seq<Listing>, c: Criteria, m: SortMode)
    requires UniqueIds(store)
    ensures UniqueIds(Visible(store, c, m))
  {
    FilterKeepsUniqueIds(store, c);
    SortKeepsUniqueIds(m, FilterListings(store, c));
  }

  /** The order each menu entry promises holds for every pair of positions. */
  lemma VisibleOrdered(store: seq<Listing>, c: Criteria, m: SortMode, i: int, j: int)
    requires 0 <= i < j < |Visible(store, c, m)|
    ensures m == PriceAsc ==> Visible(store, c, m)[i].price <= Visible(store, c, m)[j].price
    ensures m == PriceDesc ==> Visible(store, c, m)[i].price >= Visible(store, c, m)[j].price
    ensures m == DateNewest ==> Visible(store, c, m)[i].dateAdded >= Visible(store, c, m)[j].dateAdded
  {
    SortOrderPerMode(m, FilterListings(store, c), i, j);
  }

  /** Listings of equal sort key appear in the order the filter returned them, which is
      store order. */
  lemma VisibleStable(store: seq<Listing>, c: Criteria, m: SortMode, k: int)
    ensures KeyClass(m, Visible(store, c, m), k) == KeyClass(m, FilterListings(store, c), k)
  {
    SortIsStable(m, FilterListings(store, c), k);
  }

  /** Whatever stable algorithm sorts the filtered copy, the page shows Visible. */
  lemma VisibleIsEveryStableSort(store: seq<Listing>, c: Criteria, m: SortMode, r: seq<Listing>)
    requires multiset(r) == multiset(FilterListings(store, c)) && Sorted(m, r)
    requires forall k :: KeyClass(m, r, k) == KeyClass(m, FilterListings(store, c), k)
    ensures r == Visible(store, c, m)
  {
    AnyStableSortAgrees(m, FilterListings(store, c), r);
  }
}
