/** The state of the `App` component: the search form, the sort menu, the listing
    open in the detail view and the favourites list, each a field that the event
    handlers replace. */
module App {
  import opened Listings
  import opened Filter
  import opened Sort
  import opened Query
  import opened Favourites

  class AppState {
    const store: seq<Listing>
    var criteria: Criteria
    var sort: SortMode
    /** `None` is the list view, `Some(p)` the detail view of `p`. */
    var selected: Option<Listing>
    var favourites: seq<Listing>

    /** Identifiers are unique in the store and among favourites, and an open listing
        is one of the store's. */
    ghost predicate Valid()
      reads this
    {
      && UniqueIds(store)
      && UniqueIds(favourites)
      && (selected.Some? ==> selected.value in store)
    }

    /** The cards of the list view, in display order. */
    function VisibleListings(): (r: seq<Listing>)
      reads this
      ensures forall p :: p in r <==> p in store && Matches(p, criteria)
    {
      assert forall p :: p in Visible(store, criteria, sort) <==> p in multiset(FilterListings(store, criteria));
      Visible(store, criteria, sort)
    }

    /** The detail view's add button is disabled iff the open listing is already saved. */
    predicate AddButtonDisabled()
      reads this
      requires selected.Some?
      ensures AddButtonDisabled() <==> HasId(favourites, selected.value.id)
    {
      Find(favourites, selected.value.id).Some?
    }

    /** The first render: every field empty, no sorting, list view, no favourites. */
    constructor (listings: seq<Listing>)
      requires UniqueIds(listings)
      ensures Valid() && store == listings
      ensures criteria == NoCriteria && sort == NoSort && selected == None && favourites == []
      ensures VisibleListings() == listings
    {
      store := listings;
      criteria := NoCriteria;
      sort := NoSort;
      selected := None;
      favourites := [];
      new;
      VisibleInitially(listings);
    }

    /** A search field changed (`setType`, `setMinPrice`, `setMaxPrice`, `setBedrooms`,
        `setPostcode`); the search form is shown in the list view only. */
    method SetCriterion(u: Update)
      requires Valid() && selected.None?
      modifies this
      ensures Valid()
      ensures criteria == old(criteria).With(u)
      ensures sort == old(sort) && selected == old(selected) && favourites == old(favourites)
    {
      criteria := criteria.With(u);
    }

    /** The sort menu, part of the list view's search form, changed to value `v`. */
    method SetSort(v: string)
      requires Valid() && selected.None?
      modifies this
      ensures Valid()
      ensures sort == ParseSortMode(v)
      ensures criteria == old(criteria) && selected == old(selected) && favourites == old(favourites)
    {
      sort := ParseSortMode(v);
    }

    /** The `i`-th card of the list view was clicked: its listing opens in the detail view. */
    method SelectCard(i: nat)
      requires Valid() && selected.None? && i < |VisibleListings()|
      modifies this
      ensures Valid()
      ensures selected == Some(old(VisibleListings())[i])
      ensures criteria == old(criteria) && sort == old(sort) && favourites == old(favourites)
    {
      var cards := VisibleListings();
      assert cards[i] in cards;
      selected := Some(cards[i]);
    }

    /** The detail view's Back button: return to the list view. */
    method Back()
      requires Valid() && selected.Some?
      modifies this
      ensures Valid()
      ensures selected == None
      ensures criteria == old(criteria) && sort == old(sort) && favourites == old(favourites)
    {
      selected := None;
    }

    /** `addToFavourites(p)`. */
    method AddFavourite(p: Listing)
      requires Valid()
      modifies this
      ensures Valid()
      ensures favourites == AddFav(old(favourites), p)
      ensures criteria == old(criteria) && sort == old(sort) && selected == old(selected)
    {
      AddFavKeepsUniqueIds(favourites, p);
      favourites := AddFav(favourites, p);
    }

    /** A click on the detail view's add button: a disabled button delivers no click,
        an enabled one adds the open listing; either way the result is AddFav and the
        button is disabled afterwards. */
    method ClickAddButton()
      requires Valid() && selected.Some?
      modifies this
      ensures Valid()
      ensures criteria == old(criteria) && sort == old(sort) && selected == old(selected)
      ensures favourites == AddFav(old(favourites), selected.value)
      ensures AddButtonDisabled()
    {
      if !AddButtonDisabled() {
        AddFavourite(selected.value);
      }
      AddFavSaves(old(favourites), selected.value);
    }

    /** `removeFromFavourites(id)`, the Remove button of a favourites card in the list view. */
    method RemoveFavourite(id: int)
      requires Valid() && selected.None?
      modifies this
      ensures Valid()
      ensures favourites == RemoveFav(old(favourites), id)
      ensures criteria == old(criteria) && sort == old(sort) && selected == old(selected)
    {
      RemoveFavKeepsUniqueIds(favourites, id);
      favourites := RemoveFav(favourites, id);
    }
  }

  /** Open the first card, add it, go back, remove it: the add button is disabled after
      the click, and the favourites list ends empty again. */
  method AddThenRemoveFirstCard(listings: seq<Listing>) returns (disabledAfterAdd: bool, finalFavourites: seq<Listing>)
    requires UniqueIds(listings) && listings != []
    ensures disabledAfterAdd
    ensures finalFavourites == []
  {
    var app := new AppState(listings);
    app.SelectCard(0);
    var first := app.selected.value;
    assert first == listings[0];
    app.ClickAddButton();
    disabledAfterAdd := app.AddButtonDisabled();
    assert app.favourites == [first];
    app.Back();
    app.RemoveFavourite(first.id);
    finalFavourites := app.favourites;
  }
}
