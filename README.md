# UrbanNest listing engine, modelled in Dafny

UrbanNest is a single-page React app for browsing a fixed catalogue of property
listings. All of its logic sits in the `App` component (`my-app/src/App.js`):

- a **filter** with five search fields: type, minimum price, maximum price, minimum bedrooms and a postcode fragment;
- a **sort** menu: no sorting, price ascending, price descending, newest first;
- a **detail view** of one listing, opened by clicking its card and closed with Back;
- a **favourites** list, with add and remove.

This project models that engine and proves what it promises.

Files, one module each:

- `listings.dfy` (`Listings`): the `Listing` record, `Option`, and two sequence predicates: unique identifiers and subsequence.
- `text.dfy` (`Text`): ASCII `toLowerCase` and `String.prototype.includes`. `ContainsIff` proves the recursive search equal to "occurs at some index".
- `filter.dfy` (`Filter`): the search form as `Criteria`, the filter callback `Matches`, and `properties.filter(...)` as `FilterListings`.
- `sort.dfy` (`Sort`): the sort comparator, written out as in the source. Its sort is modelled as a stable insertion sort. The module proves that the insertion sort is sorted and stable. It also proves that every stable sort under this comparator returns the same sequence. So the model does not depend on which stable algorithm a JavaScript engine uses (ECMA-262 requires `Array.prototype.sort` to be stable from the 10th edition, section 22.1.3.27).
- `query.dfy` (`Query`): `filteredProperties` as `Visible`, the filter followed by the sort, with its end-to-end properties.
- `favourites.dfy` (`Favourites`): `find`, `addToFavourites` and `removeFromFavourites` as pure functions on the list, with their lemmas.
- `app.dfy` (`App`): the component's hook state as class `AppState`. It has one field per piece of state. Each event handler is a method that replaces the field it changes and states that the other fields are unchanged. `AddThenRemoveFirstCard` replays, as a verified client, the open–add–back–remove sequence of `App.test.js:40-52`.

Modelling choices:

- The store (`properties.json`) is a constructor argument, `AppState.store`. Its identifiers are required to be unique.
- Prices and bedroom counts are `nat`. `dateAdded` is an integer day number, compared numerically.
- The three numeric fields are `<input type="number">` (`App.js:63-82`); the browser gives such a field the value `""` whenever its text is not a valid number. An empty numeric field is `None`, a filled one an integer bound (`Option<int>`, since a number input accepts negative values). The postcode field keeps its text, and `""` means "no constraint", exactly as in the source.
- The type field is `Option<PropertyType>`. Its menu offers only `""` and the three type names.
- A sort-menu value becomes a `SortMode` through `ParseSortMode`. Any value other than the three named ones gives `NoSort`, just as the comparator returns 0 for it.
- The detail view is opened by `SelectCard(i)`, the click on the `i`-th card of the list view. Only cards of `filteredProperties` can be clicked (`App.js:133-137`).
- Each handler is callable only in the view that renders its control. The search form, the sort menu, the cards and the favourites' Remove buttons belong to the list view (`App.js:47`, `App.js:112-147`): `SetCriterion`, `SetSort`, `SelectCard` and `RemoveFavourite` require `selected == None`. The Back and add buttons belong to the detail view (`App.js:93-111`): `Back` and `ClickAddButton` require an open listing. So one open listing is never replaced by another without passing through the list view.
- `App.js` has no minimum-date filter, no image gallery, no description or floor-plan tabs and no "clear favourites"; none is modelled.

## Model

| member | source | states |
|---|---|---|
| `Text.Lower` | my-app/src/App.js:23 | lower-casing keeps the length and lower-cases each character; no capital letter remains |
| `Text.Contains` | my-app/src/App.js:23 | `includes`: the empty query is always included, and a query longer than the text never is |
| `Text.ContainsIff` | my-app/src/App.js:23 | `s.includes(sub)` holds iff `sub` occurs in `s` at some index |
| `Filter.Matches` | my-app/src/App.js:16-24 | the filter callback: an empty form accepts every listing and a minimum price above the maximum accepts none; MatchesIff gives its full reading |
| `Filter.MatchesIff` | my-app/src/App.js:16-24 | the filter callback accepts a listing iff every non-empty criterion holds: type equal, price >= min, price <= max, bedrooms >= minimum, lower-cased query occurs in lower-cased postcode |
| `Filter.MatchesEachActiveField` | my-app/src/App.js:17-24 | the criteria combine by conjunction: a listing matches iff it matches each non-empty field alone; an empty field excludes nothing |
| `Filter.PostcodeQueryCaseInsensitive` | my-app/src/App.js:22-23 | lower-casing the query does not change which listings match |
| `Filter.PostcodeExample` | my-app/src/App.js:22-23 | a listing with postcode "BR1 2AB" matches the query "br1" |
| `Filter.FilterListings` | my-app/src/App.js:15-25 | the filter result holds exactly the store's matching listings, is a subsequence of the store (store order), and is never longer |
| `Filter.FilterKeepsUniqueIds` | my-app/src/App.js:15-25 | filtering a store with unique identifiers gives a sequence with unique identifiers |
| `Filter.FilterNoCriteria` | my-app/src/App.js:18-23 | with every field empty the filter returns the whole store in order |
| `Filter.FilterConcat` | my-app/src/App.js:15-25 | filtering distributes over concatenation, so the filter never reorders |
| `Sort.ParseSortMode` | my-app/src/App.js:26-30 | the three named menu values select their modes; every other value selects no sorting |
| `Sort.Compare` | my-app/src/App.js:26-31 | each comparator equals the difference of the mode's sort keys (price, minus price, minus date, or 0), so it is consistent |
| `Sort.SortListings` | my-app/src/App.js:26-31 | the sorted sequence is a permutation of its input |
| `Sort.KeyClassMembers` | my-app/src/App.js:26-31 | a key class holds exactly the entries with that key |
| `Sort.SortIsSorted` | my-app/src/App.js:26-31 | sort keys never decrease along the sorted sequence |
| `Sort.SortIsStable` | my-app/src/App.js:26-31 | the entries of each key keep their relative order (stability) |
| `Sort.StableSortUnique` | my-app/src/App.js:26-31 | two sorted sequences of one length with the same key classes are equal |
| `Sort.AnyStableSortAgrees` | my-app/src/App.js:26-31 | any sorted, stable permutation of the input equals the model's sort, so every conforming `Array.prototype.sort` returns it |
| `Sort.NoSortKeepsOrder` | my-app/src/App.js:30 | under no sorting the sort returns its input unchanged |
| `Sort.SortOrderPerMode` | my-app/src/App.js:27-29 | price-asc gives non-decreasing prices, price-desc non-increasing prices, date non-increasing dates |
| `Sort.SortKeepsUniqueIds` | my-app/src/App.js:26-31 | sorting keeps identifiers unique |
| `Query.Visible` | my-app/src/App.js:15-31 | the visible list is a permutation of the filtered store, and the filtered store is a subsequence of the store |
| `Query.VisibleIff` | my-app/src/App.js:15-25 | a listing is visible iff it is in the store and meets every non-empty criterion |
| `Query.VisibleInitially` | my-app/src/App.js:6-13 | with every field empty and no sorting, the visible list is the store in its order |
| `Query.VisibleUnsorted` | my-app/src/App.js:30 | under no sorting the visible list is the filter result in store order |
| `Query.VisibleUniqueIds` | my-app/src/App.js:15-31 | nothing is duplicated: a store with unique identifiers gives a visible list with unique identifiers |
| `Query.VisibleOrdered` | my-app/src/App.js:27-29 | the visible list is ordered as the chosen menu entry promises |
| `Query.VisibleStable` | my-app/src/App.js:26-31 | visible listings of equal sort key appear in store order |
| `Query.VisibleIsEveryStableSort` | my-app/src/App.js:26-31 | whichever stable algorithm sorts the filtered copy, the result is the visible list |
| `Favourites.Find` | my-app/src/App.js:34 | `find` returns an entry iff some entry has the identifier, and then an entry with that identifier |
| `Favourites.FindReturnsFirst` | my-app/src/App.js:34 | the entry `find` returns is the first with the identifier: no earlier entry carries it |
| `Favourites.AddFav` | my-app/src/App.js:33-37 | adding a listing whose identifier is saved changes nothing; otherwise the listing is appended |
| `Favourites.RemoveFav` | my-app/src/App.js:39-41 | removal keeps exactly the entries with another identifier, as a subsequence of the list |
| `Favourites.AddFavSaves` | my-app/src/App.js:33-37 | after adding, the listing's identifier is saved |
| `Favourites.AddFavKeepsUniqueIds` | my-app/src/App.js:33-37 | adding never gives two entries one identifier |
| `Favourites.AddFavIdempotent` | my-app/src/App.js:33-37 | adding twice equals adding once |
| `Favourites.AddFavScenario` | my-app/src/App.js:33-37 | adding #1, #1 and #2 to an empty list gives [#1, #2] |
| `Favourites.RemoveFavAbsent` | my-app/src/App.js:39-41 | removing an identifier that is not saved changes nothing |
| `Favourites.RemoveFavIdempotent` | my-app/src/App.js:39-41 | removing twice equals removing once |
| `Favourites.RemoveFavKeepsUniqueIds` | my-app/src/App.js:39-41 | removing keeps identifiers unique |
| `Favourites.RemoveFavConcat` | my-app/src/App.js:40 | removal distributes over concatenation: the kept entries keep their order |
| `Favourites.RemoveFavUndoesAdd` | my-app/src/App.js:33-41 | removing a listing just added restores the list |
| `App.AppState.VisibleListings` | my-app/src/App.js:133 | the cards shown are exactly the store's listings that match the current criteria |
| `App.AppState.AddButtonDisabled` | my-app/src/App.js:105 | the add button is disabled iff the open listing's identifier is among the favourites |
| `App.AppState.constructor` | my-app/src/App.js:6-13 | the first state: empty fields, no sorting, list view, no favourites; the whole store is shown in order |
| `App.AppState.SetCriterion` | my-app/src/App.js:56-89 | in the list view, one search field changes; sort, selection and favourites do not |
| `App.AppState.SetSort` | my-app/src/App.js:49 | in the list view, the sort mode becomes that of the menu value; nothing else changes |
| `App.AppState.SelectCard` | my-app/src/App.js:137 | in the list view, the clicked card's listing opens; criteria, sort and favourites do not change |
| `App.AppState.Back` | my-app/src/App.js:95 | in the detail view, the selection returns to none; nothing else changes |
| `App.AppState.AddFavourite` | my-app/src/App.js:33-37 | the favourites become AddFav of the old list; identifiers stay unique; nothing else changes |
| `App.AppState.ClickAddButton` | my-app/src/App.js:103-106 | a click on the add button leaves AddFav of the old list and a disabled button; nothing else changes |
| `App.AppState.RemoveFavourite` | my-app/src/App.js:124 | in the list view, the favourites become RemoveFav of the old list; nothing else changes |
| `App.AddThenRemoveFirstCard` | my-app/src/App.test.js:29-52 | opening the first card and clicking add disables the add button; going back and removing it leaves the favourites empty |

## Left out

- Rendering: the JSX of `App.js:43-150`, CSS, headings and cards. It is presentation only.
- `properties.json` is not part of this model. The store is an arbitrary sequence, with unique identifiers required of it.
- Fractional bounds such as "2.5" in a numeric field are not modelled: a bound is an integer. This loses nothing, because prices and bedroom counts are integers, so a fractional minimum selects the same listings as its ceiling and a fractional maximum the same as its floor.
- `new Date(...)` parsing and the floating-point subtraction of the comparators. Dates are integer day numbers and prices are integers.
- Unicode case mapping in `toLowerCase`. Only ASCII letters are lower-cased.
- A type value other than `""` and the three names cannot come from the type menu. It is not modelled.
- React's hooks and re-rendering. The state is a class whose methods replace fields.
- `App.test.js:25` expects a "Description:" text that `App.js` never renders; that test has no counterpart in the model.
