/** The favourites list: `addToFavourites` appends a listing whose identifier is not
    yet saved, `removeFromFavourites` drops every entry with an identifier. */
module Favourites {
  import opened Listings

  /** Some entry of `favs` carries identifier `id`. */
  ghost predicate HasId(favs: seq<Listing>, id: int) {
    exists f :: f in favs && f.id == id
  }

  /** `favourites.find(fav => fav.id === id)`: the first entry with that identifier, if any. */
  function Find(favs: seq<Listing>, id: int): (r: Option<Listing>)
    ensures r.Some? <==> HasId(favs, id)
    ensures r.Some? ==> r.value in favs && r.value.id == id
  {
    if favs == [] then None
    else if favs[0].id == id then Some(favs[0])
    else Find(favs[1..], id)
  }

  /** `find` returns the first entry with the identifier: no earlier entry carries it. */
  lemma {:induction false} FindReturnsFirst(favs: seq<Listing>, id: int)
    requires Find(favs, id).Some?
    ensures exists i ::
      && 0 <= i < |favs|
      && favs[i] == Find(favs, id).value
      && forall j :: 0 <= j < i ==> favs[j].id != id
  {
    if favs[0].id != id {
      FindReturnsFirst(favs[1..], id);
      var i :|
        && 0 <= i < |favs[1..]|
        && favs[1..][i] == Find(favs[1..], id).value
        && forall j :: 0 <= j < i ==> favs[1..][j].id != id;
      assert favs[i + 1] == Find(favs, id).value;
      forall j | 0 <= j < i + 1 ensures favs[j].id != id {
        if j > 0 {
          assert favs[j] == favs[1..][j - 1];
        }
      }
    }
  }

  /** The list after `addToFavourites(p)`. */
  function AddFav(favs: seq<Listing>, p: Listing): (r: seq<Listing>)
    ensures HasId(favs, p.id) ==> r == favs
    ensures !HasId(favs, p.id) ==> r == favs + [p]
  {
    if Find(favs, p.id).Some? then favs else favs + [p]
  }

  /** The list after `removeFromFavourites(id)`: the other entries, in their order. */
  function RemoveFav(favs: seq<Listing>, id: int): (r: seq<Listing>)
    ensures forall f :: f in r <==> f in favs && f.id != id
    ensures IsSubsequence(r, favs)
  {
    if favs == [] then []
    else if favs[0].id != id then [favs[0]] + RemoveFav(favs[1..], id)
    else RemoveFav(favs[1..], id)
  }

  /** After adding, the listing's identifier is saved, so the add button is disabled. */
  lemma AddFavSaves(favs: seq<Listing>, p: Listing)
    ensures HasId(AddFav(favs, p), p.id)
  {
    if !HasId(favs, p.id) {
      assert p in favs + [p];
    }
  }

  /** Adding never gives two entries one identifier. */
  lemma AddFavKeepsUniqueIds(favs: seq<Listing>, p: Listing)
    requires UniqueIds(favs)
    ensures UniqueIds(AddFav(favs, p))
  {
    UniqueIdsSnoc(favs, p);
  }

  /** Adding twice is adding once. */
  lemma AddFavIdempotent(favs: seq<Listing>, p: Listing)
    ensures AddFav(AddFav(favs, p), p) == AddFav(favs, p)
  {
    AddFavSaves(favs, p);
  }

  /** Adding listings #1, #1, #2 to an empty list gives [#1, #2]. */
  lemma AddFavScenario(a: Listing, b: Listing)
    requires a.id != b.id
    ensures AddFav(AddFav(AddFav([], a), a), b) == [a, b]
  {
    AddFavIdempotent([], a);
    assert AddFav([], a) == [a];
    assert !HasId([a], b.id);
  }

  /** Removing an identifier that is not saved changes nothing. */
  lemma {:induction false} RemoveFavAbsent(favs: seq<Listing>, id: int)
    requires !HasId(favs, id)
    ensures RemoveFav(favs, id) == favs
  {
    if favs != [] {
      assert favs[0] in favs;
      assert !HasId(favs[1..], id) by {
        forall f | f in favs[1..] ensures f.id != id {
          assert f in favs;
        }
      }
      RemoveFavAbsent(favs[1..], id);
    }
  }

  /** Removing twice is removing once. */
  lemma RemoveFavIdempotent(favs: seq<Listing>, id: int)
    ensures RemoveFav(RemoveFav(favs, id), id) == RemoveFav(favs, id)
  {
    RemoveFavAbsent(RemoveFav(favs, id), id);
  }

  /** Removing keeps identifiers unique. */
  lemma RemoveFavKeepsUniqueIds(favs: seq<Listing>, id: int)
    requires UniqueIds(favs)
    ensures UniqueIds(RemoveFav(favs, id))
  {
    SubsequenceKeepsUniqueIds(RemoveFav(favs, id), favs);
  }

  /** Removing from a concatenation removes from each part: the kept entries never move
      past one another. */
  lemma {:induction false} RemoveFavConcat(a: seq<Listing>, b: seq<Listing>, id: int)
    ensures RemoveFav(a + b, id) == RemoveFav(a, id) + RemoveFav(b, id)
  {
    if a == [] {
      assert a + b == b;
    } else {
      assert (a + b)[1..] == a[1..] + b;
      RemoveFavConcat(a[1..], b, id);
    }
  }

  /** Removing a listing just added undoes the addition. */
  lemma RemoveFavUndoesAdd(favs: seq<Listing>, p: Listing)
    requires !HasId(favs, p.id)
    ensures RemoveFav(AddFav(favs, p), p.id) == favs
  {
    RemoveFavConcat(favs, [p], p.id);
    RemoveFavAbsent(favs, p.id);
    assert RemoveFav([p], p.id) == [];
  }
}
