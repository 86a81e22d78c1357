/** The sort step of the listing page: a comparator chosen by the sort menu, run
    through `Array.prototype.sort`, which must be stable (ECMA-262, 10th edition,
    section 22.1.3.27). The model sorts by insertion, which is stable, and proves that
    every stable sort under this comparator gives the same sequence. */
module Sort {
  import opened Listings

  /** The sort menu: "" ("No sorting"), "price-asc", "price-desc" and "date". */
  datatype SortMode = NoSort | PriceAsc | PriceDesc | DateNewest

  /** The menu value to mode; any value other than the three named ones sorts nothing. */
  function ParseSortMode(v: string): (m: SortMode)
    ensures m == PriceAsc <==> v == "price-asc"
    ensures m == PriceDesc <==> v == "price-desc"
    ensures m == DateNewest <==> v == "date"
    ensures m == NoSort <==> v !in {"price-asc", "price-desc", "date"}
  {
    if v == "price-asc" then PriceAsc
    else if v == "price-desc" then PriceDesc
    else if v == "date" then DateNewest
    else NoSort
  }

  /** The number a listing is ordered by: ascending price, descending price,
      newest date first, or one key shared by all listings. */
  function Key(m: SortMode, p: Listing): int {
    match m
    case PriceAsc => p.price
    case PriceDesc => -(p.price as int)
    case DateNewest => -p.dateAdded
    case NoSort => 0
  }

  /** The comparator given to `sort`: negative puts `a` first, positive puts `b` first.
      It is the difference of the keys, so it is a consistent comparator. */
  function Compare(m: SortMode, a: Listing, b: Listing): (r: int)
    ensures r == Key(m, a) - Key(m, b)
  {
    match m
    case PriceAsc => a.price - b.price
    case PriceDesc => b.price - a.price
    case DateNewest => b.dateAdded - a.dateAdded
    case NoSort => 0
  }

  /** Keys never decrease along `s`. */
  predicate Sorted(m: SortMode, s: seq<Listing>) {
    forall i, j :: 0 <= i < j < |s| ==> Key(m, s[i]) <= Key(m, s[j])
  }

  /** The entries of `s` whose key is `k`, in the order of `s`. Stability means
      that sorting keeps each of these sequences as it was. */
  function KeyClass(m: SortMode, s: seq<Listing>, k: int): (r: seq<Listing>)
    ensures |r| <= |s|
  {
    if s == [] then []
    else if Key(m, s[0]) == k then [s[0]] + KeyClass(m, s[1..], k)
    else KeyClass(m, s[1..], k)
  }

  /** A key class holds exactly the entries of that key. */
  lemma {:induction false} KeyClassMembers(m: SortMode, s: seq<Listing>, k: int)
    ensures forall p :: p in KeyClass(m, s, k) <==> p in s && Key(m, p) == k
  {
    if s != [] {
      KeyClassMembers(m, s[1..], k);
      assert forall p :: p in s <==> p == s[0] || p in s[1..];
    }
  }

  /** Places `x` before the first entry of `t` that does not compare less than it. */
  function Insert(m: SortMode, x: Listing, t: seq<Listing>): (r: seq<Listing>)
    ensures multiset(r) == multiset(t) + multiset{x}
    ensures |r| == |t| + 1
  {
    if t == [] then [x]
    else if Compare(m, x, t[0]) <= 0 then [x] + t
    else
      assert t == [t[0]] + t[1..];
      [t[0]] + Insert(m, x, t[1..])
  }

  /** The sorted copy of `s`: its first entry inserted into the sorted copy of the rest.
      An entry goes in front of the later entries of equal key, so the sort is stable. */
  function SortListings(m: SortMode, s: seq<Listing>): (r: seq<Listing>)
    ensures multiset(r) == multiset(s)
    ensures |r| == |s|
  {
    if s == [] then []
    else
      assert s == [s[0]] + s[1..];
      Insert(m, s[0], SortListings(m, s[1..]))
  }

  /** A sequence with a head is sorted iff its tail is and the head's key is a lower bound. */
  lemma SortedCons(m: SortMode, y: Listing, t: seq<Listing>)
    ensures Sorted(m, [y] + t) <==> Sorted(m, t) && forall z :: z in t ==> Key(m, y) <= Key(m, z)
  {
    var s := [y] + t;
    if Sorted(m, t) && forall z :: z in t ==> Key(m, y) <= Key(m, z) {
      forall i, j | 0 <= i < j < |s| ensures Key(m, s[i]) <= Key(m, s[j]) {
        assert s[j] == t[j - 1] && s[j] in t;
        if i > 0 {
          assert s[i] == t[i - 1];
        }
      }
    }
    if Sorted(m, s) {
      forall i, j | 0 <= i < j < |t| ensures Key(m, t[i]) <= Key(m, t[j]) {
        assert t[i] == s[i + 1] && t[j] == s[j + 1];
      }
      forall z | z in t ensures Key(m, y) <= Key(m, z) {
        var k :| 0 <= k < |t| && t[k] == z;
        assert s[0] == y && s[k + 1] == z;
      }
    }
  }

  lemma {:induction false} InsertSorted(m: SortMode, x: Listing, t: seq<Listing>)
    requires Sorted(m, t)
    ensures Sorted(m, Insert(m, x, t))
    decreases |t|
  {
    if t != [] {
      assert t == [t[0]] + t[1..];
      SortedCons(m, t[0], t[1..]);
      if Compare(m, x, t[0]) <= 0 {
        SortedCons(m, x, t);
      } else {
        var rest := Insert(m, x, t[1..]);
        InsertSorted(m, x, t[1..]);
        forall z | z in rest ensures Key(m, t[0]) <= Key(m, z) {
          assert z in multiset(rest);
        }
        SortedCons(m, t[0], rest);
      }
    }
  }

  /** Inserting `x` puts it at the front of its own key class and leaves every
      other key class as it was. */
  lemma {:induction false} InsertKeyClass(m: SortMode, x: Listing, t: seq<Listing>, k: int)
    ensures KeyClass(m, Insert(m, x, t), k) ==
      if Key(m, x) == k then [x] + KeyClass(m, t, k) else KeyClass(m, t, k)
    decreases |t|
  {
    if t != [] && Compare(m, x, t[0]) > 0 {
      InsertKeyClass(m, x, t[1..], k);
      var rest := Insert(m, x, t[1..]);
      assert ([t[0]] + rest)[1..] == rest;
    }
  }

  /** The sort keeps keys in non-decreasing order. */
  lemma {:induction false} SortIsSorted(m: SortMode, s: seq<Listing>)
    ensures Sorted(m, SortListings(m, s))
  {
    if s != [] {
      SortIsSorted(m, s[1..]);
      InsertSorted(m, s[0], SortListings(m, s[1..]));
    }
  }

  /** The sort is stable: the entries of any one key keep their relative order. */
  lemma {:induction false} SortIsStable(m: SortMode, s: seq<Listing>, k: int)
    ensures KeyClass(m, SortListings(m, s), k) == KeyClass(m, s, k)
  {
    if s != [] {
      SortIsStable(m, s[1..], k);
      InsertKeyClass(m, s[0], SortListings(m, s[1..]), k);
    }
  }

  /** Two sorted non-empty sequences with the same key classes start with the same entry. */
  lemma SameHead(m: SortMode, r1: seq<Listing>, r2: seq<Listing>)
    requires r1 != [] && r2 != [] && Sorted(m, r1) && Sorted(m, r2)
    requires forall k :: KeyClass(m, r1, k) == KeyClass(m, r2, k)
    ensures r1[0] == r2[0]
  {
    var k1, k2 := Key(m, r1[0]), Key(m, r2[0]);
    assert KeyClass(m, r1, k1) == [r1[0]] + KeyClass(m, r1[1..], k1);
    assert KeyClass(m, r2, k2) == [r2[0]] + KeyClass(m, r2[1..], k2);
    KeyClassMembers(m, r2, k1);
    KeyClassMembers(m, r1, k2);
    assert r1[0] in KeyClass(m, r2, k1);
    assert r2[0] in KeyClass(m, r1, k2);
    assert k1 == k2 by {
      SortedCons(m, r1[0], r1[1..]);
      SortedCons(m, r2[0], r2[1..]);
      assert r1 == [r1[0]] + r1[1..] && r2 == [r2[0]] + r2[1..];
    }
    assert KeyClass(m, r1, k1)[0] == r1[0];
    assert KeyClass(m, r2, k1)[0] == r2[0];
  }

  /** Two sorted sequences of one length with the same key classes are equal, so
      every stable sort under this comparator returns what SortListings returns. */
  lemma {:induction false} StableSortUnique(m: SortMode, r1: seq<Listing>, r2: seq<Listing>)
    requires |r1| == |r2| && Sorted(m, r1) && Sorted(m, r2)
    requires forall k :: KeyClass(m, r1, k) == KeyClass(m, r2, k)
    ensures r1 == r2
    decreases |r1|
  {
    if r1 != [] {
      SameHead(m, r1, r2);
      var t1, t2 := r1[1..], r2[1..];
      forall k ensures KeyClass(m, t1, k) == KeyClass(m, t2, k) {
        assert KeyClass(m, r1, k) == KeyClass(m, r2, k);
        if Key(m, r1[0]) == k {
          assert KeyClass(m, t1, k) == KeyClass(m, r1, k)[1..];
          assert KeyClass(m, t2, k) == KeyClass(m, r2, k)[1..];
        }
      }
      assert r1 == [r1[0]] + t1 && r2 == [r2[0]] + t2;
      SortedCons(m, r1[0], t1);
      SortedCons(m, r2[0], t2);
      StableSortUnique(m, t1, t2);
    }
  }

  /** Any permutation of `s` that is sorted and has the key classes of `s` is
      SortListings(m, s): the model does not depend on which stable algorithm the
      engine uses. */
  lemma AnyStableSortAgrees(m: SortMode, s: seq<Listing>, r: seq<Listing>)
    requires multiset(r) == multiset(s) && Sorted(m, r)
    requires forall k :: KeyClass(m, r, k) == KeyClass(m, s, k)
    ensures r == SortListings(m, s)
  {
    SortIsSorted(m, s);
    assert |r| == |multiset(r)| == |multiset(s)| == |SortListings(m, s)|;
    forall k ensures KeyClass(m, r, k) == KeyClass(m, SortListings(m, s), k) {
      SortIsStable(m, s, k);
    }
    StableSortUnique(m, r, SortListings(m, s));
  }

  /** Under "No sorting" every listing shares one key, so the sort returns its input. */
  lemma NoSortKeepsOrder(s: seq<Listing>)
    ensures SortListings(NoSort, s) == s
  {
    KeyClassAll(s);
    KeyClassAll(SortListings(NoSort, s));
    SortIsStable(NoSort, s, 0);
  }

  /** Under "No sorting" the one key class is the whole sequence. */
  lemma {:induction false} KeyClassAll(t: seq<Listing>)
    ensures KeyClass(NoSort, t, 0) == t
  {
    if t != [] {
      KeyClassAll(t[1..]);
    }
  }

  /** What each menu entry promises about the order of the sorted sequence. */
  lemma SortOrderPerMode(m: SortMode, s: seq<Listing>, i: int, j: int)
    requires 0 <= i < j < |s|
    ensures m == PriceAsc ==> SortListings(m, s)[i].price <= SortListings(m, s)[j].price
    ensures m == PriceDesc ==> SortListings(m, s)[i].price >= SortListings(m, s)[j].price
    ensures m == DateNewest ==> SortListings(m, s)[i].dateAdded >= SortListings(m, s)[j].dateAdded
  {
    SortIsSorted(m, s);
  }

  /** Sorting never creates two entries with one identifier. */
  lemma {:induction false} SortKeepsUniqueIds(m: SortMode, s: seq<Listing>)
    requires UniqueIds(s)
    ensures UniqueIds(SortListings(m, s))
  {
    if s != [] {
      assert s == [s[0]] + s[1..];
      UniqueIdsCons(s[0], s[1..]);
      SortKeepsUniqueIds(m, s[1..]);
      var t := SortListings(m, s[1..]);
      forall y | y in t ensures y.id != s[0].id {
        assert y in multiset(t);
      }
      InsertKeepsUniqueIds(m, s[0], t);
    }
  }

  lemma {:induction false} InsertKeepsUniqueIds(m: SortMode, x: Listing, t: seq<Listing>)
    requires UniqueIds(t) && forall y :: y in t ==> y.id != x.id
    ensures UniqueIds(Insert(m, x, t))
    decreases |t|
  {
    if t == [] {
    } else if Compare(m, x, t[0]) <= 0 {
      UniqueIdsCons(x, t);
    } else {
      assert t == [t[0]] + t[1..];
      UniqueIdsCons(t[0], t[1..]);
      InsertKeepsUniqueIds(m, x, t[1..]);
      var rest := Insert(m, x, t[1..]);
      forall y | y in rest ensures y.id != t[0].id {
        assert y in multiset(rest);
      }
      UniqueIdsCons(t[0], rest);
    }
  }
}
