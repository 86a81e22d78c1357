/** The filter predicate of the listing page: five independent criteria, each of
    which excludes nothing while its form field is empty. */
module Filter {
  import opened Listings
  import opened Text

  /** The five criteria of the search form. A numeric field is `None` while its text is
      empty; the postcode field keeps its text, the empty text meaning "no constraint". */
  datatype Criteria = Criteria(
    kind: Option<PropertyType>,
    minPrice: Option<int>,
    maxPrice: Option<int>,
    bedrooms: Option<int>,
    postcode: string)
  {
    /** The criteria after one form field changed. */
    function With(u: Update): Criteria {
      match u
      case SetKind(k) => this.(kind := k)
      case SetMinPrice(v) => this.(minPrice := v)
      case SetMaxPrice(v) => this.(maxPrice := v)
      case SetBedrooms(v) => this.(bedrooms := v)
      case SetPostcode(q) => this.(postcode := q)
    }

    /** Whether field `f` holds a value, that is, constrains anything. */
    predicate Active(f: Field) {
      match f
      case KindField => kind.Some?
      case MinPriceField => minPrice.Some?
      case MaxPriceField => maxPrice.Some?
      case BedroomsField => bedrooms.Some?
      case PostcodeField => postcode != ""
    }
  }

  /** A change of one form field. */
  datatype Update =
    | SetKind(kind: Option<PropertyType>)
    | SetMinPrice(minPrice: Option<int>)
    | SetMaxPrice(maxPrice: Option<int>)
    | SetBedrooms(bedrooms: Option<int>)
    | SetPostcode(postcode: string)

  /** The names of the five fields. */
  datatype Field = KindField | MinPriceField | MaxPriceField | BedroomsField | PostcodeField

  /** The initial form: every field empty. */
  const NoCriteria := Criteria(None, None, None, None, "")

  /** `c` with every field but `f` emptied. */
  function Only(c: Criteria, f: Field): Criteria {
    match f
    case KindField => NoCriteria.(kind := c.kind)
    case MinPriceField => NoCriteria.(minPrice := c.minPrice)
    case MaxPriceField => NoCriteria.(maxPrice := c.maxPrice)
    case BedroomsField => NoCriteria.(bedrooms := c.bedrooms)
    case PostcodeField => NoCriteria.(postcode := c.postcode)
  }

  /** The callback given to `filter`. An empty form accepts every listing, and a minimum
      price above the maximum accepts none; MatchesIff gives its full reading. */
  predicate Matches(p: Listing, c: Criteria): (r: bool)
    ensures c == NoCriteria ==> r
    ensures c.minPrice.Some? && c.maxPrice.Some? && c.minPrice.value > c.maxPrice.value ==> !r
  {
    && (c.kind.None? || p.kind == c.kind.value)
    && (c.minPrice.None? || p.price >= c.minPrice.value)
    && (c.maxPrice.None? || p.price <= c.maxPrice.value)
    && (c.bedrooms.None? || p.bedrooms >= c.bedrooms.value)
    && (c.postcode == "" || Contains(Lower(p.postcode), Lower(c.postcode)))
  }

  /** The reference reading of the criteria: every non-empty field holds, and the
      postcode field holds iff the lower-cased query occurs in the lower-cased postcode. */
  ghost predicate MeetsEveryCriterion(p: Listing, c: Criteria) {
    && (c.kind.Some? ==> p.kind == c.kind.value)
    && (c.minPrice.Some? ==> p.price >= c.minPrice.value)
    && (c.maxPrice.Some? ==> p.price <= c.maxPrice.value)
    && (c.bedrooms.Some? ==> p.bedrooms >= c.bedrooms.value)
    && (c.postcode != "" ==> exists i :: OccursAt(Lower(p.postcode), Lower(c.postcode), i))
  }

  /** The filter callback accepts exactly the listings that meet every non-empty criterion. */
  lemma MatchesIff(p: Listing, c: Criteria)
    ensures Matches(p, c) <==> MeetsEveryCriterion(p, c)
  {
    ContainsIff(Lower(p.postcode), Lower(c.postcode));
    if Matches(p, c) {
      assert MeetsEveryCriterion(p, c);
    }
    if MeetsEveryCriterion(p, c) {
      assert Matches(p, c);
    }
  }

  /** The criteria combine by conjunction, and an empty field excludes nothing:
      a listing matches iff it matches each active field on its own. */
  lemma MatchesEachActiveField(p: Listing, c: Criteria)
    ensures Matches(p, c) <==> forall f :: c.Active(f) ==> Matches(p, Only(c, f))
    ensures forall f :: !c.Active(f) ==> Matches(p, Only(c, f))
  {
    if forall f :: c.Active(f) ==> Matches(p, Only(c, f)) {
      assert c.Active(KindField) ==> Matches(p, Only(c, KindField));
      assert c.Active(MinPriceField) ==> Matches(p, Only(c, MinPriceField));
      assert c.Active(MaxPriceField) ==> Matches(p, Only(c, MaxPriceField));
      assert c.Active(BedroomsField) ==> Matches(p, Only(c, BedroomsField));
      assert c.Active(PostcodeField) ==> Matches(p, Only(c, PostcodeField));
    }
  }

  /** The postcode criterion ignores the case of the query: typing "br1" or "BR1" selects the same listings. */
  lemma PostcodeQueryCaseInsensitive(p: Listing, c: Criteria)
    ensures Matches(p, c.(postcode := Lower(c.postcode))) == Matches(p, c)
  {
    LowerIdempotent(c.postcode);
  }

  /** `properties.filter(Matches)`: the matching listings, in store order. */
  function FilterListings(s: seq<Listing>, c: Criteria): (r: seq<Listing>)
    ensures forall p :: p in r <==> p in s && Matches(p, c)
    ensures IsSubsequence(r, s)
    ensures |r| <= |s|
  {
    if s == [] then []
    else if Matches(s[0], c) then [s[0]] + FilterListings(s[1..], c)
    else FilterListings(s[1..], c)
  }

  /** The filter result never holds two listings with one identifier when the store does not. */
  lemma FilterKeepsUniqueIds(s: seq<Listing>, c: Criteria)
    requires UniqueIds(s)
    ensures UniqueIds(FilterListings(s, c))
  {
    SubsequenceKeepsUniqueIds(FilterListings(s, c), s);
  }

  /** With every field empty the filter keeps the whole store, in order. */
  lemma {:induction false} FilterNoCriteria(s: seq<Listing>)
    ensures FilterListings(s, NoCriteria) == s
  {
    if s != [] {
      FilterNoCriteria(s[1..]);
    }
  }

  /** Filtering a concatenation filters each part: the filter never reorders. */
  lemma {:induction false} FilterConcat(a: seq<Listing>, b: seq<Listing>, c: Criteria)
    ensures FilterListings(a + b, c) == FilterListings(a, c) + FilterListings(b, c)
  {
    if a != [] {
      var head := if Matches(a[0], c) then [a[0]] else [];
      assert (a + b)[0] == a[0] && (a + b)[1..] == a[1..] + b;
      assert FilterListings(a + b, c) == head + FilterListings(a[1..] + b, c);
      assert FilterListings(a, c) == head + FilterListings(a[1..], c);
      FilterConcat(a[1..], b, c);
      assert head + (FilterListings(a[1..], c) + FilterListings(b, c))
          == (head + FilterListings(a[1..], c)) + FilterListings(b, c);
    } else {
      assert a + b == b;
    }
  }

  /** A listing whose postcode contains the upper-case district of a lower-case query matches it. */
  lemma PostcodeExample()
    ensures Matches(Listing(1, House, 450000, 3, "BR1 2AB", 0), NoCriteria.(postcode := "br1"))
  {
    var hay := Lower("BR1 2AB");
    assert hay == "br1 2ab";
    assert StartsWith(hay, Lower("br1"));
  }
}
