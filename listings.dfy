/** The listing records of the store and the sequence predicates the rest of the
    model states its properties with. */
module Listings {

  /** Absent-or-present value; `None` stands for an empty ("") form field. */
  datatype Option<T> = None | Some(value: T)

  /** The closed set of values of a listing's `type` field. */
  datatype PropertyType = House | Flat | Bungalow

  /** One record of the store. `dateAdded` is a day number, so a later date is a larger number. */
  datatype Listing = Listing(
    id: int,
    kind: PropertyType,
    price: nat,
    bedrooms: nat,
    postcode: string,
    dateAdded: int)

  /** No two entries of `s` carry the same identifier. */
  predicate UniqueIds(s: seq<Listing>) {
    forall i, j :: 0 <= i < j < |s| ==> s[i].id != s[j].id
  }

  /** `a` is obtained from `b` by deleting entries, keeping the order of the rest. */
  predicate IsSubsequence(a: seq<Listing>, b: seq<Listing>)
    decreases |b|
  {
    a == [] ||
    (b != [] && ((a[0] == b[0] && IsSubsequence(a[1..], b[1..])) || IsSubsequence(a, b[1..])))
  }

  lemma UniqueIdsCons(x: Listing, t: seq<Listing>)
    ensures UniqueIds([x] + t) <==> UniqueIds(t) && forall y :: y in t ==> y.id != x.id
  {
    var s := [x] + t;
    if UniqueIds(t) && forall y :: y in t ==> y.id != x.id {
      forall i, j | 0 <= i < j < |s| ensures s[i].id != s[j].id {
        if i == 0 {
          assert s[j] == t[j - 1];
        } else {
          assert s[i] == t[i - 1] && s[j] == t[j - 1];
        }
      }
    }
    if UniqueIds(s) {
      forall i, j | 0 <= i < j < |t| ensures t[i].id != t[j].id {
        assert t[i] == s[i + 1] && t[j] == s[j + 1];
      }
      forall y | y in t ensures y.id != x.id {
        var k :| 0 <= k < |t| && t[k] == y;
        assert s[0] == x && s[k + 1] == y;
      }
    }
  }

  lemma UniqueIdsSnoc(t: seq<Listing>, x: Listing)
    ensures UniqueIds(t + [x]) <==> UniqueIds(t) && forall y :: y in t ==> y.id != x.id
  {
    var s := t + [x];
    if UniqueIds(s) {
      forall i, j | 0 <= i < j < |t| ensures t[i].id != t[j].id {
        assert t[i] == s[i] && t[j] == s[j];
      }
      forall y | y in t ensures y.id != x.id {
        var k :| 0 <= k < |t| && t[k] == y;
        assert s[k] == y && s[|t|] == x;
      }
    }
  }

  /** Every entry of a subsequence is an entry of the sequence it was taken from. */
  lemma {:induction false} SubsequenceMembers(a: seq<Listing>, b: seq<Listing>)
    requires IsSubsequence(a, b)
    ensures forall x :: x in a ==> x in b
    decreases |b|
  {
    if a != [] {
      if a[0] == b[0] && IsSubsequence(a[1..], b[1..]) {
        SubsequenceMembers(a[1..], b[1..]);
        assert forall x :: x in a ==> x == a[0] || x in a[1..];
      } else {
        SubsequenceMembers(a, b[1..]);
      }
    }
  }

  /** Deleting entries cannot create two entries with one identifier. */
  lemma {:induction false} SubsequenceKeepsUniqueIds(a: seq<Listing>, b: seq<Listing>)
    requires IsSubsequence(a, b) && UniqueIds(b)
    ensures UniqueIds(a)
    decreases |b|
  {
    if a != [] {
      UniqueIdsCons(b[0], b[1..]);
      assert b == [b[0]] + b[1..];
      if a[0] == b[0] && IsSubsequence(a[1..], b[1..]) {
        SubsequenceKeepsUniqueIds(a[1..], b[1..]);
        SubsequenceMembers(a[1..], b[1..]);
        UniqueIdsCons(a[0], a[1..]);
        assert a == [a[0]] + a[1..];
      } else {
        SubsequenceKeepsUniqueIds(a, b[1..]);
      }
    }
  }
}
