/**
 * A listing of the registry: the sequence of names the server sends back for
 * `list`. The registry is a map, whose enumeration order is unspecified, so
 * a listing is characterised by its contents only.
 */
module Listings {

  /** No name occurs twice in `s`. */
  predicate Distinct(s: seq<string>)
  {
    forall i, j :: 0 <= i < j < |s| ==> s[i] != s[j]
  }

  /** `s` holds every name of `names` exactly once, and nothing else, in some order. */
  predicate IsListing(s: seq<string>, names: set<string>)
  {
    && Distinct(s)
    && (forall x :: x in s ==> x in names)
    && (forall x :: x in names ==> x in s)
  }

  /** A listing is exactly as long as the registry is large. */
  lemma {:induction false} ListingLength(s: seq<string>, names: set<string>)
    requires IsListing(s, names)
    ensures |s| == |names|
  {
    if s != [] {
      var rest := names - {s[0]};
      assert IsListing(s[1..], rest) by {
        assert s == [s[0]] + s[1..];
      }
      ListingLength(s[1..], rest);
    }
  }

  /** In a sequence without duplicates every element occurs exactly once. */
  lemma {:induction false} DistinctOccursOnce(s: seq<string>, x: string)
    requires Distinct(s)
    ensures multiset(s)[x] == if x in s then 1 else 0
  {
    if s != [] {
      assert s == [s[0]] + s[1..];
      assert Distinct(s[1..]);
      DistinctOccursOnce(s[1..], x);
      if x == s[0] {
        assert x !in s[1..];
      }
    }
  }

  /**
   * Any two listings of one registry are permutations of each other: the
   * enumeration order is the only thing a listing leaves open.
   */
  lemma ListingsArePermutations(s: seq<string>, t: seq<string>, names: set<string>)
    requires IsListing(s, names) && IsListing(t, names)
    ensures multiset(s) == multiset(t)
  {
    forall x ensures multiset(s)[x] == multiset(t)[x] {
      DistinctOccursOnce(s, x);
      DistinctOccursOnce(t, x);
    }
  }

  /** Every registry has a listing: the enumeration can always be carried out. */
  ghost function SomeListing(names: set<string>): (s: seq<string>)
    ensures IsListing(s, names)
    decreases names
  {
    if names == {} then []
    else
      var x :| x in names;
      [x] + SomeListing(names - {x})
  }
}
