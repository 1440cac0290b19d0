/** Optional values and map lookup, shared by every part of the model. */
module Wrappers {
  datatype Option<+T> = None | Some(value: T) {
    function GetOr(default: T): T { if Some? then value else default }
  }

  function At<K, V>(m: map<K, V>, k: K): Option<V> {
    if k in m then Some(m[k]) else None
  }

  lemma EqualByLookup<K, V>(a: map<K, V>, b: map<K, V>)
    requires forall k :: At(a, k) == At(b, k)
    ensures a == b
  {
    forall k ensures (k in a <==> k in b) && (k in a ==> a[k] == b[k]) {
      assert At(a, k) == At(b, k);
    }
  }

  /** One step of a loop that takes the elements of a set in any order. */
  lemma TakeOne<T>(whole: set<T>, rest: set<T>, done: set<T>, x: T)
    requires rest <= whole && done == whole - rest && x in rest
    ensures rest - {x} <= whole && done + {x} == whole - (rest - {x}) && x !in done
  {
  }

  // ---------- Listings ----------

  /** `xs` lists every element of `s` exactly once. */
  predicate IsListing<T(==)>(xs: seq<T>, s: set<T>) {
    && |xs| == |s|
    && (forall x <- xs :: x in s)
    && (forall x <- s :: x in xs)
  }

  lemma ListingGrows<T>(xs: seq<T>, s: set<T>, x: T)
    requires IsListing(xs, s) && x !in s
    ensures IsListing(xs + [x], s + {x})
  {
  }

  lemma {:induction false} ListingRepeatsNothing<T>(xs: seq<T>, s: set<T>, i: nat, j: nat)
    requires IsListing(xs, s) && i < j < |xs|
    ensures xs[i] != xs[j]
  {
    if xs[i] == xs[j] {
      var rest := xs[..j] + xs[j + 1..];
      forall x <- s ensures x in rest {
        var k :| 0 <= k < |xs| && xs[k] == x;
        assert rest[if k < j then k else if k == j then i else k - 1] == x;
      }
      FewerThanListed(rest, s);
      assert false;
    }
  }

  lemma {:induction false} FewerThanListed<T>(xs: seq<T>, s: set<T>)
    requires forall x <- s :: x in xs
    ensures |s| <= |xs|
  {
    if xs != [] {
      assert xs == [xs[0]] + xs[1..];
      FewerThanListed(xs[1..], s - {xs[0]});
    }
  }
}
