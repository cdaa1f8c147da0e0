/** List operations shared by the components: the order-preserving filter behind
    every `Array.prototype.filter` call of the application, and the element-wise
    replacement behind its `map(x => match ? updated : x)` calls. */
module Lists {

  /** A value that may be missing: the source's `undefined` / `null`. */
  datatype Option<T> = None | Some(value: T)

  /** `r` is an order-preserving sub-list of `s` (some elements of `s` dropped,
      the rest kept in their original order). */
  predicate IsSublist<T(==)>(r: seq<T>, s: seq<T>)
    decreases |s|
  {
    if r == [] then true
    else if s == [] then false
    else (r[|r| - 1] == s[|s| - 1] && IsSublist(r[..|r| - 1], s[..|s| - 1]))
         || IsSublist(r, s[..|s| - 1])
  }

  /** Keeps, in order, the elements `x` of `s` for which `keep(k, x)` holds.
      The extra argument `k` carries what the source's arrow closes over
      (a search term, an id), so that callers pass a named predicate. */
  function Filter<K, T(==,!new)>(keep: (K, T) -> bool, k: K, s: seq<T>): (r: seq<T>)
    ensures |r| <= |s|
    ensures IsSublist(r, s)
    ensures forall x :: x in r <==> x in s && keep(k, x)
    ensures forall x :: multiset(r)[x] == if keep(k, x) then multiset(s)[x] else 0
  {
    if s == [] then []
    else
      var last := s[|s| - 1];
      var r' := Filter(keep, k, s[..|s| - 1]);
      assert s == s[..|s| - 1] + [last];
      if keep(k, last) then r' + [last] else r'
  }

  /** Filtering twice with the same predicate gives the result of filtering once. */
  lemma {:induction false} FilterIdempotent<K, T(!new)>(keep: (K, T) -> bool, k: K, s: seq<T>)
    ensures Filter(keep, k, Filter(keep, k, s)) == Filter(keep, k, s)
  {
    if s != [] {
      var s' := s[..|s| - 1];
      FilterIdempotent(keep, k, s');
      var r' := Filter(keep, k, s');
      if keep(k, s[|s| - 1]) {
        var r := r' + [s[|s| - 1]];
        assert r[..|r| - 1] == r';
      }
    }
  }

  /** When every element passes, the filter returns its input unchanged. */
  lemma {:induction false} FilterKeepsAll<K, T(!new)>(keep: (K, T) -> bool, k: K, s: seq<T>)
    requires forall x :: x in s ==> keep(k, x)
    ensures Filter(keep, k, s) == s
  {
    if s != [] {
      assert s == s[..|s| - 1] + [s[|s| - 1]];
      FilterKeepsAll(keep, k, s[..|s| - 1]);
    }
  }

  /** If passing `keep(k2, _)` implies passing `keep(k1, _)` on `s`, then filtering
      with `k2` is the same as filtering the `k1`-result with `k2`; in particular
      the `k2`-result is an order-preserving sub-list of the `k1`-result. */
  lemma {:induction false} FilterNarrower<K, T(!new)>(keep: (K, T) -> bool, k1: K, k2: K, s: seq<T>)
    requires forall x :: x in s && keep(k2, x) ==> keep(k1, x)
    ensures Filter(keep, k2, s) == Filter(keep, k2, Filter(keep, k1, s))
    ensures IsSublist(Filter(keep, k2, s), Filter(keep, k1, s))
  {
    if s != [] {
      var s' := s[..|s| - 1];
      var x := s[|s| - 1];
      assert s == s' + [x];
      FilterNarrower(keep, k1, k2, s');
      var r1 := Filter(keep, k1, s');
      if keep(k1, x) {
        assert (r1 + [x])[..|r1 + [x]| - 1] == r1;
      }
    }
  }

  /** Two predicates that agree on every element of `s` filter it alike. */
  lemma {:induction false} FilterAgrees<K, T(!new)>(keep: (K, T) -> bool, k1: K, k2: K, s: seq<T>)
    requires forall x :: x in s ==> (keep(k1, x) <==> keep(k2, x))
    ensures Filter(keep, k1, s) == Filter(keep, k2, s)
  {
    if s != [] {
      assert s == s[..|s| - 1] + [s[|s| - 1]];
      FilterAgrees(keep, k1, k2, s[..|s| - 1]);
    }
  }

  /** Every element of a sub-list is an element of the list. */
  lemma {:induction false} SublistMembers<T>(r: seq<T>, s: seq<T>)
    requires IsSublist(r, s)
    ensures forall x :: x in r ==> x in s
    decreases |s|
  {
    if r != [] {
      var s' := s[..|s| - 1];
      assert s == s' + [s[|s| - 1]];
      if r[|r| - 1] == s[|s| - 1] && IsSublist(r[..|r| - 1], s') {
        SublistMembers(r[..|r| - 1], s');
        assert r == r[..|r| - 1] + [r[|r| - 1]];
      } else {
        SublistMembers(r, s');
      }
    }
  }

  /** Replaces every element `x` of `s` with `matches(k, x)` by `u`, in place:
      the shape of `list.map(x => x.id === id ? updated : x)`. */
  function Replace<K, T>(matches: (K, T) -> bool, k: K, s: seq<T>, u: T): (r: seq<T>)
    ensures |r| == |s|
    ensures forall i :: 0 <= i < |s| && matches(k, s[i]) ==> r[i] == u
    ensures forall i :: 0 <= i < |s| && !matches(k, s[i]) ==> r[i] == s[i]
  {
    if s == [] then []
    else
      var last := s[|s| - 1];
      Replace(matches, k, s[..|s| - 1], u) + [if matches(k, last) then u else last]
  }

  /** With no matching element the replacement leaves the list as it was. */
  lemma ReplaceNoMatch<K, T>(matches: (K, T) -> bool, k: K, s: seq<T>, u: T)
    requires forall i :: 0 <= i < |s| ==> !matches(k, s[i])
    ensures Replace(matches, k, s, u) == s
  {
  }
}
