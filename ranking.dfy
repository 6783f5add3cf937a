/** Ranking of the facility catalog once the user's position is known: every facility
    gets its distance from the user, and the list is sorted nearest first by a stable sort,
    as `Array.prototype.sort` is required to be. The distance formula itself is a parameter. */
module Ranking {
  import opened Catalog

  /** The comparator's key, `distance || 0`: a missing distance counts as zero (in JavaScript `|| 0`
      zeroes a NaN distance too; a real distance is never NaN). */
  function SortKey(h: Hospital): (key: real) {
    match h.distance
    case Some(d) => d
    case None => 0.0
  }

  /** The catalog record with its distance from the user attached and nothing else changed. */
  function WithDistance(h: Hospital, km: real): (r: Hospital)
    ensures r.distance == Some(km) && SortKey(r) == km
    ensures r.(distance := h.distance) == h
  {
    h.(distance := Some(km))
  }

  /** The catalog after the `.map` step: each facility annotated with `dist(user, its position)`. */
  function Annotated(catalog: seq<Hospital>, user: Coordinate, dist: (Coordinate, Coordinate) -> real): (annotated: seq<Hospital>) {
    seq(|catalog|, k requires 0 <= k < |catalog| => WithDistance(catalog[k], dist(user, Position(catalog[k]))))
  }

  ghost predicate SortedByKey(r: seq<Hospital>) {
    forall i, j :: 0 <= i < j < |r| ==> SortKey(r[i]) <= SortKey(r[j])
  }

  /** `r` is `s` reordered by a stable sort on `SortKey`: `r[i]` is `s[p[i]]` for an index map `p`
      that is a bijection on the positions, keys are nondecreasing, and elements with equal keys
      keep their relative order from `s`. */
  ghost predicate IsStableSortOf(r: seq<Hospital>, s: seq<Hospital>, p: seq<nat>) {
    && Tracks(r, s, p)
    && SortedByKey(r)
    && (forall i, j :: 0 <= i < j < |r| && SortKey(r[i]) == SortKey(r[j]) ==> p[i] < p[j])
  }

  /** `r` with the elements at `j - 1` and `j` exchanged. */
  function SwapAt<T>(r: seq<T>, j: nat): (swapped: seq<T>)
    requires 0 < j < |r|
  {
    r[j - 1 := r[j]][j := r[j - 1]]
  }

  /** `r` is `s` reordered through the injective index map `p`. */
  ghost predicate Tracks(r: seq<Hospital>, s: seq<Hospital>, p: seq<nat>) {
    && |r| == |s| && |p| == |s|
    && multiset(r) == multiset(s)
    && (forall k :: 0 <= k < |r| ==> p[k] < |s| && r[k] == s[p[k]])
    && (forall k, l :: 0 <= k < l < |p| ==> p[k] != p[l])
  }

  /** Outer-loop invariant of the insertion sort: the first `i` places hold the first `i`
      originals, stably sorted; the rest is untouched. */
  ghost predicate SortedPrefix(r: seq<Hospital>, p: seq<nat>, i: nat) {
    && i <= |r| && |p| == |r|
    && (forall k :: 0 <= k < i ==> p[k] < i)
    && (forall k :: i <= k < |r| ==> p[k] == k)
    && (forall k, l :: 0 <= k < l < i ==> SortKey(r[k]) <= SortKey(r[l]))
    && (forall k, l :: 0 <= k < l < i && SortKey(r[k]) == SortKey(r[l]) ==> p[k] < p[l])
  }

  /** Inner-loop invariant: original `i` sits at `j` and is moving left past larger keys;
      the other places of `0..i` stay stably sorted. */
  ghost predicate Inserting(r: seq<Hospital>, p: seq<nat>, i: nat, j: nat) {
    && j <= i < |r| && |p| == |r|
    && p[j] == i
    && (forall k :: 0 <= k <= i && k != j ==> p[k] < i)
    && (forall k :: i < k < |r| ==> p[k] == k)
    && (forall k, l :: 0 <= k < l <= i && k != j && l != j ==> SortKey(r[k]) <= SortKey(r[l]))
    && (forall l :: j < l <= i ==> SortKey(r[j]) < SortKey(r[l]))
    && (forall k, l :: 0 <= k < l <= i && k != j && l != j && SortKey(r[k]) == SortKey(r[l]) ==> p[k] < p[l])
  }

  lemma TracksSwap(r: seq<Hospital>, s: seq<Hospital>, p: seq<nat>, j: nat)
    requires Tracks(r, s, p) && 0 < j < |r|
    ensures Tracks(SwapAt(r, j), s, SwapAt(p, j))
  {
  }

  lemma StartInserting(r: seq<Hospital>, p: seq<nat>, i: nat)
    requires SortedPrefix(r, p, i) && i < |r|
    ensures Inserting(r, p, i, i)
  {
  }

  lemma InsertingSwap(r: seq<Hospital>, p: seq<nat>, i: nat, j: nat)
    requires Inserting(r, p, i, j) && 0 < j && SortKey(r[j - 1]) > SortKey(r[j])
    ensures Inserting(SwapAt(r, j), SwapAt(p, j), i, j - 1)
  {
  }

  lemma InsertingDone(r: seq<Hospital>, p: seq<nat>, i: nat, j: nat)
    requires Inserting(r, p, i, j) && (j == 0 || SortKey(r[j - 1]) <= SortKey(r[j]))
    ensures SortedPrefix(r, p, i + 1)
  {
  }

  /** Before the first step nothing has moved: the identity map, an empty sorted prefix. */
  lemma StartSorting(s: seq<Hospital>) returns (p: seq<nat>)
    ensures Tracks(s, s, p) && SortedPrefix(s, p, 0)
  {
    p := seq(|s|, k => k);
  }

  lemma SortedAll(r: seq<Hospital>, s: seq<Hospital>, p: seq<nat>)
    requires Tracks(r, s, p) && SortedPrefix(r, p, |r|)
    ensures IsStableSortOf(r, s, p)
  {
  }

  /** One insertion step: moves `a[i]` left past the strictly larger keys before it, so that
      the first `i + 1` places become stably sorted. */
  method InsertNext(a: array<Hospital>, i: nat, ghost s: seq<Hospital>, ghost p: seq<nat>) returns (ghost p': seq<nat>)
    requires i < a.Length
    requires Tracks(a[..], s, p) && SortedPrefix(a[..], p, i)
    modifies a
    ensures Tracks(a[..], s, p') && SortedPrefix(a[..], p', i + 1)
  {
    StartInserting(a[..], p, i);
    p' := p;
    var j: nat := i;
    while j > 0 && SortKey(a[j - 1]) > SortKey(a[j])
      invariant Tracks(a[..], s, p')
      invariant Inserting(a[..], p', i, j)
    {
      ghost var before := a[..];
      TracksSwap(before, s, p', j);
      InsertingSwap(before, p', i, j);
      a[j - 1], a[j] := a[j], a[j - 1];
      p' := SwapAt(p', j);
      assert a[..] == SwapAt(before, j);
      j := j - 1;
    }
    InsertingDone(a[..], p', i, j);
  }

  /** Sorts `a` in place, nearest first, keeping equal keys in their original order
      (insertion sort; it moves an element left only past strictly larger keys).
      The ghost result `p` records where each element came from. */
  method StableSortByKey(a: array<Hospital>) returns (ghost p: seq<nat>)
    modifies a
    ensures IsStableSortOf(a[..], old(a[..]), p)
  {
    ghost var s := a[..];
    p := StartSorting(s);
    var i := 0;
    while i < a.Length
      invariant 0 <= i <= a.Length
      invariant Tracks(a[..], s, p) && SortedPrefix(a[..], p, i)
    {
      p := InsertNext(a, i, s, p);
      i := i + 1;
    }
    SortedAll(a[..], s, p);
  }

  /** The success branch of the location lookup: annotate every facility with its distance
      from `user` and sort the list nearest first. */
  method RankByDistance(catalog: seq<Hospital>, user: Coordinate, dist: (Coordinate, Coordinate) -> real)
    returns (ranked: seq<Hospital>, ghost order: seq<nat>)
    ensures IsStableSortOf(ranked, Annotated(catalog, user, dist), order)
    ensures forall i :: 0 <= i < |ranked| ==>
      ranked[i] == WithDistance(catalog[order[i]], dist(user, Position(catalog[order[i]])))
    ensures forall i :: 0 <= i < |ranked| ==> SortKey(ranked[i]) == dist(user, Position(ranked[i]))
  {
    var a := new Hospital[|catalog|](k requires 0 <= k < |catalog| => WithDistance(catalog[k], dist(user, Position(catalog[k]))));
    assert a[..] == Annotated(catalog, user, dist);
    order := StableSortByKey(a);
    ranked := a[..];
  }

  /** An index map into `0..n` that is strictly increasing is the identity. */
  lemma {:induction false} IncreasingIndexLowerBound(p: seq<nat>, i: nat)
    requires i < |p|
    requires forall k, l :: 0 <= k < l < |p| ==> p[k] < p[l]
    ensures p[i] >= i
  {
    if i > 0 { IncreasingIndexLowerBound(p, i - 1); }
  }

  lemma {:induction false} IncreasingIndexUpperBound(p: seq<nat>, i: nat)
    requires i < |p|
    requires forall k :: 0 <= k < |p| ==> p[k] < |p|
    requires forall k, l :: 0 <= k < l < |p| ==> p[k] < p[l]
    ensures p[i] <= i
    decreases |p| - i
  {
    if i < |p| - 1 { IncreasingIndexUpperBound(p, i + 1); }
  }

  /** Sorting an already sorted list never moves an element behind one that followed it. */
  lemma SortedInputKeepsOrder(r: seq<Hospital>, s: seq<Hospital>, p: seq<nat>)
    requires IsStableSortOf(r, s, p)
    requires SortedByKey(s)
    ensures forall i, j :: 0 <= i < j < |p| ==> p[i] < p[j]
  {
  }

  /** Stability pinned down: a list that is already in key order comes out of the stable
      sort exactly as it went in (equal distances keep catalog order). */
  lemma StableSortOfSortedIsIdentity(r: seq<Hospital>, s: seq<Hospital>, p: seq<nat>)
    requires IsStableSortOf(r, s, p)
    requires SortedByKey(s)
    ensures r == s
  {
    SortedInputKeepsOrder(r, s, p);
    forall i | 0 <= i < |r| ensures r[i] == s[i] {
      IncreasingIndexLowerBound(p, i);
      IncreasingIndexUpperBound(p, i);
    }
  }

  /** The first facility of the ranking is one nearest to the user among the whole catalog. */
  lemma RankedHeadIsNearest(r: seq<Hospital>, s: seq<Hospital>, p: seq<nat>, k: nat)
    requires IsStableSortOf(r, s, p)
    requires k < |s|
    ensures SortKey(r[0]) <= SortKey(s[k])
  {
    assert s[k] in multiset(s);
    assert s[k] in multiset(r);
    var i :| 0 <= i < |r| && r[i] == s[k];
  }

  /** Two facilities listed nearer first, at 0 km and 1.47 km from the user: the ranking keeps
      that order and only attaches the distances. */
  lemma TwoFacilitiesNearerFirst(a: Hospital, b: Hospital, user: Coordinate,
                                 dist: (Coordinate, Coordinate) -> real, r: seq<Hospital>, p: seq<nat>)
    requires dist(user, Position(a)) == 0.0 && dist(user, Position(b)) == 1.47
    requires IsStableSortOf(r, Annotated([a, b], user, dist), p)
    ensures r == [WithDistance(a, 0.0), WithDistance(b, 1.47)]
  {
    var s := Annotated([a, b], user, dist);
    assert s == [WithDistance(a, 0.0), WithDistance(b, 1.47)];
    StableSortOfSortedIsIdentity(r, s, p);
  }

  /** When every facility is at the same distance the ranking is the catalog order. */
  lemma EqualDistancesKeepCatalogOrder(catalog: seq<Hospital>, user: Coordinate,
                                       dist: (Coordinate, Coordinate) -> real, r: seq<Hospital>, p: seq<nat>)
    requires forall i, j :: 0 <= i < j < |catalog| ==> dist(user, Position(catalog[i])) == dist(user, Position(catalog[j]))
    requires IsStableSortOf(r, Annotated(catalog, user, dist), p)
    ensures r == Annotated(catalog, user, dist)
  {
    StableSortOfSortedIsIdentity(r, Annotated(catalog, user, dist), p);
  }
}
