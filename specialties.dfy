/** The category filter of a facility's detail screen: the list of filter buttons
    (`getSpecialtyCategories`) and the specialties a filter value selects
    (`getFilteredSpecialties`). */
module Specialties {
  import opened Catalog

  /** The reserved filter value that selects every specialty. */
  const AllCategories: string := "All"

  /** The `category` tags of `ss`, one per specialty, in list order. */
  function CategoryTags(ss: seq<Specialty>): (tags: seq<string>) {
    seq(|ss|, k requires 0 <= k < |ss| => ss[k].category)
  }

  /** The position of the first occurrence of `x` in `xs`. */
  function FirstIndex(xs: seq<string>, x: string): (k: nat)
    requires x in xs
    ensures k < |xs| && xs[k] == x
    ensures forall j :: 0 <= j < k ==> xs[j] != x
  {
    if xs[0] == x then 0 else 1 + FirstIndex(xs[1..], x)
  }

  /** The distinct values of `xs` in insertion order, as a JavaScript `Set` built
      from `xs` enumerates them: each value is added when it is first met. */
  function Distinct(xs: seq<string>): (r: seq<string>)
    ensures forall i, j :: 0 <= i < j < |r| ==> r[i] != r[j]
    ensures forall x :: x in r <==> x in xs
    decreases |xs|
  {
    if xs == [] then []
    else
      var d := Distinct(xs[..|xs| - 1]);
      assert xs == xs[..|xs| - 1] + [xs[|xs| - 1]];
      if xs[|xs| - 1] in d then d else d + [xs[|xs| - 1]]
  }

  /** Appending a value does not move the first occurrence of a value already present. */
  lemma {:induction false} FirstIndexAppend(xs: seq<string>, y: string, x: string)
    requires x in xs
    ensures FirstIndex(xs + [y], x) == FirstIndex(xs, x)
  {
    if xs[0] != x {
      assert (xs + [y])[1..] == xs[1..] + [y];
      FirstIndexAppend(xs[1..], y, x);
    }
  }

  /** The values of `Distinct(xs)` stand in the order in which `xs` first shows them. */
  lemma {:induction false} DistinctFirstSeenOrder(xs: seq<string>)
    ensures forall i, j :: 0 <= i < j < |Distinct(xs)| ==>
      FirstIndex(xs, Distinct(xs)[i]) < FirstIndex(xs, Distinct(xs)[j])
    decreases |xs|
  {
    if xs != [] {
      var pre, last := xs[..|xs| - 1], xs[|xs| - 1];
      assert xs == pre + [last];
      DistinctFirstSeenOrder(pre);
      var d := Distinct(pre);
      forall x | x in pre ensures FirstIndex(xs, x) == FirstIndex(pre, x) {
        FirstIndexAppend(pre, last, x);
      }
      if last !in d {
        assert last !in pre;
        assert FirstIndex(xs, last) == |pre|;
      }
    }
  }

  /** The filter buttons of a facility: `All` first, then each distinct category of its
      specialties, in the order the categories first occur. */
  function SpecialtyCategories(ss: seq<Specialty>): (r: seq<string>)
    ensures |r| >= 1 && r[0] == AllCategories
    ensures forall i, j :: 1 <= i < j < |r| ==> r[i] != r[j]
    ensures forall c :: c in r[1..] <==> exists k :: 0 <= k < |ss| && ss[k].category == c
  {
    var tags := CategoryTags(ss);
    var r := [AllCategories] + Distinct(tags);
    assert r[1..] == Distinct(tags);
    forall c ensures c in tags <==> exists k :: 0 <= k < |ss| && ss[k].category == c {
      if c in tags {
        var k :| 0 <= k < |tags| && tags[k] == c;
        assert ss[k].category == c;
      }
      if exists k :: 0 <= k < |ss| && ss[k].category == c {
        var k :| 0 <= k < |ss| && ss[k].category == c;
        assert tags[k] == c;
      }
    }
    r
  }

  /** The order of the buttons after `All` is the order of first occurrence among the specialties. */
  lemma CategoriesFirstSeenOrder(ss: seq<Specialty>)
    ensures forall i, j :: 1 <= i < j < |SpecialtyCategories(ss)| ==>
      SpecialtyCategories(ss)[i] in CategoryTags(ss) && SpecialtyCategories(ss)[j] in CategoryTags(ss) &&
      FirstIndex(CategoryTags(ss), SpecialtyCategories(ss)[i]) < FirstIndex(CategoryTags(ss), SpecialtyCategories(ss)[j])
  {
    var tags := CategoryTags(ss);
    DistinctFirstSeenOrder(tags);
    var r := SpecialtyCategories(ss);
    assert r == [AllCategories] + Distinct(tags);
    forall i, j | 1 <= i < j < |r|
      ensures r[i] in tags && r[j] in tags && FirstIndex(tags, r[i]) < FirstIndex(tags, r[j])
    {
      assert r[i] == Distinct(tags)[i - 1] && r[j] == Distinct(tags)[j - 1];
    }
  }

  /** `r` occurs in `s` in order, possibly with gaps (greedy matching from the left). */
  predicate IsSubsequence(r: seq<Specialty>, s: seq<Specialty>)
    decreases |s|
  {
    if r == [] then true
    else if s == [] then false
    else if r[0] == s[0] then IsSubsequence(r[1..], s[1..])
    else IsSubsequence(r, s[1..])
  }

  /** The specialties of `ss` whose category is `c`, in list order (the `.filter` expression). */
  function SpecialtiesIn(ss: seq<Specialty>, c: string): (r: seq<Specialty>)
    ensures IsSubsequence(r, ss)
    ensures forall i :: 0 <= i < |r| ==> r[i].category == c
    ensures forall x: Specialty :: x.category == c ==> multiset(r)[x] == multiset(ss)[x]
    ensures r == [] <==> forall k :: 0 <= k < |ss| ==> ss[k].category != c
    decreases |ss|
  {
    if ss == [] then []
    else
      var rest := SpecialtiesIn(ss[1..], c);
      assert ss == [ss[0]] + ss[1..];
      if ss[0].category == c then
        assert ([ss[0]] + rest)[1..] == rest;
        [ss[0]] + rest
      else
        rest
  }

  /** What the detail screen lists for filter value `filter`: everything for `All`,
      otherwise exactly the specialties of that category. */
  function FilteredSpecialties(ss: seq<Specialty>, filter: string): (r: seq<Specialty>)
    ensures filter == AllCategories ==> r == ss
    ensures filter != AllCategories ==>
      && IsSubsequence(r, ss)
      && (forall i :: 0 <= i < |r| ==> r[i].category == filter)
      && (forall x: Specialty :: x.category == filter ==> multiset(r)[x] == multiset(ss)[x])
    ensures filter != AllCategories ==> (r == [] <==> forall k :: 0 <= k < |ss| ==> ss[k].category != filter)
  {
    if filter == AllCategories then ss else SpecialtiesIn(ss, filter)
  }

  /** Every filter button selects at least one specialty, so the "no specialties found"
      message shows for a button of the facility only when the facility has no specialties. */
  lemma ButtonsNeverSelectNothing(ss: seq<Specialty>, c: string)
    requires c in SpecialtyCategories(ss)
    ensures FilteredSpecialties(ss, c) == [] <==> ss == []
  {
  }
}

/** Three specialty records of the catalog (ids 1 and 5 of City General Hospital, id 9 of
    St. Mary's Medical Center), as test data with a repeated category. */
module SpecialtiesExample {
  import opened Catalog
  import opened Specialties

  const Sample: seq<Specialty> := [
    Specialty(1, "Cardiology", "Cardiology", "Heart and cardiovascular care", 8, "❤️"),
    Specialty(9, "Cardiology", "Cardiology", "Heart care", 5, "❤️"),
    Specialty(5, "Emergency Medicine", "Emergency", "24/7 emergency care", 12, "🚑")
  ]

  /** A repeated category gives one button, in first-seen order after `All`. */
  lemma SampleButtons()
    ensures SpecialtyCategories(Sample) == ["All", "Cardiology", "Emergency"]
  {
    var tags := CategoryTags(Sample);
    assert tags == ["Cardiology", "Cardiology", "Emergency"];
    assert tags[..2][..1] == tags[..1];
    assert Distinct(tags[..1]) == ["Cardiology"];
    assert Distinct(tags[..2]) == ["Cardiology"];
  }

  /** The Cardiology button selects both cardiology records, in list order. */
  lemma SampleCardiology()
    ensures FilteredSpecialties(Sample, "Cardiology") == [Sample[0], Sample[1]]
  {
  }

  /** A value that is no category of the facility selects nothing, without error. */
  lemma SampleNoMatch()
    ensures FilteredSpecialties(Sample, "Dental") == []
  {
  }
}
