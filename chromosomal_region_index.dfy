/** An immutable index of chromosomal regions, grouped by chromosome, answering which
    regions contain a 1-based position. Each chromosome's regions sit in an interval
    array that stores a region as the half-open interval [start - 1, end) and is asked
    for the intervals that contain the 0-based point position - 1. */
module ChromosomalRegionIndex {

  /** An element of the index: a region on a chromosome, with 1-based inclusive start
      and end, and `id` standing for the rest of the element. Two elements are equal
      only when their coordinates and their `id` are, so distinct elements sharing a
      span (two features of different types, say) stay apart. */
  datatype ChromosomalRegion = ChromosomalRegion(chromosome: int, start: int, end: int, id: int)

  /** The coordinates of a variant: its chromosome and 1-based position. */
  datatype VariantCoordinates = VariantCoordinates(chromosome: int, position: int)

  /** The index: one interval array per chromosome, each modelled by the set of regions
      it holds. */
  datatype ChromosomalRegionIndex = ChromosomalRegionIndex(index: map<int, set<ChromosomalRegion>>)

  // The end extractor the interval arrays are built with.

  /** 0-based inclusive begin of the interval that stores `region`. */
  function GetBegin(region: ChromosomalRegion): int {
    region.start - 1
  }

  /** 0-based exclusive end of the interval that stores `region`. */
  function GetEnd(region: ChromosomalRegion): int {
    region.end
  }

  /** An interval array's point query: [begin, end) contains `point`. */
  predicate OverlapsPoint(region: ChromosomalRegion, point: int) {
    GetBegin(region) <= point < GetEnd(region)
  }

  /** The 1-based span [start, end] contains `position`. */
  predicate Contains(region: ChromosomalRegion, position: int) {
    region.start <= position <= region.end
  }

  /** Translating to the half-open 0-based interval and querying `position - 1` is
      the same as asking whether the 1-based span contains `position`. */
  lemma HalfOpenQueryIsOneBasedContainment(region: ChromosomalRegion, position: int)
    ensures OverlapsPoint(region, position - 1) <==> Contains(region, position)
  {
  }

  /** The distinct regions of a collection. */
  function Distinct(regions: seq<ChromosomalRegion>): set<ChromosomalRegion> {
    set r | r in regions
  }

  /** The chromosomes of a set of regions. */
  function Chromosomes(regions: set<ChromosomalRegion>): set<int> {
    set r | r in regions :: r.chromosome
  }

  /** Grouping by chromosome into sets: each chromosome of the input maps to the set of
      its regions. */
  function GroupByChromosome(regions: set<ChromosomalRegion>): map<int, set<ChromosomalRegion>> {
    map c | c in Chromosomes(regions) :: set r | r in regions && r.chromosome == c
  }

  /** Every region stored under chromosome `c` lies on `c`. */
  predicate Valid(idx: ChromosomalRegionIndex) {
    forall c, r :: c in idx.index && r in idx.index[c] ==> r.chromosome == c
  }

  /** Every chromosome of the index holds at least one region, as an index built by
      grouping regions does. */
  predicate NoEmptyBuckets(idx: ChromosomalRegionIndex) {
    forall c :: c in idx.index ==> idx.index[c] != {}
  }

  /** All regions the index holds. */
  function AllRegions(idx: ChromosomalRegionIndex): set<ChromosomalRegion> {
    set c, r | c in idx.index && r in idx.index[c] :: r
  }

  /** The index built from a collection of regions: regions are grouped by chromosome
      into sets (equal duplicates collapse) and each set becomes that chromosome's
      interval array. */
  method Of(regions: seq<ChromosomalRegion>) returns (idx: ChromosomalRegionIndex)
    ensures idx.index == GroupByChromosome(Distinct(regions))
    ensures Valid(idx) && NoEmptyBuckets(idx)
    ensures forall r :: r in regions ==> r.chromosome in idx.index && r in idx.index[r.chromosome]
    ensures AllRegions(idx) == Distinct(regions)
  {
    var regionIndex: map<int, set<ChromosomalRegion>> := map[];
    var i := 0;
    while i < |regions|
      invariant 0 <= i <= |regions|
      invariant regionIndex == GroupByChromosome(Distinct(regions[..i]))
    {
      var region := regions[i];
      var bucket := if region.chromosome in regionIndex then regionIndex[region.chromosome] else {};
      GroupAddRegion(Distinct(regions[..i]), region);
      regionIndex := regionIndex[region.chromosome := bucket + {region}];
      assert regions[..i + 1] == regions[..i] + [region];
      assert Distinct(regions[..i + 1]) == Distinct(regions[..i]) + {region};
      i := i + 1;
    }
    assert regions[..i] == regions;
    idx := ChromosomalRegionIndex(regionIndex);
    GroupedIsValid(Distinct(regions));
  }

  /** Adding one region to the grouped collection adds it to its chromosome's set. */
  lemma GroupAddRegion(regions: set<ChromosomalRegion>, region: ChromosomalRegion)
    ensures var g := GroupByChromosome(regions);
            GroupByChromosome(regions + {region})
            == g[region.chromosome := (if region.chromosome in g then g[region.chromosome] else {}) + {region}]
  {
    var g := GroupByChromosome(regions);
    var g' := GroupByChromosome(regions + {region});
    var expected := g[region.chromosome := (if region.chromosome in g then g[region.chromosome] else {}) + {region}];
    assert g'.Keys == expected.Keys;
    forall c | c in g' ensures g'[c] == expected[c] {
      if c == region.chromosome {
        assert g'[c] == (if c in g then g[c] else {}) + {region};
      }
    }
  }

  lemma GroupedIsValid(regions: set<ChromosomalRegion>)
    ensures Valid(ChromosomalRegionIndex(GroupByChromosome(regions)))
    ensures AllRegions(ChromosomalRegionIndex(GroupByChromosome(regions))) == regions
    ensures NoEmptyBuckets(ChromosomalRegionIndex(GroupByChromosome(regions)))
  {
    var idx := ChromosomalRegionIndex(GroupByChromosome(regions));
    forall c | c in idx.index ensures idx.index[c] != {} {
      var r :| r in regions && r.chromosome == c;
      assert r in idx.index[c];
    }
    forall r | r in regions ensures r in AllRegions(idx) {
      assert r.chromosome in idx.index && r in idx.index[r.chromosome];
    }
  }

  /** The empty index, holding no chromosome at all. */
  function Empty(): (idx: ChromosomalRegionIndex)
    ensures Valid(idx) && NoEmptyBuckets(idx) && AllRegions(idx) == {}
  {
    ChromosomalRegionIndex(map[])
  }

  /** The regions on `chromosome` whose span contains the 1-based `position`; an unknown
      chromosome gives an empty result rather than an error. */
  function GetRegionsOverlappingPosition(idx: ChromosomalRegionIndex, chromosome: int, position: int)
    : (r: set<ChromosomalRegion>)
    ensures chromosome !in idx.index ==> r == {}
    ensures forall x :: x in r <==>
              chromosome in idx.index && x in idx.index[chromosome] && Contains(x, position)
  {
    if chromosome !in idx.index then {}
    else set x | x in idx.index[chromosome] && OverlapsPoint(x, position - 1)
  }

  /** The regions containing a variant: the position query on its chromosome and
      position. */
  function GetRegionsContainingVariant(idx: ChromosomalRegionIndex, variant: VariantCoordinates)
    : (r: set<ChromosomalRegion>)
    ensures forall x :: x in r <==>
              variant.chromosome in idx.index && x in idx.index[variant.chromosome]
              && Contains(x, variant.position)
  {
    GetRegionsOverlappingPosition(idx, variant.chromosome, variant.position)
  }

  /** Whether some region of `chromosome` contains `position`: the query result is
      non-empty. */
  function HasRegionContainingPosition(idx: ChromosomalRegionIndex, chromosome: int, position: int)
    : (r: bool)
    ensures r <==> GetRegionsOverlappingPosition(idx, chromosome, position) != {}
    ensures r <==> chromosome in idx.index
                   && exists x :: x in idx.index[chromosome] && Contains(x, position)
  {
    GetRegionsOverlappingPosition(idx, chromosome, position) != {}
  }

  function HasRegionContainingVariant(idx: ChromosomalRegionIndex, variant: VariantCoordinates)
    : (r: bool)
    ensures r <==> GetRegionsContainingVariant(idx, variant) != {}
    ensures r <==> HasRegionContainingPosition(idx, variant.chromosome, variant.position)
  {
    GetRegionsContainingVariant(idx, variant) != {}
  }

  /** The number of intervals in the index, summed over the chromosomes; since each
      region is stored under its own chromosome only, this is the number of distinct
      regions held. */
  method Size(idx: ChromosomalRegionIndex) returns (n: nat)
    requires Valid(idx)
    ensures n == |AllRegions(idx)|
  {
    n := 0;
    var remaining := idx.index.Keys;
    ghost var counted: set<ChromosomalRegion> := {};
    while remaining != {}
      invariant remaining <= idx.index.Keys
      invariant counted == set c, r | c in idx.index && c !in remaining && r in idx.index[c] :: r
      invariant n == |counted|
      decreases remaining
    {
      EmptyOrHasMember(remaining);
      var c :| c in remaining;
      forall r | r in counted ensures r !in idx.index[c] {
        assert r.chromosome != c;
      }
      ghost var next := set c', r | c' in idx.index && c' !in remaining - {c} && r in idx.index[c'] :: r;
      assert next == counted + idx.index[c];
      counted := counted + idx.index[c];
      n := n + |idx.index[c]|;
      remaining := remaining - {c};
    }
    assert counted == AllRegions(idx);
  }

  /** A set of chromosomes is empty or has a member. */
  lemma EmptyOrHasMember(s: set<int>)
    ensures s == {} || exists x :: x in s
  {
    if forall x :: x !in s {
      assert s == {};
    }
  }

  /** Two indexes are equal exactly when their chromosome-to-interval maps are equal;
      for indexes built by grouping regions, that is exactly when they hold the same
      regions. */
  function Equals(a: ChromosomalRegionIndex, b: ChromosomalRegionIndex): (r: bool)
    ensures r <==> a.index == b.index
    ensures Valid(a) && Valid(b) && NoEmptyBuckets(a) && NoEmptyBuckets(b) ==>
              (r <==> AllRegions(a) == AllRegions(b))
  {
    SameRegionsSameIndex(a, b);
    a.index == b.index
  }

  /** A well-formed index is determined by the regions it holds: each region's
      chromosome is its key, and no key is kept without a region. */
  lemma SameRegionsSameIndex(a: ChromosomalRegionIndex, b: ChromosomalRegionIndex)
    ensures Valid(a) && Valid(b) && NoEmptyBuckets(a) && NoEmptyBuckets(b) ==>
              (a.index == b.index <==> AllRegions(a) == AllRegions(b))
  {
    if Valid(a) && Valid(b) && NoEmptyBuckets(a) && NoEmptyBuckets(b) && AllRegions(a) == AllRegions(b) {
      SubIndex(a, b);
      SubIndex(b, a);
      forall c ensures c in a.index <==> c in b.index {
      }
      assert a.index.Keys == b.index.Keys;
      forall c | c in a.index ensures a.index[c] == b.index[c] {
      }
    }
  }

  /** With the same regions, every bucket of `a` is a bucket of `b`. */
  lemma SubIndex(a: ChromosomalRegionIndex, b: ChromosomalRegionIndex)
    requires Valid(a) && Valid(b) && NoEmptyBuckets(a) && AllRegions(a) == AllRegions(b)
    ensures forall c :: c in a.index ==> c in b.index && a.index[c] <= b.index[c]
  {
    forall c, x | c in a.index && x in a.index[c] ensures c in b.index && x in b.index[c] {
      assert x in AllRegions(a);
      StoredUnderItsChromosome(b, x);
    }
    forall c | c in a.index ensures c in b.index {
      var x :| x in a.index[c];
    }
  }

  /** In a well-formed index, a region it holds is stored under its own chromosome. */
  lemma StoredUnderItsChromosome(idx: ChromosomalRegionIndex, r: ChromosomalRegion)
    requires Valid(idx) && r in AllRegions(idx)
    ensures r.chromosome in idx.index && r in idx.index[r.chromosome]
  {
    var c :| c in idx.index && r in idx.index[c];
  }

  /** Two distinct elements on the same span are both kept by the grouping, both
      counted, and both returned by a query at a position inside the span. */
  lemma SameSpanElementsStayApart(r1: ChromosomalRegion, r2: ChromosomalRegion, position: int)
    requires r1.chromosome == r2.chromosome && r1.start == r2.start && r1.end == r2.end
    requires r1.id != r2.id
    requires r1.start <= position <= r1.end
    ensures |AllRegions(ChromosomalRegionIndex(GroupByChromosome({r1, r2})))| == 2
    ensures GetRegionsOverlappingPosition(ChromosomalRegionIndex(GroupByChromosome({r1, r2})), r1.chromosome, position)
            == {r1, r2}
  {
    GroupedIsValid({r1, r2});
    var g := GroupByChromosome({r1, r2});
    assert r1 in g[r1.chromosome] && r2 in g[r1.chromosome];
  }

  /** The empty index answers every query with nothing. */
  lemma EmptyIndexFindsNothing(chromosome: int, position: int)
    ensures GetRegionsOverlappingPosition(Empty(), chromosome, position) == {}
    ensures !HasRegionContainingPosition(Empty(), chromosome, position)
  {
  }

  /** Two indexes built from collections with the same distinct regions are equal, and
      indexes built from different sets of regions are not. */
  lemma {:induction false} GroupingDeterminesIndex(xs: set<ChromosomalRegion>, ys: set<ChromosomalRegion>)
    ensures GroupByChromosome(xs) == GroupByChromosome(ys) <==> xs == ys
  {
    if GroupByChromosome(xs) == GroupByChromosome(ys) {
      GroupedIsValid(xs);
      GroupedIsValid(ys);
    }
  }
}
