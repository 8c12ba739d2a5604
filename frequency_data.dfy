/** Frequency data for a variant: an optional dbSNP rs id and up to four minor allele
    frequencies (dbSNP GMAF and the three Exome Server Project populations). The
    constructor derives the list of the frequencies that are present. The record is a
    value here: every field is final, but the derived list is a mutable list that its
    getter hands out, and changes made to it through the getter are not modelled. */
module FrequencyData {
  import opened Wrappers

  /** A dbSNP reference SNP identifier. */
  datatype RsId = RsId(id: int)

  /** A minor allele frequency (a percentage); floats are modelled as reals. */
  type Frequency = real

  datatype FrequencyData = FrequencyData(
    rsId: Option<RsId>,
    dbSnpMaf: Option<Frequency>,
    espEaMaf: Option<Frequency>,
    espAaMaf: Option<Frequency>,
    espAllMaf: Option<Frequency>,
    knownFrequencies: seq<Frequency>)

  /** The value of a non-null frequency as a one-element list; nothing for null. */
  function Known(x: Option<Frequency>): seq<Frequency> {
    if x.Some? then [x.value] else []
  }

  /** The values that are present in `xs`, in the order of `xs`. */
  function Present(xs: seq<Option<Frequency>>): (r: seq<Frequency>)
    ensures |r| <= |xs|
  {
    if xs == [] then []
    else Known(xs[0]) + Present(xs[1..])
  }

  /** A frequency is collected exactly when some source holds it. */
  lemma {:induction false} PresentMembers(xs: seq<Option<Frequency>>)
    ensures forall f :: f in Present(xs) <==> Some(f) in xs
  {
    if xs != [] {
      PresentMembers(xs[1..]);
      assert xs == [xs[0]] + xs[1..];
    }
  }

  /** The order in which the constructor collects the frequencies: dbSNP, ESP African
      American, ESP all, ESP European American (not the order of its parameters). */
  function SourcesInOrder(fd: FrequencyData): seq<Option<Frequency>> {
    [fd.dbSnpMaf, fd.espAaMaf, fd.espAllMaf, fd.espEaMaf]
  }

  /** The invariant the constructor establishes: the derived list holds exactly the
      non-null frequencies, in the fixed source order. */
  predicate Valid(fd: FrequencyData) {
    fd.knownFrequencies == Present(SourcesInOrder(fd))
  }

  /** The constructor. Its parameters come in the order rsId, dbSNP, ESP all, ESP AA,
      ESP EA; each field keeps the argument of its own name. */
  method Create(rsid: Option<RsId>, dbSnp: Option<Frequency>, espAll: Option<Frequency>,
                espAA: Option<Frequency>, espEA: Option<Frequency>)
    returns (fd: FrequencyData)
    ensures fd.rsId == rsid && fd.dbSnpMaf == dbSnp && fd.espAllMaf == espAll
    ensures fd.espAaMaf == espAA && fd.espEaMaf == espEA
    ensures Valid(fd)
    ensures |fd.knownFrequencies| <= 4
  {
    var known: seq<Frequency> := [];
    if dbSnp.Some? {
      known := known + [dbSnp.value];
    }
    assert known == Known(dbSnp);
    if espAA.Some? {
      known := known + [espAA.value];
    }
    assert known == Known(dbSnp) + Known(espAA);
    if espAll.Some? {
      known := known + [espAll.value];
    }
    assert known == Known(dbSnp) + Known(espAA) + Known(espAll);
    if espEA.Some? {
      known := known + [espEA.value];
    }
    assert known == Known(dbSnp) + Known(espAA) + Known(espAll) + Known(espEA);
    fd := FrequencyData(rsid, dbSnp, espEA, espAA, espAll, known);
    PresentOfFour(dbSnp, espAA, espAll, espEA);
  }

  lemma PresentOfFour(a: Option<Frequency>, b: Option<Frequency>, c: Option<Frequency>, d: Option<Frequency>)
    ensures Present([a, b, c, d]) == Known(a) + Known(b) + Known(c) + Known(d)
  {
    var xs := [a, b, c, d];
    assert xs[1..] == [b, c, d];
    assert xs[1..][1..] == [c, d];
    assert xs[1..][1..][1..] == [d];
    assert Present([d]) == Known(d) + Present([]);
    assert Present([c, d]) == Known(c) + Known(d);
    assert Present([b, c, d]) == Known(b) + (Known(c) + Known(d));
    assert Known(a) + (Known(b) + (Known(c) + Known(d))) == Known(a) + Known(b) + Known(c) + Known(d);
  }

  /** True when the variant is in dbSNP or ESP at all: it has an rs id or a known
      frequency, which for a record as constructed means any of the four frequencies. */
  function RepresentedInDatabase(fd: FrequencyData): (r: bool)
    ensures r <==> fd.rsId.Some? || fd.knownFrequencies != []
    ensures Valid(fd) ==>
              (r <==> fd.rsId.Some? || fd.dbSnpMaf.Some? || fd.espAaMaf.Some?
                      || fd.espAllMaf.Some? || fd.espEaMaf.Some?)
  {
    if fd.rsId.Some? then true
    else
      var sources := SourcesInOrder(fd);
      PresentEmpty(sources);
      assert sources[0] == fd.dbSnpMaf && sources[1] == fd.espAaMaf;
      assert sources[2] == fd.espAllMaf && sources[3] == fd.espEaMaf;
      fd.knownFrequencies != []
  }

  /** The derived list is empty exactly when every source is null. */
  lemma {:induction false} PresentEmpty(xs: seq<Option<Frequency>>)
    ensures Present(xs) == [] <==> forall i :: 0 <= i < |xs| ==> xs[i].None?
  {
    if xs != [] {
      PresentEmpty(xs[1..]);
      assert forall i :: 1 <= i < |xs| ==> xs[i] == xs[1..][i - 1];
    }
  }

  function HasDbSnpData(fd: FrequencyData): (r: bool)
    ensures r <==> fd.dbSnpMaf != None
  {
    fd.dbSnpMaf.Some?
  }

  function HasDbSnpRsId(fd: FrequencyData): (r: bool)
    ensures r <==> fd.rsId != None
  {
    fd.rsId.Some?
  }

  /** ESP data means the all-comers frequency; the two population frequencies do not
      count on their own. */
  function HasEspData(fd: FrequencyData): (r: bool)
    ensures r <==> fd.espAllMaf != None
  {
    fd.espAllMaf.Some?
  }

  /** The largest known frequency, starting from 0, so the result is 0 when there are
      no frequencies (and never below 0). */
  method GetMaxFreq(fd: FrequencyData) returns (maxFreq: Frequency)
    ensures maxFreq >= 0.0
    ensures forall i :: 0 <= i < |fd.knownFrequencies| ==> fd.knownFrequencies[i] <= maxFreq
    ensures maxFreq == 0.0 || maxFreq in fd.knownFrequencies
    ensures fd.knownFrequencies == [] ==> maxFreq == 0.0
  {
    maxFreq := 0.0;
    var i := 0;
    while i < |fd.knownFrequencies|
      invariant 0 <= i <= |fd.knownFrequencies|
      invariant maxFreq >= 0.0
      invariant forall j :: 0 <= j < i ==> fd.knownFrequencies[j] <= maxFreq
      invariant maxFreq == 0.0 || maxFreq in fd.knownFrequencies[..i]
    {
      var f := fd.knownFrequencies[i];
      maxFreq := if maxFreq >= f then maxFreq else f;
      i := i + 1;
    }
  }
}
