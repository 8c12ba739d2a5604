/** The normalisation and field conversions done when Jannovar transcript data is
    written to and read back from its protobuf form. Every conversion is a pure
    function of its input. */
module JannovarProtoConverter {
  import opened Wrappers

  // ---------------------------------------------------------------------------
  // Ensembl accessions whose version was written twice (ENST00000123456.1.1)
  // ---------------------------------------------------------------------------

  predicate IsDigit(c: char) {
    '0' <= c <= '9'
  }

  predicate AllDigits(s: string) {
    forall i :: 0 <= i < |s| ==> IsDigit(s[i])
  }

  /** The accession the pattern `ENST[0-9]{11}\.[0-9]+\.[0-9]+` describes, built from its
      three digit groups. */
  function Assemble(stable: string, version: string, repeat: string): string {
    "ENST" + stable + "." + version + "." + repeat
  }

  /** `stable`, `version` and `repeat` are the three digit groups of a match of `s`. */
  ghost predicate IsMatch(s: string, stable: string, version: string, repeat: string) {
    && Assemble(stable, version, repeat) == s
    && |stable| == 11 && AllDigits(stable)
    && version != [] && AllDigits(version)
    && repeat != [] && AllDigits(repeat)
  }

  /** The language of the pattern: `s` matches it as a whole. */
  ghost predicate InPattern(s: string) {
    exists stable, version, repeat :: IsMatch(s, stable, version, repeat)
  }

  /** `String.lastIndexOf`: the index of the last `c` in `s`, or -1. */
  function LastIndexOf(s: string, c: char): (r: int)
    ensures -1 <= r < |s|
    ensures r >= 0 ==> s[r] == c && forall i :: r < i < |s| ==> s[i] != c
    ensures r == -1 ==> forall i :: 0 <= i < |s| ==> s[i] != c
  {
    if s == [] then -1
    else if s[|s| - 1] == c then |s| - 1
    else LastIndexOf(s[..|s| - 1], c)
  }

  /** The part of the pattern after `ENST`, the stable id and its dot: two non-empty
      digit runs separated by the last dot. */
  predicate IsVersionPair(tail: string) {
    var dot := LastIndexOf(tail, '.');
    0 < dot < |tail| - 1 && AllDigits(tail[..dot]) && AllDigits(tail[dot + 1..])
  }

  /** A hand-written matcher for the whole-string pattern `ENST[0-9]{11}\.[0-9]+\.[0-9]+`. */
  function MatchesEnstRepeatVersion(s: string): (r: bool)
    ensures r <==> InPattern(s)
  {
    var matched := |s| >= 19 && s[..4] == "ENST" && AllDigits(s[4..15]) && s[15] == '.'
                   && IsVersionPair(s[16..]);
    if matched then
      MatcherSound(s);
      true
    else
      MatcherComplete(s);
      false
  }

  lemma MatcherSound(s: string)
    requires |s| >= 19 && s[..4] == "ENST" && AllDigits(s[4..15]) && s[15] == '.'
    requires IsVersionPair(s[16..])
    ensures InPattern(s)
  {
    var tail := s[16..];
    var dot := LastIndexOf(tail, '.');
    var stable, version, repeat := s[4..15], tail[..dot], tail[dot + 1..];
    assert tail == version + "." + repeat;
    assert s == s[..4] + s[4..15] + "." + tail;
    assert IsMatch(s, stable, version, repeat);
  }

  lemma MatcherComplete(s: string)
    ensures InPattern(s) ==>
              |s| >= 19 && s[..4] == "ENST" && AllDigits(s[4..15]) && s[15] == '.'
              && IsVersionPair(s[16..])
  {
    if InPattern(s) {
      MatcherCompleteOnMatch(s);
    }
  }

  lemma MatcherCompleteOnMatch(s: string)
    requires InPattern(s)
    ensures |s| >= 19 && s[..4] == "ENST" && AllDigits(s[4..15]) && s[15] == '.'
    ensures IsVersionPair(s[16..])
  {
    var stable, version, repeat :| IsMatch(s, stable, version, repeat);
    var head := "ENST" + stable + ".";
    assert s == head + (version + "." + repeat);
    assert |head| == 16;
    assert s[..4] == head[..4] == "ENST";
    assert s[4..15] == head[4..15] == stable;
    assert s[15] == head[15] == '.';
    var tail := s[16..];
    assert tail == version + "." + repeat;
    LastIndexOfAfterDigits(version, repeat);
    assert tail[..|version|] == version;
    assert tail[|version| + 1..] == repeat;
  }

  /** In `version.repeat` with `repeat` all digits, the last dot is the separator. */
  lemma LastIndexOfAfterDigits(version: string, repeat: string)
    requires AllDigits(repeat)
    ensures LastIndexOf(version + "." + repeat, '.') == |version|
  {
    var t := version + "." + repeat;
    var dot := LastIndexOf(t, '.');
    assert t[|version|] == '.';
  }

  /** Jannovar 0.29 wrote Ensembl transcript versions twice; an accession of that shape
      loses its last `.`-suffix, and any other accession is returned as it is. */
  function TrimDuplicatedEnsemblVersion(accession: string): (r: string)
    ensures r <= accession
    ensures !InPattern(accession) ==> r == accession
    ensures forall stable, version, repeat :: IsMatch(accession, stable, version, repeat)
              ==> r == "ENST" + stable + "." + version
  {
    if MatchesEnstRepeatVersion(accession) then
      var lastDot := LastIndexOf(accession, '.');
      TrimmedIsStableAndVersion(accession);
      accession[..lastDot]
    else accession
  }

  lemma TrimmedIsStableAndVersion(accession: string)
    ensures forall stable, version, repeat :: IsMatch(accession, stable, version, repeat)
              ==> LastIndexOf(accession, '.') >= 0 &&
                  accession[..LastIndexOf(accession, '.')] == "ENST" + stable + "." + version
  {
    forall stable, version, repeat | IsMatch(accession, stable, version, repeat)
      ensures LastIndexOf(accession, '.') >= 0 &&
              accession[..LastIndexOf(accession, '.')] == "ENST" + stable + "." + version
    {
      var prefix := "ENST" + stable + "." + version;
      assert accession == prefix + "." + repeat;
      LastIndexOfAfterDigits(prefix, repeat);
    }
  }

  /** Trimming twice trims nothing more: a trimmed accession has a single dot after
      `ENST` and the stable id, so it no longer has the duplicated shape. */
  lemma {:induction false} TrimIsIdempotent(accession: string)
    ensures TrimDuplicatedEnsemblVersion(TrimDuplicatedEnsemblVersion(accession))
            == TrimDuplicatedEnsemblVersion(accession)
  {
    var t := TrimDuplicatedEnsemblVersion(accession);
    if InPattern(accession) {
      var stable, version, repeat :| IsMatch(accession, stable, version, repeat);
      assert t == "ENST" + stable + "." + version;
      assert t[16..] == version;
      assert !IsVersionPair(t[16..]);
      assert !MatchesEnstRepeatVersion(t);
    }
  }

  // ---------------------------------------------------------------------------
  // Gene identifiers
  // ---------------------------------------------------------------------------

  /** The gene id written to the protobuf record: a null or "." id becomes the empty
      string, any other id is copied. */
  function NormalisedGeneId(geneId: Option<string>): (r: string)
    ensures r == "" <==> geneId == None || geneId == Some(".") || geneId == Some("")
    ensures r != "" ==> geneId == Some(r)
  {
    if geneId.None? || geneId.value == "." then "" else geneId.value
  }

  /** Normalising an already normalised id changes nothing. */
  lemma NormalisedGeneIdIsIdempotent(geneId: Option<string>)
    ensures NormalisedGeneId(Some(NormalisedGeneId(geneId))) == NormalisedGeneId(geneId)
  {
  }

  const EntrezId: string := "ENTREZ_ID"

  /** The alternative gene ids written to the protobuf record: an ENTREZ_ID of "." is
      replaced by the empty string; every other entry, and the key set, stay as they
      are, and a map without a "." ENTREZ_ID is returned unchanged. */
  function ReplaceDotGeneIdWithEmpty(altGeneIds: map<string, string>): (r: map<string, string>)
    ensures r.Keys == altGeneIds.Keys
    ensures forall k :: k in altGeneIds && k != EntrezId ==> r[k] == altGeneIds[k]
    ensures EntrezId in altGeneIds ==>
              r[EntrezId] == (if altGeneIds[EntrezId] == "." then "" else altGeneIds[EntrezId])
    ensures !(EntrezId in altGeneIds && altGeneIds[EntrezId] == ".") ==> r == altGeneIds
  {
    var entrezId := if EntrezId in altGeneIds then altGeneIds[EntrezId] else "";
    if entrezId == "." then altGeneIds[EntrezId := ""] else altGeneIds
  }

  /** After the replacement no ENTREZ_ID is ".", so a second replacement is the
      identity. */
  lemma ReplaceDotGeneIdIsIdempotent(altGeneIds: map<string, string>)
    ensures ReplaceDotGeneIdWithEmpty(ReplaceDotGeneIdWithEmpty(altGeneIds))
            == ReplaceDotGeneIdWithEmpty(altGeneIds)
  {
  }

  // ---------------------------------------------------------------------------
  // Strands and genome intervals
  // ---------------------------------------------------------------------------

  /** Jannovar's strand. */
  datatype Strand = FWD | REV

  /** The protobuf strand; a Java protobuf enum also reads unknown wire values as
      UNRECOGNIZED. */
  datatype ProtoStrand = ProtoFwd | ProtoRev | Unrecognized

  datatype GenomeInterval = GenomeInterval(strand: Strand, chr: int, beginPos: int, endPos: int)

  datatype ProtoGenomeInterval = ProtoGenomeInterval(chr: int, strand: ProtoStrand, beginPos: int, endPos: int)

  function ToProtoStrand(strand: Strand): (r: ProtoStrand)
    ensures r == ProtoFwd <==> strand == FWD
    ensures r != Unrecognized
  {
    if strand == FWD then ProtoFwd else ProtoRev
  }

  /** Reading a strand back: FWD stays FWD and every other value becomes REV. */
  function ToStrand(strand: ProtoStrand): (r: Strand)
    ensures r == FWD <==> strand == ProtoFwd
  {
    if strand == ProtoFwd then FWD else REV
  }

  lemma StrandRoundTrip(strand: Strand)
    ensures ToStrand(ToProtoStrand(strand)) == strand
  {
  }

  function ToProtoGenomeInterval(interval: GenomeInterval): ProtoGenomeInterval
  {
    ProtoGenomeInterval(interval.chr, ToProtoStrand(interval.strand), interval.beginPos, interval.endPos)
  }

  function ToGenomeInterval(interval: ProtoGenomeInterval): GenomeInterval
  {
    GenomeInterval(ToStrand(interval.strand), interval.chr, interval.beginPos, interval.endPos)
  }

  /** Writing an interval and reading it back gives the same strand, chromosome,
      begin and end. */
  lemma GenomeIntervalRoundTrip(interval: GenomeInterval)
    ensures ToGenomeInterval(ToProtoGenomeInterval(interval)) == interval
  {
  }

  /** Reading a protobuf interval and writing it again gives the same record, except
      that an unrecognised strand is written back as REV. */
  lemma ProtoIntervalReadBack(p: ProtoGenomeInterval)
    ensures ToProtoGenomeInterval(ToGenomeInterval(p))
            == p.(strand := if p.strand == ProtoFwd then ProtoFwd else ProtoRev)
    ensures p.strand != Unrecognized ==> ToProtoGenomeInterval(ToGenomeInterval(p)) == p
  {
  }

  /** Exon regions are converted one by one, keeping their number and order. */
  function ToProtoExonRegions(intervals: seq<GenomeInterval>): (r: seq<ProtoGenomeInterval>)
    ensures |r| == |intervals|
    ensures forall i :: 0 <= i < |intervals| ==> r[i] == ToProtoGenomeInterval(intervals[i])
  {
    if intervals == [] then []
    else [ToProtoGenomeInterval(intervals[0])] + ToProtoExonRegions(intervals[1..])
  }

  function ToExonRegions(intervals: seq<ProtoGenomeInterval>): (r: seq<GenomeInterval>)
    ensures |r| == |intervals|
    ensures forall i :: 0 <= i < |intervals| ==> r[i] == ToGenomeInterval(intervals[i])
  {
    if intervals == [] then []
    else [ToGenomeInterval(intervals[0])] + ToExonRegions(intervals[1..])
  }

  lemma {:induction false} ExonRegionsRoundTrip(intervals: seq<GenomeInterval>)
    ensures ToExonRegions(ToProtoExonRegions(intervals)) == intervals
  {
    if intervals != [] {
      ExonRegionsRoundTrip(intervals[1..]);
      GenomeIntervalRoundTrip(intervals[0]);
    }
  }

  // ---------------------------------------------------------------------------
  // Transcript models
  // ---------------------------------------------------------------------------

  /** The fields of a Jannovar transcript model that the conversion copies; the gene
      id may be null. */
  datatype TranscriptModel = TranscriptModel(
    accession: string,
    geneSymbol: string,
    txRegion: GenomeInterval,
    cdsRegion: GenomeInterval,
    exonRegions: seq<GenomeInterval>,
    sequence: string,
    geneId: Option<string>,
    transcriptSupportLevel: int,
    altGeneIds: map<string, string>)

  datatype ProtoTranscriptModel = ProtoTranscriptModel(
    accession: string,
    geneSymbol: string,
    geneId: string,
    altGeneIds: map<string, string>,
    transcriptSupportLevel: int,
    sequence: string,
    cdsRegion: ProtoGenomeInterval,
    txRegion: ProtoGenomeInterval,
    exonRegions: seq<ProtoGenomeInterval>)

  /** The protobuf record of a transcript: the accession trimmed, the gene id and
      ENTREZ_ID normalised, everything else copied. */
  function ToProtoTranscriptModel(tm: TranscriptModel): ProtoTranscriptModel
  {
    ProtoTranscriptModel(
      TrimDuplicatedEnsemblVersion(tm.accession),
      tm.geneSymbol,
      NormalisedGeneId(tm.geneId),
      ReplaceDotGeneIdWithEmpty(tm.altGeneIds),
      tm.transcriptSupportLevel,
      tm.sequence,
      ToProtoGenomeInterval(tm.cdsRegion),
      ToProtoGenomeInterval(tm.txRegion),
      ToProtoExonRegions(tm.exonRegions))
  }

  /** Reading a protobuf record back: every field is copied; the gene id is never null. */
  function ToTranscriptModel(p: ProtoTranscriptModel): TranscriptModel
  {
    TranscriptModel(
      p.accession,
      p.geneSymbol,
      ToGenomeInterval(p.txRegion),
      ToGenomeInterval(p.cdsRegion),
      ToExonRegions(p.exonRegions),
      p.sequence,
      Some(p.geneId),
      p.transcriptSupportLevel,
      p.altGeneIds)
  }

  /** A transcript that is written and read back differs from the original only in the
      three normalised fields. */
  lemma TranscriptModelRoundTrip(tm: TranscriptModel)
    ensures ToTranscriptModel(ToProtoTranscriptModel(tm))
            == tm.(accession := TrimDuplicatedEnsemblVersion(tm.accession),
                   geneId := Some(NormalisedGeneId(tm.geneId)),
                   altGeneIds := ReplaceDotGeneIdWithEmpty(tm.altGeneIds))
  {
    GenomeIntervalRoundTrip(tm.txRegion);
    GenomeIntervalRoundTrip(tm.cdsRegion);
    ExonRegionsRoundTrip(tm.exonRegions);
  }

  /** Writing is a fixed point after one read: a transcript read back from its protobuf
      record serialises to the same record. */
  lemma {:induction false} ReserialisingIsStable(tm: TranscriptModel)
    ensures ToProtoTranscriptModel(ToTranscriptModel(ToProtoTranscriptModel(tm)))
            == ToProtoTranscriptModel(tm)
  {
    TranscriptModelRoundTrip(tm);
    TrimIsIdempotent(tm.accession);
    NormalisedGeneIdIsIdempotent(tm.geneId);
    ReplaceDotGeneIdIsIdempotent(tm.altGeneIds);
  }
}
