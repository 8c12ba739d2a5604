# Exomiser core, modelled in Dafny

This project models four parts of the Exomiser variant prioritisation library and proves
what each of them promises.

- **The analysis runner** (`AbstractAnalysisRunner`). It splits the configured analysis
  steps into maximal runs of adjacent steps of one type. It streams the sample's variants
  once: with the variant filters of the first group that starts with a variant filter, or
  unfiltered after all groups when there is no such group. With the first variant-filter
  group's filters it keeps only variants in a known gene; the unfiltered load keeps every
  variant. It runs the group's filters on each kept variant, counts the
  variants that passed, and adds each variant to its gene. Every other group is run step
  by step, with inheritance-mode compatibility analysed at most once per group, right
  before the first step that needs it. At the end it reports the genes that have variants
  and all loaded variants, and scores the genes.
  - The runner is the class `AnalysisRunner.Runner`. Each call it makes on a
    collaborator is appended to its `trace` field. That covers the variant source, the
    variant filter runner, the gene filter runner, the prioritiser runner, the
    inheritance mode analyser and the gene scorer.
  - Each method is proved against a specification function of the trace
    (`AnalysisModel.LoadTrace`, `RunStepsTrace`, `GroupsTrace`, `AnalysisTrace`).
  - The lemmas in `AnalysisProperties` read the specification back. The variants are
    streamed exactly once. Every step outside the loading group runs exactly once, in
    order. Inheritance modes are analysed at most once per group. Every loaded variant
    lands in its own gene and in no other.
  - The step grouping (`AnalysisSteps`) is proved equal to a reference definition of
    maximal runs. That definition is shown to be the only maximal-run partition of the
    steps.
- **The chromosomal region index** (`ChromosomalRegionIndex`). It is a map from
  chromosome to the set of regions on it. A query for a 1-based position is the point
  query `position - 1` against the half-open intervals `[start - 1, end)`, which is
  proved to mean "`start <= position <= end`".
- **Transcript conversion to and from protobuf** (`JannovarProtoConverter`). It covers:
  - trimming the duplicated Ensembl version (`ENST` + 11 digits + `.v.v`), with the
    pattern written as a hand-made matcher proved equal to the pattern's language;
  - the gene-id and `ENTREZ_ID` normalisations;
  - strand and interval conversions and their round trips;
  - the fact that a transcript written, read back and written again gives the same
    record.
- **Frequency data** (`FrequencyData`). The constructor derives the list of known
  frequencies in a fixed source order. The record also offers the database-presence
  predicates and the maximum frequency.

Files:
- `wrappers.dfy`: `Option` and `Result`.
- `analysis_steps.dfy`: steps and grouping.
- `analysis_model.dfy`: the specification of a run.
- `analysis_runner.dfy`: the runner class.
- `analysis_properties.dfy`: properties of runs.
- `chromosomal_region_index.dfy`, `jannovar_proto_converter.dfy` and `frequency_data.dfy`.

The table below cites the source files by their path in the repository.

Where the code and its documentation differ, the model follows the code:
- In `runAnalysis`, the unfiltered load (no variant-filter group) keeps every streamed
  variant, including one whose gene is not a known gene. Adding such a variant to its
  gene dereferences a missing map entry and aborts the run. `Runner.LoadVariants` and
  `Runner.RunAnalysis` return `Err(NoGeneForVariant(v))` in that case.
- `makeKnownGenes` collects into a map keyed by gene symbol, and that collector throws on
  a duplicate key. `MakeKnownGenes` returns `Err(DuplicateGeneSymbol(s))` instead.

A modelling choice: the grouping compares step types, but the load decision tests
`isVariantFilter()` of the group's first step. The step class is not part of this model,
so the type and the variant-filter flag are independent fields of a step here.

## Model

| member | source | states |
|---|---|---|
| AnalysisSteps.MaximalRuns | exomiser-core/src/main/java/de/charite/compbio/exomiser/core/analysis/AbstractAnalysisRunner.java:189-216 | reference grouping: no groups exactly for no steps; every group is non-empty and the first starts with the first step |
| AnalysisSteps.MaximalRunsIsPartition | exomiser-core/src/main/java/de/charite/compbio/exomiser/core/analysis/AbstractAnalysisRunner.java:196-213 | the reference grouping concatenates back to the steps in order; every group is a run of one type; adjacent groups differ in type |
| AnalysisSteps.PartitionIsUnique | exomiser-core/src/main/java/de/charite/compbio/exomiser/core/analysis/AbstractAnalysisRunner.java:200-211 | two maximal-run partitions of the same steps are equal, so grouping is determined by the steps |
| AnalysisSteps.ScanStateCloses | exomiser-core/src/main/java/de/charite/compbio/exomiser/core/analysis/AbstractAnalysisRunner.java:205-213 | adding the open group to the closed groups of a scan yields a maximal-run partition of the steps scanned |
| AnalysisSteps.ScanStep | exomiser-core/src/main/java/de/charite/compbio/exomiser/core/analysis/AbstractAnalysisRunner.java:200-211 | one loop iteration keeps the scan invariant: closed groups + open group = steps so far, runs, alternating types, open group differs from the last closed one |
| AnalysisSteps.GroupAnalysisStepsByFunction | exomiser-core/src/main/java/de/charite/compbio/exomiser/core/analysis/AbstractAnalysisRunner.java:189-216 | empty steps give no groups; the result is a maximal-run partition of the steps and equals the reference grouping |
| AnalysisSteps.InterleavedFiltersStayApart | exomiser-core/src/main/java/de/charite/compbio/exomiser/core/analysis/AbstractAnalysisRunner.java:200-211 | [filter, prioritiser, filter] gives three groups: non-adjacent steps of one type are not merged |
| AnalysisModel.GetGeneScorer | exomiser-core/src/main/java/de/charite/compbio/exomiser/core/analysis/AbstractAnalysisRunner.java:282-287 | rank-based scorer exactly for RANK_BASED, raw-score scorer for every other mode |
| AnalysisModel.GetVariantFilterSteps | exomiser-core/src/main/java/de/charite/compbio/exomiser/core/analysis/AbstractAnalysisRunner.java:218-228 | a step is returned exactly when it is in the group and is a variant filter; no more steps than the group |
| AnalysisModel.GetVariantFilterStepsAppend | exomiser-core/src/main/java/de/charite/compbio/exomiser/core/analysis/AbstractAnalysisRunner.java:218-228 | the filters of a concatenation are the filters of each part in turn, so the selection keeps the steps' order |
| AnalysisModel.GetVariantFilterStepsOfOne | exomiser-core/src/main/java/de/charite/compbio/exomiser/core/analysis/AbstractAnalysisRunner.java:222 | one step is kept exactly when it is a variant filter |
| AnalysisModel.GetVariantFilterStepsCounts | exomiser-core/src/main/java/de/charite/compbio/exomiser/core/analysis/AbstractAnalysisRunner.java:218-228 | each variant filter is kept as often as it occurs in the group and no other step is kept |
| AnalysisModel.GetVariantFilterStepsKeepsAllFilters | exomiser-core/src/main/java/de/charite/compbio/exomiser/core/analysis/AbstractAnalysisRunner.java:218-228 | a group made only of variant filters is returned whole, in its order |
| AnalysisModel.MakeKnownGenes | exomiser-core/src/main/java/de/charite/compbio/exomiser/core/analysis/AbstractAnalysisRunner.java:183-187 | succeeds exactly when no symbol repeats, with one empty gene per symbol; otherwise fails naming a symbol that occurs twice |
| AnalysisModel.InKnownGenesMembers | exomiser-core/src/main/java/de/charite/compbio/exomiser/core/analysis/AbstractAnalysisRunner.java:122-124 | the known-gene filter keeps a variant exactly when it was streamed and its gene symbol is a key of the gene map |
| AnalysisModel.OfGeneMembers | exomiser-core/src/main/java/de/charite/compbio/exomiser/core/analysis/AbstractAnalysisRunner.java:153-158 | a gene receives exactly the loaded variants whose symbol is its own |
| AnalysisModel.AttachOneMore | exomiser-core/src/main/java/de/charite/compbio/exomiser/core/analysis/AbstractAnalysisRunner.java:153-156 | adding one more variant appends it to the end of its own gene's list and changes no other gene |
| AnalysisModel.AttachNothing | exomiser-core/src/main/java/de/charite/compbio/exomiser/core/analysis/AbstractAnalysisRunner.java:153-158 | with no variants loaded, the genes are unchanged |
| AnalysisModel.LoadedVariantsExtend | exomiser-core/src/main/java/de/charite/compbio/exomiser/core/analysis/AbstractAnalysisRunner.java:144-145 | one more streamed variant is kept, at the end, exactly when the policy keeps all or its gene is known |
| AnalysisModel.KeepOneMore | exomiser-core/src/main/java/de/charite/compbio/exomiser/core/analysis/AbstractAnalysisRunner.java:145-152 | keeping one more variant adds exactly its filter runs to the trace and raises the passed count by one exactly when it passed |
| AnalysisModel.CountPassed | exomiser-core/src/main/java/de/charite/compbio/exomiser/core/analysis/AbstractAnalysisRunner.java:146-152 | the passed count never exceeds the number of kept variants |
| AnalysisModel.FirstDependent | exomiser-core/src/main/java/de/charite/compbio/exomiser/core/analysis/AbstractAnalysisRunner.java:239 | the first step depending on inheritance modes: it depends, no earlier step does; none when no step does |
| AnalysisModel.RunStepsTraceExtend | exomiser-core/src/main/java/de/charite/compbio/exomiser/core/analysis/AbstractAnalysisRunner.java:238-244 | running one more step adds one inheritance analysis exactly when it is the first dependent step, then the step's runner call; the latch becomes set exactly then |
| AnalysisModel.FirstVariantFilterGroup | exomiser-core/src/main/java/de/charite/compbio/exomiser/core/analysis/AbstractAnalysisRunner.java:69-78 | the first group starting with a variant filter: it starts with one, no earlier group does; none when no group does |
| AnalysisModel.GetFinalGeneList | exomiser-core/src/main/java/de/charite/compbio/exomiser/core/analysis/AbstractAnalysisRunner.java:169-174 | a gene is reported exactly when it has a non-empty variant list, with that list |
| AnalysisProperties.StepRunsRunEachStep | exomiser-core/src/main/java/de/charite/compbio/exomiser/core/analysis/AbstractAnalysisRunner.java:243 | step-by-step calls hand exactly the steps, in order, to runners, opening no stream and analysing nothing |
| AnalysisProperties.RunStepsTraceRunsEachStepOnce | exomiser-core/src/main/java/de/charite/compbio/exomiser/core/analysis/AbstractAnalysisRunner.java:236-245 | running a group hands every step to a runner once, in order, opens no stream, analyses inheritance modes at most once, and exactly once iff some step depends on them |
| AnalysisProperties.FilterRunsOnAreQuiet | exomiser-core/src/main/java/de/charite/compbio/exomiser/core/analysis/AbstractAnalysisRunner.java:114-120 | running the filters on a variant runs no step, opens no stream and analyses nothing |
| AnalysisProperties.FilterRunsAreQuiet | exomiser-core/src/main/java/de/charite/compbio/exomiser/core/analysis/AbstractAnalysisRunner.java:144-145 | the filter runs of a whole load run no step, open no stream and analyse nothing |
| AnalysisProperties.LoadTraceOpensOnce | exomiser-core/src/main/java/de/charite/compbio/exomiser/core/analysis/AbstractAnalysisRunner.java:133-158 | a load opens the variant stream exactly once, with its policy, and runs no step |
| AnalysisProperties.GroupsAfterLoadRunAsGenePasses | exomiser-core/src/main/java/de/charite/compbio/exomiser/core/analysis/AbstractAnalysisRunner.java:79-81 | once variants are loaded, every later group, variant-filter groups included, is run step by step: all their steps run in order and no stream opens |
| AnalysisProperties.VariantsStreamedOnce | exomiser-core/src/main/java/de/charite/compbio/exomiser/core/analysis/AbstractAnalysisRunner.java:68-87 | a run opens the variant stream exactly once: with the filters of the first variant-filter group, or unfiltered when there is none |
| AnalysisProperties.StepsRunOutsideTheLoadingGroup | exomiser-core/src/main/java/de/charite/compbio/exomiser/core/analysis/AbstractAnalysisRunner.java:69-81 | the steps handed to runners are all steps in order except those of the loading group (all steps when no group loads) |
| AnalysisProperties.FirstGroupRunsFirst | exomiser-core/src/main/java/de/charite/compbio/exomiser/core/analysis/AbstractAnalysisRunner.java:79-80 | a first group that does not load has its steps run before those of the later groups |
| AnalysisProperties.SecondVariantFilterRunsOverGenes | exomiser-core/src/main/java/de/charite/compbio/exomiser/core/analysis/AbstractAnalysisRunner.java:74-81 | with [filter, prioritiser, filter] the stream is filtered by the first filter only, and the prioritiser and the second filter are handed to runners |
| AnalysisProperties.LoadedVariantsLandInTheirGene | exomiser-core/src/main/java/de/charite/compbio/exomiser/core/analysis/AbstractAnalysisRunner.java:153-158 | every loaded variant is in the gene of its symbol, every variant of a gene was loaded and has its symbol, and no gene is added |
| AnalysisProperties.FinalGenesAreTheGenesWithVariants | exomiser-core/src/main/java/de/charite/compbio/exomiser/core/analysis/AbstractAnalysisRunner.java:169-174 | the reported genes are exactly the genes some loaded variant lies in |
| AnalysisProperties.FinalVariantsLieInFinalGenes | exomiser-core/src/main/java/de/charite/compbio/exomiser/core/analysis/AbstractAnalysisRunner.java:169-178 | the final variant list is every loaded variant in load order, and each lies in a reported gene's list |
| AnalysisProperties.FilteredLoadKeepsOnlyKnownGenes | exomiser-core/src/main/java/de/charite/compbio/exomiser/core/analysis/AbstractAnalysisRunner.java:144 | a filtered load returns no variant outside the known genes |
| AnalysisRunner.Runner.RunVariantFilters | exomiser-core/src/main/java/de/charite/compbio/exomiser/core/analysis/AbstractAnalysisRunner.java:114-120 | the predicate always keeps the variant and runs every filter on it once, in order |
| AnalysisRunner.Runner.StreamVariant | exomiser-core/src/main/java/de/charite/compbio/exomiser/core/analysis/AbstractAnalysisRunner.java:144-157 | a variant that is not kept changes nothing; a kept one has its filters run, is counted if it passed and is appended to its gene; it aborts exactly when kept with an unknown gene |
| AnalysisRunner.Runner.StreamNext | exomiser-core/src/main/java/de/charite/compbio/exomiser/core/analysis/AbstractAnalysisRunner.java:136-157 | one streamed variant takes the load state for the first i variants to that for i + 1, or aborts only on an unknown gene under the unfiltered policy |
| AnalysisRunner.Runner.StreamAll | exomiser-core/src/main/java/de/charite/compbio/exomiser/core/analysis/AbstractAnalysisRunner.java:135-158 | the stream aborts exactly when unfiltered with an off-target variant; otherwise it keeps the specified variants, attaches them, counts the passed ones and records their filter runs |
| AnalysisRunner.Runner.LoadVariants | exomiser-core/src/main/java/de/charite/compbio/exomiser/core/analysis/AbstractAnalysisRunner.java:126-162 | Err exactly for an unfiltered load with an off-target variant; otherwise the kept variants in stream order, each in its gene, streamed = input size, passed <= kept <= streamed, and the trace opens the stream once then runs the filters |
| AnalysisRunner.Runner.LoadAndFilterVariants | exomiser-core/src/main/java/de/charite/compbio/exomiser/core/analysis/AbstractAnalysisRunner.java:103-109 | loads with the known-gene filter and the group's variant filters |
| AnalysisRunner.Runner.RunStep | exomiser-core/src/main/java/de/charite/compbio/exomiser/core/analysis/AbstractAnalysisRunner.java:248-268 | the step is handed once to the runner for its kind |
| AnalysisRunner.Runner.AnalyseGeneCompatibilityWithInheritanceMode | exomiser-core/src/main/java/de/charite/compbio/exomiser/core/analysis/AbstractAnalysisRunner.java:270-274 | one inheritance-mode analysis call is made and nothing else |
| AnalysisRunner.Runner.ScoreGenes | exomiser-core/src/main/java/de/charite/compbio/exomiser/core/analysis/AbstractAnalysisRunner.java:276-280 | the genes are scored once, with the scorer chosen for the scoring mode |
| AnalysisRunner.Runner.RunNextStep | exomiser-core/src/main/java/de/charite/compbio/exomiser/core/analysis/AbstractAnalysisRunner.java:239-243 | one iteration keeps the latch equal to "a dependent step was seen" and the trace equal to the group's specified trace so far |
| AnalysisRunner.Runner.RunSteps | exomiser-core/src/main/java/de/charite/compbio/exomiser/core/analysis/AbstractAnalysisRunner.java:236-245 | the calls made are exactly the specified group trace: steps in order, one inheritance analysis before the first dependent step |
| AnalysisRunner.Runner.RunGroup | exomiser-core/src/main/java/de/charite/compbio/exomiser/core/analysis/AbstractAnalysisRunner.java:72-81 | a group loads the variants exactly when it starts with a variant filter and none are loaded; loaded state is never lost; the trace advances by the group's part of the specification |
| AnalysisRunner.Runner.RunGroups | exomiser-core/src/main/java/de/charite/compbio/exomiser/core/analysis/AbstractAnalysisRunner.java:68-82 | after the loop the flag is set exactly when some group starts with a variant filter, and the variants and genes are those of that group's filtered load |
| AnalysisRunner.Runner.RunGroupsThenLoad | exomiser-core/src/main/java/de/charite/compbio/exomiser/core/analysis/AbstractAnalysisRunner.java:68-88 | the groups followed by the fallback unfiltered load produce the run's specified trace, variants and genes, or the off-target error |
| AnalysisRunner.Runner.RunAnalysis | exomiser-core/src/main/java/de/charite/compbio/exomiser/core/analysis/AbstractAnalysisRunner.java:51-101 | Err exactly for duplicate gene symbols or an unfiltered load of an off-target variant; otherwise the loaded variants, the genes with variants, and the full call trace ending with the scorer for the mode |
| AnalysisRunner.LoadingGroupTrace | exomiser-core/src/main/java/de/charite/compbio/exomiser/core/analysis/AbstractAnalysisRunner.java:74-78 | a variant-filter group met before loading contributes the filtered load and sets the load policy |
| AnalysisRunner.RunGroupTrace | exomiser-core/src/main/java/de/charite/compbio/exomiser/core/analysis/AbstractAnalysisRunner.java:79-81 | any other group contributes its step-by-step trace and leaves the load policy to later groups |
| ChromosomalRegionIndex.HalfOpenQueryIsOneBasedContainment | exomiser-core/src/main/java/org/monarchinitiative/exomiser/core/model/ChromosomalRegionIndex.java:134-145 | the interval [start - 1, end) contains position - 1 exactly when start <= position <= end |
| ChromosomalRegionIndex.Of | exomiser-core/src/main/java/org/monarchinitiative/exomiser/core/model/ChromosomalRegionIndex.java:48-58 | every input region is stored under its own chromosome, every stored region lies on its key, no chromosome is kept without regions, duplicates collapse, and the index holds exactly the distinct input regions |
| ChromosomalRegionIndex.GroupedIsValid | exomiser-core/src/main/java/org/monarchinitiative/exomiser/core/model/ChromosomalRegionIndex.java:49 | grouping by chromosome stores each region under its own chromosome, keeps no empty chromosome, and loses no region |
| ChromosomalRegionIndex.GroupAddRegion | exomiser-core/src/main/java/org/monarchinitiative/exomiser/core/model/ChromosomalRegionIndex.java:49-53 | adding a region to the grouped collection adds it to its chromosome's set only |
| ChromosomalRegionIndex.Empty | exomiser-core/src/main/java/org/monarchinitiative/exomiser/core/model/ChromosomalRegionIndex.java:71-73 | the empty index holds no region |
| ChromosomalRegionIndex.GetRegionsOverlappingPosition | exomiser-core/src/main/java/org/monarchinitiative/exomiser/core/model/ChromosomalRegionIndex.java:103-110 | an unknown chromosome gives an empty result; otherwise exactly the regions of that chromosome with start <= position <= end |
| ChromosomalRegionIndex.GetRegionsContainingVariant | exomiser-core/src/main/java/org/monarchinitiative/exomiser/core/model/ChromosomalRegionIndex.java:90-94 | exactly the regions on the variant's chromosome containing its position |
| ChromosomalRegionIndex.HasRegionContainingPosition | exomiser-core/src/main/java/org/monarchinitiative/exomiser/core/model/ChromosomalRegionIndex.java:86-88 | true exactly when the query result is non-empty, i.e. some region of the chromosome contains the position |
| ChromosomalRegionIndex.HasRegionContainingVariant | exomiser-core/src/main/java/org/monarchinitiative/exomiser/core/model/ChromosomalRegionIndex.java:75-77 | true exactly when the variant query is non-empty, which is the position query on its coordinates |
| ChromosomalRegionIndex.Size | exomiser-core/src/main/java/org/monarchinitiative/exomiser/core/model/ChromosomalRegionIndex.java:117-119 | the per-chromosome sizes sum to the number of distinct regions held |
| ChromosomalRegionIndex.Equals | exomiser-core/src/main/java/org/monarchinitiative/exomiser/core/model/ChromosomalRegionIndex.java:121-127 | equal exactly when the chromosome maps are equal; for well-formed indexes without empty chromosomes, exactly when they hold the same regions |
| ChromosomalRegionIndex.SameRegionsSameIndex | exomiser-core/src/main/java/org/monarchinitiative/exomiser/core/model/ChromosomalRegionIndex.java:121-127 | a well-formed index without empty chromosomes is determined by the set of regions it holds |
| ChromosomalRegionIndex.SameSpanElementsStayApart | exomiser-core/src/main/java/org/monarchinitiative/exomiser/core/model/ChromosomalRegionIndex.java:48-58 | two distinct elements on the same span are both kept, both counted and both returned by a query inside the span |
| ChromosomalRegionIndex.EmptyIndexFindsNothing | exomiser-core/src/main/java/org/monarchinitiative/exomiser/core/model/ChromosomalRegionIndex.java:42 | the empty index answers every query with nothing |
| ChromosomalRegionIndex.GroupingDeterminesIndex | exomiser-core/src/main/java/org/monarchinitiative/exomiser/core/model/ChromosomalRegionIndex.java:48-58 | indexes built from two region sets are equal exactly when the sets are equal |
| JannovarProtoConverter.LastIndexOf | exomiser-core/src/main/java/org/monarchinitiative/exomiser/core/genome/jannovar/JannovarProtoConverter.java:104 | the index of the last occurrence of the character, or -1 when there is none |
| JannovarProtoConverter.MatchesEnstRepeatVersion | exomiser-core/src/main/java/org/monarchinitiative/exomiser/core/genome/jannovar/JannovarProtoConverter.java:98 | the hand-written matcher accepts exactly the strings of ENST + 11 digits + "." digits "." digits |
| JannovarProtoConverter.MatcherSound | exomiser-core/src/main/java/org/monarchinitiative/exomiser/core/genome/jannovar/JannovarProtoConverter.java:98 | a string the matcher's checks accept is in the pattern's language |
| JannovarProtoConverter.MatcherComplete | exomiser-core/src/main/java/org/monarchinitiative/exomiser/core/genome/jannovar/JannovarProtoConverter.java:98 | every string of the pattern's language passes the matcher's checks |
| JannovarProtoConverter.LastIndexOfAfterDigits | exomiser-core/src/main/java/org/monarchinitiative/exomiser/core/genome/jannovar/JannovarProtoConverter.java:104 | in version "." repeat with repeat all digits, the last dot is the separator |
| JannovarProtoConverter.TrimDuplicatedEnsemblVersion | exomiser-core/src/main/java/org/monarchinitiative/exomiser/core/genome/jannovar/JannovarProtoConverter.java:102-110 | a matching accession becomes ENST + stable id + "." + version; any other is returned unchanged; the result is a prefix of the input |
| JannovarProtoConverter.TrimmedIsStableAndVersion | exomiser-core/src/main/java/org/monarchinitiative/exomiser/core/genome/jannovar/JannovarProtoConverter.java:104-105 | cutting a matching accession at its last dot leaves ENST + stable id + "." + version |
| JannovarProtoConverter.TrimIsIdempotent | exomiser-core/src/main/java/org/monarchinitiative/exomiser/core/genome/jannovar/JannovarProtoConverter.java:98-110 | trimming a trimmed accession changes nothing |
| JannovarProtoConverter.NormalisedGeneId | exomiser-core/src/main/java/org/monarchinitiative/exomiser/core/genome/jannovar/JannovarProtoConverter.java:87-88 | the written id is empty exactly for a null, "." or empty id; any other id is copied |
| JannovarProtoConverter.NormalisedGeneIdIsIdempotent | exomiser-core/src/main/java/org/monarchinitiative/exomiser/core/genome/jannovar/JannovarProtoConverter.java:87-88 | normalising a normalised id changes nothing |
| JannovarProtoConverter.ReplaceDotGeneIdWithEmpty | exomiser-core/src/main/java/org/monarchinitiative/exomiser/core/genome/jannovar/JannovarProtoConverter.java:112-120 | same keys; only an ENTREZ_ID of "." changes, to ""; without one the map is returned as is |
| JannovarProtoConverter.ReplaceDotGeneIdIsIdempotent | exomiser-core/src/main/java/org/monarchinitiative/exomiser/core/genome/jannovar/JannovarProtoConverter.java:112-120 | replacing twice is replacing once |
| JannovarProtoConverter.ToProtoStrand | exomiser-core/src/main/java/org/monarchinitiative/exomiser/core/genome/jannovar/JannovarProtoConverter.java:125 | FWD is written as FWD, anything else as REV; never an unrecognised value |
| JannovarProtoConverter.ToStrand | exomiser-core/src/main/java/org/monarchinitiative/exomiser/core/genome/jannovar/JannovarProtoConverter.java:175 | FWD is read as FWD and every other value as REV |
| JannovarProtoConverter.StrandRoundTrip | exomiser-core/src/main/java/org/monarchinitiative/exomiser/core/genome/jannovar/JannovarProtoConverter.java:172-180 | writing a strand and reading it back gives the same strand |
| JannovarProtoConverter.GenomeIntervalRoundTrip | exomiser-core/src/main/java/org/monarchinitiative/exomiser/core/genome/jannovar/JannovarProtoConverter.java:122-129 | writing an interval and reading it back preserves strand, chromosome, begin and end |
| JannovarProtoConverter.ProtoIntervalReadBack | exomiser-core/src/main/java/org/monarchinitiative/exomiser/core/genome/jannovar/JannovarProtoConverter.java:172-180 | reading a protobuf interval and writing it again gives the same record, except that an unrecognised strand comes back as REV |
| JannovarProtoConverter.ToProtoExonRegions | exomiser-core/src/main/java/org/monarchinitiative/exomiser/core/genome/jannovar/JannovarProtoConverter.java:131-135 | same length, each interval converted in place |
| JannovarProtoConverter.ToExonRegions | exomiser-core/src/main/java/org/monarchinitiative/exomiser/core/genome/jannovar/JannovarProtoConverter.java:182-186 | same length, each interval converted in place |
| JannovarProtoConverter.ExonRegionsRoundTrip | exomiser-core/src/main/java/org/monarchinitiative/exomiser/core/genome/jannovar/JannovarProtoConverter.java:182-186 | writing the exon regions and reading them back gives the same list |
| JannovarProtoConverter.TranscriptModelRoundTrip | exomiser-core/src/main/java/org/monarchinitiative/exomiser/core/genome/jannovar/JannovarProtoConverter.java:156-170 | a transcript read back from its record differs from the original only in the trimmed accession and the normalised gene ids |
| JannovarProtoConverter.ReserialisingIsStable | exomiser-core/src/main/java/org/monarchinitiative/exomiser/core/genome/jannovar/JannovarProtoConverter.java:83-96 | writing, reading back and writing again gives the same record |
| FrequencyData.Present | exomiser-core/src/main/java/de/charite/compbio/exomiser/core/frequency/FrequencyData.java:58-71 | at most one collected frequency per source |
| FrequencyData.PresentMembers | exomiser-core/src/main/java/de/charite/compbio/exomiser/core/frequency/FrequencyData.java:60-71 | a frequency is collected exactly when some source holds it |
| FrequencyData.PresentOfFour | exomiser-core/src/main/java/de/charite/compbio/exomiser/core/frequency/FrequencyData.java:60-71 | collecting four sources is the four conditional appends in order |
| FrequencyData.Create | exomiser-core/src/main/java/de/charite/compbio/exomiser/core/frequency/FrequencyData.java:51-72 | each field keeps the argument of its name; the known list is exactly the non-null frequencies in the order dbSNP, ESP AA, ESP all, ESP EA; at most four |
| FrequencyData.PresentEmpty | exomiser-core/src/main/java/de/charite/compbio/exomiser/core/frequency/FrequencyData.java:103 | the known list is empty exactly when every source is null |
| FrequencyData.RepresentedInDatabase | exomiser-core/src/main/java/de/charite/compbio/exomiser/core/frequency/FrequencyData.java:99-105 | true exactly when the rs id is present or the known list is non-empty; for a record as constructed, exactly when the rs id or any of the four frequencies is present |
| FrequencyData.HasDbSnpData | exomiser-core/src/main/java/de/charite/compbio/exomiser/core/frequency/FrequencyData.java:107-109 | true exactly when the dbSNP frequency is present |
| FrequencyData.HasDbSnpRsId | exomiser-core/src/main/java/de/charite/compbio/exomiser/core/frequency/FrequencyData.java:111-113 | true exactly when the rs id is present |
| FrequencyData.HasEspData | exomiser-core/src/main/java/de/charite/compbio/exomiser/core/frequency/FrequencyData.java:115-117 | true exactly when the ESP all-comers frequency is present; the population frequencies do not count |
| FrequencyData.GetMaxFreq | exomiser-core/src/main/java/de/charite/compbio/exomiser/core/frequency/FrequencyData.java:135-143 | at least 0 and at least every known frequency; equal to 0 or to one of them; 0 when there are none |

## Left out

- Logging, timing and the progress messages every 100000 variants are left out. They do not change any result.
- `AnalysisStepChecker` is not part of this model. Neither are the sample data, pedigree, mode of inheritance, and the VCF and PED paths. `makeSampleDataWithoutGenesOrVariants` and the setters on the sample data are left out too.
- The variant source is an input sequence of variants. The try-with-resources stream is not modelled.
- `makeKnownGenes` builds its map with a parallel, concurrent collector. It is modelled as a sequential fold over the gene symbols. A gene is its symbol and its list of variants.
- Gene objects are shared between the map and the lists handed to runners. That aliasing is not modelled: genes are map values.
- The collaborators are observed through the `trace` of calls, not modelled inside. These are the variant filter runner, gene filter runner, prioritiser runner, inheritance mode analyser and gene scorers.
- Runners and scorers do not change the genes or variants in the model. A filter's verdict on a variant is the `fails` parameter.
- AnalysisRunner.Runner.RunStep: a variant filter run over the genes is one call in the trace, not one call per gene. A step of any kind other than the three modelled ones is not represented, because `StepKind` has only these three.
- AnalysisRunner.Runner.StreamVariant: `passedFilters()` is modelled as "no filter of this load fails the variant". Filter results a variant may already carry from elsewhere are not modelled.
- AnalysisModel.GetFinalGeneList returns a map. The order in which the Java code lists the genes is the gene map's iteration order, and that order is not modelled.
- AnalysisModel.GetGeneScorer: `ScoringMode` has only its two relevant values here. The enum's own source is not part of this model.
- The Java ScoringMode, AnalysisStep, Gene, VariantEvaluation and Frequency classes are not part of this model. Their relevant fields are datatype fields.
- ChromosomalRegionIndex.Of: the index holds elements of a generic region type. An element is modelled as its coordinates plus an `id` standing for the rest of it, and the element type's own `equals`, which the grouping into sets uses, is taken to be equality of all four. Elements that share a span but differ are kept apart and counted apart.
- ChromosomalRegionIndex.GroupingDeterminesIndex: each interval array is taken to be equal to another exactly when they hold the same regions. `IntervalArray` and its `equals` are not part of this model, and the same holds for `Equals` and `SameRegionsSameIndex`.
- ChromosomalRegionIndex.GetRegionsOverlappingPosition returns a set. The order of the list an interval array returns is not modelled, and neither are the array's internals.
- `hashCode` of the index is not modelled.
- `toJannovarProto`, `toJannovarData` and the reference-dictionary conversions are not modelled. Neither are the protobuf builders or the sorting and parallel streams over transcripts. The transcript conversion is modelled on the copied fields.
- JannovarProtoConverter.ToStrand: a Java protobuf enum read from the wire can also be UNRECOGNIZED, which reads back as REV. It is modelled as a third value.
- The ENST regular expression is a hand-written matcher, not a regex engine.
- FrequencyData.GetMaxFreq: frequencies are reals, so float rounding and NaN are not modelled. Only comparison and `max` are used.
- FrequencyData.RepresentedInDatabase: the known-frequency list is a mutable list that `getKnownFrequencies` hands out, so a caller can change it after construction. That aliasing is not modelled: the record is a value. `RepresentedInDatabase` and `GetMaxFreq` read the list as it is, so the record-as-constructed clauses hold only while the list is unchanged.
- FrequencyData: `toString` is not modelled. The getters are the datatype's fields.
- Java `int` positions are modelled as unbounded integers, so the wrap-around of `start - 1` at `Integer.MIN_VALUE` and of `position - 1` is not modelled.
