/** The values an analysis run works on and the specification of what a run does.
    A variant carries the symbol of the gene it lies in; the known genes are a map from
    gene symbol to the variants added to that gene so far. The collaborators the runner
    calls (variant source, variant filter runner, gene filter runner, prioritiser runner,
    inheritance mode analyser, gene scorer) are observed through the sequence of calls
    made on them, an `Effect` trace. */
module AnalysisModel {
  import opened Wrappers
  import opened AnalysisSteps

  /** A variant evaluation, identified by `id`, annotated with the gene it lies in. */
  datatype Variant = Variant(id: nat, geneSymbol: string)

  /** Genes by symbol, each with the variants added to it, in the order they were added. */
  type GeneMap = map<string, seq<Variant>>

  datatype ScoringMode = RawScore | RankBased

  datatype GeneScorer = RawScoreGeneScorer | RankBasedGeneScorer

  /** The scorer for a scoring mode: rank based for RANK_BASED, raw score for anything else. */
  function GetGeneScorer(mode: ScoringMode): (scorer: GeneScorer)
    ensures scorer == RankBasedGeneScorer <==> mode == RankBased
    ensures scorer == RawScoreGeneScorer <==> mode != RankBased
  {
    if mode == RankBased then RankBasedGeneScorer else RawScoreGeneScorer
  }

  /** How variants are loaded: keeping only those in a known gene and running the given
      variant filters over each, or keeping every variant and running no filter. */
  datatype LoadPolicy = KnownGenesWithFilters(filters: seq<AnalysisStep>) | AcceptAll

  function PolicyFilters(policy: LoadPolicy): seq<AnalysisStep> {
    if policy.KnownGenesWithFilters? then policy.filters else []
  }

  /** The collaborator that runs a step, chosen by the kind of step. */
  datatype StepRunner = VariantFilterRunner | GeneFilterRunner | PrioritiserRunner

  function RunnerFor(step: AnalysisStep): StepRunner {
    match step.kind
    case VariantFilterStep => VariantFilterRunner
    case GeneFilterStep => GeneFilterRunner
    case PrioritiserStep => PrioritiserRunner
  }

  /** One call made on a collaborator. */
  datatype Effect =
    | VariantStreamOpened(policy: LoadPolicy)
    | VariantFilterRun(filter: AnalysisStep, variant: Variant)
    | InheritanceModesAnalysed
    | StepRun(runner: StepRunner, step: AnalysisStep)
    | GenesScored(scorer: GeneScorer)

  datatype AnalysisError =
    | DuplicateGeneSymbol(symbol: string)
    | NoGeneForVariant(variant: Variant)

  datatype AnalysisResults = AnalysisResults(genes: GeneMap, variants: seq<Variant>)

  // ---------------------------------------------------------------- steps of a group

  /** The variant filters of a group, in order. */
  function GetVariantFilterSteps(steps: seq<AnalysisStep>): (filters: seq<AnalysisStep>)
    ensures |filters| <= |steps|
    ensures forall f :: f in filters <==> f in steps && IsVariantFilter(f)
  {
    if steps == [] then []
    else (if IsVariantFilter(steps[0]) then [steps[0]] else []) + GetVariantFilterSteps(steps[1..])
  }

  /** Selecting the variant filters keeps the order of the steps: the filters of a
      concatenation are the filters of each part, one part after the other. */
  lemma {:induction false} GetVariantFilterStepsAppend(a: seq<AnalysisStep>, b: seq<AnalysisStep>)
    ensures GetVariantFilterSteps(a + b) == GetVariantFilterSteps(a) + GetVariantFilterSteps(b)
  {
    if a != [] {
      GetVariantFilterStepsAppend(a[1..], b);
      var head := if IsVariantFilter(a[0]) then [a[0]] else [];
      assert (a + b)[0] == a[0] && (a + b)[1..] == a[1..] + b;
      assert GetVariantFilterSteps(a + b) == head + GetVariantFilterSteps(a[1..] + b);
      assert GetVariantFilterSteps(a) == head + GetVariantFilterSteps(a[1..]);
    } else {
      assert a + b == b;
    }
  }

  /** Each variant filter is kept as many times as it occurs in the group, and no other
      step is kept. */
  lemma {:induction false} GetVariantFilterStepsCounts(steps: seq<AnalysisStep>)
    ensures forall f :: multiset(GetVariantFilterSteps(steps))[f] == if IsVariantFilter(f) then multiset(steps)[f] else 0
  {
    if steps != [] {
      GetVariantFilterStepsCounts(steps[1..]);
      var head := if IsVariantFilter(steps[0]) then [steps[0]] else [];
      var rest := GetVariantFilterSteps(steps[1..]);
      assert GetVariantFilterSteps(steps) == head + rest;
      assert multiset(head + rest) == multiset(head) + multiset(rest);
      assert steps == [steps[0]] + steps[1..];
      assert multiset(steps) == multiset{steps[0]} + multiset(steps[1..]);
    }
  }

  /** A group made only of variant filters is returned whole. */
  lemma {:induction false} GetVariantFilterStepsKeepsAllFilters(steps: seq<AnalysisStep>)
    requires forall i :: 0 <= i < |steps| ==> IsVariantFilter(steps[i])
    ensures GetVariantFilterSteps(steps) == steps
  {
    if steps != [] {
      GetVariantFilterStepsKeepsAllFilters(steps[1..]);
      assert steps == [steps[0]] + steps[1..];
    }
  }

  /** A single step is kept exactly when it is a variant filter. */
  lemma GetVariantFilterStepsOfOne(step: AnalysisStep)
    ensures GetVariantFilterSteps([step]) == if IsVariantFilter(step) then [step] else []
  {
    assert [step][1..] == [];
  }

  // ---------------------------------------------------------------- known genes

  predicate NoDuplicates(symbols: seq<string>) {
    forall i, j :: 0 <= i < j < |symbols| ==> symbols[i] != symbols[j]
  }

  /** One gene per symbol, none with a variant yet. */
  function NewGenes(symbols: seq<string>): GeneMap {
    map s | s in symbols :: []
  }

  /** The known genes by symbol. Collecting them into a map fails when two genes share a
      symbol. */
  function MakeKnownGenes(symbols: seq<string>): (r: Result<GeneMap, AnalysisError>)
    ensures r.Ok? <==> NoDuplicates(symbols)
    ensures r.Ok? ==> r.value == NewGenes(symbols)
    ensures r.Err? ==> r.error.DuplicateGeneSymbol?
    ensures r.Err? ==> exists i, j :: 0 <= i < j < |symbols| && symbols[i] == r.error.symbol && symbols[j] == r.error.symbol
  {
    if symbols == [] then Ok(map[])
    else
      match MakeKnownGenes(symbols[1..])
      case Err(e) => Err(e)
      case Ok(genes) =>
        if symbols[0] in genes then Err(DuplicateGeneSymbol(symbols[0]))
        else
          assert genes[symbols[0] := []] == NewGenes(symbols) by {
            assert forall s :: s in symbols <==> s == symbols[0] || s in symbols[1..];
          }
          Ok(genes[symbols[0] := []])
  }

  // ---------------------------------------------------------------- loading variants

  predicate IsInKnownGene(keys: set<string>, v: Variant) {
    v.geneSymbol in keys
  }

  predicate AllInKnownGenes(vs: seq<Variant>, keys: set<string>) {
    forall i :: 0 <= i < |vs| ==> IsInKnownGene(keys, vs[i])
  }

  lemma AllInKnownGenesExtend(input: seq<Variant>, i: nat, keys: set<string>)
    requires i < |input| && AllInKnownGenes(input[..i], keys)
    ensures AllInKnownGenes(input[..i + 1], keys) <==> IsInKnownGene(keys, input[i])
  {
    assert input[..i + 1][i] == input[i];
    assert forall j :: 0 <= j < i ==> input[..i + 1][j] == input[..i][j];
  }

  /** The variants lying in a known gene, in stream order. */
  function InKnownGenes(vs: seq<Variant>, keys: set<string>): (kept: seq<Variant>)
    ensures |kept| <= |vs|
  {
    if vs == [] then []
    else
      var v := vs[|vs| - 1];
      InKnownGenes(vs[..|vs| - 1], keys) + (if IsInKnownGene(keys, v) then [v] else [])
  }

  /** A variant is kept exactly when it was streamed and its gene is known. */
  lemma {:induction false} InKnownGenesMembers(vs: seq<Variant>, keys: set<string>)
    ensures forall v :: v in InKnownGenes(vs, keys) <==> v in vs && v.geneSymbol in keys
  {
    if vs != [] {
      var v := vs[|vs| - 1];
      InKnownGenesMembers(vs[..|vs| - 1], keys);
      assert vs == vs[..|vs| - 1] + [v];
    }
  }

  /** The variants a load keeps from the stream `input`. */
  function LoadedVariants(input: seq<Variant>, keys: set<string>, policy: LoadPolicy): seq<Variant> {
    if policy.AcceptAll? then input else InKnownGenes(input, keys)
  }

  /** The variants of `vs` that lie in gene `symbol`, in order. */
  function OfGene(vs: seq<Variant>, symbol: string): (r: seq<Variant>)
    ensures |r| <= |vs|
  {
    if vs == [] then []
    else
      var v := vs[|vs| - 1];
      OfGene(vs[..|vs| - 1], symbol) + (if v.geneSymbol == symbol then [v] else [])
  }

  /** A gene gets exactly the variants that lie in it. */
  lemma {:induction false} OfGeneMembers(vs: seq<Variant>, symbol: string)
    ensures forall v :: v in OfGene(vs, symbol) <==> v in vs && v.geneSymbol == symbol
  {
    if vs != [] {
      var v := vs[|vs| - 1];
      OfGeneMembers(vs[..|vs| - 1], symbol);
      assert vs == vs[..|vs| - 1] + [v];
    }
  }

  /** Every gene of `genes` after each variant of `vs` has been added to its own gene. */
  function AttachVariants(genes: GeneMap, vs: seq<Variant>): GeneMap {
    map g | g in genes :: genes[g] + OfGene(vs, g)
  }

  lemma AttachNothing(genes: GeneMap)
    ensures AttachVariants(genes, []) == genes
  {
    forall g | g in genes ensures AttachVariants(genes, [])[g] == genes[g] {
      assert OfGene([], g) == [];
    }
  }

  /** Adding one more variant changes only its own gene, which gets it at the end. */
  lemma AttachOneMore(genes: GeneMap, vs: seq<Variant>, v: Variant)
    requires v.geneSymbol in genes
    ensures AttachVariants(genes, vs + [v])
      == AttachVariants(genes, vs)[v.geneSymbol := AttachVariants(genes, vs)[v.geneSymbol] + [v]]
  {
    var before := AttachVariants(genes, vs);
    var after := AttachVariants(genes, vs + [v]);
    var expected := before[v.geneSymbol := before[v.geneSymbol] + [v]];
    assert (vs + [v])[..|vs|] == vs;
    forall g | g in genes ensures after[g] == expected[g] {
      assert OfGene(vs + [v], g) == OfGene(vs, g) + (if v.geneSymbol == g then [v] else []);
    }
    assert after.Keys == expected.Keys;
  }

  /** The filter runs made on one variant, one per filter in order. */
  function FilterRunsOn(filters: seq<AnalysisStep>, v: Variant): seq<Effect> {
    if filters == [] then []
    else FilterRunsOn(filters[..|filters| - 1], v) + [VariantFilterRun(filters[|filters| - 1], v)]
  }

  /** The filter runs made over a sequence of variants, variant by variant. */
  function FilterRuns(filters: seq<AnalysisStep>, vs: seq<Variant>): seq<Effect> {
    if vs == [] then []
    else FilterRuns(filters, vs[..|vs| - 1]) + FilterRunsOn(filters, vs[|vs| - 1])
  }

  /** A variant has passed the filters when none of them failed it; `fails` says which
      filter fails which variant. */
  predicate PassedFilters(filters: seq<AnalysisStep>, v: Variant, fails: (AnalysisStep, Variant) -> bool) {
    forall f :: f in filters ==> !fails(f, v)
  }

  function CountPassed(filters: seq<AnalysisStep>, vs: seq<Variant>, fails: (AnalysisStep, Variant) -> bool): (n: nat)
    ensures n <= |vs|
  {
    if vs == [] then 0
    else CountPassed(filters, vs[..|vs| - 1], fails) + (if PassedFilters(filters, vs[|vs| - 1], fails) then 1 else 0)
  }

  /** Whether a load under `policy` keeps a streamed variant. */
  predicate Keeps(policy: LoadPolicy, keys: set<string>, v: Variant) {
    policy.AcceptAll? || IsInKnownGene(keys, v)
  }

  /** Streaming one more variant: it is kept exactly when the policy keeps everything
      or its gene is known. */
  lemma LoadedVariantsExtend(input: seq<Variant>, i: nat, keys: set<string>, policy: LoadPolicy)
    requires i < |input|
    ensures LoadedVariants(input[..i + 1], keys, policy)
      == LoadedVariants(input[..i], keys, policy) + (if Keeps(policy, keys, input[i]) then [input[i]] else [])
  {
    assert input[..i + 1][..i] == input[..i];
  }

  /** Keeping one more variant adds its filter runs and counts it when it passed. */
  lemma KeepOneMore(filters: seq<AnalysisStep>, loaded: seq<Variant>, v: Variant, fails: (AnalysisStep, Variant) -> bool)
    ensures FilterRuns(filters, loaded + [v]) == FilterRuns(filters, loaded) + FilterRunsOn(filters, v)
    ensures CountPassed(filters, loaded + [v], fails)
      == CountPassed(filters, loaded, fails) + (if PassedFilters(filters, v, fails) then 1 else 0)
  {
    assert (loaded + [v])[..|loaded|] == loaded;
  }

  lemma ConcatAssociates(a: seq<Effect>, b: seq<Effect>, c: seq<Effect>)
    ensures a + b + c == a + (b + c)
  {
  }

  /** The calls a load makes: the stream is opened, then the filters run on each kept
      variant. */
  function LoadTrace(policy: LoadPolicy, input: seq<Variant>, keys: set<string>): seq<Effect> {
    [VariantStreamOpened(policy)] + FilterRuns(PolicyFilters(policy), LoadedVariants(input, keys, policy))
  }

  // ---------------------------------------------------------------- running a group of steps

  /** The position of the first step that depends on inheritance modes, if any. */
  function FirstDependent(steps: seq<AnalysisStep>): (k: Option<nat>)
    ensures k.Some? ==> k.value < |steps| && IsInheritanceModeDependent(steps[k.value])
    ensures k.Some? ==> forall j :: 0 <= j < k.value ==> !IsInheritanceModeDependent(steps[j])
    ensures k.None? ==> forall j :: 0 <= j < |steps| ==> !IsInheritanceModeDependent(steps[j])
  {
    if steps == [] then None
    else if IsInheritanceModeDependent(steps[0]) then Some(0)
    else
      match FirstDependent(steps[1..])
      case None => None
      case Some(k) => Some(k + 1)
  }

  /** One call on the matching runner per step, in order. */
  function StepRuns(steps: seq<AnalysisStep>): seq<Effect> {
    if steps == [] then []
    else StepRuns(steps[..|steps| - 1]) + [StepRun(RunnerFor(steps[|steps| - 1]), steps[|steps| - 1])]
  }

  /** The calls running a group makes: the steps in order, with the inheritance modes
      analysed once, right before the first step that depends on them. */
  function RunStepsTrace(steps: seq<AnalysisStep>): seq<Effect> {
    match FirstDependent(steps)
    case None => StepRuns(steps)
    case Some(k) => StepRuns(steps[..k]) + [InheritanceModesAnalysed] + StepRuns(steps[k..])
  }

  /** Appending a step moves the first dependent position only when there was none. */
  lemma {:induction false} FirstDependentSnoc(p: seq<AnalysisStep>, s: AnalysisStep)
    ensures FirstDependent(p + [s]) ==
      if FirstDependent(p).Some? then FirstDependent(p)
      else if IsInheritanceModeDependent(s) then Some(|p|)
      else None
  {
    if p != [] {
      assert (p + [s])[1..] == p[1..] + [s];
      FirstDependentSnoc(p[1..], s);
    }
  }

  /** Running one more step of a group: the inheritance modes are analysed first when
      this is the first step that depends on them. */
  lemma RunStepsTraceExtend(steps: seq<AnalysisStep>, i: nat)
    requires i < |steps|
    ensures FirstDependent(steps[..i + 1]).Some? <==> FirstDependent(steps[..i]).Some? || IsInheritanceModeDependent(steps[i])
    ensures RunStepsTrace(steps[..i + 1]) == RunStepsTrace(steps[..i])
      + (if FirstDependent(steps[..i]).None? && IsInheritanceModeDependent(steps[i]) then [InheritanceModesAnalysed] else [])
      + [StepRun(RunnerFor(steps[i]), steps[i])]
  {
    var p, q, s := steps[..i], steps[..i + 1], steps[i];
    assert q == p + [s];
    FirstDependentSnoc(p, s);
    var run := [StepRun(RunnerFor(s), s)];
    if FirstDependent(p).Some? {
      var k := FirstDependent(p).value;
      assert q[..k] == p[..k];
      assert q[k..] == p[k..] + [s];
      assert q[k..][..|q[k..]| - 1] == p[k..];
      ConcatAssociates(StepRuns(p[..k]) + [InheritanceModesAnalysed], StepRuns(p[k..]), run);
    } else if IsInheritanceModeDependent(s) {
      assert q[..i] == p;
      assert q[i..] == [s];
      assert [s][..0] == [];
      assert StepRuns(q[i..]) == run;
      assert FirstDependent(q) == Some(i);
      assert RunStepsTrace(q) == StepRuns(p) + [InheritanceModesAnalysed] + run;
    } else {
      assert q[..i] == p;
    }
  }

  // ---------------------------------------------------------------- running an analysis

  predicate NonEmptyGroups(groups: seq<seq<AnalysisStep>>) {
    forall i :: 0 <= i < |groups| ==> groups[i] != []
  }

  /** The position of the first group that starts with a variant filter, if any. */
  function FirstVariantFilterGroup(groups: seq<seq<AnalysisStep>>): (k: Option<nat>)
    requires NonEmptyGroups(groups)
    ensures k.Some? ==> k.value < |groups| && IsVariantFilter(groups[k.value][0])
    ensures k.Some? ==> forall j :: 0 <= j < k.value ==> !IsVariantFilter(groups[j][0])
    ensures k.None? ==> forall j :: 0 <= j < |groups| ==> !IsVariantFilter(groups[j][0])
  {
    if groups == [] then None
    else if IsVariantFilter(groups[0][0]) then Some(0)
    else
      match FirstVariantFilterGroup(groups[1..])
      case None => None
      case Some(k) => Some(k + 1)
  }

  /** How a run loads its variants: with the variant filters of the first group that
      starts with a variant filter, or, when there is none, keeping everything. */
  function LoadPolicyFor(groups: seq<seq<AnalysisStep>>): LoadPolicy
    requires NonEmptyGroups(groups)
  {
    match FirstVariantFilterGroup(groups)
    case None => AcceptAll
    case Some(k) => KnownGenesWithFilters(GetVariantFilterSteps(groups[k]))
  }

  /** The calls made while going through the groups in order, `loaded` telling whether
      the variants have been loaded already: the first group starting with a variant
      filter loads the variants, every other group is run step by step, and when no
      group loaded them the variants are loaded unfiltered at the end. */
  function GroupsTrace(groups: seq<seq<AnalysisStep>>, loaded: bool, input: seq<Variant>, keys: set<string>): seq<Effect>
    requires NonEmptyGroups(groups)
  {
    if groups == [] then
      if loaded then [] else LoadTrace(AcceptAll, input, keys)
    else if IsVariantFilter(groups[0][0]) && !loaded then
      LoadTrace(KnownGenesWithFilters(GetVariantFilterSteps(groups[0])), input, keys)
        + GroupsTrace(groups[1..], true, input, keys)
    else
      RunStepsTrace(groups[0]) + GroupsTrace(groups[1..], loaded, input, keys)
  }

  /** All calls of a run over `steps`, ending with scoring the genes. */
  function AnalysisTrace(steps: seq<AnalysisStep>, input: seq<Variant>, keys: set<string>, mode: ScoringMode): seq<Effect> {
    GroupsTrace(MaximalRuns(steps), false, input, keys) + [GenesScored(GetGeneScorer(mode))]
  }

  // ---------------------------------------------------------------- results

  /** The genes that ended up with at least one variant. */
  function GetFinalGeneList(genes: GeneMap): (final: GeneMap)
    ensures forall g :: g in final <==> g in genes && genes[g] != []
    ensures forall g :: g in final ==> final[g] == genes[g]
  {
    map g | g in genes && genes[g] != [] :: genes[g]
  }

  /** The variants reported are all the loaded variants, in load order. */
  function GetFinalVariantList(variants: seq<Variant>): seq<Variant>
  {
    variants
  }
}
