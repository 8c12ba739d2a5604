/** The analysis runner: groups the steps, loads the variants once (filtering them while
    streaming when a group of variant filters comes up), runs the remaining groups over
    the genes, and scores the genes. Every call the runner makes on a collaborator is
    appended to `trace`; the contracts tie the trace to the specification in
    `AnalysisModel`. */
module AnalysisRunner {
  import opened Wrappers
  import opened AnalysisSteps
  import opened AnalysisModel

  /** What a load returns: the kept variants, the genes with the variants added, and the
      two counters kept while streaming. */
  datatype Loaded = Loaded(variants: seq<Variant>, genes: GeneMap, streamed: nat, passed: nat)

  class Runner {
    /** The calls made on the collaborators so far, oldest first. */
    var trace: seq<Effect>

    constructor()
      ensures trace == []
    {
      trace := [];
    }

    /** The predicate applied to each streamed variant of a filtered load: every filter
        is run on the variant and the variant is always kept (its filter results are
        recorded on the variant instead). */
    method RunVariantFilters(filters: seq<AnalysisStep>, v: Variant) returns (keep: bool)
      modifies this
      ensures keep
      ensures trace == old(trace) + FilterRunsOn(filters, v)
    {
      var i := 0;
      while i < |filters|
        invariant 0 <= i <= |filters|
        invariant trace == old(trace) + FilterRunsOn(filters[..i], v)
      {
        assert filters[..i + 1][..i] == filters[..i];
        trace := trace + [VariantFilterRun(filters[i], v)];
        i := i + 1;
      }
      assert filters[..i] == filters;
      keep := true;
    }

    /** One variant through the stream pipeline: it is kept when the policy keeps
        everything or its gene is known; a kept variant has the filters run on it,
        is counted when it passed them, and is added to its gene. Returns false when
        the gene of a kept variant cannot be looked up. */
    method StreamVariant(v: Variant, policy: LoadPolicy, genes: GeneMap, loaded: seq<Variant>, allGenes: GeneMap,
                         passed: nat, fails: (AnalysisStep, Variant) -> bool)
      returns (ok: bool, newLoaded: seq<Variant>, newGenes: GeneMap, newPassed: nat)
      requires allGenes == AttachVariants(genes, loaded)
      requires passed == CountPassed(PolicyFilters(policy), loaded, fails)
      modifies this
      ensures ok <==> IsInKnownGene(genes.Keys, v) || !policy.AcceptAll?
      ensures ok && !Keeps(policy, genes.Keys, v) ==>
        newLoaded == loaded && newGenes == allGenes && newPassed == passed && trace == old(trace)
      ensures ok && Keeps(policy, genes.Keys, v) ==>
        && newLoaded == loaded + [v]
        && newGenes == AttachVariants(genes, newLoaded)
        && newPassed == CountPassed(PolicyFilters(policy), newLoaded, fails)
        && trace == old(trace) + FilterRunsOn(PolicyFilters(policy), v)
    {
      newLoaded, newGenes, newPassed := loaded, allGenes, passed;
      var filters := PolicyFilters(policy);
      var keep := policy.AcceptAll? || IsInKnownGene(allGenes.Keys, v);
      if !keep {
        return true, newLoaded, newGenes, newPassed;
      }
      if policy.KnownGenesWithFilters? {
        keep := RunVariantFilters(policy.filters, v);
      } else {
        assert FilterRunsOn(filters, v) == [];
      }
      if PassedFilters(filters, v, fails) {
        newPassed := passed + 1;
      }
      if v.geneSymbol !in allGenes {
        return false, newLoaded, newGenes, newPassed;
      }
      AttachOneMore(genes, loaded, v);
      KeepOneMore(filters, loaded, v, fails);
      newGenes := allGenes[v.geneSymbol := allGenes[v.geneSymbol] + [v]];
      newLoaded := loaded + [v];
      ok := true;
    }

    /** The variant at position `i` of the stream: the load so far, described by the
        loop's invariant for `input[..i]`, becomes the load for `input[..i + 1]`, or the
        stream aborts on this variant. */
    method StreamNext(input: seq<Variant>, i: nat, genes: GeneMap, policy: LoadPolicy, ghost start: seq<Effect>,
                      loaded: seq<Variant>, allGenes: GeneMap, passed: nat, fails: (AnalysisStep, Variant) -> bool)
      returns (ok: bool, newLoaded: seq<Variant>, newGenes: GeneMap, newPassed: nat)
      requires i < |input|
      requires loaded == LoadedVariants(input[..i], genes.Keys, policy)
      requires allGenes == AttachVariants(genes, loaded)
      requires passed == CountPassed(PolicyFilters(policy), loaded, fails)
      requires trace == start + FilterRuns(PolicyFilters(policy), loaded)
      requires policy.AcceptAll? ==> AllInKnownGenes(input[..i], genes.Keys)
      modifies this
      ensures !ok ==> policy.AcceptAll? && !AllInKnownGenes(input, genes.Keys) && input[i].geneSymbol !in genes
      ensures ok ==>
        && newLoaded == LoadedVariants(input[..i + 1], genes.Keys, policy)
        && newGenes == AttachVariants(genes, newLoaded)
        && newPassed == CountPassed(PolicyFilters(policy), newLoaded, fails)
        && trace == start + FilterRuns(PolicyFilters(policy), newLoaded)
        && (policy.AcceptAll? ==> AllInKnownGenes(input[..i + 1], genes.Keys))
    {
      var v := input[i];
      ghost var filters := PolicyFilters(policy);
      LoadedVariantsExtend(input, i, genes.Keys, policy);
      KeepOneMore(filters, loaded, v, fails);
      ConcatAssociates(start, FilterRuns(filters, loaded), FilterRunsOn(filters, v));
      if policy.AcceptAll? {
        AllInKnownGenesExtend(input, i, genes.Keys);
      }
      ok, newLoaded, newGenes, newPassed := StreamVariant(v, policy, genes, loaded, allGenes, passed, fails);
      if !ok {
        assert !AllInKnownGenes(input, genes.Keys) by {
          assert !IsInKnownGene(genes.Keys, input[i]);
        }
      }
    }

    /** The stream itself: each input variant in turn. Returns the position of the
        variant that aborted the stream, if any. */
    method StreamAll(input: seq<Variant>, genes: GeneMap, policy: LoadPolicy, fails: (AnalysisStep, Variant) -> bool)
      returns (abortedAt: Option<nat>, loaded: seq<Variant>, allGenes: GeneMap, passed: nat)
      modifies this
      ensures abortedAt.Some? <==> policy.AcceptAll? && !AllInKnownGenes(input, genes.Keys)
      ensures abortedAt.Some? ==> abortedAt.value < |input| && input[abortedAt.value].geneSymbol !in genes
      ensures abortedAt.None? ==>
        && loaded == LoadedVariants(input, genes.Keys, policy)
        && allGenes == AttachVariants(genes, loaded)
        && passed == CountPassed(PolicyFilters(policy), loaded, fails)
        && trace == old(trace) + FilterRuns(PolicyFilters(policy), loaded)
    {
      passed := 0;
      loaded := [];
      allGenes := genes;
      AttachNothing(genes);
      var i := 0;
      while i < |input|
        invariant 0 <= i <= |input|
        invariant loaded == LoadedVariants(input[..i], genes.Keys, policy)
        invariant allGenes == AttachVariants(genes, loaded)
        invariant passed == CountPassed(PolicyFilters(policy), loaded, fails)
        invariant trace == old(trace) + FilterRuns(PolicyFilters(policy), loaded)
        invariant policy.AcceptAll? ==> AllInKnownGenes(input[..i], genes.Keys)
      {
        var ok;
        ok, loaded, allGenes, passed := StreamNext(input, i, genes, policy, old(trace), loaded, allGenes, passed, fails);
        if !ok {
          return Some(i), loaded, allGenes, passed;
        }
        i := i + 1;
      }
      assert input[..i] == input;
      abortedAt := None;
    }

    /** Streams the variants once. Under a filtered policy only variants in a known gene
        are kept and the filters run on each of them; without one every variant is kept,
        and one whose gene is unknown aborts the load (its gene cannot be looked up).
        Each kept variant is added to its gene. */
    method LoadVariants(input: seq<Variant>, genes: GeneMap, policy: LoadPolicy, fails: (AnalysisStep, Variant) -> bool)
      returns (r: Result<Loaded, AnalysisError>)
      modifies this
      ensures r.Err? <==> policy.AcceptAll? && !AllInKnownGenes(input, genes.Keys)
      ensures r.Err? ==> r.error.NoGeneForVariant? && r.error.variant in input && r.error.variant.geneSymbol !in genes
      ensures r.Ok? ==> r.value.variants == LoadedVariants(input, genes.Keys, policy)
      ensures r.Ok? ==> r.value.genes == AttachVariants(genes, r.value.variants)
      ensures r.Ok? ==> r.value.streamed == |input|
      ensures r.Ok? ==> r.value.passed == CountPassed(PolicyFilters(policy), r.value.variants, fails)
      ensures r.Ok? ==> r.value.passed <= |r.value.variants| <= r.value.streamed
      ensures r.Ok? ==> trace == old(trace) + LoadTrace(policy, input, genes.Keys)
    {
      trace := trace + [VariantStreamOpened(policy)];
      var abortedAt, loaded, allGenes, passed := StreamAll(input, genes, policy, fails);
      if abortedAt.Some? {
        return Err(NoGeneForVariant(input[abortedAt.value]));
      }
      r := Ok(Loaded(loaded, allGenes, |input|, passed));
    }

    /** Loads the variants with the variant filters of `group`, keeping only variants in
        a known gene. */
    method LoadAndFilterVariants(input: seq<Variant>, genes: GeneMap, group: seq<AnalysisStep>, fails: (AnalysisStep, Variant) -> bool)
      returns (loaded: Loaded)
      modifies this
      ensures loaded.variants == LoadedVariants(input, genes.Keys, KnownGenesWithFilters(GetVariantFilterSteps(group)))
      ensures loaded.genes == AttachVariants(genes, loaded.variants)
      ensures trace == old(trace) + LoadTrace(KnownGenesWithFilters(GetVariantFilterSteps(group)), input, genes.Keys)
    {
      var r := LoadVariants(input, genes, KnownGenesWithFilters(GetVariantFilterSteps(group)), fails);
      loaded := r.value;
    }

    /** Hands one step to the runner for its kind. */
    method RunStep(step: AnalysisStep)
      modifies this
      ensures trace == old(trace) + [StepRun(RunnerFor(step), step)]
    {
      if IsVariantFilter(step) {
        trace := trace + [StepRun(VariantFilterRunner, step)];
        return;
      }
      if step.kind == GeneFilterStep {
        trace := trace + [StepRun(GeneFilterRunner, step)];
        return;
      }
      trace := trace + [StepRun(PrioritiserRunner, step)];
    }

    method AnalyseGeneCompatibilityWithInheritanceMode()
      modifies this
      ensures trace == old(trace) + [InheritanceModesAnalysed]
    {
      trace := trace + [InheritanceModesAnalysed];
    }

    method ScoreGenes(mode: ScoringMode)
      modifies this
      ensures trace == old(trace) + [GenesScored(GetGeneScorer(mode))]
    {
      var scorer := GetGeneScorer(mode);
      trace := trace + [GenesScored(scorer)];
    }

    /** Runs a group step by step, analysing inheritance modes once, before the first
        step that depends on them. */
    method RunSteps(steps: seq<AnalysisStep>)
      modifies this
      ensures trace == old(trace) + RunStepsTrace(steps)
    {
      var inheritanceModesCalculated := false;
      var i := 0;
      while i < |steps|
        invariant 0 <= i <= |steps|
        invariant inheritanceModesCalculated <==> FirstDependent(steps[..i]).Some?
        invariant trace == old(trace) + RunStepsTrace(steps[..i])
      {
        inheritanceModesCalculated := RunNextStep(steps, i, old(trace), inheritanceModesCalculated);
        i := i + 1;
      }
      assert steps[..i] == steps;
    }

    /** The step at `i` of a group: inheritance modes are analysed first when the step
        depends on them and no earlier step of the group did, then the step is run. */
    method RunNextStep(steps: seq<AnalysisStep>, i: nat, ghost start: seq<Effect>, inheritanceModesCalculated: bool)
      returns (calculatedNow: bool)
      requires i < |steps|
      requires inheritanceModesCalculated <==> FirstDependent(steps[..i]).Some?
      requires trace == start + RunStepsTrace(steps[..i])
      modifies this
      ensures calculatedNow <==> FirstDependent(steps[..i + 1]).Some?
      ensures trace == start + RunStepsTrace(steps[..i + 1])
    {
      calculatedNow := inheritanceModesCalculated;
      var step := steps[i];
      RunStepsTraceExtend(steps, i);
      if !calculatedNow && IsInheritanceModeDependent(step) {
        AnalyseGeneCompatibilityWithInheritanceMode();
        calculatedNow := true;
      }
      RunStep(step);
    }

    /** Handles the group at `i`: it loads and filters the variants when it starts with
        a variant filter and none are loaded yet, and otherwise is run step by step. */
    method RunGroup(groups: seq<seq<AnalysisStep>>, i: nat, input: seq<Variant>, genes0: GeneMap,
                    fails: (AnalysisStep, Variant) -> bool,
                    variantsLoaded: bool, variantEvaluations: seq<Variant>, allGenes: GeneMap)
      returns (loadedNow: bool, evaluationsNow: seq<Variant>, genesNow: GeneMap)
      requires i < |groups| && NonEmptyGroups(groups[i..])
      requires !variantsLoaded ==> allGenes == genes0
      modifies this
      ensures NonEmptyGroups(groups[i + 1..])
      ensures old(trace) + GroupsTrace(groups[i..], variantsLoaded, input, genes0.Keys)
        == trace + GroupsTrace(groups[i + 1..], loadedNow, input, genes0.Keys)
      ensures variantsLoaded ==> loadedNow && evaluationsNow == variantEvaluations && genesNow == allGenes
      ensures !variantsLoaded && !loadedNow ==>
        genesNow == genes0 && LoadPolicyFor(groups[i..]) == LoadPolicyFor(groups[i + 1..])
      ensures !variantsLoaded && loadedNow ==>
        && LoadPolicyFor(groups[i..]).KnownGenesWithFilters?
        && evaluationsNow == LoadedVariants(input, genes0.Keys, LoadPolicyFor(groups[i..]))
        && genesNow == AttachVariants(genes0, evaluationsNow)
    {
      loadedNow, evaluationsNow, genesNow := variantsLoaded, variantEvaluations, allGenes;
      var keys := genes0.Keys;
      var group := groups[i];
      var firstStep := group[0];
      ghost var before := trace;
      if IsVariantFilter(firstStep) && !variantsLoaded {
        LoadingGroupTrace(groups, i, input, keys);
        ConcatAssociates(before, LoadTrace(KnownGenesWithFilters(GetVariantFilterSteps(group)), input, keys),
                         GroupsTrace(groups[i + 1..], true, input, keys));
        var loaded := LoadAndFilterVariants(input, allGenes, group, fails);
        evaluationsNow := loaded.variants;
        genesNow := loaded.genes;
        loadedNow := true;
      } else {
        RunGroupTrace(groups, i, variantsLoaded, input, keys);
        ConcatAssociates(before, RunStepsTrace(group), GroupsTrace(groups[i + 1..], variantsLoaded, input, keys));
        RunSteps(group);
      }
    }

    /** Goes through the groups in order: the first group starting with a variant filter
        loads and filters the variants, every other group is run step by step. */
    method RunGroups(groups: seq<seq<AnalysisStep>>, input: seq<Variant>, genes0: GeneMap, fails: (AnalysisStep, Variant) -> bool)
      returns (variantsLoaded: bool, variantEvaluations: seq<Variant>, allGenes: GeneMap)
      requires NonEmptyGroups(groups)
      modifies this
      ensures variantsLoaded <==> LoadPolicyFor(groups).KnownGenesWithFilters?
      ensures old(trace) + GroupsTrace(groups, false, input, genes0.Keys) == trace + GroupsTrace([], variantsLoaded, input, genes0.Keys)
      ensures !variantsLoaded ==> allGenes == genes0
      ensures variantsLoaded ==> variantEvaluations == LoadedVariants(input, genes0.Keys, LoadPolicyFor(groups))
      ensures variantsLoaded ==> allGenes == AttachVariants(genes0, variantEvaluations)
    {
      ghost var keys := genes0.Keys;
      ghost var policy := LoadPolicyFor(groups);
      allGenes := genes0;
      variantEvaluations := [];
      variantsLoaded := false;
      var i := 0;
      while i < |groups|
        invariant 0 <= i <= |groups|
        invariant NonEmptyGroups(groups[i..])
        invariant old(trace) + GroupsTrace(groups, false, input, keys) == trace + GroupsTrace(groups[i..], variantsLoaded, input, keys)
        invariant !variantsLoaded ==> allGenes == genes0 && policy == LoadPolicyFor(groups[i..])
        invariant variantsLoaded ==> policy.KnownGenesWithFilters?
        invariant variantsLoaded ==> variantEvaluations == LoadedVariants(input, keys, policy)
        invariant variantsLoaded ==> allGenes == AttachVariants(genes0, variantEvaluations)
      {
        variantsLoaded, variantEvaluations, allGenes :=
          RunGroup(groups, i, input, genes0, fails, variantsLoaded, variantEvaluations, allGenes);
        i := i + 1;
      }
      assert groups[i..] == [];
    }

    /** Goes through the groups and, when no group loaded the variants, loads them
        unfiltered at the end; returns the loaded variants and the genes they were
        added to. */
    method RunGroupsThenLoad(groups: seq<seq<AnalysisStep>>, input: seq<Variant>, genes0: GeneMap,
                             fails: (AnalysisStep, Variant) -> bool)
      returns (r: Result<AnalysisResults, AnalysisError>)
      requires NonEmptyGroups(groups)
      modifies this
      ensures r.Err? <==> LoadPolicyFor(groups) == AcceptAll && !AllInKnownGenes(input, genes0.Keys)
      ensures r.Ok? ==> r.value.variants == LoadedVariants(input, genes0.Keys, LoadPolicyFor(groups))
      ensures r.Ok? ==> r.value.genes == AttachVariants(genes0, r.value.variants)
      ensures r.Ok? ==> trace == old(trace) + GroupsTrace(groups, false, input, genes0.Keys)
    {
      var variantsLoaded, variantEvaluations, allGenes := RunGroups(groups, input, genes0, fails);
      ghost var groupsTrace := GroupsTrace(groups, false, input, genes0.Keys);
      if !variantsLoaded {
        assert GroupsTrace([], false, input, genes0.Keys) == LoadTrace(AcceptAll, input, genes0.Keys);
        var res := LoadVariants(input, allGenes, AcceptAll, fails);
        if res.Err? {
          return Err(res.error);
        }
        variantEvaluations := res.value.variants;
        allGenes := res.value.genes;
      }
      assert trace == old(trace) + groupsTrace;
      r := Ok(AnalysisResults(allGenes, variantEvaluations));
    }

    /** Runs an analysis: makes the known genes, goes through the maximal runs of steps
        in order, loads the variants unfiltered when no run did, reports the genes with
        variants and all loaded variants, and scores the genes. */
    method RunAnalysis(steps: seq<AnalysisStep>, input: seq<Variant>, knownGeneSymbols: seq<string>,
                       mode: ScoringMode, fails: (AnalysisStep, Variant) -> bool)
      returns (r: Result<AnalysisResults, AnalysisError>)
      modifies this
      ensures r.Err? <==> (!NoDuplicates(knownGeneSymbols)
        || (LoadPolicyFor(MaximalRuns(steps)) == AcceptAll && !AllInKnownGenes(input, NewGenes(knownGeneSymbols).Keys)))
      ensures !NoDuplicates(knownGeneSymbols) ==> trace == old(trace)
      ensures r.Ok? ==> r.value.variants == LoadedVariants(input, NewGenes(knownGeneSymbols).Keys, LoadPolicyFor(MaximalRuns(steps)))
      ensures r.Ok? ==> r.value.genes == GetFinalGeneList(AttachVariants(NewGenes(knownGeneSymbols), r.value.variants))
      ensures r.Ok? ==> trace == old(trace) + AnalysisTrace(steps, input, NewGenes(knownGeneSymbols).Keys, mode)
    {
      var known := MakeKnownGenes(knownGeneSymbols);
      if known.Err? {
        return Err(known.error);
      }
      var groups := GroupAnalysisStepsByFunction(steps);
      var loaded := RunGroupsThenLoad(groups, input, known.value, fails);
      if loaded.Err? {
        return Err(loaded.error);
      }
      var genes := GetFinalGeneList(loaded.value.genes);
      var variants := GetFinalVariantList(loaded.value.variants);
      ScoreGenes(mode);
      r := Ok(AnalysisResults(genes, variants));
    }
  }

  /** The group at `i` loads the variants when none are loaded yet and it starts with a
      variant filter. */
  lemma LoadingGroupTrace(groups: seq<seq<AnalysisStep>>, i: nat, input: seq<Variant>, keys: set<string>)
    requires i < |groups| && NonEmptyGroups(groups[i..]) && IsVariantFilter(groups[i][0])
    ensures NonEmptyGroups(groups[i + 1..])
    ensures GroupsTrace(groups[i..], false, input, keys)
      == LoadTrace(KnownGenesWithFilters(GetVariantFilterSteps(groups[i])), input, keys) + GroupsTrace(groups[i + 1..], true, input, keys)
    ensures LoadPolicyFor(groups[i..]) == KnownGenesWithFilters(GetVariantFilterSteps(groups[i]))
  {
    assert groups[i..][0] == groups[i] && groups[i..][1..] == groups[i + 1..];
    assert FirstVariantFilterGroup(groups[i..]) == Some(0);
  }

  /** Any other group is run step by step, and leaves the load policy to the groups
      after it. */
  lemma RunGroupTrace(groups: seq<seq<AnalysisStep>>, i: nat, loaded: bool, input: seq<Variant>, keys: set<string>)
    requires i < |groups| && NonEmptyGroups(groups[i..]) && !(IsVariantFilter(groups[i][0]) && !loaded)
    ensures NonEmptyGroups(groups[i + 1..])
    ensures GroupsTrace(groups[i..], loaded, input, keys)
      == RunStepsTrace(groups[i]) + GroupsTrace(groups[i + 1..], loaded, input, keys)
    ensures !loaded ==> LoadPolicyFor(groups[i..]) == LoadPolicyFor(groups[i + 1..])
  {
    assert groups[i..][0] == groups[i] && groups[i..][1..] == groups[i + 1..];
    if !loaded {
      FirstVariantFilterGroupOfTail(groups[i..]);
    }
  }

  /** When the first group does not start with a variant filter, the load policy is
      decided by the groups after it. */
  lemma FirstVariantFilterGroupOfTail(groups: seq<seq<AnalysisStep>>)
    requires NonEmptyGroups(groups) && groups != [] && !IsVariantFilter(groups[0][0])
    ensures LoadPolicyFor(groups) == LoadPolicyFor(groups[1..])
  {
    match FirstVariantFilterGroup(groups[1..])
    case None =>
    case Some(k) =>
      assert groups[k + 1] == groups[1..][k];
  }
}
