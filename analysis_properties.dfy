/** What a run over grouped steps promises, stated over the call trace of
    `AnalysisModel`: the variants are streamed exactly once, with the filters of the
    first variant-filter group or with none; every other step runs once, in order;
    inheritance modes are analysed at most once per group; every loaded variant ends up
    in its own gene and only there. */
module AnalysisProperties {
  import opened Wrappers
  import opened AnalysisSteps
  import opened AnalysisModel

  /** The steps handed to a step runner, in call order. */
  function StepsRunIn(t: seq<Effect>): seq<AnalysisStep> {
    if t == [] then [] else (if t[0].StepRun? then [t[0].step] else []) + StepsRunIn(t[1..])
  }

  /** The policies the variant stream was opened with, in call order. */
  function StreamsOpenedIn(t: seq<Effect>): seq<LoadPolicy> {
    if t == [] then [] else (if t[0].VariantStreamOpened? then [t[0].policy] else []) + StreamsOpenedIn(t[1..])
  }

  /** How many times inheritance modes were analysed. */
  function InheritanceAnalysesIn(t: seq<Effect>): nat {
    if t == [] then 0 else (if t[0] == InheritanceModesAnalysed then 1 else 0) + InheritanceAnalysesIn(t[1..])
  }

  lemma {:induction false} ExtractAppend(a: seq<Effect>, b: seq<Effect>)
    ensures StepsRunIn(a + b) == StepsRunIn(a) + StepsRunIn(b)
    ensures StreamsOpenedIn(a + b) == StreamsOpenedIn(a) + StreamsOpenedIn(b)
    ensures InheritanceAnalysesIn(a + b) == InheritanceAnalysesIn(a) + InheritanceAnalysesIn(b)
  {
    StepsRunInAppend(a, b);
    StreamsOpenedInAppend(a, b);
    InheritanceAnalysesInAppend(a, b);
  }

  lemma {:induction false} StepsRunInAppend(a: seq<Effect>, b: seq<Effect>)
    ensures StepsRunIn(a + b) == StepsRunIn(a) + StepsRunIn(b)
  {
    if a == [] {
      assert a + b == b;
    } else {
      var ab := a + b;
      assert ab[0] == a[0] && ab[1..] == a[1..] + b;
      StepsRunInAppend(a[1..], b);
      assert StepsRunIn(ab) == (if a[0].StepRun? then [a[0].step] else []) + StepsRunIn(a[1..] + b);
    }
  }

  lemma {:induction false} StreamsOpenedInAppend(a: seq<Effect>, b: seq<Effect>)
    ensures StreamsOpenedIn(a + b) == StreamsOpenedIn(a) + StreamsOpenedIn(b)
  {
    if a == [] {
      assert a + b == b;
    } else {
      var ab := a + b;
      assert ab[0] == a[0] && ab[1..] == a[1..] + b;
      StreamsOpenedInAppend(a[1..], b);
      assert StreamsOpenedIn(ab) == (if a[0].VariantStreamOpened? then [a[0].policy] else []) + StreamsOpenedIn(a[1..] + b);
    }
  }

  lemma {:induction false} InheritanceAnalysesInAppend(a: seq<Effect>, b: seq<Effect>)
    ensures InheritanceAnalysesIn(a + b) == InheritanceAnalysesIn(a) + InheritanceAnalysesIn(b)
  {
    if a == [] {
      assert a + b == b;
    } else {
      var ab := a + b;
      assert ab[0] == a[0] && ab[1..] == a[1..] + b;
      InheritanceAnalysesInAppend(a[1..], b);
      assert InheritanceAnalysesIn(ab) == (if a[0] == InheritanceModesAnalysed then 1 else 0) + InheritanceAnalysesIn(a[1..] + b);
    }
  }

  /** A variant filter run neither runs a step, nor opens the stream, nor analyses
      inheritance modes. */
  lemma {:induction false} FilterRunsOnAreQuiet(filters: seq<AnalysisStep>, v: Variant)
    ensures StepsRunIn(FilterRunsOn(filters, v)) == []
    ensures StreamsOpenedIn(FilterRunsOn(filters, v)) == []
    ensures InheritanceAnalysesIn(FilterRunsOn(filters, v)) == 0
  {
    if filters != [] {
      FilterRunsOnAreQuiet(filters[..|filters| - 1], v);
      ExtractAppend(FilterRunsOn(filters[..|filters| - 1], v), [VariantFilterRun(filters[|filters| - 1], v)]);
    }
  }

  lemma {:induction false} FilterRunsAreQuiet(filters: seq<AnalysisStep>, vs: seq<Variant>)
    ensures StepsRunIn(FilterRuns(filters, vs)) == []
    ensures StreamsOpenedIn(FilterRuns(filters, vs)) == []
    ensures InheritanceAnalysesIn(FilterRuns(filters, vs)) == 0
  {
    if vs != [] {
      FilterRunsAreQuiet(filters, vs[..|vs| - 1]);
      FilterRunsOnAreQuiet(filters, vs[|vs| - 1]);
      ExtractAppend(FilterRuns(filters, vs[..|vs| - 1]), FilterRunsOn(filters, vs[|vs| - 1]));
    }
  }

  /** Loading opens the stream once, with its policy, and runs no step. */
  lemma LoadTraceOpensOnce(policy: LoadPolicy, input: seq<Variant>, keys: set<string>)
    ensures StreamsOpenedIn(LoadTrace(policy, input, keys)) == [policy]
    ensures StepsRunIn(LoadTrace(policy, input, keys)) == []
    ensures InheritanceAnalysesIn(LoadTrace(policy, input, keys)) == 0
  {
    var filters := PolicyFilters(policy);
    var loaded := LoadedVariants(input, keys, policy);
    FilterRunsAreQuiet(filters, loaded);
    ExtractAppend([VariantStreamOpened(policy)], FilterRuns(filters, loaded));
  }

  lemma {:induction false} StepRunsRunEachStep(steps: seq<AnalysisStep>)
    ensures StepsRunIn(StepRuns(steps)) == steps
    ensures StreamsOpenedIn(StepRuns(steps)) == []
    ensures InheritanceAnalysesIn(StepRuns(steps)) == 0
  {
    if steps != [] {
      var init, last := steps[..|steps| - 1], steps[|steps| - 1];
      StepRunsRunEachStep(init);
      ExtractAppend(StepRuns(init), [StepRun(RunnerFor(last), last)]);
      assert steps == init + [last];
    }
  }

  /** Running a group hands every step of it to its runner once, in order, opens no
      variant stream, and analyses inheritance modes once exactly when some step of the
      group depends on them. */
  lemma RunStepsTraceRunsEachStepOnce(steps: seq<AnalysisStep>)
    ensures StepsRunIn(RunStepsTrace(steps)) == steps
    ensures StreamsOpenedIn(RunStepsTrace(steps)) == []
    ensures InheritanceAnalysesIn(RunStepsTrace(steps)) == 1 <==> exists j :: 0 <= j < |steps| && IsInheritanceModeDependent(steps[j])
    ensures InheritanceAnalysesIn(RunStepsTrace(steps)) <= 1
  {
    match FirstDependent(steps)
    case None =>
      StepRunsRunEachStep(steps);
    case Some(k) =>
      StepRunsRunEachStep(steps[..k]);
      StepRunsRunEachStep(steps[k..]);
      ExtractAppend(StepRuns(steps[..k]), [InheritanceModesAnalysed]);
      ExtractAppend(StepRuns(steps[..k]) + [InheritanceModesAnalysed], StepRuns(steps[k..]));
      assert steps == steps[..k] + steps[k..];
  }

  /** The steps part of `RunStepsTraceRunsEachStepOnce` alone. */
  lemma RunStepsTraceRunsItsSteps(steps: seq<AnalysisStep>)
    ensures StepsRunIn(RunStepsTrace(steps)) == steps
  {
    RunStepsTraceRunsEachStepOnce(steps);
  }

  /** After the variants are loaded, going through the groups runs every step of every
      group and opens no stream. */
  lemma {:induction false} GroupsAfterLoadRunAsGenePasses(groups: seq<seq<AnalysisStep>>, input: seq<Variant>, keys: set<string>)
    requires NonEmptyGroups(groups)
    ensures StreamsOpenedIn(GroupsTrace(groups, true, input, keys)) == []
    ensures StepsRunIn(GroupsTrace(groups, true, input, keys)) == Flatten(groups)
  {
    if groups != [] {
      GroupsAfterLoadRunAsGenePasses(groups[1..], input, keys);
      RunStepsTraceRunsEachStepOnce(groups[0]);
      ExtractAppend(RunStepsTrace(groups[0]), GroupsTrace(groups[1..], true, input, keys));
    }
  }

  /** A run streams the variants exactly once: with the variant filters of the first
      group that starts with a variant filter, or unfiltered when there is no such group. */
  lemma {:induction false} VariantsStreamedOnce(groups: seq<seq<AnalysisStep>>, input: seq<Variant>, keys: set<string>)
    requires NonEmptyGroups(groups)
    ensures StreamsOpenedIn(GroupsTrace(groups, false, input, keys)) == [LoadPolicyFor(groups)]
  {
    if groups == [] {
      LoadTraceOpensOnce(AcceptAll, input, keys);
    } else if IsVariantFilter(groups[0][0]) {
      var policy := KnownGenesWithFilters(GetVariantFilterSteps(groups[0]));
      LoadTraceOpensOnce(policy, input, keys);
      GroupsAfterLoadRunAsGenePasses(groups[1..], input, keys);
      ExtractAppend(LoadTrace(policy, input, keys), GroupsTrace(groups[1..], true, input, keys));
    } else {
      VariantsStreamedOnce(groups[1..], input, keys);
      RunStepsTraceRunsEachStepOnce(groups[0]);
      ExtractAppend(RunStepsTrace(groups[0]), GroupsTrace(groups[1..], false, input, keys));
    }
  }

  /** Every step is handed to a runner once, in order, except those of the group that
      loaded the variants (their variant filters ran while streaming). A variant-filter
      group after it runs as an ordinary group over the genes' variants. */
  lemma {:induction false} StepsRunOutsideTheLoadingGroup(groups: seq<seq<AnalysisStep>>, input: seq<Variant>, keys: set<string>)
    requires NonEmptyGroups(groups)
    ensures FirstVariantFilterGroup(groups).None? ==>
      StepsRunIn(GroupsTrace(groups, false, input, keys)) == Flatten(groups)
    ensures FirstVariantFilterGroup(groups).Some? ==>
      var k := FirstVariantFilterGroup(groups).value;
      StepsRunIn(GroupsTrace(groups, false, input, keys)) == Flatten(groups[..k]) + Flatten(groups[k + 1..])
  {
    if groups == [] {
      LoadTraceOpensOnce(AcceptAll, input, keys);
    } else if IsVariantFilter(groups[0][0]) {
      var policy := KnownGenesWithFilters(GetVariantFilterSteps(groups[0]));
      LoadTraceOpensOnce(policy, input, keys);
      GroupsAfterLoadRunAsGenePasses(groups[1..], input, keys);
      ExtractAppend(LoadTrace(policy, input, keys), GroupsTrace(groups[1..], true, input, keys));
      assert groups[..0] == [];
    } else {
      StepsRunOutsideTheLoadingGroup(groups[1..], input, keys);
      StepsRunBeforeTheLoadingGroup(groups, input, keys);
    }
  }

  /** The step of `StepsRunOutsideTheLoadingGroup` for a first group that does not load
      the variants: its steps run first, then those of the groups after it. */
  lemma StepsRunBeforeTheLoadingGroup(groups: seq<seq<AnalysisStep>>, input: seq<Variant>, keys: set<string>)
    requires NonEmptyGroups(groups) && groups != [] && !IsVariantFilter(groups[0][0])
    requires var rest := groups[1..];
      && (FirstVariantFilterGroup(rest).None? ==>
        StepsRunIn(GroupsTrace(rest, false, input, keys)) == Flatten(rest))
      && (FirstVariantFilterGroup(rest).Some? ==>
        var k := FirstVariantFilterGroup(rest).value;
        StepsRunIn(GroupsTrace(rest, false, input, keys)) == Flatten(rest[..k]) + Flatten(rest[k + 1..]))
    ensures FirstVariantFilterGroup(groups).None? ==>
      StepsRunIn(GroupsTrace(groups, false, input, keys)) == Flatten(groups)
    ensures FirstVariantFilterGroup(groups).Some? ==>
      var k := FirstVariantFilterGroup(groups).value;
      StepsRunIn(GroupsTrace(groups, false, input, keys)) == Flatten(groups[..k]) + Flatten(groups[k + 1..])
  {
    var rest := groups[1..];
    FirstGroupRunsFirst(groups, input, keys);
    if FirstVariantFilterGroup(rest).Some? {
      var k := FirstVariantFilterGroup(rest).value;
      assert FirstVariantFilterGroup(groups) == Some(k + 1);
      FlattenAroundGroup(groups, k, StepsRunIn(GroupsTrace(groups, false, input, keys)), StepsRunIn(GroupsTrace(rest, false, input, keys)));
    } else {
      assert Flatten(groups) == groups[0] + Flatten(rest);
    }
  }

  /** A first group that does not load the variants has its steps run before those of
      the groups after it. */
  lemma FirstGroupRunsFirst(groups: seq<seq<AnalysisStep>>, input: seq<Variant>, keys: set<string>)
    requires NonEmptyGroups(groups) && groups != [] && !IsVariantFilter(groups[0][0])
    ensures StepsRunIn(GroupsTrace(groups, false, input, keys)) == groups[0] + StepsRunIn(GroupsTrace(groups[1..], false, input, keys))
  {
    RunStepsTraceRunsItsSteps(groups[0]);
    StepsRunInAppend(RunStepsTrace(groups[0]), GroupsTrace(groups[1..], false, input, keys));
  }

  /** Putting the first group in front of the steps run around group `k` of the rest
      gives the steps run around group `k + 1`. */
  lemma FlattenAroundGroup(groups: seq<seq<AnalysisStep>>, k: nat, run: seq<AnalysisStep>, runRest: seq<AnalysisStep>)
    requires k + 1 < |groups|
    requires run == groups[0] + runRest
    requires runRest == Flatten(groups[1..][..k]) + Flatten(groups[1..][k + 1..])
    ensures run == Flatten(groups[..k + 1]) + Flatten(groups[k + 2..])
  {
    FlattenAfterFirst(groups, k);
    StepsAssociate(groups[0], Flatten(groups[1..][..k]), Flatten(groups[1..][k + 1..]));
  }

  lemma StepsAssociate(a: seq<AnalysisStep>, b: seq<AnalysisStep>, c: seq<AnalysisStep>)
    ensures a + (b + c) == a + b + c
  {
  }

  lemma FlattenAfterFirst(groups: seq<seq<AnalysisStep>>, k: nat)
    requires k + 1 < |groups|
    ensures Flatten(groups[..k + 1]) == groups[0] + Flatten(groups[1..][..k])
    ensures groups[k + 2..] == groups[1..][k + 1..]
  {
    assert groups[..k + 1][1..] == groups[1..][..k];
  }

  /** With the steps [filter, prioritiser, filter], the first filter is applied while
      streaming and only the prioritiser and the second filter are handed to runners. */
  lemma SecondVariantFilterRunsOverGenes(f1: AnalysisStep, p: AnalysisStep, f2: AnalysisStep, input: seq<Variant>, keys: set<string>)
    requires f1.stepType == VariantFilter && f2.stepType == VariantFilter && p.stepType == GeneOnlyDependent
    requires IsVariantFilter(f1) && IsVariantFilter(f2) && !IsVariantFilter(p)
    ensures StreamsOpenedIn(GroupsTrace(MaximalRuns([f1, p, f2]), false, input, keys)) == [KnownGenesWithFilters([f1])]
    ensures StepsRunIn(GroupsTrace(MaximalRuns([f1, p, f2]), false, input, keys)) == [p, f2]
  {
    InterleavedFiltersStayApart(f1, p, f2);
    var groups := [[f1], [p], [f2]];
    VariantsStreamedOnce(groups, input, keys);
    StepsRunOutsideTheLoadingGroup(groups, input, keys);
    assert FirstVariantFilterGroup(groups) == Some(0);
    assert [f1][1..] == [];
    assert GetVariantFilterSteps([f1]) == [f1];
    assert groups[1..] == [[p], [f2]];
    assert Flatten([[f2]]) == [f2] + Flatten([]);
    assert Flatten(groups[1..]) == [p] + Flatten([[f2]]);
  }

  // ---------------------------------------------------------------- genes and variants

  /** Adding the variants to fresh genes puts every variant into the gene named by its
      symbol, and into no other gene. */
  lemma LoadedVariantsLandInTheirGene(symbols: seq<string>, vs: seq<Variant>)
    requires AllInKnownGenes(vs, NewGenes(symbols).Keys)
    ensures AttachVariants(NewGenes(symbols), vs).Keys == NewGenes(symbols).Keys
    ensures forall v :: v in vs ==> v in AttachVariants(NewGenes(symbols), vs)[v.geneSymbol]
    ensures forall g, v :: g in AttachVariants(NewGenes(symbols), vs) && v in AttachVariants(NewGenes(symbols), vs)[g] ==>
      v in vs && v.geneSymbol == g
  {
    var genes := AttachVariants(NewGenes(symbols), vs);
    forall g ensures forall v :: v in OfGene(vs, g) <==> v in vs && v.geneSymbol == g {
      OfGeneMembers(vs, g);
    }
    forall v | v in vs ensures v in genes[v.geneSymbol] {
      var i :| 0 <= i < |vs| && vs[i] == v;
      assert IsInKnownGene(NewGenes(symbols).Keys, vs[i]);
    }
  }

  /** The genes reported are exactly the known genes some loaded variant lies in. */
  lemma FinalGenesAreTheGenesWithVariants(symbols: seq<string>, vs: seq<Variant>)
    requires AllInKnownGenes(vs, NewGenes(symbols).Keys)
    ensures forall g :: g in GetFinalGeneList(AttachVariants(NewGenes(symbols), vs)) <==>
      exists i :: 0 <= i < |vs| && vs[i].geneSymbol == g
  {
    var genes := AttachVariants(NewGenes(symbols), vs);
    LoadedVariantsLandInTheirGene(symbols, vs);
    forall g ensures g in GetFinalGeneList(genes) <==> exists i :: 0 <= i < |vs| && vs[i].geneSymbol == g {
      if exists i :: 0 <= i < |vs| && vs[i].geneSymbol == g {
        var i :| 0 <= i < |vs| && vs[i].geneSymbol == g;
        assert vs[i] in vs;
      }
      if g in GetFinalGeneList(genes) {
        var v := genes[g][0];
        assert v in genes[g];
        var i :| 0 <= i < |vs| && vs[i] == v;
      }
    }
  }

  /** The final variant list is every loaded variant, in load order, and each of them
      lies in one of the reported genes: the two final lists agree. */
  lemma FinalVariantsLieInFinalGenes(symbols: seq<string>, vs: seq<Variant>)
    requires AllInKnownGenes(vs, NewGenes(symbols).Keys)
    ensures GetFinalVariantList(vs) == vs
    ensures forall v :: v in GetFinalVariantList(vs) ==>
      v.geneSymbol in GetFinalGeneList(AttachVariants(NewGenes(symbols), vs))
      && v in GetFinalGeneList(AttachVariants(NewGenes(symbols), vs))[v.geneSymbol]
  {
    LoadedVariantsLandInTheirGene(symbols, vs);
  }

  /** A filtered load keeps no variant outside the known genes. */
  lemma FilteredLoadKeepsOnlyKnownGenes(input: seq<Variant>, keys: set<string>, filters: seq<AnalysisStep>)
    ensures AllInKnownGenes(LoadedVariants(input, keys, KnownGenesWithFilters(filters)), keys)
  {
    var loaded := LoadedVariants(input, keys, KnownGenesWithFilters(filters));
    InKnownGenesMembers(input, keys);
    forall i | 0 <= i < |loaded| ensures IsInKnownGene(keys, loaded[i]) {
      assert loaded[i] in loaded;
    }
  }
}
