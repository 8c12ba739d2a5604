/** Analysis steps and their grouping into runs. A step reports its type (one of the three
    categories the runner groups by), whether it is a variant filter, and whether it
    needs inheritance-mode compatibility computed first. The runner splits the ordered
    steps into maximal runs of adjacent steps of one type. */
module AnalysisSteps {

  /** The three categories steps are grouped by. */
  datatype AnalysisStepType = VariantFilter | GeneOnlyDependent | InheritanceModeDependent

  /** What kind of object a step is, which decides the runner that executes it. */
  datatype StepKind = VariantFilterStep | GeneFilterStep | PrioritiserStep

  /** A configured analysis step; `id` tells apart steps of the same kind. */
  datatype AnalysisStep = AnalysisStep(
    id: nat,
    kind: StepKind,
    stepType: AnalysisStepType,
    inheritanceModeDependent: bool)

  predicate IsVariantFilter(step: AnalysisStep) {
    step.kind == VariantFilterStep
  }

  predicate IsInheritanceModeDependent(step: AnalysisStep) {
    step.inheritanceModeDependent
  }

  /** The groups put back together in order. */
  function Flatten(groups: seq<seq<AnalysisStep>>): seq<AnalysisStep> {
    if groups == [] then [] else groups[0] + Flatten(groups[1..])
  }

  lemma {:induction false} FlattenAppend(groups: seq<seq<AnalysisStep>>, group: seq<AnalysisStep>)
    ensures Flatten(groups + [group]) == Flatten(groups) + group
  {
    if groups == [] {
      assert Flatten([group]) == group + Flatten([]);
    } else {
      assert (groups + [group])[1..] == groups[1..] + [group];
      FlattenAppend(groups[1..], group);
    }
  }

  /** A non-empty run of steps that all have the type of its first step. */
  predicate IsRun(group: seq<AnalysisStep>) {
    group != [] && forall j :: 0 <= j < |group| ==> group[j].stepType == group[0].stepType
  }

  /** `groups` splits `steps` into maximal runs: every group is a run, the groups put
      together give back the steps in order, and adjacent groups differ in type (so no
      two groups could be merged, and steps of one type that are not adjacent stay
      apart). */
  predicate IsMaximalRunPartition(groups: seq<seq<AnalysisStep>>, steps: seq<AnalysisStep>) {
    && Flatten(groups) == steps
    && (forall i :: 0 <= i < |groups| ==> IsRun(groups[i]))
    && (forall i :: 0 < i < |groups| ==> groups[i][0].stepType != groups[i - 1][0].stepType)
  }

  /** A reference definition of the grouping, working from the back: a step joins the
      first run of the rest when it has that run's type. */
  function MaximalRuns(steps: seq<AnalysisStep>): (groups: seq<seq<AnalysisStep>>)
    ensures steps == [] <==> groups == []
    ensures groups != [] ==> groups[0] != [] && groups[0][0] == steps[0]
    ensures forall i :: 0 <= i < |groups| ==> groups[i] != []
  {
    if steps == [] then []
    else
      var rest: seq<seq<AnalysisStep>> := MaximalRuns(steps[1..]);
      if rest != [] && rest[0][0].stepType == steps[0].stepType then [[steps[0]] + rest[0]] + rest[1..]
      else [[steps[0]]] + rest
  }

  lemma {:induction false} MaximalRunsIsPartition(steps: seq<AnalysisStep>)
    ensures IsMaximalRunPartition(MaximalRuns(steps), steps)
  {
    if steps != [] {
      var rest: seq<seq<AnalysisStep>> := MaximalRuns(steps[1..]);
      MaximalRunsIsPartition(steps[1..]);
      var groups: seq<seq<AnalysisStep>> := MaximalRuns(steps);
      if rest != [] && rest[0][0].stepType == steps[0].stepType {
        assert groups[1..] == rest[1..];
        assert Flatten(rest) == rest[0] + Flatten(rest[1..]);
        assert Flatten(groups) == ([steps[0]] + rest[0]) + Flatten(rest[1..]);
        assert steps == [steps[0]] + steps[1..];
        forall i | 0 < i < |groups| ensures groups[i][0].stepType != groups[i - 1][0].stepType {
          if i > 1 {
            assert groups[i] == rest[i] && groups[i - 1] == rest[i - 1];
          } else {
            assert groups[1] == rest[1] && groups[0][0] == steps[0];
          }
        }
        assert IsRun(groups[0]);
      } else {
        assert groups[1..] == rest;
        assert steps == [steps[0]] + steps[1..];
        forall i | 0 < i < |groups| ensures groups[i][0].stepType != groups[i - 1][0].stepType {
          assert groups[i] == rest[i - 1];
        }
      }
    }
  }

  /** The tail of a maximal run partition is a maximal run partition of what its first
      group leaves. */
  lemma PartitionTail(groups: seq<seq<AnalysisStep>>, steps: seq<AnalysisStep>)
    requires IsMaximalRunPartition(groups, steps) && groups != []
    ensures steps == groups[0] + steps[|groups[0]|..]
    ensures IsMaximalRunPartition(groups[1..], steps[|groups[0]|..])
  {
    assert Flatten(groups) == groups[0] + Flatten(groups[1..]);
    var tail: seq<seq<AnalysisStep>> := groups[1..];
    forall i | 0 < i < |tail| ensures tail[i][0].stepType != tail[i - 1][0].stepType {
      assert tail[i] == groups[i + 1] && tail[i - 1] == groups[i];
    }
  }

  /** There is only one way to split a step list into maximal runs. */
  lemma {:induction false} PartitionIsUnique(g1: seq<seq<AnalysisStep>>, g2: seq<seq<AnalysisStep>>, steps: seq<AnalysisStep>)
    requires IsMaximalRunPartition(g1, steps) && IsMaximalRunPartition(g2, steps)
    ensures g1 == g2
    decreases |steps|
  {
    if g1 == [] || g2 == [] {
      // the other one flattens to the empty step list too, so it has no group either
    } else {
      PartitionTail(g1, steps);
      PartitionTail(g2, steps);
      var a, b := g1[0], g2[0];
      assert IsRun(a) && IsRun(b);
      if |a| < |b| {
        FirstOfRestDiffers(g1, steps);
      } else if |b| < |a| {
        FirstOfRestDiffers(g2, steps);
      }
      assert a == steps[..|a|] == b;
      PartitionIsUnique(g1[1..], g2[1..], steps[|a|..]);
      assert g1 == [a] + g1[1..] && g2 == [b] + g2[1..];
    }
  }

  /** The step right after the first group, if any, has a different type from it. */
  lemma FirstOfRestDiffers(groups: seq<seq<AnalysisStep>>, steps: seq<AnalysisStep>)
    requires IsMaximalRunPartition(groups, steps) && groups != []
    ensures |groups[0]| < |steps| ==> steps[|groups[0]|].stepType != groups[0][0].stepType
  {
    PartitionTail(groups, steps);
    if |groups[0]| < |steps| {
      var rest: seq<seq<AnalysisStep>> := groups[1..];
      var tailSteps := steps[|groups[0]|..];
      assert Flatten(rest) == tailSteps;
      assert rest != [];
      assert Flatten(rest) == rest[0] + Flatten(rest[1..]);
      assert IsRun(rest[0]);
      assert steps[|groups[0]|] == tailSteps[0] == rest[0][0] == groups[1][0];
    }
  }

  /** The state of the left-to-right scan after `prefix`: the closed groups followed by
      the open group `current`, opened by `opener`, give back the prefix; the closed
      groups are runs of alternating type, and the last of them differs in type from
      the open one. */
  predicate ScanState(groups: seq<seq<AnalysisStep>>, current: seq<AnalysisStep>, opener: AnalysisStep, prefix: seq<AnalysisStep>) {
    && IsRun(current) && current[0] == opener
    && Flatten(groups) + current == prefix
    && (forall k :: 0 <= k < |groups| ==> IsRun(groups[k]))
    && (forall k :: 0 < k < |groups| ==> groups[k][0].stepType != groups[k - 1][0].stepType)
    && (groups != [] ==> groups[|groups| - 1][0].stepType != opener.stepType)
  }

  /** Closing the open group of a scan state gives a maximal run partition. */
  lemma ScanStateCloses(groups: seq<seq<AnalysisStep>>, current: seq<AnalysisStep>, opener: AnalysisStep, prefix: seq<AnalysisStep>)
    requires ScanState(groups, current, opener, prefix)
    ensures IsMaximalRunPartition(groups + [current], prefix)
  {
    FlattenAppend(groups, current);
  }

  /** One step of the scan: the step at `i` joins the open group when it has the type of
      the step that opened it, and otherwise closes that group and opens a new one. */
  method ScanStep(steps: seq<AnalysisStep>, i: nat, groups: seq<seq<AnalysisStep>>, current: seq<AnalysisStep>, opener: AnalysisStep)
    returns (groupsNow: seq<seq<AnalysisStep>>, currentNow: seq<AnalysisStep>, openerNow: AnalysisStep)
    requires i < |steps| && ScanState(groups, current, opener, steps[..i])
    ensures ScanState(groupsNow, currentNow, openerNow, steps[..i + 1])
  {
    groupsNow, currentNow, openerNow := groups, current, opener;
    var step := steps[i];
    if opener.stepType != step.stepType {
      ScanStateCloses(groups, current, opener, steps[..i]);
      groupsNow := groups + [current];
      currentNow := [];
      openerNow := step;
    }
    currentNow := currentNow + [step];
    assert steps[..i + 1] == steps[..i] + [step];
  }

  /** Splits the steps into maximal runs of adjacent steps of one type, scanning left to
      right and opening a new group whenever a step's type differs from the type of the
      step that opened the current group. */
  method GroupAnalysisStepsByFunction(steps: seq<AnalysisStep>) returns (groups: seq<seq<AnalysisStep>>)
    ensures steps == [] ==> groups == []
    ensures IsMaximalRunPartition(groups, steps)
    ensures groups == MaximalRuns(steps)
  {
    groups := [];
    if steps == [] {
      return;
    }
    var currentGroupStep := steps[0];
    var currentGroup := [currentGroupStep];
    var i := 1;
    while i < |steps|
      invariant 1 <= i <= |steps|
      invariant ScanState(groups, currentGroup, currentGroupStep, steps[..i])
    {
      groups, currentGroup, currentGroupStep := ScanStep(steps, i, groups, currentGroup, currentGroupStep);
      i := i + 1;
    }
    assert steps[..i] == steps;
    ScanStateCloses(groups, currentGroup, currentGroupStep, steps);
    groups := groups + [currentGroup];
    MaximalRunsIsPartition(steps);
    PartitionIsUnique(groups, MaximalRuns(steps), steps);
  }

  /** The interleaving [filter, prioritiser, filter] gives three groups: the two
      variant filters are not merged. */
  lemma InterleavedFiltersStayApart(f1: AnalysisStep, p: AnalysisStep, f2: AnalysisStep)
    requires f1.stepType == VariantFilter && f2.stepType == VariantFilter
    requires p.stepType == GeneOnlyDependent
    ensures MaximalRuns([f1, p, f2]) == [[f1], [p], [f2]]
  {
    assert [f2][1..] == [];
    assert MaximalRuns([f2]) == [[f2]];
    assert [p, f2][1..] == [f2];
    assert MaximalRuns([p, f2]) == [[p], [f2]];
    assert [f1, p, f2][1..] == [p, f2];
  }
}
