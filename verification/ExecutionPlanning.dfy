/** The fixed command plan of a repository attempt and the cross-field rules its schema imposes. */
module ExecutionPlanning {

  datatype Phase =
    | SourceAcquisition
    | DependencyAcquisition
    | OfflineInstall
    | Control
    | Candidate
    | ArtifactExport
    | Cleanup

  const MIN_REQUIRED_RUNS := 3
  const MAX_RUNS := 5
  const MAX_PLAN_COMMANDS := 12

  function Repeat(phase: Phase, n: nat): (phases: seq<Phase>)
    ensures |phases| == n
    ensures forall i :: 0 <= i < n ==> phases[i] == phase
  {
    if n == 0 then [] else [phase] + Repeat(phase, n - 1)
  }

  /** The phases of `buildNodeExecutionPlan`'s commands. */
  function NodePlan(requiredRuns: nat): seq<Phase> {
    [DependencyAcquisition, OfflineInstall, Control] + Repeat(Candidate, requiredRuns)
  }

  function CountOf(phases: seq<Phase>, phase: Phase): nat {
    if phases == [] then 0 else (if phases[0] == phase then 1 else 0) + CountOf(phases[1..], phase)
  }

  /** The index of the first command of a phase, or the number of commands. */
  function FirstOf(phases: seq<Phase>, phase: Phase): (i: nat)
    ensures i <= |phases|
    ensures forall j :: 0 <= j < i ==> phases[j] != phase
    ensures i < |phases| ==> phases[i] == phase
  {
    if phases == [] || phases[0] == phase then 0 else 1 + FirstOf(phases[1..], phase)
  }

  /** The refinement of `repositoryExecutionPlanSchema`. */
  predicate PlanAccepted(phases: seq<Phase>, requiredRuns: int) {
    && 4 <= |phases| <= MAX_PLAN_COMMANDS
    && MIN_REQUIRED_RUNS <= requiredRuns <= MAX_RUNS
    && CountOf(phases, DependencyAcquisition) > 0
    && CountOf(phases, OfflineInstall) == 1
    && CountOf(phases, Control) == 1
    && CountOf(phases, Candidate) == requiredRuns
    && FirstOf(phases, DependencyAcquisition) < FirstOf(phases, OfflineInstall)
    && FirstOf(phases, OfflineInstall) < FirstOf(phases, Control)
    && FirstOf(phases, Control) < FirstOf(phases, Candidate)
  }

  /** The commands the attempt runs, one sandbox each. */
  function Experiments(phases: seq<Phase>): seq<Phase> {
    if phases == [] then []
    else (if phases[0] == Control || phases[0] == Candidate then [phases[0]] else []) + Experiments(phases[1..])
  }

  lemma {:induction false} CountRepeat(n: nat, phase: Phase)
    ensures CountOf(Repeat(Candidate, n), phase) == if phase == Candidate then n else 0
    ensures Experiments(Repeat(Candidate, n)) == Repeat(Candidate, n)
  {
    if n > 0 {
      assert Repeat(Candidate, n)[1..] == Repeat(Candidate, n - 1);
      CountRepeat(n - 1, phase);
    }
  }

  /** The built plan always passes its own schema, and its experiments are one control followed by the candidates. */
  lemma NodePlanIsAccepted(requiredRuns: nat)
    requires MIN_REQUIRED_RUNS <= requiredRuns <= MAX_RUNS
    ensures PlanAccepted(NodePlan(requiredRuns), requiredRuns)
    ensures Experiments(NodePlan(requiredRuns)) == [Control] + Repeat(Candidate, requiredRuns)
  {
    var candidates := Repeat(Candidate, requiredRuns);
    var plan := NodePlan(requiredRuns);
    var tail1, tail2 := [OfflineInstall, Control] + candidates, [Control] + candidates;
    assert plan[1..] == tail1 && tail1[1..] == tail2 && tail2[1..] == candidates;
    forall phase: Phase
      ensures CountOf(candidates, phase) == if phase == Candidate then requiredRuns else 0
    {
      CountRepeat(requiredRuns, phase);
    }
    CountRepeat(requiredRuns, Candidate);
    assert plan[0] == DependencyAcquisition && plan[1] == OfflineInstall && plan[2] == Control;
    assert FirstOf(plan, DependencyAcquisition) == 0;
    assert FirstOf(plan, OfflineInstall) == 1;
    assert FirstOf(plan, Control) == 2;
    assert FirstOf(plan, Candidate) >= 3;
    forall phase: Phase
      ensures CountOf(plan, phase) == (if plan[0] == phase then 1 else 0) + (if plan[1] == phase then 1 else 0)
                                    + (if plan[2] == phase then 1 else 0) + CountOf(candidates, phase)
    {
      assert CountOf(plan, phase) == (if plan[0] == phase then 1 else 0) + CountOf(tail1, phase);
      assert CountOf(tail1, phase) == (if tail1[0] == phase then 1 else 0) + CountOf(tail2, phase);
      assert CountOf(tail2, phase) == (if tail2[0] == phase then 1 else 0) + CountOf(candidates, phase);
    }
    assert Experiments(tail2) == [Control] + candidates;
    assert Experiments(tail1) == [] + Experiments(tail2);
  }

  // ---------------------------------------------------------------------------------------------
  // What the rules mean
  // ---------------------------------------------------------------------------------------------

  predicate IsExperiment(phase: Phase) { phase == Control || phase == Candidate }

  /** The one offline installation, after a dependency was acquired and before every experiment. */
  ghost predicate InstallsAt(phases: seq<Phase>, i: nat) {
    && i < |phases| && phases[i] == OfflineInstall
    && (forall j :: 0 <= j < |phases| && phases[j] == OfflineInstall ==> j == i)
    && (exists j :: 0 <= j < i && phases[j] == DependencyAcquisition)
    && forall j :: 0 <= j < i ==> !IsExperiment(phases[j])
  }

  lemma {:induction false} CountIsZero(phases: seq<Phase>, phase: Phase)
    ensures CountOf(phases, phase) == 0 <==> forall j :: 0 <= j < |phases| ==> phases[j] != phase
  {
    if phases != [] {
      CountIsZero(phases[1..], phase);
      assert phases == [phases[0]] + phases[1..];
    }
  }

  lemma {:induction false} CountIsOne(phases: seq<Phase>, phase: Phase)
    ensures CountOf(phases, phase) == 1
       <==> var i := FirstOf(phases, phase); i < |phases| && forall j :: i < j < |phases| ==> phases[j] != phase
  {
    if phases != [] {
      CountIsOne(phases[1..], phase);
      CountIsZero(phases[1..], phase);
      assert phases == [phases[0]] + phases[1..];
      assert forall j :: 0 < j < |phases| ==> phases[j] == phases[1..][j - 1];
    }
  }

  lemma {:induction false} ExperimentsMean(phases: seq<Phase>)
    ensures forall i :: 0 <= i < |Experiments(phases)| ==> IsExperiment(Experiments(phases)[i])
    ensures CountOf(Experiments(phases), Control) == CountOf(phases, Control)
    ensures CountOf(Experiments(phases), Candidate) == CountOf(phases, Candidate)
    ensures |Experiments(phases)| == CountOf(phases, Control) + CountOf(phases, Candidate)
    ensures FirstOf(phases, Control) < FirstOf(phases, Candidate) <==> Experiments(phases) != [] && Experiments(phases)[0] == Control
  {
    if phases != [] {
      var rest := Experiments(phases[1..]);
      ExperimentsMean(phases[1..]);
      if IsExperiment(phases[0]) {
        assert Experiments(phases)[1..] == rest;
      } else {
        assert Experiments(phases) == rest;
      }
    }
  }

  /** One control in front is one control and then candidates. */
  lemma ControlFirst(experiments: seq<Phase>, n: nat)
    requires forall i :: 0 <= i < |experiments| ==> IsExperiment(experiments[i])
    ensures && experiments != [] && experiments[0] == Control && CountOf(experiments, Control) == 1 && |experiments| == 1 + n
       <==> experiments == [Control] + Repeat(Candidate, n)
  {
    CountIsOne(experiments, Control);
    if experiments == [Control] + Repeat(Candidate, n) {
      assert forall j :: 0 < j < |experiments| ==> experiments[j] == Candidate;
    }
  }

  /** A dependency, then the one installation, then the experiments. */
  lemma InstallsExactly(phases: seq<Phase>)
    ensures (exists i: nat :: InstallsAt(phases, i))
       <==> && CountOf(phases, DependencyAcquisition) > 0 && CountOf(phases, OfflineInstall) == 1
            && FirstOf(phases, DependencyAcquisition) < FirstOf(phases, OfflineInstall)
            && FirstOf(phases, OfflineInstall) <= FirstOf(phases, Control)
            && FirstOf(phases, OfflineInstall) <= FirstOf(phases, Candidate)
  {
    var at := FirstOf(phases, OfflineInstall);
    CountIsZero(phases, DependencyAcquisition);
    CountIsOne(phases, OfflineInstall);
    if i: nat :| InstallsAt(phases, i) {
      assert at == i;
      assert FirstOf(phases, DependencyAcquisition) < at;
    }
    if CountOf(phases, OfflineInstall) == 1 && FirstOf(phases, DependencyAcquisition) < at
       && at <= FirstOf(phases, Control) && at <= FirstOf(phases, Candidate)
    {
      assert InstallsAt(phases, at);
    }
  }

  /**
   The schema accepts exactly the plans of a bounded length whose experiments are one control and then the required
   number of candidates, all of them after the one offline installation, and that after an acquisition.
   */
  lemma AcceptedExactly(phases: seq<Phase>, requiredRuns: nat)
    ensures PlanAccepted(phases, requiredRuns)
       <==> && 4 <= |phases| <= MAX_PLAN_COMMANDS && MIN_REQUIRED_RUNS <= requiredRuns <= MAX_RUNS
            && Experiments(phases) == [Control] + Repeat(Candidate, requiredRuns)
            && exists i: nat :: InstallsAt(phases, i)
  {
    ExperimentsMean(phases);
    ControlFirst(Experiments(phases), requiredRuns);
    InstallsExactly(phases);
  }
}
