/**
 The failure oracle, the verdict over a control and candidate runs, and the choice of a reduction.
 */
module Verification {
  import opened Wrappers
  import opened Json
  import opened Lists

  // ---------------------------------------------------------------------------------------------
  // The oracle
  // ---------------------------------------------------------------------------------------------

  datatype Stream = Stdout | Stderr

  datatype RunResult = RunResult(
    id: Text,
    command: Text,
    environmentHash: Text,
    exitCode: int,
    stdout: Text,
    stderr: Text)

  datatype Expression =
    | ExitCode(expected: int)
    | OutputContains(stream: Stream, value: Text)
    | OutputRegex(stream: Stream, pattern: Text)
    | JsonField(stream: Stream, path: seq<Text>, equals: Value)
    | All(children: seq<Expression>)
    | Any(children: seq<Expression>)
    | Not(child: Expression)

  datatype Oracle = Oracle(id: Text, version: nat, root: Expression)

  /** Whether a regular expression, or a field of the output as JSON, matches. */
  type Leaf = (Expression, RunResult) -> bool

  /** One observation, and how often it was negated on the way up. */
  datatype Note = Observed(expression: Expression, matched: bool) | Negated(note: Note)

  datatype Evaluation = Evaluation(matched: bool, evidence: seq<Note>)

  function Negate(note: Note): Note { Negated(note) }

  function Output(run: RunResult, stream: Stream): Text { if stream == Stdout then run.stdout else run.stderr }

  predicate Includes(text: Text, value: Text) { exists i :: 0 <= i <= |text| && value <= text[i..] }

  predicate Observe(leaf: Leaf, e: Expression, run: RunResult) {
    match e
    case ExitCode(expected) => run.exitCode == expected
    case OutputContains(stream, value) => Includes(Output(run, stream), value)
    case _ => leaf(e, run)
  }

  /** evaluateExpression. */
  function Evaluate(leaf: Leaf, e: Expression, run: RunResult): Evaluation {
    match e
    case All(children) =>
      var rs := EvaluateEach(leaf, children, run);
      Evaluation(forall i :: 0 <= i < |rs| ==> rs[i].matched, Flatten(rs))
    case Any(children) =>
      var rs := EvaluateEach(leaf, children, run);
      Evaluation(exists i :: 0 <= i < |rs| && rs[i].matched, Flatten(rs))
    case Not(child) =>
      var r := Evaluate(leaf, child, run);
      Evaluation(!r.matched, Apply(Negate, r.evidence))
    case _ =>
      var matched := Observe(leaf, e, run);
      Evaluation(matched, [Observed(e, matched)])
  }

  function EvaluateEach(leaf: Leaf, es: seq<Expression>, run: RunResult): (r: seq<Evaluation>)
    ensures |r| == |es|
    ensures forall i :: 0 <= i < |es| ==> r[i] == Evaluate(leaf, es[i], run)
  {
    if es == [] then [] else [Evaluate(leaf, es[0], run)] + EvaluateEach(leaf, es[1..], run)
  }

  function Flatten(rs: seq<Evaluation>): seq<Note> {
    if rs == [] then [] else rs[0].evidence + Flatten(rs[1..])
  }

  predicate Matched(leaf: Leaf, e: Expression, run: RunResult) { Evaluate(leaf, e, run).matched }

  /** The value occurs in the text. */
  ghost predicate Occurs(value: Text, text: Text) { exists before: Text, after: Text :: text == before + value + after }

  lemma IncludesMeans(text: Text, value: Text)
    ensures Includes(text, value) <==> Occurs(value, text)
  {
    if Includes(text, value) {
      var i :| 0 <= i <= |text| && value <= text[i..];
      assert text == text[..i] + value + text[i + |value|..];
    }
    if Occurs(value, text) {
      var before: Text, after: Text :| text == before + value + after;
      assert text[|before|..] == value + after;
    }
  }

  /**
   When each expression matches: a list of `all` exactly when every child does, a list of `any` exactly when some child
   does, a negation exactly when its child does not, an exit code exactly when the run ended with it, and a piece of
   output exactly when it occurs in the stream named. The parameter decides the remaining two.
   */
  lemma ExpressionMeans(leaf: Leaf, e: Expression, run: RunResult)
    ensures e.All? ==> (Matched(leaf, e, run) <==> forall i :: 0 <= i < |e.children| ==> Matched(leaf, e.children[i], run))
    ensures e.Any? ==> (Matched(leaf, e, run) <==> exists i :: 0 <= i < |e.children| && Matched(leaf, e.children[i], run))
    ensures e.Not? ==> (Matched(leaf, e, run) <==> !Matched(leaf, e.child, run))
    ensures e.ExitCode? ==> (Matched(leaf, e, run) <==> run.exitCode == e.expected)
    ensures e.OutputContains? && e.stream == Stdout ==> (Matched(leaf, e, run) <==> Occurs(e.value, run.stdout))
    ensures e.OutputContains? && e.stream == Stderr ==> (Matched(leaf, e, run) <==> Occurs(e.value, run.stderr))
    ensures e.OutputRegex? || e.JsonField? ==> (Matched(leaf, e, run) <==> leaf(e, run))
  {
    match e
    case All(children) => assert forall i :: 0 <= i < |children| ==> EvaluateEach(leaf, children, run)[i] == Evaluate(leaf, children[i], run);
    case Any(children) => assert forall i :: 0 <= i < |children| ==> EvaluateEach(leaf, children, run)[i] == Evaluate(leaf, children[i], run);
    case OutputContains(stream, value) => IncludesMeans(Output(run, stream), value);
    case _ =>
  }

  /** More children never make a failing `all` match, nor a matching `any` fail. */
  lemma MoreChildren(leaf: Leaf, es: seq<Expression>, more: seq<Expression>, run: RunResult)
    requires SameElements(es + more, more)
    ensures Matched(leaf, All(more), run) ==> Matched(leaf, All(es), run)
    ensures Matched(leaf, Any(es), run) ==> Matched(leaf, Any(more), run)
  {
    ExpressionMeans(leaf, All(es), run);
    ExpressionMeans(leaf, All(more), run);
    ExpressionMeans(leaf, Any(es), run);
    ExpressionMeans(leaf, Any(more), run);
    forall i | 0 <= i < |es|
      ensures exists j :: 0 <= j < |more| && more[j] == es[i]
    {
      assert (es + more)[i] == es[i] && es[i] in more;
    }
  }

  function OneMore(l: (Expression, nat)): (Expression, nat) { (l.0, l.1 + 1) }

  /** The leaves of an expression in order, each with the number of negations above it. */
  function Leaves(e: Expression): seq<(Expression, nat)> {
    match e
    case All(children) => LeavesOfEach(children)
    case Any(children) => LeavesOfEach(children)
    case Not(child) => Apply(OneMore, Leaves(child))
    case _ => [(e, 0)]
  }

  function LeavesOfEach(es: seq<Expression>): seq<(Expression, nat)> {
    if es == [] then [] else Leaves(es[0]) + LeavesOfEach(es[1..])
  }

  function Noted(note: Note): (Expression, nat) {
    match note
    case Observed(e, _) => (e, 0)
    case Negated(inner) => (Noted(inner).0, Noted(inner).1 + 1)
  }

  /** What the note says of its leaf. */
  function Says(note: Note): bool {
    match note
    case Observed(_, matched) => matched
    case Negated(inner) => Says(inner)
  }

  ghost predicate Documents(leaf: Leaf, notes: seq<Note>, leaves: seq<(Expression, nat)>, run: RunResult) {
    && |notes| == |leaves|
    && forall i :: 0 <= i < |notes| ==> Noted(notes[i]) == leaves[i] && Says(notes[i]) == Matched(leaf, leaves[i].0, run)
  }

  /** The evidence names every leaf of the expression once and in order, says truly whether it matched, and how often it was negated. */
  lemma {:induction false} EvidenceIsComplete(leaf: Leaf, e: Expression, run: RunResult)
    ensures Documents(leaf, Evaluate(leaf, e, run).evidence, Leaves(e), run)
    decreases e
  {
    match e
    case All(children) => EvidenceOfEach(leaf, children, run);
    case Any(children) => EvidenceOfEach(leaf, children, run);
    case Not(child) =>
      EvidenceIsComplete(leaf, child, run);
      EvidenceOfNegation(leaf, Evaluate(leaf, child, run).evidence, Leaves(child), run);
    case _ => EvidenceOfLeaf(leaf, e, run);
  }

  lemma EvidenceOfNegation(leaf: Leaf, notes: seq<Note>, leaves: seq<(Expression, nat)>, run: RunResult)
    requires Documents(leaf, notes, leaves, run)
    ensures Documents(leaf, Apply(Negate, notes), Apply(OneMore, leaves), run)
  {
  }

  lemma EvidenceOfLeaf(leaf: Leaf, e: Expression, run: RunResult)
    requires !e.All? && !e.Any? && !e.Not?
    ensures Documents(leaf, Evaluate(leaf, e, run).evidence, Leaves(e), run)
  {
  }

  lemma {:induction false} EvidenceOfEach(leaf: Leaf, es: seq<Expression>, run: RunResult)
    ensures Documents(leaf, Flatten(EvaluateEach(leaf, es, run)), LeavesOfEach(es), run)
    decreases es
  {
    if es != [] {
      EvidenceIsComplete(leaf, es[0], run);
      EvidenceOfEach(leaf, es[1..], run);
      assert EvaluateEach(leaf, es, run)[1..] == EvaluateEach(leaf, es[1..], run);
    }
  }

  /** The expression with negation pushed to the leaves. */
  function Dual(e: Expression): Expression {
    match e
    case All(children) => Any(DualEach(children))
    case Any(children) => All(DualEach(children))
    case Not(child) => child
    case _ => Not(e)
  }

  function DualEach(es: seq<Expression>): (r: seq<Expression>)
    ensures |r| == |es|
    ensures forall i :: 0 <= i < |es| ==> r[i] == Dual(es[i])
  {
    if es == [] then [] else [Dual(es[0])] + DualEach(es[1..])
  }

  /** `all`, `any` and `not` obey De Morgan's laws at every depth. */
  lemma {:induction false} DualNegates(leaf: Leaf, e: Expression, run: RunResult)
    ensures Evaluate(leaf, Dual(e), run).matched == !Evaluate(leaf, e, run).matched
    decreases e
  {
    match e
    case All(children) => DualEachNegates(leaf, children, run);
    case Any(children) => DualEachNegates(leaf, children, run);
    case _ =>
  }

  lemma {:induction false} DualEachNegates(leaf: Leaf, es: seq<Expression>, run: RunResult)
    ensures forall i :: 0 <= i < |es| ==>
              EvaluateEach(leaf, DualEach(es), run)[i].matched == !EvaluateEach(leaf, es, run)[i].matched
    decreases es
  {
    forall i | 0 <= i < |es|
      ensures Evaluate(leaf, Dual(es[i]), run).matched == !Evaluate(leaf, es[i], run).matched
    {
      DualNegates(leaf, es[i], run);
    }
  }

  predicate Matches(leaf: Leaf, oracle: Oracle, run: RunResult) { Evaluate(leaf, oracle.root, run).matched }

  // ---------------------------------------------------------------------------------------------
  // The verdict
  // ---------------------------------------------------------------------------------------------

  datatype Status = VERIFIED | UNSTABLE | NOT_REPRODUCED | BLOCKED

  datatype Reason = ControlMatched | SeveralEnvironments | AllMatched(n: nat) | SomeMatched(k: nat, n: nat) | NoneMatched(n: nat)

  datatype Summary = Summary(
    candidateMatches: nat,
    controlMatched: bool,
    oracleId: Text,
    oracleVersion: nat,
    reason: Reason,
    repeatability: real,
    requiredRuns: nat,
    status: Status,
    totalCandidateRuns: nat)

  function Matching(leaf: Leaf, oracle: Oracle): RunResult -> bool { (run: RunResult) => Matches(leaf, oracle, run) }

  function EnvironmentHashes(control: RunResult, candidates: seq<RunResult>): set<Text> {
    {control.environmentHash} + set i | 0 <= i < |candidates| :: candidates[i].environmentHash
  }

  function Share(k: nat, n: nat): real { if n == 0 then 0.0 else k as real / n as real }

  /** verifyReproduction. */
  function Verify(leaf: Leaf, oracle: Oracle, control: RunResult, candidates: seq<RunResult>, requiredRuns: nat): Summary {
    var controlMatched := Matches(leaf, oracle, control);
    var matches, total := |Where(Matching(leaf, oracle), candidates)|, |candidates|;
    var verdict :=
      if controlMatched then (BLOCKED, ControlMatched)
      else if |EnvironmentHashes(control, candidates)| != 1 then (BLOCKED, SeveralEnvironments)
      else if total >= requiredRuns && matches == total then (VERIFIED, AllMatched(total))
      else if matches > 0 then (UNSTABLE, SomeMatched(matches, total))
      else (NOT_REPRODUCED, NoneMatched(total));
    Summary(matches, controlMatched, oracle.id, oracle.version, verdict.1,
            Share(matches, total), requiredRuns, verdict.0, total)
  }

  /** The positions at which the condition holds. */
  ghost function At<T>(p: T -> bool, xs: seq<T>): set<nat> { set i: nat | 0 <= i < |xs| && p(xs[i]) }

  lemma {:induction false} CountsPositions<T>(p: T -> bool, xs: seq<T>)
    ensures |Where(p, xs)| == |At(p, xs)|
    decreases |xs|
  {
    if xs == [] {
      assert At(p, xs) == {};
    } else {
      var n := |xs| - 1;
      assert xs == xs[..n] + [xs[n]];
      WhereSnoc(p, xs[..n], xs[n]);
      CountsPositions(p, xs[..n]);
      assert At(p, xs) == At(p, xs[..n]) + if p(xs[n]) then {n} else {};
    }
  }

  lemma {:induction false} CountsAll<T>(p: T -> bool, xs: seq<T>)
    ensures |Where(p, xs)| <= |xs|
    ensures |Where(p, xs)| == |xs| <==> forall i :: 0 <= i < |xs| ==> p(xs[i])
    ensures |Where(p, xs)| > 0 <==> exists i :: 0 <= i < |xs| && p(xs[i])
  {
    if xs != [] {
      CountsAll(p, xs[1..]);
      assert xs == [xs[0]] + xs[1..];
    }
  }

  ghost predicate OneEnvironment(control: RunResult, candidates: seq<RunResult>) {
    forall i :: 0 <= i < |candidates| ==> candidates[i].environmentHash == control.environmentHash
  }

  lemma OneHash(control: RunResult, candidates: seq<RunResult>)
    ensures |EnvironmentHashes(control, candidates)| == 1 <==> OneEnvironment(control, candidates)
  {
    var hashes := EnvironmentHashes(control, candidates);
    if OneEnvironment(control, candidates) {
      assert hashes == {control.environmentHash};
    } else {
      var i :| 0 <= i < |candidates| && candidates[i].environmentHash != control.environmentHash;
      assert {control.environmentHash, candidates[i].environmentHash} <= hashes;
      SubsetCount({control.environmentHash, candidates[i].environmentHash}, hashes);
    }
  }

  lemma SubsetCount<T>(a: set<T>, b: set<T>)
    requires a <= b
    ensures |a| <= |b|
  {
    assert b == a + (b - a);
  }

  ghost predicate EveryMatch(leaf: Leaf, oracle: Oracle, runs: seq<RunResult>) {
    forall i :: 0 <= i < |runs| ==> Matches(leaf, oracle, runs[i])
  }

  /** Each verdict in terms of the runs, and the reason given for it. */
  lemma VerdictMeans(leaf: Leaf, oracle: Oracle, control: RunResult, candidates: seq<RunResult>, requiredRuns: nat)
    requires requiredRuns > 0
    ensures var s := Verify(leaf, oracle, control, candidates, requiredRuns);
            var sound := !Matches(leaf, oracle, control) && OneEnvironment(control, candidates);
            && (s.status == BLOCKED <==> !sound)
            && (s.status == VERIFIED <==> sound && |candidates| >= requiredRuns && EveryMatch(leaf, oracle, candidates))
            && (s.status == NOT_REPRODUCED <==>
                  sound && forall i :: 0 <= i < |candidates| ==> !Matches(leaf, oracle, candidates[i]))
            && s.reason == match s.status
                           case BLOCKED => if Matches(leaf, oracle, control) then ControlMatched else SeveralEnvironments
                           case VERIFIED => AllMatched(|candidates|)
                           case UNSTABLE => SomeMatched(s.candidateMatches, |candidates|)
                           case NOT_REPRODUCED => NoneMatched(|candidates|)
  {
    CountsAll(Matching(leaf, oracle), candidates);
    OneHash(control, candidates);
  }

  /** The number says which share `k` is of `n`. */
  ghost predicate IsShare(share: real, k: nat, n: nat) {
    && share * n as real == k as real
    && 0.0 <= share <= 1.0
    && (n == 0 ==> share == 0.0)
    && (k == n > 0 ==> share == 1.0)
  }

  lemma ShareMeans(k: nat, n: nat)
    requires k <= n
    ensures IsShare(Share(k, n), k, n)
  {
  }

  /** The positions of the runs that match. */
  ghost function MatchingRuns(leaf: Leaf, oracle: Oracle, runs: seq<RunResult>): set<nat> {
    set i: nat | 0 <= i < |runs| && Matches(leaf, oracle, runs[i])
  }

  /** The figures of the summary: how many candidate runs matched, of how many, and which share that is. */
  lemma FiguresMean(leaf: Leaf, oracle: Oracle, control: RunResult, candidates: seq<RunResult>, requiredRuns: nat)
    requires requiredRuns > 0
    ensures var s := Verify(leaf, oracle, control, candidates, requiredRuns);
            && s.candidateMatches == |MatchingRuns(leaf, oracle, candidates)|
            && s.totalCandidateRuns == |candidates| && s.requiredRuns == requiredRuns
            && s.controlMatched == Matches(leaf, oracle, control)
            && s.oracleId == oracle.id && s.oracleVersion == oracle.version
            && IsShare(s.repeatability, s.candidateMatches, |candidates|)
  {
    var p := Matching(leaf, oracle);
    CountsAll(p, candidates);
    CountsPositions(p, candidates);
    assert At(p, candidates) == MatchingRuns(leaf, oracle, candidates);
    ShareMeans(|Where(p, candidates)|, |candidates|);
  }

  function One<T>(p: T -> bool): T -> nat { (x: T) => if p(x) then 1 else 0 }

  lemma {:induction false} CountIsSum<T>(p: T -> bool, xs: seq<T>)
    ensures |Where(p, xs)| == Sum(One(p), xs)
  {
    if xs != [] {
      CountIsSum(p, xs[1..]);
      assert xs[..0] + xs[1..] == xs[1..];
      SumWithout(One(p), xs, 0);
    }
  }

  /** The summary does not depend on the order of the candidate runs. */
  lemma CandidateOrderIsIrrelevant(leaf: Leaf, oracle: Oracle, control: RunResult, candidates: seq<RunResult>,
                                   others: seq<RunResult>, requiredRuns: nat)
    requires multiset(candidates) == multiset(others)
    ensures Verify(leaf, oracle, control, candidates, requiredRuns) == Verify(leaf, oracle, control, others, requiredRuns)
  {
    SamePermutation(candidates, others);
    CountIsSum(Matching(leaf, oracle), candidates);
    CountIsSum(Matching(leaf, oracle), others);
    PermutedSum(One(Matching(leaf, oracle)), candidates, others);
    SameHashes(control, candidates, others);
    SameHashes(control, others, candidates);
    assert EnvironmentHashes(control, candidates) == EnvironmentHashes(control, others);
  }

  lemma SameHashes(control: RunResult, candidates: seq<RunResult>, others: seq<RunResult>)
    requires SameElements(candidates, others)
    ensures EnvironmentHashes(control, candidates) <= EnvironmentHashes(control, others)
  {
    forall h | h in EnvironmentHashes(control, candidates)
      ensures h in EnvironmentHashes(control, others)
    {
      if h != control.environmentHash {
        var i :| 0 <= i < |candidates| && candidates[i].environmentHash == h;
        assert candidates[i] in others;
        var j :| 0 <= j < |others| && others[j] == candidates[i];
      }
    }
  }
}
