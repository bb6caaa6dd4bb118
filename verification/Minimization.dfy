/**
 The choice of a reduction of a verified reproduction: of the proposals that still verify, one that removes the most
 inputs, and the one with the least id among those.
 */
module Minimization {
  import opened Wrappers
  import opened Json
  import opened Lists
  import opened Verification

  datatype Proposal = Proposal(id: Text, removedInputs: seq<Text>, control: RunResult, candidates: seq<RunResult>)

  datatype Judged = Judged(id: Text, removedInputs: seq<Text>, summary: Summary)

  datatype Claim = LocallyMinimized | BaselineRetained

  datatype Outcome = Outcome(
    acceptedReductionId: Option<Text>,
    acceptedRemovedInputs: seq<Text>,
    claim: Claim,
    evaluations: seq<Judged>)

  /** `localeCompare` as a strict total order. */
  type Collation = (Text, Text) -> bool

  function Judge(leaf: Leaf, oracle: Oracle, requiredRuns: nat): Proposal -> Judged {
    (p: Proposal) => Judged(p.id, p.removedInputs, Verify(leaf, oracle, p.control, p.candidates, requiredRuns))
  }

  predicate IsVerified(j: Judged) { j.summary.status == VERIFIED }

  function Kept(j: Judged): int { -|j.removedInputs| }
  function IdOf(j: Judged): Text { j.id }
  predicate Never(a: Judged, b: Judged) { false }
  predicate Fewer(a: int, b: int) { a < b }

  /** More removed inputs first, then the lesser id. */
  function Better(collation: Collation): (Judged, Judged) -> bool { Lex(Kept, Fewer, Lex(IdOf, collation, Never)) }

  function Ranked(collation: Collation, evaluations: seq<Judged>): seq<Judged> {
    Sort(Better(collation), Where(IsVerified, evaluations))
  }

  /** The result of minimizeReproduction, before its schema. */
  function Choose(collation: Collation, evaluations: seq<Judged>): Outcome {
    var ranked := Ranked(collation, evaluations);
    if ranked == [] then Outcome(None, [], BaselineRetained, evaluations)
    else Outcome(Some(ranked[0].id), ranked[0].removedInputs, LocallyMinimized, evaluations)
  }

  function FindJudged(evaluations: seq<Judged>, id: Text): (r: Option<Judged>)
    ensures r.Some? ==> r.value in evaluations && r.value.id == id
    ensures r.None? ==> forall j :: j in evaluations ==> j.id != id
  {
    if evaluations == [] then None
    else if evaluations[0].id == id then Some(evaluations[0])
    else FindJudged(evaluations[1..], id)
  }

  /** The cross-field rules of the result schema. */
  predicate OutcomeOk(o: Outcome) {
    if o.acceptedReductionId.None? then o.claim == BaselineRetained && o.acceptedRemovedInputs == []
    else
      var accepted := FindJudged(o.evaluations, o.acceptedReductionId.value);
      accepted.Some? && IsVerified(accepted.value) && o.claim == LocallyMinimized
  }

  /** minimizeReproduction; `None` when it throws: the baseline is not verified, or the result fails its schema. */
  function Minimize(leaf: Leaf, collation: Collation, oracle: Oracle, control: RunResult, candidates: seq<RunResult>,
                    proposals: seq<Proposal>, requiredRuns: nat): Option<Outcome>
  {
    if Verify(leaf, oracle, control, candidates, requiredRuns).status != VERIFIED then None
    else
      var o := Choose(collation, Apply(Judge(leaf, oracle, requiredRuns), proposals));
      if OutcomeOk(o) then Some(o) else None
  }

  /** Each proposal is judged by its own runs, in the order of the proposals. */
  lemma EvaluationsMean(leaf: Leaf, collation: Collation, oracle: Oracle, control: RunResult, candidates: seq<RunResult>,
                        proposals: seq<Proposal>, requiredRuns: nat)
    requires Minimize(leaf, collation, oracle, control, candidates, proposals, requiredRuns).Some?
    ensures var evaluations := Minimize(leaf, collation, oracle, control, candidates, proposals, requiredRuns).value.evaluations;
            |evaluations| == |proposals|
            && forall i :: 0 <= i < |proposals| ==>
                 var p := proposals[i];
                 evaluations[i] == Judged(p.id, p.removedInputs, Verify(leaf, oracle, p.control, p.candidates, requiredRuns))
  {
  }

  ghost predicate DistinctIds(evaluations: seq<Judged>) { Pairwise(IdsDiffer, evaluations) }

  predicate IdsDiffer(a: Judged, b: Judged) { a.id != b.id }

  // ---------------------------------------------------------------------------------------------
  // Main results
  // ---------------------------------------------------------------------------------------------

  lemma BetterIsStrict(collation: Collation)
    requires Total(collation)
    ensures StrictOrder(Better(collation))
  {
    LexIsStrict(IdOf, collation, Never);
    LexIsStrict(Kept, Fewer, Lex(IdOf, collation, Never));
  }

  lemma Compare(collation: Collation, a: Judged, b: Judged)
    requires Total(collation) && a.id != b.id
    ensures Better(collation)(a, b) || Better(collation)(b, a)
  {
    if Kept(a) == Kept(b) {
      assert collation(IdOf(a), IdOf(b)) || collation(IdOf(b), IdOf(a));
    } else {
      assert Fewer(Kept(a), Kept(b)) || Fewer(Kept(b), Kept(a));
    }
  }

  lemma RankedMeans(collation: Collation, evaluations: seq<Judged>)
    requires Total(collation) && DistinctIds(evaluations)
    ensures Sorted(Better(collation), Ranked(collation, evaluations))
    ensures forall j :: j in Ranked(collation, evaluations) <==> j in evaluations && IsVerified(j)
  {
    var verified := Where(IsVerified, evaluations);
    WherePairwise(IdsDiffer, IsVerified, evaluations);
    forall i, k | 0 <= i < k < |verified|
      ensures Better(collation)(verified[i], verified[k]) || Better(collation)(verified[k], verified[i])
    {
      assert IdsDiffer(verified[i], verified[k]);
      Compare(collation, verified[i], verified[k]);
    }
    BetterIsStrict(collation);
    SortSorts(Better(collation), verified);
    forall j
      ensures j in verified <==> j in evaluations && IsVerified(j)
    {
      WhereMeans(IsVerified, evaluations, j);
    }
  }

  lemma {:induction false} FindsTheOne(evaluations: seq<Judged>, j: Judged)
    requires DistinctIds(evaluations) && j in evaluations
    ensures FindJudged(evaluations, j.id) == Some(j)
  {
    if evaluations[0] != j {
      assert evaluations == [evaluations[0]] + evaluations[1..];
      var k :| 0 <= k < |evaluations| && evaluations[k] == j;
      assert IdsDiffer(evaluations[0], evaluations[k]);
      FindsTheOne(evaluations[1..], j);
    }
  }

  /** What is chosen: a verified proposal that none beats, whenever there is a verified one; and the result is valid. */
  lemma ChoiceIsBest(collation: Collation, evaluations: seq<Judged>)
    requires Total(collation) && DistinctIds(evaluations)
    ensures var o := Choose(collation, evaluations);
            && OutcomeOk(o) && o.evaluations == evaluations
            && (o.claim == LocallyMinimized <==> o.acceptedReductionId.Some?)
            && (o.acceptedReductionId.None? ==> o.acceptedRemovedInputs == [])
            && (o.acceptedReductionId.Some? <==> exists j :: j in evaluations && IsVerified(j))
            && (o.acceptedReductionId.Some? ==>
                  exists best :: best in evaluations && IsVerified(best)
                    && o.acceptedReductionId == Some(best.id) && o.acceptedRemovedInputs == best.removedInputs
                    && forall j :: j in evaluations && IsVerified(j) && j != best ==> Beats(collation, best, j))
  {
    RankedMeans(collation, evaluations);
    var ranked := Ranked(collation, evaluations);
    if ranked != [] {
      var best := ranked[0];
      assert best in ranked;
      FindsTheOne(evaluations, best);
      forall j | j in evaluations && IsVerified(j) && j != best
        ensures Beats(collation, best, j)
      {
        assert j in ranked;
        var k :| 0 <= k < |ranked| && ranked[k] == j;
        BetterBeats(collation, ranked[0], ranked[k]);
      }
    }
  }

  /** Removes more, or as much under a lesser id. */
  predicate Beats(collation: Collation, a: Judged, b: Judged) {
    |a.removedInputs| > |b.removedInputs| || (|a.removedInputs| == |b.removedInputs| && collation(a.id, b.id))
  }

  lemma BetterBeats(collation: Collation, a: Judged, b: Judged)
    requires Better(collation)(a, b)
    ensures Beats(collation, a, b)
  {
    assert Fewer(Kept(a), Kept(b)) || (Kept(a) == Kept(b) && Lex(IdOf, collation, Never)(a, b));
  }

  /** The same choice for every order of the proposals. */
  lemma ProposalOrderIsIrrelevant(collation: Collation, evaluations: seq<Judged>, others: seq<Judged>)
    requires Total(collation) && DistinctIds(evaluations) && multiset(evaluations) == multiset(others)
    ensures var o, q := Choose(collation, evaluations), Choose(collation, others);
            o.acceptedReductionId == q.acceptedReductionId && o.acceptedRemovedInputs == q.acceptedRemovedInputs
            && o.claim == q.claim
  {
    SamePermutation(evaluations, others);
    PermutedPairwise(IdsDiffer, evaluations, others);
    RankedMeans(collation, evaluations);
    RankedMeans(collation, others);
    BetterIsStrict(collation);
    SortedIsUnique(Better(collation), Ranked(collation, evaluations), Ranked(collation, others));
  }

  /** The same proposal, with its candidate runs in another order. */
  predicate SameProposal(p: Proposal, q: Proposal) {
    p.id == q.id && p.removedInputs == q.removedInputs && p.control == q.control && multiset(p.candidates) == multiset(q.candidates)
  }

  /** On distinct proposals only the baseline can fail, and neither the order of proposals nor of candidates matters. */
  lemma MinimizationIsStable(leaf: Leaf, collation: Collation, oracle: Oracle, control: RunResult,
                             candidates: seq<RunResult>, baseline: seq<RunResult>, proposals: seq<Proposal>,
                             reordered: seq<Proposal>, others: seq<Proposal>, requiredRuns: nat)
    requires Total(collation) && multiset(candidates) == multiset(baseline)
    requires forall i, j :: 0 <= i < j < |proposals| ==> proposals[i].id != proposals[j].id
    requires |reordered| == |proposals| && forall i :: 0 <= i < |proposals| ==> SameProposal(proposals[i], reordered[i])
    requires multiset(reordered) == multiset(others)
    ensures var o := Minimize(leaf, collation, oracle, control, candidates, proposals, requiredRuns);
            var q := Minimize(leaf, collation, oracle, control, baseline, others, requiredRuns);
            && (o.Some? <==> Verify(leaf, oracle, control, candidates, requiredRuns).status == VERIFIED)
            && (o.Some? <==> q.Some?)
            && (o.Some? ==>
                  && o.value.acceptedReductionId == q.value.acceptedReductionId
                  && o.value.acceptedRemovedInputs == q.value.acceptedRemovedInputs)
  {
    var judge := Judge(leaf, oracle, requiredRuns);
    var first, second, third := Apply(judge, proposals), Apply(judge, reordered), Apply(judge, others);
    CandidateOrderIsIrrelevant(leaf, oracle, control, candidates, baseline, requiredRuns);
    forall i | 0 <= i < |proposals|
      ensures first[i] == second[i]
    {
      assert SameProposal(proposals[i], reordered[i]);
      CandidateOrderIsIrrelevant(leaf, oracle, proposals[i].control, proposals[i].candidates, reordered[i].candidates, requiredRuns);
    }
    assert first == second;
    AppliedPermutation(judge, reordered, others);
    PermutedPairwise(IdsDiffer, second, third);
    ProposalOrderIsIrrelevant(collation, second, third);
    ChoiceIsBest(collation, first);
    ChoiceIsBest(collation, third);
  }

  // ---------------------------------------------------------------------------------------------
  // Repeated ids
  // ---------------------------------------------------------------------------------------------

  lemma BeatsIsBetter(collation: Collation, a: Judged, b: Judged)
    ensures Better(collation)(a, b) <==> Beats(collation, a, b)
  {
    assert Better(collation)(a, b) <==> Fewer(Kept(a), Kept(b)) || (Kept(a) == Kept(b) && Lex(IdOf, collation, Never)(a, b));
  }

  lemma BetterIsWeak(collation: Collation)
    requires Total(collation)
    ensures WeakOrder(Better(collation))
  {
    BetterIsStrict(collation);
    var better := Better(collation);
    forall a: Judged, b: Judged, c: Judged | better(a, c)
      ensures better(a, b) || better(b, c)
    {
      BeatsIsBetter(collation, a, b);
      BeatsIsBetter(collation, b, c);
      BeatsIsBetter(collation, a, c);
      assert a.id != b.id ==> collation(a.id, b.id) || collation(b.id, a.id);
    }
  }

  /** Verified, and no verified evaluation beats it. */
  ghost predicate Leads(collation: Collation, evaluations: seq<Judged>, j: Judged) {
    && j in evaluations && IsVerified(j)
    && forall k :: k in evaluations && IsVerified(k) ==> !Beats(collation, k, j)
  }

  /** What is chosen leads, and whatever else leads has its id. */
  lemma ChosenLeads(collation: Collation, evaluations: seq<Judged>)
    requires Total(collation) && Ranked(collation, evaluations) != []
    ensures Leads(collation, evaluations, Ranked(collation, evaluations)[0])
    ensures forall j :: Leads(collation, evaluations, j) ==> j.id == Ranked(collation, evaluations)[0].id
  {
    var verified, best := Where(IsVerified, evaluations), Ranked(collation, evaluations)[0];
    BetterIsWeak(collation);
    SortKeeps(Better(collation), verified);
    assert best in Ranked(collation, evaluations);
    WhereMeans(IsVerified, evaluations, best);
    forall k | k in evaluations && IsVerified(k)
      ensures !Beats(collation, k, best)
    {
      WhereMeans(IsVerified, evaluations, k);
      FirstIsUnbeaten(Better(collation), verified, k);
      BeatsIsBetter(collation, k, best);
    }
    forall j | Leads(collation, evaluations, j)
      ensures j.id == best.id
    {
      assert !Beats(collation, best, j) && !Beats(collation, j, best);
    }
  }

  /** The first evaluation listed under the id of a leading one is verified. */
  ghost predicate LeadersAreListedFirst(collation: Collation, evaluations: seq<Judged>) {
    forall j :: Leads(collation, evaluations, j) ==> IsVerified(FindJudged(evaluations, j.id).value)
  }

  /**
   For any proposals, repeated ids included: the result passes its schema exactly when the first evaluation listed
   under the id of a leading one is itself verified.
   */
  lemma ValidExactly(collation: Collation, evaluations: seq<Judged>)
    requires Total(collation)
    ensures OutcomeOk(Choose(collation, evaluations)) <==> LeadersAreListedFirst(collation, evaluations)
  {
    var ranked := Ranked(collation, evaluations);
    if ranked == [] {
      forall j
        ensures !Leads(collation, evaluations, j)
      {
        WhereMeans(IsVerified, evaluations, j);
        SortKeeps(Better(collation), Where(IsVerified, evaluations));
        assert SameElements(ranked, Where(IsVerified, evaluations));
      }
    } else {
      ChosenLeads(collation, evaluations);
    }
  }

  /** Minimization throws exactly when the baseline is not verified, or a leading id is first listed unverified. */
  lemma MinimizeSucceedsExactly(leaf: Leaf, collation: Collation, oracle: Oracle, control: RunResult,
                                candidates: seq<RunResult>, proposals: seq<Proposal>, requiredRuns: nat)
    requires Total(collation)
    ensures Minimize(leaf, collation, oracle, control, candidates, proposals, requiredRuns).Some?
       <==> && Verify(leaf, oracle, control, candidates, requiredRuns).status == VERIFIED
            && LeadersAreListedFirst(collation, Apply(Judge(leaf, oracle, requiredRuns), proposals))
  {
    ValidExactly(collation, Apply(Judge(leaf, oracle, requiredRuns), proposals));
  }

  /** A run that exits with this code. */
  function RunOf(exitCode: int): RunResult { RunResult([0x72], [0x63], [0x65], exitCode, [], []) }

  /**
   An instance: two proposals under one id, the first of which fails its control. The baseline verifies and so does
   the second proposal, but the lookup by id finds the first, and the whole minimization throws.
   */
  lemma RepeatedIdsCanFail(leaf: Leaf, collation: Collation) returns (oracle: Oracle, proposals: seq<Proposal>)
    requires Total(collation)
    ensures var runs := [RunOf(1), RunOf(1), RunOf(1)];
            && Verify(leaf, oracle, RunOf(0), runs, 3).status == VERIFIED
            && |proposals| == 2 && proposals[0].id == proposals[1].id
            && Minimize(leaf, collation, oracle, RunOf(0), runs, proposals, 3).None?
  {
    var runs := [RunOf(1), RunOf(1), RunOf(1)];
    oracle := Oracle([0x6F], 1, ExitCode(1));
    proposals := [Proposal([0x70], [[0x61]], RunOf(1), runs), Proposal([0x70], [[0x61]], RunOf(0), runs)];
    VerdictMeans(leaf, oracle, RunOf(0), runs, 3);
    VerdictMeans(leaf, oracle, RunOf(1), runs, 3);
    var evaluations := Apply(Judge(leaf, oracle, 3), proposals);
    var bad, good := evaluations[0], evaluations[1];
    MinimizeSucceedsExactly(leaf, collation, oracle, RunOf(0), runs, proposals, 3);
    assert FindJudged(evaluations, good.id) == Some(bad);
    forall k | k in evaluations && IsVerified(k)
      ensures !Beats(collation, k, good)
    {
      assert k == good;
    }
    assert Leads(collation, evaluations, good);
  }
}
