/** The states of a case and of a job, their transition tables, and the history a case keeps. */
module Lifecycle {
  import opened Wrappers

  datatype CaseState =
    | DRAFT | INGESTING | INSPECTING | HYPOTHESIZING | EXPERIMENTING | VERIFYING | MINIMIZING | PACKAGING
    | VERIFIED | UNSTABLE | NOT_REPRODUCED | BLOCKED | CANCELLED

  datatype JobState = Queued | Running | Succeeded | Failed | Cancelled

  predicate TerminalCase(state: CaseState) { state in {VERIFIED, UNSTABLE, NOT_REPRODUCED, BLOCKED, CANCELLED} }

  predicate TerminalJob(state: JobState) { state in {Succeeded, Failed, Cancelled} }

  function AllowedCase(from: CaseState): set<CaseState> {
    match from
    case DRAFT => {INGESTING, CANCELLED}
    case INGESTING => {INSPECTING, BLOCKED, CANCELLED}
    case INSPECTING => {HYPOTHESIZING, BLOCKED, CANCELLED}
    case HYPOTHESIZING => {EXPERIMENTING, BLOCKED, CANCELLED}
    case EXPERIMENTING => {VERIFYING, BLOCKED, CANCELLED}
    case VERIFYING => {MINIMIZING, UNSTABLE, NOT_REPRODUCED, BLOCKED, CANCELLED}
    case MINIMIZING => {PACKAGING, BLOCKED, CANCELLED}
    case PACKAGING => {VERIFIED, BLOCKED, CANCELLED}
    case VERIFIED | UNSTABLE | NOT_REPRODUCED | BLOCKED | CANCELLED => {}
  }

  function AllowedJob(from: JobState): set<JobState> {
    match from
    case Queued => {Running, Cancelled}
    case Running => {Succeeded, Failed, Cancelled}
    case Succeeded | Failed | Cancelled => {}
  }

  datatype Entry = Entry(at: int, from: CaseState, reason: string, to: CaseState)

  datatype Case = Case(createdAt: int, history: seq<Entry>, id: string, state: CaseState, updatedAt: int)

  function CreateCase(id: string, at: int): Case { Case(at, [], id, DRAFT, at) }

  /** transitionCase; `None` is the invalid-transition error. */
  function TransitionCase(c: Case, to: CaseState, reason: string, at: int): Option<Case> {
    if to !in AllowedCase(c.state) then None
    else Some(c.(history := c.history + [Entry(at, c.state, reason, to)], state := to, updatedAt := at))
  }

  datatype Move = Move(to: CaseState, reason: string, at: int)

  /** A run of moves; `None` when one of them is not allowed. */
  function Moves(c: Case, moves: seq<Move>): Option<Case> {
    if moves == [] then Some(c)
    else
      var before, m := Moves(c, moves[..|moves| - 1]), moves[|moves| - 1];
      if before.None? then None else TransitionCase(before.value, m.to, m.reason, m.at)
  }

  /** The history leads from DRAFT to the present state by allowed transitions only. */
  predicate Coherent(c: Case) {
    && (forall i :: 0 <= i < |c.history| ==> c.history[i].to in AllowedCase(c.history[i].from))
    && (forall i :: 0 < i < |c.history| ==> c.history[i].from == c.history[i - 1].to)
    && (if c.history == [] then c.state == DRAFT
        else c.history[0].from == DRAFT && c.state == c.history[|c.history| - 1].to)
  }

  /** Every case that was created and then moved has a coherent history, one entry for each move. */
  lemma {:induction false} MovesAreCoherent(id: string, at: int, moves: seq<Move>)
    requires Moves(CreateCase(id, at), moves).Some?
    ensures var c := Moves(CreateCase(id, at), moves).value;
            && Coherent(c) && |c.history| == |moves| && c.createdAt == at && c.id == id
            && forall i :: 0 <= i < |moves| ==> c.history[i].to == moves[i].to && c.history[i].at == moves[i].at
  {
    if moves != [] {
      MovesAreCoherent(id, at, moves[..|moves| - 1]);
    }
  }

  /** The position of a state on the way from DRAFT; every allowed transition goes further. */
  function Rank(state: CaseState): nat {
    match state
    case DRAFT => 0
    case INGESTING => 1
    case INSPECTING => 2
    case HYPOTHESIZING => 3
    case EXPERIMENTING => 4
    case VERIFYING => 5
    case MINIMIZING => 6
    case PACKAGING => 7
    case VERIFIED | UNSTABLE | NOT_REPRODUCED | BLOCKED | CANCELLED => 8
  }

  /**
   The transition tables in words. A case takes the next step of its way or is cancelled; once it has begun it can be
   blocked; and only its verification can end it otherwise. A job runs before it succeeds or fails, and can be cancelled
   until it has ended.
   */
  lemma AllowedExactly(c: CaseState, d: CaseState, j: JobState, k: JobState)
    ensures d in AllowedCase(c)
       <==> !TerminalCase(c)
            && match d
               case CANCELLED => true
               case BLOCKED => c != DRAFT
               case UNSTABLE | NOT_REPRODUCED => c == VERIFYING
               case _ => Rank(d) == Rank(c) + 1
    ensures k in AllowedJob(j) <==> !TerminalJob(j) && (k == Cancelled || if j == Queued then k == Running else TerminalJob(k))
  {
  }

  /** No case moves more than eight times, no case moves out of a terminal state, and VERIFIED takes all eight moves. */
  lemma {:induction false} CasesEnd(id: string, at: int, moves: seq<Move>)
    requires Moves(CreateCase(id, at), moves).Some?
    ensures var c := Moves(CreateCase(id, at), moves).value;
            && |moves| <= Rank(c.state) <= 8
            && (TerminalCase(c.state) <==> AllowedCase(c.state) == {})
            && (c.state == VERIFIED ==> |moves| == 8)
            && (!TerminalCase(c.state) ==> |moves| == Rank(c.state))
  {
    if moves != [] {
      CasesEnd(id, at, moves[..|moves| - 1]);
    }
  }
}
