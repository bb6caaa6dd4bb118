/**
 The authorization reducer: one status and the provider's time of the last change that took effect.

 Folding it over transitions computes a join: the result depends on the starting state and on the set of transitions
 only, so neither their order nor redelivery matters, and a removal is final. Between reconciliations that overwrite
 the time, the order does not matter exactly when the transitions settle with their date.
 */
module AuthorizationState {
  import opened Wrappers
  import opened Lists

  datatype Status = ACTIVE | SUSPENDED | REMOVED

  /** Instants are milliseconds. */
  datatype State = State(updatedAt: Option<int>, status: Status)

  datatype Transition = Transition(at: int, status: Status)

  function Precedence(status: Status): int {
    match status
    case ACTIVE => 0
    case SUSPENDED => 1
    case REMOVED => 2
  }

  /** reduceGitHubAuthorizationState. */
  function Reduce(current: State, transition: Transition): State {
    var next := State(Some(transition.at), transition.status);
    if current.status == REMOVED then
      if transition.status == REMOVED && (current.updatedAt.None? || transition.at > current.updatedAt.value) then next
      else current
    else if transition.status == REMOVED || current.updatedAt.None? then next
    else if transition.at > current.updatedAt.value then next
    else if transition.at < current.updatedAt.value then current
    else if Precedence(transition.status) > Precedence(current.status) then next
    else current
  }

  function Fold(start: State, transitions: seq<Transition>): State {
    if transitions == [] then start
    else
      var last := |transitions| - 1;
      Reduce(Fold(start, transitions[..last]), transitions[last])
  }

  // ---------------------------------------------------------------------------------------------
  // The join
  // ---------------------------------------------------------------------------------------------

  /** The times that bear on a final removal: those of removals, and the start's if it is removed. */
  ghost predicate RemovedAt(start: State, transitions: seq<Transition>, at: int) {
    Transition(at, REMOVED) in transitions || start == State(Some(at), REMOVED)
  }

  /** What competes when nothing was removed: the dated start and every transition. */
  ghost predicate Competes(start: State, transitions: seq<Transition>, t: Transition) {
    t in transitions || start == State(Some(t.at), t.status)
  }

  predicate AtMost(t: Transition, u: Transition) {
    t.at < u.at || (t.at == u.at && Precedence(t.status) <= Precedence(u.status))
  }

  ghost predicate Removed(start: State, transitions: seq<Transition>) {
    start.status == REMOVED || exists at :: Transition(at, REMOVED) in transitions
  }

  /**
   `r` is the join of the start and the transitions: once anything is removed, REMOVED with the latest time of a
   removal; otherwise the latest transition, the stronger status winning a tie; the start if there is nothing else.
   */
  ghost predicate IsJoin(start: State, transitions: seq<Transition>, r: State) {
    if Removed(start, transitions) then
      && r.status == REMOVED
      && (r.updatedAt.Some? ==> RemovedAt(start, transitions, r.updatedAt.value))
      && forall at :: RemovedAt(start, transitions, at) ==> r.updatedAt.Some? && at <= r.updatedAt.value
    else if transitions == [] && start.updatedAt.None? then r == start
    else
      && r.updatedAt.Some?
      && Competes(start, transitions, Transition(r.updatedAt.value, r.status))
      && forall t :: Competes(start, transitions, t) ==> AtMost(t, Transition(r.updatedAt.value, r.status))
  }

  lemma OneMore(start: State, transitions: seq<Transition>, t: Transition)
    requires transitions != [] && t == transitions[|transitions| - 1]
    ensures var before := transitions[..|transitions| - 1];
            && (forall u :: u in transitions <==> u in before || u == t)
            && Fold(start, transitions) == Reduce(Fold(start, before), t)
  {
    assert transitions == transitions[..|transitions| - 1] + [t];
  }

  /** The reducer computes the join. */
  lemma {:induction false} FoldIsJoin(start: State, transitions: seq<Transition>)
    ensures IsJoin(start, transitions, Fold(start, transitions))
  {
    if transitions == [] {
      if start.updatedAt.Some? && start.status != REMOVED {
        assert Competes(start, [], Transition(start.updatedAt.value, start.status));
      }
    } else {
      var before, t := transitions[..|transitions| - 1], transitions[|transitions| - 1];
      FoldIsJoin(start, before);
      OneMore(start, transitions, t);
      JoinStep(start, before, transitions, t, Fold(start, before));
    }
  }

  lemma JoinStep(start: State, before: seq<Transition>, after: seq<Transition>, t: Transition, r: State)
    requires IsJoin(start, before, r)
    requires forall u :: u in after <==> u in before || u == t
    requires after != []
    ensures IsJoin(start, after, Reduce(r, t))
  {
    var next := Reduce(r, t);
    if Removed(start, before) {
      assert Removed(start, after);
      assert forall at :: RemovedAt(start, after, at) <==> RemovedAt(start, before, at) || t == Transition(at, REMOVED);
    } else if t.status == REMOVED {
      assert Transition(t.at, REMOVED) in after;
      assert forall at :: RemovedAt(start, after, at) <==> at == t.at;
    } else {
      assert !Removed(start, after);
      assert forall u :: Competes(start, after, u) <==> Competes(start, before, u) || u == t;
    }
  }

  /** There is only one join, and it depends on the transitions as a set. */
  lemma JoinIsUnique(start: State, transitions: seq<Transition>, others: seq<Transition>, r: State, q: State)
    requires IsJoin(start, transitions, r) && IsJoin(start, others, q)
    requires forall t :: t in transitions <==> t in others
    ensures r == q
  {
    if Removed(start, transitions) {
      assert Removed(start, others);
      assert forall at :: RemovedAt(start, transitions, at) <==> RemovedAt(start, others, at);
    } else {
      assert !Removed(start, others);
      assert transitions == [] <==> others == [] by {
        if transitions != [] { assert transitions[0] in others; }
        if others != [] { assert others[0] in transitions; }
      }
      assert forall t :: Competes(start, transitions, t) <==> Competes(start, others, t);
    }
  }

  // ---------------------------------------------------------------------------------------------
  // Main results
  // ---------------------------------------------------------------------------------------------

  /** Reordering and repeating transitions never change the result. */
  lemma FoldDependsOnTheSet(start: State, transitions: seq<Transition>, others: seq<Transition>)
    requires forall t :: t in transitions <==> t in others
    ensures Fold(start, transitions) == Fold(start, others)
  {
    FoldIsJoin(start, transitions);
    FoldIsJoin(start, others);
    JoinIsUnique(start, transitions, others, Fold(start, transitions), Fold(start, others));
  }

  /** A removal is final, and it is the only way to end up removed. */
  lemma RemovedExactlyWhen(start: State, transitions: seq<Transition>)
    ensures Fold(start, transitions).status == REMOVED <==> Removed(start, transitions)
  {
    FoldIsJoin(start, transitions);
  }

  // ---------------------------------------------------------------------------------------------
  // Transitions and reconciliations that overwrite the time
  // ---------------------------------------------------------------------------------------------

  /** What happens to an installation: a transition, or a reconciliation dated `at`. */
  datatype Op = Change(transition: Transition) | Date(at: int)

  function Dated(state: State, at: int): State { state.(updatedAt := Some(at)) }

  function Step(state: State, op: Op): State {
    match op
    case Change(t) => Reduce(state, t)
    case Date(at) => Dated(state, at)
  }

  function FoldOps(start: State, ops: seq<Op>): State {
    if ops == [] then start else Step(FoldOps(start, ops[..|ops| - 1]), ops[|ops| - 1])
  }

  /** The transition does not change the status, whether because it asks for it or because it loses against it. */
  predicate Outranked(start: State, t: Transition) {
    || t.status == start.status
    || (start.updatedAt.Some? && AtMost(t, Transition(start.updatedAt.value, start.status)))
  }

  ghost predicate Changes(ops: seq<Op>, t: Transition) { Change(t) in ops }

  /** Something in the list removes the installation. */
  ghost predicate Removes(ops: seq<Op>) { exists at :: Changes(ops, Transition(at, REMOVED)) }

  /**
   With reconciliations dated `s`, these transitions settle, in whatever order: a removed installation sees no later
   removal; one that gets removed is removed at `s` and never later; any other sees no later transition, and either
   a suspension at `s` that takes effect, or nothing that changes its status.
   */
  ghost predicate Settles(start: State, ops: seq<Op>, s: int) {
    if start.status == REMOVED then forall t :: Changes(ops, t) && t.status == REMOVED ==> t.at <= s
    else if Removes(ops) then
      Changes(ops, Transition(s, REMOVED)) && forall t :: Changes(ops, t) && t.status == REMOVED ==> t.at <= s
    else
      && (forall t :: Changes(ops, t) ==> t.at <= s)
      && if Changes(ops, Transition(s, SUSPENDED))
         then start.updatedAt.Some? && start.updatedAt.value > s ==> start.status == SUSPENDED
         else forall t :: Changes(ops, t) ==> Outranked(start, t)
  }

  /** The status in which they settle. */
  ghost function SettledStatus(start: State, ops: seq<Op>, s: int): Status {
    if start.status == REMOVED || Removes(ops) then REMOVED
    else if Changes(ops, Transition(s, SUSPENDED)) then SUSPENDED
    else start.status
  }

  /** There is no reconciliation, or all have the same date and the transitions settle with it. */
  ghost predicate OrderFree(start: State, ops: seq<Op>) {
    || (forall at :: Date(at) !in ops)
    || (exists s :: OnlyDate(ops, s) && Settles(start, ops, s))
  }

  ghost predicate OnlyDate(ops: seq<Op>, s: int) { Date(s) in ops && forall at :: Date(at) in ops ==> at == s }

  lemma OneMoreOp(start: State, ops: seq<Op>)
    requires ops != []
    ensures var before, op := ops[..|ops| - 1], ops[|ops| - 1];
            && (forall o :: o in ops <==> o in before || o == op)
            && FoldOps(start, ops) == Step(FoldOps(start, before), op)
  {
    assert ops == ops[..|ops| - 1] + [ops[|ops| - 1]];
  }

  /** A removed start: the time of the last date stays. */
  lemma {:induction false} RemovedSettles(start: State, all: seq<Op>, ops: seq<Op>, s: int)
    requires start.status == REMOVED && Settles(start, all, s) && (forall at :: Date(at) in all ==> at == s)
    requires forall o :: o in ops ==> o in all
    ensures FoldOps(start, ops).status == REMOVED
    ensures Date(s) in ops ==> FoldOps(start, ops).updatedAt == Some(s)
  {
    if ops != [] {
      OneMoreOp(start, ops);
      RemovedSettles(start, all, ops[..|ops| - 1], s);
      var op := ops[|ops| - 1];
      assert op.Change? ==> Changes(all, op.transition);
    }
  }

  /** A start that gets removed at `s`. */
  lemma {:induction false} RemovalSettles(start: State, all: seq<Op>, ops: seq<Op>, s: int)
    requires start.status != REMOVED && Removes(all) && Settles(start, all, s) && (forall at :: Date(at) in all ==> at == s)
    requires forall o :: o in ops ==> o in all
    ensures var r := FoldOps(start, ops);
            && (r.status == REMOVED ==> r.updatedAt.Some? && r.updatedAt.value <= s)
            && (Changes(ops, Transition(s, REMOVED)) ==> r == State(Some(s), REMOVED))
  {
    if ops != [] {
      OneMoreOp(start, ops);
      RemovalSettles(start, all, ops[..|ops| - 1], s);
      var op := ops[|ops| - 1];
      assert op.Change? ==> Changes(all, op.transition);
    }
  }

  /** A start that stays, with a suspension at `s`. */
  lemma {:induction false} SuspensionSettles(start: State, all: seq<Op>, ops: seq<Op>, s: int)
    requires start.status != REMOVED && !Removes(all) && Changes(all, Transition(s, SUSPENDED))
    requires Settles(start, all, s) && (forall at :: Date(at) in all ==> at == s)
    requires forall o :: o in ops ==> o in all
    ensures var r := FoldOps(start, ops);
            && r.status != REMOVED
            && (r.updatedAt.Some? && r.updatedAt.value > s ==> r.status == SUSPENDED && Date(s) !in ops)
            && (Date(s) in ops ==> r.updatedAt == Some(s))
            && (Changes(ops, Transition(s, SUSPENDED)) ==>
                  r.status == SUSPENDED && r.updatedAt.Some? && r.updatedAt.value >= s)
  {
    if ops != [] {
      OneMoreOp(start, ops);
      SuspensionSettles(start, all, ops[..|ops| - 1], s);
      var op := ops[|ops| - 1];
      assert op.Change? ==> Changes(all, op.transition);
    }
  }

  /** A start that stays, and whose status nothing changes. */
  lemma {:induction false} NothingSettles(start: State, all: seq<Op>, ops: seq<Op>, s: int)
    requires start.status != REMOVED && !Removes(all) && !Changes(all, Transition(s, SUSPENDED))
    requires Settles(start, all, s) && (forall at :: Date(at) in all ==> at == s)
    requires forall o :: o in ops ==> o in all
    ensures var r := FoldOps(start, ops);
            && r.status == start.status
            && (Date(s) in ops ==> r.updatedAt == Some(s))
            && (Date(s) !in ops && start.updatedAt.Some? ==>
                  r.updatedAt.Some? && r.updatedAt.value >= start.updatedAt.value)
  {
    if ops != [] {
      OneMoreOp(start, ops);
      NothingSettles(start, all, ops[..|ops| - 1], s);
      var op := ops[|ops| - 1];
      assert op.Change? ==> Changes(all, op.transition);
    }
  }

  /** What settles does so in one state, which depends on the transitions as a set. */
  lemma SettlesIn(start: State, ops: seq<Op>, s: int)
    requires OnlyDate(ops, s) && Settles(start, ops, s)
    ensures FoldOps(start, ops) == State(Some(s), SettledStatus(start, ops, s))
  {
    if start.status == REMOVED {
      RemovedSettles(start, ops, ops, s);
    } else if Removes(ops) {
      RemovalSettles(start, ops, ops, s);
    } else if Changes(ops, Transition(s, SUSPENDED)) {
      SuspensionSettles(start, ops, ops, s);
    } else {
      NothingSettles(start, ops, ops, s);
    }
  }

  // ---------------------------------------------------------------------------------------------
  // Exactly when the order does not matter
  // ---------------------------------------------------------------------------------------------

  ghost predicate OrderIrrelevant(start: State, ops: seq<Op>) {
    forall others: seq<Op> :: multiset(others) == multiset(ops) ==> FoldOps(start, others) == FoldOps(start, ops)
  }

  function Transitions(ops: seq<Op>): seq<Transition> {
    if ops == [] then []
    else Transitions(ops[..|ops| - 1]) + if ops[|ops| - 1].Change? then [ops[|ops| - 1].transition] else []
  }

  lemma {:induction false} TransitionsMeans(ops: seq<Op>, t: Transition)
    ensures t in Transitions(ops) <==> Changes(ops, t)
  {
    if ops != [] {
      OneMoreOp(State(None, ACTIVE), ops);
      TransitionsMeans(ops[..|ops| - 1], t);
    }
  }

  /** Without reconciliations it is the reducer that is folded. */
  lemma {:induction false} UndatedIsFold(start: State, ops: seq<Op>)
    requires forall at :: Date(at) !in ops
    ensures FoldOps(start, ops) == Fold(start, Transitions(ops))
  {
    if ops != [] {
      var before, op := ops[..|ops| - 1], ops[|ops| - 1];
      OneMoreOp(start, ops);
      UndatedIsFold(start, before);
      assert op.Change?;
      assert (Transitions(before) + [op.transition])[..|Transitions(before)|] == Transitions(before);
    }
  }

  lemma SameOpsSettle(start: State, ops: seq<Op>, others: seq<Op>, s: int)
    requires SameElements(ops, others)
    ensures OnlyDate(ops, s) && Settles(start, ops, s) ==> OnlyDate(others, s) && Settles(start, others, s)
    ensures SettledStatus(start, ops, s) == SettledStatus(start, others, s)
  {
    assert forall t :: Changes(ops, t) <==> Changes(others, t);
    assert Removes(ops) <==> Removes(others);
  }

  /** When the order does not matter, neither does repetition. */
  lemma SameOpsSameState(start: State, ops: seq<Op>, others: seq<Op>)
    requires OrderFree(start, ops) && SameElements(ops, others)
    ensures FoldOps(start, ops) == FoldOps(start, others)
  {
    if forall at :: Date(at) !in ops {
      UndatedIsFold(start, ops);
      UndatedIsFold(start, others);
      forall t
        ensures t in Transitions(ops) <==> t in Transitions(others)
      {
        TransitionsMeans(ops, t);
        TransitionsMeans(others, t);
      }
      FoldDependsOnTheSet(start, Transitions(ops), Transitions(others));
    } else {
      var s :| OnlyDate(ops, s) && Settles(start, ops, s);
      SameOpsSettle(start, ops, others, s);
      SettlesIn(start, ops, s);
      SettlesIn(start, others, s);
    }
  }

  lemma {:induction false} FoldInTwo(start: State, first: seq<Op>, second: seq<Op>)
    ensures FoldOps(start, first + second) == FoldOps(FoldOps(start, first), second)
  {
    if second == [] {
      assert first + second == first;
    } else {
      var n := |second| - 1;
      assert (first + second)[..|first| + n] == first + second[..n];
      FoldInTwo(start, first, second[..n]);
    }
  }

  /** The other operations, then the one at `i`. */
  function Last(ops: seq<Op>, i: nat): seq<Op>
    requires i < |ops|
  {
    Others(ops, i) + [ops[i]]
  }

  function Others(ops: seq<Op>, i: nat): seq<Op>
    requires i < |ops|
  {
    ops[..i] + ops[i + 1..]
  }

  lemma LastIsLast(start: State, ops: seq<Op>, i: nat)
    requires i < |ops|
    ensures multiset(Last(ops, i)) == multiset(ops)
    ensures FoldOps(start, Last(ops, i)) == Step(FoldOps(start, Others(ops, i)), ops[i])
    ensures forall o :: o in Others(ops, i) ==> o in ops
    ensures forall o :: o in ops && o != ops[i] ==> o in Others(ops, i)
  {
    assert ops == ops[..i] + [ops[i]] + ops[i + 1..];
    assert Last(ops, i)[..|Last(ops, i)| - 1] == Others(ops, i);
  }

  predicate IsDate(op: Op) { op.Date? }
  predicate IsChange(op: Op) { op.Change? }

  /** The dates, then the changes. */
  function DatesFirst(ops: seq<Op>): seq<Op> { Where(IsDate, ops) + Where(IsChange, ops) }

  lemma {:induction false} DatesFirstIsPermutation(ops: seq<Op>)
    ensures multiset(DatesFirst(ops)) == multiset(ops)
  {
    if ops != [] {
      DatesFirstIsPermutation(ops[1..]);
      assert ops == [ops[0]] + ops[1..];
    }
  }

  lemma {:induction false} OnlyDates(start: State, ops: seq<Op>, s: int)
    requires ops != [] && forall o :: o in ops ==> o == Date(s)
    ensures FoldOps(start, ops) == Dated(start, s)
  {
    OneMoreOp(start, ops);
    assert ops[|ops| - 1] in ops;
    if |ops| == 1 {
      assert ops[..0] == [];
    } else {
      OnlyDates(start, ops[..|ops| - 1], s);
    }
  }

  lemma PartsOf(ops: seq<Op>, o: Op)
    ensures o in Where(IsDate, ops) <==> o in ops && o.Date?
    ensures o in Where(IsChange, ops) <==> o in ops && o.Change?
  {
    WhereMeans(IsDate, ops, o);
    WhereMeans(IsChange, ops, o);
  }

  /** Dates first: the changes start from the dated start. */
  lemma FoldDatesFirst(start: State, ops: seq<Op>, s: int)
    requires OnlyDate(ops, s)
    ensures FoldOps(start, DatesFirst(ops)) == FoldOps(Dated(start, s), Where(IsChange, ops))
    ensures forall t :: Changes(Where(IsChange, ops), t) <==> Changes(ops, t)
    ensures forall at :: Date(at) !in Where(IsChange, ops)
  {
    var dates, changes := Where(IsDate, ops), Where(IsChange, ops);
    forall o
      ensures o in dates <==> o in ops && o.Date?
      ensures o in changes <==> o in ops && o.Change?
    {
      PartsOf(ops, o);
    }
    assert Date(s) in dates;
    OnlyDates(start, dates, s);
    FoldInTwo(start, dates, changes);
  }

  /** When the order does not matter all dates are the same, and the state has that date. */
  lemma OneDate(start: State, ops: seq<Op>, s: int)
    requires OrderIrrelevant(start, ops) && Date(s) in ops
    ensures OnlyDate(ops, s) && FoldOps(start, ops).updatedAt == Some(s)
  {
    forall at | Date(at) in ops
      ensures FoldOps(start, ops).updatedAt == Some(at)
    {
      var i :| 0 <= i < |ops| && ops[i] == Date(at);
      LastIsLast(start, ops, i);
    }
  }

  lemma {:induction false} StatusOnlyFalls(start: State, ops: seq<Op>)
    ensures FoldOps(start, ops).status == REMOVED <==> start.status == REMOVED || Removes(ops)
  {
    if ops != [] {
      StatusOnlyFalls(start, ops[..|ops| - 1]);
      OneMoreOp(start, ops);
      var before, op := ops[..|ops| - 1], ops[|ops| - 1];
      assert forall t :: Changes(ops, t) <==> Changes(before, t) || op == Change(t);
      assert Removes(before) ==> Removes(ops);
      if op.Change? && op.transition.status == REMOVED {
        assert Changes(ops, Transition(op.transition.at, REMOVED));
      }
    }
  }

  /** A change that comes last and is later than every date shows: no removal may, and none at all while nothing is removed. */
  lemma NothingLater(start: State, ops: seq<Op>, s: int, t: Transition)
    requires OrderIrrelevant(start, ops) && OnlyDate(ops, s) && Changes(ops, t)
    requires t.status == REMOVED || (start.status != REMOVED && !Removes(ops))
    ensures t.at <= s
  {
    OneDate(start, ops, s);
    var i :| 0 <= i < |ops| && ops[i] == Change(t);
    LastIsLast(start, ops, i);
    StatusOnlyFalls(start, Others(ops, i));
    if start.status != REMOVED && !Removes(ops) {
      assert forall at :: Changes(Others(ops, i), Transition(at, REMOVED)) ==> Changes(ops, Transition(at, REMOVED));
    }
  }

  lemma {:induction false} EarlyRemovals(start: State, ops: seq<Op>, s: int)
    requires start.status == REMOVED ==> start.updatedAt.Some? && start.updatedAt.value < s
    requires (forall at :: Date(at) !in ops) && forall t :: Changes(ops, t) && t.status == REMOVED ==> t.at < s
    ensures var r := FoldOps(start, ops); r.status == REMOVED ==> r.updatedAt.Some? && r.updatedAt.value < s
  {
    if ops != [] {
      OneMoreOp(start, ops);
      assert forall t :: Changes(ops[..|ops| - 1], t) ==> Changes(ops, t);
      EarlyRemovals(start, ops[..|ops| - 1], s);
      var op := ops[|ops| - 1];
      assert op.Change? ==> Changes(ops, op.transition);
    }
  }

  /** Some removal is dated as the reconciliations are. */
  lemma RemovedAtTheDate(start: State, ops: seq<Op>, s: int)
    requires OrderIrrelevant(start, ops) && OnlyDate(ops, s) && start.status != REMOVED && Removes(ops)
    ensures Changes(ops, Transition(s, REMOVED))
  {
    OneDate(start, ops, s);
    forall t | Changes(ops, t) && t.status == REMOVED
      ensures t.at <= s
    {
      NothingLater(start, ops, s, t);
    }
    if !Changes(ops, Transition(s, REMOVED)) {
      DatesFirstIsPermutation(ops);
      assert FoldOps(start, DatesFirst(ops)) == FoldOps(start, ops);
      FoldDatesFirst(start, ops, s);
      forall t | Changes(ops, t) && t.status == REMOVED
        ensures t.at < s
      {
        assert t == Transition(t.at, REMOVED);
      }
      EarlyRemovals(Dated(start, s), Where(IsChange, ops), s);
      StatusOnlyFalls(start, ops);
    }
  }

  lemma {:induction false} EarlierIsIgnored(start: State, ops: seq<Op>, s: int)
    requires start.status != REMOVED && start.updatedAt.Some? && start.updatedAt.value > s
    requires forall o :: o in ops ==> o.Change? && o.transition.at <= s && o.transition.status != REMOVED
    ensures FoldOps(start, ops) == start
  {
    if ops != [] {
      OneMoreOp(start, ops);
      EarlierIsIgnored(start, ops[..|ops| - 1], s);
    }
  }

  lemma {:induction false} DateStays(start: State, ops: seq<Op>, s: int)
    requires Date(s) in ops && start.status != REMOVED
    requires forall o :: o in ops ==> o == Date(s) || (o.Change? && o.transition.at <= s && o.transition.status != REMOVED)
    ensures FoldOps(start, ops).updatedAt == Some(s) && FoldOps(start, ops).status != REMOVED
  {
    OneMoreOp(start, ops);
    var before := ops[..|ops| - 1];
    if Date(s) in before {
      DateStays(start, before, s);
    } else {
      StatusOnlyFalls(start, before);
      assert !Removes(before);
    }
  }

  /** Nothing is removed and nothing is later than the dates. */
  ghost predicate Calm(start: State, ops: seq<Op>, s: int) {
    && OnlyDate(ops, s) && start.status != REMOVED && !Removes(ops)
    && forall t :: Changes(ops, t) ==> t.at <= s
  }

  /** A suspension at the date counts when it comes last, so it must count when it comes first. */
  lemma SuspensionCounts(start: State, ops: seq<Op>, s: int)
    requires OrderIrrelevant(start, ops) && Calm(start, ops, s) && Changes(ops, Transition(s, SUSPENDED))
    requires start.updatedAt.Some? && start.updatedAt.value > s
    ensures start.status == SUSPENDED
  {
    forall o | o in ops
      ensures o == Date(s) || (o.Change? && o.transition.at <= s && o.transition.status != REMOVED)
    {
      assert o.Change? ==> Changes(ops, o.transition) && o.transition == Transition(o.transition.at, o.transition.status);
    }
    var i :| 0 <= i < |ops| && ops[i] == Change(Transition(s, SUSPENDED));
    LastIsLast(start, ops, i);
    DateStays(start, Others(ops, i), s);
    assert FoldOps(start, Last(ops, i)).status == SUSPENDED;
    ChangesFirst(start, ops, s);
  }

  /** Changes first: those before a later start are ignored. */
  lemma ChangesFirst(start: State, ops: seq<Op>, s: int)
    requires OrderIrrelevant(start, ops) && OnlyDate(ops, s) && start.status != REMOVED
    requires start.updatedAt.Some? && start.updatedAt.value > s
    requires forall o :: o in ops ==> o == Date(s) || (o.Change? && o.transition.at <= s && o.transition.status != REMOVED)
    ensures FoldOps(start, ops).status == start.status
  {
    var dates, changes := Where(IsDate, ops), Where(IsChange, ops);
    forall o
      ensures o in dates <==> o in ops && o.Date?
      ensures o in changes <==> o in ops && o.Change?
    {
      PartsOf(ops, o);
    }
    DatesFirstIsPermutation(ops);
    assert multiset(changes + dates) == multiset(ops);
    FoldInTwo(start, changes, dates);
    EarlierIsIgnored(start, changes, s);
    OnlyDates(start, dates, s);
  }

  /** Dates first leaves the status of a start that nothing outranks at the date. */
  lemma DatesFirstKeeps(start: State, ops: seq<Op>, s: int)
    requires Calm(start, ops, s) && !Changes(ops, Transition(s, SUSPENDED))
    ensures FoldOps(start, DatesFirst(ops)).status == start.status
  {
    var changes := Where(IsChange, ops);
    FoldDatesFirst(start, ops, s);
    forall t | Changes(changes, t)
      ensures Outranked(Dated(start, s), t)
    {
      assert Changes(ops, t) && t == Transition(t.at, t.status);
      assert t.status == REMOVED ==> Removes(ops);
    }
    assert !Removes(changes);
    NothingSettles(Dated(start, s), changes, changes, s);
  }

  /** A change that comes first and takes effect would be seen. */
  lemma NothingTakesEffect(start: State, ops: seq<Op>, s: int, t: Transition)
    requires OrderIrrelevant(start, ops) && Calm(start, ops, s) && !Changes(ops, Transition(s, SUSPENDED))
    requires Changes(ops, t)
    ensures Outranked(start, t)
  {
    if !Outranked(start, t) {
      var i :| 0 <= i < |ops| && ops[i] == Change(t);
      EarlyChange(start, ops, s, i);
      DatesFirstKeeps(start, ops, s);
      DatesFirstIsPermutation(ops);
    }
  }

  /** The operation at `i`, then the dates, then the other changes. */
  function Early(ops: seq<Op>, i: nat): seq<Op>
    requires i < |ops|
  {
    [ops[i]] + DatesFirst(Others(ops, i))
  }

  lemma EarlyChange(start: State, ops: seq<Op>, s: int, i: nat)
    requires Calm(start, ops, s) && !Changes(ops, Transition(s, SUSPENDED))
    requires i < |ops| && ops[i].Change? && !Outranked(start, ops[i].transition)
    ensures multiset(Early(ops, i)) == multiset(ops)
    ensures FoldOps(start, Early(ops, i)).status == ops[i].transition.status != start.status
  {
    var t, rest := ops[i].transition, Others(ops, i);
    var after := Reduce(start, t);
    LastIsLast(start, ops, i);
    assert Changes(ops, t) && t == Transition(t.at, t.status);
    assert forall u :: Changes(rest, u) ==> Changes(ops, u);
    assert Calm(after, rest, s);
    DatesFirstKeeps(after, rest, s);
    DatesFirstIsPermutation(rest);
    MultisetWithout(ops, i);
    FoldInTwo(start, [ops[i]], DatesFirst(rest));
    assert [ops[i]][..0] == [];
    assert FoldOps(start, [ops[i]]) == after;
  }

  lemma MustSettle(start: State, ops: seq<Op>, s: int)
    requires OrderIrrelevant(start, ops) && Date(s) in ops
    ensures OnlyDate(ops, s) && Settles(start, ops, s)
  {
    OneDate(start, ops, s);
    if start.status != REMOVED && !Removes(ops) {
      forall t | Changes(ops, t)
        ensures t.at <= s
      {
        NothingLater(start, ops, s, t);
      }
      if Changes(ops, Transition(s, SUSPENDED)) {
        if start.updatedAt.Some? && start.updatedAt.value > s {
          SuspensionCounts(start, ops, s);
        }
      } else {
        forall t | Changes(ops, t)
          ensures Outranked(start, t)
        {
          NothingTakesEffect(start, ops, s, t);
        }
      }
    } else {
      if start.status != REMOVED {
        RemovedAtTheDate(start, ops, s);
      }
      forall t | Changes(ops, t) && t.status == REMOVED
        ensures t.at <= s
      {
        NothingLater(start, ops, s, t);
      }
    }
  }

  /** The order of transitions and reconciliations does not matter exactly when they settle. */
  lemma OrderIrrelevantExactly(start: State, ops: seq<Op>)
    ensures OrderIrrelevant(start, ops) <==> OrderFree(start, ops)
  {
    if OrderFree(start, ops) {
      forall others: seq<Op> | multiset(others) == multiset(ops)
        ensures FoldOps(start, others) == FoldOps(start, ops)
      {
        SamePermutation(ops, others);
        SameOpsSameState(start, ops, others);
      }
    }
    if OrderIrrelevant(start, ops) && exists at :: Date(at) in ops {
      var s :| Date(s) in ops;
      MustSettle(start, ops, s);
    }
  }
}
