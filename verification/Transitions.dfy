/** The phase graph, and what holds of every run the transition policy authorizes. */
module Transitions {
  import opened Wrappers
  import opened Models

  // -- the graph ------------------------------------------------------------

  const TERMINAL_PHASES: set<Phase> := {Closed, Abandoned}

  const FORWARD_TRANSITIONS: map<Phase, set<Phase>> := map[
    Readiness := {Implementation},
    Implementation := {Validation},
    Validation := {Review, ReReview},
    Review := {Fix, ReadyToCommit},
    Fix := {Validation},
    ReReview := {Fix, ReadyToCommit},
    ReadyToCommit := {Commit, Fix},
    Commit := {Push},
    Push := {CI},
    CI := {Closed, Fix}]

  const ARTIFACT_RETURN_ELIGIBLE_PHASES: set<Phase> :=
    {Implementation, Validation, Review, ReReview, ReadyToCommit, CI}

  function ValidTargets(current: Phase): set<Phase> {
    if current in TERMINAL_PHASES then {}
    else
      var targets := (if current in FORWARD_TRANSITIONS then FORWARD_TRANSITIONS[current] else {}) + {Abandoned};
      if current in ARTIFACT_RETURN_ELIGIBLE_PHASES then targets + {Readiness} else targets
  }

  datatype WorkflowViolation = WorkflowViolation(current: Phase, target: Phase)

  function AuthorizeTransition(current: Phase, target: Phase): Result<(), WorkflowViolation> {
    if target !in ValidTargets(current) then Err(WorkflowViolation(current, target)) else Ok(())
  }

  /** The edges, seen from their targets. */
  lemma EdgesByTarget(current: Phase, target: Phase)
    ensures AuthorizeTransition(current, target).Ok? <==>
      match target
      case Readiness => current in {Implementation, Validation, Review, ReReview, ReadyToCommit, CI}
      case Implementation => current == Readiness
      case Validation => current in {Implementation, Fix}
      case Review => current == Validation
      case ReReview => current == Validation
      case Fix => current in {Review, ReReview, ReadyToCommit, CI}
      case ReadyToCommit => current in {Review, ReReview}
      case Commit => current == ReadyToCommit
      case Push => current == Commit
      case CI => current == Push
      case Closed => current == CI
      case Abandoned => current !in {Closed, Abandoned}
  {
  }

  // -- runs -----------------------------------------------------------------

  type Run = seq<Phase>

  ghost predicate Authorized(run: Run) {
    run != [] && forall i :: 0 < i < |run| ==> AuthorizeTransition(run[i - 1], run[i]).Ok?
  }

  /** How many positions of the run are in one of these phases. */
  function Count(run: Run, phases: set<Phase>): nat {
    if run == [] then 0 else Count(run[..|run| - 1], phases) + if run[|run| - 1] in phases then 1 else 0
  }

  /** How often the run enters a phase; where it starts is not an entry. */
  function Entries(run: Run, phase: Phase): nat
    requires run != []
  {
    Count(run[1..], {phase})
  }

  lemma EntriesSnoc(run: Run, next: Phase, phase: Phase)
    requires run != []
    ensures Entries(run + [next], phase) == Entries(run, phase) + if next == phase then 1 else 0
  {
    assert (run + [next])[1..] == run[1..] + [next];
    assert (run[1..] + [next])[..|run| - 1] == run[1..];
  }

  lemma CountSnoc(run: Run, next: Phase, phases: set<Phase>)
    ensures Count(run + [next], phases) == Count(run, phases) + if next in phases then 1 else 0
  {
    assert (run + [next])[..|run|] == run;
  }

  // -- how long a run is ----------------------------------------------------

  /** The least number of steps from a phase to CLOSED, and 8 for a run that was abandoned. */
  function Distance(phase: Phase): nat {
    match phase
    case Readiness => 8
    case Implementation => 7
    case Fix => 7
    case Validation => 6
    case Review => 5
    case ReReview => 5
    case ReadyToCommit => 4
    case Commit => 3
    case Push => 2
    case CI => 1
    case Closed => 0
    case Abandoned => 8
  }

  /** One step gets at most one closer, and pays for a detour through FIX or READINESS on entering it. */
  lemma StepCost(current: Phase, target: Phase)
    requires AuthorizeTransition(current, target).Ok?
    ensures 1 >= Distance(current) - Distance(target)
      + (if target == Fix then 3 else 0) + (if target == Readiness then 2 else 0)
  {
    EdgesByTarget(current, target);
  }

  lemma {:induction false} RunCost(run: Run)
    requires Authorized(run)
    ensures |run| - 1 >=
      Distance(run[0]) - Distance(run[|run| - 1]) + 3 * Entries(run, Fix) + 2 * Entries(run, Readiness)
  {
    hide AuthorizeTransition, Distance, Entries;
    if |run| == 1 {
      NoEntries(run);
    } else {
      var init, last := run[..|run| - 1], run[|run| - 1];
      assert run == init + [last];
      RunCost(init);
      EntriesSnoc(init, last, Fix);
      EntriesSnoc(init, last, Readiness);
      StepCost(init[|init| - 1], last);
    }
  }

  lemma NoEntries(run: Run)
    requires |run| == 1
    ensures forall phase :: Entries(run, phase) == 0
  {
  }

  /** From READINESS to CLOSED takes at least 8 steps, 3 more for each entry to FIX and 2 more for each return to
      READINESS. */
  lemma ClosingTakes(run: Run)
    requires Authorized(run) && run[0] == Readiness && run[|run| - 1] == Closed
    ensures |run| - 1 >= 8 + 3 * Entries(run, Fix) + 2 * Entries(run, Readiness)
  {
    RunCost(run);
  }

  // -- the bound is met -----------------------------------------------------

  lemma Extend(run: Run, next: Phase) returns (longer: Run)
    requires Authorized(run) && AuthorizeTransition(run[|run| - 1], next).Ok?
    ensures longer == run + [next] && Authorized(longer)
    ensures Entries(longer, Fix) == Entries(run, Fix) + if next == Fix then 1 else 0
    ensures Entries(longer, Readiness) == Entries(run, Readiness) + if next == Readiness then 1 else 0
  {
    hide AuthorizeTransition, Entries;
    longer := run + [next];
    EntriesSnoc(run, next, Fix);
    EntriesSnoc(run, next, Readiness);
  }

  /** A run that ends in a review after so many fixes and returns, as short as can be. */
  lemma {:induction false} ShortReview(fixes: nat, backs: nat) returns (run: Run)
    ensures Authorized(run) && run[0] == Readiness && run[|run| - 1] == Review
    ensures Entries(run, Fix) == fixes && Entries(run, Readiness) == backs
    ensures |run| - 1 == 3 + 3 * fixes + 2 * backs
    decreases fixes
  {
    hide AuthorizeTransition, Entries, Authorized;
    forall current, target { EdgesByTarget(current, target); }
    if fixes == 0 {
      run := ShortImplementation(backs);
      run := Extend(run, Validation);
      run := Extend(run, Review);
    } else {
      run := ShortReview(fixes - 1, backs);
      run := Extend(run, Fix);
      run := Extend(run, Validation);
      run := Extend(run, Review);
    }
  }

  lemma {:induction false} ShortImplementation(backs: nat) returns (run: Run)
    ensures Authorized(run) && run[0] == Readiness && run[|run| - 1] == Implementation
    ensures Entries(run, Fix) == 0 && Entries(run, Readiness) == backs
    ensures |run| - 1 == 1 + 2 * backs
  {
    hide AuthorizeTransition, Entries, Authorized;
    forall current, target { EdgesByTarget(current, target); }
    if backs == 0 {
      run := JustStarted();
      run := Extend(run, Implementation);
    } else {
      run := ShortImplementation(backs - 1);
      run := Extend(run, Readiness);
      run := Extend(run, Implementation);
    }
  }

  lemma JustStarted() returns (run: Run)
    ensures run == [Readiness] && Authorized(run) && Entries(run, Fix) == 0 && Entries(run, Readiness) == 0
  {
    run := [Readiness];
    NoEntries(run);
  }

  /** The bound is exact: for any numbers of fixes and returns some authorized run takes no step more. */
  lemma ClosingTakesNoMore(fixes: nat, backs: nat) returns (run: Run)
    ensures Authorized(run) && run[0] == Readiness && run[|run| - 1] == Closed
    ensures Entries(run, Fix) == fixes && Entries(run, Readiness) == backs
    ensures |run| - 1 == 8 + 3 * fixes + 2 * backs
  {
    hide AuthorizeTransition, Entries, Authorized;
    forall current, target { EdgesByTarget(current, target); }
    run := ShortReview(fixes, backs);
    run := Extend(run, ReadyToCommit);
    run := Extend(run, Commit);
    run := Extend(run, Push);
    run := Extend(run, CI);
    run := Extend(run, Closed);
  }

  // -- what precedes what ---------------------------------------------------

  /** Phases of the one kind are entered only from phases of the other. */
  ghost predicate OnlyAfter(phases: set<Phase>, before: set<Phase>) {
    phases !! before
    && forall current, target :: target in phases && AuthorizeTransition(current, target).Ok? ==> current in before
  }

  /** Then a run cannot be in the one kind more often than in the other. */
  lemma {:induction false} CountedBefore(run: Run, phases: set<Phase>, before: set<Phase>)
    requires Authorized(run) && run[0] !in phases && OnlyAfter(phases, before)
    ensures Count(run, phases) + (if run[|run| - 1] in before then 1 else 0) <= Count(run, before)
  {
    hide AuthorizeTransition, Count;
    var init, last := run[..|run| - 1], run[|run| - 1];
    assert run == init + [last];
    CountSnoc(init, last, phases);
    CountSnoc(init, last, before);
    if |run| == 1 {
      NothingCounted(init, phases);
    } else {
      CountedBefore(init, phases, before);
      assert AuthorizeTransition(init[|init| - 1], last).Ok?;
    }
  }

  lemma NothingCounted(run: Run, phases: set<Phase>)
    requires run == []
    ensures Count(run, phases) == 0
  {
  }

  lemma Chain()
    ensures OnlyAfter({Closed}, {CI}) && OnlyAfter({CI}, {Push}) && OnlyAfter({Push}, {Commit})
    ensures OnlyAfter({Commit}, {ReadyToCommit}) && OnlyAfter({ReadyToCommit}, {Review, ReReview})
    ensures OnlyAfter({Review, ReReview}, {Validation}) && OnlyAfter({Validation}, {Implementation, Fix})
    ensures OnlyAfter({Fix}, {Review, ReReview, ReadyToCommit, CI}) && OnlyAfter({Implementation}, {Readiness})
  {
    hide AuthorizeTransition;
    forall current, target { EdgesByTarget(current, target); }
  }

  /** In every authorized run from READINESS, and so in every prefix of one, no phase of the pipeline has been
      entered more often than the phases that must come before it. */
  lemma PipelineCounts(run: Run)
    requires Authorized(run) && run[0] == Readiness
    ensures Count(run, {Closed}) <= Count(run, {CI}) <= Count(run, {Push}) <= Count(run, {Commit})
      <= Count(run, {ReadyToCommit}) <= Count(run, {Review, ReReview}) <= Count(run, {Validation})
      <= Count(run, {Implementation, Fix})
    ensures Count(run, {Implementation}) <= Count(run, {Readiness})
    ensures Count(run, {Fix}) <= Count(run, {Review, ReReview, ReadyToCommit, CI})
  {
    hide AuthorizeTransition, Count, OnlyAfter, Authorized;
    Chain();
    CountedBefore(run, {Closed}, {CI});
    CountedBefore(run, {CI}, {Push});
    CountedBefore(run, {Push}, {Commit});
    CountedBefore(run, {Commit}, {ReadyToCommit});
    CountedBefore(run, {ReadyToCommit}, {Review, ReReview});
    CountedBefore(run, {Review, ReReview}, {Validation});
    CountedBefore(run, {Validation}, {Implementation, Fix});
    CountedBefore(run, {Implementation}, {Readiness});
    CountedBefore(run, {Fix}, {Review, ReReview, ReadyToCommit, CI});
  }

  /** Every COMMIT is reached from the latest IMPLEMENTATION or FIX through exactly VALIDATION, a review phase and
      READY_TO_COMMIT. */
  lemma CommitIsEarned(run: Run, i: nat)
    requires Authorized(run) && run[0] == Readiness && i < |run| && run[i] == Commit
    ensures i >= 4 && run[i - 4] in {Implementation, Fix} && run[i - 3] == Validation
      && run[i - 2] in {Review, ReReview} && run[i - 1] == ReadyToCommit
  {
    hide AuthorizeTransition;
    forall current, target { EdgesByTarget(current, target); }
    assert AuthorizeTransition(run[i - 1], run[i]).Ok?;
    assert AuthorizeTransition(run[i - 2], run[i - 1]).Ok?;
    assert AuthorizeTransition(run[i - 3], run[i - 2]).Ok?;
    assert AuthorizeTransition(run[i - 4], run[i - 3]).Ok?;
  }

  /** Between two COMMITs the work was implemented or fixed anew. */
  lemma CommitsAreSeparated(run: Run, i: nat, j: nat) returns (k: nat)
    requires Authorized(run) && run[0] == Readiness && i < j < |run| && run[i] == Commit && run[j] == Commit
    ensures i < k < j && run[k] in {Implementation, Fix}
  {
    CommitIsEarned(run, j);
    k := j - 4;
  }

  /** A run that has been closed or abandoned is over. */
  lemma TerminalIsLast(run: Run, i: nat)
    requires Authorized(run) && i < |run| && run[i] in TERMINAL_PHASES
    ensures i == |run| - 1
  {
    hide AuthorizeTransition;
    if i + 1 < |run| { TerminalHasNoTargets(run[i], run[i + 1]); }
  }

  lemma TerminalHasNoTargets(current: Phase, target: Phase)
    requires current in TERMINAL_PHASES
    ensures AuthorizeTransition(current, target) == Err(WorkflowViolation(current, target))
  {
  }
}
