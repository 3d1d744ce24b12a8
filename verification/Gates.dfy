/** The chain of gates that ends in commit authorization: evidence, the current result of each obligation, and
    the decisions composed from them. */
module Gates {
  import opened Wrappers
  import Models

  // -- evidence -------------------------------------------------------------

  datatype Context = Context(
    taskId: string, attemptId: string, candidateId: Option<string>, contractIdentity: Option<string>)
  {
    /** `None` matches only `None`. */
    predicate AppliesTo(other: Context): (b: bool)
      ensures b <==> this == other
    {
      && taskId == other.taskId
      && attemptId == other.attemptId
      && candidateId == other.candidateId
      && contractIdentity == other.contractIdentity
    }
  }

  type Condition = Models.Condition

  datatype Status = Passed | Failed | NotRun

  datatype Cause = Product | Architecture | TasksCause | Code | Environment | RepositoryMismatch

  datatype Completion = Completed | Incomplete | CompletionFailed

  datatype Severity = Blocker | Important | Minor

  datatype ImplementationReport = ImplementationReport(context: Context, completion: Completion)

  datatype Obligation = Obligation(id: string, required: bool, nonWaivable: bool)

  /** Times are only ever compared. */
  datatype ValidationResult = ValidationResult(
    id: string, obligationId: string, context: Context, status: Status,
    startedAt: Option<int>, completedAt: Option<int>)
  {
    function Time(): Option<int> { if completedAt.Some? then completedAt else startedAt }
  }

  datatype Waiver = Waiver(id: string, obligationId: string, context: Context, resultId: string)

  datatype Review = Review(context: Context, findings: seq<Severity>)

  datatype Reason =
    | UnresolvedCondition(condition: Condition)
    | NoReport | ReportStale | NotCompleted(completion: Completion)
    | AmbiguousResults(obligationId: string) | NoResult(obligationId: string)
    | ObligationFailed(obligationId: string) | NotRunNonWaivable(obligationId: string)
    | NotRunUnwaived(obligationId: string)
    | ReviewStale | BlockerCount(count: nat) | ImportantCount(count: nat)
    | NotReadyForReview | ReviewGateUnsatisfied | IntegrityInvalid
    | NotReadyToCommit | ReadyToCommitStale | ApprovalMissing | ApprovalStale
    | OtherObligation(resultOf: string, obligationId: string) | FailedNeverWaivable | PassedNeedsNoWaiver
    | DeclaredNonWaivable(obligationId: string) | NotClassifiedEnvironment(cause: Option<Cause>)

  datatype Decision = Decision(passed: bool, reasons: seq<Reason>)

  // -- which result is current ----------------------------------------------

  /** The elements that satisfy a test, in order. */
  function Keep<T(!new)>(s: seq<T>, test: T -> bool): (r: seq<T>)
    ensures forall x :: x in r <==> x in s && test(x)
  {
    if s == [] then []
    else (if test(s[0]) then [s[0]] else []) + Keep(s[1..], test)
  }

  predicate Applies(obligationId: string, ctx: Context, r: ValidationResult): (b: bool)
    ensures b <==> r.obligationId == obligationId && r.context == ctx
  {
    r.obligationId == obligationId && r.context.AppliesTo(ctx)
  }

  /** `max` of the times. */
  function Latest(results: seq<ValidationResult>): (latest: int)
    requires results != [] && forall r | r in results :: r.Time().Some?
    ensures forall r | r in results :: r.Time().value <= latest
    ensures exists r :: r in results && r.Time() == Some(latest)
  {
    assert results[0] in results;
    var t := results[0].Time().value;
    if |results| == 1 then t
    else
      assert results == [results[0]] + results[1..];
      var rest := Latest(results[1..]);
      if t >= rest then t else rest
  }

  datatype Lookup = Lookup(result: Option<ValidationResult>, ambiguous: bool)

  /** `_latest_applicable_result`. */
  function LatestApplicable(obligationId: string, results: seq<ValidationResult>, ctx: Context): Lookup {
    var applicable := Keep(results, r => Applies(obligationId, ctx, r));
    if applicable == [] then Lookup(None, false)
    else if |applicable| == 1 then Lookup(Some(applicable[0]), false)
    else if exists r | r in applicable :: r.Time().None? then Lookup(None, true)
    else
      var latest := Latest(applicable);
      var winners := Keep(applicable, (r: ValidationResult) => r.Time() == Some(latest));
      if |winners| > 1 then Lookup(None, true) else Lookup(Some(winners[0]), false)
  }

  predicate Grants(w: Waiver, obligationId: string, resultId: string, ctx: Context): (b: bool)
    ensures b <==> w.obligationId == obligationId && w.resultId == resultId && w.context == ctx
  {
    w.obligationId == obligationId && w.resultId == resultId && w.context.AppliesTo(ctx)
  }

  /** `_applicable_waiver`: the first that fits. */
  function ApplicableWaiver(obligationId: string, resultId: string, waivers: seq<Waiver>, ctx: Context)
    : Option<Waiver>
  {
    if waivers == [] then None
    else if Grants(waivers[0], obligationId, resultId, ctx) then Some(waivers[0])
    else ApplicableWaiver(obligationId, resultId, waivers[1..], ctx)
  }

  // -- READY_FOR_REVIEW -----------------------------------------------------

  /** `_evaluate_required_obligation`. */
  function EvaluateObligation(o: Obligation, results: seq<ValidationResult>, waivers: seq<Waiver>, ctx: Context):
    seq<Reason>
  {
    var lookup := LatestApplicable(o.id, results, ctx);
    if lookup.ambiguous then [AmbiguousResults(o.id)]
    else match lookup.result
      case None => [NoResult(o.id)]
      case Some(result) =>
        match result.status
        case Passed => []
        case Failed => [ObligationFailed(o.id)]
        case NotRun =>
          if o.nonWaivable then [NotRunNonWaivable(o.id)]
          else if ApplicableWaiver(o.id, result.id, waivers, ctx).None? then [NotRunUnwaived(o.id)]
          else []
  }

  function ReportReasons(report: Option<ImplementationReport>, ctx: Context): seq<Reason> {
    match report
    case None => [NoReport]
    case Some(r) =>
      if !r.context.AppliesTo(ctx) then [ReportStale]
      else if r.completion != Completed then [NotCompleted(r.completion)]
      else []
  }

  function ConditionReasons(condition: Option<Condition>): seq<Reason> {
    match condition case None => [] case Some(c) => [UnresolvedCondition(c)]
  }

  function ObligationReasons(
      obligations: seq<Obligation>, results: seq<ValidationResult>, waivers: seq<Waiver>, ctx: Context): seq<Reason>
  {
    if obligations == [] then []
    else
      var last := obligations[|obligations| - 1];
      ObligationReasons(obligations[..|obligations| - 1], results, waivers, ctx)
      + if last.required then EvaluateObligation(last, results, waivers, ctx) else []
  }

  /** Everything the gates look at. */
  datatype Evidence = Evidence(
    report: Option<ImplementationReport>, obligations: seq<Obligation>, results: seq<ValidationResult>,
    waivers: seq<Waiver>, condition: Option<Condition>)

  function ReviewReadiness(e: Evidence, ctx: Context): Decision {
    var reasons := ConditionReasons(e.condition) + ReportReasons(e.report, ctx)
                   + ObligationReasons(e.obligations, e.results, e.waivers, ctx);
    Decision(reasons == [], reasons)
  }

  /** `ReadyForReviewPolicy.evaluate`. */
  method ReadyForReview(e: Evidence, ctx: Context) returns (d: Decision)
    ensures d == ReviewReadiness(e, ctx)
  {
    hide EvaluateObligation;
    var reasons: seq<Reason> := [];
    if e.condition.Some? { reasons := reasons + [UnresolvedCondition(e.condition.value)]; }
    if e.report.None? {
      reasons := reasons + [NoReport];
    } else if !e.report.value.context.AppliesTo(ctx) {
      reasons := reasons + [ReportStale];
    } else if e.report.value.completion != Completed {
      reasons := reasons + [NotCompleted(e.report.value.completion)];
    }
    ghost var before := ConditionReasons(e.condition) + ReportReasons(e.report, ctx);
    NoObligations(before, e.results, e.waivers, ctx);
    assert reasons == before;
    hide ConditionReasons, ReportReasons, ObligationReasons;
    for i := 0 to |e.obligations|
      invariant reasons == before + ObligationReasons(e.obligations[..i], e.results, e.waivers, ctx)
    {
      var obligation := e.obligations[i];
      OneMoreObligation(before, e.obligations, i, e.results, e.waivers, ctx);
      if !obligation.required { continue; }
      reasons := reasons + EvaluateObligation(obligation, e.results, e.waivers, ctx);
    }
    assert e.obligations[..|e.obligations|] == e.obligations;
    d := Decision(reasons == [], reasons);
  }

  lemma NoObligations(before: seq<Reason>, results: seq<ValidationResult>, waivers: seq<Waiver>, ctx: Context)
    ensures before + ObligationReasons([], results, waivers, ctx) == before
  {
  }

  lemma OneMoreObligation(before: seq<Reason>, obligations: seq<Obligation>, i: nat,
                          results: seq<ValidationResult>, waivers: seq<Waiver>, ctx: Context)
    requires i < |obligations|
    ensures before + ObligationReasons(obligations[..i + 1], results, waivers, ctx) ==
      before + ObligationReasons(obligations[..i], results, waivers, ctx)
      + if obligations[i].required then EvaluateObligation(obligations[i], results, waivers, ctx) else []
  {
    hide EvaluateObligation;
    assert obligations[..i + 1][..i] == obligations[..i] && obligations[..i + 1][i] == obligations[i];
  }

  // -- waiver eligibility, review, READY_TO_COMMIT, authorization ------------

  /** `WaiverEligibilityPolicy.evaluate`. */
  method WaiverEligibility(o: Obligation, result: ValidationResult, cause: Option<Cause>) returns (d: Decision)
    ensures d.passed <==> Eligible(o, result, cause)
    ensures d.passed <==> d.reasons == []
    ensures result.obligationId != o.id ==> d.reasons == [OtherObligation(result.obligationId, o.id)]
    ensures result.obligationId == o.id && result.status == Failed ==> d.reasons == [FailedNeverWaivable]
    ensures result.obligationId == o.id && result.status == Passed ==> d.reasons == [PassedNeedsNoWaiver]
    ensures result.obligationId == o.id && result.status == NotRun && !d.passed ==>
      d.reasons == [if o.nonWaivable then DeclaredNonWaivable(o.id) else NotClassifiedEnvironment(cause)]
  {
    var reasons: seq<Reason> := [];
    if result.obligationId != o.id {
      reasons := reasons + [OtherObligation(result.obligationId, o.id)];
    } else if result.status == Failed {
      reasons := reasons + [FailedNeverWaivable];
    } else if result.status == Passed {
      reasons := reasons + [PassedNeedsNoWaiver];
    } else if o.nonWaivable {
      reasons := reasons + [DeclaredNonWaivable(o.id)];
    } else if cause != Some(Environment) {
      reasons := reasons + [NotClassifiedEnvironment(cause)];
    }
    d := Decision(reasons == [], reasons);
  }

  /** What the specification asks of a waivable result. */
  predicate Eligible(o: Obligation, result: ValidationResult, cause: Option<Cause>) {
    result.obligationId == o.id && result.status == NotRun && !o.nonWaivable && cause == Some(Environment)
  }

  /** `sum(1 for finding in findings if finding.severity is severity)`. */
  function Count(findings: seq<Severity>, severity: Severity): (n: nat)
    ensures n == multiset(findings)[severity]
  {
    if findings == [] then 0
    else
      assert findings == [findings[0]] + findings[1..];
      (if findings[0] == severity then 1 else 0) + Count(findings[1..], severity)
  }

  /** `ReviewGatePolicy.evaluate`. */
  function ReviewGate(review: Review, ctx: Context): (d: Decision)
    ensures d.passed <==> review.context == ctx && Blocker !in review.findings && Important !in review.findings
    ensures d.passed ==> d.reasons == []
    ensures review.context != ctx ==> d.reasons == [ReviewStale]
    ensures review.context == ctx && !d.passed ==>
      d.reasons ==
      [BlockerCount(multiset(review.findings)[Blocker]), ImportantCount(multiset(review.findings)[Important])]
  {
    if !review.context.AppliesTo(ctx) then Decision(false, [ReviewStale])
    else
      var blockers, importants := Count(review.findings, Blocker), Count(review.findings, Important);
      if blockers != 0 || importants != 0 then Decision(false, [BlockerCount(blockers), ImportantCount(importants)])
      else Decision(true, [])
  }

  /** `ReadyToCommitPolicy.evaluate`. */
  method ReadyToCommit(readyForReview: Decision, reviewGate: Decision, integrity: bool, condition: Option<Condition>)
    returns (d: Decision)
    ensures d.passed <==> readyForReview.passed && reviewGate.passed && integrity && condition.None?
    ensures d.passed <==> d.reasons == []
    ensures d.reasons ==
      ConditionReasons(condition)
      + (if readyForReview.passed then [] else [NotReadyForReview] + readyForReview.reasons)
      + (if reviewGate.passed then [] else [ReviewGateUnsatisfied] + reviewGate.reasons)
      + (if integrity then [] else [IntegrityInvalid])
  {
    var reasons: seq<Reason> := [];
    if condition.Some? { reasons := reasons + [UnresolvedCondition(condition.value)]; }
    ghost var one := ConditionReasons(condition);
    assert reasons == one && (one == [] <==> condition.None?);
    hide ConditionReasons;
    if !readyForReview.passed {
      reasons := reasons + [NotReadyForReview];
      reasons := reasons + readyForReview.reasons;
    }
    ghost var two := if readyForReview.passed then [] else [NotReadyForReview] + readyForReview.reasons;
    assert reasons == one + two;
    if !reviewGate.passed {
      reasons := reasons + [ReviewGateUnsatisfied];
      reasons := reasons + reviewGate.reasons;
    }
    ghost var three := if reviewGate.passed then [] else [ReviewGateUnsatisfied] + reviewGate.reasons;
    assert reasons == one + two + three;
    if !integrity { reasons := reasons + [IntegrityInvalid]; }
    d := Decision(reasons == [], reasons);
  }

  /** `CommitAuthorizationPolicy.authorize`. */
  method Authorize(readyToCommit: Decision, readyContext: Context, approvalContext: Option<Context>, ctx: Context)
    returns (d: Decision)
    ensures d.passed <==> readyToCommit.passed && readyContext == ctx && approvalContext == Some(ctx)
    ensures d.passed <==> d.reasons == []
    ensures NotReadyToCommit in d.reasons <==> !readyToCommit.passed
    ensures ReadyToCommitStale in d.reasons <==> readyToCommit.passed && readyContext != ctx
    ensures ApprovalMissing in d.reasons <==> approvalContext.None?
    ensures ApprovalStale in d.reasons <==> approvalContext.Some? && approvalContext.value != ctx
  {
    var reasons: seq<Reason> := [];
    if !readyToCommit.passed {
      reasons := reasons + [NotReadyToCommit];
    } else if !readyContext.AppliesTo(ctx) {
      reasons := reasons + [ReadyToCommitStale];
    }
    if approvalContext.None? {
      reasons := reasons + [ApprovalMissing];
    } else if !approvalContext.value.AppliesTo(ctx) {
      reasons := reasons + [ApprovalStale];
    }
    d := Decision(reasons == [], reasons);
  }
}
