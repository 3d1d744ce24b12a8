/** What the gates decide, without reference to the order of the evidence. */
module GateProperties {
  import opened Wrappers
  import opened Gates

  type Bag = multiset<ValidationResult>

  // -- the current result, as a property of the bag of results --------------

  /** When a result was completed, or else started. */
  ghost predicate IsTimed(r: ValidationResult, t: int) {
    if r.completedAt.Some? then r.completedAt == Some(t) else r.startedAt == Some(t)
  }

  ghost predicate Earlier(x: ValidationResult, r: ValidationResult) {
    exists t, u :: IsTimed(x, t) && IsTimed(r, u) && t < u
  }

  /** The result is applicable, listed once, and strictly later than every other applicable one. */
  ghost predicate IsCurrent(obligationId: string, bag: Bag, ctx: Context, r: ValidationResult) {
    && Applies(obligationId, ctx, r) && bag[r] == 1
    && forall x | x in bag && Applies(obligationId, ctx, x) && x != r :: Earlier(x, r)
  }

  ghost predicate AnyApplies(obligationId: string, bag: Bag, ctx: Context) {
    exists r :: r in bag && Applies(obligationId, ctx, r)
  }

  lemma {:induction false} KeepCounts<T(!new)>(s: seq<T>, test: T -> bool, x: T)
    ensures multiset(Keep(s, test))[x] == if test(x) then multiset(s)[x] else 0
  {
    if s != [] {
      assert s == [s[0]] + s[1..];
      KeepCounts(s[1..], test, x);
    }
  }

  lemma CurrentIsUnique(obligationId: string, bag: Bag, ctx: Context, r: ValidationResult, r': ValidationResult)
    requires IsCurrent(obligationId, bag, ctx, r) && IsCurrent(obligationId, bag, ctx, r')
    ensures r == r'
  {
  }

  lemma CurrentBeats(obligationId: string, bag: Bag, ctx: Context, r: ValidationResult, x: ValidationResult)
    requires IsCurrent(obligationId, bag, ctx, r) && x in bag && Applies(obligationId, ctx, x)
    ensures x == r || Earlier(x, r)
  {
  }

  lemma TwoOfBag<T>(s: seq<T>, r: T)
    requires |s| >= 2 && multiset(s)[r] == 1
    ensures exists x :: x in s && x != r
  {
    assert s == [s[0]] + ([s[1]] + s[2..]);
    assert multiset(s) == multiset{s[0]} + multiset{s[1]} + multiset(s[2..]);
    assert s[0] in s && s[1] in s;
    assert s[0] != r || s[1] != r;
  }

  /** With two applicable results or more, one without a time leaves none current. */
  lemma UntimedBlocks(obligationId: string, results: seq<ValidationResult>, ctx: Context, r: ValidationResult,
                      x: ValidationResult)
    requires var applicable := Keep(results, y => Applies(obligationId, ctx, y));
      |applicable| >= 2 && x in applicable && x.Time().None?
    ensures !IsCurrent(obligationId, multiset(results), ctx, r)
  {
    var applicable := Keep(results, y => Applies(obligationId, ctx, y));
    assert x in multiset(results);
    KeepCounts(results, y => Applies(obligationId, ctx, y), r);
    if IsCurrent(obligationId, multiset(results), ctx, r) {
      TwoOfBag(applicable, r);
      var y :| y in applicable && y != r;
      hide IsCurrent, Keep;
      CurrentBeats(obligationId, multiset(results), ctx, r, y);
      CurrentBeats(obligationId, multiset(results), ctx, r, x);
    }
  }

  /** Among timed results the current one is the single winner at the latest time. */
  lemma WinnerIsCurrent(obligationId: string, results: seq<ValidationResult>, ctx: Context, r: ValidationResult)
    requires var applicable := Keep(results, y => Applies(obligationId, ctx, y));
      applicable != [] && forall x | x in applicable :: x.Time().Some?
    ensures var applicable := Keep(results, y => Applies(obligationId, ctx, y));
      var latest := Latest(applicable);
      IsCurrent(obligationId, multiset(results), ctx, r) <==>
      Keep(applicable, (y: ValidationResult) => y.Time() == Some(latest)) == [r]
  {
    hide Keep, Latest, Earlier;
    var applicable := Keep(results, y => Applies(obligationId, ctx, y));
    var latest := Latest(applicable);
    var atLatest := (y: ValidationResult) => y.Time() == Some(latest);
    var winners := Keep(applicable, atLatest);
    KeepCounts(results, y => Applies(obligationId, ctx, y), r);
    KeepCounts(applicable, atLatest, r);
    if IsCurrent(obligationId, multiset(results), ctx, r) {
      assert r in multiset(applicable);
      TopIsLatest(obligationId, results, ctx, r, winners);
    }
    if winners == [r] {
      assert multiset(winners)[r] == 1;
      assert r in winners;
      forall x | x in multiset(results) && Applies(obligationId, ctx, x) && x != r ensures Earlier(x, r) {
        assert x in applicable;
        assert x !in winners;
        EarlierThan(x, r);
      }
    }
  }

  lemma EarlierThan(x: ValidationResult, r: ValidationResult)
    ensures Earlier(x, r) <==> x.Time().Some? && r.Time().Some? && x.Time().value < r.Time().value
  {
    if x.Time().Some? && r.Time().Some? {
      assert IsTimed(x, x.Time().value) && IsTimed(r, r.Time().value);
    }
  }

  lemma TopIsLatest(obligationId: string, results: seq<ValidationResult>, ctx: Context, r: ValidationResult,
                    winners: seq<ValidationResult>)
    requires IsCurrent(obligationId, multiset(results), ctx, r)
    requires var applicable := Keep(results, y => Applies(obligationId, ctx, y));
      && r in applicable && (forall x | x in applicable :: x.Time().Some?)
      && (forall x :: x in winners <==> x in applicable && x.Time() == Some(Latest(applicable)))
      && multiset(winners)[r] == if r.Time() == Some(Latest(applicable)) then 1 else 0
    ensures winners == [r]
  {
    hide Keep, Latest, IsCurrent;
    var applicable := Keep(results, y => Applies(obligationId, ctx, y));
    var top :| top in applicable && top.Time() == Some(Latest(applicable));
    assert top in multiset(results);
    CurrentBeats(obligationId, multiset(results), ctx, r, top);
    assert top == r;
    forall x | x in winners ensures x == r {
      assert x in multiset(results);
      CurrentBeats(obligationId, multiset(results), ctx, r, x);
    }
    OnlyOne(winners, r);
  }

  lemma OnlyOne<T>(s: seq<T>, r: T)
    requires multiset(s)[r] == 1 && forall x | x in s :: x == r
    ensures s == [r]
  {
    assert r in multiset(s);
    if |s| >= 2 {
      TwoOfBag(s, r);
    }
  }

  /** Selection is exact: it returns a result when it is the current one of the bag, reports ambiguity when
      something applies but nothing is current, and nothing when nothing applies. */
  lemma CurrentExactly(obligationId: string, results: seq<ValidationResult>, ctx: Context)
    ensures var l := LatestApplicable(obligationId, results, ctx); var bag := multiset(results);
      && (forall r :: l.result == Some(r) <==> IsCurrent(obligationId, bag, ctx, r))
      && (l.ambiguous <==> AnyApplies(obligationId, bag, ctx) && forall r :: !IsCurrent(obligationId, bag, ctx, r))
  {
    hide Keep, Latest, IsCurrent;
    var l, bag := LatestApplicable(obligationId, results, ctx), multiset(results);
    var applicable := Keep(results, r => Applies(obligationId, ctx, r));
    assert AnyApplies(obligationId, bag, ctx) <==> applicable != [] by {
      if applicable != [] { assert applicable[0] in applicable && applicable[0] in bag; }
      if AnyApplies(obligationId, bag, ctx) {
        var r :| r in bag && Applies(obligationId, ctx, r);
        assert r in applicable;
      }
    }
    forall r ensures l.result == Some(r) <==> IsCurrent(obligationId, bag, ctx, r) {
      if |applicable| == 0 {
        if IsCurrent(obligationId, bag, ctx, r) { CurrentApplies(obligationId, bag, ctx, r); }
      } else if |applicable| == 1 {
        OneApplicable(obligationId, results, ctx, r);
      } else if x :| x in applicable && x.Time().None? {
        UntimedBlocks(obligationId, results, ctx, r, x);
      } else {
        WinnerIsCurrent(obligationId, results, ctx, r);
      }
    }
  }

  lemma OneApplicable(obligationId: string, results: seq<ValidationResult>, ctx: Context, r: ValidationResult)
    requires var applicable := Keep(results, y => Applies(obligationId, ctx, y)); |applicable| == 1
    ensures var applicable := Keep(results, y => Applies(obligationId, ctx, y));
      IsCurrent(obligationId, multiset(results), ctx, r) <==> applicable[0] == r
  {
    hide Keep;
    var applicable := Keep(results, y => Applies(obligationId, ctx, y));
    KeepCounts(results, y => Applies(obligationId, ctx, y), r);
    assert applicable == [applicable[0]];
    assert applicable[0] in applicable;
    forall x | x in multiset(results) && Applies(obligationId, ctx, x) ensures x == applicable[0] {
      assert x in results && x in applicable;
    }
  }

  // -- one obligation -------------------------------------------------------

  ghost predicate Granted(waivers: set<Waiver>, obligationId: string, resultId: string, ctx: Context) {
    exists w :: w in waivers && Grants(w, obligationId, resultId, ctx)
  }

  /** What a required obligation needs: its current result passed, or did not run and is waived. */
  ghost predicate Met(o: Obligation, bag: Bag, waivers: set<Waiver>, ctx: Context) {
    exists r :: IsCurrent(o.id, bag, ctx, r) && Settled(o, r, waivers, ctx)
  }

  ghost predicate Settled(o: Obligation, r: ValidationResult, waivers: set<Waiver>, ctx: Context) {
    r.status == Passed || (r.status == NotRun && !o.nonWaivable && Granted(waivers, o.id, r.id, ctx))
  }

  function SetOf<T>(s: seq<T>): set<T> { set x | x in s }

  lemma {:induction false} WaiverFound(obligationId: string, resultId: string, waivers: seq<Waiver>, ctx: Context)
    ensures ApplicableWaiver(obligationId, resultId, waivers, ctx).Some?
      <==> Granted(SetOf(waivers), obligationId, resultId, ctx)
  {
    if waivers != [] {
      WaiverFound(obligationId, resultId, waivers[1..], ctx);
      assert forall w :: w in waivers <==> w == waivers[0] || w in waivers[1..];
      assert forall w :: w in SetOf(waivers) <==> w == waivers[0] || w in SetOf(waivers[1..]);
    }
  }

  lemma MetExactly(o: Obligation, results: seq<ValidationResult>, waivers: seq<Waiver>, ctx: Context)
    ensures EvaluateObligation(o, results, waivers, ctx) == [] <==> Met(o, multiset(results), SetOf(waivers), ctx)
  {
    hide LatestApplicable, ApplicableWaiver, IsCurrent, Granted, AnyApplies;
    CurrentExactly(o.id, results, ctx);
    var l := LatestApplicable(o.id, results, ctx);
    if l.result.Some? { WaiverFound(o.id, l.result.value.id, waivers, ctx); }
  }

  /** The one reason an obligation gives names what is wrong with its evidence. */
  lemma ReasonIsTheCause(o: Obligation, results: seq<ValidationResult>, waivers: seq<Waiver>, ctx: Context)
    ensures var reasons := EvaluateObligation(o, results, waivers, ctx); var bag := multiset(results);
      && |reasons| <= 1
      && (NoResult(o.id) in reasons <==> !AnyApplies(o.id, bag, ctx))
      && (AmbiguousResults(o.id) in reasons <==>
            AnyApplies(o.id, bag, ctx) && forall r :: !IsCurrent(o.id, bag, ctx, r))
      && (ObligationFailed(o.id) in reasons <==> exists r :: IsCurrent(o.id, bag, ctx, r) && r.status == Failed)
      && (NotRunNonWaivable(o.id) in reasons <==>
            o.nonWaivable && exists r :: IsCurrent(o.id, bag, ctx, r) && r.status == NotRun)
      && (NotRunUnwaived(o.id) in reasons <==>
            !o.nonWaivable && exists r :: IsCurrent(o.id, bag, ctx, r) && r.status == NotRun
                                          && !Granted(SetOf(waivers), o.id, r.id, ctx))
  {
    hide LatestApplicable, ApplicableWaiver, IsCurrent, Granted, AnyApplies;
    CurrentExactly(o.id, results, ctx);
    var l := LatestApplicable(o.id, results, ctx);
    if l.result.Some? {
      CurrentApplies(o.id, multiset(results), ctx, l.result.value);
      CurrentIsThere(o.id, multiset(results), ctx, l.result.value);
      WaiverFound(o.id, l.result.value.id, waivers, ctx);
    }
  }

  lemma CurrentIsThere(obligationId: string, bag: Bag, ctx: Context, r: ValidationResult)
    requires IsCurrent(obligationId, bag, ctx, r)
    ensures AnyApplies(obligationId, bag, ctx)
  {
    assert r in bag;
  }

  // -- READY_FOR_REVIEW -----------------------------------------------------

  ghost predicate AllMet(obligations: set<Obligation>, bag: Bag, waivers: set<Waiver>, ctx: Context) {
    forall o | o in obligations && o.required :: Met(o, bag, waivers, ctx)
  }

  lemma SetOfNone()
    ensures SetOf<Obligation>([]) == {}
  {
  }

  lemma SetOfSnoc(s: seq<Obligation>, o: Obligation)
    ensures SetOf(s + [o]) == SetOf(s) + {o}
  {
  }

  lemma {:induction false} NoReasonsExactly(
      obligations: seq<Obligation>, results: seq<ValidationResult>, waivers: seq<Waiver>, ctx: Context)
    ensures ObligationReasons(obligations, results, waivers, ctx) == []
      <==> AllMet(SetOf(obligations), multiset(results), SetOf(waivers), ctx)
  {
    hide EvaluateObligation, Met, SetOf;
    if obligations == [] {
      assert SetOf<Obligation>([]) == {} by { SetOfNone(); }
    } else {
      var init, last := obligations[..|obligations| - 1], obligations[|obligations| - 1];
      NoReasonsExactly(init, results, waivers, ctx);
      MetExactly(last, results, waivers, ctx);
      assert obligations == init + [last];
      SetOfSnoc(init, last);
    }
  }

  /** The gate opens exactly when nothing blocks, the implementation is reported complete for this very context,
      and every required obligation is met. The obligations and waivers count as sets, the results as a bag. */
  lemma ReadyExactly(e: Evidence, ctx: Context)
    ensures ReviewReadiness(e, ctx).passed <==>
      && e.condition == None
      && e.report == Some(ImplementationReport(ctx, Completed))
      && AllMet(SetOf(e.obligations), multiset(e.results), SetOf(e.waivers), ctx)
  {
    hide ObligationReasons, AllMet;
    NoReasonsExactly(e.obligations, e.results, e.waivers, ctx);
  }

  lemma {:induction false} ReasonsOfObligations(
      obligations: seq<Obligation>, results: seq<ValidationResult>, waivers: seq<Waiver>, ctx: Context, r: Reason)
    ensures r in ObligationReasons(obligations, results, waivers, ctx) <==>
      exists o :: o in obligations && o.required && r in EvaluateObligation(o, results, waivers, ctx)
  {
    hide EvaluateObligation;
    if obligations != [] {
      var init, last := obligations[..|obligations| - 1], obligations[|obligations| - 1];
      ReasonsOfObligations(init, results, waivers, ctx, r);
      assert obligations == init + [last];
    }
  }

  predicate IsOfObligation(r: Reason) {
    r.AmbiguousResults? || r.NoResult? || r.ObligationFailed? || r.NotRunNonWaivable? || r.NotRunUnwaived?
  }

  lemma ObligationsGiveTheirOwn(o: Obligation, results: seq<ValidationResult>, waivers: seq<Waiver>, ctx: Context)
    ensures forall r | r in EvaluateObligation(o, results, waivers, ctx) :: IsOfObligation(r)
  {
    hide LatestApplicable, ApplicableWaiver;
  }

  /** Every reason of the gate is given exactly when its cause holds: the condition, the report, or a required
      obligation that gives it. */
  lemma ReadyReasonsExactly(e: Evidence, ctx: Context, r: Reason)
    ensures r in ReviewReadiness(e, ctx).reasons <==>
      match r
      case UnresolvedCondition(c) => e.condition == Some(c)
      case NoReport => e.report.None?
      case ReportStale => e.report.Some? && e.report.value.context != ctx
      case NotCompleted(c) => e.report == Some(ImplementationReport(ctx, c)) && c != Completed
      case _ => exists o :: o in e.obligations && o.required && r in EvaluateObligation(o, e.results, e.waivers, ctx)
  {
    hide ObligationReasons, EvaluateObligation;
    ReasonsOfObligations(e.obligations, e.results, e.waivers, ctx, r);
    if r in ObligationReasons(e.obligations, e.results, e.waivers, ctx) {
      var o :| o in e.obligations && o.required && r in EvaluateObligation(o, e.results, e.waivers, ctx);
      ObligationsGiveTheirOwn(o, e.results, e.waivers, ctx);
    }
  }

  // -- order and irrelevant evidence ----------------------------------------

  ghost predicate SameResultsFor(obligationId: string, ctx: Context, bag: Bag, bag': Bag) {
    forall r | Applies(obligationId, ctx, r) :: bag[r] == bag'[r]
  }

  ghost predicate SameWaiversFor(obligationId: string, ctx: Context, waivers: set<Waiver>, waivers': set<Waiver>) {
    forall w: Waiver | w.obligationId == obligationId && w.context == ctx :: w in waivers <==> w in waivers'
  }

  lemma CurrentOfSame(obligationId: string, ctx: Context, bag: Bag, bag': Bag, r: ValidationResult)
    requires SameResultsFor(obligationId, ctx, bag, bag')
    ensures IsCurrent(obligationId, bag, ctx, r) <==> IsCurrent(obligationId, bag', ctx, r)
    ensures AnyApplies(obligationId, bag, ctx) <==> AnyApplies(obligationId, bag', ctx)
  {
    forall x | Applies(obligationId, ctx, x) ensures x in bag <==> x in bag' { }
  }

  lemma SameLookup(obligationId: string, ctx: Context, results: seq<ValidationResult>, results': seq<ValidationResult>)
    requires SameResultsFor(obligationId, ctx, multiset(results), multiset(results'))
    ensures LatestApplicable(obligationId, results, ctx) == LatestApplicable(obligationId, results', ctx)
  {
    hide LatestApplicable, IsCurrent, AnyApplies, SameResultsFor;
    CurrentExactly(obligationId, results, ctx);
    CurrentExactly(obligationId, results', ctx);
    forall r { CurrentOfSame(obligationId, ctx, multiset(results), multiset(results'), r); }
    var l, l' := LatestApplicable(obligationId, results, ctx), LatestApplicable(obligationId, results', ctx);
    if l.result.Some? { assert l'.result == Some(l.result.value); }
    if l'.result.Some? { assert l.result == Some(l'.result.value); }
    assert l.ambiguous == l'.ambiguous by {
      var any := ValidationResult("", "", ctx, Passed, None, None);
      CurrentOfSame(obligationId, ctx, multiset(results), multiset(results'), any);
    }
  }

  lemma SameReasons(o: Obligation, ctx: Context, results: seq<ValidationResult>, results': seq<ValidationResult>,
                    waivers: seq<Waiver>, waivers': seq<Waiver>)
    requires SameResultsFor(o.id, ctx, multiset(results), multiset(results'))
    requires SameWaiversFor(o.id, ctx, SetOf(waivers), SetOf(waivers'))
    ensures EvaluateObligation(o, results, waivers, ctx) == EvaluateObligation(o, results', waivers', ctx)
  {
    hide LatestApplicable, SameResultsFor, ApplicableWaiver;
    SameLookup(o.id, ctx, results, results');
    var l := LatestApplicable(o.id, results, ctx);
    if l.result.Some? {
      WaiverFound(o.id, l.result.value.id, waivers, ctx);
      WaiverFound(o.id, l.result.value.id, waivers', ctx);
    }
  }

  ghost predicate SameEvidenceFor(obligations: seq<Obligation>, ctx: Context, e: Evidence, e': Evidence) {
    forall o | o in obligations && o.required ::
      && SameResultsFor(o.id, ctx, multiset(e.results), multiset(e'.results))
      && SameWaiversFor(o.id, ctx, SetOf(e.waivers), SetOf(e'.waivers))
  }

  lemma {:induction false} SameObligationReasons(obligations: seq<Obligation>, ctx: Context, e: Evidence, e': Evidence)
    requires SameEvidenceFor(obligations, ctx, e, e')
    ensures ObligationReasons(obligations, e.results, e.waivers, ctx)
      == ObligationReasons(obligations, e'.results, e'.waivers, ctx)
  {
    hide EvaluateObligation, SameResultsFor, SameWaiversFor;
    if obligations != [] {
      SameObligationReasons(obligations[..|obligations| - 1], ctx, e, e');
      var last := obligations[|obligations| - 1];
      if last.required { SameReasons(last, ctx, e.results, e'.results, e.waivers, e'.waivers); }
    }
  }

  /** Evidence that agrees on the required obligations in this context gives the same decision with the same
      reasons: any order, and with any evidence of other contexts or obligations added or removed. */
  lemma OnlyApplicableEvidenceMatters(e: Evidence, e': Evidence, ctx: Context)
    requires e.report == e'.report && e.condition == e'.condition && e.obligations == e'.obligations
    requires SameEvidenceFor(e.obligations, ctx, e, e')
    ensures ReviewReadiness(e, ctx) == ReviewReadiness(e', ctx)
  {
    hide ObligationReasons, SameEvidenceFor;
    SameObligationReasons(e.obligations, ctx, e, e');
  }

  /** Permuting results and waivers changes nothing. */
  lemma OrderOfEvidence(e: Evidence, results: seq<ValidationResult>, waivers: seq<Waiver>, ctx: Context)
    requires multiset(results) == multiset(e.results) && multiset(waivers) == multiset(e.waivers)
    ensures ReviewReadiness(e.(results := results, waivers := waivers), ctx) == ReviewReadiness(e, ctx)
  {
    hide ReviewReadiness;
    forall w ensures w in waivers <==> w in e.waivers { assert w in waivers <==> w in multiset(waivers); }
    OnlyApplicableEvidenceMatters(e, e.(results := results, waivers := waivers), ctx);
  }

  /** Evidence of another context, or of an obligation that is not required, changes nothing wherever it is put. */
  lemma IrrelevantEvidence(e: Evidence, ctx: Context, i: nat, r: ValidationResult, j: nat, w: Waiver)
    requires i <= |e.results| && j <= |e.waivers|
    requires r.context != ctx || forall o | o in e.obligations && o.required :: o.id != r.obligationId
    requires w.context != ctx || forall o | o in e.obligations && o.required :: o.id != w.obligationId
    ensures ReviewReadiness(e.(results := e.results[..i] + [r] + e.results[i..],
                               waivers := e.waivers[..j] + [w] + e.waivers[j..]), ctx)
      == ReviewReadiness(e, ctx)
  {
    hide ReviewReadiness;
    var e' := e.(results := e.results[..i] + [r] + e.results[i..], waivers := e.waivers[..j] + [w] + e.waivers[j..]);
    assert e.results == e.results[..i] + e.results[i..];
    assert multiset(e'.results) == multiset(e.results) + multiset{r};
    assert e.waivers == e.waivers[..j] + e.waivers[j..];
    assert forall x :: x in e'.waivers <==> x == w || x in e.waivers;
    OnlyApplicableEvidenceMatters(e, e', ctx);
  }

  function ReasonsFor(o: Obligation, results: seq<ValidationResult>, waivers: seq<Waiver>, ctx: Context): seq<Reason> {
    if o.required then EvaluateObligation(o, results, waivers, ctx) else []
  }

  lemma ReasonsSnoc(obligations: seq<Obligation>, o: Obligation,
                    results: seq<ValidationResult>, waivers: seq<Waiver>, ctx: Context)
    ensures multiset(ObligationReasons(obligations + [o], results, waivers, ctx))
      == multiset(ObligationReasons(obligations, results, waivers, ctx))
         + multiset(ReasonsFor(o, results, waivers, ctx))
  {
    hide EvaluateObligation;
    assert (obligations + [o])[..|obligations|] == obligations;
  }

  lemma {:induction false} ReasonsAsBag(
      obligations: seq<Obligation>, x: Obligation, i: nat,
      results: seq<ValidationResult>, waivers: seq<Waiver>, ctx: Context)
    requires i < |obligations| && obligations[i] == x
    ensures multiset(ObligationReasons(obligations, results, waivers, ctx))
      == multiset(ObligationReasons(obligations[..i] + obligations[i + 1..], results, waivers, ctx))
         + multiset(ReasonsFor(x, results, waivers, ctx))
  {
    hide ObligationReasons, ReasonsFor;
    var n := |obligations|;
    var init, last := obligations[..n - 1], obligations[n - 1];
    assert obligations == init + [last];
    ReasonsSnoc(init, last, results, waivers, ctx);
    if i == n - 1 {
      assert obligations[..i] + obligations[i + 1..] == init;
    } else {
      ReasonsAsBag(init, x, i, results, waivers, ctx);
      var without := init[..i] + init[i + 1..];
      assert obligations[..i] + obligations[i + 1..] == without + [last];
      ReasonsSnoc(without, last, results, waivers, ctx);
    }
  }

  lemma RemoveOne(s: seq<Obligation>, i: nat)
    requires i < |s|
    ensures var rest := s[..i] + s[i + 1..]; multiset(rest) == multiset(s) - multiset{s[i]} && |rest| == |s| - 1
  {
    assert s == s[..i] + [s[i]] + s[i + 1..];
  }

  lemma ThereToo(s: seq<Obligation>, t: seq<Obligation>, x: Obligation) returns (i: nat)
    requires multiset(s) == multiset(t) && x in s
    ensures i < |t| && t[i] == x
  {
    assert x in multiset(t);
    i :| i < |t| && t[i] == x;
  }

  lemma {:induction false} ObligationsAsBag(
      obligations: seq<Obligation>, obligations': seq<Obligation>,
      results: seq<ValidationResult>, waivers: seq<Waiver>, ctx: Context)
    requires multiset(obligations) == multiset(obligations')
    ensures multiset(ObligationReasons(obligations, results, waivers, ctx))
      == multiset(ObligationReasons(obligations', results, waivers, ctx))
    decreases |obligations|
  {
    hide ObligationReasons, ReasonsFor;
    assert |obligations| == |multiset(obligations)| == |obligations'|;
    if obligations != [] {
      var x := obligations[0];
      var i := ThereToo(obligations, obligations', x);
      var rest, rest' := obligations[..0] + obligations[1..], obligations'[..i] + obligations'[i + 1..];
      assert multiset(rest) == multiset(rest') && |rest| < |obligations| by {
        RemoveOne(obligations, 0);
        RemoveOne(obligations', i);
      }
      ObligationsAsBag(rest, rest', results, waivers, ctx);
      ReasonsAsBag(obligations, x, 0, results, waivers, ctx);
      ReasonsAsBag(obligations', x, i, results, waivers, ctx);
    } else {
      assert obligations == obligations';
    }
  }

  /** Permuting obligations keeps the decision, and the reasons as a bag. */
  lemma OrderOfObligations(e: Evidence, obligations: seq<Obligation>, ctx: Context)
    requires multiset(obligations) == multiset(e.obligations)
    ensures var d, d' := ReviewReadiness(e, ctx), ReviewReadiness(e.(obligations := obligations), ctx);
      d.passed == d'.passed && multiset(d.reasons) == multiset(d'.reasons)
  {
    hide ObligationReasons, ReportReasons, ConditionReasons;
    var d, d' := ReviewReadiness(e, ctx), ReviewReadiness(e.(obligations := obligations), ctx);
    ObligationsAsBag(e.obligations, obligations, e.results, e.waivers, ctx);
    assert multiset(d.reasons) == multiset(d'.reasons);
    assert |d.reasons| == |multiset(d.reasons)| == |d'.reasons|;
  }

  // -- failures and waivers -------------------------------------------------

  /** A strictly later FAILED result blocks the gate, whatever waivers there are. */
  lemma LaterFailureBlocks(e: Evidence, ctx: Context, o: Obligation, failed: ValidationResult,
                           results: seq<ValidationResult>)
    requires o in e.obligations && o.required
    requires Applies(o.id, ctx, failed) && failed.status == Failed
    requires forall r | r in e.results && Applies(o.id, ctx, r) :: Earlier(r, failed)
    requires multiset(results) == multiset(e.results) + multiset{failed}
    ensures forall waivers :: !ReviewReadiness(e.(results := results, waivers := waivers), ctx).passed
  {
    hide ReviewReadiness, Settled;
    var bag := multiset(results);
    assert IsCurrent(o.id, bag, ctx, failed) by {
      NotBeforeItself(failed);
      forall x | x in bag && Applies(o.id, ctx, x) && x != failed ensures Earlier(x, failed) {
        assert x in multiset(e.results);
      }
    }
    forall waivers ensures !ReviewReadiness(e.(results := results, waivers := waivers), ctx).passed {
      ReadyExactly(e.(results := results, waivers := waivers), ctx);
      FailedIsUnmet(o, bag, SetOf(waivers), ctx, failed);
      assert o in SetOf(e.obligations);
    }
  }

  lemma NotBeforeItself(r: ValidationResult)
    ensures !Earlier(r, r)
  {
  }

  lemma FailedIsUnmet(o: Obligation, bag: Bag, waivers: set<Waiver>, ctx: Context, failed: ValidationResult)
    requires IsCurrent(o.id, bag, ctx, failed) && failed.status == Failed
    ensures !Met(o, bag, waivers, ctx)
  {
    hide IsCurrent;
    forall r | IsCurrent(o.id, bag, ctx, r) ensures !Settled(o, r, waivers, ctx) {
      CurrentIsUnique(o.id, bag, ctx, r, failed);
    }
  }

  /** Once the current result of a required obligation is FAILED, the only new result that opens the gate again is
      an applicable one with a strictly later time. */
  lemma FailureIsSticky(e: Evidence, ctx: Context, o: Obligation, failed: ValidationResult, added: ValidationResult,
                        results: seq<ValidationResult>, waivers: seq<Waiver>)
    requires o in e.obligations && o.required
    requires IsCurrent(o.id, multiset(e.results), ctx, failed) && failed.status == Failed
    requires multiset(results) == multiset(e.results) + multiset{added}
    requires ReviewReadiness(e.(results := results, waivers := waivers), ctx).passed
    ensures Applies(o.id, ctx, added) && Earlier(failed, added)
  {
    hide ReviewReadiness, Settled;
    var bag := multiset(results);
    ReadyExactly(e.(results := results, waivers := waivers), ctx);
    assert o in SetOf(e.obligations);
    var r :| IsCurrent(o.id, bag, ctx, r) && Settled(o, r, SetOf(waivers), ctx);
    SettledNotFailed(o, r, SetOf(waivers), ctx);
    CurrentApplies(o.id, multiset(e.results), ctx, failed);
    CurrentApplies(o.id, bag, ctx, r);
    hide IsCurrent;
    CurrentBeats(o.id, bag, ctx, r, failed);
    if r in multiset(e.results) { CurrentBeats(o.id, multiset(e.results), ctx, failed, r); }
    assert r == added;
  }

  lemma SettledNotFailed(o: Obligation, r: ValidationResult, waivers: set<Waiver>, ctx: Context)
    requires Settled(o, r, waivers, ctx)
    ensures r.status != Failed
  {
  }

  /** Granting more waivers never closes an open gate. */
  lemma WaiversNeverRevoke(e: Evidence, ctx: Context, waivers: seq<Waiver>)
    requires SetOf(e.waivers) <= SetOf(waivers)
    requires ReviewReadiness(e, ctx).passed
    ensures ReviewReadiness(e.(waivers := waivers), ctx).passed
  {
    hide ReviewReadiness, IsCurrent;
    ReadyExactly(e, ctx);
    ReadyExactly(e.(waivers := waivers), ctx);
    forall o | o in SetOf(e.obligations) && o.required ensures Met(o, multiset(e.results), SetOf(waivers), ctx) {
      assert Met(o, multiset(e.results), SetOf(e.waivers), ctx);
      var r :| IsCurrent(o.id, multiset(e.results), ctx, r) && Settled(o, r, SetOf(e.waivers), ctx);
      assert Settled(o, r, SetOf(waivers), ctx);
    }
  }

  /** Waivers make a difference to an obligation exactly when its current result is eligible for one under the
      ENVIRONMENT cause: the gate and the eligibility policy agree. */
  lemma WaiversMatterExactly(o: Obligation, results: seq<ValidationResult>, ctx: Context)
    ensures
      (exists waivers, waivers' ::
         EvaluateObligation(o, results, waivers, ctx) == [] && EvaluateObligation(o, results, waivers', ctx) != [])
      <==> exists r :: IsCurrent(o.id, multiset(results), ctx, r) && Eligible(o, r, Some(Environment))
  {
    hide EvaluateObligation, IsCurrent;
    var bag := multiset(results);
    if waivers, waivers' :|
      EvaluateObligation(o, results, waivers, ctx) == [] && EvaluateObligation(o, results, waivers', ctx) != []
    {
      MetExactly(o, results, waivers, ctx);
      MetExactly(o, results, waivers', ctx);
      var r :| IsCurrent(o.id, bag, ctx, r) && Settled(o, r, SetOf(waivers), ctx);
      assert !Settled(o, r, SetOf(waivers'), ctx);
      CurrentApplies(o.id, bag, ctx, r);
      assert Eligible(o, r, Some(Environment));
    }
    if r :| IsCurrent(o.id, bag, ctx, r) && Eligible(o, r, Some(Environment)) {
      var w := Waiver("", o.id, ctx, r.id);
      MetExactly(o, results, [w], ctx);
      MetExactly(o, results, [], ctx);
      assert w in SetOf([w]) && Grants(w, o.id, r.id, ctx);
      assert Settled(o, r, SetOf([w]), ctx);
      forall x | IsCurrent(o.id, bag, ctx, x) ensures !Settled(o, x, SetOf([]), ctx) {
        CurrentIsUnique(o.id, bag, ctx, x, r);
      }
      assert EvaluateObligation(o, results, [w], ctx) == [] && EvaluateObligation(o, results, [], ctx) != [];
    }
  }

  lemma CurrentApplies(obligationId: string, bag: Bag, ctx: Context, r: ValidationResult)
    requires IsCurrent(obligationId, bag, ctx, r)
    ensures Applies(obligationId, ctx, r) && r in bag
  {
  }

  // -- the whole chain ------------------------------------------------------

  /** Everything a commit rests on. */
  datatype Proof = Proof(evidence: Evidence, review: Review, integrity: bool, condition: Option<Condition>)

  /** What must hold of the evidence for a commit in a context. */
  ghost predicate MayCommit(p: Proof, ctx: Context) {
    && p.evidence.condition == None && p.condition == None && p.integrity
    && p.evidence.report == Some(ImplementationReport(ctx, Completed))
    && AllMet(SetOf(p.evidence.obligations), multiset(p.evidence.results), SetOf(p.evidence.waivers), ctx)
    && p.review.context == ctx
    && forall f | f in p.review.findings :: f == Minor
  }

  lemma ReviewExactly(review: Review, ctx: Context)
    ensures ReviewGate(review, ctx).passed <==> review.context == ctx && forall f | f in review.findings :: f == Minor
  {
    if f :| f in review.findings && f != Minor { assert f == Blocker || f == Important; }
  }

  /** The chain as its caller runs it: the two review decisions and READY_TO_COMMIT in one context, the
      authorization in the context that is current when the human has approved. A commit is authorized exactly when
      both are one context, the approval is for it, and all the evidence stands for it. */
  method AuthorizeCommit(p: Proof, readyContext: Context, approval: Option<Context>, ctx: Context)
    returns (d: Decision)
    ensures d.passed <==> readyContext == ctx && approval == Some(ctx) && MayCommit(p, ctx)
  {
    hide ReviewReadiness, ReviewGate, AllMet;
    var readyForReview := ReadyForReview(p.evidence, readyContext);
    var reviewGate := ReviewGate(p.review, readyContext);
    var readyToCommit := ReadyToCommit(readyForReview, reviewGate, p.integrity, p.condition);
    d := Authorize(readyToCommit, readyContext, approval, ctx);
    ReadyExactly(p.evidence, readyContext);
    ReviewExactly(p.review, readyContext);
  }

  /** Fixed evidence authorizes commits in at most one context, whatever contexts and approvals the chain is run
      with. */
  method AuthorizeTwice(
      p: Proof, readyContext: Context, approval: Option<Context>, ctx: Context,
      readyContext': Context, approval': Option<Context>, ctx': Context)
    returns (d: Decision, d': Decision)
    ensures d.passed && d'.passed ==> ctx == ctx'
    ensures d.passed ==> (d'.passed <==> readyContext' == ctx' == ctx && approval' == Some(ctx))
  {
    hide MayCommit;
    d := AuthorizeCommit(p, readyContext, approval, ctx);
    d' := AuthorizeCommit(p, readyContext', approval', ctx');
    if d.passed && d'.passed { OneContext(p, ctx, ctx'); }
  }

  lemma OneContext(p: Proof, ctx: Context, ctx': Context)
    requires MayCommit(p, ctx) && MayCommit(p, ctx')
    ensures ctx == ctx'
  {
    hide AllMet;
  }

  /** Behind an authorized commit, every required obligation has a current result of the current context that
      passed, or one that did not run, was eligible under ENVIRONMENT, and has a waiver for that very result. */
  lemma DecidingEvidence(p: Proof, ctx: Context, o: Obligation) returns (r: ValidationResult)
    requires MayCommit(p, ctx) && o in p.evidence.obligations && o.required
    ensures IsCurrent(o.id, multiset(p.evidence.results), ctx, r) && r in p.evidence.results && r.context == ctx
    ensures r.status == Passed ||
      (Eligible(o, r, Some(Environment))
       && exists w :: w in p.evidence.waivers && w.context == ctx && w.obligationId == o.id && w.resultId == r.id)
  {
    hide IsCurrent;
    assert o in SetOf(p.evidence.obligations);
    assert Met(o, multiset(p.evidence.results), SetOf(p.evidence.waivers), ctx);
    r :| IsCurrent(o.id, multiset(p.evidence.results), ctx, r) && Settled(o, r, SetOf(p.evidence.waivers), ctx);
    CurrentApplies(o.id, multiset(p.evidence.results), ctx, r);
    if r.status != Passed {
      var w :| w in SetOf(p.evidence.waivers) && Grants(w, o.id, r.id, ctx);
      assert w in p.evidence.waivers && w.context == ctx;
    }
  }
}
