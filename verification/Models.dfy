/** The persisted models Attempt and WorkflowEvent: what `model_dump(mode="json")` yields
    and what `_validate_model` accepts. */
module Models {
  import opened Wrappers
  import opened Json

  datatype Phase =
    | Readiness | Implementation | Validation | Review | Fix | ReReview
    | ReadyToCommit | Commit | Push | CI | Closed | Abandoned

  datatype Condition =
    | SpecRequired | PlanRequired | TasksRequired | FixRequired
    | EnvironmentBlocked | RepositoryMismatch | TaskDependencyUnsatisfied

  datatype NextAction = NextAction(action: string, reason: Option<string>)

  datatype Attempt = Attempt(
    schemaVersion: nat,
    attemptId: string,
    taskId: string,
    phase: Phase,
    condition: Option<Condition>,
    nextAction: Option<NextAction>,
    baselineSha: string,
    candidateId: Option<string>)
  {
    /** What the model's own field constraints demand of every instance. */
    predicate Valid() {
      && schemaVersion >= 1 && attemptId != "" && taskId != "" && baselineSha != ""
      && (nextAction.Some? ==> nextAction.value.action != "")
    }
  }

  datatype Event = Event(
    schemaVersion: nat,
    eventId: string,
    taskId: string,
    attemptId: string,
    eventType: string,
    candidateId: Option<string>,
    payload: map<string, JSON>,
    occurredAt: string)
  {
    ghost predicate Valid() {
      && schemaVersion >= 1 && eventId != "" && taskId != "" && attemptId != "" && eventType != ""
      && WellFormed(Obj(payload))
    }
  }

  /** Why a persisted text is refused. */
  datatype Refusal = InvalidJson | NotAnObject | BadVersion | BadModel

  const CURRENT_SCHEMA_VERSION: nat := 1

  // -- values ---------------------------------------------------------------

  function NatText(n: nat): (r: string)
    ensures r != ""
  {
    (if n < 10 then "" else NatText(n / 10)) + ["0123456789"[n % 10]]
  }

  function PhaseText(p: Phase): string {
    match p
    case Readiness => "readiness"
    case Implementation => "implementation"
    case Validation => "validation"
    case Review => "review"
    case Fix => "fix"
    case ReReview => "re_review"
    case ReadyToCommit => "ready_to_commit"
    case Commit => "commit"
    case Push => "push"
    case CI => "ci"
    case Closed => "closed"
    case Abandoned => "abandoned"
  }

  function PhaseOf(s: string): Option<Phase> {
    if s == "readiness" then Some(Readiness)
    else if s == "implementation" then Some(Implementation)
    else if s == "validation" then Some(Validation)
    else if s == "review" then Some(Review)
    else if s == "fix" then Some(Fix)
    else if s == "re_review" then Some(ReReview)
    else if s == "ready_to_commit" then Some(ReadyToCommit)
    else if s == "commit" then Some(Commit)
    else if s == "push" then Some(Push)
    else if s == "ci" then Some(CI)
    else if s == "closed" then Some(Closed)
    else if s == "abandoned" then Some(Abandoned)
    else None
  }

  function ConditionText(c: Condition): string {
    match c
    case SpecRequired => "spec_required"
    case PlanRequired => "plan_required"
    case TasksRequired => "tasks_required"
    case FixRequired => "fix_required"
    case EnvironmentBlocked => "environment_blocked"
    case RepositoryMismatch => "repository_mismatch"
    case TaskDependencyUnsatisfied => "task_dependency_unsatisfied"
  }

  function ConditionOf(s: string): Option<Condition> {
    if s == "spec_required" then Some(SpecRequired)
    else if s == "plan_required" then Some(PlanRequired)
    else if s == "tasks_required" then Some(TasksRequired)
    else if s == "fix_required" then Some(FixRequired)
    else if s == "environment_blocked" then Some(EnvironmentBlocked)
    else if s == "repository_mismatch" then Some(RepositoryMismatch)
    else if s == "task_dependency_unsatisfied" then Some(TaskDependencyUnsatisfied)
    else None
  }

  // -- dump -----------------------------------------------------------------

  function DumpText(s: Option<string>): JSON {
    if s.Some? then Str(s.value) else Null
  }

  function DumpAction(a: Option<NextAction>): JSON {
    if a.None? then Null
    else Obj(map["action" := Str(a.value.action), "reason" := DumpText(a.value.reason)])
  }

  function DumpCondition(c: Option<Condition>): JSON {
    if c.None? then Null else Str(ConditionText(c.value))
  }

  function DumpAttempt(a: Attempt): JSON {
    Obj(map[
      "schema_version" := Num(NatText(a.schemaVersion)),
      "attempt_id" := Str(a.attemptId),
      "task_id" := Str(a.taskId),
      "phase" := Str(PhaseText(a.phase)),
      "condition" := DumpCondition(a.condition),
      "next_authorized_action" := DumpAction(a.nextAction),
      "baseline_sha" := Str(a.baselineSha),
      "candidate_id" := DumpText(a.candidateId)])
  }

  function DumpEvent(e: Event): JSON {
    Obj(map[
      "schema_version" := Num(NatText(e.schemaVersion)),
      "event_id" := Str(e.eventId),
      "task_id" := Str(e.taskId),
      "attempt_id" := Str(e.attemptId),
      "event_type" := Str(e.eventType),
      "candidate_id" := DumpText(e.candidateId),
      "payload" := Obj(e.payload),
      "occurred_at" := Str(e.occurredAt)])
  }

  // -- validate -------------------------------------------------------------

  function Field(m: map<string, JSON>, key: string): JSON {
    if key in m then m[key] else Null
  }

  /** A required string with at least one character. */
  predicate IsName(j: JSON) { j.Str? && j.s != "" }

  predicate IsOptionalText(j: JSON) { j.Null? || j.Str? }

  function ReadText(j: JSON): Option<string> {
    if j.Str? then Some(j.s) else None
  }

  predicate IsAction(j: JSON) {
    || j.Null?
    || (&& j.Obj? && j.members.Keys <= {"action", "reason"}
        && IsName(Field(j.members, "action")) && IsOptionalText(Field(j.members, "reason")))
  }

  function ReadAction(j: JSON): Option<NextAction>
    requires IsAction(j)
  {
    if j.Null? then None
    else Some(NextAction(j.members["action"].s, ReadText(Field(j.members, "reason"))))
  }

  predicate IsCondition(j: JSON) { j.Null? || (j.Str? && ConditionOf(j.s).Some?) }

  const ATTEMPT_FIELDS: set<string> :=
    {"schema_version", "attempt_id", "task_id", "phase", "condition", "next_authorized_action",
     "baseline_sha", "candidate_id"}

  const EVENT_FIELDS: set<string> :=
    {"schema_version", "event_id", "task_id", "attempt_id", "event_type", "candidate_id", "payload", "occurred_at"}

  /** `_check_schema_version`. */
  predicate HasCurrentVersion(m: map<string, JSON>) {
    Field(m, "schema_version") == Num(NatText(CURRENT_SCHEMA_VERSION))
  }

  function ReadAttempt(m: map<string, JSON>): Result<Attempt, Refusal> {
    if !HasCurrentVersion(m) then Err(BadVersion)
    else if m.Keys <= ATTEMPT_FIELDS
            && IsName(Field(m, "attempt_id")) && IsName(Field(m, "task_id")) && IsName(Field(m, "baseline_sha"))
            && Field(m, "phase").Str? && PhaseOf(Field(m, "phase").s).Some?
            && IsCondition(Field(m, "condition")) && IsAction(Field(m, "next_authorized_action"))
            && IsOptionalText(Field(m, "candidate_id"))
    then
      Ok(Attempt(
        CURRENT_SCHEMA_VERSION,
        m["attempt_id"].s,
        m["task_id"].s,
        PhaseOf(m["phase"].s).value,
        if Field(m, "condition").Str? then ConditionOf(Field(m, "condition").s) else None,
        ReadAction(Field(m, "next_authorized_action")),
        m["baseline_sha"].s,
        ReadText(Field(m, "candidate_id"))))
    else Err(BadModel)
  }

  function ReadEvent(m: map<string, JSON>): Result<Event, Refusal> {
    if !HasCurrentVersion(m) then Err(BadVersion)
    else if m.Keys <= EVENT_FIELDS
            && IsName(Field(m, "event_id")) && IsName(Field(m, "task_id")) && IsName(Field(m, "attempt_id"))
            && IsName(Field(m, "event_type")) && IsOptionalText(Field(m, "candidate_id"))
            && ("payload" in m ==> m["payload"].Obj?)
            && Field(m, "occurred_at").Str?
    then
      Ok(Event(
        CURRENT_SCHEMA_VERSION,
        m["event_id"].s,
        m["task_id"].s,
        m["attempt_id"].s,
        m["event_type"].s,
        ReadText(Field(m, "candidate_id")),
        if "payload" in m then m["payload"].members else map[],
        m["occurred_at"].s))
    else Err(BadModel)
  }

  /** `_parse_json_text`: the object a text holds. */
  function ParseObject(text: string): Result<map<string, JSON>, Refusal> {
    match Loads(text)
    case None => Err(InvalidJson)
    case Some(j) => if j.Obj? then Ok(j.members) else Err(NotAnObject)
  }

  /** `_read_model(path, Attempt)` on the text of the file. */
  function ParseAttempt(text: string): Result<Attempt, Refusal> {
    match ParseObject(text)
    case Err(e) => Err(e)
    case Ok(m) => ReadAttempt(m)
  }

  /** `_parse_model_line(line, WorkflowEvent, ...)`. */
  function ParseEvent(line: string): Result<Event, Refusal> {
    match ParseObject(line)
    case Err(e) => Err(e)
    case Ok(m) => ReadEvent(m)
  }
}

/** Dump and validate are inverse on schema version 1, and only there. */
module ModelProperties {
  import opened Wrappers
  import opened Json
  import opened JsonProperties
  import opened Models

  lemma {:induction false} NatTextIsDigits(n: nat)
    ensures forall c :: c in NatText(n) ==> Digit(c)
    ensures n > 0 ==> NatText(n)[0] != '0'
    ensures n >= 10 ==> |NatText(n)| >= 2
  {
    if n >= 10 { NatTextIsDigits(n / 10); }
  }

  lemma NatTextIsNumber(n: nat)
    ensures IsNumber(NatText(n))
  {
    var s := NatText(n);
    NatTextIsDigits(n);
    assert n == 0 ==> s == "0";
    hide NatText;
    assert IsRun(s) by { forall k | 0 <= k < |s| ensures '0' <= s[k] <= '9' { assert s[k] in s; } }
    WholeIsNumber(s);
  }

  /** The number a digit string stands for. */
  function Decimal(s: string): nat
    requires forall k | 0 <= k < |s| :: Digit(s[k])
  {
    if s == "" then 0
    else
      assert Digit(s[|s| - 1]);
      10 * Decimal(s[..|s| - 1]) + (s[|s| - 1] as int - '0' as int)
  }

  /** `str` of a number is its one decimal numeral without leading zeros. */
  lemma {:induction false} NatTextExactly(s: string, n: nat)
    ensures s == NatText(n) <==>
      s != "" && (forall k | 0 <= k < |s| :: Digit(s[k])) && (s[0] == '0' ==> s == "0") && Decimal(s) == n
    decreases |s| + n
  {
    if s == NatText(n) {
      NatTextIsDecimal(n);
    } else if s != "" && (forall k | 0 <= k < |s| :: Digit(s[k])) && (s[0] == '0' ==> s == "0") && Decimal(s) == n {
      DecimalIsNatText(s);
    }
  }

  lemma {:induction false} NatTextIsDecimal(n: nat)
    ensures var s := NatText(n);
      (forall k | 0 <= k < |s| :: Digit(s[k])) && (s[0] == '0' ==> s == "0") && Decimal(s) == n
  {
    var s := NatText(n);
    assert s[..|s| - 1] == if n < 10 then "" else NatText(n / 10);
    if n >= 10 {
      NatTextIsDecimal(n / 10);
      NatTextIsDigits(n);
    }
  }

  lemma NatTextSnoc(n: nat, digit: nat)
    requires n > 0 && digit < 10
    ensures NatText(10 * n + digit) == NatText(n) + ["0123456789"[digit]]
  {
    var next := 10 * n + digit;
    assert next / 10 == n && next % 10 == digit;
  }

  lemma {:induction false} DecimalIsNatText(s: string)
    requires s != "" && (forall k | 0 <= k < |s| :: Digit(s[k])) && (s[0] == '0' ==> s == "0")
    ensures NatText(Decimal(s)) == s
    decreases |s|
  {
    hide NatText, Decimal;
    var init, c := s[..|s| - 1], s[|s| - 1];
    assert s == init + [c] && Digit(c);
    DecimalSnoc(init, c);
    DigitText(c);
    if init != "" {
      DecimalIsNatText(init);
      NatTextOfDigit(0);
      NatTextSnoc(Decimal(init), c as int - '0' as int);
    }
  }

  lemma DecimalSnoc(s: string, c: char)
    requires Digit(c) && forall k | 0 <= k < |s| :: Digit(s[k])
    ensures (forall k | 0 <= k < |s + [c]| :: Digit((s + [c])[k])) && Decimal("") == 0
    ensures Decimal(s + [c]) == 10 * Decimal(s) + (c as int - '0' as int)
  {
    assert (s + [c])[..|s|] == s;
  }

  lemma DigitText(c: char)
    requires Digit(c)
    ensures var n := c as int - '0' as int; "0123456789"[n] == c && NatText(n) == [c]
  {
    NatTextOfDigit(c as int - '0' as int);
  }

  lemma NatTextOfDigit(n: nat)
    requires n < 10
    ensures NatText(n) == ["0123456789"[n]]
  {
    assert n % 10 == n;
    assert NatText(n) == "" + ["0123456789"[n]];
  }

  lemma NatTextOfOne(n: nat)
    ensures NatText(n) == NatText(1) <==> n == 1
  {
    NatTextIsDigits(n);
    assert NatText(1) == "1";
    if n < 10 { assert NatText(n)[0] == "0123456789"[n]; }
  }

  lemma PhaseRoundTrip(p: Phase)
    ensures PhaseOf(PhaseText(p)) == Some(p)
  {
  }

  lemma ConditionRoundTrip(c: Condition)
    ensures ConditionOf(ConditionText(c)) == Some(c)
  {
  }

  lemma DumpedAttemptIsWellFormed(a: Attempt)
    ensures WellFormed(DumpAttempt(a))
  {
    hide NatText, IsNumber, PhaseText, ConditionText;
    NatTextIsNumber(a.schemaVersion);
    DumpedTextIsWellFormed(a.candidateId);
    if a.nextAction.Some? { DumpedTextIsWellFormed(a.nextAction.value.reason); }
    assert WellFormed(DumpCondition(a.condition));
    assert WellFormed(DumpAction(a.nextAction));
  }

  lemma DumpedTextIsWellFormed(s: Option<string>)
    ensures WellFormed(DumpText(s))
  {
  }

  lemma DumpedEventIsWellFormed(e: Event)
    requires e.Valid()
    ensures WellFormed(DumpEvent(e))
  {
    hide NatText, IsNumber;
    NatTextIsNumber(e.schemaVersion);
    assert WellFormed(DumpText(e.candidateId));
  }

  /** Reading a dumped attempt gives it back when its schema version is the current one, and refuses it otherwise. */
  lemma AttemptRoundTrip(a: Attempt, layout: Layout)
    requires a.Valid()
    ensures ParseAttempt(Text(DumpAttempt(a), layout, 0))
         == if a.schemaVersion == CURRENT_SCHEMA_VERSION then Ok(a) else Err(BadVersion)
  {
    hide NatText, Text, WellFormed, Loads, PhaseText, PhaseOf, ConditionText, ConditionOf;
    DumpedAttemptIsWellFormed(a);
    LoadsInvertsDumps(DumpAttempt(a), layout);
    NatTextOfOne(a.schemaVersion);
    PhaseRoundTrip(a.phase);
    if a.condition.Some? { ConditionRoundTrip(a.condition.value); }
  }

  lemma EventRoundTrip(e: Event)
    requires e.Valid()
    ensures ParseEvent(Dumps(DumpEvent(e)))
         == if e.schemaVersion == CURRENT_SCHEMA_VERSION then Ok(e) else Err(BadVersion)
  {
    hide NatText, Text, WellFormed, Loads;
    DumpedEventIsWellFormed(e);
    LoadsInvertsDumps(DumpEvent(e), Compact);
    NatTextOfOne(e.schemaVersion);
  }

  // -- validation accepts exactly the dumps ---------------------------------

  lemma PhaseExactly(s: string, p: Phase)
    ensures PhaseOf(s) == Some(p) <==> s == PhaseText(p)
  {
  }

  lemma ConditionExactly(s: string, c: Condition)
    ensures ConditionOf(s) == Some(c) <==> s == ConditionText(c)
  {
  }

  /** An action as it is dumped, or without its reason if it has none. */
  ghost predicate StandsForAction(j: JSON, a: Option<NextAction>) {
    || j == DumpAction(a)
    || (a.Some? && a.value.reason.None? && j == Obj(map["action" := Str(a.value.action)]))
  }

  /** The dumped members; those that hold null may be missing. */
  ghost predicate StandsForAttempt(m: map<string, JSON>, a: Attempt) {
    var full := DumpAttempt(a).members;
    && m.Keys <= full.Keys
    && forall key | key in full ::
         if key !in m then full[key] == Null
         else if key == "next_authorized_action" then StandsForAction(m[key], a.nextAction)
         else m[key] == full[key]
  }

  /** The dumped members; those that hold null and an empty payload may be missing. */
  ghost predicate StandsForEvent(m: map<string, JSON>, e: Event) {
    var full := DumpEvent(e).members;
    && m.Keys <= full.Keys
    && forall key | key in full ::
         if key in m then m[key] == full[key]
         else full[key] == Null || (key == "payload" && full[key] == Obj(map[]))
  }

  lemma CurrentVersionIs(m: map<string, JSON>)
    ensures HasCurrentVersion(m) <==> "schema_version" in m && m["schema_version"] == Num("1")
  {
    assert NatText(1) == "1";
  }

  lemma ActionExactly(j: JSON, a: Option<NextAction>)
    ensures IsAction(j) && ReadAction(j) == a
      <==> StandsForAction(j, a) && (a.Some? ==> a.value.action != "")
  {
    if j.Obj? && IsAction(j) {
      var m, short := j.members, map["action" := j.members["action"]];
      if "reason" !in m { assert m == short; }
      if "reason" in m { assert m == map["action" := m["action"], "reason" := m["reason"]]; }
    }
  }

  /** `_validate_model(data, Attempt)` accepts exactly the dumps of valid attempts of the current schema version, with
      or without the members that hold null. */
  lemma ReadAttemptExactly(m: map<string, JSON>, a: Attempt)
    ensures ReadAttempt(m) == Ok(a)
      <==> a.Valid() && a.schemaVersion == CURRENT_SCHEMA_VERSION && StandsForAttempt(m, a)
  {
    if ReadAttempt(m) == Ok(a) { AcceptedAttempt(m, a); }
    if a.Valid() && a.schemaVersion == CURRENT_SCHEMA_VERSION && StandsForAttempt(m, a) { AttemptAccepted(m, a); }
  }

  lemma AcceptedAttempt(m: map<string, JSON>, a: Attempt)
    requires ReadAttempt(m) == Ok(a)
    ensures a.Valid() && a.schemaVersion == CURRENT_SCHEMA_VERSION && StandsForAttempt(m, a)
  {
    hide StandsForAttempt;
    AcceptedFields(m, a);
    hide *;
    FieldsAreAttempt(m, a);
  }

  lemma AcceptedFields(m: map<string, JSON>, a: Attempt)
    requires ReadAttempt(m) == Ok(a)
    ensures a.Valid() && a.schemaVersion == CURRENT_SCHEMA_VERSION && HasAttemptFields(m, a)
  {
    hide PhaseOf, PhaseText, ConditionOf, ConditionText, IsAction, ReadAction, StandsForAction, NatText;
    CurrentVersionIs(m);
    PhaseExactly(m["phase"].s, a.phase);
    ActionExactly(Field(m, "next_authorized_action"), a.nextAction);
    if a.condition.Some? { ConditionExactly(m["condition"].s, a.condition.value); }
  }

  lemma NoActionIsNull(a: Option<NextAction>)
    ensures DumpAction(a) == Null <==> a.None?
    ensures StandsForAction(Null, a) <==> a.None?
  {
  }

  /** A missing member reads like the null that is dumped for it. */
  ghost predicate HasAttemptFields(m: map<string, JSON>, a: Attempt) {
    && m.Keys <= ATTEMPT_FIELDS
    && Field(m, "schema_version") == Num(NatText(a.schemaVersion))
    && Field(m, "attempt_id") == Str(a.attemptId) && Field(m, "task_id") == Str(a.taskId)
    && Field(m, "phase") == Str(PhaseText(a.phase)) && Field(m, "condition") == DumpCondition(a.condition)
    && Field(m, "baseline_sha") == Str(a.baselineSha) && Field(m, "candidate_id") == DumpText(a.candidateId)
    && StandsForAction(Field(m, "next_authorized_action"), a.nextAction)
  }

  lemma AttemptFields(m: map<string, JSON>, a: Attempt)
    requires StandsForAttempt(m, a)
    ensures HasAttemptFields(m, a)
  {
    hide PhaseText, DumpCondition, DumpText, StandsForAction, NatText, DumpAction, DumpAttempt;
    NoActionIsNull(a.nextAction);
    DumpedAttempt(a);
  }

  lemma DumpedAttempt(a: Attempt)
    ensures var full := DumpAttempt(a).members;
      && full.Keys == ATTEMPT_FIELDS
      && full["schema_version"] == Num(NatText(a.schemaVersion))
      && full["attempt_id"] == Str(a.attemptId) && full["task_id"] == Str(a.taskId)
      && full["phase"] == Str(PhaseText(a.phase)) && full["condition"] == DumpCondition(a.condition)
      && full["baseline_sha"] == Str(a.baselineSha) && full["candidate_id"] == DumpText(a.candidateId)
      && full["next_authorized_action"] == DumpAction(a.nextAction)
  {
    hide PhaseText, DumpCondition, DumpText, NatText, DumpAction;
  }

  lemma FieldsAreAttempt(m: map<string, JSON>, a: Attempt)
    requires HasAttemptFields(m, a)
    ensures StandsForAttempt(m, a)
  {
    hide PhaseText, DumpCondition, DumpText, StandsForAction, NatText, DumpAction, DumpAttempt;
    NoActionIsNull(a.nextAction);
    DumpedAttempt(a);
  }

  lemma AttemptAccepted(m: map<string, JSON>, a: Attempt)
    requires a.Valid() && a.schemaVersion == CURRENT_SCHEMA_VERSION && StandsForAttempt(m, a)
    ensures ReadAttempt(m) == Ok(a)
  {
    AttemptFields(m, a);
    hide PhaseOf, PhaseText, ConditionOf, ConditionText, IsAction, ReadAction, StandsForAction, NatText, DumpAction,
      StandsForAttempt, DumpAttempt;
    PhaseExactly(PhaseText(a.phase), a.phase);
    if a.condition.Some? { ConditionExactly(ConditionText(a.condition.value), a.condition.value); }
    ActionExactly(Field(m, "next_authorized_action"), a.nextAction);
  }

  /** Any other version is refused before the rest is looked at. */
  lemma VersionFirst(m: map<string, JSON>)
    ensures ReadAttempt(m) == Err(BadVersion) <==> !("schema_version" in m && m["schema_version"] == Num("1"))
    ensures ReadEvent(m) == Err(BadVersion) <==> !("schema_version" in m && m["schema_version"] == Num("1"))
    ensures ReadAttempt(m).Err? ==> ReadAttempt(m).error in {BadVersion, BadModel}
    ensures ReadEvent(m).Err? ==> ReadEvent(m).error in {BadVersion, BadModel}
  {
    hide PhaseOf, ConditionOf, IsAction, ReadAction, NatText;
    CurrentVersionIs(m);
  }

  /** `_validate_model(data, WorkflowEvent)` accepts exactly the dumps of valid events of the current schema version,
      with or without a null candidate and an empty payload. */
  lemma ReadEventExactly(m: map<string, JSON>, e: Event)
    requires WellFormed(Obj(m))
    ensures ReadEvent(m) == Ok(e)
      <==> e.Valid() && e.schemaVersion == CURRENT_SCHEMA_VERSION && StandsForEvent(m, e)
  {
    if ReadEvent(m) == Ok(e) { AcceptedEvent(m, e); }
    if e.Valid() && e.schemaVersion == CURRENT_SCHEMA_VERSION && StandsForEvent(m, e) { EventAccepted(m, e); }
  }

  lemma AcceptedEvent(m: map<string, JSON>, e: Event)
    requires WellFormed(Obj(m)) && ReadEvent(m) == Ok(e)
    ensures e.Valid() && e.schemaVersion == CURRENT_SCHEMA_VERSION && StandsForEvent(m, e)
  {
    hide StandsForEvent;
    AcceptedEventFields(m, e);
    hide *;
    FieldsAreEvent(m, e);
  }

  lemma AcceptedEventFields(m: map<string, JSON>, e: Event)
    requires WellFormed(Obj(m)) && ReadEvent(m) == Ok(e)
    ensures e.Valid() && e.schemaVersion == CURRENT_SCHEMA_VERSION && HasEventFields(m, e)
  {
    hide NatText, WellFormed;
    CurrentVersionIs(m);
    MemberIsWellFormed(m);
    assert e.payload == if "payload" in m then m["payload"].members else map[];
  }

  lemma MemberIsWellFormed(m: map<string, JSON>)
    requires WellFormed(Obj(m))
    ensures "payload" in m ==> WellFormed(m["payload"])
    ensures WellFormed(Obj(map[]))
  {
    hide IsNumber;
  }

  ghost predicate HasEventFields(m: map<string, JSON>, e: Event) {
    && m.Keys <= EVENT_FIELDS
    && Field(m, "schema_version") == Num(NatText(e.schemaVersion))
    && Field(m, "event_id") == Str(e.eventId) && Field(m, "task_id") == Str(e.taskId)
    && Field(m, "attempt_id") == Str(e.attemptId) && Field(m, "event_type") == Str(e.eventType)
    && Field(m, "candidate_id") == DumpText(e.candidateId) && Field(m, "occurred_at") == Str(e.occurredAt)
    && if "payload" in m then m["payload"] == Obj(e.payload) else e.payload == map[]
  }

  lemma EventFields(m: map<string, JSON>, e: Event)
    requires StandsForEvent(m, e)
    ensures HasEventFields(m, e)
  {
    hide DumpText, NatText, DumpEvent;
    DumpedEvent(e);
  }

  lemma DumpedEvent(e: Event)
    ensures var full := DumpEvent(e).members;
      && full.Keys == EVENT_FIELDS
      && full["schema_version"] == Num(NatText(e.schemaVersion))
      && full["event_id"] == Str(e.eventId) && full["task_id"] == Str(e.taskId)
      && full["attempt_id"] == Str(e.attemptId) && full["event_type"] == Str(e.eventType)
      && full["candidate_id"] == DumpText(e.candidateId) && full["occurred_at"] == Str(e.occurredAt)
      && full["payload"] == Obj(e.payload)
  {
    hide DumpText, NatText;
  }

  lemma FieldsAreEvent(m: map<string, JSON>, e: Event)
    requires HasEventFields(m, e)
    ensures StandsForEvent(m, e)
  {
    hide DumpText, NatText, DumpEvent;
    DumpedEvent(e);
  }

  lemma EventAccepted(m: map<string, JSON>, e: Event)
    requires e.Valid() && e.schemaVersion == CURRENT_SCHEMA_VERSION && StandsForEvent(m, e)
    ensures ReadEvent(m) == Ok(e)
  {
    EventFields(m, e);
    hide NatText, StandsForEvent, DumpEvent, WellFormed;
  }
}
