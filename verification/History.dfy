/** What a store holds after any run of calls, told from the calls alone. */
module History {
  import opened Wrappers
  import opened Json
  import opened JsonProperties
  import opened Models
  import opened ModelProperties
  import opened Journal
  import opened JournalProperties
  import opened Paths
  import opened Store
  import opened LocalStore

  ghost predicate Instances(calls: seq<Call>) {
    forall k | 0 <= k < |calls| :: calls[k].Instance()
  }

  function Init(calls: seq<Call>): seq<Call>
    requires calls != []
  {
    calls[..|calls| - 1]
  }

  function Last(calls: seq<Call>): Call
    requires calls != []
  {
    calls[|calls| - 1]
  }

  /** One more call after any run: it is refused for its first bad identifier, for a secret in its data or because its
      document is there, and then changes nothing; every other call stores exactly its document or event. */
  lemma RunOneMore(cfg: Config, calls: seq<Call>, call: Call)
    ensures var st, st', l := Run(cfg, calls), Run(cfg, calls + [call]), LocationFor(call);
      Perform(cfg, st, call) == (st',
        if !Named(l) then Err(BadPath(BadPart(l).value))
        else if !cfg.clean(DataOf(call)) then Err(HasSecrets)
        else if Creates(call) && l in st.docs then Err(AlreadyExists)
        else Ok(()))
    ensures var st, st', l := Run(cfg, calls), Run(cfg, calls + [call]), LocationFor(call);
      if !Named(l) || !cfg.clean(DataOf(call)) || (Creates(call) && l in st.docs) then st' == st
      else if call.AppendEvent? then
        st' == st.(journals := st.journals[l := JournalOf(st, l) + [CutAppend(call.event, |Line(call.event)|)]])
      else st' == st.(docs := st.docs[l := DataOf(call)])
  {
    hide DataOf, Line;
    assert Init(calls + [call]) == calls && Last(calls + [call]) == call;
  }

  /** The attempt of the last `save_current` that was not refused. */
  function LastSaved(cfg: Config, calls: seq<Call>): Option<Attempt> {
    if calls == [] then None
    else if Last(calls).SaveCurrent? && Admissible(cfg, Last(calls)) then Some(Last(calls).attempt)
    else LastSaved(cfg, Init(calls))
  }

  /** The events appended for one attempt, in order, refused ones left out. */
  function EventsFor(cfg: Config, calls: seq<Call>, l: Location): seq<Event> {
    if calls == [] then []
    else
      var before := EventsFor(cfg, Init(calls), l);
      if Last(calls).AppendEvent? && Admissible(cfg, Last(calls)) && LocationFor(Last(calls)) == l
      then before + [Last(calls).event]
      else before
  }

  lemma {:induction false} CurrentIsLastSaved(cfg: Config, calls: seq<Call>)
    ensures var st := Run(cfg, calls);
      if LastSaved(cfg, calls).None? then Current !in st.docs
      else Current in st.docs && st.docs[Current] == DumpAttempt(LastSaved(cfg, calls).value)
  {
    hide DumpAttempt, Admit, Admissible;
    if calls != [] { CurrentIsLastSaved(cfg, Init(calls)); }
  }

  lemma {:induction false} JournalIsEventsFor(cfg: Config, calls: seq<Call>, l: Location)
    ensures JournalOf(Run(cfg, calls), l) == Entire(EventsFor(cfg, calls, l))
  {
    hide DumpAttempt, DumpEvent, Admit, Admissible, Line;
    if calls != [] {
      JournalIsEventsFor(cfg, Init(calls), l);
      if Last(calls).AppendEvent? { EntireSnoc(EventsFor(cfg, Init(calls), l), Last(calls).event); }
    }
  }

  lemma {:induction false} EntireSnoc(events: seq<Event>, e: Event)
    ensures Entire(events + [e]) == Entire(events) + [CutAppend(e, |Line(e)|)]
  {
    hide Line;
    if events == [] {
      assert ([] + [e])[1..] == [];
    } else {
      assert (events + [e])[1..] == events[1..] + [e];
      EntireSnoc(events[1..], e);
    }
  }

  lemma {:induction false} EventsForAreValid(cfg: Config, calls: seq<Call>, l: Location)
    requires Instances(calls)
    ensures AllValid(EventsFor(cfg, calls, l))
  {
    hide Admit, Admissible;
    if calls != [] {
      EventsForAreValid(cfg, Init(calls), l);
      assert Last(calls).Instance();
    }
  }

  lemma {:induction false} LastSavedIsValid(cfg: Config, calls: seq<Call>)
    requires Instances(calls)
    ensures LastSaved(cfg, calls).Some? ==> LastSaved(cfg, calls).value.Valid()
  {
    hide Admit, Admissible;
    if calls != [] {
      LastSavedIsValid(cfg, Init(calls));
      assert Last(calls).Instance();
    }
  }

  // -- what each read returns after any run ---------------------------------

  /** The first call that was let through and creates this record or report. */
  function FirstCreated(cfg: Config, calls: seq<Call>, l: Location): Option<Call> {
    if calls == [] then None
    else
      var before := FirstCreated(cfg, Init(calls), l);
      if before.Some? then before
      else if Creates(Last(calls)) && LocationFor(Last(calls)) == l && Admissible(cfg, Last(calls))
      then Some(Last(calls))
      else None
  }

  lemma {:induction false} FirstCreatedIsCall(cfg: Config, calls: seq<Call>, l: Location)
    ensures var first := FirstCreated(cfg, calls, l); first.Some? ==>
      && first.value in calls && Creates(first.value) && LocationFor(first.value) == l
      && Admissible(cfg, first.value)
  {
    hide Admit, Admissible, LocationFor;
    if calls != [] { FirstCreatedIsCall(cfg, Init(calls), l); }
  }

  lemma {:induction false} CreatedIsFirst(cfg: Config, calls: seq<Call>, l: Location)
    requires l.Record? || l.Report?
    ensures var st, first := Run(cfg, calls), FirstCreated(cfg, calls, l);
      && (l in st.docs <==> first.Some?)
      && (first.Some? ==> st.docs[l] == DataOf(first.value))
  {
    hide Admit, Admissible, DataOf;
    if calls != [] { CreatedIsFirst(cfg, Init(calls), l); }
  }

  /** `load_attempt_record` returns the attempt of the first `save_attempt_record` for the key that was let through. */
  lemma LoadedRecord(cfg: Config, calls: seq<Call>, task: string, attempt: string)
    requires Instances(calls)
    ensures var l := Record(task, attempt);
      Guarded(cfg.root, l, AttemptAt(Run(cfg, calls), l)) ==
      if BadIdentifier(task, attempt).Some? then Err(BadIdentifier(task, attempt).value)
      else match FirstCreated(cfg, calls, l)
        case None => Ok(None)
        case Some(call) =>
          if call.SaveRecord? && call.attempt.schemaVersion == CURRENT_SCHEMA_VERSION then Ok(Some(call.attempt))
          else Err(Unreadable(BadVersion))
    ensures FirstCreated(cfg, calls, Record(task, attempt)).Some? ==>
      FirstCreated(cfg, calls, Record(task, attempt)).value.SaveRecord?
  {
    hide Run, DumpAttempt, ParseAttempt, Text, Locate, FirstCreated;
    var l := Record(task, attempt);
    CreatedIsFirst(cfg, calls, l);
    FirstCreatedIsCall(cfg, calls, l);
    GuardedRecord(cfg.root, task, attempt, AttemptAt(Run(cfg, calls), l));
    if FirstCreated(cfg, calls, l).Some? {
      var call := FirstCreated(cfg, calls, l).value;
      assert call.Instance();
      AttemptRoundTrip(call.attempt, Indented);
    }
  }

  lemma GuardedRecord<T>(root: Path, task: string, attempt: string, r: Result<T, Failure>)
    ensures Guarded(root, Record(task, attempt), r) ==
      if BadIdentifier(task, attempt).Some? then Err(BadIdentifier(task, attempt).value) else r
  {
    hide Join, EnsureWithin;
    if IsComponent(task) && IsComponent(attempt) { AttemptDirIs(root, task, attempt); }
  }

  /** A report as it is read back: its object, once its version is checked. */
  function ReportReading(report: map<string, JSON>): Result<map<string, JSON>, Failure> {
    if HasCurrentVersion(report) then Ok(report) else Err(Unreadable(BadVersion))
  }

  lemma ReportRoundTrip(report: map<string, JSON>)
    requires WellFormed(Obj(report))
    ensures ReadReportText(DocText(Obj(report))) == ReportReading(report)
  {
    hide Text, Loads, HasCurrentVersion;
    LoadsInvertsDumps(Obj(report), Indented);
  }

  /** `load_report` returns the report of the first `append_report` for the key that was let through. */
  lemma LoadedReport(cfg: Config, calls: seq<Call>, l: Location)
    requires Instances(calls) && l.Report?
    ensures var first := FirstCreated(cfg, calls, l);
      && (first.Some? ==> first.value.AppendReport? && LocationFor(first.value) == l)
      && ReportAt(Run(cfg, calls), l) ==
           if first.Some? && first.value.AppendReport? then ReportReading(first.value.report) else Err(NotFound)
  {
    hide Run, ReadReportText, DocText, ReportReading, FirstCreated, Admit, Admissible;
    CreatedIsFirst(cfg, calls, l);
    FirstCreatedIsCall(cfg, calls, l);
    if FirstCreated(cfg, calls, l).Some? {
      var call := FirstCreated(cfg, calls, l).value;
      assert call.Instance();
      ReportRoundTrip(call.report);
    }
  }

  /** The ids of the reports appended to a category, refused ones left out. */
  function AppendedIds(cfg: Config, calls: seq<Call>, task: string, attempt: string, category: string): set<string> {
    set call | call in calls && call.AppendReport? && Admissible(cfg, call)
               && call.task == task && call.attemptId == attempt && call.category == category :: call.id
  }

  /** `list_report_ids` lists exactly those. */
  lemma ListedIds(cfg: Config, calls: seq<Call>, task: string, attempt: string, category: string)
    ensures ReportIds(Run(cfg, calls), task, attempt, category) == AppendedIds(cfg, calls, task, attempt, category)
  {
    hide Run, Admit, Admissible, FirstCreated;
    var st := Run(cfg, calls);
    forall id
      ensures id in ReportIds(st, task, attempt, category) <==> id in AppendedIds(cfg, calls, task, attempt, category)
    {
      var l := Report(task, attempt, category, id);
      assert id in ReportIds(st, task, attempt, category) <==> l in st.docs;
      CreatedIsFirst(cfg, calls, l);
      FirstCreatedIsCall(cfg, calls, l);
      if l in st.docs {
        var call := FirstCreated(cfg, calls, l).value;
        assert call in calls && call.AppendReport? && call.id == id;
      }
      if call :| call in calls && call.AppendReport? && Admissible(cfg, call) && LocationFor(call) == l {
        CreatedOnce(cfg, calls, call);
      }
    }
  }

  lemma {:induction false} CreatedOnce(cfg: Config, calls: seq<Call>, call: Call)
    requires call in calls && Creates(call) && Admissible(cfg, call)
    ensures FirstCreated(cfg, calls, LocationFor(call)).Some?
  {
    hide Admit, Admissible, LocationFor;
    if call in Init(calls) { CreatedOnce(cfg, Init(calls), call); }
  }

  /** `load_reports` returns, in the order of the ids, the first report appended under each, unless one of them has
      another schema version. */
  lemma {:induction false} LoadedReports(
    cfg: Config, calls: seq<Call>, task: string, attempt: string, category: string, ids: seq<string>)
    requires Instances(calls)
    requires forall id | id in ids :: id in ReportIds(Run(cfg, calls), task, attempt, category)
    ensures forall id | id in ids :: ReportOf(cfg, calls, task, attempt, category, id).Some?
    ensures ReportsAt(Run(cfg, calls), task, attempt, category, ids) ==
      if forall id | id in ids :: HasCurrentVersion(ReportOf(cfg, calls, task, attempt, category, id).value)
      then Ok(seq(|ids|, i requires 0 <= i < |ids| => ReportOf(cfg, calls, task, attempt, category, ids[i]).value))
      else Err(Unreadable(BadVersion))
  {
    hide Run, ReportAt, HasCurrentVersion, ReportOf;
    forall id | id in ids ensures ReportOf(cfg, calls, task, attempt, category, id).Some? {
      ListedReport(cfg, calls, task, attempt, category, id);
    }
    var reports := seq(|ids|, i requires 0 <= i < |ids| => ReportOf(cfg, calls, task, attempt, category, ids[i]).value);
    if ids == [] {
      assert reports == [];
    } else {
      var rest := ids[1..];
      LoadedReports(cfg, calls, task, attempt, category, rest);
      ListedReport(cfg, calls, task, attempt, category, ids[0]);
      assert ids == [ids[0]] + rest;
      if forall id | id in ids :: HasCurrentVersion(ReportOf(cfg, calls, task, attempt, category, id).value) {
        assert reports == [reports[0]] + reports[1..];
        assert reports[1..] ==
          seq(|rest|, i requires 0 <= i < |rest| => ReportOf(cfg, calls, task, attempt, category, rest[i]).value);
      }
    }
  }

  lemma ListedReport(cfg: Config, calls: seq<Call>, task: string, attempt: string, category: string, id: string)
    requires Instances(calls) && id in ReportIds(Run(cfg, calls), task, attempt, category)
    ensures var report := ReportOf(cfg, calls, task, attempt, category, id);
      report.Some? && ReportAt(Run(cfg, calls), Report(task, attempt, category, id)) ==
        if HasCurrentVersion(report.value) then Ok(report.value) else Err(Unreadable(BadVersion))
  {
    hide Run, ReportAt, FirstCreated, HasCurrentVersion;
    LoadedReport(cfg, calls, Report(task, attempt, category, id));
    CreatedIsFirst(cfg, calls, Report(task, attempt, category, id));
  }

  /** The report first appended under a key. */
  function ReportOf(cfg: Config, calls: seq<Call>, task: string, attempt: string, category: string, id: string)
    : Option<map<string, JSON>>
  {
    match FirstCreated(cfg, calls, Report(task, attempt, category, id))
    case None => None
    case Some(call) => if call.AppendReport? then Some(call.report) else None
  }

  /** `read_events` returns exactly the events appended for the key, in order, unless one has another version. */
  lemma ReadEventsAfter(cfg: Config, calls: seq<Call>, l: Location)
    requires Instances(calls)
    ensures var events := EventsFor(cfg, calls, l);
      EventsAt(Run(cfg, calls), l) ==
      if AllCurrent(events) then Ok(events)
      else Err(CorruptJournal(CorruptLine(FirstStale(events) + 1, BadVersion)))
  {
    hide Run, ReadJournal, JournalText, Appended, EventsFor;
    var events := EventsFor(cfg, calls, l);
    JournalIsEventsFor(cfg, calls, l);
    EventsForAreValid(cfg, calls, l);
    EntireText(events);
    ReadableWhenCurrent(events);
    if l !in Run(cfg, calls).journals { assert |Entire(events)| == 0; }
  }

  // -- recovery equals history ----------------------------------------------

  function BadIdentifier(task: string, attempt: string): Option<Failure> {
    if !IsComponent(task) then Some(BadPath(BadComponent("task_id")))
    else if !IsComponent(attempt) then Some(BadPath(BadComponent("attempt_id")))
    else None
  }

  /** What a fresh reader must recover for `task`, from the calls alone. */
  ghost function ExpectedRecovery(cfg: Config, calls: seq<Call>, task: string): Result<Option<Recovered>, Failure> {
    var saved := LastSaved(cfg, calls);
    if saved.None? then Ok(None)
    else
      var attempt := saved.value;
      var events := EventsFor(cfg, calls, Events(attempt.taskId, attempt.attemptId));
      if attempt.schemaVersion != CURRENT_SCHEMA_VERSION then Err(Unreadable(BadVersion))
      else if attempt.taskId != task then Ok(None)
      else if BadIdentifier(attempt.taskId, attempt.attemptId).Some? then
        Err(BadIdentifier(attempt.taskId, attempt.attemptId).value)
      else if AllCurrent(events) then Ok(Some(Recovered(attempt, events)))
      else Err(CorruptJournal(CorruptLine(FirstStale(events) + 1, BadVersion)))
  }

  lemma GuardedEvents<T>(root: Path, task: string, attempt: string, r: Result<T, Failure>)
    ensures Guarded(root, Events(task, attempt), r) ==
      if BadIdentifier(task, attempt).Some? then Err(BadIdentifier(task, attempt).value) else r
  {
    hide Join, EnsureWithin;
    if IsComponent(task) && IsComponent(attempt) { AttemptDirIs(root, task, attempt); }
  }

  /** After any run of operations, recovery returns nothing unless the last `save_current` was for that task, and
      otherwise that attempt with exactly the events appended for it, whatever else was written. */
  lemma RecoveryEqualsHistory(cfg: Config, calls: seq<Call>, task: string)
    requires Instances(calls)
    ensures RecoveredFrom(cfg, Run(cfg, calls), task) == ExpectedRecovery(cfg, calls, task)
  {
    hide Run, DumpAttempt, ParseAttempt, EventsAt, EventsFor, Locate, Text;
    LocateIs(cfg.root, Current);
    CurrentIsLastSaved(cfg, calls);
    LastSavedIsValid(cfg, calls);
    if LastSaved(cfg, calls).Some? {
      var attempt := LastSaved(cfg, calls).value;
      var l := Events(attempt.taskId, attempt.attemptId);
      AttemptRoundTrip(attempt, Indented);
      ReadEventsAfter(cfg, calls, l);
      GuardedEvents(cfg.root, attempt.taskId, attempt.attemptId, EventsAt(Run(cfg, calls), l));
    }
  }

  // -- append-only ----------------------------------------------------------

  /** Records and reports never change once written, and journals only grow at the end, in every longer run. */
  lemma {:induction false} HistoryIsAppendOnly(cfg: Config, calls: seq<Call>, more: seq<Call>, l: Location)
    ensures var st, st' := Run(cfg, calls), Run(cfg, calls + more);
      && (l != Current && l in st.docs ==> l in st'.docs && st'.docs[l] == st.docs[l])
      && (l in st.journals ==> l in st'.journals && st.journals[l] <= st'.journals[l])
  {
    hide Admit, Admissible, DataOf;
    if more == [] {
      assert calls + more == calls;
    } else {
      HistoryIsAppendOnly(cfg, calls, Init(more), l);
      assert Init(calls + more) == calls + Init(more);
    }
  }

  /** At most one creator per document succeeds, and the first keeps it. */
  lemma SecondCreatorIsRefused(cfg: Config, before: seq<Call>, first: Call, between: seq<Call>, second: Call)
    requires Creates(first) && Creates(second) && LocationFor(first) == LocationFor(second)
    requires Perform(cfg, Run(cfg, before), first).1.Ok?
    ensures Perform(cfg, Run(cfg, before + [first] + between), second).1.Err?
    ensures var st := Run(cfg, before + [first] + between + [second]);
      LocationFor(first) in st.docs && st.docs[LocationFor(first)] == DataOf(first)
  {
    hide DataOf, Admit, Admissible;
    var upTo := before + [first];
    assert Init(upTo) == before;
    HistoryIsAppendOnly(cfg, upTo, between, LocationFor(first));
    var all := upTo + between + [second];
    assert Init(all) == upTo + between;
  }
}
