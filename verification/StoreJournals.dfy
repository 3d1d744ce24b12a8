/** The journals of the store machine: what the committed appends and the torn ones left in each. */
module StoreJournals {
  import opened Wrappers
  import opened Models
  import opened Journal
  import opened JournalProperties
  import opened Paths
  import opened FileSystem
  import opened Store
  import opened Refinement
  import opened History
  import opened StoreMachine
  import opened StoreMachineProperties

  predicate IsWhole(a: CutAppend) { a.written >= |Line(a.event)| }

  /** The events of the appends that were not cut short. */
  function Completed(appends: seq<CutAppend>): seq<Event> {
    if appends == [] then []
    else
      var last := appends[|appends| - 1];
      Completed(appends[..|appends| - 1]) + if IsWhole(last) then [last.event] else []
  }

  lemma CompletedSnoc(appends: seq<CutAppend>, a: CutAppend)
    ensures Completed(appends + [a]) == Completed(appends) + if IsWhole(a) then [a.event] else []
  {
    assert (appends + [a])[..|appends|] == appends;
  }

  ghost predicate AllClean(cfg: Config, appends: seq<CutAppend>) {
    forall k | 0 <= k < |appends| :: cfg.clean(DumpEvent(appends[k].event))
  }

  /** Each journal holds the committed events of its attempt, in order, and between them only torn appends; and
      nothing the secret check refuses. */
  ghost predicate LedgerOk(cfg: Config, w: World, l: Location) {
    Completed(LedgerOf(w, l)) == EventsFor(cfg, w.commits, l) && AllClean(cfg, LedgerOf(w, l))
  }

  ghost predicate NobodyDied(w: World) {
    forall pid | pid in w.processes :: !w.processes[pid].pc.Dead?
  }

  /** The append is not torn: it is whole, or the last one and still being written. */
  ghost predicate InOrder(w: World, l: Location, k: nat)
    requires k < |LedgerOf(w, l)|
  {
    || IsWhole(LedgerOf(w, l)[k])
    || (&& k == |LedgerOf(w, l)| - 1 && w.writer.Some? && w.writer.value in w.processes
        && LocationFor(w.processes[w.writer.value].call) == l)
  }

  /** Only deaths tear appends. */
  ghost predicate TearsOk(w: World, l: Location) {
    NobodyDied(w) ==> forall k | 0 <= k < |LedgerOf(w, l)| :: InOrder(w, l, k)
  }

  ghost predicate JournalsOk(cfg: Config, w: World) {
    forall l :: LedgerOk(cfg, w, l) && TearsOk(w, l)
  }

  lemma EventsForSnoc(cfg: Config, calls: seq<Call>, call: Call, l: Location)
    ensures EventsFor(cfg, calls + [call], l) == EventsFor(cfg, calls, l)
      + if call.AppendEvent? && Admissible(cfg, call) && LocationFor(call) == l then [call.event] else []
  {
    hide Admit, Admissible;
    assert Init(calls + [call]) == calls && Last(calls + [call]) == call;
  }

  /** A step that touches no journal: nothing changes there, and commits at most a call of another kind. */
  ghost predicate Aside(cfg: Config, w: World, w': World) {
    && w'.ledgers == w.ledgers
    && (w'.commits == w.commits
        || (|w'.commits| == |w.commits| + 1 && w'.commits[..|w.commits|] == w.commits
            && !w'.commits[|w.commits|].AppendEvent?))
    && (NobodyDied(w') ==> NobodyDied(w) && w'.writer == w.writer)
    && (forall pid | pid in w.processes :: pid in w'.processes && w'.processes[pid].call == w.processes[pid].call)
  }

  lemma AsideKeeps(cfg: Config, w: World, w': World, l: Location)
    requires LedgerOk(cfg, w, l) && TearsOk(w, l) && Aside(cfg, w, w')
    ensures LedgerOk(cfg, w', l) && TearsOk(w', l)
  {
    hide EventsFor, Line, Completed;
    if w'.commits != w.commits {
      EventsForSnoc(cfg, w.commits, w'.commits[|w.commits|], l);
      assert w'.commits == w.commits + [w'.commits[|w.commits|]];
    }
    if NobodyDied(w') {
      forall k | 0 <= k < |LedgerOf(w', l)| ensures InOrder(w', l, k) { assert InOrder(w, l, k); }
    }
  }

  lemma ShortSteps(cfg: Config, w: World, pid: nat)
    requires pid in w.processes && w.writer != Some(pid) && !w.processes[pid].pc.Dead?
    ensures Aside(cfg, w, Check(cfg, w, pid)) && Aside(cfg, w, Make(cfg, w, pid))
  {
    hide Admit, Admissible, Mkdirs, PathTo, NobodyDied;
    SameDeaths(w, Check(cfg, w, pid), pid);
    SameDeaths(w, Make(cfg, w, pid), pid);
  }

  lemma TempSteps(cfg: Config, w: World, pid: nat, tag: string, chunk: nat)
    requires pid in w.processes && w.writer != Some(pid) && !w.processes[pid].pc.Dead?
    ensures Aside(cfg, w, Open(cfg, w, pid, tag))
    ensures w.processes[pid].pc.Writing? ==> Aside(cfg, w, Write(w, pid, chunk))
    ensures w.processes[pid].pc.Cleaning? ==> Aside(cfg, w, Clean(w, pid))
  {
    hide TextOf, PathTo, TempPath, OpenNew, WriteInode, Unlink, NobodyDied;
    assert w.processes == w.processes[pid := w.processes[pid]];
    SameDeaths(w, Open(cfg, w, pid, tag), pid);
    if w.processes[pid].pc.Writing? { SameDeaths(w, Write(w, pid, chunk), pid); }
    if w.processes[pid].pc.Cleaning? { SameDeaths(w, Clean(w, pid), pid); }
  }

  lemma PublishStep(cfg: Config, w: World, pid: nat)
    requires pid in w.processes && w.writer != Some(pid)
    requires w.processes[pid].pc.Publishing? && !w.processes[pid].call.AppendEvent?
    ensures Aside(cfg, w, Publish(cfg, w, pid))
  {
    hide PathTo, Replace, Link, NobodyDied;
    SameDeaths(w, Publish(cfg, w, pid), pid);
  }

  lemma OtherSteps(cfg: Config, w: World, pid: nat, tag: string, chunk: nat)
    requires pid in w.processes && !w.processes[pid].pc.Appending? && !w.processes[pid].pc.Journaling?
    requires w.writer != Some(pid)
    requires !w.processes[pid].pc.Dead? && (w.processes[pid].pc.Publishing? ==> !w.processes[pid].call.AppendEvent?)
    ensures Aside(cfg, w, Next(cfg, w, Advance(pid, tag, chunk)))
  {
    hide Check, Make, Open, Write, Publish, Clean, OpenJournal, WriteJournal, NobodyDied;
    ShortSteps(cfg, w, pid);
    TempSteps(cfg, w, pid, tag, chunk);
    if w.processes[pid].pc.Publishing? { PublishStep(cfg, w, pid); }
  }

  lemma SameDeaths(w: World, w': World, pid: nat)
    requires pid in w.processes && pid in w'.processes && w'.processes == w.processes[pid := w'.processes[pid]]
    requires !w.processes[pid].pc.Dead?
    ensures NobodyDied(w') ==> NobodyDied(w)
  {
    if NobodyDied(w') {
      forall q | q in w.processes ensures !w.processes[q].pc.Dead? { assert q in w'.processes; }
    }
  }

  lemma OpenKeepsJournals(cfg: Config, w: World, pid: nat, l: Location)
    requires Inv(cfg, w) && pid in w.processes && w.processes[pid].pc.Appending?
    requires LedgerOk(cfg, w, l) && TearsOk(w, l)
    ensures w.processes[pid].call.AppendEvent?
    ensures var w' := OpenJournal(cfg, w, pid); LedgerOk(cfg, w', l) && TearsOk(w', l)
  {
    hide Inv, Run, Holds, Admit, Admissible, PathTo, CommitsOk, ProcessOk, OpenJournal, EventsFor, Line, Completed,
      Appended;
    AppenderIsCleared(cfg, w, pid);
    InvFacts(cfg, w, pid);
    var call := w.processes[pid].call;
    var w' := OpenJournal(cfg, w, pid);
    if w.writer.Some? {
      JournalIsLocked(cfg, w, pid);
    } else if Taken(cfg.root, w.fs, LocationFor(call)) {
      TakenIsAside(cfg, w, pid);
      AsideKeeps(cfg, w, w', l);
    } else {
      OpenJournalEffect(cfg, w, pid);
      var a := CutAppend(call.event, 0);
      LineIsLong(call.event);
      AdmittedIsClean(cfg, call);
      CompletedSnoc(LedgerOf(w, LocationFor(call)), a);
      SameDeaths(w, w', pid);
      if NobodyDied(w') {
        forall k | 0 <= k < |LedgerOf(w', l)| ensures InOrder(w', l, k) {
          if k < |LedgerOf(w, l)| { assert InOrder(w, l, k); }
        }
      }
    }
  }

  lemma TakenIsAside(cfg: Config, w: World, pid: nat)
    requires pid in w.processes && w.processes[pid].pc.Appending? && w.processes[pid].call.AppendEvent?
    requires w.writer == None && Taken(cfg.root, w.fs, LocationFor(w.processes[pid].call))
    ensures Aside(cfg, w, OpenJournal(cfg, w, pid))
  {
    hide PathTo, NobodyDied;
    SameDeaths(w, OpenJournal(cfg, w, pid), pid);
  }

  lemma AdmittedIsClean(cfg: Config, call: Call)
    requires Admissible(cfg, call)
    ensures cfg.clean(DataOf(call))
  {
    hide Locate;
  }

  lemma WriteKeepsJournals(cfg: Config, w: World, pid: nat, chunk: nat, l: Location)
    requires Inv(cfg, w) && pid in w.processes && w.processes[pid].pc.Journaling?
    requires LedgerOk(cfg, w, l) && TearsOk(w, l)
    ensures w.processes[pid].call.AppendEvent?
    ensures var w' := WriteJournal(cfg, w, pid, chunk); LedgerOk(cfg, w', l) && TearsOk(w', l)
  {
    hide Inv, Run, Holds, Admit, Admissible, PathTo, CommitsOk, ProcessOk, WriteJournal, EventsFor, Line, Completed,
      Appended;
    AppenderIsCleared(cfg, w, pid);
    InvFacts(cfg, w, pid);
    JournalingFacts(cfg, w, pid);
    var Process(call, pc) := w.processes[pid];
    var own := LocationFor(call);
    LedgerHasFile(cfg, w, own);
    WriteJournalEffect(cfg, w, pid, chunk);
    var w' := WriteJournal(cfg, w, pid, chunk);
    var end := End(pc.written, chunk, Line(call.event));
    if l == own {
      var ledger := LedgerOf(w, l);
      var before := ledger[..|ledger| - 1];
      assert ledger == before + [CutAppend(call.event, pc.written)];
      CompletedSnoc(before, CutAppend(call.event, pc.written));
      CompletedSnoc(before, CutAppend(call.event, end));
      assert AllClean(cfg, LedgerOf(w', l)) by {
        forall k | 0 <= k < |LedgerOf(w', l)| ensures cfg.clean(DumpEvent(LedgerOf(w', l)[k].event)) {
          assert LedgerOf(w', l)[k].event == ledger[k].event;
        }
      }
    }
    if w'.commits != w.commits { EventsForSnoc(cfg, w.commits, call, l); }
    SameDeaths(w, w', pid);
    if NobodyDied(w') {
      forall k | 0 <= k < |LedgerOf(w', l)| ensures InOrder(w', l, k) { assert InOrder(w, l, k); }
    }
  }

  lemma NextJournals(cfg: Config, w: World, move: Move)
    requires Inv(cfg, w) && JournalsOk(cfg, w)
    ensures JournalsOk(cfg, Next(cfg, w, move))
  {
    hide Inv, LedgerOk, TearsOk, Aside, OpenJournal, WriteJournal, Check, Make, Open, Write, Publish, Clean;
    var w' := Next(cfg, w, move);
    forall l ensures LedgerOk(cfg, w', l) && TearsOk(w', l) {
      if move.Advance? && move.pid in w.processes && w.processes[move.pid].pc.Appending? {
        OpenKeepsJournals(cfg, w, move.pid, l);
      } else if move.Advance? && move.pid in w.processes && w.processes[move.pid].pc.Journaling? {
        WriteKeepsJournals(cfg, w, move.pid, move.chunk, l);
      } else {
        NextIsAside(cfg, w, move);
        AsideKeeps(cfg, w, w', l);
      }
    }
  }

  lemma NextIsAside(cfg: Config, w: World, move: Move)
    requires Inv(cfg, w)
    requires move.Advance? && move.pid in w.processes ==>
      !w.processes[move.pid].pc.Appending? && !w.processes[move.pid].pc.Journaling?
    ensures Aside(cfg, w, Next(cfg, w, move))
  {
    hide Inv;
    match move
    case Advance(pid, tag, chunk) =>
      if pid in w.processes && !w.processes[pid].pc.Dead? {
        WriterIsJournaling(cfg, w, pid);
        PublisherIsNoAppender(cfg, w, pid);
        OtherSteps(cfg, w, pid, tag, chunk);
      }
    case Crash(pid) =>
      if pid in w.processes && !w.processes[pid].pc.Finished? { SomeoneDied(w, pid); }
    case Arrive(pid, call) =>
      if pid !in w.processes && call.Instance() { ArrivalIsAlive(w, pid, call); }
  }

  lemma SomeoneDied(w: World, pid: nat)
    requires pid in w.processes
    ensures !NobodyDied(SetPc(w, pid, Dead))
  {
    assert SetPc(w, pid, Dead).processes[pid].pc.Dead?;
  }

  lemma ArrivalIsAlive(w: World, pid: nat, call: Call)
    requires pid !in w.processes
    ensures NobodyDied(w.(processes := w.processes[pid := Process(call, Start)])) ==> NobodyDied(w)
  {
    var w' := w.(processes := w.processes[pid := Process(call, Start)]);
    if NobodyDied(w') {
      forall q | q in w.processes ensures !w.processes[q].pc.Dead? { assert q in w'.processes; }
    }
  }

  lemma PublisherIsNoAppender(cfg: Config, w: World, pid: nat)
    requires Inv(cfg, w) && pid in w.processes
    ensures w.processes[pid].pc.Publishing? ==> !w.processes[pid].call.AppendEvent?
  {
    hide Run, Holds, Admit, Admissible, TextOf, PathTo, Holder, IsTemp, CommitsOk, TempsApart, OwnedOk, NameOk, Sole;
    assert ProcessOk(cfg, w, pid);
  }

  lemma StartJournals(cfg: Config)
    ensures JournalsOk(cfg, START)
  {
    forall l ensures LedgerOk(cfg, START, l) && TearsOk(START, l) { }
  }

  /** In every reachable state each journal holds exactly the committed events of its attempt and, where processes
      died in an append, what those had written. */
  lemma {:induction false} JournalsAlways(cfg: Config, moves: seq<Move>)
    ensures JournalsOk(cfg, Exec(cfg, moves))
  {
    hide Inv, JournalsOk, Next;
    if moves == [] {
      StartJournals(cfg);
    } else {
      var before := moves[..|moves| - 1];
      JournalsAlways(cfg, before);
      InvAlways(cfg, before);
      NextJournals(cfg, Exec(cfg, before), moves[|moves| - 1]);
    }
  }

  // -- untorn journals ------------------------------------------------------

  ghost predicate Untorn(appends: seq<CutAppend>) {
    forall k | 0 <= k < |appends| :: IsWhole(appends[k])
  }

  lemma {:induction false} UntornIsEntire(appends: seq<CutAppend>)
    requires Untorn(appends) && AllPossible(appends)
    ensures appends == Entire(Completed(appends))
  {
    hide Line;
    if appends != [] {
      var before, last := appends[..|appends| - 1], appends[|appends| - 1];
      assert appends == before + [last];
      UntornIsEntire(before);
      CompletedSnoc(before, last);
      assert Possible(last) && IsWhole(last);
      EntireSnoc(Completed(before), last.event);
    }
  }
}
