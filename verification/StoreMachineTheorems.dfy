/** What callers and readers of the store may rely on in every interleaving, crashes included. */
module StoreMachineTheorems {
  import opened Wrappers
  import opened Json
  import opened JsonProperties
  import opened Models
  import opened ModelProperties
  import opened Journal
  import opened JournalProperties
  import opened Paths
  import Secrets
  import opened FileSystem
  import opened Store
  import opened Refinement
  import opened LocalStore
  import opened History
  import opened StoreMachine
  import opened StoreMachineProperties
  import opened StoreJournals

  // -- commits --------------------------------------------------------------

  /** What any step of a process can do to the processes and the commits: it moves that process on and commits its
      call if anything. */
  ghost predicate Moved(cfg: Config, w: World, w': World, pid: nat)
    requires pid in w.processes
  {
    && pid in w'.processes && w'.processes == w.processes[pid := w'.processes[pid]]
    && w'.processes[pid].call == w.processes[pid].call
    && (|| (w'.commits == w.commits && w'.committers == w.committers)
        || (w'.commits == w.commits + [w.processes[pid].call] && w'.committers == w.committers + [pid]))
  }

  lemma ShortStepMoves(cfg: Config, w: World, pid: nat, tag: string, chunk: nat)
    requires pid in w.processes
    ensures Moved(cfg, w, Check(cfg, w, pid), pid) && Moved(cfg, w, Make(cfg, w, pid), pid)
    ensures Moved(cfg, w, Open(cfg, w, pid, tag), pid)
    ensures w.processes[pid].pc.Writing? ==> Moved(cfg, w, Write(w, pid, chunk), pid)
    ensures w.processes[pid].pc.Cleaning? ==> Moved(cfg, w, Clean(w, pid), pid)
  {
    hide Admit, Admissible, TextOf, PathTo, TempPath, Mkdirs, OpenNew, WriteInode, Unlink;
    assert w.processes == w.processes[pid := w.processes[pid]];
  }

  lemma PublishMoves(cfg: Config, w: World, pid: nat)
    requires pid in w.processes && w.processes[pid].pc.Publishing?
    ensures Moved(cfg, w, Publish(cfg, w, pid), pid)
  {
    hide Replace, Link, PathTo;
  }

  lemma JournalMoves(cfg: Config, w: World, pid: nat, chunk: nat)
    requires pid in w.processes && w.processes[pid].call.AppendEvent?
    ensures Moved(cfg, w, OpenJournal(cfg, w, pid), pid)
    ensures w.processes[pid].pc.Journaling? ==> Moved(cfg, w, WriteJournal(cfg, w, pid, chunk), pid)
  {
    hide TextOf, PathTo, OpenNew, WriteInode;
    assert w.processes == w.processes[pid := w.processes[pid]];
  }

  lemma AdvanceMoves(cfg: Config, w: World, pid: nat, tag: string, chunk: nat)
    requires pid in w.processes
    ensures Moved(cfg, w, Next(cfg, w, Advance(pid, tag, chunk)), pid)
  {
    hide Check, Make, Open, Write, Publish, Clean, OpenJournal, WriteJournal, PathTo;
    ShortStepMoves(cfg, w, pid, tag, chunk);
    if w.processes[pid].pc.Publishing? { PublishMoves(cfg, w, pid); }
    if w.processes[pid].call.AppendEvent? { JournalMoves(cfg, w, pid, chunk); }
    assert w.processes == w.processes[pid := w.processes[pid]];
  }

  lemma NextCommits(cfg: Config, w: World, move: Move)
    ensures w.commits <= Next(cfg, w, move).commits && w.committers <= Next(cfg, w, move).committers
  {
    if move.Advance? && move.pid in w.processes {
      AdvanceMoves(cfg, w, move.pid, move.tag, move.chunk);
      hide Next;
    } else {
      hide Check, Make, Open, Write, Publish, Clean, OpenJournal, WriteJournal;
    }
  }

  lemma {:induction false} CommitsOnlyGrow(cfg: Config, moves: seq<Move>, more: seq<Move>)
    ensures Exec(cfg, moves).commits <= Exec(cfg, moves + more).commits
    ensures Exec(cfg, moves).committers <= Exec(cfg, moves + more).committers
  {
    hide Next;
    if more == [] {
      assert moves + more == moves;
    } else {
      var init := more[..|more| - 1];
      CommitsOnlyGrow(cfg, moves, init);
      assert (moves + more)[..|moves + more| - 1] == moves + init;
      NextCommits(cfg, Exec(cfg, moves + init), more[|more| - 1]);
    }
  }

  lemma InvParts(cfg: Config, w: World)
    requires Inv(cfg, w)
    ensures Holds(cfg.root, w.fs, State(cfg, w)) && CommitsOk(cfg, w) && w.fs.Valid()
    ensures Instances(w.commits)
  {
    hide Run, Admit, Admissible, Perform, IsTemp, DocHeld, JournalHeld, Accounted, IsDir, NameOk, OwnedOk;
    forall k | 0 <= k < |w.commits| ensures w.commits[k].Instance() {
      assert ProcessOk(cfg, w, w.committers[k]);
    }
  }

  /** What every load and list sees in every reachable state: the documents of the committed calls, run one after the
      other, and in each journal the committed events of its attempt with only torn appends between them. */
  lemma EveryStateIsTheCommittedStore(cfg: Config, moves: seq<Move>)
    ensures var w := Exec(cfg, moves);
      && Holds(cfg.root, w.fs, State(cfg, w)) && State(cfg, w).docs == Run(cfg, w.commits).docs
      && forall l :: Completed(JournalOf(State(cfg, w), l)) == EventsFor(cfg, w.commits, l)
    ensures var w := Exec(cfg, moves);
      forall i | 0 <= i < |w.commits| :: Perform(cfg, Run(cfg, w.commits[..i]), w.commits[i]).1.Ok?
  {
    hide Exec, Inv, Holds, Run, Perform, Completed, EventsFor;
    InvAlways(cfg, moves);
    JournalsAlways(cfg, moves);
    var w := Exec(cfg, moves);
    InvParts(cfg, w);
    forall l ensures Completed(JournalOf(State(cfg, w), l)) == EventsFor(cfg, w.commits, l) {
      assert LedgerOk(cfg, w, l);
    }
  }

  /** Only a death tears an append: where nobody died and nobody is writing, every journal reads as the committed
      calls alone would have it. */
  lemma UndisturbedJournals(cfg: Config, moves: seq<Move>, l: Location)
    requires NobodyDied(Exec(cfg, moves)) && Exec(cfg, moves).writer == None
    ensures Untorn(JournalOf(State(cfg, Exec(cfg, moves)), l))
    ensures EventsAt(State(cfg, Exec(cfg, moves)), l) == EventsAt(Run(cfg, Exec(cfg, moves).commits), l)
  {
    hide Exec, Inv, Holds, Run, Completed, EventsFor, EventsAt;
    JournalsAlways(cfg, moves);
    var w := Exec(cfg, moves);
    assert TearsOk(w, l);
    assert Untorn(LedgerOf(w, l)) by {
      forall k | 0 <= k < |LedgerOf(w, l)| ensures IsWhole(LedgerOf(w, l)[k]) { assert InOrder(w, l, k); }
    }
    UntornReads(cfg, moves, l);
  }

  /** A journal without torn appends reads as the committed calls alone would have it. */
  lemma UntornReads(cfg: Config, moves: seq<Move>, l: Location)
    requires Untorn(JournalOf(State(cfg, Exec(cfg, moves)), l))
    ensures EventsAt(State(cfg, Exec(cfg, moves)), l) == EventsAt(Run(cfg, Exec(cfg, moves).commits), l)
  {
    hide Exec, Inv, Holds, Run, Completed, EventsFor, ReadJournal, Untorn, Appended, Entire;
    var w := Exec(cfg, moves);
    InvAlways(cfg, moves);
    JournalsAlways(cfg, moves);
    InvParts(cfg, w);
    assert LedgerOk(cfg, w, l);
    LedgerIsPossible(cfg, w, l);
    UntornIsEntire(LedgerOf(w, l));
    JournalIsEventsFor(cfg, w.commits, l);
    EmptyJournalReads();
  }

  lemma EmptyJournalReads()
    ensures ReadJournal(Appended([])) == Ok([])
  {
  }

  /** A call commits once if it succeeds and never if it fails. With a bad identifier it fails for the first one, with
      anything secret in its data for that, and otherwise only for one of these: another call created the document; a
      directory has the place of the record or the journal; or something had the name of the report's category: the
      record, the journal, or perhaps a temporary file. */
  lemma OutcomesAreJustified(cfg: Config, moves: seq<Move>, pid: nat)
    requires pid in Exec(cfg, moves).processes && Exec(cfg, moves).processes[pid].pc.Finished?
    ensures var w := Exec(cfg, moves); var Process(call, pc) := w.processes[pid]; var l := LocationFor(call);
      && (pc.outcome.Ok? <==> pid in w.committers)
      && (!Named(l) ==> pc.outcome == Err(BadPath(BadPart(l).value)))
      && (Named(l) && !cfg.clean(DataOf(call)) ==> pc.outcome == Err(HasSecrets))
      && (Named(l) && cfg.clean(DataOf(call)) && pc.outcome.Err? ==>
            || (pc.outcome == Err(AlreadyExists) && Creates(call) && l in Run(cfg, w.commits).docs)
            || (pc.outcome == Err(AlreadyExists) && call.SaveRecord? && Taken(cfg.root, w.fs, l))
            || (pc.outcome == Err(FileSystemError) && call.AppendEvent? && Taken(cfg.root, w.fs, l))
            || (pc.outcome == Err(FileSystemError) && InTheWay(cfg, w, call)))
  {
    hide Exec, Run, Admit, Holds, CommitsOk, TempsApart, OwnedOk, NameOk, Taken, InTheWay;
    InvAlways(cfg, moves);
    var w := Exec(cfg, moves);
    assert ProcessOk(cfg, w, pid);
    if pid in w.committers { CommitterIsAdmissible(cfg, w, pid); }
  }

  lemma CommitterIsAdmissible(cfg: Config, w: World, pid: nat)
    requires CommitsOk(cfg, w) && pid in w.committers
    ensures pid in w.processes && Admissible(cfg, w.processes[pid].call)
  {
    hide Run, Admit, Admissible;
    var i :| 0 <= i < |w.committers| && w.committers[i] == pid;
    assert Perform(cfg, Run(cfg, w.commits[..i]), w.commits[i]).1.Ok?;
  }

  /** A call that arrives after another has taken effect takes effect after it. */
  lemma CommitsFollowTime(cfg: Config, moves: seq<Move>, more: seq<Move>, i: nat, j: nat)
    requires i < |Exec(cfg, moves).committers| && j < |Exec(cfg, moves + more).committers|
    requires Exec(cfg, moves + more).committers[j] !in Exec(cfg, moves).processes
    ensures i < j && Exec(cfg, moves + more).committers[i] == Exec(cfg, moves).committers[i]
  {
    hide Exec, Run, Holds, TempsApart, ProcessOk, OwnedOk, NameOk, Perform;
    CommitsOnlyGrow(cfg, moves, more);
    InvAlways(cfg, moves);
    var w := Exec(cfg, moves);
    assert forall k | 0 <= k < |w.committers| :: w.committers[k] in w.processes;
  }

  // -- the current pointer --------------------------------------------------

  lemma {:induction false} LastSavedIsACall(cfg: Config, calls: seq<Call>) returns (k: nat)
    requires LastSaved(cfg, calls).Some?
    ensures k < |calls| && calls[k] == SaveCurrent(LastSaved(cfg, calls).value) && Admissible(cfg, calls[k])
  {
    hide Admit, Admissible;
    if Last(calls).SaveCurrent? && Admissible(cfg, Last(calls)) {
      k := |calls| - 1;
    } else {
      k := LastSavedIsACall(cfg, Init(calls));
    }
  }

  /** The process whose data `current.json` holds, whole. */
  ghost predicate Shows(cfg: Config, w: World, pid: nat) {
    && pid in w.committers && pid in w.processes && w.processes[pid].call.SaveCurrent?
    && Admissible(cfg, w.processes[pid].call)
    && w.fs.TextAt(PathTo(cfg.root, Current)) == Some(TextOf(w.processes[pid].call))
  }

  /** `current.json` is absent or holds exactly one earlier caller's complete data, at every moment. */
  lemma CurrentIsOneCallersData(cfg: Config, moves: seq<Move>) returns (pid: nat)
    ensures var w := Exec(cfg, moves); PathTo(cfg.root, Current) in w.fs.names ==> Shows(cfg, w, pid)
  {
    hide Exec, Run, Admit, Admissible, Holds, Inv, PathTo, LastSaved;
    var w := Exec(cfg, moves);
    InvAlways(cfg, moves);
    InvParts(cfg, w);
    FileExactly(cfg.root, w.fs, State(cfg, w), Current);
    CurrentIsLastSaved(cfg, w.commits);
    pid := 0;
    if LastSaved(cfg, w.commits).Some? {
      var k := LastSavedIsACall(cfg, w.commits);
      pid := w.committers[k];
    }
  }

  // -- append-only ----------------------------------------------------------

  /** A record or report never changes once its file is there, and a journal only grows at its end. */
  lemma FilesAreAppendOnly(cfg: Config, moves: seq<Move>, more: seq<Move>, l: Location)
    requires l != Current && PathTo(cfg.root, l) in Exec(cfg, moves).fs.names
    ensures var p := PathTo(cfg.root, l);
      var text, text' := Exec(cfg, moves).fs.TextAt(p), Exec(cfg, moves + more).fs.TextAt(p);
      && text.Some? && text'.Some?
      && text.value <= text'.value
      && (!l.Events? ==> text'.value == text.value)
  {
    hide Exec, Run, Holds, Inv, PathTo, Appended, DocText, CommitsOk;
    var w, w' := Exec(cfg, moves), Exec(cfg, moves + more);
    InvAlways(cfg, moves);
    InvAlways(cfg, moves + more);
    InvParts(cfg, w);
    InvParts(cfg, w');
    CommitsOnlyGrow(cfg, moves, more);
    assert w'.commits == w.commits + w'.commits[|w.commits|..];
    HistoryIsAppendOnly(cfg, w.commits, w'.commits[|w.commits|..], l);
    FileExactly(cfg.root, w.fs, State(cfg, w), l);
    FileExactly(cfg.root, w'.fs, State(cfg, w'), l);
    JournalsOnlyGrow(cfg, moves, more, l);
  }

  lemma NextGrows(cfg: Config, w: World, move: Move, l: Location)
    requires Inv(cfg, w)
    ensures var w' := Next(cfg, w, move);
      Appended(LedgerOf(w, l)) <= Appended(LedgerOf(w', l)) && (l in w.ledgers ==> l in w'.ledgers)
  {
    hide Inv, OpenJournal, WriteJournal, Appended, Next, ProcessOk, CommitsOk, Holds, Run, PathTo, Admit, Admissible,
      Line;
    if move.Advance? && move.pid in w.processes && w.processes[move.pid].pc.Appending? {
      OpenGrows(cfg, w, move.pid, l);
      AdvancesJournal(cfg, w, move);
    } else if move.Advance? && move.pid in w.processes && w.processes[move.pid].pc.Journaling? {
      WriteGrows(cfg, w, move.pid, move.chunk, l);
      AdvancesJournal(cfg, w, move);
    } else {
      NextIsAside(cfg, w, move);
    }
  }

  lemma AdvancesJournal(cfg: Config, w: World, move: Move)
    requires move.Advance? && move.pid in w.processes && w.processes[move.pid].call.AppendEvent?
    ensures w.processes[move.pid].pc.Appending? ==> Next(cfg, w, move) == OpenJournal(cfg, w, move.pid)
    ensures w.processes[move.pid].pc.Journaling? ==> Next(cfg, w, move) == WriteJournal(cfg, w, move.pid, move.chunk)
  {
    hide OpenJournal, WriteJournal;
  }

  lemma OpenGrows(cfg: Config, w: World, pid: nat, l: Location)
    requires Inv(cfg, w) && pid in w.processes && w.processes[pid].pc.Appending?
    ensures w.processes[pid].call.AppendEvent?
    ensures var w' := OpenJournal(cfg, w, pid);
      Appended(LedgerOf(w, l)) <= Appended(LedgerOf(w', l)) && (l in w.ledgers ==> l in w'.ledgers)
  {
    hide Inv, OpenJournal, Appended, ProcessOk, CommitsOk, Holds, Run, PathTo, Admit, Admissible, Line;
    AppenderIsCleared(cfg, w, pid);
    InvFacts(cfg, w, pid);
    var call := w.processes[pid].call;
    if w.writer.Some? {
      JournalIsLocked(cfg, w, pid);
    } else if Taken(cfg.root, w.fs, LocationFor(call)) {
      TakenIsAside(cfg, w, pid);
    } else {
      OpenJournalEffect(cfg, w, pid);
      AppendedSnoc(LedgerOf(w, LocationFor(call)), CutAppend(call.event, 0));
    }
  }

  lemma WriteGrows(cfg: Config, w: World, pid: nat, chunk: nat, l: Location)
    requires Inv(cfg, w) && pid in w.processes && w.processes[pid].pc.Journaling?
    ensures w.processes[pid].call.AppendEvent?
    ensures var w' := WriteJournal(cfg, w, pid, chunk);
      Appended(LedgerOf(w, l)) <= Appended(LedgerOf(w', l)) && (l in w.ledgers ==> l in w'.ledgers)
  {
    hide Inv, WriteJournal, Appended, ProcessOk, CommitsOk, Holds, Run, PathTo, Admit, Admissible, Line;
    AppenderIsCleared(cfg, w, pid);
    InvFacts(cfg, w, pid);
    JournalingFacts(cfg, w, pid);
    var Process(call, pc) := w.processes[pid];
    var ledger := LedgerOf(w, LocationFor(call));
    LedgerHasFile(cfg, w, LocationFor(call));
    WriteJournalEffect(cfg, w, pid, chunk);
    assert ledger == ledger[..|ledger| - 1] + [CutAppend(call.event, pc.written)];
    CutGrows(ledger[..|ledger| - 1], call.event, pc.written, End(pc.written, chunk, Line(call.event)));
  }

  lemma {:induction false} JournalsOnlyGrow(cfg: Config, moves: seq<Move>, more: seq<Move>, l: Location)
    ensures var w, w' := Exec(cfg, moves), Exec(cfg, moves + more);
      Appended(LedgerOf(w, l)) <= Appended(LedgerOf(w', l)) && (l in w.ledgers ==> l in w'.ledgers)
    decreases |more|
  {
    hide Next, Appended, LedgerOf, Inv;
    if more == [] {
      assert moves + more == moves;
    } else {
      var init := more[..|more| - 1];
      assert (moves + more)[..|moves + more| - 1] == moves + init;
      JournalsOnlyGrow(cfg, moves, init, l);
      InvAlways(cfg, moves + init);
      NextGrows(cfg, Exec(cfg, moves + init), more[|more| - 1], l);
    }
  }

  /** A list of report ids stays good: in every later state each of them is still listed and loads as it did, so a
      list followed by loads misses nothing and sees no report change. */
  lemma ListedReportsStay(
    cfg: Config, moves: seq<Move>, more: seq<Move>, task: string, attempt: string, category: string, id: string)
    requires id in ReportIds(State(cfg, Exec(cfg, moves)), task, attempt, category)
    ensures var st, st' := State(cfg, Exec(cfg, moves)), State(cfg, Exec(cfg, moves + more));
      && id in ReportIds(st', task, attempt, category)
      && ReportAt(st', Report(task, attempt, category, id)) == ReportAt(st, Report(task, attempt, category, id))
  {
    hide Exec, Run, ReadReportText, DocText;
    var w, w' := Exec(cfg, moves), Exec(cfg, moves + more);
    CommitsOnlyGrow(cfg, moves, more);
    assert w'.commits == w.commits + w'.commits[|w.commits|..];
    HistoryIsAppendOnly(cfg, w.commits, w'.commits[|w.commits|..], Report(task, attempt, category, id));
  }

  /** At most one creator of each document succeeds. */
  lemma OneCreatorPerDocument(cfg: Config, moves: seq<Move>, p: nat, q: nat)
    requires var w := Exec(cfg, moves);
      && p in w.processes && q in w.processes
      && w.processes[p].pc == Finished(Ok(())) && w.processes[q].pc == Finished(Ok(()))
      && Creates(w.processes[p].call) && Creates(w.processes[q].call)
      && LocationFor(w.processes[p].call) == LocationFor(w.processes[q].call)
    ensures p == q
  {
    hide Exec, Run, Holds, Inv;
    var w := Exec(cfg, moves);
    InvAlways(cfg, moves);
    InvParts(cfg, w);
    OutcomesAreJustified(cfg, moves, p);
    OutcomesAreJustified(cfg, moves, q);
    var i :| 0 <= i < |w.committers| && w.committers[i] == p;
    var j :| 0 <= j < |w.committers| && w.committers[j] == q;
    if i < j { SecondCommitFails(cfg, w, i, j); }
    if j < i { SecondCommitFails(cfg, w, j, i); }
  }

  lemma SecondCommitFails(cfg: Config, w: World, i: nat, j: nat)
    requires CommitsOk(cfg, w) && i < j < |w.commits| && Creates(w.commits[i]) && Creates(w.commits[j])
    ensures LocationFor(w.commits[i]) != LocationFor(w.commits[j])
  {
    hide Run, Perform;
    assert w.commits[..j] == w.commits[..i] + [w.commits[i]] + w.commits[i + 1..j];
    if LocationFor(w.commits[i]) == LocationFor(w.commits[j]) {
      SecondCreatorIsRefused(cfg, w.commits[..i], w.commits[i], w.commits[i + 1..j], w.commits[j]);
    }
  }

  // -- secrets --------------------------------------------------------------

  lemma DumpsObjectEnds(j: JSON)
    requires j.Obj?
    ensures var t := DumpsIndented(j); t != "" && t[|t| - 1] == '}'
  {
    hide MembersText;
  }

  /** Whatever part of a document's text has been written, it reads as the document or as no JSON at all. */
  lemma PartialDocumentReads(j: JSON, text: string)
    requires WellFormed(j) && j.Obj? && text <= DumpsIndented(j)
    ensures Loads(text) == if text == DumpsIndented(j) then Some(j) else None
  {
    hide Text, Loads;
    LoadsInvertsDumps(j, Indented);
    DumpsObjectEnds(j);
    if text != DumpsIndented(j) {
      ObjectTextIsPrefixFree(DumpsIndented(j), |text|);
      assert DumpsIndented(j)[..|text|] == text;
    }
  }

  lemma CleanReads(cfg: Config, appends: seq<CutAppend>, text: string)
    requires AllClean(cfg, appends) && Reads(appends, text)
    ensures Loads(text).Some? ==> cfg.clean(Loads(text).value)
  {
    hide Loads, DumpEvent;
  }

  /** No file of the store, temporary files included and torn writes included, ever reads as a JSON tree that the
      secret check refuses. */
  lemma NoSecretsOnDisk(cfg: Config, moves: seq<Move>, inode: nat)
    requires inode < |Exec(cfg, moves).fs.data|
    ensures var read := Loads(Exec(cfg, moves).fs.data[inode]); read.Some? ==> cfg.clean(read.value)
  {
    hide Exec, Run, Holds, CommitsOk, TempsApart, ProcessOk, NameOk, PathTo, Loads, Appended, DumpEvent, Text, Reads,
      Locate, Completed, EventsFor;
    var w := Exec(cfg, moves);
    InvAlways(cfg, moves);
    JournalsAlways(cfg, moves);
    InvParts(cfg, w);
    assert OwnedOk(cfg, w, inode);
    match w.owners[inode]
    case Writer(pid) =>
      var call := w.processes[pid].call;
      DataIsObject(call);
      PartialDocumentReads(DataOf(call), w.fs.data[inode]);
    case Ledger(l) =>
      FileExactly(cfg.root, w.fs, State(cfg, w), l);
      LedgerIsPossible(cfg, w, l);
      assert LedgerOk(cfg, w, l);
      WholeJournalReads(LedgerOf(w, l));
      CleanReads(cfg, LedgerOf(w, l), Appended(LedgerOf(w, l)));
  }

  /** Nor does any line of a journal, however many events and torn appends are in it. */
  lemma NoSecretsInJournals(cfg: Config, moves: seq<Move>, l: Location, line: string)
    requires l.Events? && Exec(cfg, moves).fs.TextAt(PathTo(cfg.root, l)).Some?
    requires line in SplitLines(Exec(cfg, moves).fs.TextAt(PathTo(cfg.root, l)).value)
    ensures Loads(line).Some? ==> cfg.clean(Loads(line).value)
  {
    hide Exec, Run, Holds, Inv, PathTo, Loads, Appended, DumpEvent, Reads, SplitLines, Completed, EventsFor;
    var w := Exec(cfg, moves);
    InvAlways(cfg, moves);
    JournalsAlways(cfg, moves);
    InvParts(cfg, w);
    FileExactly(cfg.root, w.fs, State(cfg, w), l);
    LedgerIsPossible(cfg, w, l);
    assert LedgerOk(cfg, w, l);
    LinesAreEvents(LedgerOf(w, l));
    CleanReads(cfg, LedgerOf(w, l), line);
  }

  /** The texts the store's files are read by: the lines of a journal, and any file as a whole. */
  ghost predicate IsText(cfg: Config, w: World, text: string) {
    || text in w.fs.data
    || exists l: Location :: l.Events? && w.fs.TextAt(PathTo(cfg.root, l)).Some?
                             && text in SplitLines(w.fs.TextAt(PathTo(cfg.root, l)).value)
  }

  /** With the repository's two walks as the check: nothing that is on disk at any time, as a whole file or as a line
      of a journal, has an offending key or value at any depth. */
  lemma NoOffendingNodeOnDisk(d: Secrets.Detector, root: Path, moves: seq<Move>, text: string, way: Secrets.Way)
    requires var cfg := Config(root, j => Secrets.IsClean(d, j)); IsText(cfg, Exec(cfg, moves), text)
    ensures Loads(text).Some? ==>
      !Secrets.OffendingKey(d, Loads(text).value, way) && !Secrets.OffendingValue(d, Loads(text).value, way)
  {
    hide Exec, Loads, SplitLines, PathTo, Secrets.IsClean, Secrets.OffendingKey, Secrets.OffendingValue;
    var cfg := Config(root, j => Secrets.IsClean(d, j));
    var w := Exec(cfg, moves);
    if text in w.fs.data {
      var inode :| 0 <= inode < |w.fs.data| && w.fs.data[inode] == text;
      NoSecretsOnDisk(cfg, moves, inode);
    } else {
      var l: Location :| l.Events? && w.fs.TextAt(PathTo(cfg.root, l)).Some?
        && text in SplitLines(w.fs.TextAt(PathTo(cfg.root, l)).value);
      NoSecretsInJournals(cfg, moves, l, text);
    }
    if Loads(text).Some? { Secrets.CleanExactly(d, Loads(text).value); }
  }

  // -- temporary files ------------------------------------------------------

  /** When every call has finished and nobody died, no temporary file is left. */
  lemma NoLeftovers(cfg: Config, moves: seq<Move>, p: Path)
    requires forall pid | pid in Exec(cfg, moves).processes :: Exec(cfg, moves).processes[pid].pc.Finished?
    requires p in Exec(cfg, moves).fs.names
    ensures !IsTemp(cfg.root, p)
  {
    hide Exec, Run, Holds, CommitsOk, TempsApart, ProcessOk, OwnedOk, IsTemp;
    InvAlways(cfg, moves);
    assert NameOk(cfg, Exec(cfg, moves), p);
  }

  // -- restart --------------------------------------------------------------

  /** What a fresh process must recover, from the committed calls and the appends, torn ones included. */
  ghost function RecoveryAfter(cfg: Config, w: World, task: string): Result<Option<Recovered>, Failure>
    requires Holds(cfg.root, w.fs, State(cfg, w))
  {
    var saved := LastSaved(cfg, w.commits);
    if saved.None? then Ok(None)
    else
      var attempt := saved.value;
      var l := Events(attempt.taskId, attempt.attemptId);
      LedgerIsPossible(cfg, w, l);
      if attempt.schemaVersion != CURRENT_SCHEMA_VERSION then Err(Unreadable(BadVersion))
      else if attempt.taskId != task then Ok(None)
      else if BadIdentifier(attempt.taskId, attempt.attemptId).Some? then
        Err(BadIdentifier(attempt.taskId, attempt.attemptId).value)
      else match AppendReading(LedgerOf(w, l), 1)
        case Ok(events) => Ok(Some(Recovered(attempt, events)))
        case Err(e) => Err(CorruptJournal(e))
  }

  lemma RecoveredAfter(cfg: Config, w: World, task: string)
    requires Inv(cfg, w)
    ensures Holds(cfg.root, w.fs, State(cfg, w))
    ensures RecoveredFrom(cfg, State(cfg, w), task) == RecoveryAfter(cfg, w, task)
  {
    hide Inv, Holds, Run, DumpAttempt, ParseAttempt, ReadJournal, Appended, Locate, Text, AppendReading;
    InvParts(cfg, w);
    LocateIs(cfg.root, Current);
    CurrentIsLastSaved(cfg, w.commits);
    LastSavedIsValid(cfg, w.commits);
    if LastSaved(cfg, w.commits).Some? {
      var attempt := LastSaved(cfg, w.commits).value;
      var l := Events(attempt.taskId, attempt.attemptId);
      AttemptRoundTrip(attempt, Indented);
      LedgerIsPossible(cfg, w, l);
      JournalIsNeverMisread(LedgerOf(w, l));
      EmptyJournalReads();
      GuardedEvents(cfg.root, attempt.taskId, attempt.attemptId, EventsAt(State(cfg, w), l));
    }
  }

  /** No append to the journal of the last saved attempt was torn. */
  ghost predicate LastIsUntorn(cfg: Config, w: World) {
    LastSaved(cfg, w.commits).Some? ==>
      var attempt := LastSaved(cfg, w.commits).value;
      Untorn(LedgerOf(w, Events(attempt.taskId, attempt.attemptId)))
  }

  /** A fresh process, after any interleaving and any crashes, in the middle of appends too, recovers exactly what the
      committed calls and the journal's appends say; where no append of its attempt was torn, what the committed
      calls alone say. */
  method RecoverAfterCrash(cfg: Config, fs: FS, ghost moves: seq<Move>, task: string)
    returns (r: Result<Option<Recovered>, Failure>)
    requires fs == Exec(cfg, moves).fs
    ensures var w := Exec(cfg, moves);
      && Holds(cfg.root, w.fs, State(cfg, w)) && r == RecoveryAfter(cfg, w, task)
      && (LastIsUntorn(cfg, w) ==> r == ExpectedRecovery(cfg, w.commits, task))
  {
    hide Exec, Run, Holds, Inv, RecoveredFrom, ExpectedRecovery, RecoveryAfter, EventsAt, LastIsUntorn;
    ghost var w := Exec(cfg, moves);
    InvAlways(cfg, moves);
    InvParts(cfg, w);
    var store := new LocalPersistenceStore.OnTree(cfg, fs, State(cfg, w));
    r := LoadRecoveredState(store, task);
    RecoveredAfter(cfg, w, task);
    if LastIsUntorn(cfg, w) { UntornRecovery(cfg, moves, task); }
  }

  lemma UntornRecovery(cfg: Config, moves: seq<Move>, task: string)
    requires LastIsUntorn(cfg, Exec(cfg, moves))
    ensures RecoveredFrom(cfg, State(cfg, Exec(cfg, moves)), task)
      == ExpectedRecovery(cfg, Exec(cfg, moves).commits, task)
  {
    hide Exec, Run, Holds, Inv, ExpectedRecovery, EventsAt, DumpAttempt, ParseAttempt, Text, Locate, Untorn;
    var w := Exec(cfg, moves);
    InvAlways(cfg, moves);
    InvParts(cfg, w);
    CurrentIsLastSaved(cfg, w.commits);
    LastSavedIsValid(cfg, w.commits);
    LocateIs(cfg.root, Current);
    if LastSaved(cfg, w.commits).Some? {
      var attempt := LastSaved(cfg, w.commits).value;
      AttemptRoundTrip(attempt, Indented);
      UntornReads(cfg, moves, Events(attempt.taskId, attempt.attemptId));
    }
    RecoveryEqualsHistory(cfg, w.commits, task);
  }

  // -- reserved categories --------------------------------------------------

  lemma NextKeepsDirs(cfg: Config, w: World, move: Move)
    ensures w.fs.dirs <= Next(cfg, w, move).fs.dirs
  {
    hide Admit, Admissible, TextOf, PathTo, TempPath, Prefixes;
  }

  lemma {:induction false} DirsStay(cfg: Config, moves: seq<Move>, more: seq<Move>)
    ensures Exec(cfg, moves).fs.dirs <= Exec(cfg, moves + more).fs.dirs
    decreases |more|
  {
    hide Next;
    if more == [] {
      assert moves + more == moves;
    } else {
      var init := more[..|more| - 1];
      assert (moves + more)[..|moves + more| - 1] == moves + init;
      DirsStay(cfg, moves, init);
      NextKeepsDirs(cfg, Exec(cfg, moves + init), more[|more| - 1]);
    }
  }

  /** A committed call has its document or its journal. */
  lemma CommittedIsThere(cfg: Config, w: World, i: nat)
    requires CommitsOk(cfg, w) && i < |w.commits| && JournalsOk(cfg, w)
    ensures var l := LocationFor(w.commits[i]); l in State(cfg, w).docs || l in w.ledgers
  {
    hide Perform, Run, LedgerOk, TearsOk, EventsFor;
    var call := w.commits[i];
    var l := LocationFor(call);
    var before, after := w.commits[..i], w.commits[i + 1..];
    assert w.commits == before + [call] + after;
    PerformedIsThere(cfg, before, call);
    if call.AppendEvent? {
      AppendedIsThere(cfg, before, call, after);
      assert LedgerOk(cfg, w, l);
      NoEventsInNone(cfg, w, l);
    } else {
      DocsStay(cfg, before + [call], after, l);
    }
  }

  lemma PerformedIsThere(cfg: Config, calls: seq<Call>, call: Call)
    requires Perform(cfg, Run(cfg, calls), call).1.Ok?
    ensures Admissible(cfg, call)
    ensures !call.AppendEvent? ==> LocationFor(call) in Run(cfg, calls + [call]).docs
  {
    hide Run, Admit, Admissible, DataOf, Line;
    RunSnoc(cfg, calls, call);
  }

  lemma {:induction false} DocsStay(cfg: Config, calls: seq<Call>, more: seq<Call>, l: Location)
    requires l in Run(cfg, calls).docs
    ensures l in Run(cfg, calls + more).docs
    decreases |more|
  {
    hide Run;
    if more == [] {
      assert calls + more == calls;
    } else {
      var init, last := more[..|more| - 1], more[|more| - 1];
      DocsStay(cfg, calls, init, l);
      assert calls + more == calls + init + [last];
      RunSnoc(cfg, calls + init, last);
    }
  }

  lemma {:induction false} AppendedIsThere(cfg: Config, before: seq<Call>, call: Call, after: seq<Call>)
    requires call.AppendEvent? && Admissible(cfg, call)
    ensures EventsFor(cfg, before + [call] + after, LocationFor(call)) != []
    decreases |after|
  {
    hide Admit, Admissible, EventsFor;
    var l := LocationFor(call);
    if after == [] {
      assert before + [call] + after == before + [call];
      EventsForSnoc(cfg, before, call, l);
    } else {
      var init, last := after[..|after| - 1], after[|after| - 1];
      AppendedIsThere(cfg, before, call, init);
      assert before + [call] + after == before + [call] + init + [last];
      EventsForSnoc(cfg, before + [call] + init, last, l);
    }
  }

  lemma NoEventsInNone(cfg: Config, w: World, l: Location)
    requires LedgerOk(cfg, w, l) && EventsFor(cfg, w.commits, l) != []
    ensures l in w.ledgers
  {
    hide EventsFor;
  }

  /** Once a directory has the place of a record or a journal, no call for it has ever taken effect and none ever
      does, whatever else is called and whoever dies. */
  lemma DirectoryBlocks(cfg: Config, moves: seq<Move>, more: seq<Move>, l: Location)
    requires Taken(cfg.root, Exec(cfg, moves).fs, l)
    ensures var w := Exec(cfg, moves + more);
      && Taken(cfg.root, w.fs, l)
      && (forall i | 0 <= i < |w.commits| :: LocationFor(w.commits[i]) != l)
      && (forall pid | pid in w.processes && LocationFor(w.processes[pid].call) == l ::
            w.processes[pid].pc.Finished? ==> w.processes[pid].pc.outcome.Err?)
  {
    hide Exec, Inv, Run, Holds, CommitsOk, JournalsOk, PathTo;
    var w := Exec(cfg, moves + more);
    DirsStay(cfg, moves, more);
    InvAlways(cfg, moves + more);
    JournalsAlways(cfg, moves + more);
    InvParts(cfg, w);
    PresentExactly(cfg.root, w.fs, State(cfg, w), l);
    NamesAreNoDirs(w.fs, PathTo(cfg.root, l));
    forall i | 0 <= i < |w.commits| ensures LocationFor(w.commits[i]) != l { CommittedIsThere(cfg, w, i); }
    forall pid | pid in w.processes && LocationFor(w.processes[pid].call) == l && w.processes[pid].pc.Finished?
      ensures w.processes[pid].pc.outcome.Err?
    {
      OutcomesAreJustified(cfg, moves + more, pid);
      if pid in w.committers { CommitterHasCommit(cfg, w, pid); }
    }
  }

  lemma NamesAreNoDirs(fs: FS, p: Path)
    requires fs.Valid() && p in fs.dirs
    ensures p !in fs.names
  {
  }

  lemma CommitterHasCommit(cfg: Config, w: World, pid: nat)
    requires CommitsOk(cfg, w) && pid in w.committers
    ensures pid in w.processes && exists i | 0 <= i < |w.commits| :: w.commits[i] == w.processes[pid].call
  {
    hide Run, Perform;
    var i :| 0 <= i < |w.committers| && w.committers[i] == pid;
    assert w.commits[i] == w.processes[pid].call;
  }

  /** Somebody called `append_report` with this category for this attempt. */
  ghost predicate Displaced(cfg: Config, w: World, l: Location) {
    exists pid | pid in w.processes ::
      Displaces(LocationFor(w.processes[pid].call), l) && Admissible(cfg, w.processes[pid].call)
  }

  /** Nothing else ever puts a directory there. */
  lemma {:induction false} OnlyReportsTake(cfg: Config, moves: seq<Move>, l: Location)
    ensures Taken(cfg.root, Exec(cfg, moves).fs, l) ==> Displaced(cfg, Exec(cfg, moves), l)
  {
    hide Next, Displaced, Inv;
    if moves == [] {
    } else {
      var before := moves[..|moves| - 1];
      OnlyReportsTake(cfg, before, l);
      InvAlways(cfg, before);
      NextTakes(cfg, Exec(cfg, before), moves[|moves| - 1], l);
    }
  }

  lemma NextTakes(cfg: Config, w: World, move: Move, l: Location)
    requires Inv(cfg, w) && (Taken(cfg.root, w.fs, l) ==> Displaced(cfg, w, l))
    ensures Taken(cfg.root, Next(cfg, w, move).fs, l) ==> Displaced(cfg, Next(cfg, w, move), l)
  {
    hide Inv, Displaces, Admit, Admissible, PathTo, Next, Displaced;
    DisplacedStays(cfg, w, move, l);
    if move.Advance? && move.pid in w.processes && w.processes[move.pid].pc.Making? {
      if Taken(cfg.root, Next(cfg, w, move).fs, l) { MakeTakes(cfg, w, move, l); }
    } else {
      SameDirs(cfg, w, move);
    }
  }

  lemma DisplacedStays(cfg: Config, w: World, move: Move, l: Location)
    ensures Displaced(cfg, w, l) ==> Displaced(cfg, Next(cfg, w, move), l)
  {
    hide Displaces, Admit, Admissible;
    if Displaced(cfg, w, l) {
      var pid :| pid in w.processes
        && Displaces(LocationFor(w.processes[pid].call), l) && Admissible(cfg, w.processes[pid].call);
      SameCall(cfg, w, move, pid);
      hide Next;
      assert pid in Next(cfg, w, move).processes;
    }
  }

  lemma SameDirs(cfg: Config, w: World, move: Move)
    requires move.Advance? && move.pid in w.processes ==> !w.processes[move.pid].pc.Making?
    ensures Next(cfg, w, move).fs.dirs == w.fs.dirs
  {
    hide Admit, Admissible, TextOf, PathTo, TempPath, Mkdirs;
  }

  lemma MakeTakes(cfg: Config, w: World, move: Move, l: Location)
    requires Inv(cfg, w) && move.Advance? && move.pid in w.processes && w.processes[move.pid].pc.Making?
    requires Taken(cfg.root, Next(cfg, w, move).fs, l)
    ensures Taken(cfg.root, w.fs, l) || Displaced(cfg, Next(cfg, w, move), l)
  {
    hide Inv, Displaces, Admit, Admissible, PathTo, Mkdirs;
    var call := w.processes[move.pid].call;
    InvFacts(cfg, w, move.pid);
    MakerIsAdmissible(cfg, w, move.pid);
    SameCall(cfg, w, move, move.pid);
    if Mkdirs(w.fs, Parent(Target(cfg, call))).Some? {
      MkdirsDisplacesExactly(cfg.root, w.fs, LocationFor(call), l);
    }
  }

  /** A record or event call whose attempt sees no such report has the outcomes of the abstract store only. */
  lemma UndisplacedOutcomes(cfg: Config, moves: seq<Move>, pid: nat)
    requires var w := Exec(cfg, moves);
      && pid in w.processes && w.processes[pid].pc.Finished?
      && !w.processes[pid].call.AppendReport? && !Displaced(cfg, w, LocationFor(w.processes[pid].call))
    ensures var w := Exec(cfg, moves); var Process(call, pc) := w.processes[pid]; var l := LocationFor(call);
      && (pc.outcome.Ok? <==> pid in w.committers)
      && (!Named(l) ==> pc.outcome == Err(BadPath(BadPart(l).value)))
      && (Named(l) && !cfg.clean(DataOf(call)) ==> pc.outcome == Err(HasSecrets))
      && (Named(l) && cfg.clean(DataOf(call)) && pc.outcome.Err? ==>
            pc.outcome == Err(AlreadyExists) && Creates(call) && l in Run(cfg, w.commits).docs)
  {
    hide Exec, Run, Admit, Taken, Displaced;
    OutcomesAreJustified(cfg, moves, pid);
    OnlyReportsTake(cfg, moves, LocationFor(Exec(cfg, moves).processes[pid].call));
  }

  lemma SameCall(cfg: Config, w: World, move: Move, pid: nat)
    requires pid in w.processes
    ensures pid in Next(cfg, w, move).processes && Next(cfg, w, move).processes[pid].call == w.processes[pid].call
  {
    if move.Advance? && move.pid in w.processes {
      AdvanceMoves(cfg, w, move.pid, move.tag, move.chunk);
      hide Next, PathTo;
    } else {
      hide Check, Make, Open, Write, Publish, Clean, OpenJournal, WriteJournal, PathTo;
    }
  }

  /** Such a state is reached by any first report of the category `attempt.json` or `events.jsonl`, as soon as its
      directory is made. */
  lemma ReservedCategoryFirst(cfg: Config, call: Call, l: Location)
    requires call.Instance() && Admissible(cfg, call) && Displaces(LocationFor(call), l)
    ensures var w := Exec(cfg, [Arrive(0, call), Advance(0, "", 0), Advance(0, "", 0)]);
      Taken(cfg.root, w.fs, l) && w.commits == []
  {
    hide Admit, Admissible, PathTo;
    var a, b, c := Arrive(0, call), Advance(0, "", 0), Advance(0, "", 0);
    assert [a, b, c][..2] == [a, b] && [a, b][..1] == [a] && [a][..0] == [];
    assert Exec(cfg, []) == START;
    var w1 := Exec(cfg, [a]);
    assert w1 == Next(cfg, START, a);
    assert START.processes[0 := Process(call, Start)] == map[0 := Process(call, Start)];
    assert w1 == START.(processes := map[0 := Process(call, Start)]);
    var w2 := Next(cfg, w1, b);
    assert w2 == START.(processes := map[0 := Process(call, Making)]);
    var dir := Parent(Target(cfg, call));
    assert Mkdirs(EMPTY, dir).Some?;
    MkdirsDisplacesExactly(cfg.root, EMPTY, LocationFor(call), l);
  }

  // -- a call left alone ----------------------------------------------------

  function Advances(pid: nat, tag: string, chunk: nat, n: nat): seq<Move> {
    if n == 0 then [] else Advances(pid, tag, chunk, n - 1) + [Advance(pid, tag, chunk)]
  }

  /** `n` steps of one process. */
  ghost function Steps(cfg: Config, w: World, pid: nat, tag: string, chunk: nat, n: nat): World {
    if n == 0 then w else Next(cfg, Steps(cfg, w, pid, tag, chunk, n - 1), Advance(pid, tag, chunk))
  }

  lemma {:induction false} ExecSteps(cfg: Config, moves: seq<Move>, pid: nat, tag: string, chunk: nat, n: nat)
    ensures Exec(cfg, moves + Advances(pid, tag, chunk, n)) == Steps(cfg, Exec(cfg, moves), pid, tag, chunk, n)
  {
    hide Next, Exec;
    if n == 0 {
      assert moves + [] == moves;
    } else {
      ExecSteps(cfg, moves, pid, tag, chunk, n - 1);
      var before := moves + Advances(pid, tag, chunk, n - 1);
      assert moves + Advances(pid, tag, chunk, n) == before + [Advance(pid, tag, chunk)];
      ExecSnoc(cfg, before, Advance(pid, tag, chunk));
    }
  }

  lemma ExecSnoc(cfg: Config, moves: seq<Move>, move: Move)
    ensures Exec(cfg, moves + [move]) == Next(cfg, Exec(cfg, moves), move)
  {
    hide Next;
    assert (moves + [move])[..|moves|] == moves;
  }

  lemma {:induction false} StepsAdd(cfg: Config, w: World, pid: nat, tag: string, chunk: nat, n: nat, m: nat)
    ensures Steps(cfg, Steps(cfg, w, pid, tag, chunk, n), pid, tag, chunk, m) == Steps(cfg, w, pid, tag, chunk, n + m)
  {
    hide Next;
    if m > 0 { StepsAdd(cfg, w, pid, tag, chunk, n, m - 1); }
  }

  lemma {:induction false} FinishedStays(cfg: Config, w: World, pid: nat, tag: string, chunk: nat, n: nat)
    requires pid in w.processes && w.processes[pid].pc.Finished?
    ensures Steps(cfg, w, pid, tag, chunk, n) == w
  {
    hide Check, Make, Open, Write, Publish, Clean, OpenJournal, WriteJournal;
    if n > 0 { FinishedStays(cfg, w, pid, tag, chunk, n - 1); }
  }

  /** From the first write to the complete temporary file. */
  lemma AloneWrites(cfg: Config, w: World, pid: nat, tag: string)
    requires pid in w.processes && w.processes[pid].pc.Opening? && w.writer == None && w.fs.Valid()
    requires var call := w.processes[pid].call; var tmp := TempPath(Target(cfg, call), tag);
      tmp !in w.temps && !w.fs.Exists(tmp) && TextOf(call) != ""
    ensures var call := w.processes[pid].call; var tmp := TempPath(Target(cfg, call), tag);
      Steps(cfg, w, pid, tag, |TextOf(call)|, 3) ==
        w.(fs := w.fs.(names := w.fs.names[tmp := |w.fs.data|], data := w.fs.data + [TextOf(call)]),
           temps := w.temps + {tmp}, owners := w.owners + [Writer(pid)],
           processes := w.processes[pid := Process(call, Publishing(tmp, |w.fs.data|))])
  {
    hide TextOf, PathTo, TempPath, Check, Make, Publish, Clean, OpenJournal, WriteJournal;
    var call := w.processes[pid].call;
    var text := TextOf(call);
    var w1 := Open(cfg, w, pid, tag);
    OpenEffect(cfg, w, pid, tag);
    assert Steps(cfg, w, pid, tag, |text|, 1) == w1 by { assert Steps(cfg, w, pid, tag, |text|, 0) == w; }
    hide Open;
    var w2 := Write(w1, pid, |text|);
    WriteEffect(w1, pid, |text|);
    assert text[0..|text|] == text && "" + text == text;
    assert w2.fs.data == w.fs.data + [text];
    assert Steps(cfg, w, pid, tag, |text|, 2) == w2;
    assert Steps(cfg, w, pid, tag, |text|, 3) == Write(w2, pid, |text|);
  }

  function PublishOutcome(fs: FS, call: Call, path: Path): Outcome {
    if call.SaveCurrent? then if path in fs.dirs then Err(FileSystemError) else Ok(())
    else if fs.Exists(path) then Err(AlreadyExists) else Ok(())
  }

  /** Publishing and cleaning up. */
  lemma AlonePublishes(cfg: Config, w: World, pid: nat, tag: string, chunk: nat)
    requires pid in w.processes && w.processes[pid].pc.Publishing? && w.writer == None
    requires w.processes[pid].pc.tmp in w.fs.names
    ensures var Process(call, pc) := w.processes[pid]; var path := Target(cfg, call);
      var outcome := PublishOutcome(w.fs, call, path);
      var w' := Steps(cfg, w, pid, tag, chunk, 2);
      && w' == w.(fs := w'.fs, processes := w.processes[pid := Process(call, Finished(outcome))],
                  commits := if outcome.Ok? then w.commits + [call] else w.commits,
                  committers := if outcome.Ok? then w.committers + [pid] else w.committers)
      && w'.fs.names.Keys <= w.fs.names.Keys - {pc.tmp} + {path}
  {
    hide PathTo, Check, Make, Open, Write, OpenJournal, WriteJournal;
    var w1 := Publish(cfg, w, pid);
    assert Steps(cfg, w, pid, tag, chunk, 1) == w1 by { assert Steps(cfg, w, pid, tag, chunk, 0) == w; }
    assert Steps(cfg, w, pid, tag, chunk, 2) == Clean(w1, pid);
  }

  /** Opening the journal and writing the whole line. */
  lemma AloneAppends(cfg: Config, w: World, pid: nat, tag: string)
    requires pid in w.processes && w.processes[pid].pc.Appending? && w.writer == None && w.fs.Valid()
    requires var call := w.processes[pid].call;
      call.AppendEvent? && !Taken(cfg.root, w.fs, LocationFor(call)) && TextOf(call) != ""
    ensures var call := w.processes[pid].call; var l := LocationFor(call);
      var w' := Steps(cfg, w, pid, tag, |TextOf(call)|, 2);
      && w' == w.(fs := w'.fs, owners := w'.owners, processes := w.processes[pid := Process(call, Finished(Ok(())))],
                  commits := w.commits + [call], committers := w.committers + [pid],
                  ledgers := w.ledgers[l := LedgerOf(w, l) + [CutAppend(call.event, |TextOf(call)|)]])
      && w'.fs.names.Keys == w.fs.names.Keys + {Target(cfg, call)}
  {
    hide TextOf, PathTo, OpenJournal, WriteJournal, AppendText, Steps;
    var call := w.processes[pid].call;
    var l, text := LocationFor(call), TextOf(call);
    OpenJournalEffect(cfg, w, pid);
    JournalSteps(cfg, w, pid, tag, |text|);
    AppendMakesFile(w.fs, Target(cfg, call), "");
    var w1 := OpenJournal(cfg, w, pid);
    WriteJournalEffect(cfg, w1, pid, |text|);
    AppendMakesFile(w1.fs, Target(cfg, call), text[0..|text|]);
    assert LedgerOf(w1, l)[..|LedgerOf(w1, l)| - 1] == LedgerOf(w, l);
  }

  lemma JournalSteps(cfg: Config, w: World, pid: nat, tag: string, chunk: nat)
    requires pid in w.processes && w.processes[pid].pc.Appending? && w.processes[pid].call.AppendEvent?
    requires var w1 := OpenJournal(cfg, w, pid);
      && pid in w1.processes && w1.processes[pid].pc.Journaling? && w1.processes[pid].call.AppendEvent?
    ensures Steps(cfg, w, pid, tag, chunk, 2) == WriteJournal(cfg, OpenJournal(cfg, w, pid), pid, chunk)
  {
    hide Check, Make, Open, Write, Publish, Clean, OpenJournal, WriteJournal;
    assert Steps(cfg, w, pid, tag, chunk, 0) == w;
    assert Steps(cfg, w, pid, tag, chunk, 1) == OpenJournal(cfg, w, pid);
  }

  lemma AppendMakesFile(fs: FS, p: Path, text: string)
    requires fs.Valid() && p !in fs.dirs
    ensures var after := AppendText(fs, p, text);
      after.Valid() && after.names.Keys == fs.names.Keys + {p} && after.dirs == fs.dirs
  {
  }

  /** The call has ended as on the files it found, and left nothing else. */
  ghost predicate EndedAs(cfg: Config, w: World, w': World, pid: nat, call: Call) {
    var (st, outcome) := PerformOn(cfg, w.fs, State(cfg, w), call);
    && State(cfg, w') == st && w'.processes == w.processes[pid := Process(call, Finished(outcome))]
    && w'.writer == None && w'.fs.names.Keys <= w.fs.names.Keys + {Target(cfg, call)}
  }

  /** Path construction, the secret check and `mkdir`. */
  lemma AloneStarts(cfg: Config, w: World, pid: nat, call: Call, tag: string, chunk: nat)
    requires Inv(cfg, w) && pid !in w.processes && w.writer == None
    ensures var a := w.(processes := w.processes[pid := Process(call, Start)]);
      var made := Mkdirs(w.fs, Parent(Target(cfg, call)));
      Steps(cfg, a, pid, tag, chunk, 2) ==
        a.(fs := if Admissible(cfg, call) && made.Some? then made.value else w.fs,
           processes := w.processes[pid := Process(call,
             if !Admissible(cfg, call) then Finished(Err(RefusalOf(call)))
             else if made.None? then Finished(Err(FileSystemError))
             else if call.AppendEvent? then Appending else Opening)])
  {
    hide Inv, Admit, Admissible, PathTo, Mkdirs, Open, Write, Publish, Clean, OpenJournal, WriteJournal;
    var a := w.(processes := w.processes[pid := Process(call, Start)]);
    assert Steps(cfg, a, pid, tag, chunk, 1) == Check(cfg, a, pid) by { assert Steps(cfg, a, pid, tag, chunk, 0) == a; }
    assert Steps(cfg, a, pid, tag, chunk, 2) == Next(cfg, Check(cfg, a, pid), Advance(pid, tag, chunk));
  }

  lemma AloneDocument(cfg: Config, w: World, made: World, pid: nat, call: Call, tag: string)
    requires Inv(cfg, w) && pid !in w.processes && w.writer == None && call.Instance() && !call.AppendEvent?
    requires Admissible(cfg, call) && !Obstructed(cfg.root, w.fs, State(cfg, w), LocationFor(call))
    requires var tmp := TempPath(Target(cfg, call), tag); tmp !in w.temps && !w.fs.Exists(tmp)
    requires Some(made.fs) == Mkdirs(w.fs, Parent(Target(cfg, call)))
    requires made == w.(fs := made.fs, processes := w.processes[pid := Process(call, Opening)])
    ensures EndedAs(cfg, w, Steps(cfg, made, pid, tag, |TextOf(call)|, 5), pid, call)
  {
    hide Inv, Holds, Admit, Admissible, Obstructed, PathTo, Mkdirs, TempPath, IsTemp, Steps, TextOf, Run, PerformOn,
      Displaces, CommitsOk, DataOf, State, FS.Exists, PublishOutcome;
    var l, tmp, chunk := LocationFor(call), TempPath(Target(cfg, call), tag), |TextOf(call)|;
    MadeFacts(cfg, w, made.fs, l);
    MadeTempFacts(cfg, w, made.fs, l, tag);
    TextIsThere(call);
    AloneWrites(cfg, made, pid, tag);
    var w5 := Steps(cfg, made, pid, tag, chunk, 3);
    AlonePublishes(cfg, w5, pid, tag, chunk);
    StepsAdd(cfg, made, pid, tag, chunk, 3, 2);
    DocumentOutcome(cfg, w, w5.fs, tmp, call);
    DocumentEnds(cfg, w, Steps(cfg, made, pid, tag, chunk, 5), call, PublishOutcome(w5.fs, call, Target(cfg, call)));
  }

  /** After `mkdir` for `l` the same files are there, and nothing new has the place of `l`. */
  lemma MadeFacts(cfg: Config, w: World, fs: FS, l: Location)
    requires Inv(cfg, w) && Some(fs) == Mkdirs(w.fs, Parent(PathTo(cfg.root, l)))
    ensures fs.Valid() && fs.names == w.fs.names && fs.data == w.fs.data
    ensures Taken(cfg.root, fs, l) <==> Taken(cfg.root, w.fs, l)
    ensures !l.Events? ==> (PathTo(cfg.root, l) in w.fs.names <==> l in State(cfg, w).docs)
    ensures l.Current? ==> !Taken(cfg.root, w.fs, l)
  {
    hide Inv, Holds, Obstructed, PathTo, Mkdirs, Run, Displaces, CommitsOk;
    InvParts(cfg, w);
    MkdirsFailsExactly(cfg.root, w.fs, State(cfg, w), l);
    MkdirsKeeps(cfg.root, w.fs, State(cfg, w), l);
    MkdirsDisplacesExactly(cfg.root, w.fs, l, l);
    NotOwnPlace(l);
    HoldsValid(cfg.root, fs, State(cfg, w));
    PresentExactly(cfg.root, w.fs, State(cfg, w), l);
  }

  lemma MadeTempFacts(cfg: Config, w: World, fs: FS, l: Location, tag: string)
    requires Some(fs) == Mkdirs(w.fs, Parent(PathTo(cfg.root, l)))
    requires !w.fs.Exists(TempPath(PathTo(cfg.root, l), tag))
    ensures !fs.Exists(TempPath(PathTo(cfg.root, l), tag)) && TempPath(PathTo(cfg.root, l), tag) != PathTo(cfg.root, l)
  {
    hide PathTo, TempPath, IsTemp, Mkdirs;
    TempIsTemp(cfg.root, l, tag);
    FinalIsNotTemp(cfg.root, l);
    NewTempIsFree(cfg.root, w.fs, l, tag);
  }

  /** What publishing on the files with the temporary one finds is what the files before said. */
  lemma DocumentOutcome(cfg: Config, w: World, fs: FS, tmp: Path, call: Call)
    requires var l := LocationFor(call); var path := PathTo(cfg.root, l);
      && !call.AppendEvent? && tmp != path && fs.names.Keys == w.fs.names.Keys + {tmp}
      && (path in fs.dirs <==> Taken(cfg.root, w.fs, l)) && (path in w.fs.names <==> l in State(cfg, w).docs)
    ensures var l := LocationFor(call);
      PublishOutcome(fs, call, Target(cfg, call)) ==
        if call.SaveCurrent? then if Taken(cfg.root, w.fs, l) then Err(FileSystemError) else Ok(())
        else if l in State(cfg, w).docs || Taken(cfg.root, w.fs, l) then Err(AlreadyExists) else Ok(())
  {
    hide PathTo, Run, Taken;
  }

  lemma HoldsValid(root: Path, fs: FS, st: Store)
    requires Holds(root, fs, st)
    ensures fs.Valid()
  {
  }

  lemma TextIsThere(call: Call)
    requires call.Instance()
    ensures TextOf(call) != ""
  {
    hide DumpsIndented, Line, DataOf;
    if call.AppendEvent? {
      LineIsLong(call.event);
    } else {
      DataIsObject(call);
      DumpsObjectEnds(DataOf(call));
    }
  }

  lemma DocumentEnds(cfg: Config, w: World, w': World, call: Call, outcome: Outcome)
    requires !call.AppendEvent? && Admissible(cfg, call) && w'.ledgers == w.ledgers
    requires !Obstructed(cfg.root, w.fs, State(cfg, w), LocationFor(call))
    requires var l := LocationFor(call);
      outcome == if call.SaveCurrent? then if Taken(cfg.root, w.fs, l) then Err(FileSystemError) else Ok(())
                 else if l in State(cfg, w).docs || Taken(cfg.root, w.fs, l) then Err(AlreadyExists) else Ok(())
    requires w'.commits == if outcome.Ok? then w.commits + [call] else w.commits
    ensures PerformOn(cfg, w.fs, State(cfg, w), call) == (State(cfg, w'), outcome)
  {
    hide Admit, Obstructed, Taken, DataOf, Run;
    RunSnoc(cfg, w.commits, call);
  }

  lemma AloneEvent(cfg: Config, w: World, made: World, pid: nat, call: Call, tag: string)
    requires Inv(cfg, w) && pid !in w.processes && w.writer == None && call.Instance() && call.AppendEvent?
    requires Admissible(cfg, call)
    requires Some(made.fs) == Mkdirs(w.fs, Parent(Target(cfg, call)))
    requires made == w.(fs := made.fs, processes := w.processes[pid := Process(call, Appending)])
    ensures EndedAs(cfg, w, Steps(cfg, made, pid, tag, |TextOf(call)|, 5), pid, call)
  {
    hide Inv, Holds, Admit, Admissible, Obstructed, PathTo, Mkdirs, Steps, TextOf, Run, PerformOn, Taken, Displaces,
      CommitsOk, DataOf, EndedAs;
    var l, chunk := LocationFor(call), |TextOf(call)|;
    InvParts(cfg, w);
    MadeFacts(cfg, w, made.fs, l);
    TextIsThere(call);
    if Taken(cfg.root, w.fs, l) {
      AloneIsTaken(cfg, made, pid, tag, chunk);
      StepsAdd(cfg, made, pid, tag, chunk, 1, 4);
      FinishedStays(cfg, SetPc(made, pid, Finished(Err(FileSystemError))), pid, tag, chunk, 4);
      EventEnds(cfg, w, SetPc(made, pid, Finished(Err(FileSystemError))), pid, call);
    } else {
      AloneAppends(cfg, made, pid, tag);
      var w' := Steps(cfg, made, pid, tag, chunk, 2);
      StepsAdd(cfg, made, pid, tag, chunk, 2, 3);
      FinishedStays(cfg, w', pid, tag, chunk, 3);
      EventEnds(cfg, w, w', pid, call);
    }
  }

  lemma AloneIsTaken(cfg: Config, w: World, pid: nat, tag: string, chunk: nat)
    requires pid in w.processes && w.processes[pid].pc.Appending? && w.writer == None
    requires var call := w.processes[pid].call; call.AppendEvent? && Taken(cfg.root, w.fs, LocationFor(call))
    ensures Steps(cfg, w, pid, tag, chunk, 1) == SetPc(w, pid, Finished(Err(FileSystemError)))
  {
    hide PathTo, Check, Make, Open, Write, Publish, Clean, WriteJournal;
    assert Steps(cfg, w, pid, tag, chunk, 0) == w;
  }

  lemma EventEnds(cfg: Config, w: World, w': World, pid: nat, call: Call)
    requires call.AppendEvent? && Admissible(cfg, call)
    requires var l := LocationFor(call);
      if Taken(cfg.root, w.fs, l) then w'.commits == w.commits && w'.ledgers == w.ledgers
      else
        && w'.commits == w.commits + [call]
        && w'.ledgers == w.ledgers[l := LedgerOf(w, l) + [CutAppend(call.event, |TextOf(call)|)]]
    requires var outcome := if Taken(cfg.root, w.fs, LocationFor(call)) then Err(FileSystemError) else Ok(());
      w'.processes == w.processes[pid := Process(call, Finished(outcome))]
    requires w'.writer == None && w'.fs.names.Keys <= w.fs.names.Keys + {Target(cfg, call)}
    ensures EndedAs(cfg, w, w', pid, call)
  {
    hide Admit, Taken, Run, Line, PathTo;
    RunSnoc(cfg, w.commits, call);
  }

  /** A call that nobody interrupts, from any reachable state in which nobody holds the workspace lock and whatever was
      left behind there, finishes with the outcome and the new state of that one call. */
  lemma CallAlone(cfg: Config, moves: seq<Move>, pid: nat, call: Call, tag: string)
    requires var w := Exec(cfg, moves); var tmp := TempPath(Target(cfg, call), tag);
      pid !in w.processes && call.Instance() && w.writer == None && tmp !in w.temps && !w.fs.Exists(tmp)
    ensures var alone := [Arrive(pid, call)] + Advances(pid, tag, |TextOf(call)|, 7);
      EndedAs(cfg, Exec(cfg, moves), Exec(cfg, moves + alone), pid, call)
  {
    hide Inv, Exec, Admit, Admissible, PathTo, Mkdirs, TempPath, Steps, TextOf, EndedAs, Obstructed, Advances, Holds,
      Next, Run;
    var w, chunk := Exec(cfg, moves), |TextOf(call)|;
    var a := w.(processes := w.processes[pid := Process(call, Start)]);
    InvAlways(cfg, moves);
    InvParts(cfg, w);
    ExecSnoc(cfg, moves, Arrive(pid, call));
    ArriveEffect(cfg, w, pid, call);
    ExecSteps(cfg, moves + [Arrive(pid, call)], pid, tag, chunk, 7);
    assert moves + ([Arrive(pid, call)] + Advances(pid, tag, chunk, 7))
        == moves + [Arrive(pid, call)] + Advances(pid, tag, chunk, 7);
    StepsAdd(cfg, a, pid, tag, chunk, 2, 5);
    AloneStarts(cfg, w, pid, call, tag, chunk);
    var made := Steps(cfg, a, pid, tag, chunk, 2);
    MkdirsFailsExactly(cfg.root, w.fs, State(cfg, w), LocationFor(call));
    if made.processes[pid].pc.Finished? {
      FinishedStays(cfg, made, pid, tag, chunk, 5);
      RefusalEnds(cfg, w, made, pid, call);
    } else if call.AppendEvent? {
      AloneEvent(cfg, w, made, pid, call, tag);
    } else {
      AloneDocument(cfg, w, made, pid, call, tag);
    }
  }

  lemma ArriveEffect(cfg: Config, w: World, pid: nat, call: Call)
    requires pid !in w.processes && call.Instance()
    ensures Next(cfg, w, Arrive(pid, call)) == w.(processes := w.processes[pid := Process(call, Start)])
  {
  }

  lemma RefusalEnds(cfg: Config, w: World, w': World, pid: nat, call: Call)
    requires Admissible(cfg, call) ==> Obstructed(cfg.root, w.fs, State(cfg, w), LocationFor(call))
    requires w.writer == None
    requires w' == w.(processes := w.processes[pid := Process(call, Finished(Err(
      if Admissible(cfg, call) then FileSystemError else RefusalOf(call))))])
    ensures EndedAs(cfg, w, w', pid, call)
  {
    hide Admit, Obstructed, Run, PathTo;
  }

  // -- what a death can leave behind ----------------------------------------

  /** The first moves of a call alone, a write of `n` characters, and the death of the process. */
  function CutShort(call: Call, tag: string, n: nat): seq<Move> {
    [Arrive(0, call)] + Advances(0, tag, 0, 3) + [Advance(0, tag, n), Crash(0)]
  }

  lemma ExecCutShort(cfg: Config, call: Call, tag: string, n: nat)
    ensures Exec(cfg, CutShort(call, tag, n)) == Next(cfg, Next(cfg,
      Steps(cfg, Next(cfg, START, Arrive(0, call)), 0, tag, 0, 3), Advance(0, tag, n)), Crash(0))
  {
    hide Next, Steps;
    var start, steps := [Arrive(0, call)], Advances(0, tag, 0, 3);
    assert [] + start == start && Exec(cfg, []) == START;
    hide Exec, Advances;
    ExecSnoc(cfg, [], Arrive(0, call));
    ExecSteps(cfg, start, 0, tag, 0, 3);
    ExecSnoc(cfg, start + steps, Advance(0, tag, n));
    ExecSnoc(cfg, start + steps + [Advance(0, tag, n)], Crash(0));
    assert CutShort(call, tag, n) == start + steps + [Advance(0, tag, n)] + [Crash(0)];
  }

  /** The directory is made, and nothing has the place of the file. */
  lemma FirstSteps(cfg: Config, call: Call, tag: string)
    requires call.Instance() && Admissible(cfg, call)
    ensures var w := Steps(cfg, Next(cfg, START, Arrive(0, call)), 0, tag, 0, 2);
      && w == START.(fs := w.fs, processes := map[0 := Process(call, if call.AppendEvent? then Appending else Opening)])
      && w.fs.Valid() && w.fs.names == map[] && w.fs.data == [] && !Taken(cfg.root, w.fs, LocationFor(call))
      && !w.fs.Exists(TempPath(Target(cfg, call), tag))
  {
    hide Inv, Admit, PathTo, Mkdirs, Steps, Next, Displaces, Taken, TempPath;
    var l := LocationFor(call);
    StartIsFine(cfg);
    ArriveEffect(cfg, START, 0, call);
    AloneStarts(cfg, START, 0, call, tag, 0);
    var dir := Parent(PathTo(cfg.root, l));
    NothingInTheWay(dir);
    var made := Mkdirs(EMPTY, dir).value;
    MadeFacts(cfg, START, made, l);
    MadeTempFacts(cfg, START, made, l, tag);
    NothingTaken(cfg.root, l);
    assert START.processes[0 := Process(call, Start)] == map[0 := Process(call, Start)];
    var pc := if call.AppendEvent? then Appending else Opening;
    assert START.processes[0 := Process(call, pc)] == map[0 := Process(call, pc)];
  }

  lemma NothingInTheWay(dir: Path)
    ensures Mkdirs(EMPTY, dir).Some?
  {
  }

  lemma NothingTaken(root: Path, l: Location)
    ensures !Taken(root, EMPTY, l)
  {
  }

  /** Every proper beginning of an event's line can be all that a death leaves in the journal. */
  lemma TornAppendIsReached(cfg: Config, e: Event, n: nat)
    requires e.Valid() && Admissible(cfg, Call.AppendEvent(e)) && n < |Line(e)|
    ensures var w, l := Exec(cfg, CutShort(Call.AppendEvent(e), "", n)), Events(e.taskId, e.attemptId);
      && w.fs.TextAt(PathTo(cfg.root, l)) == Some(Line(e)[..n]) && JournalOf(State(cfg, w), l) == [CutAppend(e, n)]
      && w.commits == [] && w.writer == None
  {
    hide Exec, Admit, Admissible, PathTo, Steps, Next, Line, CutShort, WriteJournal, TempPath, JustOpened;
    var call := Call.AppendEvent(e);
    ExecCutShort(cfg, call, "", n);
    JournalIsOpened(cfg, e);
    var w := Steps(cfg, Next(cfg, START, Arrive(0, call)), 0, "", 0, 3);
    JustOpenedIsTorn(cfg, w, e, n);
    CrashEffect(cfg, Next(cfg, w, Advance(0, "", n)), 0);
  }

  /** The journal of this event is there, and nothing of the event is in it. */
  ghost predicate JustOpened(cfg: Config, w: World, e: Event) {
    var call, l := Call.AppendEvent(e), Events(e.taskId, e.attemptId);
    var path := PathTo(cfg.root, l);
    && 0 in w.processes && w.processes[0] == Process(call, Journaling(0)) && w.writer == Some(0) && w.commits == []
    && LedgerOf(w, l) == [CutAppend(e, 0)]
    && w.fs.Valid() && path in w.fs.names && path !in w.fs.dirs && w.fs.TextAt(path) == Some("")
  }

  lemma JournalIsOpened(cfg: Config, e: Event)
    requires e.Valid() && Admissible(cfg, Call.AppendEvent(e))
    ensures JustOpened(cfg, Steps(cfg, Next(cfg, START, Arrive(0, Call.AppendEvent(e))), 0, "", 0, 3), e)
  {
    hide Admit, Admissible, PathTo, Steps, Next, OpenJournal, AppendText, TempPath;
    var call := Call.AppendEvent(e);
    FirstSteps(cfg, call, "");
    var a := Next(cfg, START, Arrive(0, call));
    var w := Steps(cfg, a, 0, "", 0, 2);
    StepsAre(cfg, a, 0, "", 0);
    AppendingNext(cfg, w, 0, "", 0);
    OpenJournalEffect(cfg, w, 0);
    AppendedText(w.fs, PathTo(cfg.root, Events(e.taskId, e.attemptId)), "");
    assert "" + "" == "" && [] + [CutAppend(e, 0)] == [CutAppend(e, 0)];
  }

  lemma JustOpenedIsTorn(cfg: Config, w: World, e: Event, n: nat)
    requires JustOpened(cfg, w, e) && n < |Line(e)|
    ensures var w', l := Next(cfg, w, Advance(0, "", n)), Events(e.taskId, e.attemptId);
      && 0 in w'.processes && w'.processes[0] == Process(Call.AppendEvent(e), Journaling(n))
      && w'.writer == Some(0) && w'.commits == [] && LedgerOf(w', l) == [CutAppend(e, n)]
      && w'.fs.TextAt(PathTo(cfg.root, l)) == Some(Line(e)[..n])
  {
    hide PathTo, Next, Line, WriteJournal, AppendText;
    AppendingNext(cfg, w, 0, "", n);
    WriteJournalEffect(cfg, w, 0, n);
    AppendedText(w.fs, PathTo(cfg.root, Events(e.taskId, e.attemptId)), Line(e)[0..n]);
    assert "" + Line(e)[0..n] == Line(e)[..n];
  }

  lemma StepsAre(cfg: Config, w: World, pid: nat, tag: string, chunk: nat)
    ensures Steps(cfg, w, pid, tag, chunk, 3) == Next(cfg, Steps(cfg, w, pid, tag, chunk, 2), Advance(pid, tag, chunk))
  {
    hide Next;
  }

  lemma AppendingNext(cfg: Config, w: World, pid: nat, tag: string, chunk: nat)
    requires pid in w.processes && w.processes[pid].call.AppendEvent?
    ensures w.processes[pid].pc.Appending? ==> Next(cfg, w, Advance(pid, tag, chunk)) == OpenJournal(cfg, w, pid)
    ensures w.processes[pid].pc.Journaling? ==>
      Next(cfg, w, Advance(pid, tag, chunk)) == WriteJournal(cfg, w, pid, chunk)
  {
    hide OpenJournal, WriteJournal;
  }

  lemma AppendedText(fs: FS, p: Path, text: string)
    requires fs.Valid() && p !in fs.dirs
    ensures var after := AppendText(fs, p, text);
      && after.Valid() && after.dirs == fs.dirs && p in after.names
      && after.TextAt(p) == Some((if p in fs.names then fs.data[fs.names[p]] else "") + text)
  {
    if p !in fs.names { assert "" + text == text; }
  }

  lemma CrashEffect(cfg: Config, w: World, pid: nat)
    requires pid in w.processes && !w.processes[pid].pc.Finished?
    ensures Next(cfg, w, Crash(pid)) ==
      w.(processes := w.processes[pid := w.processes[pid].(pc := Dead)],
         writer := if w.writer == Some(pid) then None else w.writer)
  {
  }

  /** Every proper beginning of a document's text can be all that a death leaves, under its temporary name. */
  lemma TornTempIsReached(cfg: Config, call: Call, tag: string, n: nat)
    requires call.Instance() && !call.AppendEvent? && Admissible(cfg, call) && n < |TextOf(call)|
    ensures var w := Exec(cfg, CutShort(call, tag, n));
      && w.fs.TextAt(TempPath(Target(cfg, call), tag)) == Some(TextOf(call)[..n])
      && w.fs.names.Keys == {TempPath(Target(cfg, call), tag)} && w.commits == []
  {
    hide Exec, Admit, Admissible, PathTo, Steps, Next, TextOf, CutShort, Open, Write, TempPath;
    var tmp := TempPath(Target(cfg, call), tag);
    ExecCutShort(cfg, call, tag, n);
    FirstSteps(cfg, call, tag);
    var a := Next(cfg, START, Arrive(0, call));
    var w2 := Steps(cfg, a, 0, tag, 0, 2);
    var w3 := Open(cfg, w2, 0, tag);
    StepsAre(cfg, a, 0, tag, 0);
    TempNext(cfg, w2, 0, tag, 0);
    OpenEffect(cfg, w2, 0, tag);
    TempNext(cfg, w3, 0, tag, n);
    WriteEffect(w3, 0, n);
    assert "" + TextOf(call)[0..n] == TextOf(call)[..n];
    CrashEffect(cfg, Write(w3, 0, n), 0);
  }

  lemma TempNext(cfg: Config, w: World, pid: nat, tag: string, chunk: nat)
    requires pid in w.processes
    ensures w.processes[pid].pc.Opening? ==> Next(cfg, w, Advance(pid, tag, chunk)) == Open(cfg, w, pid, tag)
    ensures w.processes[pid].pc.Writing? ==> Next(cfg, w, Advance(pid, tag, chunk)) == Write(w, pid, chunk)
  {
    hide Open, Write;
  }
}
