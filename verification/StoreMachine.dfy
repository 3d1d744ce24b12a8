/** Any number of processes using one store at the same time, each of which may die between any two steps.

    A call runs as its system calls: checks, `mkdir`, `open` of a new temporary file, any number of
    partial writes, `os.replace` or `os.link`, `unlink`; or `open` of the journal and any number of partial writes
    at its end, under the workspace lock. A move says which process goes on. */
module StoreMachine {
  import opened Wrappers
  import opened Journal
  import opened Paths
  import opened FileSystem
  import opened Store
  import opened Refinement

  datatype Pc =
    | Start
    | Making
    | Opening
    | Writing(tmp: Path, inode: nat, written: nat)
    | Publishing(tmp: Path, inode: nat)
    | Cleaning(tmp: Path, outcome: Outcome)
    | Appending
    | Journaling(written: nat)
    | Finished(outcome: Outcome)
    | Dead
  {
    predicate HasTemp() { Writing? || Publishing? || Cleaning? }
  }

  datatype Process = Process(call: Call, pc: Pc)

  /** Who created an inode: a process for its temporary file, or the journal it belongs to. */
  datatype Owner = Writer(pid: nat) | Ledger(l: Location)

  /** `writer` is the process that holds the workspace lock to append to a journal. `temps`, `commits`, `committers`,
      `owners` and `ledgers` are history: the temporary names ever used, the calls that took effect in order, the
      processes that made them, the origin of each inode, and what was appended to each journal. */
  datatype World = World(
    fs: FS,
    processes: map<nat, Process>,
    writer: Option<nat>,
    temps: set<Path>,
    commits: seq<Call>,
    committers: seq<nat>,
    owners: seq<Owner>,
    ledgers: map<Location, seq<CutAppend>>)

  const START: World := World(EMPTY, map[], None, {}, [], [], [], map[])

  /** `tag` is the uuid of a temporary file being opened, `chunk` how much of the text a write gets out. */
  datatype Move =
    | Arrive(pid: nat, call: Call)
    | Advance(pid: nat, tag: string, chunk: nat)
    | Crash(pid: nat)

  function Target(cfg: Config, call: Call): (p: Path)
    ensures p != []
  {
    PathTo(cfg.root, LocationFor(call))
  }

  /** The process goes on at `pc`. It holds the workspace lock while it is writing to a journal, and no longer. */
  function SetPc(w: World, pid: nat, pc: Pc): World
    requires pid in w.processes
  {
    w.(processes := w.processes[pid := w.processes[pid].(pc := pc)],
       writer := if pc.Journaling? then Some(pid) else if w.writer == Some(pid) then None else w.writer)
  }

  function Committed(w: World, pid: nat): World
    requires pid in w.processes
  {
    w.(commits := w.commits + [w.processes[pid].call], committers := w.committers + [pid])
  }

  // -- one step of each kind ------------------------------------------------

  /** Path construction and the secret check. */
  function Check(cfg: Config, w: World, pid: nat): World
    requires pid in w.processes
  {
    match Admit(cfg, w.processes[pid].call)
    case Err(e) => SetPc(w, pid, Finished(Err(e)))
    case Ok(_) => SetPc(w, pid, Making)
  }

  function Make(cfg: Config, w: World, pid: nat): World
    requires pid in w.processes
  {
    var call := w.processes[pid].call;
    match Mkdirs(w.fs, Parent(Target(cfg, call)))
    case None => SetPc(w, pid, Finished(Err(FileSystemError)))
    case Some(made) => SetPc(w.(fs := made), pid, if call.AppendEvent? then Appending else Opening)
  }

  /** A uuid is new: its name was never used for a temporary file and names nothing. */
  function Open(cfg: Config, w: World, pid: nat, tag: string): World
    requires pid in w.processes
  {
    var tmp := TempPath(Target(cfg, w.processes[pid].call), tag);
    if tmp in w.temps || w.fs.Exists(tmp) then w
    else
      SetPc(w.(fs := OpenNew(w.fs, tmp), temps := w.temps + {tmp}, owners := w.owners + [Writer(pid)]),
            pid, Writing(tmp, |w.fs.data|, 0))
  }

  function Write(w: World, pid: nat, chunk: nat): World
    requires pid in w.processes && w.processes[pid].pc.Writing?
  {
    var Process(call, pc) := w.processes[pid];
    var text := TextOf(call);
    if pc.written >= |text| || pc.inode >= |w.fs.data| then SetPc(w, pid, Publishing(pc.tmp, pc.inode))
    else
      var end := if pc.written + chunk <= |text| then pc.written + chunk else |text|;
      SetPc(w.(fs := WriteInode(w.fs, pc.inode, text[pc.written..end])), pid, pc.(written := end))
  }

  /** The step that makes the document visible, or finds that it may not. */
  function Publish(cfg: Config, w: World, pid: nat): World
    requires pid in w.processes && w.processes[pid].pc.Publishing?
  {
    var Process(call, pc) := w.processes[pid];
    var path := Target(cfg, call);
    if pc.tmp !in w.fs.names then SetPc(w, pid, Cleaning(pc.tmp, Err(FileSystemError)))
    else if call.SaveCurrent? then
      if path in w.fs.dirs then SetPc(w, pid, Cleaning(pc.tmp, Err(FileSystemError)))
      else SetPc(Committed(w.(fs := Replace(w.fs, pc.tmp, path)), pid), pid, Cleaning(pc.tmp, Ok(())))
    else if w.fs.Exists(path) then SetPc(w, pid, Cleaning(pc.tmp, Err(AlreadyExists)))
    else SetPc(Committed(w.(fs := Link(w.fs, pc.tmp, path)), pid), pid, Cleaning(pc.tmp, Ok(())))
  }

  function Clean(w: World, pid: nat): World
    requires pid in w.processes && w.processes[pid].pc.Cleaning?
  {
    var pc := w.processes[pid].pc;
    SetPc(w.(fs := Unlink(w.fs, pc.tmp)), pid, Finished(pc.outcome))
  }

  function LedgerOf(w: World, l: Location): seq<CutAppend> {
    if l in w.ledgers then w.ledgers[l] else []
  }

  /** Opening the journal for append, once the workspace lock is free; creates the file. */
  function OpenJournal(cfg: Config, w: World, pid: nat): World
    requires pid in w.processes && w.processes[pid].call.AppendEvent?
  {
    var call := w.processes[pid].call;
    var l, path := LocationFor(call), Target(cfg, call);
    if w.writer.Some? then w
    else if path in w.fs.dirs || (path in w.fs.names && w.fs.names[path] >= |w.fs.data|) then
      SetPc(w, pid, Finished(Err(FileSystemError)))
    else
      var isNew := path !in w.fs.names;
      SetPc(w.(fs := if isNew then OpenNew(w.fs, path) else w.fs,
               owners := if isNew then w.owners + [Ledger(l)] else w.owners,
               ledgers := w.ledgers[l := LedgerOf(w, l) + [CutAppend(call.event, 0)]]),
            pid, Journaling(0))
  }

  /** One write at the end of the journal, of some of what is left of the line. */
  function WriteJournal(cfg: Config, w: World, pid: nat, chunk: nat): World
    requires pid in w.processes && w.processes[pid].call.AppendEvent? && w.processes[pid].pc.Journaling?
  {
    var Process(call, pc) := w.processes[pid];
    var l, path, text := LocationFor(call), Target(cfg, call), TextOf(call);
    var ledger := LedgerOf(w, l);
    if path !in w.fs.names || w.fs.names[path] >= |w.fs.data| || ledger == [] || pc.written > |text| then
      SetPc(w, pid, Finished(Err(FileSystemError)))
    else
      var end := if pc.written + chunk <= |text| then pc.written + chunk else |text|;
      var after := w.(fs := WriteInode(w.fs, w.fs.names[path], text[pc.written..end]),
                      ledgers := w.ledgers[l := ledger[..|ledger| - 1] + [CutAppend(call.event, end)]]);
      if end == |text| then SetPc(Committed(after, pid), pid, Finished(Ok(()))) else SetPc(after, pid, Journaling(end))
  }

  ghost function Next(cfg: Config, w: World, move: Move): World {
    match move
    case Arrive(pid, call) =>
      if pid in w.processes || !call.Instance() then w
      else w.(processes := w.processes[pid := Process(call, Start)])
    case Crash(pid) =>
      if pid in w.processes && !w.processes[pid].pc.Finished? then SetPc(w, pid, Dead) else w
    case Advance(pid, tag, chunk) =>
      if pid !in w.processes then w
      else match w.processes[pid].pc
        case Start => Check(cfg, w, pid)
        case Making => Make(cfg, w, pid)
        case Opening => Open(cfg, w, pid, tag)
        case Writing(_, _, _) => Write(w, pid, chunk)
        case Publishing(_, _) => Publish(cfg, w, pid)
        case Cleaning(_, _) => Clean(w, pid)
        case Appending => if w.processes[pid].call.AppendEvent? then OpenJournal(cfg, w, pid) else w
        case Journaling(_) => if w.processes[pid].call.AppendEvent? then WriteJournal(cfg, w, pid, chunk) else w
        case Finished(_) => w
        case Dead => w
  }

  ghost function Exec(cfg: Config, moves: seq<Move>): World {
    if moves == [] then START
    else Next(cfg, Exec(cfg, moves[..|moves| - 1]), moves[|moves| - 1])
  }
}

/** What holds in every reachable state of the store's processes. */
module StoreMachineProperties {
  import opened Wrappers
  import opened Json
  import opened Models
  import opened ModelProperties
  import opened Journal
  import opened JournalProperties
  import opened Paths
  import opened FileSystem
  import opened Store
  import opened Refinement
  import opened LocalStore
  import opened StoreMachine

  // -- the invariant --------------------------------------------------------

  /** The documents of the committed calls, and the journals as the appends left them. */
  ghost function State(cfg: Config, w: World): Store { Store(Run(cfg, w.commits).docs, w.ledgers) }

  /** The process has passed its checks and its directory is there. */
  ghost predicate Cleared(cfg: Config, w: World, call: Call) {
    Admissible(cfg, call) && Parent(Target(cfg, call)) in w.fs.dirs
  }

  /** Nobody but this process can reach the inode it writes: only its temporary name leads there. */
  ghost predicate Private(cfg: Config, w: World, pid: nat, tmp: Path, inode: nat, written: nat)
    requires pid in w.processes
  {
    var call := w.processes[pid].call;
    && !call.AppendEvent? && IsTemp(cfg.root, tmp) && tmp in w.temps
    && Sole(w.fs, tmp) && w.fs.names[tmp] == inode && inode < |w.fs.data|
    && inode < |w.owners| && w.owners[inode] == Writer(pid)
    && written <= |TextOf(call)| && w.fs.data[inode] == TextOf(call)[..written]
  }

  /** What can have stood where the directory of a report belongs: the record or the journal of its attempt, or a
      temporary file. */
  ghost predicate InTheWay(cfg: Config, w: World, call: Call) {
    call.AppendReport? &&
    (|| (call.category == ATTEMPT_FILENAME && Record(call.task, call.attemptId) in State(cfg, w).docs)
     || (call.category == EVENTS_FILENAME && Events(call.task, call.attemptId) in State(cfg, w).journals)
     || IsTempName(call.category))
  }

  ghost predicate Explained(cfg: Config, w: World, call: Call, e: Failure) {
    if !Admissible(cfg, call) then e == RefusalOf(call)
    else
      || (e == AlreadyExists && Creates(call) && LocationFor(call) in State(cfg, w).docs)
      || (Taken(cfg.root, w.fs, LocationFor(call))
          && ((e == AlreadyExists && call.SaveRecord?) || (e == FileSystemError && call.AppendEvent?)))
      || (e == FileSystemError && InTheWay(cfg, w, call))
  }

  /** The process holds the workspace lock and its append is the last of its journal. */
  ghost predicate Appends(w: World, pid: nat, written: nat)
    requires pid in w.processes
  {
    var call := w.processes[pid].call;
    && call.AppendEvent? && w.writer == Some(pid) && written < |TextOf(call)|
    && var ledger := LedgerOf(w, LocationFor(call));
       ledger != [] && ledger[|ledger| - 1] == CutAppend(call.event, written)
  }

  ghost predicate OutcomeOk(cfg: Config, w: World, pid: nat, outcome: Outcome)
    requires pid in w.processes
  {
    && (outcome.Ok? <==> pid in w.committers)
    && (outcome.Err? ==> Explained(cfg, w, w.processes[pid].call, outcome.error))
  }

  ghost predicate ProcessOk(cfg: Config, w: World, pid: nat)
    requires pid in w.processes
  {
    var Process(call, pc) := w.processes[pid];
    && call.Instance()
    && match pc
       case Start => pid !in w.committers
       case Making => pid !in w.committers && Admissible(cfg, call)
       case Opening => pid !in w.committers && Cleared(cfg, w, call) && !call.AppendEvent?
       case Appending => pid !in w.committers && Cleared(cfg, w, call) && call.AppendEvent?
       case Journaling(written) => pid !in w.committers && Cleared(cfg, w, call) && Appends(w, pid, written)
       case Writing(tmp, inode, written) =>
         pid !in w.committers && Cleared(cfg, w, call) && Private(cfg, w, pid, tmp, inode, written)
       case Publishing(tmp, inode) =>
         pid !in w.committers && Cleared(cfg, w, call) && Private(cfg, w, pid, tmp, inode, |TextOf(call)|)
       case Cleaning(tmp, outcome) => IsTemp(cfg.root, tmp) && tmp in w.temps && OutcomeOk(cfg, w, pid, outcome)
       case Finished(outcome) => OutcomeOk(cfg, w, pid, outcome)
       case Dead => true
  }

  /** Each commit is a call of a process, took effect when it was made, and is that process's only one. */
  ghost predicate CommitsOk(cfg: Config, w: World) {
    && |w.commits| == |w.committers|
    && (forall i | 0 <= i < |w.committers| ::
          w.committers[i] in w.processes && w.processes[w.committers[i]].call == w.commits[i])
    && (forall i, j | 0 <= i < j < |w.committers| :: w.committers[i] != w.committers[j])
    && (forall i | 0 <= i < |w.commits| :: Perform(cfg, Run(cfg, w.commits[..i]), w.commits[i]).1.Ok?)
  }

  /** An inode holds a beginning of one admitted call's text, or a journal. */
  ghost predicate OwnedOk(cfg: Config, w: World, inode: nat)
    requires inode < |w.owners| && inode < |w.fs.data|
  {
    match w.owners[inode]
    case Writer(pid) =>
      && pid in w.processes && w.processes[pid].call.Instance() && Admissible(cfg, w.processes[pid].call)
      && !w.processes[pid].call.AppendEvent?
      && w.fs.data[inode] <= TextOf(w.processes[pid].call)
    case Ledger(l) =>
      l in w.ledgers && PathTo(cfg.root, l) in w.fs.names && w.fs.names[PathTo(cfg.root, l)] == inode
  }

  /** A temporary name belongs to the process that is using it, or was left by one that died; a journal's name
      leads to the journal's inode. */
  ghost predicate NameOk(cfg: Config, w: World, p: Path) {
    p in w.fs.names ==>
      && w.fs.names[p] < |w.owners|
      && (IsTemp(cfg.root, p) ==>
            && w.owners[w.fs.names[p]].Writer?
            && var pid := w.owners[w.fs.names[p]].pid;
               pid in w.processes
               && (w.processes[pid].pc.Dead? || (w.processes[pid].pc.HasTemp() && w.processes[pid].pc.tmp == p)))
      && (!IsTemp(cfg.root, p) && Holder(cfg.root, p).Some? && Holder(cfg.root, p).value.Events? ==>
            w.owners[w.fs.names[p]] == Ledger(Holder(cfg.root, p).value))
  }

  ghost predicate TempsApart(w: World) {
    forall p, q | p in w.processes && q in w.processes && p != q
      && w.processes[p].pc.HasTemp() && w.processes[q].pc.HasTemp() :: w.processes[p].pc.tmp != w.processes[q].pc.tmp
  }

  /** Whoever holds the workspace lock is alive and writing. */
  ghost predicate WriterOk(w: World) {
    w.writer.Some? ==> w.writer.value in w.processes && w.processes[w.writer.value].pc.Journaling?
  }

  ghost predicate Inv(cfg: Config, w: World) {
    && Holds(cfg.root, w.fs, State(cfg, w))
    && CommitsOk(cfg, w)
    && TempsApart(w)
    && (forall pid | pid in w.processes :: ProcessOk(cfg, w, pid))
    && WriterOk(w)
    && |w.owners| == |w.fs.data|
    && (forall inode | 0 <= inode < |w.fs.data| :: OwnedOk(cfg, w, inode))
    && (forall p | p in w.fs.names :: NameOk(cfg, w, p))
  }

  // -- what a step leaves alone ---------------------------------------------

  /** A step of another process does not touch what process `q` relies on. */
  ghost predicate Undisturbed(cfg: Config, w: World, w': World, q: nat)
    requires q in w.processes
  {
    && q in w'.processes && w'.processes[q] == w.processes[q]
    && w.fs.dirs <= w'.fs.dirs && w.temps <= w'.temps && w.owners <= w'.owners
    && (q in w'.committers <==> q in w.committers)
    && State(cfg, w).docs.Keys <= State(cfg, w').docs.Keys && w.ledgers.Keys <= w'.ledgers.Keys
    && (w.processes[q].pc.Writing? || w.processes[q].pc.Publishing? ==>
          KeepsPrivate(w.fs, w'.fs, w.processes[q].pc.tmp))
    && (w.processes[q].pc.Journaling? ==> w'.writer == w.writer && w'.ledgers == w.ledgers)
  }

  ghost predicate KeepsPrivate(fs: FS, fs': FS, tmp: Path) {
    Sole(fs, tmp) && fs.names[tmp] < |fs.data| ==>
      && Sole(fs', tmp) && fs'.names[tmp] == fs.names[tmp]
      && fs.names[tmp] < |fs'.data| && fs'.data[fs.names[tmp]] == fs.data[fs.names[tmp]]
  }

  lemma UndisturbedOk(cfg: Config, w: World, w': World, q: nat)
    requires q in w.processes && ProcessOk(cfg, w, q) && Undisturbed(cfg, w, w', q)
    ensures ProcessOk(cfg, w', q)
  {
    hide Run, Admit, Admissible, TextOf, PathTo, IsTemp;
  }

  /** Inodes keep what explains them when their text, their owner and the names of journals stay. */
  ghost predicate SameFor(cfg: Config, w: World, w': World) {
    && w.processes.Keys <= w'.processes.Keys
    && (forall pid | pid in w.processes :: w'.processes[pid].call == w.processes[pid].call)
    && w.owners <= w'.owners && w.fs.dirs <= w'.fs.dirs && w.temps <= w'.temps
    && State(cfg, w).docs.Keys <= State(cfg, w').docs.Keys
    && w.ledgers.Keys <= w'.ledgers.Keys
    && (forall p | p in w.fs.names && IsJournal(cfg, p) :: p in w'.fs.names && w'.fs.names[p] == w.fs.names[p])
  }

  ghost predicate IsJournal(cfg: Config, p: Path) {
    !IsTemp(cfg.root, p) && Holder(cfg.root, p).Some? && Holder(cfg.root, p).value.Events?
  }

  lemma OwnedKeeps(cfg: Config, w: World, w': World, inode: nat)
    requires inode < |w.owners| && inode < |w.fs.data| && OwnedOk(cfg, w, inode) && SameFor(cfg, w, w')
    requires inode < |w'.fs.data| && w'.fs.data[inode] == w.fs.data[inode]
    requires Holds(cfg.root, w.fs, State(cfg, w))
    ensures OwnedOk(cfg, w', inode)
  {
    hide Run, Admit, Admissible, TextOf, PathTo, IsTemp, Holder, DocText, Appended, AllPossible, IsDir;
    match w.owners[inode]
    case Writer(pid) =>
    case Ledger(l) =>
      assert JournalHeld(cfg.root, w.fs, l, State(cfg, w).journals[l]);
      FinalIsNotTemp(cfg.root, l);
      HolderOfPath(cfg.root, l);
  }

  /** How the mover's own temporary name may change: it appears with its inode, stays, or goes. */
  ghost predicate NamesFrom(cfg: Config, w: World, w': World, pid: nat)
    requires pid in w.processes
  {
    forall p | p in w'.fs.names ::
      || NameOk(cfg, w', p)
      || (p in w.fs.names && w'.fs.names[p] == w.fs.names[p]
          && (w.processes[pid].pc.HasTemp() ==> p != w.processes[pid].pc.tmp))
  }

  lemma NameKeeps(cfg: Config, w: World, w': World, pid: nat, p: Path)
    requires NameOk(cfg, w, p) && SameFor(cfg, w, w') && pid in w.processes
    requires pid in w'.processes && w'.processes == w.processes[pid := w'.processes[pid]] && !w.processes[pid].pc.Dead?
    requires p in w.fs.names && p in w'.fs.names && w'.fs.names[p] == w.fs.names[p]
    requires w.processes[pid].pc.HasTemp() ==> p != w.processes[pid].pc.tmp
    ensures NameOk(cfg, w', p)
  {
    hide Run, IsTemp, Holder;
  }

  /** All that a step of `pid` changes in the files is accounted for: its own temporary name and inode, or the end of
      a journal. */
  ghost predicate Contained(cfg: Config, w: World, w': World, pid: nat)
    requires pid in w.processes
  {
    && SameFor(cfg, w, w') && NamesFrom(cfg, w, w', pid)
    && |w'.owners| == |w'.fs.data| && |w.fs.data| <= |w'.fs.data|
    && (forall tmp | tmp in w.fs.names && IsTemp(cfg.root, tmp)
          && (w.processes[pid].pc.HasTemp() ==> tmp != w.processes[pid].pc.tmp) :: KeepsPrivate(w.fs, w'.fs, tmp))
    && (forall inode | 0 <= inode < |w'.fs.data| ::
          (inode < |w.fs.data| && w'.fs.data[inode] == w.fs.data[inode]) || OwnedOk(cfg, w', inode))
  }

  /** The invariant carries over a step of `pid` once what the step itself changed is accounted for. */
  lemma StepKeeps(cfg: Config, w: World, w': World, pid: nat)
    requires Inv(cfg, w) && pid in w.processes && !w.processes[pid].pc.Dead?
    requires Contained(cfg, w, w', pid)
    requires pid in w'.processes && w'.processes == w.processes[pid := w'.processes[pid]]
    requires w'.committers == w.committers || w'.committers == w.committers + [pid]
    requires Holds(cfg.root, w'.fs, State(cfg, w')) && CommitsOk(cfg, w') && TempsApart(w')
    requires ProcessOk(cfg, w', pid)
    requires forall q | q in w.processes && q != pid && w.processes[q].pc.Journaling? ::
      w'.writer == w.writer && w'.ledgers == w.ledgers
    requires (w'.writer == w.writer && w.writer != Some(pid)) || WriterOk(w')
    ensures Inv(cfg, w')
  {
    hide Run, Holds, Admit, Admissible, TextOf, PathTo, Holder, IsTemp, CommitsOk, KeepsPrivate, Sole, Appends;
    hide OwnedOk, NameOk;
    forall q | q in w'.processes ensures ProcessOk(cfg, w', q) {
      if q != pid {
        PrivateIsNamed(cfg, w, q);
        UndisturbedOk(cfg, w, w', q);
      }
    }
    forall inode | 0 <= inode < |w'.fs.data| ensures OwnedOk(cfg, w', inode) {
      if inode < |w.fs.data| && w'.fs.data[inode] == w.fs.data[inode] { OwnedKeeps(cfg, w, w', inode); }
    }
    forall p | p in w'.fs.names ensures NameOk(cfg, w', p) {
      if !NameOk(cfg, w', p) { NameKeeps(cfg, w, w', pid, p); }
    }
  }

  lemma PrivateIsNamed(cfg: Config, w: World, q: nat)
    requires q in w.processes && ProcessOk(cfg, w, q)
    ensures var pc := w.processes[q].pc;
      pc.Writing? || pc.Publishing? ==> pc.tmp in w.fs.names && IsTemp(cfg.root, pc.tmp)
  {
    hide Run, Admit, Admissible, TextOf, PathTo, IsTemp;
  }

  lemma WriterIsJournaling(cfg: Config, w: World, pid: nat)
    requires Inv(cfg, w) && pid in w.processes && !w.processes[pid].pc.Journaling?
    ensures w.writer != Some(pid)
  {
    hide Run, Holds, Admit, Admissible, TextOf, PathTo, Holder, IsTemp, CommitsOk, TempsApart, OwnedOk, NameOk,
      ProcessOk;
  }

  lemma JournalingIsWriter(cfg: Config, w: World, q: nat)
    requires q in w.processes && ProcessOk(cfg, w, q) && w.processes[q].pc.Journaling?
    ensures w.writer == Some(q)
  {
    hide Run, Admit, Admissible, PathTo, TextOf;
  }

  /** Steps that change nothing but the mover's program counter. */
  lemma PcStepKeeps(cfg: Config, w: World, pid: nat, pc: Pc)
    requires Inv(cfg, w) && pid in w.processes
    requires ProcessOk(cfg, SetPc(w, pid, pc), pid)
    requires pc.HasTemp() ==> w.processes[pid].pc.HasTemp() && w.processes[pid].pc.tmp == pc.tmp
    requires w.processes[pid].pc.HasTemp() ==> pc.HasTemp() || pc.Dead?
    requires !w.processes[pid].pc.Dead? && !pc.Journaling?
    ensures Inv(cfg, SetPc(w, pid, pc))
  {
    hide Run, Holds, Contained, ProcessOk, CommitsOk, OwnedOk, NameOk, TempsApart, Inv;
    var w' := SetPc(w, pid, pc);
    InvFacts(cfg, w, pid);
    OthersFacts(cfg, w);
    forall q | q in w.processes && q != pid && w.processes[q].pc.Journaling?
      ensures w'.writer == w.writer && w'.ledgers == w.ledgers
    {
      JournalingIsWriter(cfg, w, q);
    }
    TempsOnlyGo(w, w', pid);
    SameCommits(cfg, w, w');
    PcStepContained(cfg, w, pid, pc);
    StepKeeps(cfg, w, w', pid);
  }

  lemma OthersFacts(cfg: Config, w: World)
    requires Inv(cfg, w)
    ensures forall q | q in w.processes :: ProcessOk(cfg, w, q)
    ensures forall p | p in w.fs.names :: NameOk(cfg, w, p)
    ensures forall inode | 0 <= inode < |w.fs.data| :: inode < |w.owners| && OwnedOk(cfg, w, inode)
  {
    hide ProcessOk, NameOk, OwnedOk, Holds, CommitsOk, TempsApart;
  }

  lemma TempsOnlyGo(w: World, w': World, pid: nat)
    requires TempsApart(w) && pid in w.processes
    requires pid in w'.processes && w'.processes == w.processes[pid := w'.processes[pid]]
    requires w'.processes[pid].pc.HasTemp() ==>
      w.processes[pid].pc.HasTemp() && w'.processes[pid].pc.tmp == w.processes[pid].pc.tmp
    ensures TempsApart(w')
  {
  }

  lemma PcStepContained(cfg: Config, w: World, pid: nat, pc: Pc)
    requires pid in w.processes && |w.owners| == |w.fs.data| && !w.processes[pid].pc.Dead?
    requires forall p | p in w.fs.names :: NameOk(cfg, w, p)
    requires w.processes[pid].pc.HasTemp() ==> pc.Dead? || (pc.HasTemp() && w.processes[pid].pc.tmp == pc.tmp)
    ensures Contained(cfg, w, SetPc(w, pid, pc), pid)
  {
    hide Run, IsTemp, Holder, NameOk, OwnedOk;
    forall p | p in w.fs.names ensures NameOk(cfg, SetPc(w, pid, pc), p) { PcStepNames(cfg, w, pid, pc, p); }
  }

  lemma PcStepNames(cfg: Config, w: World, pid: nat, pc: Pc, p: Path)
    requires pid in w.processes && NameOk(cfg, w, p) && !w.processes[pid].pc.Dead?
    requires w.processes[pid].pc.HasTemp() ==> pc.Dead? || (pc.HasTemp() && w.processes[pid].pc.tmp == pc.tmp)
    ensures NameOk(cfg, SetPc(w, pid, pc), p)
  {
    hide Holder, IsTemp;
  }

  lemma ArriveKeeps(cfg: Config, w: World, pid: nat, call: Call)
    requires Inv(cfg, w) && pid !in w.processes && call.Instance()
    ensures Inv(cfg, w.(processes := w.processes[pid := Process(call, Start)]))
  {
    hide Run, Holds, ProcessOk, OwnedOk, NameOk;
    var w' := w.(processes := w.processes[pid := Process(call, Start)]);
    forall q | q in w'.processes ensures ProcessOk(cfg, w', q) { ArriveProcess(cfg, w, pid, call, q); }
    forall inode | 0 <= inode < |w'.fs.data| ensures OwnedOk(cfg, w', inode) {
      ArriveOwned(cfg, w, pid, call, inode);
    }
    forall p | p in w'.fs.names ensures NameOk(cfg, w', p) { ArriveNames(cfg, w, pid, call, p); }
    SameCommits(cfg, w, w');
    hide CommitsOk;
  }

  lemma ArriveProcess(cfg: Config, w: World, pid: nat, call: Call, q: nat)
    requires Inv(cfg, w) && pid !in w.processes && call.Instance() && (q == pid || q in w.processes)
    ensures ProcessOk(cfg, w.(processes := w.processes[pid := Process(call, Start)]), q)
  {
    hide Run, Holds, Admit, Admissible, TextOf, PathTo, IsTemp, OwnedOk, NameOk, TempsApart;
    if q != pid {
      UndisturbedOk(cfg, w, w.(processes := w.processes[pid := Process(call, Start)]), q);
    }
  }

  lemma ArriveOwned(cfg: Config, w: World, pid: nat, call: Call, inode: nat)
    requires pid !in w.processes && inode < |w.owners| && inode < |w.fs.data| && OwnedOk(cfg, w, inode)
    ensures OwnedOk(cfg, w.(processes := w.processes[pid := Process(call, Start)]), inode)
  {
    hide Admit, Admissible, TextOf, PathTo;
  }

  lemma ArriveNames(cfg: Config, w: World, pid: nat, call: Call, p: Path)
    requires pid !in w.processes && NameOk(cfg, w, p)
    ensures NameOk(cfg, w.(processes := w.processes[pid := Process(call, Start)]), p)
  {
    hide Holder, IsTemp;
  }

  lemma CheckKeeps(cfg: Config, w: World, pid: nat)
    requires Inv(cfg, w) && pid in w.processes && w.processes[pid].pc.Start?
    ensures Inv(cfg, Check(cfg, w, pid))
  {
    hide Run, Holds, Admit, Admissible, TextOf, PathTo, Holder, IsTemp, CommitsOk, TempsApart, OwnedOk, NameOk;
    assert ProcessOk(cfg, w, pid);
    match Admit(cfg, w.processes[pid].call)
    case Err(e) => PcStepKeeps(cfg, w, pid, Finished(Err(e)));
    case Ok(_) => PcStepKeeps(cfg, w, pid, Making);
  }

  lemma AdmittedIsNamed(cfg: Config, call: Call)
    requires call.Instance() && Admissible(cfg, call)
    ensures Named(LocationFor(call)) && Admit(cfg, call) == Ok(Target(cfg, call))
  {
    hide Locate;
    LocateIs(cfg.root, LocationFor(call));
  }

  lemma SameCommits(cfg: Config, w: World, w': World)
    requires CommitsOk(cfg, w) && w'.commits == w.commits && w'.committers == w.committers
    requires forall pid | pid in w.processes :: pid in w'.processes && w'.processes[pid].call == w.processes[pid].call
    ensures CommitsOk(cfg, w')
  {
    hide Run, Perform;
  }

  lemma InvFacts(cfg: Config, w: World, pid: nat)
    requires Inv(cfg, w) && pid in w.processes
    ensures ProcessOk(cfg, w, pid) && w.fs.Valid() && Holds(cfg.root, w.fs, State(cfg, w))
    ensures CommitsOk(cfg, w) && TempsApart(w) && |w.owners| == |w.fs.data| && WriterOk(w)
  {
    hide ProcessOk, CommitsOk, TempsApart, OwnedOk, NameOk;
  }

  lemma MakeKeeps(cfg: Config, w: World, pid: nat)
    requires Inv(cfg, w) && pid in w.processes && w.processes[pid].pc.Making?
    ensures Inv(cfg, Make(cfg, w, pid))
  {
    hide Run, Holds, Admit, Admissible, PathTo, CommitsOk, Mkdirs, Inv, TempsApart, ProcessOk, Make, Contained,
      Obstructed, Explained;
    InvFacts(cfg, w, pid);
    WriterIsJournaling(cfg, w, pid);
    var call := w.processes[pid].call;
    MkdirsFailsExactly(cfg.root, w.fs, State(cfg, w), LocationFor(call));
    MakeEffect(cfg, w, pid);
    var made := Mkdirs(w.fs, Parent(Target(cfg, call)));
    if made.None? {
      MakerIsAdmissible(cfg, w, pid);
      ObstructedIsExplained(cfg, w, call);
      MadeNone(cfg, w, pid);
      PcStepKeeps(cfg, w, pid, Finished(Err(FileSystemError)));
    } else {
      MkdirsKeeps(cfg.root, w.fs, State(cfg, w), LocationFor(call));
      var w' := Make(cfg, w, pid);
      SameCommits(cfg, w, w');
      TempsOnlyGo(w, w', pid);
      MadeProcess(cfg, w, w', pid);
      MadeContained(cfg, w, w', pid);
      StepKeeps(cfg, w, w', pid);
    }
  }

  lemma MakeEffect(cfg: Config, w: World, pid: nat)
    requires pid in w.processes && w.processes[pid].pc.Making? && w.writer != Some(pid)
    ensures var call := w.processes[pid].call; var made := Mkdirs(w.fs, Parent(Target(cfg, call)));
      Make(cfg, w, pid) ==
        if made.None? then SetPc(w, pid, Finished(Err(FileSystemError)))
        else w.(fs := made.value,
                processes := w.processes[pid := Process(call, if call.AppendEvent? then Appending else Opening)])
  {
    hide PathTo, Mkdirs;
  }

  lemma MadeNone(cfg: Config, w: World, pid: nat)
    requires pid in w.processes && w.processes[pid].pc.Making? && ProcessOk(cfg, w, pid)
    requires Explained(cfg, w, w.processes[pid].call, FileSystemError)
    ensures ProcessOk(cfg, SetPc(w, pid, Finished(Err(FileSystemError))), pid)
  {
    hide Run, Admit, Admissible, PathTo;
  }

  lemma MadeProcess(cfg: Config, w: World, w': World, pid: nat)
    requires pid in w.processes && w.processes[pid].pc.Making? && ProcessOk(cfg, w, pid)
    requires var call := w.processes[pid].call;
      && w' == w.(fs := w'.fs,
                  processes := w.processes[pid := Process(call, if call.AppendEvent? then Appending else Opening)])
      && Parent(Target(cfg, call)) in w'.fs.dirs
    ensures ProcessOk(cfg, w', pid)
  {
    hide Run, Admit, Admissible, PathTo;
  }

  lemma MadeContained(cfg: Config, w: World, w': World, pid: nat)
    requires pid in w.processes && !w.processes[pid].pc.HasTemp() && |w.owners| == |w.fs.data|
    requires pid in w'.processes && w'.processes[pid].call == w.processes[pid].call
    requires w' == w.(fs := w.fs.(dirs := w'.fs.dirs), processes := w.processes[pid := w'.processes[pid]])
    requires w.fs.dirs <= w'.fs.dirs
    ensures Contained(cfg, w, w', pid)
  {
    hide Run, IsTemp, Holder, NameOk, OwnedOk;
  }

  lemma MakerIsAdmissible(cfg: Config, w: World, pid: nat)
    requires pid in w.processes && w.processes[pid].pc.Making? && ProcessOk(cfg, w, pid)
    ensures Admissible(cfg, w.processes[pid].call)
  {
    hide Run, Admit, Admissible, PathTo;
  }

  lemma ObstructedIsExplained(cfg: Config, w: World, call: Call)
    requires Obstructed(cfg.root, w.fs, State(cfg, w), LocationFor(call)) && Admissible(cfg, call)
    ensures Explained(cfg, w, call, FileSystemError)
  {
  }

  lemma TempsAreUsed(cfg: Config, w: World, q: nat)
    requires Inv(cfg, w) && q in w.processes && w.processes[q].pc.HasTemp()
    ensures w.processes[q].pc.tmp in w.temps
  {
    hide Run, Holds, Admit, Admissible, TextOf, PathTo, Holder, IsTemp, CommitsOk, OwnedOk, NameOk, TempsApart;
    assert ProcessOk(cfg, w, q);
  }

  /** A new temporary name is nobody else's. */
  lemma TempsStayApart(cfg: Config, w: World, w': World, pid: nat, tmp: Path)
    requires Inv(cfg, w) && pid in w.processes && tmp !in w.temps
    requires pid in w'.processes && w'.processes == w.processes[pid := w'.processes[pid]]
    requires w'.processes[pid].pc.HasTemp() && w'.processes[pid].pc.tmp == tmp
    ensures TempsApart(w')
  {
    assert TempsApart(w);
    hide Inv;
    forall q | q in w.processes && w.processes[q].pc.HasTemp() ensures w.processes[q].pc.tmp in w.temps {
      TempsAreUsed(cfg, w, q);
    }
  }

  lemma OpenKeeps(cfg: Config, w: World, pid: nat, tag: string)
    requires Inv(cfg, w) && pid in w.processes && w.processes[pid].pc.Opening?
    ensures Inv(cfg, Open(cfg, w, pid, tag))
  {
    hide Run, Holds, Admit, Admissible, PathTo, IsTemp, TempPath, CommitsOk, Inv, TempsApart, ProcessOk, Open,
      OpenNew, Contained;
    InvFacts(cfg, w, pid);
    WriterIsJournaling(cfg, w, pid);
    var call := w.processes[pid].call;
    var tmp := TempPath(Target(cfg, call), tag);
    if tmp in w.temps || w.fs.Exists(tmp) {
      OpenTriesAgain(cfg, w, pid, tag);
    } else {
      var w' := Open(cfg, w, pid, tag);
      TempIsTemp(cfg.root, LocationFor(call), tag);
      OpenEffect(cfg, w, pid, tag);
      OpenedTemp(cfg, w, w', pid, tmp);
      OpenTempKeeps(cfg.root, w.fs, State(cfg, w), tmp);
      SameCommits(cfg, w, w');
      TempsStayApart(cfg, w, w', pid, tmp);
      OpenContained(cfg, w, w', pid, tmp);
      StepKeeps(cfg, w, w', pid);
    }
  }

  lemma OpenTriesAgain(cfg: Config, w: World, pid: nat, tag: string)
    requires pid in w.processes
    requires var tmp := TempPath(Target(cfg, w.processes[pid].call), tag); tmp in w.temps || w.fs.Exists(tmp)
    ensures Open(cfg, w, pid, tag) == w
  {
  }

  lemma OpenContained(cfg: Config, w: World, w': World, pid: nat, tmp: Path)
    requires pid in w.processes && w.processes[pid].pc.Opening? && |w.owners| == |w.fs.data|
    requires w.fs.Valid() && !w.fs.Exists(tmp) && IsTemp(cfg.root, tmp)
    requires var call := w.processes[pid].call; call.Instance() && Admissible(cfg, call) && !call.AppendEvent?
    requires w' == w.(fs := OpenNew(w.fs, tmp), temps := w.temps + {tmp}, owners := w.owners + [Writer(pid)],
                      processes := w.processes[pid := Process(w.processes[pid].call, Writing(tmp, |w.fs.data|, 0))])
    ensures Contained(cfg, w, w', pid)
  {
    hide Run, IsTemp, Holder, NameOk, OwnedOk, Admit, Admissible;
    WriterOwns(cfg, w', pid, |w.fs.data|);
    WriterNames(cfg, w', pid);
  }

  lemma OpenedTemp(cfg: Config, w: World, w': World, pid: nat, tmp: Path)
    requires pid in w.processes && w.processes[pid].pc.Opening? && ProcessOk(cfg, w, pid)
    requires IsTemp(cfg.root, tmp) && |w.owners| == |w.fs.data| && w.fs.Valid() && !w.fs.Exists(tmp)
    requires w' == w.(fs := OpenNew(w.fs, tmp), temps := w.temps + {tmp}, owners := w.owners + [Writer(pid)],
                      processes := w.processes[pid := Process(w.processes[pid].call, Writing(tmp, |w.fs.data|, 0))])
    ensures ProcessOk(cfg, w', pid) && w.processes[pid].call.Instance() && Admissible(cfg, w.processes[pid].call)
    ensures !w.processes[pid].call.AppendEvent? && Parent(Target(cfg, w.processes[pid].call)) in w.fs.dirs
  {
    hide Run, Admit, Admissible, TextOf, PathTo, IsTemp, Explained, Appends;
    assert TextOf(w.processes[pid].call)[..0] == "";
  }

  lemma OpenEffect(cfg: Config, w: World, pid: nat, tag: string)
    requires pid in w.processes && w.processes[pid].pc.Opening? && w.writer != Some(pid)
    requires var tmp := TempPath(Target(cfg, w.processes[pid].call), tag); tmp !in w.temps && !w.fs.Exists(tmp)
    ensures var call := w.processes[pid].call; var tmp := TempPath(Target(cfg, call), tag);
      Open(cfg, w, pid, tag) ==
        w.(fs := OpenNew(w.fs, tmp), temps := w.temps + {tmp}, owners := w.owners + [Writer(pid)],
           processes := w.processes[pid := Process(call, Writing(tmp, |w.fs.data|, 0))])
  {
    hide PathTo, TempPath, OpenNew;
  }

  lemma WriteKeeps(cfg: Config, w: World, pid: nat, chunk: nat)
    requires Inv(cfg, w) && pid in w.processes && w.processes[pid].pc.Writing?
    ensures Inv(cfg, Write(w, pid, chunk))
  {
    hide Run, Holds, TextOf, CommitsOk, Inv, TempsApart, ProcessOk;
    InvFacts(cfg, w, pid);
    var Process(call, pc) := w.processes[pid];
    if pc.written >= |TextOf(call)| || pc.inode >= |w.fs.data| {
      WrittenProcess(cfg, w, pid);
      PcStepKeeps(cfg, w, pid, Publishing(pc.tmp, pc.inode));
    } else {
      WriteSomeKeeps(cfg, w, pid, chunk);
    }
  }

  lemma WrittenProcess(cfg: Config, w: World, pid: nat)
    requires pid in w.processes && w.processes[pid].pc.Writing? && ProcessOk(cfg, w, pid)
    requires var Process(call, pc) := w.processes[pid]; pc.written >= |TextOf(call)| || pc.inode >= |w.fs.data|
    ensures ProcessOk(cfg, SetPc(w, pid, Publishing(w.processes[pid].pc.tmp, w.processes[pid].pc.inode)), pid)
  {
    hide Run, Admit, Admissible, PathTo, IsTemp, TextOf;
    var Process(call, pc) := w.processes[pid];
    assert TextOf(call)[..pc.written] == TextOf(call)[..|TextOf(call)|];
  }

  lemma WriteSomeKeeps(cfg: Config, w: World, pid: nat, chunk: nat)
    requires Inv(cfg, w) && pid in w.processes && w.processes[pid].pc.Writing?
    requires w.processes[pid].pc.written < |TextOf(w.processes[pid].call)| && w.processes[pid].pc.inode < |w.fs.data|
    ensures Inv(cfg, Write(w, pid, chunk))
  {
    hide Run, Holds, Admit, Admissible, TextOf, PathTo, IsTemp, CommitsOk, Write, Contained, Inv, ProcessOk,
      TempsApart, WriteInode;
    InvFacts(cfg, w, pid);
    WriterIsJournaling(cfg, w, pid);
    var Process(call, pc) := w.processes[pid];
    var end := End(pc.written, chunk, TextOf(call));
    var w' := Write(w, pid, chunk);
    WriteEffect(w, pid, chunk);
    WritingFacts(cfg, w, pid);
    WriteTempKeeps(cfg.root, w.fs, State(cfg, w), pc.tmp, TextOf(call)[pc.written..end]);
    SameCommits(cfg, w, w');
    TempsOnlyGo(w, w', pid);
    WriteProcess(cfg, w, w', pid, end);
    WriteContained(cfg, w, w', pid, end);
    StepKeeps(cfg, w, w', pid);
  }

  lemma WritingFacts(cfg: Config, w: World, pid: nat)
    requires pid in w.processes && w.processes[pid].pc.Writing? && ProcessOk(cfg, w, pid)
    ensures var Process(call, pc) := w.processes[pid];
      && call.Instance() && Admissible(cfg, call) && Private(cfg, w, pid, pc.tmp, pc.inode, pc.written)
  {
    hide Run, Admit, Admissible, PathTo, TextOf, IsTemp;
  }

  lemma WriteProcess(cfg: Config, w: World, w': World, pid: nat, end: nat)
    requires pid in w.processes && w.processes[pid].pc.Writing? && ProcessOk(cfg, w, pid)
    requires var Process(call, pc) := w.processes[pid];
      && pc.written <= end <= |TextOf(call)| && pc.inode < |w.fs.data|
      && w' == w.(fs := WriteInode(w.fs, pc.inode, TextOf(call)[pc.written..end]),
                  processes := w.processes[pid := Process(call, pc.(written := end))])
    ensures ProcessOk(cfg, w', pid)
  {
    hide Run, Admit, Admissible, PathTo, TextOf, IsTemp;
    var Process(call, pc) := w.processes[pid];
    assert TextOf(call)[..pc.written] + TextOf(call)[pc.written..end] == TextOf(call)[..end];
  }

  lemma WriteContained(cfg: Config, w: World, w': World, pid: nat, end: nat)
    requires pid in w.processes && w.processes[pid].pc.Writing? && |w.owners| == |w.fs.data|
    requires var Process(call, pc) := w.processes[pid];
      && call.Instance() && Admissible(cfg, call) && Private(cfg, w, pid, pc.tmp, pc.inode, pc.written)
      && pc.written <= end <= |TextOf(call)|
      && w' == w.(fs := WriteInode(w.fs, pc.inode, TextOf(call)[pc.written..end]),
                  processes := w.processes[pid := Process(call, pc.(written := end))])
    ensures Contained(cfg, w, w', pid)
  {
    hide Run, IsTemp, Holder, NameOk, OwnedOk, Admit, Admissible, TextOf;
    var Process(call, pc) := w.processes[pid];
    assert TextOf(call)[..pc.written] + TextOf(call)[pc.written..end] == TextOf(call)[..end];
    WriterOwns(cfg, w', pid, pc.inode);
    WriterNames(cfg, w', pid);
  }

  lemma WriteEffect(w: World, pid: nat, chunk: nat)
    requires pid in w.processes && w.processes[pid].pc.Writing? && w.writer != Some(pid)
    requires w.processes[pid].pc.written < |TextOf(w.processes[pid].call)| && w.processes[pid].pc.inode < |w.fs.data|
    ensures var Process(call, pc) := w.processes[pid]; var text := TextOf(call);
      var end := End(pc.written, chunk, text);
      && pc.written <= end <= |text|
      && Write(w, pid, chunk) ==
           w.(fs := WriteInode(w.fs, pc.inode, text[pc.written..end]),
              processes := w.processes[pid := Process(call, pc.(written := end))])
  {
    hide TextOf, WriteInode;
  }

  lemma WriterOwns(cfg: Config, w: World, pid: nat, inode: nat)
    requires pid in w.processes && w.processes[pid].call.Instance() && Admissible(cfg, w.processes[pid].call)
    requires !w.processes[pid].call.AppendEvent?
    requires inode < |w.owners| && inode < |w.fs.data| && w.owners[inode] == Writer(pid)
    requires w.fs.data[inode] <= TextOf(w.processes[pid].call)
    ensures OwnedOk(cfg, w, inode)
  {
  }

  lemma WriterNames(cfg: Config, w: World, pid: nat)
    requires pid in w.processes && w.processes[pid].pc.HasTemp() && w.processes[pid].pc.tmp in w.fs.names
    requires var inode := w.fs.names[w.processes[pid].pc.tmp]; inode < |w.owners| && w.owners[inode] == Writer(pid)
    requires IsTemp(cfg.root, w.processes[pid].pc.tmp)
    ensures NameOk(cfg, w, w.processes[pid].pc.tmp)
  {
  }

  lemma RunSnoc(cfg: Config, calls: seq<Call>, call: Call)
    ensures Run(cfg, calls + [call]) == Perform(cfg, Run(cfg, calls), call).0
    ensures Run(cfg, calls).docs.Keys <= Run(cfg, calls + [call]).docs.Keys
    ensures Run(cfg, calls).journals.Keys <= Run(cfg, calls + [call]).journals.Keys
  {
    hide Admit, Admissible;
    assert (calls + [call])[..|calls|] == calls;
  }

  lemma CommitExtends(cfg: Config, w: World, w': World, pid: nat)
    requires CommitsOk(cfg, w) && pid in w.processes && pid !in w.committers
    requires w'.commits == w.commits + [w.processes[pid].call] && w'.committers == w.committers + [pid]
    requires forall q | q in w.processes :: q in w'.processes && w'.processes[q].call == w.processes[q].call
    requires Perform(cfg, Run(cfg, w.commits), w.processes[pid].call).1.Ok?
    ensures CommitsOk(cfg, w')
  {
    hide Run, Perform;
    forall i | 0 <= i < |w'.commits| ensures Perform(cfg, Run(cfg, w'.commits[..i]), w'.commits[i]).1.Ok? {
      assert w'.commits[..i] == if i < |w.commits| then w.commits[..i] else w.commits;
    }
  }

  lemma DataIsObject(call: Call)
    requires call.Instance()
    ensures WellFormed(DataOf(call)) && DataOf(call).Obj?
  {
    hide DumpAttempt, DumpEvent;
    match call
    case SaveCurrent(a) => DumpedAttemptIsWellFormed(a); DumpIsObject(a);
    case SaveRecord(a) => DumpedAttemptIsWellFormed(a); DumpIsObject(a);
    case AppendReport(_, _, _, _, _) =>
    case AppendEvent(e) => DumpedEventIsWellFormed(e); EventDumpsObject(e);
  }

  lemma PublishKeeps(cfg: Config, w: World, pid: nat)
    requires Inv(cfg, w) && pid in w.processes && w.processes[pid].pc.Publishing?
    ensures Inv(cfg, Publish(cfg, w, pid))
  {
    hide Inv, Holds, Admit, Admissible, PathTo, ProcessOk, Publish, Ready, CommitsOk, TempsApart, IsTemp, DataOf, Run;
    PublisherIsReady(cfg, w, pid);
    var Process(call, pc) := w.processes[pid];
    if call.SaveCurrent? || !w.fs.Exists(Target(cfg, call)) {
      PublishCommits(cfg, w, pid);
    } else {
      RefusedProcess(cfg, w, pid);
      PcStepKeeps(cfg, w, pid, Cleaning(pc.tmp, Err(AlreadyExists)));
    }
  }

  /** `os.link` finds its target. */
  lemma RefusedProcess(cfg: Config, w: World, pid: nat)
    requires Inv(cfg, w) && pid in w.processes && w.processes[pid].pc.Publishing?
    requires var call := w.processes[pid].call; !call.SaveCurrent? && w.fs.Exists(Target(cfg, call))
    ensures var refused := SetPc(w, pid, Cleaning(w.processes[pid].pc.tmp, Err(AlreadyExists)));
      Publish(cfg, w, pid) == refused && ProcessOk(cfg, refused, pid)
  {
    hide Inv, Run, Holds, Admit, Admissible, PathTo, IsTemp, DumpsIndented, DataOf, TextOf, CommitsOk, TempsApart,
      Ready;
    PublisherIsReady(cfg, w, pid);
    var Process(call, pc) := w.processes[pid];
    ReadyFacts(cfg, w, pc.tmp, LocationFor(call), DataOf(call));
    PresentExactly(cfg.root, w.fs, State(cfg, w), LocationFor(call));
  }

  /** What a process that publishes knows about its temporary file. */
  lemma PublisherIsReady(cfg: Config, w: World, pid: nat)
    requires Inv(cfg, w) && pid in w.processes && w.processes[pid].pc.Publishing?
    ensures var Process(call, pc) := w.processes[pid];
      && call.Instance() && Admit(cfg, call) == Ok(Target(cfg, call)) && pid !in w.committers && !call.AppendEvent?
      && Ready(cfg.root, w.fs, pc.tmp, LocationFor(call), DataOf(call))
      && w.fs.names[pc.tmp] < |w.owners| && w.owners[w.fs.names[pc.tmp]] == Writer(pid)
      && pc.tmp in w.temps && w.fs.Valid() && Holds(cfg.root, w.fs, State(cfg, w))
      && CommitsOk(cfg, w) && TempsApart(w) && |w.owners| == |w.fs.data|
  {
    hide Run, Admit, Admissible, PathTo, Holder, IsTemp, DumpsIndented, DataOf, Line, NameOk, OwnedOk, CommitsOk, IsDir;
    hide DocHeld, JournalHeld, Accounted;
    assert ProcessOk(cfg, w, pid);
    var call := w.processes[pid].call;
    AdmittedIsNamed(cfg, call);
    DataIsObject(call);
    assert TextOf(call)[..|TextOf(call)|] == TextOf(call);
  }

  /** What the rename or the link changes. */
  lemma PublishEffect(cfg: Config, w: World, pid: nat)
    requires pid in w.processes && w.processes[pid].pc.Publishing? && w.processes[pid].pc.tmp in w.fs.names
    requires w.writer != Some(pid)
    requires var call := w.processes[pid].call;
      Target(cfg, call) !in w.fs.dirs && (call.SaveCurrent? || !w.fs.Exists(Target(cfg, call)))
    ensures var Process(call, pc) := w.processes[pid]; var w' := Publish(cfg, w, pid);
      && w' == w.(fs := w'.fs, processes := w.processes[pid := Process(call, Cleaning(pc.tmp, Ok(())))],
                  commits := w.commits + [call], committers := w.committers + [pid])
      && w'.fs == if call.SaveCurrent? then Replace(w.fs, pc.tmp, Target(cfg, call))
                  else Link(w.fs, pc.tmp, Target(cfg, call))
  {
    hide PathTo, Replace, Link, TextOf;
  }

  lemma PublishCommits(cfg: Config, w: World, pid: nat)
    requires Inv(cfg, w) && pid in w.processes && w.processes[pid].pc.Publishing?
    requires var call := w.processes[pid].call; call.SaveCurrent? || !w.fs.Exists(Target(cfg, call))
    ensures Inv(cfg, Publish(cfg, w, pid))
  {
    hide Run, Holds, Admit, Admissible, PathTo, IsTemp, DataOf, Inv, Ready, CommitsOk, Publish, Contained, TempsApart,
      ProcessOk, Replace, Link, Published, Perform, Sole;
    PublisherIsReady(cfg, w, pid);
    InvFacts(cfg, w, pid);
    WriterIsJournaling(cfg, w, pid);
    var Process(call, pc) := w.processes[pid];
    var l, w' := LocationFor(call), Publish(cfg, w, pid);
    ReadyFacts(cfg, w, pc.tmp, l, DataOf(call));
    PresentExactly(cfg.root, w.fs, State(cfg, w), l);
    PublishEffect(cfg, w, pid);
    RenameOrLinkPublishes(w.fs, w'.fs, pc.tmp, PathTo(cfg.root, l));
    PublishStores(cfg.root, w.fs, w'.fs, State(cfg, w), pc.tmp, l, DataOf(call));
    PublishedCommits(cfg, w, w', pid);
    TempsOnlyGo(w, w', pid);
    PublishedProcess(cfg, w, w', pid);
    PublishContained(cfg, w, w', pid, l);
    StepKeeps(cfg, w, w', pid);
  }

  lemma PublishedCommits(cfg: Config, w: World, w': World, pid: nat)
    requires CommitsOk(cfg, w) && pid in w.processes && pid !in w.committers
    requires var call := w.processes[pid].call; var l := LocationFor(call);
      && !call.AppendEvent? && Admissible(cfg, call) && (Creates(call) ==> l !in Run(cfg, w.commits).docs)
      && w'.commits == w.commits + [call] && w'.committers == w.committers + [pid]
    requires forall q | q in w.processes :: q in w'.processes && w'.processes[q].call == w.processes[q].call
    ensures CommitsOk(cfg, w')
    ensures var call := w.processes[pid].call;
      Run(cfg, w'.commits).docs == Run(cfg, w.commits).docs[LocationFor(call) := DataOf(call)]
  {
    hide Run, Admit, Admissible, CommitsOk, DataOf;
    RunSnoc(cfg, w.commits, w.processes[pid].call);
    CommitExtends(cfg, w, w', pid);
  }

  lemma PublishedProcess(cfg: Config, w: World, w': World, pid: nat)
    requires pid in w.processes && w.processes[pid].pc.Publishing? && ProcessOk(cfg, w, pid)
    requires var Process(call, pc) := w.processes[pid];
      && w'.processes == w.processes[pid := Process(call, Cleaning(pc.tmp, Ok(())))]
      && w'.committers == w.committers + [pid] && w'.temps == w.temps
    ensures ProcessOk(cfg, w', pid)
  {
    hide Run, Admit, Admissible, PathTo, TextOf, IsTemp;
  }

  lemma ReadyFacts(cfg: Config, w: World, tmp: Path, l: Location, j: JSON)
    requires Ready(cfg.root, w.fs, tmp, l, j)
    ensures IsTemp(cfg.root, tmp) && Sole(w.fs, tmp) && Named(l)
  {
  }

  lemma PublishContained(cfg: Config, w: World, w': World, pid: nat, l: Location)
    requires pid in w.processes && w.processes[pid].pc.HasTemp() && !l.Events? && w.fs.Valid()
    requires pid in w'.processes && w'.processes[pid].call == w.processes[pid].call && w'.processes[pid].pc.HasTemp()
    requires w' == w.(fs := w'.fs, processes := w.processes[pid := w'.processes[pid]],
                      commits := w'.commits, committers := w'.committers)
    requires Run(cfg, w.commits).docs.Keys <= Run(cfg, w'.commits).docs.Keys && |w.owners| == |w.fs.data|
    requires var tmp := w.processes[pid].pc.tmp;
      && w'.processes[pid].pc.tmp == tmp && IsTemp(cfg.root, tmp) && Sole(w.fs, tmp)
      && Published(w.fs, w'.fs, tmp, PathTo(cfg.root, l)) && w.owners[w.fs.names[tmp]] == Writer(pid)
    ensures Contained(cfg, w, w', pid)
  {
    hide Run, PathTo, Holder, IsTemp, OwnedOk;
    PublishNames(cfg, w, w', pid, l);
    hide NamesFrom;
  }

  lemma PublishNames(cfg: Config, w: World, w': World, pid: nat, l: Location)
    requires pid in w.processes && w.processes[pid].pc.HasTemp() && !l.Events? && w.fs.Valid()
    requires pid in w'.processes && w'.processes == w.processes[pid := w'.processes[pid]]
    requires w'.processes[pid].pc.HasTemp()
    requires var tmp := w.processes[pid].pc.tmp;
      && w'.processes[pid].pc.tmp == tmp && IsTemp(cfg.root, tmp) && Sole(w.fs, tmp)
      && Published(w.fs, w'.fs, tmp, PathTo(cfg.root, l))
      && w.fs.names[tmp] < |w.owners| && w.owners[w.fs.names[tmp]] == Writer(pid) && w'.owners == w.owners
    ensures NamesFrom(cfg, w, w', pid)
    ensures forall p | p in w.fs.names && IsJournal(cfg, p) :: p in w'.fs.names && w'.fs.names[p] == w.fs.names[p]
    ensures forall tmp | tmp in w.fs.names && IsTemp(cfg.root, tmp) && tmp != w.processes[pid].pc.tmp ::
      KeepsPrivate(w.fs, w'.fs, tmp)
  {
    hide Run, PathTo, Holder, IsTemp;
    FinalIsNotTemp(cfg.root, l);
    HolderOfPath(cfg.root, l);
  }

  lemma CleanKeeps(cfg: Config, w: World, pid: nat)
    requires Inv(cfg, w) && pid in w.processes && w.processes[pid].pc.Cleaning?
    ensures Inv(cfg, Clean(w, pid))
  {
    hide Run, Holds, IsTemp, CommitsOk, Contained, Inv, ProcessOk, TempsApart, Unlink, Clean;
    var tmp, w' := w.processes[pid].pc.tmp, Clean(w, pid);
    InvFacts(cfg, w, pid);
    WriterIsJournaling(cfg, w, pid);
    CleanEffect(w, pid);
    CleanProcess(cfg, w, w', pid);
    UnlinkTempKeeps(cfg.root, w.fs, State(cfg, w), tmp);
    SameCommits(cfg, w, w');
    TempsOnlyGo(w, w', pid);
    CleanContained(cfg, w, w', pid);
    StepKeeps(cfg, w, w', pid);
  }

  lemma CleanEffect(w: World, pid: nat)
    requires pid in w.processes && w.processes[pid].pc.Cleaning? && w.writer != Some(pid)
    ensures var Process(call, pc) := w.processes[pid];
      Clean(w, pid) ==
        w.(fs := Unlink(w.fs, pc.tmp), processes := w.processes[pid := Process(call, Finished(pc.outcome))])
  {
    hide Unlink;
  }

  lemma CleanProcess(cfg: Config, w: World, w': World, pid: nat)
    requires pid in w.processes && w.processes[pid].pc.Cleaning? && ProcessOk(cfg, w, pid)
    requires var Process(call, pc) := w.processes[pid];
      w' == w.(fs := Unlink(w.fs, pc.tmp), processes := w.processes[pid := Process(call, Finished(pc.outcome))])
    ensures ProcessOk(cfg, w', pid) && IsTemp(cfg.root, w.processes[pid].pc.tmp)
  {
    hide Run, Admit, Admissible, PathTo, IsTemp;
  }

  lemma CleanContained(cfg: Config, w: World, w': World, pid: nat)
    requires pid in w.processes && w.processes[pid].pc.Cleaning? && |w.owners| == |w.fs.data|
    requires var Process(call, pc) := w.processes[pid];
      && IsTemp(cfg.root, pc.tmp)
      && w' == w.(fs := Unlink(w.fs, pc.tmp), processes := w.processes[pid := Process(call, Finished(pc.outcome))])
    ensures Contained(cfg, w, w', pid)
  {
    hide Run, IsTemp, Holder, NameOk, OwnedOk;
  }

  lemma AppenderIsCleared(cfg: Config, w: World, pid: nat)
    requires Inv(cfg, w) && pid in w.processes && (w.processes[pid].pc.Appending? || w.processes[pid].pc.Journaling?)
    ensures var call := w.processes[pid].call;
      && call.AppendEvent? && call.Instance() && Admit(cfg, call) == Ok(Target(cfg, call)) && Named(LocationFor(call))
      && Parent(Target(cfg, call)) in w.fs.dirs && pid !in w.committers
  {
    hide Run, Admit, Admissible, PathTo, Holder, IsTemp, DataOf, Line, NameOk, OwnedOk, CommitsOk, IsDir;
    hide DocHeld, JournalHeld, Accounted;
    assert ProcessOk(cfg, w, pid);
    AdmittedIsNamed(cfg, w.processes[pid].call);
  }

  lemma NobodyElseWrites(cfg: Config, w: World, pid: nat)
    requires Inv(cfg, w) && (w.writer == None || w.writer == Some(pid))
    ensures forall q | q in w.processes && q != pid :: !w.processes[q].pc.Journaling?
  {
    hide Run, Holds, Admit, Admissible, TextOf, PathTo, Holder, IsTemp, CommitsOk, TempsApart, OwnedOk, NameOk;
    forall q | q in w.processes && q != pid ensures !w.processes[q].pc.Journaling? { assert ProcessOk(cfg, w, q); }
  }

  /** What `open` in append mode does to the files. */
  lemma OpenIsAppend(fs: FS, path: Path)
    requires fs.Valid()
    ensures AppendText(fs, path, "") == if path in fs.names then fs else OpenNew(fs, path)
  {
    var after := AppendText(fs, path, "");
    if path in fs.names {
      assert fs.data[fs.names[path]] + "" == fs.data[fs.names[path]];
    } else {
      assert "" + "" == "";
      assert after.data == OpenNew(fs, path).data;
    }
  }

  lemma AppendKeepsDirs(fs: FS, path: Path, text: string)
    requires fs.Valid()
    ensures AppendText(fs, path, text).dirs == fs.dirs
  {
  }

  lemma OpenJournalKeeps(cfg: Config, w: World, pid: nat)
    requires Inv(cfg, w) && pid in w.processes && w.processes[pid].pc.Appending?
    ensures w.processes[pid].call.AppendEvent? && Inv(cfg, OpenJournal(cfg, w, pid))
  {
    hide Inv, Run, Holds, Admit, Admissible, PathTo, CommitsOk, NameOk, Appended, ProcessOk, OpenJournal, AppendText,
      Contained, TempsApart;
    AppenderIsCleared(cfg, w, pid);
    InvFacts(cfg, w, pid);
    var call := w.processes[pid].call;
    var l := LocationFor(call);
    if w.writer == None && Taken(cfg.root, w.fs, l) {
      TakenProcess(cfg, w, pid);
      PcStepKeeps(cfg, w, pid, Finished(Err(FileSystemError)));
    } else if w.writer == None {
      OpenJournalEffect(cfg, w, pid);
      NobodyElseWrites(cfg, w, pid);
      JournalName(cfg, w, l);
      var w' := OpenJournal(cfg, w, pid);
      OpenedStores(cfg, w, l, call.event);
      SameCommits(cfg, w, w');
      AppendKeepsDirs(w.fs, Target(cfg, call), "");
      OpenedProcess(cfg, w, w', pid);
      TempsOnlyGo(w, w', pid);
      AppendContained(cfg, w, w', pid, l, "");
      StepKeeps(cfg, w, w', pid);
    } else {
      JournalIsLocked(cfg, w, pid);
    }
  }

  lemma JournalIsLocked(cfg: Config, w: World, pid: nat)
    requires pid in w.processes && w.processes[pid].call.AppendEvent? && w.writer.Some?
    ensures OpenJournal(cfg, w, pid) == w
  {
  }

  /** A directory has the place of the journal. */
  lemma TakenProcess(cfg: Config, w: World, pid: nat)
    requires pid in w.processes && w.processes[pid].pc.Appending? && ProcessOk(cfg, w, pid) && w.writer == None
    requires w.processes[pid].call.AppendEvent? && Taken(cfg.root, w.fs, LocationFor(w.processes[pid].call))
    ensures var failed := SetPc(w, pid, Finished(Err(FileSystemError)));
      OpenJournal(cfg, w, pid) == failed && ProcessOk(cfg, failed, pid)
  {
    hide Run, Admit, Admissible, PathTo, Line;
  }

  lemma OpenJournalEffect(cfg: Config, w: World, pid: nat)
    requires pid in w.processes && w.processes[pid].call.AppendEvent? && w.fs.Valid()
    requires Target(cfg, w.processes[pid].call) !in w.fs.dirs
    ensures var call, w' := w.processes[pid].call, OpenJournal(cfg, w, pid); var l := LocationFor(call);
      if w.writer.Some? then w' == w
      else
        w' == w.(fs := AppendText(w.fs, Target(cfg, call), ""),
                 owners := if Target(cfg, call) in w.fs.names then w.owners else w.owners + [Ledger(l)],
                 ledgers := w.ledgers[l := LedgerOf(w, l) + [CutAppend(call.event, 0)]],
                 processes := w.processes[pid := Process(call, Journaling(0))],
                 writer := Some(pid))
  {
    hide PathTo, AppendText, OpenNew;
    OpenIsAppend(w.fs, Target(cfg, w.processes[pid].call));
  }

  lemma OpenedStores(cfg: Config, w: World, l: Location, e: Event)
    requires Holds(cfg.root, w.fs, State(cfg, w)) && l.Events? && Named(l) && Parent(PathTo(cfg.root, l)) in w.fs.dirs
    requires PathTo(cfg.root, l) !in w.fs.dirs && e.Valid()
    ensures Holds(cfg.root, AppendText(w.fs, PathTo(cfg.root, l), ""),
                  Store(Run(cfg, w.commits).docs, w.ledgers[l := LedgerOf(w, l) + [CutAppend(e, 0)]]))
  {
    hide Run, Holds, PathTo, Line, Appended, AppendText;
    var ledger, last := LedgerOf(w, l), CutAppend(e, 0);
    LedgerIsPossible(cfg, w, l);
    LineIsLong(e);
    AppendedSnoc(ledger, last);
    assert last.Cut() == "";
    AppendStores(cfg.root, w.fs, State(cfg, w), l, "", ledger + [last]);
  }

  lemma OpenedProcess(cfg: Config, w: World, w': World, pid: nat)
    requires pid in w.processes && w.processes[pid].pc.Appending? && ProcessOk(cfg, w, pid)
    requires w.processes[pid].call.AppendEvent?
    requires var call := w.processes[pid].call; var l := LocationFor(call);
      && w'.processes == w.processes[pid := Process(call, Journaling(0))] && w'.writer == Some(pid)
      && w'.committers == w.committers && w.fs.dirs <= w'.fs.dirs
      && w'.ledgers == w.ledgers[l := LedgerOf(w, l) + [CutAppend(call.event, 0)]]
    ensures ProcessOk(cfg, w', pid)
  {
    hide Run, Admit, Admissible, PathTo, Line, Explained;
    LineIsLong(w.processes[pid].call.event);
  }

  lemma LedgerIsPossible(cfg: Config, w: World, l: Location)
    requires Holds(cfg.root, w.fs, State(cfg, w))
    ensures AllPossible(LedgerOf(w, l)) && LedgerOf(w, l) == JournalOf(State(cfg, w), l)
  {
    hide Run, Holds;
    if l in w.ledgers { JournalIsPossible(cfg.root, w.fs, State(cfg, w), l); }
  }

  /** Writing more of the last append. */
  lemma CutGrows(appends: seq<CutAppend>, e: Event, n: nat, m: nat)
    requires n <= m <= |Line(e)|
    ensures Appended(appends + [CutAppend(e, m)]) == Appended(appends + [CutAppend(e, n)]) + Line(e)[n..m]
  {
    hide Appended, Line;
    AppendedSnoc(appends, CutAppend(e, n));
    AppendedSnoc(appends, CutAppend(e, m));
    assert Line(e)[..n] + Line(e)[n..m] == Line(e)[..m];
  }

  lemma WriteJournalKeeps(cfg: Config, w: World, pid: nat, chunk: nat)
    requires Inv(cfg, w) && pid in w.processes && w.processes[pid].pc.Journaling?
    ensures w.processes[pid].call.AppendEvent? && Inv(cfg, WriteJournal(cfg, w, pid, chunk))
  {
    hide Inv, Run, Holds, Admit, Admissible, PathTo, CommitsOk, NameOk, Appended, ProcessOk, WriteJournal, Line, TextOf,
      AppendText, Contained, TempsApart;
    AppenderIsCleared(cfg, w, pid);
    InvFacts(cfg, w, pid);
    JournalingFacts(cfg, w, pid);
    var Process(call, pc) := w.processes[pid];
    var l, text := LocationFor(call), TextOf(call);
    JournalName(cfg, w, l);
    NobodyElseWrites(cfg, w, pid);
    var end := End(pc.written, chunk, text);
    var w' := WriteJournal(cfg, w, pid, chunk);
    LedgerHasFile(cfg, w, l);
    WriteJournalEffect(cfg, w, pid, chunk);
    WrittenStores(cfg, w, l, call.event, pc.written, end);
    AppendKeepsDirs(w.fs, Target(cfg, call), text[pc.written..end]);
    WrittenCommits(cfg, w, w', pid, end);
    TempsOnlyGo(w, w', pid);
    AppendContained(cfg, w, w', pid, l, text[pc.written..end]);
    StepKeeps(cfg, w, w', pid);
  }

  function End(written: nat, chunk: nat, text: string): nat {
    if written + chunk <= |text| then written + chunk else |text|
  }

  lemma JournalingFacts(cfg: Config, w: World, pid: nat)
    requires pid in w.processes && w.processes[pid].pc.Journaling? && ProcessOk(cfg, w, pid)
    ensures Appends(w, pid, w.processes[pid].pc.written) && Cleared(cfg, w, w.processes[pid].call)
    ensures var call := w.processes[pid].call;
      call.AppendEvent? && call.event.Valid() && TextOf(call) == Line(call.event)
  {
    hide Run, Admit, Admissible, PathTo, Line;
  }

  lemma LedgerHasFile(cfg: Config, w: World, l: Location)
    requires Holds(cfg.root, w.fs, State(cfg, w)) && LedgerOf(w, l) != []
    ensures PathTo(cfg.root, l) in w.fs.names
  {
    hide Run, PathTo, Appended, AllPossible, DocText;
    assert JournalHeld(cfg.root, w.fs, l, w.ledgers[l]);
  }

  lemma WriteJournalEffect(cfg: Config, w: World, pid: nat, chunk: nat)
    requires pid in w.processes && w.processes[pid].pc.Journaling? && w.fs.Valid()
    requires w.processes[pid].call.AppendEvent? && Appends(w, pid, w.processes[pid].pc.written)
    requires Target(cfg, w.processes[pid].call) in w.fs.names
    ensures var Process(call, pc) := w.processes[pid]; var w' := WriteJournal(cfg, w, pid, chunk);
      var l, text, ledger := LocationFor(call), TextOf(call), LedgerOf(w, LocationFor(call));
      var end := End(pc.written, chunk, text);
      var done := end == |text|;
      && pc.written <= end <= |text|
      && w' == w.(fs := AppendText(w.fs, Target(cfg, call), text[pc.written..end]),
                  ledgers := w.ledgers[l := ledger[..|ledger| - 1] + [CutAppend(call.event, end)]],
                  processes := w.processes[pid := Process(call, if done then Finished(Ok(())) else Journaling(end))],
                  writer := if done then None else Some(pid),
                  commits := if done then w.commits + [call] else w.commits,
                  committers := if done then w.committers + [pid] else w.committers)
  {
    hide PathTo, TextOf, WriteInode;
  }

  lemma WrittenStores(cfg: Config, w: World, l: Location, e: Event, n: nat, m: nat)
    requires Holds(cfg.root, w.fs, State(cfg, w)) && l.Events? && Named(l) && Parent(PathTo(cfg.root, l)) in w.fs.dirs
    requires n <= m <= |Line(e)| && PathTo(cfg.root, l) !in w.fs.dirs
    requires LedgerOf(w, l) != [] && LedgerOf(w, l)[|LedgerOf(w, l)| - 1] == CutAppend(e, n)
    ensures var ledger := LedgerOf(w, l);
      Holds(cfg.root, AppendText(w.fs, PathTo(cfg.root, l), Line(e)[n..m]),
            Store(Run(cfg, w.commits).docs, w.ledgers[l := ledger[..|ledger| - 1] + [CutAppend(e, m)]]))
  {
    hide Run, Holds, PathTo, Line, Appended, AppendText;
    var ledger := LedgerOf(w, l);
    var before, last := ledger[..|ledger| - 1], CutAppend(e, m);
    LedgerIsPossible(cfg, w, l);
    assert ledger == before + [CutAppend(e, n)];
    CutGrows(before, e, n, m);
    AppendStores(cfg.root, w.fs, State(cfg, w), l, Line(e)[n..m], before + [last]);
  }

  lemma WrittenCommits(cfg: Config, w: World, w': World, pid: nat, end: nat)
    requires pid in w.processes && ProcessOk(cfg, w, pid) && w.processes[pid].pc.Journaling? && CommitsOk(cfg, w)
    requires w.processes[pid].call.AppendEvent?
    requires var Process(call, pc) := w.processes[pid]; var l := LocationFor(call);
      var ledger, done := LedgerOf(w, l), end == |TextOf(call)|;
      && end <= |TextOf(call)| && ledger != []
      && w'.processes == w.processes[pid := Process(call, if done then Finished(Ok(())) else Journaling(end))]
      && w'.writer == (if done then None else Some(pid))
      && w'.commits == (if done then w.commits + [call] else w.commits)
      && w'.committers == (if done then w.committers + [pid] else w.committers)
      && w'.ledgers == w.ledgers[l := ledger[..|ledger| - 1] + [CutAppend(call.event, end)]]
      && w.fs.dirs <= w'.fs.dirs
    ensures CommitsOk(cfg, w') && ProcessOk(cfg, w', pid) && Run(cfg, w'.commits).docs == Run(cfg, w.commits).docs
    ensures WriterOk(w')
  {
    hide Run, Admit, Admissible, PathTo, CommitsOk, TextOf, Explained;
    var call := w.processes[pid].call;
    if end == |TextOf(call)| {
      AppendedCommits(cfg, w, w', pid);
    } else {
      SameCommits(cfg, w, w');
    }
  }

  /** Committing an append leaves the documents as they are. */
  lemma AppendedCommits(cfg: Config, w: World, w': World, pid: nat)
    requires CommitsOk(cfg, w) && pid in w.processes && pid !in w.committers
    requires w.processes[pid].call.AppendEvent? && Admissible(cfg, w.processes[pid].call)
    requires w'.commits == w.commits + [w.processes[pid].call] && w'.committers == w.committers + [pid]
    requires forall q | q in w.processes :: q in w'.processes && w'.processes[q].call == w.processes[q].call
    ensures CommitsOk(cfg, w') && Run(cfg, w'.commits).docs == Run(cfg, w.commits).docs
  {
    hide Run, Admit, Admissible, CommitsOk, Line;
    RunSnoc(cfg, w.commits, w.processes[pid].call);
    CommitExtends(cfg, w, w', pid);
  }

  lemma JournalName(cfg: Config, w: World, l: Location)
    requires Inv(cfg, w) && l.Events?
    ensures var p := PathTo(cfg.root, l);
      NameOk(cfg, w, p) && (p in w.fs.names ==> w.fs.names[p] < |w.owners| && w.owners[w.fs.names[p]] == Ledger(l))
  {
    hide Run, Holds, Admit, Admissible, PathTo, Holder, IsTemp, ProcessOk, OwnedOk;
    FinalIsNotTemp(cfg.root, l);
    HolderOfPath(cfg.root, l);
  }

  lemma AppendContained(cfg: Config, w: World, w': World, pid: nat, l: Location, text: string)
    requires pid in w.processes && l.Events? && w.fs.Valid() && |w.owners| == |w.fs.data|
    requires pid in w'.processes && w'.processes == w.processes[pid := w'.processes[pid]]
    requires !w.processes[pid].pc.HasTemp() && w'.processes[pid].call == w.processes[pid].call
    requires NameOk(cfg, w, PathTo(cfg.root, l)) && l in w'.ledgers && w.ledgers.Keys <= w'.ledgers.Keys
    requires w'.fs == AppendText(w.fs, PathTo(cfg.root, l), text) && w'.temps == w.temps
    requires w'.owners == if PathTo(cfg.root, l) in w.fs.names then w.owners else w.owners + [Ledger(l)]
    requires PathTo(cfg.root, l) in w.fs.names ==>
      w.owners[w.fs.names[PathTo(cfg.root, l)]] == Ledger(l)
    requires Run(cfg, w'.commits).docs == Run(cfg, w.commits).docs
    ensures Contained(cfg, w, w', pid)
  {
    hide Run, PathTo, IsTemp, Holder, OwnedOk, NameOk, NamesFrom, KeepsPrivate;
    AppendNames(cfg, w, w', pid, l, text);
  }

  lemma AppendNames(cfg: Config, w: World, w': World, pid: nat, l: Location, text: string)
    requires pid in w.processes && l.Events? && w.fs.Valid() && |w.owners| == |w.fs.data|
    requires pid in w'.processes && w'.processes == w.processes[pid := w'.processes[pid]]
    requires !w.processes[pid].pc.HasTemp()
    requires NameOk(cfg, w, PathTo(cfg.root, l)) && l in w'.ledgers
    requires w'.fs == AppendText(w.fs, PathTo(cfg.root, l), text)
    requires w'.owners == if PathTo(cfg.root, l) in w.fs.names then w.owners else w.owners + [Ledger(l)]
    requires PathTo(cfg.root, l) in w.fs.names ==>
      w.owners[w.fs.names[PathTo(cfg.root, l)]] == Ledger(l)
    ensures NamesFrom(cfg, w, w', pid)
    ensures forall p | p in w.fs.names :: p in w'.fs.names && w'.fs.names[p] == w.fs.names[p]
    ensures forall tmp | tmp in w.fs.names && IsTemp(cfg.root, tmp) :: KeepsPrivate(w.fs, w'.fs, tmp)
    ensures |w'.owners| == |w'.fs.data| && |w.fs.data| <= |w'.fs.data|
    ensures forall inode | 0 <= inode < |w'.fs.data| ::
      (inode < |w.fs.data| && w'.fs.data[inode] == w.fs.data[inode]) || OwnedOk(cfg, w', inode)
  {
    hide Run, PathTo, Holder, IsTemp;
    FinalIsNotTemp(cfg.root, l);
    HolderOfPath(cfg.root, l);
  }

  lemma NextKeeps(cfg: Config, w: World, move: Move)
    requires Inv(cfg, w)
    ensures Inv(cfg, Next(cfg, w, move))
  {
    hide Inv, ProcessOk, Check, Make, Open, Write, Publish, Clean, OpenJournal, WriteJournal;
    match move
    case Arrive(pid, call) =>
      if pid !in w.processes && call.Instance() { ArriveKeeps(cfg, w, pid, call); }
    case Crash(pid) =>
      if pid in w.processes && !w.processes[pid].pc.Finished? { CrashKeeps(cfg, w, pid); }
    case Advance(pid, tag, chunk) =>
      if pid in w.processes {
        match w.processes[pid].pc
        case Start => CheckKeeps(cfg, w, pid);
        case Making => MakeKeeps(cfg, w, pid);
        case Opening => OpenKeeps(cfg, w, pid, tag);
        case Writing(_, _, _) => WriteKeeps(cfg, w, pid, chunk);
        case Publishing(_, _) => PublishKeeps(cfg, w, pid);
        case Cleaning(_, _) => CleanKeeps(cfg, w, pid);
        case Appending => OpenJournalKeeps(cfg, w, pid);
        case Journaling(_) => WriteJournalKeeps(cfg, w, pid, chunk);
        case Finished(_) =>
        case Dead =>
      }
  }

  lemma CrashKeeps(cfg: Config, w: World, pid: nat)
    requires Inv(cfg, w) && pid in w.processes && !w.processes[pid].pc.Finished?
    ensures Inv(cfg, SetPc(w, pid, Dead))
  {
    hide Inv, ProcessOk;
    if w.processes[pid].pc.Dead? {
      WriterIsJournaling(cfg, w, pid);
      assert SetPc(w, pid, Dead).processes == w.processes;
    } else {
      InvFacts(cfg, w, pid);
      DeadProcess(cfg, w, pid);
      PcStepKeeps(cfg, w, pid, Dead);
    }
  }

  lemma DeadProcess(cfg: Config, w: World, pid: nat)
    requires pid in w.processes && ProcessOk(cfg, w, pid)
    ensures ProcessOk(cfg, SetPc(w, pid, Dead), pid)
  {
    hide Run, Admit, Admissible, PathTo, IsTemp, TextOf;
  }

  lemma StartIsFine(cfg: Config)
    ensures Inv(cfg, START)
  {
  }

  /** Every reachable state of any number of processes satisfies the invariant. */
  lemma {:induction false} InvAlways(cfg: Config, moves: seq<Move>)
    ensures Inv(cfg, Exec(cfg, moves))
  {
    if moves == [] {
      StartIsFine(cfg);
    } else {
      InvAlways(cfg, moves[..|moves| - 1]);
      NextKeeps(cfg, Exec(cfg, moves[..|moves| - 1]), moves[|moves| - 1]);
    }
  }
}
