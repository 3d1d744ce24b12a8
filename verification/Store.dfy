/** What the store is for: a current attempt, immutable records and reports, append-only journals. */
module Store {
  import opened Wrappers
  import opened Json
  import opened Models
  import opened Journal
  import opened Paths

  /** The abstract store: each document's JSON, and what was appended to each journal. Only an append that a crash
      cut short is not there with its whole line. */
  datatype Store = Store(docs: map<Location, JSON>, journals: map<Location, seq<CutAppend>>)

  const EMPTY_STORE: Store := Store(map[], map[])

  /** The write operations. A report model is the object its `model_dump` yields. */
  datatype Call =
    | SaveCurrent(attempt: Attempt)
    | SaveRecord(attempt: Attempt)
    | AppendReport(task: string, attemptId: string, category: string, id: string, report: map<string, JSON>)
    | AppendEvent(event: Event)
  {
    /** The arguments are instances of their models. */
    ghost predicate Instance() {
      match this
      case SaveCurrent(a) => a.Valid()
      case SaveRecord(a) => a.Valid()
      case AppendReport(_, _, _, _, report) => WellFormed(Obj(report))
      case AppendEvent(e) => e.Valid()
    }
  }

  datatype Failure =
    | BadPath(error: PathError)
    | HasSecrets
    | AlreadyExists
    | NotFound
    | FileSystemError
    | Unreadable(refusal: Refusal)
    | CorruptJournal(line: CorruptLine)

  type Outcome = Result<(), Failure>

  /** Where the store lives, and which JSON trees `_reject_secrets` lets through. */
  datatype Config = Config(root: Path, clean: JSON -> bool)

  function LocationFor(call: Call): Location {
    match call
    case SaveCurrent(_) => Current
    case SaveRecord(a) => Record(a.taskId, a.attemptId)
    case AppendReport(task, attemptId, category, id, _) => Report(task, attemptId, category, id)
    case AppendEvent(e) => Events(e.taskId, e.attemptId)
  }

  function DataOf(call: Call): JSON {
    match call
    case SaveCurrent(a) => DumpAttempt(a)
    case SaveRecord(a) => DumpAttempt(a)
    case AppendReport(_, _, _, _, report) => Obj(report)
    case AppendEvent(e) => DumpEvent(e)
  }

  /** The text a call puts on disk. */
  function TextOf(call: Call): string {
    if call.AppendEvent? then Line(call.event) else DumpsIndented(DataOf(call))
  }

  /** The identifiers are acceptable and the data holds nothing that looks like a secret. */
  predicate Admissible(cfg: Config, call: Call) { Named(LocationFor(call)) && cfg.clean(DataOf(call)) }

  /** What any other call is refused for; a bad identifier comes first. */
  function RefusalOf(call: Call): Failure {
    if Named(LocationFor(call)) then HasSecrets else BadPath(BadPart(LocationFor(call)).value)
  }

  /** The checks every write makes before it touches the file system. */
  function Admit(cfg: Config, call: Call): (r: Result<Path, Failure>)
    ensures r == if Admissible(cfg, call) then Ok(cfg.root + Below(LocationFor(call))) else Err(RefusalOf(call))
  {
    LocateIs(cfg.root, LocationFor(call));
    match Locate(cfg.root, LocationFor(call))
    case Err(e) => Err(BadPath(e))
    case Ok(path) => if cfg.clean(DataOf(call)) then Ok(path) else Err(HasSecrets)
  }

  /** A call that must not find its document already there. */
  predicate Creates(call: Call) { call.SaveRecord? || call.AppendReport? }

  /** The appends to a journal; none to one that was never opened. */
  function JournalOf(st: Store, l: Location): seq<CutAppend> {
    if l in st.journals then st.journals[l] else []
  }

  /** The effect of one successful call. */
  function Apply(st: Store, call: Call): Store {
    var l := LocationFor(call);
    if call.AppendEvent? then
      st.(journals := st.journals[l := JournalOf(st, l) + [CutAppend(call.event, |Line(call.event)|)]])
    else st.(docs := st.docs[l := DataOf(call)])
  }

  /** One call on the abstract store: refused calls change nothing. */
  function Perform(cfg: Config, st: Store, call: Call): (Store, Outcome) {
    match Admit(cfg, call)
    case Err(e) => (st, Err(e))
    case Ok(_) =>
      if Creates(call) && LocationFor(call) in st.docs then (st, Err(AlreadyExists))
      else (Apply(st, call), Ok(()))
  }

  /** A sequence of calls on a new store, refused ones included. */
  function Run(cfg: Config, calls: seq<Call>): Store {
    if calls == [] then EMPTY_STORE
    else Perform(cfg, Run(cfg, calls[..|calls| - 1]), calls[|calls| - 1]).0
  }

  // -- reads ----------------------------------------------------------------

  /** The text of a document as the store writes it. */
  function DocText(j: JSON): string { DumpsIndented(j) }

  /** `_read_model(path, Attempt)`. */
  function ReadAttemptText(text: string): Result<Attempt, Failure> {
    match ParseAttempt(text)
    case Ok(a) => Ok(a)
    case Err(e) => Err(Unreadable(e))
  }

  /** `_read_model(path, model_type)` for a report: its object, once its version is checked. */
  function ReadReportText(text: string): Result<map<string, JSON>, Failure> {
    match ParseObject(text)
    case Err(e) => Err(Unreadable(e))
    case Ok(m) => if HasCurrentVersion(m) then Ok(m) else Err(Unreadable(BadVersion))
  }

  function ReadJournalText(text: string): Result<seq<Event>, Failure> {
    match ReadJournal(text)
    case Ok(events) => Ok(events)
    case Err(e) => Err(CorruptJournal(e))
  }
}
