/** `LocalPersistenceStore`: every operation on the file tree does what the abstract store does. */
module LocalStore {
  import opened Wrappers
  import opened Ordering
  import opened Json
  import opened Models
  import opened ModelProperties
  import opened Journal
  import opened JournalProperties
  import opened Paths
  import opened FileSystem
  import opened Store
  import opened Refinement

  // -- what the reads return, in terms of the abstract store ----------------

  function AttemptAt(st: Store, l: Location): Result<Option<Attempt>, Failure> {
    if l !in st.docs then Ok(None)
    else match ReadAttemptText(DocText(st.docs[l]))
      case Ok(a) => Ok(Some(a))
      case Err(e) => Err(e)
  }

  function EventsAt(st: Store, l: Location): Result<seq<Event>, Failure> {
    if l !in st.journals then Ok([]) else ReadJournalText(Appended(st.journals[l]))
  }

  function ReportAt(st: Store, l: Location): Result<map<string, JSON>, Failure> {
    if l !in st.docs then Err(NotFound) else ReadReportText(DocText(st.docs[l]))
  }

  function ReportIds(st: Store, task: string, attempt: string, category: string): set<string> {
    set l | l in st.docs && l.Report? && l.task == task && l.attempt == attempt && l.category == category :: l.id
  }

  function ReportsAt(st: Store, task: string, attempt: string, category: string, ids: seq<string>)
    : Result<seq<map<string, JSON>>, Failure>
  {
    if ids == [] then Ok([])
    else match ReportAt(st, Report(task, attempt, category, ids[0]))
      case Err(e) => Err(e)
      case Ok(first) =>
        match ReportsAt(st, task, attempt, category, ids[1..])
        case Err(e) => Err(e)
        case Ok(rest) => Ok([first] + rest)
  }

  /** The identifier a category's directory is refused for: the category is checked first. */
  function BadCategory(task: string, attempt: string, category: string): Option<PathError> {
    if !IsComponent(category) then Some(BadComponent("category"))
    else if !IsComponent(task) then Some(BadComponent("task_id"))
    else if !IsComponent(attempt) then Some(BadComponent("attempt_id"))
    else None
  }

  /** A read of `l`, refused when its identifiers are. */
  function Guarded<T>(root: Path, l: Location, r: Result<T, Failure>): Result<T, Failure> {
    match Locate(root, l)
    case Err(e) => Err(BadPath(e))
    case Ok(_) => r
  }

  // -- directories ----------------------------------------------------------

  predicate IsJsonName(name: string) { |name| >= 5 && name[|name| - 5..] == ".json" }

  /** The stems of `directory.glob("*.json")`. */
  function JsonStems(fs: FS, dir: Path): set<string> {
    set p | p in fs.names && p != [] && Parent(p) == dir && IsJsonName(p[|p| - 1]) ::
      p[|p| - 1][..|p[|p| - 1]| - 5]
  }

  lemma StemsAreReportIds(root: Path, fs: FS, st: Store, task: string, attempt: string, category: string)
    requires Holds(root, fs, st)
    ensures JsonStems(fs, root + ["attempts", task, attempt, category]) == ReportIds(st, task, attempt, category)
  {
    hide Holds, DocText, Appended, AllPossible, IsDir;
    var dir := root + ["attempts", task, attempt, category];
    forall id | id in JsonStems(fs, dir) ensures id in ReportIds(st, task, attempt, category) {
      var p :| p in fs.names && p != [] && Parent(p) == dir && IsJsonName(p[|p| - 1])
        && id == p[|p| - 1][..|p[|p| - 1]| - 5];
      JsonFileIsReport(root, fs, st, p, task, attempt, category);
    }
    forall id | id in ReportIds(st, task, attempt, category) ensures id in JsonStems(fs, dir) {
      var l := Report(task, attempt, category, id);
      assert l in st.docs;
      ReportIsJsonFile(root, fs, st, l);
    }
  }

  lemma ReportIsJsonFile(root: Path, fs: FS, st: Store, l: Location)
    requires Holds(root, fs, st) && l.Report? && l in st.docs
    ensures var p := PathTo(root, l);
      && p in fs.names && Parent(p) == root + ["attempts", l.task, l.attempt, l.category]
      && IsJsonName(p[|p| - 1]) && p[|p| - 1][..|p[|p| - 1]| - 5] == l.id
  {
    hide Holds, DocText, Appended;
    FileExactly(root, fs, st, l);
    var p := PathTo(root, l);
    assert p[|p| - 1] == l.id + ".json";
    assert (l.id + ".json")[|l.id|..] == ".json";
  }

  lemma JsonFileIsReport(
    root: Path, fs: FS, st: Store, p: Path, task: string, attempt: string, category: string)
    requires Holds(root, fs, st) && p in fs.names && p != []
    requires Parent(p) == root + ["attempts", task, attempt, category] && IsJsonName(p[|p| - 1])
    ensures Report(task, attempt, category, p[|p| - 1][..|p[|p| - 1]| - 5]) in st.docs
  {
    hide Holds;
    var name := p[|p| - 1];
    var id := name[..|name| - 5];
    var l := Report(task, attempt, category, id);
    assert name == id + ".json";
    assert p == Parent(p) + [name];
    assert PathTo(root, l) == p;
    FileExactly(root, fs, st, l);
  }

  // -- reading one document -------------------------------------------------

  /** A file is there exactly when its document or journal is, whatever the identifiers are. */
  lemma FileExactly(root: Path, fs: FS, st: Store, l: Location)
    requires Holds(root, fs, st)
    ensures PathTo(root, l) in fs.names <==> if l.Events? then l in st.journals else l in st.docs
    ensures l in st.docs ==> fs.TextAt(PathTo(root, l)) == Some(DocText(st.docs[l]))
    ensures l in st.journals ==> fs.TextAt(PathTo(root, l)) == Some(Appended(st.journals[l]))
  {
    hide PathTo, Holder, IsTemp, IsDir, Appended, AllPossible, DocText;
    HolderOfPath(root, l);
    FinalIsNotTemp(root, l);
    if l in st.docs { assert DocHeld(root, fs, l, st.docs[l]); }
    if l in st.journals { assert JournalHeld(root, fs, l, st.journals[l]); }
    if PathTo(root, l) in fs.names { assert Accounted(root, st, PathTo(root, l)); }
  }

  class LocalPersistenceStore {
    const cfg: Config
    var fs: FS

    /** The abstract store this file tree stands for. */
    ghost var store: Store

    ghost predicate Valid()
      reads this
    {
      Holds(cfg.root, fs, store)
    }

    /** A new store on a root with nothing in it. */
    constructor (cfg: Config)
      ensures Valid() && this.cfg == cfg && fs == EMPTY && store == EMPTY_STORE
    {
      this.cfg := cfg;
      fs := EMPTY;
      store := EMPTY_STORE;
    }

    /** A store that a fresh process opens on a tree others have left, temporary files and all. */
    constructor OnTree(cfg: Config, fs: FS, ghost store: Store)
      requires Holds(cfg.root, fs, store)
      ensures Valid() && this.cfg == cfg && this.fs == fs && this.store == store
    {
      this.cfg := cfg;
      this.fs := fs;
      this.store := store;
    }

    /** `_write_temp_file`: the complete text under a temporary name, or nothing where no directory can be made. */
    method WriteTempFile(l: Location, data: JSON, tag: string) returns (written: Option<Path>)
      requires Valid() && Named(l) && !l.Events? && WellFormed(data) && data.Obj?
      requires !fs.Exists(TempPath(PathTo(cfg.root, l), tag))
      modifies this`fs
      ensures Valid() && (written.None? <==> old(Obstructed(cfg.root, fs, store, l)))
      ensures written.None? ==> fs == old(fs)
      ensures written.Some? ==>
        && written.value == TempPath(PathTo(cfg.root, l), tag) && Ready(cfg.root, fs, written.value, l, data)
        && forall m :: Taken(cfg.root, fs, m) <==> Taken(cfg.root, old(fs), m) || Displaces(l, m)
    {
      hide Holds, DocText, PathTo, TempPath, IsTemp, Mkdirs, Obstructed, Displaces;
      var path := PathTo(cfg.root, l);
      MkdirsFailsExactly(cfg.root, fs, store, l);
      var made := Mkdirs(fs, Parent(path));
      if made.None? { return None; }
      MkdirsKeeps(cfg.root, fs, store, l);
      forall m { MkdirsDisplacesExactly(cfg.root, fs, l, m); }
      TempIsTemp(cfg.root, l, tag);
      NewTempIsFree(cfg.root, fs, l, tag);
      fs := made.value;
      var tmp := TempPath(path, tag);
      OpenTempKeeps(cfg.root, fs, store, tmp);
      fs := OpenNew(fs, tmp);
      ValidFS();
      WriteTempKeeps(cfg.root, fs, store, tmp, DocText(data));
      fs := WriteInode(fs, fs.names[tmp], DocText(data));
      assert "" + DocText(data) == DocText(data);
      written := Some(tmp);
    }

    lemma ValidFS()
      requires Valid()
      ensures fs.Valid()
    {
    }

    /** `_atomic_replace_json`: fails on a directory in the document's place. */
    method AtomicReplaceJson(l: Location, data: JSON, tag: string) returns (r: Outcome)
      requires Valid() && Named(l) && !l.Events? && WellFormed(data) && data.Obj?
      requires !fs.Exists(TempPath(PathTo(cfg.root, l), tag))
      modifies this
      ensures Valid()
      ensures r == if old(Obstructed(cfg.root, fs, store, l)) || Taken(cfg.root, old(fs), l) then Err(FileSystemError)
                   else Ok(())
      ensures store == if r.Ok? then old(store).(docs := old(store).docs[l := data]) else old(store)
      ensures forall m :: Taken(cfg.root, fs, m) <==>
        Taken(cfg.root, old(fs), m) || (Displaces(l, m) && !old(Obstructed(cfg.root, fs, store, l)))
    {
      hide Holds, DocText, PathTo, TempPath, IsTemp, Obstructed, Displaces;
      NotOwnPlace(l);
      var written := WriteTempFile(l, data, tag);
      if written.None? { return Err(FileSystemError); }
      var tmp := written.value;
      var path := PathTo(cfg.root, l);
      if path in fs.dirs {
        r := Err(FileSystemError);
      } else {
        PublishStores(cfg.root, fs, Replace(fs, tmp, path), store, tmp, l, data);
        fs := Replace(fs, tmp, path);
        store := store.(docs := store.docs[l := data]);
        r := Ok(());
      }
      UnlinkTempKeeps(cfg.root, fs, store, tmp);
      fs := Unlink(fs, tmp);
    }

    /** `_atomic_create_json`: an existing file, or a directory in its place, is refused and left as it is. */
    method AtomicCreateJson(l: Location, data: JSON, tag: string) returns (r: Outcome)
      requires Valid() && Named(l) && !l.Events? && WellFormed(data) && data.Obj?
      requires !fs.Exists(TempPath(PathTo(cfg.root, l), tag))
      modifies this
      ensures Valid()
      ensures r == if old(Obstructed(cfg.root, fs, store, l)) then Err(FileSystemError)
                   else if l in old(store).docs || Taken(cfg.root, old(fs), l) then Err(AlreadyExists)
                   else Ok(())
      ensures store == if r.Ok? then old(store).(docs := old(store).docs[l := data]) else old(store)
      ensures forall m :: Taken(cfg.root, fs, m) <==>
        Taken(cfg.root, old(fs), m) || (Displaces(l, m) && !old(Obstructed(cfg.root, fs, store, l)))
    {
      hide Holds, DocText, PathTo, TempPath, IsTemp, Obstructed, Displaces;
      NotOwnPlace(l);
      var written := WriteTempFile(l, data, tag);
      if written.None? { return Err(FileSystemError); }
      var tmp := written.value;
      PresentExactly(cfg.root, fs, store, l);
      var path := PathTo(cfg.root, l);
      if fs.Exists(path) {
        r := Err(AlreadyExists);
      } else {
        PublishStores(cfg.root, fs, Link(fs, tmp, path), store, tmp, l, data);
        fs := Link(fs, tmp, path);
        store := store.(docs := store.docs[l := data]);
        r := Ok(());
      }
      UnlinkTempKeeps(cfg.root, fs, store, tmp);
      fs := Unlink(fs, tmp);
    }

    method SaveCurrent(attempt: Attempt, tag: string) returns (r: Outcome)
      requires Valid() && attempt.Valid() && !fs.Exists(TempPath(PathTo(cfg.root, Current), tag))
      modifies this
      ensures Valid() && (store, r) == Perform(cfg, old(store), Call.SaveCurrent(attempt))
      ensures r == if cfg.clean(DumpAttempt(attempt)) then Ok(()) else Err(HasSecrets)
      ensures forall m :: Taken(cfg.root, fs, m) <==> Taken(cfg.root, old(fs), m)
    {
      hide Holds, DumpAttempt, PathTo, TempPath, Locate;
      var path := Admit(cfg, Call.SaveCurrent(attempt));
      if path.Err? { return Err(path.error); }
      PresentExactly(cfg.root, fs, store, Current);
      OnlyReportsDisplace(Current);
      DumpedAttemptIsWellFormed(attempt);
      DumpIsObject(attempt);
      r := AtomicReplaceJson(Current, DumpAttempt(attempt), tag);
    }

    method SaveAttemptRecord(attempt: Attempt, tag: string) returns (r: Outcome)
      requires Valid() && attempt.Valid()
      requires !fs.Exists(TempPath(PathTo(cfg.root, Record(attempt.taskId, attempt.attemptId)), tag))
      modifies this
      ensures Valid() && (store, r) == old(PerformOn(cfg, fs, store, SaveRecord(attempt)))
      ensures forall m :: Taken(cfg.root, fs, m) <==> Taken(cfg.root, old(fs), m)
    {
      hide Holds, DumpAttempt, PathTo, TempPath, Locate, Taken;
      var path := Admit(cfg, SaveRecord(attempt));
      if path.Err? { return Err(path.error); }
      var l := Record(attempt.taskId, attempt.attemptId);
      LocateIs(cfg.root, l);
      DumpedAttemptIsWellFormed(attempt);
      DumpIsObject(attempt);
      OnlyReportsDisplace(l);
      r := AtomicCreateJson(l, DumpAttempt(attempt), tag);
    }

    method AppendReport(
      task: string, attemptId: string, category: string, id: string, report: map<string, JSON>, tag: string)
      returns (r: Outcome)
      requires Valid() && WellFormed(Obj(report))
      requires !fs.Exists(TempPath(PathTo(cfg.root, Report(task, attemptId, category, id)), tag))
      modifies this
      ensures Valid()
      ensures var call := Call.AppendReport(task, attemptId, category, id, report);
        && (store, r) == old(PerformOn(cfg, fs, store, call))
        && forall m :: Taken(cfg.root, fs, m) <==>
             (|| Taken(cfg.root, old(fs), m)
              || (Admissible(cfg, call) && Displaces(LocationFor(call), m)
                  && !old(Obstructed(cfg.root, fs, store, LocationFor(call)))))
    {
      hide Holds, PathTo, TempPath, Locate, Obstructed, Displaces, Taken;
      var path := Admit(cfg, Call.AppendReport(task, attemptId, category, id, report));
      if path.Err? { return Err(path.error); }
      var l := Report(task, attemptId, category, id);
      LocateIs(cfg.root, l);
      r := AtomicCreateJson(l, Obj(report), tag);
    }

    method AppendEvent(event: Event) returns (r: Outcome)
      requires Valid() && event.Valid()
      modifies this
      ensures Valid() && (store, r) == old(PerformOn(cfg, fs, store, Call.AppendEvent(event)))
      ensures forall m :: Taken(cfg.root, fs, m) <==> Taken(cfg.root, old(fs), m)
    {
      hide Holds, DumpEvent, PathTo, Locate, Line, Displaces;
      var path := Admit(cfg, Call.AppendEvent(event));
      if path.Err? { return Err(path.error); }
      var l := Events(event.taskId, event.attemptId);
      LocateIs(cfg.root, l);
      MkdirsFailsExactly(cfg.root, fs, store, l);
      MkdirsKeeps(cfg.root, fs, store, l);
      forall m { MkdirsDisplacesExactly(cfg.root, fs, l, m); }
      OnlyReportsDisplace(l);
      fs := Mkdirs(fs, Parent(PathTo(cfg.root, l))).value;
      if PathTo(cfg.root, l) in fs.dirs { return Err(FileSystemError); }
      ValidFS();
      EventStores(cfg.root, fs, store, event);
      fs := AppendText(fs, PathTo(cfg.root, l), Line(event));
      store := Apply(store, Call.AppendEvent(event));
      r := Ok(());
    }

    /** `path.is_file()` and then `_read_model(path, Attempt)`. */
    method ReadAttemptAt(l: Location) returns (r: Result<Option<Attempt>, Failure>)
      requires Valid() && !l.Events?
      ensures r == Guarded(cfg.root, l, AttemptAt(store, l))
    {
      hide Holds, DocText, Appended, AllPossible, PathTo, ParseAttempt, Locate;
      LocateIs(cfg.root, l);
      FileExactly(cfg.root, fs, store, l);
      var path := Locate(cfg.root, l);
      if path.Err? { return Err(BadPath(path.error)); }
      PathToIs(l);
      var text := fs.TextAt(path.value);
      if text.None? { return Ok(None); }
      var read := ReadAttemptText(text.value);
      if read.Err? { return Err(read.error); }
      return Ok(Some(read.value));
    }

    lemma PathToIs(l: Location)
      requires Valid()
      ensures PathTo(cfg.root, l) == cfg.root + Below(l)
      ensures PathTo(cfg.root, l) in fs.names ==> fs.TextAt(PathTo(cfg.root, l)).Some?
    {
    }

    method LoadCurrent() returns (r: Result<Option<Attempt>, Failure>)
      requires Valid()
      ensures r == Guarded(cfg.root, Current, AttemptAt(store, Current))
    {
      r := ReadAttemptAt(Current);
    }

    method LoadAttemptRecord(task: string, attempt: string) returns (r: Result<Option<Attempt>, Failure>)
      requires Valid()
      ensures r == Guarded(cfg.root, Record(task, attempt), AttemptAt(store, Record(task, attempt)))
    {
      r := ReadAttemptAt(Record(task, attempt));
    }

    method ReadEvents(task: string, attempt: string) returns (r: Result<seq<Event>, Failure>)
      requires Valid()
      ensures r == Guarded(cfg.root, Events(task, attempt), EventsAt(store, Events(task, attempt)))
    {
      hide Holds, DocText, Appended, AllPossible, PathTo, ReadJournal, Locate;
      var l := Events(task, attempt);
      LocateIs(cfg.root, l);
      FileExactly(cfg.root, fs, store, l);
      var path := Locate(cfg.root, l);
      if path.Err? { return Err(BadPath(path.error)); }
      PathToIs(l);
      var text := fs.TextAt(path.value);
      if text.None? { return Ok([]); }
      var events := Journal.ReadEvents(text.value);
      if events.Err? { return Err(CorruptJournal(events.error)); }
      return Ok(events.value);
    }

    method LoadReport(task: string, attempt: string, category: string, id: string)
      returns (r: Result<map<string, JSON>, Failure>)
      requires Valid()
      ensures var l := Report(task, attempt, category, id); r == Guarded(cfg.root, l, ReportAt(store, l))
    {
      hide Holds, DocText, Appended, AllPossible, PathTo, ReadReportText, Locate;
      var l := Report(task, attempt, category, id);
      LocateIs(cfg.root, l);
      FileExactly(cfg.root, fs, store, l);
      var path := Locate(cfg.root, l);
      if path.Err? { return Err(BadPath(path.error)); }
      PathToIs(l);
      var text := fs.TextAt(path.value);
      if text.None? { return Err(NotFound); }
      return ReadReportText(text.value);
    }

    method ListReportIds(task: string, attempt: string, category: string) returns (r: Result<seq<string>, Failure>)
      requires Valid()
      ensures r == match BadCategory(task, attempt, category)
                   case Some(e) => Err(BadPath(e))
                   case None => Ok(SortedKeys(ReportIds(store, task, attempt, category)))
      ensures r.Ok? ==> Elements(r.value) == ReportIds(store, task, attempt, category) && ByCodePoints(r.value)
    {
      hide Holds, SortedKeys, CategoryDir;
      BadCategoryFails(task, attempt, category);
      var dir := CategoryDir(cfg.root, task, attempt, category);
      if dir.Err? { return Err(BadPath(dir.error)); }
      CategoryDirIs(cfg.root, task, attempt, category);
      StemsAreReportIds(cfg.root, fs, store, task, attempt, category);
      SortedKeysAscend(ReportIds(store, task, attempt, category));
      AscendingExactly(SortedKeys(ReportIds(store, task, attempt, category)));
      if dir.value !in fs.dirs {
        NoFilesWithoutDir(dir.value);
        SortedKeysOfNone();
        return Ok([]);
      }
      return Ok(SortedKeys(JsonStems(fs, dir.value)));
    }

    lemma BadCategoryFails(task: string, attempt: string, category: string)
      ensures match BadCategory(task, attempt, category)
              case Some(e) => CategoryDir(cfg.root, task, attempt, category) == Err(e)
              case None => CategoryDir(cfg.root, task, attempt, category).Ok?
    {
      hide Join, EnsureWithin;
      if BadCategory(task, attempt, category).None? { CategoryDirIs(cfg.root, task, attempt, category); }
    }

    lemma NoFilesWithoutDir(dir: Path)
      requires Valid() && dir !in fs.dirs
      ensures JsonStems(fs, dir) == {}
    {
    }

    lemma SortedKeysOfNone()
      ensures SortedKeys({}) == []
    {
    }

    /** The reports of a category in the order of their ids; the first that cannot be read is raised. */
    method LoadReports(task: string, attempt: string, category: string)
      returns (r: Result<seq<map<string, JSON>>, Failure>)
      requires Valid()
      ensures r == match BadCategory(task, attempt, category)
                   case Some(e) => Err(BadPath(e))
                   case None =>
                     ReportsAt(store, task, attempt, category, SortedKeys(ReportIds(store, task, attempt, category)))
    {
      hide Holds, SortedKeys, ReportAt, Locate;
      var ids := ListReportIds(task, attempt, category);
      if ids.Err? { return Err(ids.error); }
      var reports: seq<map<string, JSON>> := [];
      assert ids.value[0..] == ids.value;
      AppendNone(reports, task, attempt, category, ids.value);
      for i := 0 to |ids.value|
        invariant ReportsAt(store, task, attempt, category, ids.value)
               == After(reports, ReportsAt(store, task, attempt, category, ids.value[i..]))
      {
        var l := Report(task, attempt, category, ids.value[i]);
        assert ids.value[i] in Elements(ids.value) && l in store.docs;
        assert ids.value[i..][1..] == ids.value[i + 1..];
        DocIsNamed(l);
        var report := LoadReport(task, attempt, category, ids.value[i]);
        if report.Err? { return Err(report.error); }
        AfterAfter(reports, report.value, ReportsAt(store, task, attempt, category, ids.value[i + 1..]));
        reports := reports + [report.value];
      }
      assert ids.value[|ids.value|..] == [] && reports + [] == reports;
      return Ok(reports);
    }

    lemma AppendNone(
      reports: seq<map<string, JSON>>, task: string, attempt: string, category: string, ids: seq<string>)
      requires reports == []
      ensures After(reports, ReportsAt(store, task, attempt, category, ids))
           == ReportsAt(store, task, attempt, category, ids)
    {
      hide ReportsAt;
      var r := ReportsAt(store, task, attempt, category, ids);
      if r.Ok? { assert [] + r.value == r.value; }
    }

    lemma DocIsNamed(l: Location)
      requires Valid() && l in store.docs
      ensures Locate(cfg.root, l).Ok?
    {
      hide DocText, Appended, AllPossible, Locate;
      LocateIs(cfg.root, l);
      assert DocHeld(cfg.root, fs, l, store.docs[l]);
    }
  }

  function After(reports: seq<map<string, JSON>>, r: Result<seq<map<string, JSON>>, Failure>)
    : Result<seq<map<string, JSON>>, Failure>
  {
    if r.Ok? then Ok(reports + r.value) else r
  }

  lemma AfterAfter(
    reports: seq<map<string, JSON>>, report: map<string, JSON>, r: Result<seq<map<string, JSON>>, Failure>)
    ensures After(reports + [report], r)
         == After(reports, if r.Ok? then Ok([report] + r.value) else r)
  {
    if r.Ok? { assert reports + [report] + r.value == reports + ([report] + r.value); }
  }

  lemma DumpIsObject(a: Attempt)
    ensures DumpAttempt(a).Obj?
  {
  }

  // -- recovery -------------------------------------------------------------

  datatype Recovered = Recovered(attempt: Attempt, events: seq<Event>)

  function RecoveredFrom(cfg: Config, st: Store, task: string): Result<Option<Recovered>, Failure> {
    var current := Guarded<Option<Attempt>>(cfg.root, Current, AttemptAt(st, Current));
    if current.Err? then Err(current.error)
    else if current.value.None? || current.value.value.taskId != task then Ok(None)
    else
      var attempt := current.value.value;
      var l := Events(attempt.taskId, attempt.attemptId);
      match Guarded<seq<Event>>(cfg.root, l, EventsAt(st, l))
      case Err(e) => Err(e)
      case Ok(events) => Ok(Some(Recovered(attempt, events)))
  }

  /** `load_recovered_state`. */
  method LoadRecoveredState(store: LocalPersistenceStore, task: string) returns (r: Result<Option<Recovered>, Failure>)
    requires store.Valid()
    ensures r == RecoveredFrom(store.cfg, store.store, task)
  {
    hide AttemptAt, EventsAt, Locate;
    var current := store.LoadCurrent();
    if current.Err? { return Err(current.error); }
    if current.value.None? || current.value.value.taskId != task { return Ok(None); }
    var attempt := current.value.value;
    var events := store.ReadEvents(attempt.taskId, attempt.attemptId);
    if events.Err? { return Err(events.error); }
    return Ok(Some(Recovered(attempt, events.value)));
  }
}
