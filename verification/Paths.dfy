/** Where the store keeps each document below its root: identifier checks and path construction. */
module Paths {
  import opened Wrappers

  /** A path as pathlib holds it: its parts. */
  type Path = seq<string>

  /** The documents of the store. */
  datatype Location =
    | Current
    | Record(task: string, attempt: string)
    | Events(task: string, attempt: string)
    | Report(task: string, attempt: string, category: string, id: string)

  datatype PathError = BadComponent(which: string) | OutsideRoot

  const CURRENT_FILENAME := "current.json"
  const ATTEMPT_FILENAME := "attempt.json"
  const EVENTS_FILENAME := "events.jsonl"

  // -- components -----------------------------------------------------------

  predicate Forbidden(c: char) { c in {'/', '\\', ':', '\0'} }

  /** `_validate_path_component` accepts exactly these. */
  predicate IsComponent(value: string) {
    value != "" && value != "." && value != ".." && forall k | 0 <= k < |value| :: !Forbidden(value[k])
  }

  // -- pathlib --------------------------------------------------------------

  function SegmentLength(s: string): (n: nat)
    ensures n <= |s|
    ensures n < |s| ==> s[n] == '/'
    ensures forall k :: 0 <= k < n ==> s[k] != '/'
  {
    if s == "" || s[0] == '/' then 0 else 1 + SegmentLength(s[1..])
  }

  /** The parts of a relative path text: empty and `.` segments vanish. */
  function Parts(s: string): Path
    decreases |s|
  {
    var n := SegmentLength(s);
    var rest := if n == |s| then [] else Parts(s[n + 1..]);
    if s[..n] == "" || s[..n] == "." then rest else [s[..n]] + rest
  }

  /** `base / segment`: an absolute segment replaces the base. */
  function Join(base: Path, segment: string): Path {
    if segment != "" && segment[0] == '/' then Parts(segment) else base + Parts(segment)
  }

  /** `resolve()` without symbolic links: each `..` removes the part before it. */
  function Resolve(p: Path): Path {
    if p == [] then []
    else
      var before := Resolve(p[..|p| - 1]);
      if p[|p| - 1] != ".." then before + [p[|p| - 1]]
      else if before == [] then []
      else before[..|before| - 1]
  }

  /** `_ensure_within_root`. */
  function EnsureWithin(root: Path, p: Path): Result<Path, PathError> {
    if Resolve(root) <= Resolve(p) then Ok(p) else Err(OutsideRoot)
  }

  // -- the path builders ----------------------------------------------------

  function AttemptDir(root: Path, task: string, attempt: string): Result<Path, PathError> {
    if !IsComponent(task) then Err(BadComponent("task_id"))
    else if !IsComponent(attempt) then Err(BadComponent("attempt_id"))
    else EnsureWithin(root, Join(Join(Join(root, "attempts"), task), attempt))
  }

  function CategoryDir(root: Path, task: string, attempt: string, category: string): Result<Path, PathError> {
    if !IsComponent(category) then Err(BadComponent("category"))
    else match AttemptDir(root, task, attempt)
      case Err(e) => Err(e)
      case Ok(dir) => EnsureWithin(root, Join(dir, category))
  }

  function ReportPath(root: Path, task: string, attempt: string, category: string, id: string)
    : Result<Path, PathError>
  {
    if !IsComponent(id) then Err(BadComponent("report_id"))
    else match CategoryDir(root, task, attempt, category)
      case Err(e) => Err(e)
      case Ok(dir) => EnsureWithin(root, Join(dir, id + ".json"))
  }

  /** The path each operation of the store opens. */
  function Locate(root: Path, l: Location): Result<Path, PathError> {
    match l
    case Current => EnsureWithin(root, Join(root, CURRENT_FILENAME))
    case Record(task, attempt) =>
      (match AttemptDir(root, task, attempt)
       case Err(e) => Err(e)
       case Ok(dir) => Ok(Join(dir, ATTEMPT_FILENAME)))
    case Events(task, attempt) =>
      (match AttemptDir(root, task, attempt)
       case Err(e) => Err(e)
       case Ok(dir) => Ok(Join(dir, EVENTS_FILENAME)))
    case Report(task, attempt, category, id) => ReportPath(root, task, attempt, category, id)
  }

  // -- what the builders mean -----------------------------------------------

  /** The identifiers of a location are all acceptable components. */
  predicate Named(l: Location) {
    match l
    case Current => true
    case Record(task, attempt) => IsComponent(task) && IsComponent(attempt)
    case Events(task, attempt) => IsComponent(task) && IsComponent(attempt)
    case Report(task, attempt, category, id) =>
      IsComponent(task) && IsComponent(attempt) && IsComponent(category) && IsComponent(id)
  }

  /** The layout: the parts below the root. */
  function Below(l: Location): (p: Path)
    ensures |p| in {1, 4, 5}
  {
    match l
    case Current => ["current.json"]
    case Record(task, attempt) => ["attempts", task, attempt, "attempt.json"]
    case Events(task, attempt) => ["attempts", task, attempt, "events.jsonl"]
    case Report(task, attempt, category, id) => ["attempts", task, attempt, category, id + ".json"]
  }

  /** The location a path below the root belongs to. */
  function LocationOf(p: Path): Option<Location> {
    if p == [CURRENT_FILENAME] then Some(Current)
    else if |p| == 4 && p[0] == "attempts" && p[3] == ATTEMPT_FILENAME then Some(Record(p[1], p[2]))
    else if |p| == 4 && p[0] == "attempts" && p[3] == EVENTS_FILENAME then Some(Events(p[1], p[2]))
    else if |p| == 5 && p[0] == "attempts" && |p[4]| >= 5 && p[4][|p[4]| - 5..] == ".json" then
      Some(Report(p[1], p[2], p[3], p[4][..|p[4]| - 5]))
    else None
  }

  lemma {:induction false} OneSegment(s: string)
    requires s != "" && s != "." && forall k :: 0 <= k < |s| ==> s[k] != '/'
    ensures Parts(s) == [s]
  {
    assert SegmentLength(s) == |s|;
    assert s[..|s|] == s;
  }

  lemma JoinComponent(base: Path, c: string)
    requires c != "" && c != "." && forall k :: 0 <= k < |c| ==> c[k] != '/'
    ensures Join(base, c) == base + [c]
  {
    OneSegment(c);
  }

  lemma ResolveSnoc(p: Path, part: string)
    requires part != ".."
    ensures Resolve(p + [part]) == Resolve(p) + [part]
  {
    assert (p + [part])[..|p|] == p;
  }

  lemma {:induction false} ResolveBelow(root: Path, parts: Path)
    requires forall k :: 0 <= k < |parts| ==> parts[k] != ".."
    ensures Resolve(root + parts) == Resolve(root) + parts
  {
    if parts == [] {
      assert root + [] == root;
    } else {
      var init, last := parts[..|parts| - 1], parts[|parts| - 1];
      ResolveBelow(root, init);
      ResolveSnoc(root + init, last);
      assert root + parts == root + init + [last] && parts == init + [last];
    }
  }

  lemma EnsureBelow(root: Path, parts: Path)
    requires forall k :: 0 <= k < |parts| ==> parts[k] != ".."
    ensures EnsureWithin(root, root + parts) == Ok(root + parts)
  {
    ResolveBelow(root, parts);
  }

  lemma AttemptDirIs(root: Path, task: string, attempt: string)
    requires IsComponent(task) && IsComponent(attempt)
    ensures AttemptDir(root, task, attempt) == Ok(root + ["attempts", task, attempt])
  {
    hide Join, EnsureWithin;
    JoinComponent(root, "attempts");
    JoinComponent(root + ["attempts"], task);
    JoinComponent(root + ["attempts"] + [task], attempt);
    assert root + ["attempts"] + [task] + [attempt] == root + ["attempts", task, attempt];
    EnsureBelow(root, ["attempts", task, attempt]);
  }

  lemma CategoryDirIs(root: Path, task: string, attempt: string, category: string)
    requires IsComponent(task) && IsComponent(attempt) && IsComponent(category)
    ensures CategoryDir(root, task, attempt, category) == Ok(root + ["attempts", task, attempt, category])
  {
    hide Join, EnsureWithin, AttemptDir;
    AttemptDirIs(root, task, attempt);
    JoinComponent(root + ["attempts", task, attempt], category);
    assert root + ["attempts", task, attempt] + [category] == root + ["attempts", task, attempt, category];
    EnsureBelow(root, ["attempts", task, attempt, category]);
  }

  /** The identifier a location is refused for, in the order in which they are checked. */
  function BadPart(l: Location): Option<PathError> {
    match l
    case Current => None
    case Record(task, attempt) => BadAttempt(task, attempt)
    case Events(task, attempt) => BadAttempt(task, attempt)
    case Report(task, attempt, category, id) =>
      if !IsComponent(id) then Some(BadComponent("report_id"))
      else if !IsComponent(category) then Some(BadComponent("category"))
      else BadAttempt(task, attempt)
  }

  function BadAttempt(task: string, attempt: string): Option<PathError> {
    if !IsComponent(task) then Some(BadComponent("task_id"))
    else if !IsComponent(attempt) then Some(BadComponent("attempt_id"))
    else None
  }

  /** Every location with acceptable identifiers has its path, the parts of the location below the root;
      every other is refused for its first bad identifier. */
  lemma LocateIs(root: Path, l: Location)
    ensures Locate(root, l) == if Named(l) then Ok(root + Below(l)) else Err(BadPart(l).value)
    ensures BadPart(l).None? <==> Named(l)
  {
    hide Join, EnsureWithin, AttemptDir, CategoryDir;
    match l
    case Current =>
      JoinComponent(root, CURRENT_FILENAME);
      EnsureBelow(root, [CURRENT_FILENAME]);
    case Record(task, attempt) => FileInAttempt(root, task, attempt, ATTEMPT_FILENAME);
    case Events(task, attempt) => FileInAttempt(root, task, attempt, EVENTS_FILENAME);
    case Report(task, attempt, category, id) =>
      if !IsComponent(id) {
      } else if Named(l) {
        CategoryDirIs(root, task, attempt, category);
        var dir := root + ["attempts", task, attempt, category];
        JoinComponent(dir, id + ".json");
        assert dir + [id + ".json"] == root + Below(l);
        EnsureBelow(root, Below(l));
      } else {
        BadCategoryDir(root, task, attempt, category);
      }
  }

  lemma FileInAttempt(root: Path, task: string, attempt: string, name: string)
    requires name in {ATTEMPT_FILENAME, EVENTS_FILENAME}
    ensures match BadAttempt(task, attempt)
            case Some(e) => AttemptDir(root, task, attempt) == Err(e)
            case None =>
              && AttemptDir(root, task, attempt).Ok?
              && Join(AttemptDir(root, task, attempt).value, name) == root + ["attempts", task, attempt, name]
  {
    hide Join;
    if BadAttempt(task, attempt).None? {
      AttemptDirIs(root, task, attempt);
      JoinComponent(root + ["attempts", task, attempt], name);
      assert root + ["attempts", task, attempt] + [name] == root + ["attempts", task, attempt, name];
    }
  }

  lemma BadCategoryDir(root: Path, task: string, attempt: string, category: string)
    requires !IsComponent(category) || BadAttempt(task, attempt).Some?
    ensures CategoryDir(root, task, attempt, category) ==
      Err(if !IsComponent(category) then BadComponent("category") else BadAttempt(task, attempt).value)
  {
    hide Join, EnsureWithin;
  }

  /** The path determines the location, so distinct identifiers never share a file. */
  lemma LocationOfBelow(l: Location)
    ensures LocationOf(Below(l)) == Some(l)
  {
    if l.Report? {
      var name := l.id + ".json";
      assert name[|name| - 5..] == ".json" && name[..|name| - 5] == l.id;
    }
  }

  lemma LocateIsInjective(root: Path, l: Location, m: Location)
    requires Locate(root, l).Ok? && Locate(root, l) == Locate(root, m)
    ensures l == m
  {
    hide Locate, Below, LocationOf;
    LocateIs(root, l);
    LocateIs(root, m);
    assert (root + Below(l))[|root|..] == Below(l) && (root + Below(m))[|root|..] == Below(m);
    LocationOfBelow(l);
    LocationOfBelow(m);
  }

  /** No identifier leads out of the root: the resolved path is the resolved root and something below it. */
  lemma LocateStaysBelowRoot(root: Path, l: Location)
    requires Locate(root, l).Ok?
    ensures Resolve(root) < Resolve(Locate(root, l).value)
    ensures Resolve(Locate(root, l).value) == Resolve(root) + Below(l)
  {
    hide Resolve, Locate;
    LocateIs(root, l);
    NoneGoesUp(l);
    ResolveBelow(root, Below(l));
  }

  lemma NoneGoesUp(l: Location)
    requires Named(l)
    ensures forall k :: 0 <= k < |Below(l)| ==> Below(l)[k] != ".."
  {
    if l.Report? { assert |Below(l)[4]| > 2; }
  }

  // -- which identifiers are acceptable -------------------------------------

  /** The text names a child of every directory, and that child by exactly this name. */
  ghost predicate NamesChild(value: string) {
    forall base: Path :: Resolve(Join(base, value)) == Resolve(base) + [value]
  }

  /** The text as a file system with drive letters reads it: a backslash separates too, and so does a drive's colon. */
  function Slashed(value: string): string {
    seq(|value|, i requires 0 <= i < |value| => if value[i] in {'\\', ':'} then '/' else value[i])
  }

  lemma {:induction false} SegmentIsBelow(s: string, c: char)
    ensures forall p | p in Parts(s) :: '/' !in p && (c !in s ==> c !in p)
    decreases |s|
  {
    var n := SegmentLength(s);
    if n < |s| { SegmentIsBelow(s[n + 1..], c); }
  }

  lemma {:induction false} ResolvedParts(p: Path)
    ensures forall part | part in Resolve(p) :: part in p
  {
    if p != [] { ResolvedParts(p[..|p| - 1]); }
  }

  /** A name with a separator in it is no part of a path. */
  lemma SeparatorNamesNoChild(value: string)
    requires '/' in value
    ensures !NamesChild(value)
  {
    SegmentIsBelow(value, '/');
    assert [] + Parts(value) == Parts(value);
    ResolvedParts(Join([], value));
    assert value !in Resolve(Join([], value));
    assert value in Resolve([]) + [value];
  }

  lemma DotsNameNoChild(value: string)
    requires value in {"", ".", ".."}
    ensures !NamesChild(value)
  {
    assert Parts("") == [] && Parts(".") == [];
    if value == ".." {
      OneSegment("..");
      assert Join(["a"], "..") == ["a", ".."];
      ResolveOfDots();
    } else {
      assert Join([], value) == [] && Resolve([]) == [];
    }
    var base: Path := if value == ".." then ["a"] else [];
    assert Resolve(Join(base, value)) != Resolve(base) + [value];
  }

  lemma ResolveOfDots()
    ensures Resolve(["a", ".."]) == [] && Resolve(["a"]) == ["a"]
  {
    assert ["a", ".."][..1] == ["a"] && ["a"][..0] == [];
  }

  lemma PlainNamesChild(value: string)
    requires value !in {"", ".", ".."} && '/' !in value
    ensures NamesChild(value)
  {
    forall base: Path ensures Resolve(Join(base, value)) == Resolve(base) + [value] {
      JoinComponent(base, value);
      ResolveSnoc(base, value);
    }
  }

  /** An identifier is refused exactly if it holds a NUL or does not name a child of every directory, on a POSIX file
      system or on one with drive letters and backslashes. */
  lemma ComponentExactly(value: string)
    ensures IsComponent(value) <==> '\0' !in value && NamesChild(value) && NamesChild(Slashed(value))
  {
    hide NamesChild, Parts, Join, Resolve;
    var slashed := Slashed(value);
    assert IsComponent(value) ==> slashed == value;
    if value in {"", ".", ".."} {
      DotsNameNoChild(value);
    } else if '/' in value {
      SeparatorNamesNoChild(value);
    } else {
      PlainNamesChild(value);
      if '/' in slashed {
        SeparatorNamesNoChild(slashed);
        var k :| 0 <= k < |slashed| && slashed[k] == '/';
        assert Forbidden(value[k]);
      } else {
        assert forall k | 0 <= k < |value| :: slashed[k] == value[k];
        assert slashed == value;
        if '\0' in value { var k :| 0 <= k < |value| && value[k] == '\0'; assert Forbidden(value[k]); }
        assert forall k | 0 <= k < |value| && Forbidden(value[k]) :: value[k] == '\0';
      }
    }
  }
}
