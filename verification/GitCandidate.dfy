/** From Git's raw diff and status to the canonical candidate. */
module GitCandidate {
  import opened Wrappers
  import opened Ordering
  import opened Utf8
  import opened Candidate
  import opened GitOutput

  datatype File = File(content: bytes, executable: bool)

  /** What the adapter sees: the decoded output of `git status`, that of `git diff --raw` against a baseline, the
      regular files of the worktree, and the digest. */
  datatype Worktree = Worktree(
    status: string, diff: string -> string, files: map<string, File>, sha: bytes -> string)

  type Entries = map<string, Entry>

  // -- one file -------------------------------------------------------------

  const CHUNK := 65536

  /** `_hash_file`: reads chunk by chunk until a read returns nothing. */
  method HashFile(sha: bytes -> string, content: bytes) returns (r: string)
    ensures r == sha(content)
  {
    var fed: bytes, at := [], 0;
    while true
      invariant 0 <= at <= |content| && fed == content[..at]
      decreases |content| - at
    {
      var chunk := content[at..if at + CHUNK <= |content| then at + CHUNK else |content|];
      if chunk == [] { break; }
      fed, at := fed + chunk, at + |chunk|;
    }
    assert content[..at] == content;
    r := sha(fed);
  }

  function DigestOf(wt: Worktree, path: string): Result<string, GitFailure> {
    if path in wt.files then Ok(wt.sha(wt.files[path].content)) else Err(OSError)
  }

  /** `CandidateEntry(...)`: the validator runs. */
  function MakeEntry(e: Entry): Result<Entry, GitFailure> {
    if ValidEntry(e) then Ok(e) else Err(ValidationError)
  }

  function InferredMode(wt: Worktree, path: string): string {
    if path in wt.files && wt.files[path].executable then "100755" else "100644"
  }

  function UntrackedEntry(wt: Worktree, path: string): Result<Entry, GitFailure> {
    match DigestOf(wt, path)
    case Err(e) => Err(e)
    case Ok(digest) => MakeEntry(Entry(path, Added, Some(InferredMode(wt, path)), Some(digest)))
  }

  /** The entry of an untracked file, told from the file. */
  ghost predicate IsUntracked(wt: Worktree, e: Entry) {
    && e.path != "" && e.path in wt.files && e.kind == Added
    && e.mode == Some(if wt.files[e.path].executable then "100755" else "100644")
    && e.content == Some(wt.sha(wt.files[e.path].content))
  }

  /** An untracked file becomes an added entry with the mode its executable bit gives and the digest of its content;
      only a file that is not there fails, and an empty path. */
  lemma UntrackedExactly(wt: Worktree, path: string)
    ensures UntrackedEntry(wt, path).Ok? <==> path != "" && path in wt.files
    ensures forall e :: UntrackedEntry(wt, path) == Ok(e) <==> e.path == path && IsUntracked(wt, e)
  {
  }

  /** The entry of one raw-diff record: its columns and its path. */
  function TrackedEntry(wt: Worktree, meta: string, path: string): Result<Entry, GitFailure> {
    var fields := Split(meta, ' ', -1);
    if |fields| < 5 || fields[4] == "" then Err(IndexError)
    else if fields[4][0] == 'D' then MakeEntry(Entry(path, Deleted, None, None))
    else match DigestOf(wt, path)
      case Err(e) => Err(e)
      case Ok(digest) =>
        MakeEntry(Entry(path, if fields[4][0] == 'A' then Added else Modified, Some(fields[1]), Some(digest)))
  }

  // -- the raw diff ---------------------------------------------------------

  /** The entries of a token list, in order: a record is its columns and then its path. */
  function ReadTokens(wt: Worktree, tokens: seq<string>): Result<seq<Entry>, GitFailure> {
    if tokens == [] then Ok([])
    else if tokens[0] == "" then ReadTokens(wt, tokens[1..])
    else if |tokens| < 2 then Err(IndexError)
    else match TrackedEntry(wt, tokens[0], tokens[1])
      case Err(e) => Err(e)
      case Ok(entry) =>
        match ReadTokens(wt, tokens[2..])
        case Err(e) => Err(e)
        case Ok(rest) => Ok([entry] + rest)
  }

  /** Entries filed under their paths, later ones replacing earlier ones. */
  function Filed(m: Entries, entries: seq<Entry>): Entries
    decreases |entries|
  {
    if entries == [] then m else Filed(m[entries[0].path := entries[0]], entries[1..])
  }

  function FiledResult(m: Entries, r: Result<seq<Entry>, GitFailure>): Result<Entries, GitFailure> {
    match r case Err(e) => Err(e) case Ok(entries) => Ok(Filed(m, entries))
  }

  function TrackedOf(wt: Worktree, baseline: string): Result<Entries, GitFailure> {
    FiledResult(map[], ReadTokens(wt, Split(wt.diff(baseline), '\0', -1)))
  }

  /** `_tracked_entries`. */
  method TrackedEntries(wt: Worktree, baseline: string) returns (r: Result<Entries, GitFailure>)
    ensures r == TrackedOf(wt, baseline)
  {
    hide Split, Filed;
    var tokens := Split(wt.diff(baseline), '\0', -1);
    var entries: Entries := map[];
    var index := 0;
    while index < |tokens|
      invariant index <= |tokens|
      invariant TrackedOf(wt, baseline) == FiledResult(entries, ReadTokens(wt, tokens[index..]))
      decreases |tokens| - index
    {
      var meta := tokens[index];
      index := index + 1;
      if meta == "" { continue; }
      var fields := Split(meta, ' ', -1);
      if |fields| < 5 || fields[4] == "" {
        return Err(IndexError);
      }
      var newMode, letter := fields[1], fields[4][0];
      if index >= |tokens| { return Err(IndexError); }
      var path := tokens[index];
      index := index + 1;
      FileOne(entries, wt, tokens, index - 2);
      if letter == 'D' {
        if path == "" { return Err(ValidationError); }
        entries := entries[path := Entry(path, Deleted, None, None)];
      } else {
        var kind := if letter == 'A' then Added else Modified;
        if path !in wt.files { return Err(OSError); }
        var digest := HashFile(wt.sha, wt.files[path].content);
        if path == "" { return Err(ValidationError); }
        entries := entries[path := Entry(path, kind, Some(newMode), Some(digest))];
      }
    }
    FiledNothing(entries);
    r := Ok(entries);
  }

  lemma FiledNothing(m: Entries)
    ensures Filed(m, []) == m
  {
  }

  lemma FileOne(m: Entries, wt: Worktree, tokens: seq<string>, i: nat)
    requires i + 1 < |tokens| && tokens[i] != ""
    ensures FiledResult(m, ReadTokens(wt, tokens[i..])) ==
      match TrackedEntry(wt, tokens[i], tokens[i + 1])
      case Err(e) => Err(e)
      case Ok(entry) => FiledResult(m[entry.path := entry], ReadTokens(wt, tokens[i + 2..]))
  {
    hide TrackedEntry;
    var rest := tokens[i..];
    assert rest[0] == tokens[i] && rest[1] == tokens[i + 1] && rest[2..] == tokens[i + 2..];
    if TrackedEntry(wt, tokens[i], tokens[i + 1]).Ok? && ReadTokens(wt, rest[2..]).Ok? {
      var entry, more := TrackedEntry(wt, tokens[i], tokens[i + 1]).value, ReadTokens(wt, rest[2..]).value;
      assert ([entry] + more)[0] == entry && ([entry] + more)[1..] == more;
    }
  }

  // -- what Git prints ------------------------------------------------------

  /** A record of `git diff --raw --no-renames`: mode and object of each side, a status letter, a path. */
  datatype DiffRecord = DiffRecord(
    oldMode: string, newMode: string, oldSha: string, newSha: string, letter: char, path: string)
  {
    predicate WellFormed() {
      && Word(oldMode) && Word(newMode) && Word(oldSha) && Word(newSha) && Word([letter])
      && path != "" && '\0' !in path
    }

    function Meta(): string { Columned([[':'] + oldMode, newMode, oldSha, newSha], [letter]) }

    /** The candidate entry it stands for: a deletion has no mode and no content. */
    function Entry(wt: Worktree): Entry
      requires letter != 'D' ==> path in wt.files
    {
      if letter == 'D' then Candidate.Entry(path, Deleted, None, None)
      else Candidate.Entry(path, if letter == 'A' then Added else Modified, Some(newMode),
                           Some(wt.sha(wt.files[path].content)))
    }
  }

  function Tokens(records: seq<DiffRecord>): seq<string> {
    if records == [] then [] else [records[0].Meta(), records[0].path] + Tokens(records[1..])
  }

  /** The whole output of `git diff --raw -z`. */
  function RawDiff(records: seq<DiffRecord>): string { Terminated(Tokens(records)) }

  /** Git names files that are there, except those it calls deleted. */
  ghost predicate Printable(wt: Worktree, records: seq<DiffRecord>) {
    forall d | d in records :: d.WellFormed() && (d.letter != 'D' ==> d.path in wt.files)
  }

  ghost function EntriesFor(wt: Worktree, records: seq<DiffRecord>): seq<Entry>
    requires Printable(wt, records)
  {
    seq(|records|, i requires 0 <= i < |records| => records[i].Entry(wt))
  }

  lemma MetaParts(d: DiffRecord)
    requires d.WellFormed()
    ensures Split(d.Meta(), ' ', -1) == [[':'] + d.oldMode, d.newMode, d.oldSha, d.newSha, [d.letter]]
    ensures d.Meta() != "" && '\0' !in d.Meta()
  {
    hide Split;
    var columns := [[':'] + d.oldMode, d.newMode, d.oldSha, d.newSha];
    ColumnedNulFree(columns, [d.letter]);
    SplitAllColumns(columns, [d.letter]);
  }

  lemma {:induction false} SplitAllColumns(columns: seq<string>, last: string)
    requires AllWords(columns) && Word(last)
    ensures Split(Columned(columns, last), ' ', -1) == columns + [last]
  {
    hide Split;
    if columns == [] {
      SplitWhole(last, ' ', -1);
    } else {
      assert Word(columns[0]);
      SplitFirst(columns[0], ' ', Columned(columns[1..], last), -1);
      SplitAllColumns(columns[1..], last);
      assert columns == [columns[0]] + columns[1..];
    }
  }

  lemma RecordIsRead(wt: Worktree, d: DiffRecord)
    requires d.WellFormed() && (d.letter != 'D' ==> d.path in wt.files)
    ensures TrackedEntry(wt, d.Meta(), d.path) == Ok(d.Entry(wt))
  {
    hide Split, Columned;
    MetaParts(d);
  }

  lemma {:induction false} TokensAreRead(wt: Worktree, records: seq<DiffRecord>)
    requires Printable(wt, records)
    ensures ReadTokens(wt, Tokens(records) + [""]) == Ok(EntriesFor(wt, records))
  {
    hide TrackedEntry, DiffRecord.Meta, DiffRecord.Entry;
    if records == [] {
      assert [""][1..] == [];
    } else {
      var d, rest := records[0], records[1..];
      TokensAreRead(wt, rest);
      MetaParts(d);
      RecordIsRead(wt, d);
      assert Tokens(records) + [""] == [d.Meta(), d.path] + (Tokens(rest) + [""]);
      OneMoreIsRead(wt, d.Meta(), d.path, Tokens(rest) + [""], d.Entry(wt));
      hide ReadTokens;
      assert EntriesFor(wt, records) == [d.Entry(wt)] + EntriesFor(wt, rest);
    }
  }

  lemma OneMoreIsRead(wt: Worktree, meta: string, path: string, tokens: seq<string>, entry: Entry)
    requires meta != "" && TrackedEntry(wt, meta, path) == Ok(entry) && ReadTokens(wt, tokens).Ok?
    ensures ReadTokens(wt, [meta, path] + tokens) == Ok([entry] + ReadTokens(wt, tokens).value)
  {
    hide TrackedEntry;
    assert ([meta, path] + tokens)[2..] == tokens;
  }

  lemma {:induction false} TokensAreFree(wt: Worktree, records: seq<DiffRecord>)
    requires Printable(wt, records)
    ensures |Tokens(records)| == 2 * |records| && forall t | t in Tokens(records) :: '\0' !in t
  {
    if records != [] {
      TokensAreFree(wt, records[1..]);
      MetaParts(records[0]);
    }
  }

  /** The token loop inverts the printer: it takes two tokens a record and files the entry of each record. */
  lemma DiffRoundTrip(wt: Worktree, baseline: string, records: seq<DiffRecord>)
    requires Printable(wt, records) && wt.diff(baseline) == RawDiff(records)
    ensures TrackedOf(wt, baseline) == Ok(Filed(map[], EntriesFor(wt, records)))
  {
    hide Split, ReadTokens, Terminated;
    TokensAreRead(wt, records);
    TokensAreFree(wt, records);
    SplitTerminated(Tokens(records));
  }

  lemma {:induction false} FiledKeys(m: Entries, entries: seq<Entry>, p: string)
    ensures p in Filed(m, entries) <==> p in m || exists k :: 0 <= k < |entries| && entries[k].path == p
    decreases |entries|
  {
    if entries != [] {
      var rest := entries[1..];
      FiledKeys(m[entries[0].path := entries[0]], rest, p);
      if k :| 0 <= k < |rest| && rest[k].path == p { assert entries[k + 1].path == p; }
      if k :| 0 < k < |entries| && entries[k].path == p { assert rest[k - 1].path == p; }
    }
  }

  lemma {:induction false} OthersStay(m: Entries, entries: seq<Entry>, p: string)
    requires p in m && forall k | 0 <= k < |entries| :: entries[k].path != p
    ensures p in Filed(m, entries) && Filed(m, entries)[p] == m[p]
    decreases |entries|
  {
    if entries != [] { OthersStay(m[entries[0].path := entries[0]], entries[1..], p); }
  }

  /** Filing keeps for each path the last entry of that path. */
  lemma LastRecordWins(m: Entries, entries: seq<Entry>, p: string)
    ensures p in Filed(m, entries) <==> p in m || exists k :: 0 <= k < |entries| && entries[k].path == p
    ensures p in m && (forall k | 0 <= k < |entries| :: entries[k].path != p) ==> Filed(m, entries)[p] == m[p]
    ensures forall k | 0 <= k < |entries| && entries[k].path == p ::
      (forall j | k < j < |entries| :: entries[j].path != p) ==>
        p in Filed(m, entries) && Filed(m, entries)[p] == entries[k]
  {
    hide Filed;
    FiledKeys(m, entries, p);
    if p in m && forall k | 0 <= k < |entries| :: entries[k].path != p { OthersStay(m, entries, p); }
    forall k | 0 <= k < |entries| && entries[k].path == p && forall j | k < j < |entries| :: entries[j].path != p
      ensures p in Filed(m, entries) && Filed(m, entries)[p] == entries[k]
    {
      LastOneWins(m, entries, k);
    }
  }

  lemma {:induction false} LastOneWins(m: Entries, entries: seq<Entry>, k: nat)
    requires k < |entries| && forall j | k < j < |entries| :: entries[j].path != entries[k].path
    ensures entries[k].path in Filed(m, entries) && Filed(m, entries)[entries[k].path] == entries[k]
    decreases |entries|
  {
    var e, rest := entries[0], entries[1..];
    if k > 0 { LastOneWins(m[e.path := e], rest, k - 1); } else { OthersStay(m[e.path := e], rest, e.path); }
  }

  // -- the candidate --------------------------------------------------------

  /** What the adapter can turn into a candidate. */
  ghost predicate Readable(wt: Worktree, baseline: string) {
    && baseline != ""
    && StatusOf(wt.status).Ok?
    && (forall p | p in StatusOf(wt.status).value.untracked :: p != "" && p in wt.files)
    && TrackedOf(wt, baseline).Ok?
  }

  /** The entry that belongs to a path: the tracked one if there is one. */
  ghost predicate Belongs(wt: Worktree, tracked: Entries, e: Entry) {
    if e.path in tracked then tracked[e.path] == e else IsUntracked(wt, e)
  }

  /** The canonical form: the tracked and the untracked paths, each once, ascending, with tracked precedence. */
  ghost predicate IsCandidate(wt: Worktree, baseline: string, s: Snapshot) {
    && Readable(wt, baseline)
    && s.baseline == baseline
    && Ascending(PathsOf(s.entries))
    && Elements(PathsOf(s.entries)) ==
         Elements(StatusOf(wt.status).value.untracked) + TrackedOf(wt, baseline).value.Keys
    && (forall e | e in s.entries :: Belongs(wt, TrackedOf(wt, baseline).value, e))
  }

  /** `candidate_snapshot`: fails only where Git's output cannot be read or a file is missing, and otherwise gives
      the canonical form, which the snapshot validator then accepts. */
  method CandidateSnapshot(wt: Worktree, baseline: string) returns (r: Result<Snapshot, GitFailure>)
    ensures r.Ok? <==> Readable(wt, baseline)
    ensures r.Ok? ==> IsCandidate(wt, baseline, r.value) && ValidSnapshot(r.value)
    ensures r.Ok? ==> ByCodePoints(PathsOf(r.value.entries))
  {
    hide StatusOf, TrackedOf, UntrackedEntry, Ascending, Belongs, ValidSnapshot, SortedKeys, ValidEntry, PathsOf,
      Elements, IsCandidate, UnderOwnPaths, ByCodePoints, IsUntracked, Readable;
    var status := ReadStatus(wt.status);
    if status.Err? {
      ReadableStatus(wt, baseline);
      return Err(status.error);
    }
    var untracked := status.value.untracked;
    var entries: Entries := map[];
    NoElements([]);
    for i := 0 to |untracked|
      invariant entries.Keys == Elements(untracked[..i])
      invariant forall p | p in entries :: UntrackedEntry(wt, p) == Ok(entries[p])
    {
      var path := untracked[i];
      OneMorePath(untracked, i);
      assert path in untracked;
      var entry := UntrackedEntry(wt, path);
      if entry.Err? {
        UnreadableFile(wt, baseline, path);
        return Err(entry.error);
      }
      entries := entries[path := entry.value];
    }
    assert untracked[..|untracked|] == untracked;
    var tracked := TrackedEntries(wt, baseline);
    UntrackedAllRead(wt, untracked, entries);
    ReadableStatus(wt, baseline);
    if tracked.Err? { return Err(tracked.error); }
    FiledUnderPaths(wt, baseline);
    UntrackedUnderPaths(wt, entries);
    ghost var before := entries;
    entries := entries + tracked.value;
    MergedUnderPaths(before, tracked.value);
    var keys := SortedKeys(entries.Keys);
    KeysAreThere(keys);
    var ordered := seq(|keys|, i requires 0 <= i < |keys| => entries[keys[i]]);
    OrderedIsValid(entries, keys, ordered);
    var s := Snapshot(baseline, ordered);
    if !ValidSnapshot(s) { return Err(ValidationError); }
    r := Ok(s);
    MergedBelong(wt, before, tracked.value, keys, ordered);
    AssembleCandidate(wt, baseline, s);
    AscendingExactly(PathsOf(ordered));
  }

  lemma ReadableStatus(wt: Worktree, baseline: string)
    ensures StatusOf(wt.status).Err? ==> !Readable(wt, baseline)
    ensures StatusOf(wt.status).Ok? && (forall p | p in StatusOf(wt.status).value.untracked :: p != "" && p in wt.files)
      ==> (Readable(wt, baseline) <==> baseline != "" && TrackedOf(wt, baseline).Ok?)
  {
    hide StatusOf, TrackedOf;
  }

  lemma UnreadableFile(wt: Worktree, baseline: string, path: string)
    requires StatusOf(wt.status).Ok? && path in StatusOf(wt.status).value.untracked && UntrackedEntry(wt, path).Err?
    ensures !Readable(wt, baseline)
  {
    hide StatusOf, TrackedOf, UntrackedEntry;
    UntrackedExactly(wt, path);
  }

  lemma AssembleCandidate(wt: Worktree, baseline: string, s: Snapshot)
    requires Readable(wt, baseline) && s.baseline == baseline && Ascending(PathsOf(s.entries))
    requires Elements(PathsOf(s.entries)) ==
      Elements(StatusOf(wt.status).value.untracked) + TrackedOf(wt, baseline).value.Keys
    requires forall e | e in s.entries :: Belongs(wt, TrackedOf(wt, baseline).value, e)
    ensures IsCandidate(wt, baseline, s)
  {
  }

  lemma UntrackedAllRead(wt: Worktree, paths: seq<string>, entries: Entries)
    requires entries.Keys == Elements(paths) && forall p | p in entries :: UntrackedEntry(wt, p) == Ok(entries[p])
    ensures forall p | p in paths :: p != "" && p in wt.files
  {
    hide UntrackedEntry;
    forall p | p in paths ensures p != "" && p in wt.files {
      assert p in Elements(paths);
      UntrackedExactly(wt, p);
    }
  }

  lemma MergedUnderPaths(m: Entries, n: Entries)
    requires UnderOwnPaths(m) && UnderOwnPaths(n)
    ensures UnderOwnPaths(m + n)
  {
  }

  lemma KeysAreThere(keys: seq<string>)
    ensures forall i | 0 <= i < |keys| :: keys[i] in Elements(keys)
  {
  }

  lemma OneMorePath(paths: seq<string>, i: nat)
    requires i < |paths|
    ensures Elements(paths[..i + 1]) == Elements(paths[..i]) + {paths[i]}
  {
  }

  lemma UntrackedUnderPaths(wt: Worktree, entries: Entries)
    requires forall p | p in entries :: UntrackedEntry(wt, p) == Ok(entries[p])
    ensures UnderOwnPaths(entries)
  {
    hide UntrackedEntry;
    forall p | p in entries ensures entries[p].path == p && ValidEntry(entries[p]) { UntrackedIsValid(wt, p); }
  }

  /** The entries of a dict taken in the order of its sorted keys pass the snapshot validator. */
  lemma OrderedIsValid(entries: Entries, keys: seq<string>, ordered: seq<Entry>)
    requires UnderOwnPaths(entries) && keys == SortedKeys(entries.Keys) && |ordered| == |keys|
    requires forall i | 0 <= i < |keys| :: keys[i] in entries && ordered[i] == entries[keys[i]]
    ensures PathsOf(ordered) == keys && Ascending(keys)
    ensures forall baseline :: ValidSnapshot(Snapshot(baseline, ordered)) <==> baseline != ""
  {
    hide SortedKeys, Sorted, ValidEntry, Ascending;
    assert PathsOf(ordered) == keys;
    SortedKeysAscend(entries.Keys);
    ValidatorAcceptsExactly(keys);
  }

  lemma MergedBelong(wt: Worktree, untracked: Entries, tracked: Entries, keys: seq<string>, ordered: seq<Entry>)
    requires forall p | p in untracked :: UntrackedEntry(wt, p) == Ok(untracked[p])
    requires UnderOwnPaths(untracked) && UnderOwnPaths(tracked) && |ordered| == |keys|
    requires forall i | 0 <= i < |keys| ::
      keys[i] in untracked.Keys + tracked.Keys && ordered[i] == (untracked + tracked)[keys[i]]
    ensures forall e | e in ordered :: Belongs(wt, tracked, e)
  {
    hide UntrackedEntry, ValidEntry;
    forall e | e in ordered ensures Belongs(wt, tracked, e) {
      var i :| 0 <= i < |ordered| && ordered[i] == e;
      assert e.path == keys[i];
      UntrackedExactly(wt, e.path);
    }
  }

  /** Valid entries, each under its own path. */
  ghost predicate UnderOwnPaths(m: Entries) {
    forall p | p in m :: m[p].path == p && ValidEntry(m[p])
  }

  lemma UntrackedIsValid(wt: Worktree, p: string)
    ensures UntrackedEntry(wt, p).Ok? ==>
      UntrackedEntry(wt, p).value.path == p && ValidEntry(UntrackedEntry(wt, p).value)
  {
  }

  lemma FiledUnderPaths(wt: Worktree, baseline: string)
    requires TrackedOf(wt, baseline).Ok?
    ensures UnderOwnPaths(TrackedOf(wt, baseline).value)
  {
    hide Split, ReadTokens, Filed;
    var tokens := Split(wt.diff(baseline), '\0', -1);
    ReadAreValid(wt, tokens);
    FiledKeeps(map[], ReadTokens(wt, tokens).value);
  }

  lemma {:induction false} ReadAreValid(wt: Worktree, tokens: seq<string>)
    requires ReadTokens(wt, tokens).Ok?
    ensures forall e | e in ReadTokens(wt, tokens).value :: ValidEntry(e)
  {
    hide Split;
    if tokens == [] {
    } else if tokens[0] == "" {
      ReadAreValid(wt, tokens[1..]);
    } else {
      ReadAreValid(wt, tokens[2..]);
    }
  }

  lemma {:induction false} FiledKeeps(m: Entries, entries: seq<Entry>)
    requires UnderOwnPaths(m) && forall e | e in entries :: ValidEntry(e)
    ensures UnderOwnPaths(Filed(m, entries))
    decreases |entries|
  {
    if entries != [] { FiledKeeps(m[entries[0].path := entries[0]], entries[1..]); }
  }

  /** The entry of an untracked file tells whether it is executable and what its digest is. */
  lemma EntryTellsTheFile(wt: Worktree, wt': Worktree, p: string, q: string)
    requires UntrackedEntry(wt, p).Ok? && UntrackedEntry(wt, p) == UntrackedEntry(wt', q)
    ensures p == q && p in wt.files && p in wt'.files
    ensures wt.files[p].executable == wt'.files[p].executable
    ensures wt.sha(wt.files[p].content) == wt'.sha(wt'.files[p].content)
  {
    assert InferredMode(wt, p)[3] == if wt.files[p].executable then '7' else '6';
    assert InferredMode(wt', q)[3] == if wt'.files[q].executable then '7' else '6';
  }

  // -- one candidate per worktree -------------------------------------------

  /** The canonical form is unique: it depends on the set of untracked paths, on the tracked entries and on the
      files, and on nothing else. */
  lemma CandidateIsUnique(wt: Worktree, wt': Worktree, baseline: string, s: Snapshot, s': Snapshot)
    requires IsCandidate(wt, baseline, s) && IsCandidate(wt', baseline, s')
    requires wt.files == wt'.files && wt.sha == wt'.sha
    requires Elements(StatusOf(wt.status).value.untracked) == Elements(StatusOf(wt'.status).value.untracked)
    requires TrackedOf(wt, baseline) == TrackedOf(wt', baseline)
    ensures s == s'
  {
    hide StatusOf, TrackedOf, Ascending;
    AscendingIsUnique(PathsOf(s.entries), PathsOf(s'.entries));
    assert |s.entries| == |PathsOf(s.entries)| == |s'.entries|;
    forall i | 0 <= i < |s.entries| ensures s.entries[i] == s'.entries[i] {
      assert PathsOf(s.entries)[i] == s.entries[i].path && PathsOf(s'.entries)[i] == s'.entries[i].path;
      assert s.entries[i] in s.entries && s'.entries[i] in s'.entries;
    }
  }

  ghost predicate DistinctPaths(records: seq<DiffRecord>) {
    forall i, j :: 0 <= i < j < |records| ==> records[i].path != records[j].path
  }

  ghost predicate Names(records: seq<DiffRecord>, p: string) {
    exists d :: d in records && d.path == p
  }

  /** With one record a path, the tracked entries are those of the records, in whatever order they come. */
  lemma FiledExactly(wt: Worktree, records: seq<DiffRecord>)
    requires Printable(wt, records) && DistinctPaths(records)
    ensures var m := Filed(map[], EntriesFor(wt, records));
      && (forall p :: p in m <==> Names(records, p))
      && (forall d | d in records :: d.path in m && m[d.path] == d.Entry(wt))
  {
    hide Filed, DistinctPaths, Names, EntriesFor;
    var m := Filed(map[], EntriesFor(wt, records));
    forall p ensures p in m <==> Names(records, p) { FiledNames(wt, records, p); }
    forall d | d in records ensures d.path in m && m[d.path] == d.Entry(wt) {
      var k :| 0 <= k < |records| && records[k] == d;
      FiledUnder(wt, records, k);
    }
  }

  lemma FiledNames(wt: Worktree, records: seq<DiffRecord>, p: string)
    requires Printable(wt, records)
    ensures p in Filed(map[], EntriesFor(wt, records)) <==> Names(records, p)
  {
    hide Filed;
    var entries := EntriesFor(wt, records);
    LastRecordWins(map[], entries, p);
    if p in Filed(map[], entries) {
      var k :| 0 <= k < |entries| && entries[k].path == p;
      assert records[k] in records && records[k].path == p;
    }
    if Names(records, p) {
      var d :| d in records && d.path == p;
      var k :| 0 <= k < |records| && records[k] == d;
      assert entries[k].path == p;
    }
  }

  lemma FiledUnder(wt: Worktree, records: seq<DiffRecord>, k: nat)
    requires Printable(wt, records) && DistinctPaths(records) && k < |records|
    ensures var m := Filed(map[], EntriesFor(wt, records));
      records[k].path in m && m[records[k].path] == records[k].Entry(wt)
  {
    hide Filed;
    var entries := EntriesFor(wt, records);
    LastRecordWins(map[], entries, records[k].path);
    assert entries[k].path == records[k].path;
  }

  lemma SameRecordsSameFiling(wt: Worktree, records: seq<DiffRecord>, records': seq<DiffRecord>)
    requires Printable(wt, records) && DistinctPaths(records) && DistinctPaths(records')
    requires multiset(records) == multiset(records')
    ensures Printable(wt, records')
    ensures Filed(map[], EntriesFor(wt, records)) == Filed(map[], EntriesFor(wt, records'))
  {
    hide Filed, EntriesFor;
    forall d ensures d in records <==> d in records' {
      assert d in records <==> d in multiset(records);
    }
    FiledExactly(wt, records);
    FiledExactly(wt, records');
    var m, m' := Filed(map[], EntriesFor(wt, records)), Filed(map[], EntriesFor(wt, records'));
    forall p | p in m ensures p in m' && m[p] == m'[p] {
      assert Names(records, p);
      var d :| d in records && d.path == p;
      assert d in records';
    }
    forall p | p in m' ensures p in m {
      assert Names(records', p);
      var d :| d in records' && d.path == p;
      assert d in records;
    }
    assert m.Keys == m'.Keys;
  }

  lemma UntrackedListed(records: seq<StatusRecord>, p: string)
    ensures p in Listed(records).untracked <==> Untracked(p) in records
  {
    hide Present, AfterLast;
    var n := |records|;
    var values := seq(n, i requires 0 <= i < n => records[i].UntrackedPath());
    PresentExactly(values, p);
    if Some(p) in values {
      var i :| 0 <= i < n && values[i] == Some(p);
      assert records[i] == Untracked(p);
    }
    if Untracked(p) in records {
      var i :| 0 <= i < n && records[i] == Untracked(p);
      assert values[i] == Some(p);
    }
  }

  /** Whatever order Git lists its records in, the candidate is the same, and so is its identity. */
  lemma OrderDoesNotMatter(
      wt: Worktree, wt': Worktree, baseline: string, s: Snapshot, s': Snapshot,
      records: seq<StatusRecord>, records': seq<StatusRecord>, diffs: seq<DiffRecord>, diffs': seq<DiffRecord>)
    requires wt.files == wt'.files && wt.sha == wt'.sha
    requires wt.status == Porcelain(records) && wt'.status == Porcelain(records') && AllWellFormed(records)
    requires wt.diff(baseline) == RawDiff(diffs) && wt'.diff(baseline) == RawDiff(diffs') && Printable(wt, diffs)
    requires multiset(records) == multiset(records')
    requires multiset(diffs) == multiset(diffs') && DistinctPaths(diffs) && DistinctPaths(diffs')
    requires IsCandidate(wt, baseline, s) && IsCandidate(wt', baseline, s')
    ensures s == s' && IdentityOf(wt.sha, s) == IdentityOf(wt'.sha, s')
  {
    hide StatusOf, TrackedOf, IsCandidate, Listed, Porcelain, RawDiff, Filed, EntriesFor, DistinctPaths;
    forall r ensures r in records <==> r in records' { assert r in records <==> r in multiset(records); }
    StatusRoundTrip(records);
    StatusRoundTrip(records');
    forall p ensures p in Listed(records).untracked <==> p in Listed(records').untracked {
      UntrackedListed(records, p);
      UntrackedListed(records', p);
    }
    assert Elements(Listed(records).untracked) == Elements(Listed(records').untracked);
    SameRecordsSameFiling(wt, diffs, diffs');
    DiffRoundTrip(wt, baseline, diffs);
    PrintableAlike(wt, wt', diffs');
    DiffRoundTrip(wt', baseline, diffs');
    CandidateIsUnique(wt, wt', baseline, s, s');
  }

  lemma PrintableAlike(wt: Worktree, wt': Worktree, records: seq<DiffRecord>)
    requires wt.files == wt'.files && wt.sha == wt'.sha && Printable(wt, records)
    ensures Printable(wt', records) && EntriesFor(wt, records) == EntriesFor(wt', records)
  {
  }

  /** On what Git prints about files that are there, the adapter never fails. */
  lemma GitOutputIsReadable(wt: Worktree, baseline: string, records: seq<StatusRecord>, diffs: seq<DiffRecord>)
    requires baseline != ""
    requires wt.status == Porcelain(records) && AllWellFormed(records)
    requires forall p | Untracked(p) in records :: p != "" && p in wt.files
    requires wt.diff(baseline) == RawDiff(diffs) && Printable(wt, diffs)
    ensures Readable(wt, baseline)
  {
    hide StatusOf, TrackedOf, Listed, Porcelain, RawDiff, Filed, EntriesFor;
    StatusRoundTrip(records);
    DiffRoundTrip(wt, baseline, diffs);
    forall p | p in Listed(records).untracked ensures p != "" && p in wt.files { UntrackedListed(records, p); }
  }

  // -- identity, end to end -------------------------------------------------

  lemma {:induction false} SplitOmits(s: string, sep: char, max: int, c: char)
    requires c !in s || (c == sep && max < 0)
    ensures forall part | part in Split(s, sep, max) :: c !in part
  {
    if s != "" {
      if s[0] == sep && max != 0 {
        SplitOmits(s[1..], sep, if max > 0 then max - 1 else max, c);
      } else {
        SplitOmits(s[1..], sep, max, c);
        var rest := Split(s[1..], sep, max);
        assert rest[0] in rest;
        assert s[0] != c;
      }
    }
  }

  ghost predicate NulFreePaths(status: WorktreeStatus) {
    forall p | p in status.untracked :: NulFree(p)
  }

  lemma {:induction false} StatusPathsNulFree(records: seq<string>)
    requires ReadRecords(records).Ok? && forall t | t in records :: '\0' !in t
    ensures NulFreePaths(ReadRecords(records).value)
  {
    hide Split, AfterLast;
    if records != [] {
      StatusPathsNulFree(records[..|records| - 1]);
      var record := records[|records| - 1];
      assert record in records;
      SplitOmits(record, ' ', 1, '\0');
    }
  }

  lemma {:induction false} TokensFramed(wt: Worktree, tokens: seq<string>)
    requires ReadTokens(wt, tokens).Ok? && forall t | t in tokens :: '\0' !in t
    requires forall b :: NulFree(wt.sha(b))
    ensures forall e | e in ReadTokens(wt, tokens).value :: Framed(e)
  {
    hide Split;
    if tokens == [] {
    } else if tokens[0] == "" {
      TokensFramed(wt, tokens[1..]);
    } else {
      TokensFramed(wt, tokens[2..]);
      SplitOmits(tokens[0], ' ', -1, '\0');
      assert tokens[0] in tokens && tokens[1] in tokens;
    }
  }

  lemma {:induction false} FiledFramed(m: Entries, entries: seq<Entry>)
    requires (forall p | p in m :: Framed(m[p])) && (forall e | e in entries :: Framed(e))
    ensures forall p | p in Filed(m, entries) :: Framed(Filed(m, entries)[p])
    decreases |entries|
  {
    if entries != [] { FiledFramed(m[entries[0].path := entries[0]], entries[1..]); }
  }

  lemma TrackedFramed(wt: Worktree, baseline: string)
    requires TrackedOf(wt, baseline).Ok? && forall b :: NulFree(wt.sha(b))
    ensures forall p | p in TrackedOf(wt, baseline).value :: Framed(TrackedOf(wt, baseline).value[p])
  {
    hide Split, ReadTokens, Filed;
    var tokens := Split(wt.diff(baseline), '\0', -1);
    SplitOmits(wt.diff(baseline), '\0', -1, '\0');
    TokensFramed(wt, tokens);
    FiledFramed(map[], ReadTokens(wt, tokens).value);
  }

  lemma UntrackedFramed(wt: Worktree, e: Entry)
    requires IsUntracked(wt, e) && NulFree(e.path) && forall b :: NulFree(wt.sha(b))
    ensures Framed(e)
  {
  }

  /** No field of a candidate holds a NUL: its fields come from NUL-separated output, and digests are hexadecimal. */
  lemma CandidateIsFramed(wt: Worktree, baseline: string, s: Snapshot)
    requires IsCandidate(wt, baseline, s) && ValidSnapshot(s) && forall b :: NulFree(wt.sha(b))
    ensures AllFramed(s.entries)
  {
    hide Split, ReadRecords, TrackedOf, IsUntracked, Framed, Ascending, Sorted;
    TrackedFramed(wt, baseline);
    var records := Split(wt.status, '\0', -1);
    SplitOmits(wt.status, '\0', -1, '\0');
    StatusPathsNulFree(records);
    forall i | 0 <= i < |s.entries| ensures Framed(s.entries[i]) {
      var e := s.entries[i];
      assert e in s.entries && PathsOf(s.entries)[i] == e.path;
      assert e.path in Elements(PathsOf(s.entries));
      if e.path !in TrackedOf(wt, baseline).value { UntrackedFramed(wt, e); }
    }
  }

  /** Two worktrees whose candidates have one identity have the same baseline and the same entries, unless their
      byte streams collide under the hash. */
  lemma SameIdentitySameCandidate(
      wt: Worktree, wt': Worktree, baseline: string, baseline': string, s: Snapshot, s': Snapshot)
    requires wt.sha == wt'.sha && forall b :: NulFree(wt.sha(b))
    requires IsCandidate(wt, baseline, s) && ValidSnapshot(s)
    requires IsCandidate(wt', baseline', s') && ValidSnapshot(s')
    requires IdentityOf(wt.sha, s) == IdentityOf(wt.sha, s')
    ensures s == s' ||
      (Stream(s.entries) != Stream(s'.entries) && wt.sha(Stream(s.entries)) == wt.sha(Stream(s'.entries)))
  {
    hide IsCandidate, ValidSnapshot, Stream;
    CandidateIsFramed(wt, baseline, s);
    CandidateIsFramed(wt', baseline', s');
    IdentityIsTheCandidate(wt.sha, s, s');
  }
}
