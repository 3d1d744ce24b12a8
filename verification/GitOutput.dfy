/** Git's NUL-separated output: splitting it, and the two parsers that read it. */
module GitOutput {
  import opened Wrappers
  import opened Ordering

  // -- str.split ------------------------------------------------------------

  /** `s.split(sep, max)`; a negative `max` means no limit. */
  function Split(s: string, sep: char, max: int): (parts: seq<string>)
    ensures parts != []
  {
    if s == "" then [""]
    else if s[0] == sep && max != 0 then [""] + Split(s[1..], sep, if max > 0 then max - 1 else max)
    else
      var rest := Split(s[1..], sep, max);
      [[s[0]] + rest[0]] + rest[1..]
  }

  /** `s.rsplit(sep, 1)[-1]`. */
  function AfterLast(s: string, sep: char): string {
    if s == "" then ""
    else if sep in s[1..] then AfterLast(s[1..], sep)
    else if s[0] == sep then s[1..]
    else s
  }

  /** The parts with the separator between them. */
  ghost function Joined(parts: seq<string>, sep: char): string
    requires parts != []
  {
    if |parts| == 1 then parts[0] else parts[0] + [sep] + Joined(parts[1..], sep)
  }

  /** What `str.split` promises: the parts and the separators between them are the text; no part holds a separator,
      except the last once the limit is reached. */
  ghost predicate AreSplit(s: string, sep: char, max: int, parts: seq<string>) {
    && parts != [] && Joined(parts, sep) == s
    && (forall k | 0 <= k < |parts| - 1 :: sep !in parts[k])
    && (max >= 0 ==> |parts| <= max + 1)
    && (sep in parts[|parts| - 1] ==> max >= 0 && |parts| == max + 1)
  }

  /** There is exactly one way to do that. */
  lemma SplitExactly(s: string, sep: char, max: int, parts: seq<string>)
    ensures AreSplit(s, sep, max, parts) <==> parts == Split(s, sep, max)
  {
    SplitIsSplit(s, sep, max);
    if AreSplit(s, sep, max, parts) { SplitIsUnique(s, sep, max, parts); }
  }

  lemma {:induction false} SplitIsSplit(s: string, sep: char, max: int)
    ensures AreSplit(s, sep, max, Split(s, sep, max))
  {
    hide AreSplit;
    if s == "" {
      SplitNone(sep, max);
    } else {
      assert s == [s[0]] + s[1..];
      var less := if s[0] == sep && max > 0 then max - 1 else max;
      SplitIsSplit(s[1..], sep, less);
      if s[0] == sep && max != 0 {
        SplitThere(s[1..], sep, max, Split(s[1..], sep, less));
      } else {
        SplitLater(s[0], s[1..], sep, max, Split(s[1..], sep, max));
      }
    }
  }

  lemma SplitNone(sep: char, max: int)
    ensures AreSplit("", sep, max, [""])
  {
  }

  lemma SplitThere(s: string, sep: char, max: int, rest: seq<string>)
    requires max != 0 && AreSplit(s, sep, if max > 0 then max - 1 else max, rest)
    ensures AreSplit([sep] + s, sep, max, [""] + rest)
  {
    var parts := [""] + rest;
    assert parts[1..] == rest && Joined(parts, sep) == "" + [sep] + Joined(rest, sep);
  }

  lemma SplitLater(c: char, s: string, sep: char, max: int, rest: seq<string>)
    requires AreSplit(s, sep, max, rest) && (c == sep ==> max == 0)
    ensures AreSplit([c] + s, sep, max, [[c] + rest[0]] + rest[1..])
  {
    hide Joined;
    JoinedFirst(c, rest, sep);
  }

  lemma JoinedFirst(c: char, parts: seq<string>, sep: char)
    requires parts != []
    ensures Joined([[c] + parts[0]] + parts[1..], sep) == [c] + Joined(parts, sep)
  {
    var longer := [[c] + parts[0]] + parts[1..];
    assert longer[1..] == parts[1..];
  }

  lemma {:induction false} SplitIsUnique(s: string, sep: char, max: int, parts: seq<string>)
    requires AreSplit(s, sep, max, parts)
    ensures parts == Split(s, sep, max)
    decreases |s|
  {
    var first := parts[0];
    if s == "" {
      assert |parts| == 1;
    } else if first == "" {
      if |parts| > 1 {
        var rest := parts[1..];
        assert s == [sep] + Joined(rest, sep) && s[0] == sep && s[1..] == Joined(rest, sep);
        assert max != 0;
        SplitIsUnique(s[1..], sep, if max > 0 then max - 1 else max, rest);
        assert parts == [""] + rest;
      }
    } else {
      var rest := [first[1..]] + parts[1..];
      assert first == [first[0]] + first[1..];
      assert s == [first[0]] + Joined(rest, sep) && s[0] == first[0] && s[1..] == Joined(rest, sep);
      assert |parts| > 1 ==> sep !in first;
      SplitIsUnique(s[1..], sep, max, rest);
      assert parts == [[s[0]] + rest[0]] + rest[1..];
    }
  }

  /** The text after the last separator: the end of the text that holds none and starts the text or follows one. */
  lemma {:induction false} AfterLastExactly(s: string, sep: char, t: string)
    ensures AfterLast(s, sep) == t
      <==> sep !in t && |t| <= |s| && s[|s| - |t|..] == t && (|t| < |s| ==> s[|s| - |t| - 1] == sep)
  {
    if s != "" {
      var rest := s[1..];
      AfterLastExactly(rest, sep, t);
      assert s == [s[0]] + rest;
      if |t| <= |rest| { assert s[|s| - |t|..] == rest[|rest| - |t|..]; }
      if |t| == |s| { assert s[0..] == s; }
      if |t| < |rest| { assert s[|s| - |t| - 1] == rest[|rest| - |t| - 1] && s[|s| - |t| - 1] in rest; }
    }
  }

  // -- git status -----------------------------------------------------------

  datatype WorktreeStatus = WorktreeStatus(
    staged: seq<string>, unstaged: seq<string>, untracked: seq<string>, ignored: seq<string>)
  {
    predicate IsClean() { staged == [] && unstaged == [] && untracked == [] }

    predicate Diverges() { Elements(staged) * Elements(unstaged) != {} }

    function Then(more: WorktreeStatus): WorktreeStatus {
      WorktreeStatus(staged + more.staged, unstaged + more.unstaged, untracked + more.untracked, ignored + more.ignored)
    }
  }

  const NOTHING: WorktreeStatus := WorktreeStatus([], [], [], [])

  datatype GitFailure = IndexError | OSError | ValidationError

  /** What one record adds to the four lists. */
  function ReadRecord(record: string): Result<WorktreeStatus, GitFailure> {
    if record == "" then Ok(NOTHING)
    else if record[0] == '1' then
      var parts := Split(record, ' ', 8);
      if |parts| < 9 || |parts[1]| < 2 then Err(IndexError)
      else
        Ok(WorktreeStatus(
             if parts[1][0] != '.' then [parts[8]] else [],
             if parts[1][1] != '.' then [parts[8]] else [], [], []))
    else if record[0] == 'u' then
      Ok(WorktreeStatus([AfterLast(record, ' ')], [AfterLast(record, ' ')], [], []))
    else if record[0] == '?' || record[0] == '!' then
      var parts := Split(record, ' ', 1);
      if |parts| < 2 then Err(IndexError)
      else if record[0] == '?' then Ok(WorktreeStatus([], [], [parts[1]], []))
      else Ok(WorktreeStatus([], [], [], [parts[1]]))
    else Ok(NOTHING)
  }

  function ReadRecords(records: seq<string>): Result<WorktreeStatus, GitFailure> {
    if records == [] then Ok(NOTHING)
    else match ReadRecords(records[..|records| - 1])
      case Err(e) => Err(e)
      case Ok(status) =>
        match ReadRecord(records[|records| - 1])
        case Err(e) => Err(e)
        case Ok(more) => Ok(status.Then(more))
  }

  function StatusOf(raw: string): Result<WorktreeStatus, GitFailure> {
    ReadRecords(Split(raw, '\0', -1))
  }

  lemma {:induction false} FailureIsFinal(records: seq<string>, n: nat)
    requires n <= |records| && ReadRecords(records[..n]).Err?
    ensures ReadRecords(records) == ReadRecords(records[..n])
    decreases |records|
  {
    hide ReadRecord;
    if n < |records| {
      var init := records[..|records| - 1];
      assert init[..n] == records[..n];
      FailureIsFinal(init, n);
    } else {
      assert records[..n] == records;
    }
  }

  lemma OneMore(records: seq<string>, i: nat, status: WorktreeStatus)
    requires i < |records| && ReadRecords(records[..i]) == Ok(status)
    ensures ReadRecords(records[..i + 1]) ==
      match ReadRecord(records[i]) case Err(e) => Err(e) case Ok(more) => Ok(status.Then(more))
  {
    hide ReadRecord;
    assert records[..i + 1][..i] == records[..i];
  }

  lemma ThenAdds(status: WorktreeStatus, more: WorktreeStatus)
    ensures status.Then(more) == WorktreeStatus(
      if more.staged == [] then status.staged else status.staged + more.staged,
      if more.unstaged == [] then status.unstaged else status.unstaged + more.unstaged,
      if more.untracked == [] then status.untracked else status.untracked + more.untracked,
      if more.ignored == [] then status.ignored else status.ignored + more.ignored)
  {
  }

  /** `worktree_status`, on the decoded output of `git status`. */
  method ReadStatus(raw: string) returns (r: Result<WorktreeStatus, GitFailure>)
    ensures r == StatusOf(raw)
  {
    hide Split, AfterLast;
    var records := Split(raw, '\0', -1);
    var staged: seq<string>, unstaged: seq<string> := [], [];
    var untracked: seq<string>, ignored: seq<string> := [], [];
    assert ReadRecords(records[..0]) == Ok(NOTHING);
    hide ReadRecords, WorktreeStatus.Then;
    for i := 0 to |records|
      invariant ReadRecords(records[..i]) == Ok(WorktreeStatus(staged, unstaged, untracked, ignored))
    {
      var record := records[i];
      ghost var before := WorktreeStatus(staged, unstaged, untracked, ignored);
      OneMore(records, i, before);
      if ReadRecord(record).Ok? { ThenAdds(before, ReadRecord(record).value); }
      if record == "" { continue; }
      var marker := record[0];
      if marker == '1' {
        var parts := Split(record, ' ', 8);
        if |parts| < 9 || |parts[1]| < 2 {
          FailureIsFinal(records, i + 1);
          return Err(IndexError);
        }
        var xy, path := parts[1], parts[8];
        if xy[0] != '.' { staged := staged + [path]; }
        if xy[1] != '.' { unstaged := unstaged + [path]; }
      } else if marker == 'u' {
        var path := AfterLast(record, ' ');
        staged := staged + [path];
        unstaged := unstaged + [path];
      } else if marker == '?' {
        var parts := Split(record, ' ', 1);
        if |parts| < 2 {
          FailureIsFinal(records, i + 1);
          return Err(IndexError);
        }
        untracked := untracked + [parts[1]];
      } else if marker == '!' {
        var parts := Split(record, ' ', 1);
        if |parts| < 2 {
          FailureIsFinal(records, i + 1);
          return Err(IndexError);
        }
        ignored := ignored + [parts[1]];
      }
    }
    assert records[..|records|] == records;
    r := Ok(WorktreeStatus(staged, unstaged, untracked, ignored));
  }

  // -- what Git prints ------------------------------------------------------

  /** A record of `git status --porcelain=v2`: `fields` are the columns between XY and the path. */
  datatype StatusRecord =
    | Ordinary(x: char, y: char, fields: seq<string>, path: string)
    | Unmerged(x: char, y: char, fields: seq<string>, path: string)
    | Untracked(path: string)
    | Ignored(path: string)
  {
    predicate WellFormed() {
      && '\0' !in path
      && (Ordinary? ==> |fields| == 6 && Word([x, y]) && AllWords(fields))
      && (Unmerged? ==> |fields| == 8 && Word([x, y]) && AllWords(fields))
    }

    function Columns(): seq<string> {
      match this
      case Ordinary(x, y, fields, _) => ["1", [x, y]] + fields
      case Unmerged(x, y, fields, _) => ["u", [x, y]] + fields
      case Untracked(_) => ["?"]
      case Ignored(_) => ["!"]
    }

    function Text(): string { Columned(Columns(), path) }

    // The path this record puts in each list, if any.

    function Staged(): Option<string> {
      if Ordinary? && x != '.' then Some(path) else if Unmerged? then Some(AfterLast(path, ' ')) else None
    }

    function Unstaged(): Option<string> {
      if Ordinary? && y != '.' then Some(path) else if Unmerged? then Some(AfterLast(path, ' ')) else None
    }

    function UntrackedPath(): Option<string> { if Untracked? then Some(path) else None }

    function IgnoredPath(): Option<string> { if Ignored? then Some(path) else None }
  }

  predicate Word(s: string) { ' ' !in s && '\0' !in s }

  predicate AllWords(words: seq<string>) { forall w | w in words :: Word(w) }

  /** Columns, each followed by a space, and then the path. */
  function Columned(columns: seq<string>, path: string): string {
    if columns == [] then path else columns[0] + [' '] + Columned(columns[1..], path)
  }

  /** NUL after each token, as with `-z`. */
  function Terminated(tokens: seq<string>): string {
    if tokens == [] then "" else tokens[0] + ['\0'] + Terminated(tokens[1..])
  }

  function Texts(records: seq<StatusRecord>): seq<string> {
    seq(|records|, i requires 0 <= i < |records| => records[i].Text())
  }

  /** The whole output of `git status --porcelain=v2 -z`. */
  function Porcelain(records: seq<StatusRecord>): string { Terminated(Texts(records)) }

  /** The values that are there, in order. */
  function Present(values: seq<Option<string>>): seq<string> {
    if values == [] then []
    else Present(values[..|values| - 1])
         + (match values[|values| - 1] case Some(v) => [v] case None => [])
  }

  /** The four lists a record list stands for. */
  function Listed(records: seq<StatusRecord>): WorktreeStatus {
    var n := |records|;
    WorktreeStatus(
      Present(seq(n, i requires 0 <= i < n => records[i].Staged())),
      Present(seq(n, i requires 0 <= i < n => records[i].Unstaged())),
      Present(seq(n, i requires 0 <= i < n => records[i].UntrackedPath())),
      Present(seq(n, i requires 0 <= i < n => records[i].IgnoredPath())))
  }

  // -- splitting inverts joining --------------------------------------------

  lemma {:induction false} SplitWhole(s: string, sep: char, max: int)
    requires sep !in s || max == 0
    ensures Split(s, sep, max) == [s]
  {
    if s != "" {
      SplitWhole(s[1..], sep, max);
      assert s == [s[0]] + s[1..];
    }
  }

  lemma {:induction false} SplitFirst(a: string, sep: char, b: string, max: int)
    requires sep !in a && max != 0
    ensures Split(a + [sep] + b, sep, max) == [a] + Split(b, sep, if max > 0 then max - 1 else max)
  {
    var s := a + [sep] + b;
    if a == "" {
      assert s[1..] == b;
    } else {
      assert s[1..] == a[1..] + [sep] + b;
      SplitFirst(a[1..], sep, b, max);
      assert a == [a[0]] + a[1..];
    }
  }

  lemma {:induction false} SplitColumned(columns: seq<string>, path: string)
    requires AllWords(columns)
    ensures Split(Columned(columns, path), ' ', |columns|) == columns + [path]
  {
    hide Split;
    if columns == [] {
      SplitWhole(path, ' ', 0);
    } else {
      assert Word(columns[0]);
      SplitFirst(columns[0], ' ', Columned(columns[1..], path), |columns|);
      SplitColumned(columns[1..], path);
      assert columns == [columns[0]] + columns[1..];
    }
  }

  lemma {:induction false} SplitTerminated(tokens: seq<string>)
    requires forall t | t in tokens :: '\0' !in t
    ensures Split(Terminated(tokens), '\0', -1) == tokens + [""]
  {
    hide Split;
    if tokens == [] {
      SplitWhole("", '\0', -1);
    } else {
      SplitFirst(tokens[0], '\0', Terminated(tokens[1..]), -1);
      SplitTerminated(tokens[1..]);
      assert tokens == [tokens[0]] + tokens[1..];
    }
  }

  lemma {:induction false} AfterLastOf(a: string, sep: char, b: string)
    ensures AfterLast(a + [sep] + b, sep) == AfterLast(b, sep)
  {
    var s := a + [sep] + b;
    if a == "" {
      assert s[1..] == b;
      if sep !in b { AfterLastAbsent(b, sep); }
    } else {
      assert s[1..] == a[1..] + [sep] + b;
      assert sep in s[1..];
      AfterLastOf(a[1..], sep, b);
    }
  }

  lemma AfterLastAbsent(s: string, sep: char)
    requires sep !in s
    ensures AfterLast(s, sep) == s
  {
  }

  /** The text after the last separator is the whole text exactly when there is no separator. */
  lemma {:induction false} AfterLastKeeps(s: string, sep: char)
    ensures |AfterLast(s, sep)| <= |s|
    ensures AfterLast(s, sep) == s <==> sep !in s
  {
    if s != "" {
      AfterLastKeeps(s[1..], sep);
      assert s == [s[0]] + s[1..];
    }
  }

  lemma {:induction false} AfterLastColumned(columns: seq<string>, path: string)
    ensures AfterLast(Columned(columns, path), ' ') == AfterLast(path, ' ')
  {
    hide AfterLast;
    if columns != [] {
      AfterLastOf(columns[0], ' ', Columned(columns[1..], path));
      AfterLastColumned(columns[1..], path);
    }
  }

  lemma {:induction false} ColumnedNulFree(columns: seq<string>, path: string)
    requires AllWords(columns) && '\0' !in path
    ensures '\0' !in Columned(columns, path)
  {
    if columns != [] {
      assert Word(columns[0]);
      ColumnedNulFree(columns[1..], path);
    }
  }

  lemma ColumnsAreWords(r: StatusRecord)
    requires r.WellFormed()
    ensures AllWords(r.Columns())
    ensures r.Text() != "" && r.Text()[0] == r.Columns()[0][0]
    ensures |r.Columns()| == match r case Ordinary(_, _, _, _) => 8 case Unmerged(_, _, _, _) => 10 case _ => 1
  {
    hide AfterLast, Split;
  }

  /** An unmerged record lists its path, on both sides, if and only if the path has no space. */
  lemma UnmergedKeepsPath(r: StatusRecord)
    requires r.WellFormed() && r.Unmerged?
    ensures ReadRecord(r.Text()) == Ok(WorktreeStatus([r.path], [r.path], [], [])) <==> ' ' !in r.path
    ensures ReadRecord(r.Text()).Ok? && |ReadRecord(r.Text()).value.staged| == 1
  {
    hide Split, AfterLast, Columned, AllWords, Present;
    RecordRoundTrip(r);
    OnePresent(r.Staged());
    OnePresent(r.Unstaged());
    OnePresent(r.UntrackedPath());
    OnePresent(r.IgnoredPath());
    AfterLastKeeps(r.path, ' ');
    if ReadRecord(r.Text()) == Ok(WorktreeStatus([r.path], [r.path], [], [])) {
      assert [r.path][0] == AfterLast(r.path, ' ');
    }
  }

  /** The parser reads each record as Git meant it, whatever spaces its path holds. */
  lemma RecordRoundTrip(r: StatusRecord)
    requires r.WellFormed()
    ensures ReadRecord(r.Text()) == Ok(WorktreeStatus(
      Present([r.Staged()]), Present([r.Unstaged()]), Present([r.UntrackedPath()]), Present([r.IgnoredPath()])))
  {
    hide Split, AfterLast, Columned, AllWords, Present;
    ColumnsAreWords(r);
    SplitColumned(r.Columns(), r.path);
    AfterLastColumned(r.Columns(), r.path);
    OnePresent(r.Staged());
    OnePresent(r.Unstaged());
    OnePresent(r.UntrackedPath());
    OnePresent(r.IgnoredPath());
  }

  lemma OnePresent(v: Option<string>)
    ensures Present([v]) == match v case Some(t) => [t] case None => []
  {
    assert [v][..0] == [];
  }

  lemma PresentSnoc(values: seq<Option<string>>, v: Option<string>)
    ensures Present(values + [v]) == Present(values) + Present([v])
  {
    assert (values + [v])[..|values|] == values;
    OnePresent(v);
  }

  lemma ListedSnoc(records: seq<StatusRecord>, r: StatusRecord)
    ensures Listed(records + [r]) == Listed(records).Then(WorktreeStatus(
      Present([r.Staged()]), Present([r.Unstaged()]), Present([r.UntrackedPath()]), Present([r.IgnoredPath()])))
  {
    hide Present, AfterLast;
    var n, all := |records|, records + [r];
    var staged := seq(n, i requires 0 <= i < n => records[i].Staged());
    var unstaged := seq(n, i requires 0 <= i < n => records[i].Unstaged());
    var untracked := seq(n, i requires 0 <= i < n => records[i].UntrackedPath());
    var ignored := seq(n, i requires 0 <= i < n => records[i].IgnoredPath());
    assert seq(n + 1, i requires 0 <= i < n + 1 => all[i].Staged()) == staged + [r.Staged()];
    assert seq(n + 1, i requires 0 <= i < n + 1 => all[i].Unstaged()) == unstaged + [r.Unstaged()];
    assert seq(n + 1, i requires 0 <= i < n + 1 => all[i].UntrackedPath()) == untracked + [r.UntrackedPath()];
    assert seq(n + 1, i requires 0 <= i < n + 1 => all[i].IgnoredPath()) == ignored + [r.IgnoredPath()];
    PresentSnoc(staged, r.Staged());
    PresentSnoc(unstaged, r.Unstaged());
    PresentSnoc(untracked, r.UntrackedPath());
    PresentSnoc(ignored, r.IgnoredPath());
  }

  ghost predicate AllWellFormed(records: seq<StatusRecord>) {
    forall r | r in records :: r.WellFormed()
  }

  lemma {:induction false} TextsRead(records: seq<StatusRecord>)
    requires AllWellFormed(records)
    ensures ReadRecords(Texts(records)) == Ok(Listed(records))
  {
    hide ReadRecord, Present;
    if records == [] {
      NothingListed();
    } else {
      var init, last := records[..|records| - 1], records[|records| - 1];
      assert records == init + [last];
      TextsRead(init);
      assert Texts(records)[..|records| - 1] == Texts(init);
      RecordRoundTrip(last);
      ListedSnoc(init, last);
    }
  }

  lemma NothingListed()
    ensures Listed([]) == NOTHING
  {
  }

  /** The status parser inverts the porcelain printer: the four lists hold exactly the right paths, in order. */
  lemma StatusRoundTrip(records: seq<StatusRecord>)
    requires AllWellFormed(records)
    ensures StatusOf(Porcelain(records)) == Ok(Listed(records))
  {
    hide ReadRecord, Present, Split, Columned;
    forall t | t in Texts(records) ensures '\0' !in t {
      var i :| 0 <= i < |records| && t == records[i].Text();
      ColumnsAreWords(records[i]);
      ColumnedNulFree(records[i].Columns(), records[i].path);
    }
    SplitTerminated(Texts(records));
    TextsRead(records);
    EmptyLast(Texts(records));
  }

  lemma EmptyLast(records: seq<string>)
    ensures ReadRecords(records + [""]) == ReadRecords(records)
  {
    hide Split, AfterLast;
    assert (records + [""])[..|records|] == records;
    if ReadRecords(records).Ok? {
      var s := ReadRecords(records).value;
      assert s.Then(NOTHING) == s;
    }
  }

  lemma {:induction false} PresentExactly(values: seq<Option<string>>, p: string)
    ensures p in Present(values) <==> Some(p) in values
  {
    if values != [] {
      var init, v := values[..|values| - 1], values[|values| - 1];
      assert values == init + [v];
      PresentExactly(init, p);
    }
  }

  /** The worktree is clean exactly when Git reports nothing but ignored files; a record whose two letters are dots
      reports no change. */
  lemma CleanExactly(records: seq<StatusRecord>)
    ensures Listed(records).IsClean() <==>
      forall r | r in records :: r.Ignored? || (r.Ordinary? && r.x == '.' && r.y == '.')
  {
    hide Present, AfterLast;
    var n := |records|;
    var staged := seq(n, i requires 0 <= i < n => records[i].Staged());
    var unstaged := seq(n, i requires 0 <= i < n => records[i].Unstaged());
    var untracked := seq(n, i requires 0 <= i < n => records[i].UntrackedPath());
    NonePresent(staged);
    NonePresent(unstaged);
    NonePresent(untracked);
    forall i | 0 <= i < n
      ensures (records[i].Ignored? || (records[i].Ordinary? && records[i].x == '.' && records[i].y == '.'))
        <==> staged[i].None? && unstaged[i].None? && untracked[i].None?
    {
    }
  }

  lemma {:induction false} NonePresent(found: seq<Option<string>>)
    ensures Present(found) == [] <==> forall i | 0 <= i < |found| :: found[i].None?
  {
    if found != [] {
      var init := found[..|found| - 1];
      NonePresent(init);
      assert found == init + [found[|found| - 1]];
    }
  }

  /** The status diverges exactly when some path is listed as staged and as unstaged. */
  lemma DivergesExactly(records: seq<StatusRecord>)
    ensures Listed(records).Diverges() <==>
      exists i, j :: 0 <= i < |records| && 0 <= j < |records| && records[i].Staged().Some?
                     && records[i].Staged() == records[j].Unstaged()
  {
    hide Present, AfterLast;
    var n := |records|;
    var staged := seq(n, i requires 0 <= i < n => records[i].Staged());
    var unstaged := seq(n, i requires 0 <= i < n => records[i].Unstaged());
    var s := Listed(records);
    if s.Diverges() {
      var p :| p in Elements(s.staged) * Elements(s.unstaged);
      PresentExactly(staged, p);
      PresentExactly(unstaged, p);
      var i :| 0 <= i < n && staged[i] == Some(p);
      var j :| 0 <= j < n && unstaged[j] == Some(p);
      assert records[i].Staged() == records[j].Unstaged();
    }
    forall i, j | 0 <= i < n && 0 <= j < n && records[i].Staged().Some? && records[i].Staged() == records[j].Unstaged()
      ensures s.Diverges()
    {
      var p := records[i].Staged().value;
      assert staged[i] == Some(p) && unstaged[j] == Some(p);
      PresentExactly(staged, p);
      PresentExactly(unstaged, p);
      assert p in Elements(s.staged) * Elements(s.unstaged);
    }
  }

  /** When Git reports each tracked path once, that is one record changed on both sides. */
  lemma DivergenceIsOneRecord(records: seq<StatusRecord>)
    requires forall i, j :: 0 <= i < |records| && 0 <= j < |records| && i != j && records[i].Staged().Some? ==>
      records[i].Staged() != records[j].Unstaged()
    ensures Listed(records).Diverges() <==>
      exists i :: 0 <= i < |records| && records[i].Staged().Some? && records[i].Unstaged().Some?
  {
    hide Listed, AfterLast;
    DivergesExactly(records);
    if i :| 0 <= i < |records| && records[i].Staged().Some? && records[i].Unstaged().Some? {
      assert records[i].Staged() == records[i].Unstaged();
    }
  }
}
