/** The file tree and the abstract store: the relation between them, and what each file system
    operation of a write does to it. */
module Refinement {
  import opened Wrappers
  import opened Json
  import opened Models
  import opened Journal
  import opened JournalProperties
  import opened Paths
  import opened FileSystem
  import opened Store

  // -- names ----------------------------------------------------------------

  predicate IsTempName(x: string) {
    |x| >= 5 && x[0] == '.' && x[|x| - 4..] == ".tmp"
  }

  /** `_temp_path_for`: `tag` is the hexadecimal text of a new uuid. */
  function TempPath(path: Path, tag: string): Path
    requires path != []
  {
    Parent(path) + ["." + path[|path| - 1] + "." + tag + ".tmp"]
  }

  /** Two temporary names are different unless they are for one path with one tag; a uuid's text has no dot. */
  lemma TempPathIsInjective(p: Path, tag: string, q: Path, other: string)
    requires p != [] && q != [] && '.' !in tag && '.' !in other && TempPath(p, tag) == TempPath(q, other)
    ensures p == q && tag == other
  {
    var name, name' := p[|p| - 1], q[|q| - 1];
    var s, t := TempPath(p, tag), TempPath(q, other);
    assert s[..|s| - 1] == Parent(p) && t[..|t| - 1] == Parent(q);
    assert p == Parent(p) + [name] && q == Parent(q) + [name'];
    var a, b := "." + name + "." + tag, "." + name' + "." + other;
    assert s[|s| - 1] == a + ".tmp" && t[|t| - 1] == b + ".tmp";
    assert a == (a + ".tmp")[..|a|] && b == (b + ".tmp")[..|b|];
    SameEnd("." + name, tag, "." + name', other);
    assert name == ("." + name)[1..] && name' == ("." + name')[1..];
  }

  lemma SameEnd(a: string, s: string, b: string, t: string)
    requires a + "." + s == b + "." + t && '.' !in s && '.' !in t
    ensures a == b && s == t
  {
    LastDot(a, s);
    LastDot(b, t);
  }

  /** The dot after which there is no other. */
  function DotAt(u: string): nat
  {
    if u == "" || u[|u| - 1] == '.' then |u| else DotAt(u[..|u| - 1])
  }

  lemma {:induction false} LastDot(a: string, s: string)
    requires '.' !in s
    ensures DotAt(a + "." + s) == |a| + 1 && (a + "." + s)[..|a|] == a && (a + "." + s)[|a| + 1..] == s
  {
    var u := a + "." + s;
    if s != "" {
      assert u[..|u| - 1] == a + "." + s[..|s| - 1] && u[|u| - 1] == s[|s| - 1];
      LastDot(a, s[..|s| - 1]);
    }
  }

  /** Names that stand where the store puts its temporary files. */
  predicate IsTemp(root: Path, p: Path) {
    root <= p && |p| - |root| in {1, 4, 5} && IsTempName(p[|p| - 1])
  }

  function PathTo(root: Path, l: Location): (p: Path)
    ensures p != []
  {
    root + Below(l)
  }

  function Holder(root: Path, p: Path): Option<Location> {
    if root <= p then LocationOf(p[|root|..]) else None
  }

  predicate IsDir(root: Path, d: Path) {
    || d <= root
    || (root <= d && |root| < |d| <= |root| + 4 && d[|root|] == "attempts")
  }

  /** A directory has the place of this document. */
  ghost predicate Taken(root: Path, fs: FS, l: Location) { PathTo(root, l) in fs.dirs }

  // -- the relation ---------------------------------------------------------

  ghost predicate DocHeld(root: Path, fs: FS, l: Location, j: JSON) {
    && Named(l) && !l.Events? && WellFormed(j) && j.Obj?
    && fs.TextAt(PathTo(root, l)) == Some(DocText(j))
  }

  ghost predicate JournalHeld(root: Path, fs: FS, l: Location, appends: seq<CutAppend>) {
    && Named(l) && l.Events? && AllPossible(appends)
    && fs.TextAt(PathTo(root, l)) == Some(Appended(appends))
    && Sole(fs, PathTo(root, l))
  }

  /** No other name shares the inode of `p`. */
  ghost predicate Sole(fs: FS, p: Path) {
    p in fs.names && forall q | q in fs.names && fs.names[q] == fs.names[p] :: q == p
  }

  ghost predicate Accounted(root: Path, st: Store, p: Path) {
    || IsTemp(root, p)
    || (Holder(root, p).Some? && (Holder(root, p).value in st.docs || Holder(root, p).value in st.journals))
  }

  /** The file tree holds exactly the store, besides temporary files. */
  ghost predicate Holds(root: Path, fs: FS, st: Store) {
    && fs.Valid()
    && (forall l | l in st.docs :: DocHeld(root, fs, l, st.docs[l]))
    && (forall l | l in st.journals :: JournalHeld(root, fs, l, st.journals[l]))
    && (forall p | p in fs.names :: Accounted(root, st, p) && p != [] && Parent(p) in fs.dirs)
    && (forall d | d in fs.dirs :: IsDir(root, d))
  }

  lemma HolderOfPath(root: Path, l: Location)
    ensures Holder(root, PathTo(root, l)) == Some(l)
  {
    hide LocationOf;
    LocationOfBelow(l);
    assert PathTo(root, l)[|root|..] == Below(l);
  }

  lemma PathToIsInjective(root: Path, l: Location, m: Location)
    requires PathTo(root, l) == PathTo(root, m)
    ensures l == m
  {
    hide Holder;
    HolderOfPath(root, l);
    HolderOfPath(root, m);
  }

  lemma FinalIsNotTemp(root: Path, l: Location)
    ensures !IsTemp(root, PathTo(root, l))
  {
    var p := PathTo(root, l);
    assert p[|p| - 1] == Below(l)[|Below(l)| - 1];
    if l.Report? {
      var name := l.id + ".json";
      assert name[|name| - 4..] == "json";
    }
  }

  lemma FinalIsNotDir(root: Path, l: Location)
    requires l.Current? || l.Report?
    ensures !IsDir(root, PathTo(root, l))
  {
    assert PathTo(root, l)[|root|] == Below(l)[0];
  }

  lemma TempIsTemp(root: Path, l: Location, tag: string)
    ensures IsTemp(root, TempPath(PathTo(root, l), tag))
    ensures Parent(TempPath(PathTo(root, l), tag)) == Parent(PathTo(root, l))
  {
    var p := PathTo(root, l);
    var name := "." + p[|p| - 1] + "." + tag + ".tmp";
    assert name[|name| - 4..] == ".tmp";
    assert Parent(p) == root + Below(l)[..|Below(l)| - 1];
    assert Parent(TempPath(p, tag)) == Parent(p);
    assert root <= TempPath(p, tag);
  }

  lemma PrefixIsDir(root: Path, l: Location, k: nat)
    requires k < |PathTo(root, l)|
    ensures IsDir(root, PathTo(root, l)[..k])
  {
    var p := PathTo(root, l);
    var d := p[..k];
    if k <= |root| {
      assert d == root[..k];
    } else {
      assert root <= d;
      assert d[|root|] == Below(l)[0];
    }
  }

  /** No file stands above the attempt directories or has the place of one. */
  lemma DirIsNoFile(root: Path, st: Store, d: Path)
    requires IsDir(root, d) && |d| < |root| + 4
    ensures !Accounted(root, st, d)
  {
    if d <= root {
      if root <= d { assert d == root && d[|root|..] == []; }
    } else {
      var r := d[|root|..];
      assert |r| == |d| - |root| && r[0] == d[|root|];
      if |r| == 1 { assert r[0] == d[|d| - 1] == "attempts"; }
    }
  }

  /** A document is there exactly when its file is; only a record or a journal can have a directory in its place. */
  lemma PresentExactly(root: Path, fs: FS, st: Store, l: Location)
    requires Holds(root, fs, st)
    ensures PathTo(root, l) in fs.names <==> l in st.docs || l in st.journals
    ensures !l.Events? ==> l !in st.journals
    ensures l.Events? ==> l !in st.docs
    ensures l.Current? || l.Report? ==> PathTo(root, l) !in fs.dirs
  {
    hide PathTo, Holder, IsTemp, IsDir, Appended, AllPossible, DocText;
    HolderOfPath(root, l);
    FinalIsNotTemp(root, l);
    if l.Current? || l.Report? { FinalIsNotDir(root, l); }
    if l in st.docs { assert DocHeld(root, fs, l, st.docs[l]); }
    if l in st.journals { assert JournalHeld(root, fs, l, st.journals[l]); }
    if PathTo(root, l) in fs.names { assert Accounted(root, st, PathTo(root, l)); }
  }

  // -- what each operation does to the relation -----------------------------

  /** A directory above a located document has the place of a temporary file only if it is a report category. */
  lemma OnlyCategoryLikeTemp(root: Path, l: Location, k: nat)
    requires k < |PathTo(root, l)| && IsTemp(root, PathTo(root, l)[..k])
    ensures l.Report? && k == |PathTo(root, l)| - 1 && IsTempName(l.category)
  {
    var p := PathTo(root, l);
    var d := p[..k];
    assert d[|d| - 1] == Below(l)[k - 1 - |root|];
    assert |Below(l)| > 1 ==> Below(l)[0] == "attempts";
  }

  lemma ParentIsShort(root: Path, l: Location)
    ensures |Parent(PathTo(root, l))| <= |root| + 4
    ensures !l.Report? ==> |Parent(PathTo(root, l))| < |root| + 4
  {
  }

  lemma MkdirsKeeps(root: Path, fs: FS, st: Store, l: Location)
    requires Holds(root, fs, st) && Parent(PathTo(root, l)) !in fs.names
    ensures var made := Mkdirs(fs, Parent(PathTo(root, l)));
      && made.Some? && Holds(root, made.value, st)
      && made.value == fs.(dirs := made.value.dirs)
      && fs.dirs <= made.value.dirs && Parent(PathTo(root, l)) in made.value.dirs
  {
    hide PathTo, IsDir, IsTemp, Holder, Appended, AllPossible, DocText;
    var dir := Parent(PathTo(root, l));
    ParentIsShort(root, l);
    forall d | d in Prefixes(dir) ensures IsDir(root, d) && d !in fs.names {
      var k :| 0 <= k <= |dir| && d == dir[..k];
      assert d == PathTo(root, l)[..k];
      PrefixIsDir(root, l, k);
      if k < |dir| { DirIsNoFile(root, st, d); } else { assert d == dir; }
    }
    var made := fs.(dirs := fs.dirs + Prefixes(dir));
    assert Mkdirs(fs, dir) == Some(made);
    assert dir in Prefixes(dir) by { assert dir[..|dir|] == dir; }
    forall m | m in st.docs ensures DocHeld(root, made, m, st.docs[m]) {
      assert DocHeld(root, fs, m, st.docs[m]);
    }
    forall m | m in st.journals ensures JournalHeld(root, made, m, st.journals[m]) {
      assert JournalHeld(root, fs, m, st.journals[m]);
    }
  }

  lemma NewTempIsFree(root: Path, fs: FS, l: Location, tag: string)
    requires !fs.Exists(TempPath(PathTo(root, l), tag))
    ensures var tmp := TempPath(PathTo(root, l), tag);
      forall made | Mkdirs(fs, Parent(PathTo(root, l))) == Some(made) :: !made.Exists(tmp)
  {
    hide PathTo;
    var path := PathTo(root, l);
    assert |TempPath(path, tag)| == |Parent(path)| + 1;
  }

  lemma OpenTempKeeps(root: Path, fs: FS, st: Store, tmp: Path)
    requires Holds(root, fs, st) && IsTemp(root, tmp) && !fs.Exists(tmp) && tmp != [] && Parent(tmp) in fs.dirs
    ensures Holds(root, OpenNew(fs, tmp), st)
    ensures Sole(OpenNew(fs, tmp), tmp) && OpenNew(fs, tmp).names[tmp] == |fs.data|
  {
    hide PathTo, IsDir, IsTemp, Holder, Appended, AllPossible, DocText;
    var after := OpenNew(fs, tmp);
    forall m | m in st.docs ensures DocHeld(root, after, m, st.docs[m]) {
      assert DocHeld(root, fs, m, st.docs[m]);
    }
    forall m | m in st.journals ensures JournalHeld(root, after, m, st.journals[m]) {
      assert JournalHeld(root, fs, m, st.journals[m]);
    }
    forall p | p in after.names ensures Accounted(root, st, p) && p != [] && Parent(p) in after.dirs {
      if p != tmp { assert p in fs.names; }
    }
  }

  /** Writing through a handle is harmless while only a temporary name reaches its inode. */
  lemma WriteTempKeeps(root: Path, fs: FS, st: Store, tmp: Path, text: string)
    requires Holds(root, fs, st) && IsTemp(root, tmp) && Sole(fs, tmp)
    ensures Holds(root, WriteInode(fs, fs.names[tmp], text), st)
  {
    hide PathTo, IsDir, IsTemp, Holder, Appended, AllPossible, DocText;
    var after := WriteInode(fs, fs.names[tmp], text);
    forall m | m in st.docs ensures DocHeld(root, after, m, st.docs[m]) {
      assert DocHeld(root, fs, m, st.docs[m]);
      FinalIsNotTemp(root, m);
    }
    forall m | m in st.journals ensures JournalHeld(root, after, m, st.journals[m]) {
      assert JournalHeld(root, fs, m, st.journals[m]);
      FinalIsNotTemp(root, m);
    }
  }

  lemma UnlinkTempKeeps(root: Path, fs: FS, st: Store, tmp: Path)
    requires Holds(root, fs, st) && IsTemp(root, tmp)
    ensures Holds(root, Unlink(fs, tmp), st)
  {
    hide PathTo, IsDir, IsTemp, Holder, Appended, AllPossible, DocText;
    var after := Unlink(fs, tmp);
    forall m | m in st.docs ensures DocHeld(root, after, m, st.docs[m]) {
      assert DocHeld(root, fs, m, st.docs[m]);
      FinalIsNotTemp(root, m);
    }
    forall m | m in st.journals ensures JournalHeld(root, after, m, st.journals[m]) {
      assert JournalHeld(root, fs, m, st.journals[m]);
      FinalIsNotTemp(root, m);
    }
  }

  /** What a complete temporary file looks like just before it is published as `l`. */
  ghost predicate Ready(root: Path, fs: FS, tmp: Path, l: Location, j: JSON) {
    && IsTemp(root, tmp) && Sole(fs, tmp) && fs.TextAt(tmp) == Some(DocText(j))
    && WellFormed(j) && j.Obj? && Named(l) && !l.Events? && Parent(PathTo(root, l)) in fs.dirs
  }

  /** `after` differs from `fs` only in that the inode of `tmp` has the name `p`, and perhaps no longer `tmp`. */
  ghost predicate Published(fs: FS, after: FS, tmp: Path, p: Path) {
    && after.data == fs.data && after.dirs == fs.dirs && tmp in fs.names
    && p in after.names && after.names[p] == fs.names[tmp]
    && (forall q | q in after.names && q != p :: q in fs.names && after.names[q] == fs.names[q])
    && (forall q | q in fs.names && q != p && q != tmp :: q in after.names)
  }

  lemma RenameOrLinkPublishes(fs: FS, after: FS, tmp: Path, p: Path)
    requires tmp in fs.names
    requires after == Replace(fs, tmp, p) || (!fs.Exists(p) && after == Link(fs, tmp, p))
    ensures Published(fs, after, tmp, p)
  {
  }

  /** Giving the complete file its final name, by `os.replace` or by `os.link`, stores the document. */
  lemma PublishStores(root: Path, fs: FS, after: FS, st: Store, tmp: Path, l: Location, j: JSON)
    requires Holds(root, fs, st) && Ready(root, fs, tmp, l, j)
    requires
      || (PathTo(root, l) !in fs.dirs && after == Replace(fs, tmp, PathTo(root, l)))
      || (!fs.Exists(PathTo(root, l)) && after == Link(fs, tmp, PathTo(root, l)))
    ensures Holds(root, after, st.(docs := st.docs[l := j]))
  {
    hide PathTo, IsDir, IsTemp, Holder, Appended, AllPossible, DocText, DocHeld, JournalHeld, Accounted, Published,
      Sole;
    var st', p := st.(docs := st.docs[l := j]), PathTo(root, l);
    RenameOrLinkPublishes(fs, after, tmp, p);
    hide Replace, Link;
    PublishedIsValid(fs, after, tmp, p);
    forall m | m in st'.docs ensures DocHeld(root, after, m, st'.docs[m]) {
      PublishKeepsDoc(root, fs, after, st, tmp, l, j, m);
    }
    forall m | m in st'.journals ensures JournalHeld(root, after, m, st'.journals[m]) {
      PublishKeepsJournal(root, fs, after, st, tmp, l, m);
    }
    forall q | q in after.names ensures Accounted(root, st', q) && q != [] && Parent(q) in after.dirs {
      PublishedIsAccounted(root, fs, after, st, tmp, l, j, q);
    }
  }

  lemma PublishedIsValid(fs: FS, after: FS, tmp: Path, p: Path)
    requires fs.Valid() && Published(fs, after, tmp, p) && p !in fs.dirs
    ensures after.Valid() && after.dirs == fs.dirs
  {
  }

  lemma PublishKeepsDoc(
    root: Path, fs: FS, after: FS, st: Store, tmp: Path, l: Location, j: JSON, m: Location)
    requires Holds(root, fs, st) && Ready(root, fs, tmp, l, j) && Published(fs, after, tmp, PathTo(root, l))
    requires m in st.docs || m == l
    ensures DocHeld(root, after, m, st.docs[l := j][m])
  {
    hide PathTo, IsDir, IsTemp, Holder, Appended, AllPossible, DocText;
    if m != l {
      assert DocHeld(root, fs, m, st.docs[m]);
      OtherPath(root, m, l, tmp);
    }
  }

  lemma PublishKeepsJournal(root: Path, fs: FS, after: FS, st: Store, tmp: Path, l: Location, m: Location)
    requires Holds(root, fs, st) && IsTemp(root, tmp) && Published(fs, after, tmp, PathTo(root, l))
    requires m in st.journals && !l.Events?
    ensures JournalHeld(root, after, m, st.journals[m])
  {
    hide PathTo, IsDir, IsTemp, Holder, Appended, AllPossible, DocText;
    assert JournalHeld(root, fs, m, st.journals[m]);
    OtherPath(root, m, l, tmp);
  }

  lemma PublishedIsAccounted(
    root: Path, fs: FS, after: FS, st: Store, tmp: Path, l: Location, j: JSON, q: Path)
    requires Holds(root, fs, st) && Ready(root, fs, tmp, l, j) && Published(fs, after, tmp, PathTo(root, l))
    requires q in after.names
    ensures Accounted(root, st.(docs := st.docs[l := j]), q) && q != [] && Parent(q) in after.dirs
  {
    hide PathTo, IsDir, IsTemp, Holder, DocHeld, JournalHeld, DocText;
    HolderOfPath(root, l);
    if q != PathTo(root, l) { assert q in fs.names && Accounted(root, st, q); }
  }

  lemma OtherPath(root: Path, m: Location, l: Location, tmp: Path)
    requires m != l && IsTemp(root, tmp)
    ensures PathTo(root, m) != PathTo(root, l) && PathTo(root, m) != tmp
  {
    hide PathTo, IsTemp;
    if PathTo(root, m) == PathTo(root, l) { PathToIsInjective(root, m, l); }
    FinalIsNotTemp(root, m);
  }

  /** `after` differs from `fs` only in that the file `p`, new or not shared, has `text` added. */
  ghost predicate Grown(fs: FS, after: FS, p: Path, text: string) {
    && after.dirs == fs.dirs && p in after.names && after.names[p] < |after.data| && |fs.data| <= |after.data|
    && after.names.Keys == fs.names.Keys + {p}
    && (forall q | q in fs.names && q != p ::
          after.names[q] == fs.names[q] && after.names[q] != after.names[p] && after.names[q] < |fs.data|
          && after.data[after.names[q]] == fs.data[fs.names[q]])
    && after.data[after.names[p]] == (if fs.TextAt(p).Some? then fs.TextAt(p).value else "") + text
  }

  lemma AppendGrows(fs: FS, p: Path, text: string)
    requires fs.Valid() && (p in fs.names ==> Sole(fs, p))
    ensures Grown(fs, AppendText(fs, p, text), p, text)
  {
  }

  lemma AppendKeepsDoc(root: Path, fs: FS, after: FS, l: Location, text: string, m: Location, j: JSON)
    requires fs.Valid() && Grown(fs, after, PathTo(root, l), text) && l.Events? && DocHeld(root, fs, m, j)
    ensures DocHeld(root, after, m, j)
  {
    hide PathTo, DocText;
    if PathTo(root, m) == PathTo(root, l) { PathToIsInjective(root, m, l); }
  }

  lemma AppendKeepsJournal(
    root: Path, fs: FS, after: FS, l: Location, text: string, m: Location, appends: seq<CutAppend>)
    requires fs.Valid() && Grown(fs, after, PathTo(root, l), text) && m != l && JournalHeld(root, fs, m, appends)
    ensures JournalHeld(root, after, m, appends)
  {
    hide PathTo, Appended;
    if PathTo(root, m) == PathTo(root, l) { PathToIsInjective(root, m, l); }
  }

  /** Adding text at the end of a journal's file is adding it at the end of the journal. */
  lemma AppendStores(root: Path, fs: FS, st: Store, l: Location, text: string, appends: seq<CutAppend>)
    requires Holds(root, fs, st) && l.Events? && Named(l) && Parent(PathTo(root, l)) in fs.dirs
    requires PathTo(root, l) !in fs.dirs
    requires AllPossible(appends) && Appended(appends) == Appended(JournalOf(st, l)) + text
    ensures Holds(root, AppendText(fs, PathTo(root, l), text), st.(journals := st.journals[l := appends]))
  {
    hide PathTo, IsDir, IsTemp, Holder, Appended, AllPossible, DocText, DocHeld, JournalHeld, Accounted, Grown, Sole;
    var p, st' := PathTo(root, l), st.(journals := st.journals[l := appends]);
    var after := AppendText(fs, p, text);
    JournalIsSole(root, fs, st, l);
    AppendGrows(fs, p, text);
    hide AppendText;
    GrownIsValid(fs, after, p, text);
    forall m | m in st'.docs ensures DocHeld(root, after, m, st'.docs[m]) {
      AppendKeepsDoc(root, fs, after, l, text, m, st.docs[m]);
    }
    forall m | m in st'.journals ensures JournalHeld(root, after, m, st'.journals[m]) {
      if m == l {
        AppendedIsHeld(root, fs, after, st, l, text, appends);
      } else {
        AppendKeepsJournal(root, fs, after, l, text, m, st.journals[m]);
      }
    }
    forall q | q in after.names ensures Accounted(root, st', q) && q != [] && Parent(q) in after.dirs {
      AppendIsAccounted(root, fs, after, st, l, text, appends, q);
    }
  }

  lemma JournalIsSole(root: Path, fs: FS, st: Store, l: Location)
    requires Holds(root, fs, st) && l.Events?
    ensures PathTo(root, l) in fs.names ==> Sole(fs, PathTo(root, l))
  {
    hide PathTo, IsDir, IsTemp, Holder, Appended, AllPossible, DocText;
    PresentExactly(root, fs, st, l);
    if l in st.journals { assert JournalHeld(root, fs, l, st.journals[l]); }
  }

  lemma GrownIsValid(fs: FS, after: FS, p: Path, text: string)
    requires fs.Valid() && Grown(fs, after, p, text) && p !in fs.dirs
    ensures after.Valid() && after.dirs == fs.dirs
  {
  }

  lemma AppendedIsHeld(
    root: Path, fs: FS, after: FS, st: Store, l: Location, text: string, appends: seq<CutAppend>)
    requires Holds(root, fs, st) && Grown(fs, after, PathTo(root, l), text) && l.Events? && Named(l)
    requires AllPossible(appends) && Appended(appends) == Appended(JournalOf(st, l)) + text
    ensures JournalHeld(root, after, l, appends)
  {
    hide PathTo, IsDir, IsTemp, Holder, Appended, AllPossible, DocText, Accounted;
    PresentExactly(root, fs, st, l);
    if l in st.journals { assert JournalHeld(root, fs, l, st.journals[l]); }
    EmptyJournal();
  }

  lemma AppendIsAccounted(
    root: Path, fs: FS, after: FS, st: Store, l: Location, text: string, appends: seq<CutAppend>, q: Path)
    requires Holds(root, fs, st) && Grown(fs, after, PathTo(root, l), text) && Parent(PathTo(root, l)) in fs.dirs
    requires q in after.names
    ensures Accounted(root, st.(journals := st.journals[l := appends]), q) && q != [] && Parent(q) in after.dirs
  {
    hide PathTo, IsDir, IsTemp, Holder, DocHeld, JournalHeld;
    HolderOfPath(root, l);
    if q != PathTo(root, l) { assert q in fs.names && Accounted(root, st, q); }
  }

  lemma EmptyJournal()
    ensures Appended([]) == ""
  {
  }

  /** A whole line, appended. */
  lemma EventStores(root: Path, fs: FS, st: Store, e: Event)
    requires var l := Events(e.taskId, e.attemptId);
      && Holds(root, fs, st) && e.Valid() && Named(l) && Parent(PathTo(root, l)) in fs.dirs
      && PathTo(root, l) !in fs.dirs
    ensures Holds(root, AppendText(fs, PathTo(root, Events(e.taskId, e.attemptId)), Line(e)), Apply(st, AppendEvent(e)))
  {
    hide Holds, PathTo, Appended, Line;
    var l := Events(e.taskId, e.attemptId);
    var before, last := JournalOf(st, l), CutAppend(e, |Line(e)|);
    if l in st.journals { JournalIsPossible(root, fs, st, l); }
    AppendedSnoc(before, last);
    assert last.Cut() == Line(e);
    AppendStores(root, fs, st, l, Line(e), before + [last]);
  }

  lemma JournalIsPossible(root: Path, fs: FS, st: Store, l: Location)
    requires Holds(root, fs, st) && l in st.journals
    ensures AllPossible(st.journals[l])
  {
    assert JournalHeld(root, fs, l, st.journals[l]);
    hide Holds;
  }

  // -- reserved categories --------------------------------------------------

  /** The directory of the reports of this category has the place of this record or journal. */
  predicate Displaces(l: Location, m: Location) {
    l.Report? &&
    (|| (l.category == ATTEMPT_FILENAME && m == Record(l.task, l.attempt))
     || (l.category == EVENTS_FILENAME && m == Events(l.task, l.attempt)))
  }

  lemma NotOwnPlace(l: Location)
    ensures !Displaces(l, l)
  {
  }

  lemma OnlyReportsDisplace(l: Location)
    requires !l.Report?
    ensures forall m :: !Displaces(l, m)
  {
  }

  /** What stands in the way of a report's directory: a file of the attempt that has the category's name, or a
      temporary file that has it. */
  ghost predicate Obstructed(root: Path, fs: FS, st: Store, l: Location) {
    l.Report? &&
    (|| (l.category == ATTEMPT_FILENAME && Record(l.task, l.attempt) in st.docs)
     || (l.category == EVENTS_FILENAME && Events(l.task, l.attempt) in st.journals)
     || (IsTempName(l.category) && Parent(PathTo(root, l)) in fs.names))
  }

  /** `mkdir` fails for exactly these. */
  lemma MkdirsFailsExactly(root: Path, fs: FS, st: Store, l: Location)
    requires Holds(root, fs, st)
    ensures Mkdirs(fs, Parent(PathTo(root, l))).None? <==> Obstructed(root, fs, st, l)
    ensures Parent(PathTo(root, l)) in fs.names <==> Obstructed(root, fs, st, l)
  {
    hide Holds, PathTo, IsTemp, IsDir, Obstructed;
    var dir := Parent(PathTo(root, l));
    assert dir in Prefixes(dir) by { assert dir[..|dir|] == dir; }
    if Obstructed(root, fs, st, l) {
      ObstructedIsNamed(root, fs, st, l);
      assert dir in Prefixes(dir) * fs.names.Keys;
    } else {
      NotObstructedIsFree(root, fs, st, l);
      MkdirsKeeps(root, fs, st, l);
    }
  }

  lemma CategoryIsFile(root: Path, l: Location, m: Location)
    requires Displaces(l, m)
    ensures Parent(PathTo(root, l)) == PathTo(root, m)
  {
  }

  lemma ObstructedIsNamed(root: Path, fs: FS, st: Store, l: Location)
    requires Holds(root, fs, st) && Obstructed(root, fs, st, l)
    ensures Parent(PathTo(root, l)) in fs.names
  {
    hide PathTo, IsDir, IsTemp, Holder, Appended, AllPossible, DocText;
    forall m | Displaces(l, m) ensures Parent(PathTo(root, l)) == PathTo(root, m) { CategoryIsFile(root, l, m); }
    PresentExactly(root, fs, st, Record(l.task, l.attempt));
    PresentExactly(root, fs, st, Events(l.task, l.attempt));
  }

  lemma NotObstructedIsFree(root: Path, fs: FS, st: Store, l: Location)
    requires Holds(root, fs, st) && !Obstructed(root, fs, st, l)
    ensures Parent(PathTo(root, l)) !in fs.names
  {
    hide IsDir, IsTemp, PathTo, Appended, AllPossible, DocText;
    var dir := Parent(PathTo(root, l));
    PrefixIsDir(root, l, |dir|);
    if !l.Report? {
      ParentIsShort(root, l);
      DirIsNoFile(root, st, dir);
    } else if dir in fs.names {
      assert Accounted(root, st, dir);
      if IsTemp(root, dir) {
        OnlyCategoryLikeTemp(root, l, |dir|);
      } else {
        CategoryHolder(root, l);
        PresentExactly(root, fs, st, Holder(root, dir).value);
      }
    }
  }

  lemma CategoryHolder(root: Path, l: Location)
    requires l.Report? && Holder(root, Parent(PathTo(root, l))).Some?
    ensures Displaces(l, Holder(root, Parent(PathTo(root, l))).value)
  {
    assert Parent(PathTo(root, l))[|root|..] == ["attempts", l.task, l.attempt, l.category];
  }

  /** The only paths of documents above those of others. */
  lemma PathAbove(root: Path, l: Location, m: Location, k: nat)
    requires k < |PathTo(root, l)| && PathTo(root, m) == PathTo(root, l)[..k]
    ensures Displaces(l, m)
  {
    assert |PathTo(root, m)| == k && PathTo(root, m)[|root|..] == Below(m);
    var n := |Below(m)|;
    assert PathTo(root, l)[..k][|root|..] == Below(l)[..n];
    assert Below(m)[0] == Below(l)[..n][0] && Below(m)[n - 1] == Below(l)[..n][n - 1];
    if n == 4 { assert Below(m)[1] == Below(l)[..n][1] && Below(m)[2] == Below(l)[..n][2]; }
  }

  /** A directory gets the place of a record or journal exactly when it is made for a report of that category of
      that attempt. */
  lemma MkdirsDisplacesExactly(root: Path, fs: FS, l: Location, m: Location)
    requires Mkdirs(fs, Parent(PathTo(root, l))).Some?
    ensures Taken(root, Mkdirs(fs, Parent(PathTo(root, l))).value, m) <==> Taken(root, fs, m) || Displaces(l, m)
  {
    var dir, p := Parent(PathTo(root, l)), PathTo(root, m);
    if Displaces(l, m) {
      CategoryIsFile(root, l, m);
      assert dir in Prefixes(dir) by { assert dir[..|dir|] == dir; }
    } else if p in Prefixes(dir) {
      var k :| 0 <= k <= |dir| && p == dir[..k];
      PathAbove(root, l, m, k);
    }
  }

  /** How one call ends where the files are `fs`: refused for its identifiers or its data, failed because a file is in
      the way of the report's directory or a directory has the place of the record or the journal, refused because
      the document is there, or done. */
  ghost function OutcomeOn(cfg: Config, fs: FS, st: Store, call: Call): Outcome {
    var l := LocationFor(call);
    if !Named(l) then Err(BadPath(BadPart(l).value))
    else if !cfg.clean(DataOf(call)) then Err(HasSecrets)
    else if Obstructed(cfg.root, fs, st, l) then Err(FileSystemError)
    else if Taken(cfg.root, fs, l) then Err(if Creates(call) then AlreadyExists else FileSystemError)
    else if Creates(call) && l in st.docs then Err(AlreadyExists)
    else Ok(())
  }

  /** One call where the files are `fs`: only one that ends well changes the store. */
  ghost function PerformOn(cfg: Config, fs: FS, st: Store, call: Call): (Store, Outcome) {
    var outcome := OutcomeOn(cfg, fs, st, call);
    (if outcome.Ok? then Apply(st, call) else st, outcome)
  }

  /** The files make a difference to an admitted call exactly then. */
  lemma FilesMatterExactly(cfg: Config, fs: FS, st: Store, call: Call)
    requires Holds(cfg.root, fs, st)
    ensures PerformOn(cfg, fs, st, call) != Perform(cfg, st, call) <==>
      && Admissible(cfg, call)
      && (Obstructed(cfg.root, fs, st, LocationFor(call)) || Taken(cfg.root, fs, LocationFor(call)))
  {
    hide Holds, PathTo, Admit, Obstructed, Apply;
    var l := LocationFor(call);
    PresentExactly(cfg.root, fs, st, l);
    if Obstructed(cfg.root, fs, st, l) {
      ObstructedIsNamed(cfg.root, fs, st, l);
      PathsAreATree(cfg.root, fs, st, PathTo(cfg.root, l));
    } else if Taken(cfg.root, fs, l) {
      PathsAreATree(cfg.root, fs, st, PathTo(cfg.root, l));
    }
  }

  lemma PathsAreATree(root: Path, fs: FS, st: Store, p: Path)
    requires Holds(root, fs, st) && p != []
    ensures p in fs.names ==> Parent(p) !in fs.names && p !in fs.dirs
  {
  }
}
