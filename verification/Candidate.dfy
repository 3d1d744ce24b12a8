/** The candidate: the worktree relative to a baseline, and the identity everything later is bound to. */
module Candidate {
  import opened Wrappers
  import opened Ordering
  import opened Utf8

  datatype Kind = Added | Modified | Deleted

  datatype Entry = Entry(path: string, kind: Kind, mode: Option<string>, content: Option<string>)

  datatype Snapshot = Snapshot(baseline: string, entries: seq<Entry>)

  datatype Identity = Identity(baseline: string, fingerprint: string)

  /** `CandidateEntry` accepts exactly these. */
  predicate ValidEntry(e: Entry) {
    && e.path != ""
    && if e.kind.Deleted? then e.mode.None? && e.content.None? else e.mode.Some? && e.content.Some?
  }

  function PathsOf(entries: seq<Entry>): seq<string> {
    seq(|entries|, i requires 0 <= i < |entries| => entries[i].path)
  }

  /** `CandidateSnapshot` accepts exactly these: the two checks of its validator on valid entries. */
  predicate ValidSnapshot(s: Snapshot) {
    && s.baseline != ""
    && (forall i | 0 <= i < |s.entries| :: ValidEntry(s.entries[i]))
    && PathsOf(s.entries) == Sorted(PathsOf(s.entries))
    && |Elements(PathsOf(s.entries))| == |PathsOf(s.entries)|
  }

  /** The two checks together mean strictly ascending paths. */
  lemma ValidatorAcceptsExactly(paths: seq<string>)
    ensures paths == Sorted(paths) && |Elements(paths)| == |paths| <==> Ascending(paths)
  {
    SortedIsNonDescending(paths);
    if paths == Sorted(paths) && |Elements(paths)| == |paths| {
      forall i, j | 0 <= i < j < |paths| ensures Less(paths[i], paths[j]) {
        AllDifferent(paths, i, j);
      }
    }
    if Ascending(paths) {
      SortedLeavesOrderedAlone(paths);
      forall i, j | 0 <= i < j < |paths| ensures paths[i] != paths[j] { LessIsTotal(paths[i], paths[j]); }
      CountDifferent(paths);
    }
  }

  lemma {:induction false} CountDifferent(s: seq<string>)
    requires forall i, j :: 0 <= i < j < |s| ==> s[i] != s[j]
    ensures |Elements(s)| == |s|
  {
    if s != [] {
      CountDifferent(s[1..]);
      assert s == [s[0]] + s[1..];
      ConsElements(s[0], s[1..]);
      assert s[0] !in s[1..];
    }
  }

  lemma {:induction false} AllDifferent(s: seq<string>, i: nat, j: nat)
    requires |Elements(s)| == |s| && i < j < |s|
    ensures s[i] != s[j]
  {
    assert s == [s[0]] + s[1..];
    ConsElements(s[0], s[1..]);
    ElementsBound(s[1..]);
    if i == 0 {
      assert s[j] == s[1..][j - 1];
    } else {
      AllDifferent(s[1..], i - 1, j - 1);
    }
  }

  // -- fingerprint ----------------------------------------------------------

  function KindText(k: Kind): string {
    match k
    case Added => "added"
    case Modified => "modified"
    case Deleted => "deleted"
  }

  function OrEmpty(s: Option<string>): string {
    if s.Some? then s.value else ""
  }

  /** A field and the NUL that ends it. */
  function Field(s: string): bytes { Encode(s) + [0] }

  function EntryBytes(e: Entry): bytes {
    Field(e.path) + (Field(KindText(e.kind)) + (Field(OrEmpty(e.mode)) + Field(OrEmpty(e.content))))
  }

  /** Everything the digest is fed. */
  function Stream(entries: seq<Entry>): bytes {
    if entries == [] then [] else EntryBytes(entries[0]) + Stream(entries[1..])
  }

  lemma {:induction false} StreamSnoc(entries: seq<Entry>, e: Entry)
    ensures Stream(entries + [e]) == Stream(entries) + EntryBytes(e)
  {
    hide EntryBytes;
    if entries == [] {
      assert ([] + [e])[1..] == [];
    } else {
      assert (entries + [e])[1..] == entries[1..] + [e];
      StreamSnoc(entries[1..], e);
    }
  }

  /** Feeding the four fields and their terminators one after the other is feeding the entry. */
  lemma FedInTurn(fed: bytes, e: Entry)
    ensures
      fed + Encode(e.path) + [0] + Encode(KindText(e.kind)) + [0] + Encode(OrEmpty(e.mode)) + [0]
        + Encode(OrEmpty(e.content)) + [0]
      == fed + EntryBytes(e)
  {
    hide Encode, KindText, OrEmpty;
    var a, k, m, c := Encode(e.path), Encode(KindText(e.kind)), Encode(OrEmpty(e.mode)), Encode(OrEmpty(e.content));
    calc {
      fed + a + [0] + k + [0] + m + [0] + c + [0];
      fed + (a + [0]) + (k + [0]) + (m + [0]) + (c + [0]);
      fed + ((a + [0]) + ((k + [0]) + ((m + [0]) + (c + [0]))));
    }
  }

  lemma NothingFed()
    ensures Stream([]) == []
  {
  }

  // -- what is fed, by the standard -----------------------------------------

  /** The four texts of an entry. */
  ghost predicate AreTexts(texts: seq<string>, e: Entry) {
    && |texts| == 4 && texts[0] == e.path
    && texts[1] == (match e.kind case Added => "added" case Modified => "modified" case Deleted => "deleted")
    && texts[2] == (match e.mode case None => "" case Some(mode) => mode)
    && texts[3] == (match e.content case None => "" case Some(content) => content)
  }

  /** The fields of an entry: the UTF-8 of its texts. */
  ghost predicate AreFields(fields: seq<bytes>, e: Entry) {
    |fields| == 4 && forall texts | AreTexts(texts, e) :: forall k | 0 <= k < 4 :: IsUtf8(fields[k], texts[k])
  }

  /** Each field and a zero byte after it. */
  ghost function Framing(fields: seq<bytes>): bytes {
    if fields == [] then [] else fields[0] + [0] + Framing(fields[1..])
  }

  ghost predicate IsFed(b: bytes, entries: seq<Entry>)
    decreases |entries|
  {
    if entries == [] then b == []
    else exists fields, rest ::
      AreFields(fields, entries[0]) && b == Framing(fields) + rest && IsFed(rest, entries[1..])
  }

  lemma EntryIsFed(e: Entry)
    ensures AreFields(
      [Encode(e.path), Encode(KindText(e.kind)), Encode(OrEmpty(e.mode)), Encode(OrEmpty(e.content))], e)
    ensures EntryBytes(e) == Framing(
      [Encode(e.path), Encode(KindText(e.kind)), Encode(OrEmpty(e.mode)), Encode(OrEmpty(e.content))])
  {
    hide Encode, IsUtf8;
    var texts := [e.path, KindText(e.kind), OrEmpty(e.mode), OrEmpty(e.content)];
    var fields := [Encode(texts[0]), Encode(texts[1]), Encode(texts[2]), Encode(texts[3])];
    forall k | 0 <= k < 4 ensures IsUtf8(fields[k], texts[k]) { EncodeExactly(fields[k], texts[k]); }
    forall other | AreTexts(other, e) ensures other == texts { }
    FramingOfFour(fields[0], fields[1], fields[2], fields[3]);
  }

  lemma FramingOfFour(a: bytes, b: bytes, c: bytes, d: bytes)
    ensures Framing([a, b, c, d]) == (a + [0]) + ((b + [0]) + ((c + [0]) + (d + [0])))
  {
    assert [a, b, c, d][1..] == [b, c, d] && [b, c, d][1..] == [c, d] && [c, d][1..] == [d] && [d][1..] == [];
    assert Framing([d]) == d + [0] + [] == d + [0];
    assert Framing([c, d]) == (c + [0]) + Framing([d]);
    assert Framing([b, c, d]) == (b + [0]) + Framing([c, d]);
  }

  lemma {:induction false} StreamIsFed(entries: seq<Entry>)
    ensures IsFed(Stream(entries), entries)
  {
    hide AreFields, EntryBytes, Framing, Encode, KindText;
    if entries != [] {
      EntryIsFed(entries[0]);
      StreamIsFed(entries[1..]);
    }
  }

  /** `fingerprint`: `sha` is the hexadecimal digest of the bytes fed so far. */
  method Fingerprint(sha: bytes -> string, snapshot: Snapshot) returns (r: string)
    ensures r == sha(Stream(snapshot.entries)) && IsFed(Stream(snapshot.entries), snapshot.entries)
  {
    hide Encode, EntryBytes, KindText, OrEmpty, Stream, IsFed;
    NothingFed();
    StreamIsFed(snapshot.entries);
    var fed: bytes := [];
    for i := 0 to |snapshot.entries|
      invariant fed == Stream(snapshot.entries[..i])
    {
      var e := snapshot.entries[i];
      assert snapshot.entries[..i + 1] == snapshot.entries[..i] + [e];
      StreamSnoc(snapshot.entries[..i], e);
      ghost var before := fed;
      fed := fed + Encode(e.path);
      fed := fed + [0];
      fed := fed + Encode(KindText(e.kind));
      fed := fed + [0];
      fed := fed + Encode(OrEmpty(e.mode));
      fed := fed + [0];
      fed := fed + Encode(OrEmpty(e.content));
      fed := fed + [0];
      FedInTurn(before, e);
    }
    assert snapshot.entries[..|snapshot.entries|] == snapshot.entries;
    r := sha(fed);
  }

  /** `CandidateIdentity.from_snapshot`. */
  function IdentityOf(sha: bytes -> string, s: Snapshot): Identity {
    Identity(s.baseline, sha(Stream(s.entries)))
  }

  // -- the stream determines the entries ------------------------------------

  predicate NulFree(s: string) { '\0' !in s }

  /** No field of the entry contains the NUL that ends fields. */
  predicate Framed(e: Entry) {
    NulFree(e.path) && NulFree(OrEmpty(e.mode)) && NulFree(OrEmpty(e.content))
  }

  ghost predicate AllFramed(entries: seq<Entry>) {
    forall i | 0 <= i < |entries| :: ValidEntry(entries[i]) && Framed(entries[i])
  }

  lemma FirstZero(x: bytes, y: bytes, x': bytes, y': bytes)
    requires 0 !in x && 0 !in x' && x + [0] + y == x' + [0] + y'
    ensures x == x' && y == y'
  {
    var s, s' := x + [0] + y, x' + [0] + y';
    assert s[|x|] == 0 && s'[|x'|] == 0;
    assert forall k | 0 <= k < |x| :: s[k] == x[k];
    assert forall k | 0 <= k < |x'| :: s'[k] == x'[k];
    assert |x| == |x'|;
    assert x == s[..|x|] && x' == s'[..|x'|];
    assert y == s[|x| + 1..] && y' == s'[|x'| + 1..];
  }

  lemma FieldThenRest(a: string, y: bytes, b: string, y': bytes)
    requires NulFree(a) && NulFree(b) && Field(a) + y == Field(b) + y'
    ensures a == b && y == y'
  {
    ZeroIsNul(a);
    ZeroIsNul(b);
    FirstZero(Encode(a), y, Encode(b), y');
    EncodeIsInjective(a, b);
  }

  lemma EntryThenRest(e: Entry, y: bytes, f: Entry, y': bytes)
    requires ValidEntry(e) && ValidEntry(f) && Framed(e) && Framed(f)
    requires EntryBytes(e) + y == EntryBytes(f) + y'
    ensures e == f && y == y'
  {
    hide Field;
    var k, m, c := Field(KindText(e.kind)), Field(OrEmpty(e.mode)), Field(OrEmpty(e.content));
    var k', m', c' := Field(KindText(f.kind)), Field(OrEmpty(f.mode)), Field(OrEmpty(f.content));
    assert Field(e.path) + (k + (m + (c + y))) == EntryBytes(e) + y;
    assert Field(f.path) + (k' + (m' + (c' + y'))) == EntryBytes(f) + y';
    FieldThenRest(e.path, k + (m + (c + y)), f.path, k' + (m' + (c' + y')));
    FieldThenRest(KindText(e.kind), m + (c + y), KindText(f.kind), m' + (c' + y'));
    FieldThenRest(OrEmpty(e.mode), c + y, OrEmpty(f.mode), c' + y');
    FieldThenRest(OrEmpty(e.content), y, OrEmpty(f.content), y');
    KindsDiffer(e.kind, f.kind);
  }

  lemma KindsDiffer(k: Kind, m: Kind)
    ensures KindText(k) == KindText(m) ==> k == m
  {
    assert KindText(k)[0] == KindText(m)[0] ==> k == m;
  }

  /** Equal byte streams come from equal entry lists, as long as no field contains NUL. */
  lemma {:induction false} StreamIsInjective(a: seq<Entry>, b: seq<Entry>)
    requires AllFramed(a) && AllFramed(b) && Stream(a) == Stream(b)
    ensures a == b
  {
    hide EntryBytes;
    if a != [] && b != [] {
      EntryThenRest(a[0], Stream(a[1..]), b[0], Stream(b[1..]));
      StreamIsInjective(a[1..], b[1..]);
      assert a == [a[0]] + a[1..] && b == [b[0]] + b[1..];
    } else if a != [] {
      EntryIsSomething(a[0]);
    } else if b != [] {
      EntryIsSomething(b[0]);
    }
  }

  lemma EntryIsSomething(e: Entry)
    ensures EntryBytes(e) != []
  {
  }

  /** Same baseline and same entries give the same identity, and two different candidates with one identity would
      be a collision of the hash. */
  lemma IdentityIsTheCandidate(sha: bytes -> string, s: Snapshot, t: Snapshot)
    requires AllFramed(s.entries) && AllFramed(t.entries)
    ensures s == t ==> IdentityOf(sha, s) == IdentityOf(sha, t)
    ensures IdentityOf(sha, s) == IdentityOf(sha, t) && s != t ==>
      Stream(s.entries) != Stream(t.entries) && sha(Stream(s.entries)) == sha(Stream(t.entries))
  {
    if Stream(s.entries) == Stream(t.entries) { StreamIsInjective(s.entries, t.entries); }
  }

  /** With a NUL in a path the framing is not injective: whatever the fields, one entry can spell two. */
  lemma NulPathCollides(e: Entry, f: Entry)
    requires ValidEntry(e) && ValidEntry(f) && e.kind == f.kind && e.mode == f.mode && e.content == f.content
    ensures
      var one := e.(path := e.path + "\0" + KindText(e.kind) + "\0" + OrEmpty(e.mode) + "\0" + OrEmpty(e.content)
        + "\0" + f.path);
      ValidEntry(one) && Stream([one]) == Stream([e, f])
  {
    hide KindText, OrEmpty, Encode;
    var k, m, c := KindText(e.kind), OrEmpty(e.mode), OrEmpty(e.content);
    var one := e.(path := e.path + "\0" + k + "\0" + m + "\0" + c + "\0" + f.path);
    assert one.path == e.path + ("\0" + (k + ("\0" + (m + ("\0" + (c + ("\0" + f.path)))))));
    EncodeNul(e.path, k + ("\0" + (m + ("\0" + (c + ("\0" + f.path))))));
    EncodeNul(k, m + ("\0" + (c + ("\0" + f.path))));
    EncodeNul(m, c + ("\0" + f.path));
    EncodeNul(c, f.path);
    Spelled(e, f, one);
  }

  lemma Spelled(e: Entry, f: Entry, one: Entry)
    requires e.kind == f.kind == one.kind && e.mode == f.mode == one.mode && e.content == f.content == one.content
    requires
      Encode(one.path) == Field(e.path) + (Field(KindText(e.kind)) + (Field(OrEmpty(e.mode))
        + (Field(OrEmpty(e.content)) + Encode(f.path))))
    ensures Stream([one]) == Stream([e, f])
  {
    hide KindText, OrEmpty, Encode;
    OneEntry(one);
    OneEntry(f);
    var a, k, m, c := Field(e.path), Field(KindText(e.kind)), Field(OrEmpty(e.mode)), Field(OrEmpty(e.content));
    assert [e, f][1..] == [f];
    calc {
      EntryBytes(one);
      (a + (k + (m + (c + Encode(f.path))))) + [0] + (k + (m + c));
      (a + (k + (m + c))) + ((Encode(f.path) + [0]) + (k + (m + c)));
      EntryBytes(e) + EntryBytes(f);
    }
  }

  lemma OneEntry(e: Entry)
    ensures Stream([e]) == EntryBytes(e)
  {
    hide EntryBytes;
    assert [e][1..] == [];
    assert EntryBytes(e) + [] == EntryBytes(e);
  }

  lemma EncodeNul(s: string, t: string)
    ensures Encode(s + ("\0" + t)) == Field(s) + Encode(t)
  {
    EncodeConcat(s, "\0" + t);
    assert ("\0" + t)[1..] == t;
    assert Encode("\0" + t) == [0] + Encode(t);
    hide Encode;
    assert Encode(s) + ([0] + Encode(t)) == (Encode(s) + [0]) + Encode(t);
  }

  lemma {:induction false} EncodeConcat(s: string, t: string)
    ensures Encode(s + t) == Encode(s) + Encode(t)
  {
    hide EncodeChar;
    if s == "" {
      assert s + t == t;
    } else {
      assert (s + t)[1..] == s[1..] + t;
      EncodeConcat(s[1..], t);
    }
  }
}
