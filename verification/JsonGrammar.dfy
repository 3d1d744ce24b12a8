/** The grammar of JSON texts (RFC 8259), by how a text is put together: which texts stand for which value. Lone
    surrogates stand for none. */
module JsonGrammar {
  import opened Json

  /** Section 2. */
  predicate IsGap(s: string) { forall k | 0 <= k < |s| :: s[k] as int in {0x20, 0x09, 0x0A, 0x0D} }

  // -- strings: section 7 ---------------------------------------------------

  predicate IsHex(c: char, n: nat) {
    n < 16 && (c == "0123456789abcdef"[n] || c == "0123456789ABCDEF"[n])
  }

  /** A backslash, a `u` and four hexadecimal digits. */
  ghost predicate IsUnit(s: string, n: nat) {
    && |s| == 6 && s[0] == '\\' && s[1] == 'u'
    && exists a: nat, b: nat, c: nat, d: nat ::
         IsHex(s[2], a) && IsHex(s[3], b) && IsHex(s[4], c) && IsHex(s[5], d) && n == 4096 * a + 256 * b + 16 * c + d
  }

  /** A character outside the basic plane is written as two surrogates. */
  ghost predicate IsPair(s: string, c: char) {
    |s| == 12 && exists high: nat, low: nat ::
      && IsUnit(s[..6], high) && IsUnit(s[6..], low) && 0xD800 <= high < 0xDC00 <= low < 0xE000
      && c as int == 0x10000 + (high - 0xD800) * 0x400 + (low - 0xDC00)
  }

  ghost predicate SpellsChar(s: string, c: char) {
    || (s == [c] && c as int >= 0x20 && c != '\"' && c != '\\')
    || (|s| == 2 && s[0] == '\\'
        && (s[1], c as int) in {('\"', 0x22), ('\\', 0x5C), ('/', 0x2F), ('b', 0x08), ('f', 0x0C), ('n', 0x0A),
                                ('r', 0x0D), ('t', 0x09)})
    || IsUnit(s, c as int)
    || IsPair(s, c)
  }

  /** What stands between the quotes. */
  ghost predicate SpellsText(s: string, text: string)
    decreases |text|
  {
    if text == "" then s == ""
    else exists n: nat :: n <= |s| && SpellsChar(s[..n], text[0]) && SpellsText(s[n..], text[1..])
  }

  ghost predicate IsString(s: string, text: string) {
    |s| >= 2 && s[0] == '\"' && s[|s| - 1] == '\"' && SpellsText(s[1..|s| - 1], text)
  }

  // -- values: sections 3 to 6 ----------------------------------------------

  ghost predicate Denotes(s: string, j: JSON)
    decreases |s|, 0
  {
    match j
    case Null => s == "null"
    case Bool(b) => s == if b then "true" else "false"
    case Num(literal) => s == literal && IsNumber(s)
    case Str(text) => IsString(s, text)
    case Arr(items) =>
      && |s| >= 2 && s[0] == '[' && s[|s| - 1] == ']'
      && if items == [] then IsGap(s[1..|s| - 1]) else DenoteItems(s[1..|s| - 1], items)
    case Obj(members) =>
      && |s| >= 2 && s[0] == '{' && s[|s| - 1] == '}'
      && exists pairs: seq<(string, JSON)> ::
           Collected(map[], pairs) == members && DenotePairs(s[1..|s| - 1], pairs)
  }

  /** A value with white space around it. */
  ghost predicate DenotesSpaced(s: string, j: JSON)
    decreases |s|, 1
  {
    exists a: nat, b: nat :: a <= b <= |s| && IsGap(s[..a]) && IsGap(s[b..]) && Denotes(s[a..b], j)
  }

  ghost predicate DenoteItems(s: string, items: seq<JSON>)
    requires items != []
    decreases |s|, 2
  {
    if |items| == 1 then DenotesSpaced(s, items[0])
    else exists n: nat ::
      n < |s| && s[n] == ',' && DenotesSpaced(s[..n], items[0]) && DenoteItems(s[n + 1..], items[1..])
  }

  ghost predicate IsName(s: string, key: string) {
    exists a: nat, b: nat :: a <= b <= |s| && IsGap(s[..a]) && IsGap(s[b..]) && IsString(s[a..b], key)
  }

  ghost predicate DenotesMember(s: string, pair: (string, JSON))
    decreases |s|, 2
  {
    exists n: nat :: n < |s| && s[n] == ':' && IsName(s[..n], pair.0) && DenotesSpaced(s[n + 1..], pair.1)
  }

  ghost predicate DenotePairs(s: string, pairs: seq<(string, JSON)>)
    decreases |s|, 3
  {
    if pairs == [] then IsGap(s)
    else if |pairs| == 1 then DenotesMember(s, pairs[0])
    else exists n: nat ::
      n < |s| && s[n] == ',' && DenotesMember(s[..n], pairs[0]) && DenotePairs(s[n + 1..], pairs[1..])
  }

  /** The members in order; a repeated key keeps its last value. */
  ghost function Collected(read: map<string, JSON>, pairs: seq<(string, JSON)>): map<string, JSON>
    decreases |pairs|
  {
    if pairs == [] then read else Collected(read[pairs[0].0 := pairs[0].1], pairs[1..])
  }
}

/** `json.loads` reads exactly the JSON texts. */
module JsonGrammarProperties {
  import opened Wrappers
  import opened Json
  import opened JsonProperties
  import opened JsonGrammar

  // -- white space ----------------------------------------------------------

  lemma GapIsSpace(s: string)
    ensures IsGap(s) <==> AllSpace(s)
  {
    assert forall c: char :: Space(c) <==> c as int in {0x20, 0x09, 0x0A, 0x0D};
  }

  lemma NoGap()
    ensures AllSpace("") && IsGap("")
  {
  }

  /** What is skipped is a gap. */
  lemma {:induction false} SkippedIsGap(s: string)
    ensures var k := |s| - |SkipSpace(s)|; s[k..] == SkipSpace(s) && AllSpace(s[..k])
  {
    if s != "" && Space(s[0]) {
      SkippedIsGap(s[1..]);
      var k := |s[1..]| - |SkipSpace(s[1..])|;
      assert s[k + 1..] == s[1..][k..] && s[..k + 1] == [s[0]] + s[1..][..k];
    }
  }

  lemma NothingSkipped(s: string)
    requires s != "" && !Space(s[0])
    ensures SkipSpace(s) == s
  {
  }

  lemma SkippedAfter(s: string, i: nat) returns (a: nat)
    requires i <= |s|
    ensures i <= a <= |s| && s[a..] == SkipSpace(s[i..]) && AllSpace(s[i..a])
  {
    hide SkipSpace, AllSpace;
    SkippedIsGap(s[i..]);
    a := |s| - |SkipSpace(s[i..])|;
    assert s[a..] == s[i..][a - i..] && s[i..a] == s[i..][..a - i];
  }

  // -- strings --------------------------------------------------------------

  lemma HexExactly(c: char, n: nat)
    ensures IsHex(c, n) <==> HexValue(c) == Some(n)
  {
  }

  /** Four hexadecimal digits, after `\u`. */
  lemma UnitExactly(s: string, n: nat)
    requires |s| == 4
    ensures IsUnit("\\u" + s, n) <==> Unhex4(s) == Some(n)
  {
    hide HexValue, IsHex;
    var t := "\\u" + s;
    assert t[2] == s[0] && t[3] == s[1] && t[4] == s[2] && t[5] == s[3];
    forall k, v: nat | 0 <= k < 4 ensures IsHex(s[k], v) <==> HexValue(s[k]) == Some(v) { HexExactly(s[k], v); }
    if IsUnit(t, n) {
      var a: nat, b: nat, c: nat, d: nat :|
        IsHex(t[2], a) && IsHex(t[3], b) && IsHex(t[4], c) && IsHex(t[5], d) && n == 4096 * a + 256 * b + 16 * c + d;
      HexIsSmall(s[0], a);
      HexIsSmall(s[1], b);
      HexIsSmall(s[2], c);
      HexIsSmall(s[3], d);
      assert HexValue(s[0]) == Some(a) && HexValue(s[1]) == Some(b) && HexValue(s[2]) == Some(c)
        && HexValue(s[3]) == Some(d);
    }
    if Unhex4(s) == Some(n) {
      var a, b, c, d := HexValue(s[0]).value, HexValue(s[1]).value, HexValue(s[2]).value, HexValue(s[3]).value;
      assert IsHex(t[2], a) && IsHex(t[3], b) && IsHex(t[4], c) && IsHex(t[5], d);
    }
  }

  lemma HexIsSmall(c: char, n: nat)
    requires IsHex(c, n)
    ensures n < 16
  {
  }

  lemma Unhex4Local(s: string, t: string)
    requires |s| == 4
    ensures Unhex4(s + t) == Unhex4(s)
  {
  }

  /** Reading an escape is reading what it spells. */
  lemma ScanSpelledEscape(s: string, c: char, t: string)
    requires SpellsChar(s, c) && s != "" && s[0] == '\\'
    ensures ScanEscape(s[1..] + t) == Got(c, t)
  {
    hide IsUnit, IsPair, Unhex4;
    var u := s[1..] + t;
    if |s| == 2 {
      ShortEscape(s, c);
      assert u[0] == s[1] && u[1..] == t;
    } else if IsUnit(s, c as int) {
      UnitStarts(s, c as int);
      assert u[1..] == s[2..] + t && u[5..] == t;
      assert s == "\\u" + s[2..];
      UnitExactly(s[2..], c as int);
      Unhex4Local(s[2..], t);
    } else {
      ScanSpelledPair(s, c, t);
    }
  }

  lemma ShortEscape(s: string, c: char)
    requires SpellsChar(s, c) && |s| == 2
    ensures s[1] != 'u' && Unescaped(s[1]) == Some(c)
  {
  }

  lemma UnitStarts(s: string, n: nat)
    requires IsUnit(s, n)
    ensures |s| == 6 && s[0] == '\\' && s[1] == 'u' && n < 0x10000
  {
    hide IsHex;
    var a: nat, b: nat, c: nat, d: nat :|
      IsHex(s[2], a) && IsHex(s[3], b) && IsHex(s[4], c) && IsHex(s[5], d) && n == 4096 * a + 256 * b + 16 * c + d;
    HexIsSmall(s[2], a);
    HexIsSmall(s[3], b);
    HexIsSmall(s[4], c);
    HexIsSmall(s[5], d);
  }

  lemma ScanSpelledPair(s: string, c: char, t: string)
    requires IsPair(s, c)
    ensures ScanEscape(s[1..] + t) == Got(c, t)
  {
    hide IsUnit, Unhex4;
    var high: nat, low: nat :|
      && IsUnit(s[..6], high) && IsUnit(s[6..], low) && 0xD800 <= high < 0xDC00 <= low < 0xE000
      && c as int == 0x10000 + (high - 0xD800) * 0x400 + (low - 0xDC00);
    var u := s[1..] + t;
    UnitStarts(s[..6], high);
    UnitStarts(s[6..], low);
    assert s[..6] == "\\u" + s[2..6] && s[6..] == "\\u" + s[8..];
    assert s[0] == s[..6][0] && s[1] == s[..6][1] && s[6] == s[6..][0] && s[7] == s[6..][1];
    UnitExactly(s[2..6], high);
    UnitExactly(s[8..], low);
    assert u[1..] == s[2..6] + (s[6..] + t) && u[7..] == s[8..] + t && u[11..] == t;
    Unhex4Local(s[2..6], s[6..] + t);
    Unhex4Local(s[8..], t);
  }

  lemma ScanSpelledChar(s: string, c: char, t: string)
    requires SpellsChar(s, c)
    ensures s != "" && ScanString(s + t) == Push(c, ScanString(t))
  {
    hide ScanEscape, IsUnit, IsPair;
    if IsUnit(s, c as int) { UnitStarts(s, c as int); }
    if IsPair(s, c) { PairStarts(s, c); }
    if s[0] == '\\' {
      ScanSpelledEscape(s, c, t);
      assert (s + t)[1..] == s[1..] + t;
    } else {
      assert (s + t)[1..] == t;
    }
  }

  lemma PairStarts(s: string, c: char)
    requires IsPair(s, c)
    ensures |s| == 12 && s[0] == '\\'
  {
    hide IsUnit;
    var high: nat, low: nat :|
      && IsUnit(s[..6], high) && IsUnit(s[6..], low) && 0xD800 <= high < 0xDC00 <= low < 0xE000
      && c as int == 0x10000 + (high - 0xD800) * 0x400 + (low - 0xDC00);
    UnitStarts(s[..6], high);
    assert s[0] == s[..6][0];
  }

  lemma ScanClosingQuote(t: string)
    ensures ScanString("\"" + t) == Got("", t)
  {
    assert ("\"" + t)[1..] == t;
  }

  lemma {:induction false} ScanSpelled(s: string, text: string, t: string)
    requires SpellsText(s, text)
    ensures ScanString(s + ("\"" + t)) == Got(text, t)
    decreases |text|
  {
    hide SpellsChar, ScanString;
    if text == "" {
      assert s + ("\"" + t) == "\"" + t;
      ScanClosingQuote(t);
    } else {
      var n: nat :| n <= |s| && SpellsChar(s[..n], text[0]) && SpellsText(s[n..], text[1..]);
      hide SpellsText;
      ScanSpelled(s[n..], text[1..], t);
      assert s + ("\"" + t) == s[..n] + (s[n..] + ("\"" + t));
      ScanSpelledChar(s[..n], text[0], s[n..] + ("\"" + t));
      assert text == [text[0]] + text[1..];
    }
  }

  /** What reading an escape takes spells its character. */
  lemma ScannedEscape(s: string)
    requires ScanEscape(s).Got?
    ensures var r := ScanEscape(s); var k := |s| - |r.rest|;
      0 < k <= |s| && s[k..] == r.rest && SpellsChar("\\" + s[..k], r.value)
  {
    hide Unhex4, IsUnit;
    var r := ScanEscape(s);
    if s[0] != 'u' {
      assert ("\\" + s[..1])[1] == s[0];
    } else {
      var n := Unhex4(s[1..]).value;
      Unhex4First(s[1..]);
      UnitExactly(s[1..5], n);
      assert s[1..][..4] == s[1..5] && "\\" + s[..5] == "\\u" + s[1..5];
      if 0xD800 <= n < 0xE000 {
        var low := Unhex4(s[7..]).value;
        Unhex4First(s[7..]);
        UnitExactly(s[7..11], low);
        assert s[7..][..4] == s[7..11];
        var t := "\\" + s[..11];
        assert t[..6] == "\\u" + s[1..5] && t[6..] == "\\u" + s[7..11];
        assert IsPair(t, r.value);
      }
    }
  }

  lemma Unhex4First(s: string)
    requires |s| >= 4
    ensures Unhex4(s[..4]) == Unhex4(s)
  {
  }

  /** A scan has read what spells its text, and the closing quote. */
  ghost predicate Scanned(s: string, r: Scan<string>) {
    && r.Got?
    && var k := |s| - |r.rest|;
       0 < k && s[k..] == r.rest && s[k - 1] == '\"' && SpellsText(s[..k - 1], r.value)
  }

  lemma {:induction false} ScannedString(s: string)
    requires ScanString(s).Got?
    ensures Scanned(s, ScanString(s))
    decreases |s|
  {
    hide ScanEscape, SpellsChar, SpellsText, Scanned;
    if s[0] == '\"' {
      ScannedQuote(s);
    } else if s[0] == '\\' {
      var e := ScanEscape(s[1..]);
      ScannedEscape(s[1..]);
      var n := |s| - |e.rest|;
      assert s[1..][..n - 1] == s[1..n] && "\\" + s[1..n] == s[..n] && s[n..] == e.rest == s[1..][n - 1..];
      ScannedString(s[n..]);
      SpelledOneMore(s, n, e.value, ScanString(s[n..]));
    } else {
      ScannedString(s[1..]);
      PlainSpells(s[0]);
      assert s[..1] == [s[0]];
      SpelledOneMore(s, 1, s[0], ScanString(s[1..]));
    }
  }

  lemma PlainSpells(c: char)
    requires c != '\"' && c != '\\' && !(c < ' ')
    ensures SpellsChar([c], c)
  {
  }

  lemma ScannedQuote(s: string)
    requires s != "" && s[0] == '\"'
    ensures Scanned(s, Got("", s[1..]))
  {
  }

  /** A character and then what a scan has read. */
  lemma SpelledOneMore(s: string, n: nat, c: char, r: Scan<string>)
    requires n <= |s| && SpellsChar(s[..n], c) && Scanned(s[n..], r)
    ensures Scanned(s, Push(c, r))
  {
    hide SpellsChar, SpellsText;
    var k := |s| - |r.rest|;
    assert s[k..] == s[n..][k - n..];
    assert s[..k - 1][..n] == s[..n] && s[..k - 1][n..] == s[n..][..k - n - 1];
    SpellsCons(s[..k - 1], n, c, r.value);
  }

  lemma SpellsCons(s: string, n: nat, c: char, text: string)
    requires n <= |s| && SpellsChar(s[..n], c) && SpellsText(s[n..], text)
    ensures SpellsText(s, [c] + text)
  {
    hide SpellsChar;
    assert ([c] + text)[1..] == text;
  }

  // -- what is read is a JSON text ------------------------------------------

  /** What a scan of `s` has read: everything before the rest. */
  ghost function Read<T>(s: string, r: Scan<T>): string
    requires r.Got? && |r.rest| <= |s|
  {
    s[..|s| - |r.rest|]
  }

  /** The rest is the end of the input. */
  ghost predicate Ends<T>(s: string, r: Scan<T>) {
    r.Got? && |r.rest| <= |s| && s[|s| - |r.rest|..] == r.rest
  }

  lemma EndsAt<T>(s: string, r: Scan<T>, k: nat)
    requires r.Got? && k <= |s| && s[k..] == r.rest
    ensures Ends(s, r) && Read(s, r) == s[..k]
  {
  }

  lemma Slices(s: string, a: nat, n: nat)
    requires a + n <= |s|
    ensures s[a..][..n] == s[..a + n][a..] && s[..a + n][..a] == s[..a] && s[a..][n..] == s[a + n..]
    ensures a + n < |s| ==> s[a..][n] == s[a + n] && s[a..][n + 1..] == s[a + n + 1..]
  {
  }

  /** A bracket at the start of `s`, and `n` characters of `u` before the closing one. */
  lemma Enclosed(s: string, a: nat, u: string, n: nat)
    requires 0 < a <= |s| && s[a..] == u && n < |u|
    ensures a + n < |s| && s[a + n] == u[n] && s[a + n + 1..] == u[n + 1..]
    ensures s[..a + n + 1][0] == s[0] && s[..a + n + 1][1..a + n] == s[1..a + n]
    ensures s[1..a + n][..a - 1] == s[1..a] && s[1..a + n][a - 1..] == u[..n]
  {
  }

  lemma StringIsRead(s: string)
    requires s != "" && s[0] == '\"' && ScanString(s[1..]).Got?
    ensures var r := ScanString(s[1..]); Ends(s, r) && IsString(Read(s, r), r.value)
  {
    hide ScanString, SpellsText;
    var r := ScanString(s[1..]);
    ScannedString(s[1..]);
    var n := |s| - |r.rest|;
    assert s[..n][1..n - 1] == s[1..][..n - 2] && s[1..][n - 1..] == s[n..] && s[1..][n - 2] == s[n - 1];
  }

  lemma NumberIsRead(s: string)
    requires NumberLength(s) > 0
    ensures Denotes(s[..NumberLength(s)], Num(s[..NumberLength(s)]))
  {
    hide NumberLength, IsNumber;
    NumberExactly(s);
  }

  lemma WordIsRead(s: string, word: string)
    requires StartsWith(s, word) && word in ["null", "true", "false"]
    ensures Denotes(s[..|word|], if word == "null" then Null else Bool(word == "true"))
  {
  }

  /** A gap before a value or after it, or before items or members, changes nothing. */
  lemma SpacedIs(s: string, j: JSON, a: nat, b: nat)
    requires a <= b <= |s| && AllSpace(s[..a]) && AllSpace(s[b..]) && Denotes(s[a..b], j)
    ensures DenotesSpaced(s, j)
  {
    hide Denotes;
    GapIsSpace(s[..a]);
    GapIsSpace(s[b..]);
  }

  lemma {:induction false} ValueIsRead(s: string)
    requires ScanValue(s).Got?
    ensures Ends(s, ScanValue(s)) && Denotes(Read(s, ScanValue(s)), ScanValue(s).value)
    decreases |s|, 1
  {
    hide NumberLength, ScanString, ScanObject, ScanArray, IsString, DenoteItems, DenotePairs, IsNumber, Collected;
    var r := ScanValue(s);
    if s[0] == '\"' {
      StringIsRead(s);
    } else if s[0] == '{' {
      ObjectIsRead(s);
    } else if s[0] == '[' {
      ArrayIsRead(s);
    } else if StartsWith(s, "null") {
      WordIsRead(s, "null");
    } else if StartsWith(s, "true") {
      WordIsRead(s, "true");
    } else if StartsWith(s, "false") {
      WordIsRead(s, "false");
    } else {
      NumberIsRead(s);
    }
  }

  lemma {:induction false} ArrayIsRead(s: string)
    requires s != "" && s[0] == '[' && ScanArray(s[1..]).Got?
    ensures var r := ScanArray(s[1..]); Ends(s, r) && Denotes(Read(s, r), r.value)
    decreases |s|, 0
  {
    hide ScanItems, DenoteItems, IsGap, AllSpace, SkipSpace, Denotes, Ends;
    var r, u := ScanArray(s[1..]), SkipSpace(s[1..]);
    var a := SkippedAfter(s, 1);
    if u != "" && u[0] == ']' {
      Enclosed(s, a, u, 0);
      GapIsSpace(s[1..a]);
      ArrayIs(s[..a + 1], []);
      EndsAt(s, r, a + 1);
    } else {
      var items, n := ItemsAreRead(u, []);
      assert [] + items == items;
      Enclosed(s, a, u, n);
      ItemsPadded(s[1..a + n], a - 1, items);
      ArrayIs(s[..a + n + 1], items);
      EndsAt(s, r, a + n + 1);
    }
  }

  lemma ArrayIs(s: string, items: seq<JSON>)
    requires |s| >= 2 && s[0] == '[' && s[|s| - 1] == ']'
    requires if items == [] then IsGap(s[1..|s| - 1]) else DenoteItems(s[1..|s| - 1], items)
    ensures Denotes(s, Arr(items))
  {
    hide DenoteItems, IsGap;
  }

  lemma ItemsPadded(s: string, a: nat, items: seq<JSON>)
    requires a <= |s| && AllSpace(s[..a]) && items != [] && DenoteItems(s[a..], items)
    ensures DenoteItems(s, items)
  {
    hide DenotesSpaced, AllSpace, DenoteItems;
    if |items| == 1 {
      assert items == [items[0]];
      OneItem(s[a..], items[0]);
      SpacedPadded(s, a, items[0]);
      OneItem(s, items[0]);
    } else {
      var n := FirstItem(s[a..], items);
      Slices(s, a, n);
      SpacedPadded(s[..a + n], a, items[0]);
      ItemsThen(s, a + n, items);
    }
  }

  lemma FirstItem(s: string, items: seq<JSON>) returns (n: nat)
    requires |items| > 1 && DenoteItems(s, items)
    ensures n < |s| && s[n] == ',' && DenotesSpaced(s[..n], items[0]) && DenoteItems(s[n + 1..], items[1..])
  {
    hide DenotesSpaced;
    n :| n < |s| && s[n] == ',' && DenotesSpaced(s[..n], items[0]) && DenoteItems(s[n + 1..], items[1..]);
  }

  lemma ItemsThen(s: string, n: nat, items: seq<JSON>)
    requires |items| > 1 && n < |s| && s[n] == ',' && DenotesSpaced(s[..n], items[0])
    requires DenoteItems(s[n + 1..], items[1..])
    ensures DenoteItems(s, items)
  {
    hide DenotesSpaced;
  }

  lemma SpacedPadded(s: string, a: nat, j: JSON)
    requires a <= |s| && AllSpace(s[..a]) && DenotesSpaced(s[a..], j)
    ensures DenotesSpaced(s, j)
  {
    hide Denotes, AllSpace, IsGap;
    var t := s[a..];
    var b: nat, c: nat :| b <= c <= |t| && IsGap(t[..b]) && IsGap(t[c..]) && Denotes(t[b..c], j);
    hide DenotesSpaced;
    GapIsSpace(t[..b]);
    GapIsSpace(t[c..]);
    assert t[b..c] == s[a + b..a + c] && t[c..] == s[a + c..] && s[..a + b] == s[..a] + t[..b];
    SpaceConcat(s[..a], t[..b]);
    SpacedIs(s, j, a + b, a + c);
  }

  lemma SpaceConcat(s: string, t: string)
    requires AllSpace(s) && AllSpace(t)
    ensures AllSpace(s + t)
  {
  }

  /** The value at the start of `s` and the gap after it. */
  lemma {:induction false} SpacedIsRead(s: string) returns (n: nat)
    requires ScanValue(s).Got?
    ensures var next := SkipSpace(ScanValue(s).rest);
      n <= |s| && s[n..] == next && DenotesSpaced(s[..n], ScanValue(s).value)
    decreases |s|, 2
  {
    hide ScanValue, Denotes, AllSpace, SkipSpace;
    var r := ScanValue(s);
    ValueIsRead(s);
    var b := |s| - |r.rest|;
    n := SkippedAfter(s, b);
    assert s[..n][b..] == s[b..n] && s[..n][0..b] == s[..b] && s[..n][..0] == "";
    NoGap();
    SpacedIs(s[..n], r.value, 0, b);
  }

  lemma {:induction false} ItemsAreRead(s: string, read: seq<JSON>) returns (items: seq<JSON>, n: nat)
    requires ScanItems(s, read).Got?
    ensures items != [] && ScanItems(s, read).value == Arr(read + items)
    ensures n < |s| && s[n] == ']' && s[n + 1..] == ScanItems(s, read).rest && DenoteItems(s[..n], items)
    decreases |s|, 3
  {
    hide ScanValue, DenotesSpaced, SkipSpace, DenoteItems, AllSpace;
    var value := ScanValue(s).value;
    var m := SpacedIsRead(s);
    assert s[m] == s[m..][0] && s[m..][1..] == s[m + 1..];
    if s[m] == ']' {
      items, n := [value], m;
      OneItem(s[..m], value);
    } else {
      var a := SkippedAfter(s, m + 1);
      assert ScanItems(s, read) == ScanItems(s[a..], read + [value]);
      var more, k := ItemsAreRead(s[a..], read + [value]);
      items, n := [value] + more, a + k;
      assert read + [value] + more == read + items;
      ItemsJoined(s, m, a, k, value, more);
    }
  }

  /** An item, a comma, a gap and more items. */
  lemma ItemsJoined(s: string, m: nat, a: nat, k: nat, item: JSON, more: seq<JSON>)
    requires m < a <= |s| && s[m] == ',' && DenotesSpaced(s[..m], item) && AllSpace(s[m + 1..a])
    requires more != [] && k < |s| - a && DenoteItems(s[a..][..k], more)
    ensures s[a + k] == s[a..][k] && s[a + k + 1..] == s[a..][k + 1..] && DenoteItems(s[..a + k], [item] + more)
  {
    hide DenotesSpaced, DenoteItems, AllSpace;
    Between(s, m, a, k);
    ItemsPadded(s[m + 1..a + k], a - m - 1, more);
    assert ([item] + more)[1..] == more;
    ItemsThen(s[..a + k], m, [item] + more);
  }

  /** What stands around a comma at `m` and a gap from there to `a`. */
  lemma Between(s: string, m: nat, a: nat, k: nat)
    requires m < a <= |s| && k < |s| - a
    ensures s[a + k] == s[a..][k] && s[a + k + 1..] == s[a..][k + 1..]
    ensures s[m + 1..a + k][a - m - 1..] == s[a..][..k] && s[m + 1..a + k][..a - m - 1] == s[m + 1..a]
    ensures s[..a + k][..m] == s[..m] && s[..a + k][m + 1..] == s[m + 1..a + k]
  {
  }

  lemma OneItem(s: string, j: JSON)
    ensures DenoteItems(s, [j]) <==> DenotesSpaced(s, j)
  {
    hide DenotesSpaced;
  }

  lemma {:induction false} ObjectIsRead(s: string)
    requires s != "" && s[0] == '{' && ScanObject(s[1..]).Got?
    ensures var r := ScanObject(s[1..]); Ends(s, r) && Denotes(Read(s, r), r.value)
    decreases |s|, 0
  {
    hide ScanMembers, DenotePairs, IsGap, AllSpace, SkipSpace, Denotes, Ends, Collected;
    var r, u := ScanObject(s[1..]), SkipSpace(s[1..]);
    var a := SkippedAfter(s, 1);
    if u[0] == '}' {
      Enclosed(s, a, u, 0);
      GapIsSpace(s[1..a]);
      NoPairs(s[1..a]);
      ObjectIs(s[..a + 1], [], map[]);
      EndsAt(s, r, a + 1);
    } else {
      var pairs, n := MembersAreRead(u, map[]);
      Enclosed(s, a, u, n);
      PairsPadded(s[1..a + n], a - 1, pairs);
      ObjectIs(s[..a + n + 1], pairs, r.value.members);
      EndsAt(s, r, a + n + 1);
    }
  }

  lemma NoPairs(s: string)
    requires IsGap(s)
    ensures DenotePairs(s, []) && Collected(map[], []) == map[]
  {
  }

  lemma ObjectIs(s: string, pairs: seq<(string, JSON)>, members: map<string, JSON>)
    requires |s| >= 2 && s[0] == '{' && s[|s| - 1] == '}'
    requires DenotePairs(s[1..|s| - 1], pairs) && Collected(map[], pairs) == members
    ensures Denotes(s, Obj(members))
  {
    hide DenotePairs, Collected;
  }

  lemma MemberPadded(s: string, a: nat, pair: (string, JSON))
    requires a <= |s| && AllSpace(s[..a]) && DenotesMember(s[a..], pair)
    ensures DenotesMember(s, pair)
  {
    hide DenotesSpaced, AllSpace, IsName;
    var n: nat :| n < |s[a..]| && s[a..][n] == ':' && IsName(s[a..][..n], pair.0)
      && DenotesSpaced(s[a..][n + 1..], pair.1);
    Slices(s, a, n);
    NamePadded(s[..a + n], a, pair.0);
  }

  lemma NamePadded(s: string, a: nat, key: string)
    requires a <= |s| && AllSpace(s[..a]) && IsName(s[a..], key)
    ensures IsName(s, key)
  {
    hide IsString, AllSpace, IsGap;
    var t := s[a..];
    var b: nat, c: nat :| b <= c <= |t| && IsGap(t[..b]) && IsGap(t[c..]) && IsString(t[b..c], key);
    GapIsSpace(t[..b]);
    assert t[b..c] == s[a + b..a + c] && t[c..] == s[a + c..] && s[..a + b] == s[..a] + t[..b];
    SpaceConcat(s[..a], t[..b]);
    GapIsSpace(s[..a + b]);
  }

  lemma PairsPadded(s: string, a: nat, pairs: seq<(string, JSON)>)
    requires a <= |s| && AllSpace(s[..a]) && pairs != [] && DenotePairs(s[a..], pairs)
    ensures DenotePairs(s, pairs)
  {
    hide DenotesMember, AllSpace, DenotePairs;
    if |pairs| == 1 {
      assert pairs == [pairs[0]];
      OnePair(s[a..], pairs[0]);
      MemberPadded(s, a, pairs[0]);
      OnePair(s, pairs[0]);
    } else {
      var n := FirstPair(s[a..], pairs);
      Slices(s, a, n);
      MemberPadded(s[..a + n], a, pairs[0]);
      PairsThen(s, a + n, pairs);
    }
  }

  lemma FirstPair(s: string, pairs: seq<(string, JSON)>) returns (n: nat)
    requires |pairs| > 1 && DenotePairs(s, pairs)
    ensures n < |s| && s[n] == ',' && DenotesMember(s[..n], pairs[0]) && DenotePairs(s[n + 1..], pairs[1..])
  {
    hide DenotesMember;
    n :| n < |s| && s[n] == ',' && DenotesMember(s[..n], pairs[0]) && DenotePairs(s[n + 1..], pairs[1..]);
  }

  lemma PairsThen(s: string, n: nat, pairs: seq<(string, JSON)>)
    requires |pairs| > 1 && n < |s| && s[n] == ',' && DenotesMember(s[..n], pairs[0])
    requires DenotePairs(s[n + 1..], pairs[1..])
    ensures DenotePairs(s, pairs)
  {
    hide DenotesMember;
  }

  lemma OnePair(s: string, pair: (string, JSON))
    ensures DenotePairs(s, [pair]) <==> DenotesMember(s, pair)
  {
    hide DenotesMember;
  }

  /** The key at the start of `s` and the gap after it. */
  lemma NameIsRead(s: string)
    requires s != "" && s[0] == '\"' && ScanString(s[1..]).Got?
    ensures var colon := SkipSpace(ScanString(s[1..]).rest);
      |colon| <= |s| && s[|s| - |colon|..] == colon && IsName(s[..|s| - |colon|], ScanString(s[1..]).value)
  {
    hide ScanString, IsString, AllSpace, IsGap, SkipSpace;
    var key := ScanString(s[1..]);
    StringIsRead(s);
    var b := |s| - |key.rest|;
    var c := SkippedAfter(s, b);
    assert s[..c][b..] == s[b..c] && s[..c][0..b] == s[..b] && s[..c][..0] == "";
    NoGap();
    NameIs(s[..c], key.value, 0, b);
  }

  /** The value after a gap, and the gap after it. */
  lemma {:induction false} PaddedIsRead(s: string) returns (n: nat)
    requires ScanValue(SkipSpace(s)).Got?
    ensures var value := ScanValue(SkipSpace(s));
      n <= |s| && s[n..] == SkipSpace(value.rest) && DenotesSpaced(s[..n], value.value)
    decreases |s|, 4
  {
    hide ScanValue, DenotesSpaced, AllSpace, SkipSpace;
    var u := SkipSpace(s);
    assert s[0..] == s;
    var d := SkippedAfter(s, 0);
    var m := SpacedIsRead(u);
    n := d + m;
    assert u[m..] == s[n..] && s[..n][d..] == u[..m] && s[..n][..d] == s[..d] == s[0..d];
    SpacedPadded(s[..n], d, ScanValue(u).value);
  }

  /** One member and the gap after it; `s` starts with the opening quote of the key. */
  lemma {:induction false} MemberIsRead(s: string) returns (n: nat)
    requires s != "" && s[0] == '\"' && ScanString(s[1..]).Got?
    requires var colon := SkipSpace(ScanString(s[1..]).rest);
      colon != "" && colon[0] == ':' && ScanValue(SkipSpace(colon[1..])).Got?
    ensures var key := ScanString(s[1..]);
      var value := ScanValue(SkipSpace(SkipSpace(key.rest)[1..]));
      n <= |s| && s[n..] == SkipSpace(value.rest) && DenotesMember(s[..n], (key.value, value.value))
    decreases |s|, 1
  {
    hide ScanValue, ScanString, DenotesSpaced, DenotesMember, SkipSpace, IsName;
    var key := ScanString(s[1..]);
    NameIsRead(s);
    var colon := SkipSpace(key.rest);
    var c := |s| - |colon|;
    assert colon[1..] == s[c + 1..] && s[c] == colon[0];
    var m := PaddedIsRead(s[c + 1..]);
    n := c + 1 + m;
    assert s[n..] == s[c + 1..][m..] && s[..n][..c] == s[..c] && s[..n][c + 1..] == s[c + 1..][..m];
    MemberIs(s[..n], c, (key.value, ScanValue(SkipSpace(colon[1..])).value));
  }

  lemma NameIs(s: string, key: string, a: nat, b: nat)
    requires a <= b <= |s| && AllSpace(s[..a]) && AllSpace(s[b..]) && IsString(s[a..b], key)
    ensures IsName(s, key)
  {
    hide IsString;
    GapIsSpace(s[..a]);
    GapIsSpace(s[b..]);
  }

  lemma MemberIs(s: string, n: nat, pair: (string, JSON))
    requires n < |s| && s[n] == ':' && IsName(s[..n], pair.0) && DenotesSpaced(s[n + 1..], pair.1)
    ensures DenotesMember(s, pair)
  {
    hide IsName, DenotesSpaced;
  }

  lemma {:induction false} MembersAreRead(s: string, read: map<string, JSON>)
    returns (pairs: seq<(string, JSON)>, n: nat)
    requires s != "" && s[0] == '\"' && ScanMembers(s[1..], read).Got?
    ensures pairs != [] && ScanMembers(s[1..], read).value == Obj(Collected(read, pairs))
    ensures n < |s| && s[n] == '}' && s[n + 1..] == ScanMembers(s[1..], read).rest && DenotePairs(s[..n], pairs)
    decreases |s|, 2
  {
    hide ScanValue, ScanString, DenotesMember, SkipSpace, DenotePairs, AllSpace, Collected;
    var m := MemberIsRead(s);
    var key := ScanString(s[1..]);
    var value := ScanValue(SkipSpace(SkipSpace(key.rest)[1..]));
    assert s[m..] == SkipSpace(value.rest) && s[m] == s[m..][0] && s[m..][1..] == s[m + 1..];
    var pair := (key.value, value.value);
    if s[m] == '}' {
      pairs, n := [pair], m;
      CollectedFirst(read, [pair]);
      OnePair(s[..m], pair);
    } else {
      var a := SkippedAfter(s, m + 1);
      assert ScanMembers(s[1..], read) == ScanMembers(s[a..][1..], read[pair.0 := pair.1]);
      var more, k := MembersAreRead(s[a..], read[pair.0 := pair.1]);
      pairs, n := [pair] + more, a + k;
      CollectedFirst(read, pairs);
      PairsJoined(s, m, a, k, pair, more);
    }
  }

  lemma CollectedFirst(read: map<string, JSON>, pairs: seq<(string, JSON)>)
    requires pairs != []
    ensures Collected(read, pairs) == Collected(read[pairs[0].0 := pairs[0].1], pairs[1..])
    ensures |pairs| == 1 ==> Collected(read, pairs) == read[pairs[0].0 := pairs[0].1]
  {
  }

  /** A member, a comma, a gap and more members. */
  lemma PairsJoined(
    s: string, m: nat, a: nat, k: nat, pair: (string, JSON), more: seq<(string, JSON)>)
    requires m < a <= |s| && s[m] == ',' && DenotesMember(s[..m], pair) && AllSpace(s[m + 1..a])
    requires more != [] && k < |s| - a && DenotePairs(s[a..][..k], more)
    ensures s[a + k] == s[a..][k] && s[a + k + 1..] == s[a..][k + 1..] && DenotePairs(s[..a + k], [pair] + more)
  {
    hide DenotesMember, DenotePairs, AllSpace;
    Between(s, m, a, k);
    PairsPadded(s[m + 1..a + k], a - m - 1, more);
    assert ([pair] + more)[1..] == more;
    PairsThen(s[..a + k], m, [pair] + more);
  }

  // -- every JSON text is read ----------------------------------------------

  /** The text starts with something that is no gap. */
  lemma DenotesHead(s: string, j: JSON)
    requires Denotes(s, j)
    ensures s != "" && !Space(s[0]) && s[0] !in ",]}"
  {
    hide IsNumber, NumberLength, DenoteItems, DenotePairs, Collected, SpellsText;
    if j.Num? {
      NumberExactly(s);
      NumberHead(s);
    }
  }

  lemma {:induction false} DenotedIsRead(s: string, j: JSON, t: string)
    requires Denotes(s, j) && Delimits(j, t)
    ensures ScanValue(s + t) == Got(j, t)
    decreases |s|, 0
  {
    hide ScanValue, ScanString, ScanArray, ScanObject, DenoteItems, DenotePairs, Collected, SpellsText, IsNumber;
    match j
    case Null => ScanWord("null", t);
    case Bool(b) => ScanWord(if b then "true" else "false", t);
    case Num(literal) => ScanNumber(literal, t);
    case Str(text) =>
      var body := s[1..|s| - 1];
      BetweenEnds(s, "\"", "\"", t);
      ScanSpelled(body, text, t);
      ScanQuote(body + ("\"" + t), text, t);
    case Arr(items) =>
      var inner := s[1..|s| - 1];
      BetweenEnds(s, "[", "]", t);
      ScanBracket(inner + ("]" + t));
      if items == [] {
        EmptyArrayIsRead(inner, t);
      } else {
        ArrayDenotedIsRead(inner, items, t);
      }
    case Obj(members) =>
      var inner := s[1..|s| - 1];
      BetweenEnds(s, "{", "}", t);
      ScanBrace(inner + ("}" + t));
      var pairs: seq<(string, JSON)> :| Collected(map[], pairs) == members && DenotePairs(inner, pairs);
      ObjectDenotedIsRead(inner, pairs, t);
  }

  lemma BetweenEnds(s: string, open: string, close: string, t: string)
    requires |open| == 1 && |close| == 1 && |s| >= 2 && s[0] == open[0] && s[|s| - 1] == close[0]
    ensures s + t == open + (s[1..|s| - 1] + (close + t))
  {
  }

  lemma EmptyArrayIsRead(gap: string, t: string)
    requires IsGap(gap)
    ensures ScanArray(gap + ("]" + t)) == Got(Arr([]), t)
  {
    hide ScanItems;
    GapIsSpace(gap);
    SkipSpaceOver(gap, "]" + t);
    assert ("]" + t)[1..] == t;
  }

  /** A value with gaps, up to the delimiter after it. */
  lemma {:induction false} SpacedDenotedIsRead(s: string, j: JSON, c: char, t: string)
    requires DenotesSpaced(s, j) && c in ",]}"
    ensures var u := SkipSpace(s + ([c] + t)); var r := ScanValue(u);
      u != "" && u[0] !in ",]}" && r.Got? && r.value == j && SkipSpace(r.rest) == [c] + t
    decreases |s|, 1
  {
    hide ScanValue, Denotes, AllSpace, IsGap;
    var a: nat, b: nat :| a <= b <= |s| && IsGap(s[..a]) && IsGap(s[b..]) && Denotes(s[a..b], j);
    GapIsSpace(s[..a]);
    GapIsSpace(s[b..]);
    var after := s[b..] + ([c] + t);
    assert s + ([c] + t) == s[..a] + (s[a..b] + after);
    DenotesHead(s[a..b], j);
    SkipSpaceOver(s[..a], s[a..b] + after);
    GapDelimits(s[b..], c, t);
    DenotedIsRead(s[a..b], j, after);
    SkipSpaceOver(s[b..], [c] + t);
  }

  lemma GapDelimits(gap: string, c: char, t: string)
    requires AllSpace(gap) && c in ",]}"
    ensures !Continues((gap + ([c] + t))[0]) && SkipSpace([c] + t) == [c] + t
  {
    if gap != "" { assert (gap + ([c] + t))[0] == gap[0]; }
  }

  lemma {:induction false} ArrayDenotedIsRead(s: string, items: seq<JSON>, t: string)
    requires items != [] && DenoteItems(s, items)
    ensures ScanArray(s + ("]" + t)) == Got(Arr(items), t)
    decreases |s|, 3
  {
    hide ScanItems, DenoteItems;
    ItemsDenotedAreRead(s, items, t, []);
    assert [] + items == items;
  }

  lemma {:induction false} ItemsDenotedAreRead(s: string, items: seq<JSON>, t: string, read: seq<JSON>)
    requires items != [] && DenoteItems(s, items)
    ensures var u := SkipSpace(s + ("]" + t));
      u != "" && u[0] != ']' && ScanItems(u, read) == Got(Arr(read + items), t)
    decreases |s|, 2
  {
    hide ScanValue, DenotesSpaced, SkipSpace, ScanItems, DenoteItems;
    if |items| == 1 {
      assert [items[0]] == items;
      OneItem(s, items[0]);
      SpacedDenotedIsRead(s, items[0], ']', t);
      LastItemIsRead(SkipSpace(s + ("]" + t)), items[0], t, read);
    } else {
      var n := FirstItem(s, items);
      var after := s[n + 1..] + ("]" + t);
      assert s + ("]" + t) == s[..n] + ([','] + after);
      SpacedDenotedIsRead(s[..n], items[0], ',', after);
      ItemsDenotedAreRead(s[n + 1..], items[1..], t, read + [items[0]]);
      NextItemIsRead(SkipSpace(s + ("]" + t)), items[0], after, read);
      assert read + [items[0]] + items[1..] == read + items;
    }
  }

  lemma LastItemIsRead(s: string, j: JSON, t: string, read: seq<JSON>)
    requires ScanValue(s).Got? && ScanValue(s).value == j && SkipSpace(ScanValue(s).rest) == [']'] + t
    ensures ScanItems(s, read) == Got(Arr(read + [j]), t)
  {
    hide ScanValue, SkipSpace;
    assert ([']'] + t)[1..] == t;
  }

  lemma NextItemIsRead(s: string, j: JSON, t: string, read: seq<JSON>)
    requires ScanValue(s).Got? && ScanValue(s).value == j && SkipSpace(ScanValue(s).rest) == [','] + t
    ensures ScanItems(s, read) == ScanItems(SkipSpace(t), read + [j])
  {
    hide ScanValue, SkipSpace;
    assert ([','] + t)[1..] == t;
  }

  lemma {:induction false} ObjectDenotedIsRead(s: string, pairs: seq<(string, JSON)>, t: string)
    requires DenotePairs(s, pairs)
    ensures ScanObject(s + ("}" + t)) == Got(Obj(Collected(map[], pairs)), t)
    decreases |s|, 5
  {
    hide ScanMembers, SkipSpace;
    if pairs == [] {
      EmptyObjectIsRead(s, t);
    } else {
      PairsDenotedAreRead(s, pairs, t, map[]);
    }
  }

  lemma EmptyObjectIsRead(gap: string, t: string)
    requires IsGap(gap)
    ensures ScanObject(gap + ("}" + t)) == Got(Obj(map[]), t)
  {
    hide ScanMembers;
    GapIsSpace(gap);
    SkipSpaceOver(gap, "}" + t);
    assert ("}" + t)[1..] == t;
  }

  /** The key and its colon. */
  lemma NameDenotedIsRead(s: string, key: string, t: string)
    requires IsName(s, key)
    ensures var u := SkipSpace(s + (":" + t));
      && u != "" && u[0] == '\"' && ScanString(u[1..]).Got? && ScanString(u[1..]).value == key
      && SkipSpace(ScanString(u[1..]).rest) == ":" + t
  {
    hide ScanString, IsString, AllSpace, IsGap, SkipSpace;
    var a: nat, b: nat :| a <= b <= |s| && IsGap(s[..a]) && IsGap(s[b..]) && IsString(s[a..b], key);
    GapIsSpace(s[..a]);
    GapIsSpace(s[b..]);
    var after := s[b..] + (":" + t);
    StringDenotedIsRead(s[a..b], key, after);
    assert s + (":" + t) == s[..a] + (s[a..b] + after);
    SkipSpaceOver(s[..a], s[a..b] + after);
    NothingSkipped(s[a..b] + after);
    SkipSpaceOver(s[b..], ":" + t);
    NothingSkipped(":" + t);
  }

  lemma StringDenotedIsRead(s: string, text: string, t: string)
    requires IsString(s, text)
    ensures (s + t)[0] == '\"' && ScanString((s + t)[1..]) == Got(text, t)
  {
    hide ScanString, SpellsText;
    ScanSpelled(s[1..|s| - 1], text, t);
    BetweenEnds(s, "\"", "\"", t);
  }

  lemma {:induction false} MemberDenotedIsRead(s: string, pair: (string, JSON), c: char, t: string)
    requires DenotesMember(s, pair) && c in ",]}"
    ensures var u := SkipSpace(s + ([c] + t));
      && u != "" && u[0] == '\"' && ScanString(u[1..]).Got? && ScanString(u[1..]).value == pair.0
      && var colon := SkipSpace(ScanString(u[1..]).rest);
         && colon != "" && colon[0] == ':'
         && var value := ScanValue(SkipSpace(colon[1..]));
            value.Got? && value.value == pair.1 && SkipSpace(value.rest) == [c] + t
    decreases |s|, 2
  {
    hide ScanString, ScanValue, IsName, DenotesSpaced, SkipSpace;
    var n: nat :| n < |s| && s[n] == ':' && IsName(s[..n], pair.0) && DenotesSpaced(s[n + 1..], pair.1);
    var after := s[n + 1..] + ([c] + t);
    assert s + ([c] + t) == s[..n] + (":" + after) && (":" + after)[1..] == after;
    NameDenotedIsRead(s[..n], pair.0, after);
    SpacedDenotedIsRead(s[n + 1..], pair.1, c, t);
  }

  lemma {:induction false} PairsDenotedAreRead(
    s: string, pairs: seq<(string, JSON)>, t: string, read: map<string, JSON>)
    requires pairs != [] && DenotePairs(s, pairs)
    ensures var u := SkipSpace(s + ("}" + t));
      u != "" && u[0] == '\"' && ScanMembers(u[1..], read) == Got(Obj(Collected(read, pairs)), t)
    decreases |s|, 4
  {
    hide ScanValue, ScanString, DenotesMember, SkipSpace, ScanMembers, Collected, DenotePairs;
    CollectedFirst(read, pairs);
    if |pairs| == 1 {
      assert [pairs[0]] == pairs;
      OnePair(s, pairs[0]);
      MemberDenotedIsRead(s, pairs[0], '}', t);
      LastPairIsRead(SkipSpace(s + ("}" + t))[1..], pairs[0], t, read);
    } else {
      var n := FirstPair(s, pairs);
      var after := s[n + 1..] + ("}" + t);
      assert s + ("}" + t) == s[..n] + ([','] + after);
      MemberDenotedIsRead(s[..n], pairs[0], ',', after);
      PairsDenotedAreRead(s[n + 1..], pairs[1..], t, read[pairs[0].0 := pairs[0].1]);
      NextPairIsRead(SkipSpace(s + ("}" + t))[1..], pairs[0], after, read);
    }
  }

  ghost predicate ReadsPair(s: string, pair: (string, JSON), next: string) {
    && ScanString(s).Got? && ScanString(s).value == pair.0
    && var colon := SkipSpace(ScanString(s).rest);
       && colon != "" && colon[0] == ':'
       && var value := ScanValue(SkipSpace(colon[1..]));
          value.Got? && value.value == pair.1 && SkipSpace(value.rest) == next
  }

  lemma LastPairIsRead(s: string, pair: (string, JSON), t: string, read: map<string, JSON>)
    requires ReadsPair(s, pair, ['}'] + t)
    ensures ScanMembers(s, read) == Got(Obj(read[pair.0 := pair.1]), t)
  {
    hide ScanString, ScanValue, SkipSpace;
    assert (['}'] + t)[1..] == t;
  }

  lemma NextPairIsRead(s: string, pair: (string, JSON), t: string, read: map<string, JSON>)
    requires ReadsPair(s, pair, [','] + t) && SkipSpace(t) != "" && SkipSpace(t)[0] == '\"'
    ensures ScanMembers(s, read) == ScanMembers(SkipSpace(t)[1..], read[pair.0 := pair.1])
  {
    hide ScanString, ScanValue, SkipSpace;
    assert ([','] + t)[1..] == t;
  }

  // -- exactly --------------------------------------------------------------

  /** `json.loads` accepts a text if and only if it is a JSON text of RFC 8259, and reads the value it stands for. */
  lemma LoadsExactly(s: string, j: JSON)
    ensures Loads(s) == Some(j) <==> DenotesSpaced(s, j)
  {
    hide ScanValue, Denotes;
    if Loads(s) == Some(j) {
      var n := PaddedIsRead(s);
      assert s[n..] == "" && s[..n] == s;
    }
    if DenotesSpaced(s, j) { SpacedIsLoaded(s, j); }
  }

  lemma SpacedIsLoaded(s: string, j: JSON)
    requires DenotesSpaced(s, j)
    ensures Loads(s) == Some(j)
  {
    hide ScanValue, Denotes, AllSpace, IsGap;
    var a: nat, b: nat :| a <= b <= |s| && IsGap(s[..a]) && IsGap(s[b..]) && Denotes(s[a..b], j);
    GapIsSpace(s[..a]);
    GapIsSpace(s[b..]);
    assert s == s[..a] + (s[a..b] + s[b..]);
    DenotesHead(s[a..b], j);
    SkipSpaceOver(s[..a], s[a..b] + s[b..]);
    SpaceDelimits(s[b..]);
    DenotedIsRead(s[a..b], j, s[b..]);
    SkipSpaceOver(s[b..], "");
    assert s[b..] + "" == s[b..];
  }

  lemma SpaceDelimits(gap: string)
    requires AllSpace(gap)
    ensures gap != "" ==> !Continues(gap[0])
  {
  }

  // -- printing -------------------------------------------------------------

  function Lowered(c: char): char {
    if 'A' <= c <= 'F' then (c as int - 'A' as int + 'a' as int) as char else c
  }

  ghost predicate SameLowered(s: string, t: string) {
    |s| == |t| && forall k | 0 <= k < |s| :: Lowered(s[k]) == Lowered(t[k])
  }

  /** Each character is written in the shortest way that is printable ASCII, the only one of that length up to the case
      of hexadecimal digits. */
  lemma EscapeIsShortest(c: char, s: string)
    requires SpellsChar(s, c) && Printable(s)
    ensures SpellsChar(Escape(c), c) && Printable(Escape(c))
    ensures |Escape(c)| < |s| || (|Escape(c)| == |s| && (|s| > 2 || s == Escape(c)) && SameLowered(s, Escape(c)))
  {
    hide IsUnit, IsPair, UnicodeEscape;
    EscapeSpells(c);
    EscapeIsPrintable(c);
    if IsUnit(s, c as int) {
      UnitStarts(s, c as int);
      if |Escape(c)| >= 6 { UnitIsLowered(s, c as int); }
    } else if IsPair(s, c) {
      PairStarts(s, c);
      if |Escape(c)| >= 12 { PairIsLowered(s, c); }
    } else if |s| == 1 {
      assert s[0] in s;
    }
  }

  lemma EscapeSpells(c: char)
    ensures SpellsChar(Escape(c), c) && |Escape(c)| in {1, 2, 6, 12}
    ensures |Escape(c)| == 6 ==> Escape(c) == UnicodeEscape(c as int)
    ensures |Escape(c)| == 12 ==> c as int >= 0x10000
    ensures |Escape(c)| == 1 ==> Escape(c) == [c]
    ensures |Escape(c)| == 2 ==> forall s | |s| == 2 && SpellsChar(s, c) :: s == Escape(c)
  {
    hide Hex4, IsUnit, IsPair, SpellsChar;
    var e := Escape(c);
    if |e| == 1 {
      PlainSpells(c);
    } else if |e| == 2 {
      ShortIsSpelled(c);
    } else {
      hide ScanEscape, UnicodeEscape;
      assert e[1..] + "" == e[1..] && e[0] == '\\' && e == "\\" + e[1..];
      if c as int < 0x10000 { ScanFourDigits(c, ""); } else { ScanSurrogatePair(c, ""); }
      ScannedEscape(e[1..]);
    }
  }

  lemma ShortIsSpelled(c: char)
    requires |Escape(c)| == 2
    ensures SpellsChar(Escape(c), c) && forall s | |s| == 2 && SpellsChar(s, c) :: s == Escape(c)
  {
    hide IsUnit, IsPair, Hex4;
    forall s | |s| == 2 && SpellsChar(s, c) ensures s == Escape(c) {
      if IsUnit(s, c as int) { UnitStarts(s, c as int); }
      if IsPair(s, c) { PairStarts(s, c); }
    }
  }

  lemma HexIsLowered(c: char, n: nat)
    requires IsHex(c, n)
    ensures Lowered(c) == Lowered(HexDigit(n)) == HexDigit(n)
  {
  }

  lemma UnitIsLowered(s: string, n: nat)
    requires IsUnit(s, n) && n < 0x10000
    ensures SameLowered(s, UnicodeEscape(n))
  {
    hide IsHex, HexDigit, Lowered;
    var a: nat, b: nat, c: nat, d: nat :|
      IsHex(s[2], a) && IsHex(s[3], b) && IsHex(s[4], c) && IsHex(s[5], d) && n == 4096 * a + 256 * b + 16 * c + d;
    HexIsSmall(s[2], a);
    HexIsSmall(s[3], b);
    HexIsSmall(s[4], c);
    HexIsSmall(s[5], d);
    HexIsLowered(s[2], a);
    HexIsLowered(s[3], b);
    HexIsLowered(s[4], c);
    HexIsLowered(s[5], d);
    Hex4Of(a, b, c, d);
    hide Hex4;
    var u := UnicodeEscape(n);
    assert u[0] == s[0] && u[1] == s[1];
    assert u[2] == HexDigit(a) && u[3] == HexDigit(b) && u[4] == HexDigit(c) && u[5] == HexDigit(d);
  }

  lemma Hex4Of(a: nat, b: nat, c: nat, d: nat)
    requires a < 16 && b < 16 && c < 16 && d < 16
    ensures Hex4(4096 * a + 256 * b + 16 * c + d) == [HexDigit(a), HexDigit(b), HexDigit(c), HexDigit(d)]
  {
    hide HexDigit;
    var n := 4096 * a + 256 * b + 16 * c + d;
    assert n / 16 == 256 * a + 16 * b + c && n / 256 == 16 * a + b && n / 4096 == a;
  }

  lemma PairIsLowered(s: string, c: char)
    requires IsPair(s, c) && c as int >= 0x10000
    ensures SameLowered(s, Escape(c))
  {
    hide IsUnit, UnicodeEscape;
    var high: nat, low: nat :|
      && IsUnit(s[..6], high) && IsUnit(s[6..], low) && 0xD800 <= high < 0xDC00 <= low < 0xE000
      && c as int == 0x10000 + (high - 0xD800) * 0x400 + (low - 0xDC00);
    var n := c as int - 0x10000;
    assert n / 1024 == high - 0xD800 && n % 1024 == low - 0xDC00;
    UnitIsLowered(s[..6], high);
    UnitIsLowered(s[6..], low);
    assert s == s[..6] + s[6..] && Escape(c) == UnicodeEscape(high) + UnicodeEscape(low);
  }
}
