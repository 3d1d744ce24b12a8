/** How quotes and brackets nest in JSON text: enough to see that torn objects written one after the other never
    make JSON. */
module JsonNesting {
  import opened Ordering
  import opened Json
  import opened JsonProperties

  /** Where a reader of the text stands, under so many open brackets: outside strings, after a string, inside one,
      after a backslash inside one, or nowhere in JSON. */
  datatype Mode =
    | Outside(depth: nat) | Closed(depth: nat) | Inside(depth: nat) | Escaping(depth: nat) | Wrong

  function Step(m: Mode, c: char): Mode {
    match m
    case Outside(d) =>
      if c == '{' || c == '[' then Outside(d + 1)
      else if c == '}' || c == ']' then (if d == 0 then Wrong else Outside(d - 1))
      else if c == '\"' then Inside(d)
      else if c == '\\' then Wrong
      else Outside(d)
    case Closed(d) =>
      if Space(c) then m
      else if c == ',' || c == ':' then Outside(d)
      else if (c == '}' || c == ']') && d > 0 then Outside(d - 1)
      else Wrong
    case Inside(d) => if c == '\"' then Closed(d) else if c == '\\' then Escaping(d) else Inside(d)
    case Escaping(d) => if c == 'u' || Unescaped(c).Some? then Inside(d) else Wrong
    case Wrong => Wrong
  }

  function Walk(m: Mode, s: string): Mode
    decreases |s|
  {
    if s == "" then m else Walk(Step(m, s[0]), s[1..])
  }

  lemma {:induction false} WalkConcat(m: Mode, s: string, t: string)
    ensures Walk(m, s + t) == Walk(Walk(m, s), t)
    decreases |s|
  {
    hide Step;
    if s == "" {
      assert s + t == t;
    } else {
      assert (s + t)[1..] == s[1..] + t;
      WalkConcat(Step(m, s[0]), s[1..], t);
    }
  }

  lemma {:induction false} WrongStays(s: string)
    ensures Walk(Wrong, s) == Wrong
  {
    if s != "" { WrongStays(s[1..]); }
  }

  // -- the printed text is balanced -----------------------------------------

  /** After a value, under `d` open brackets. */
  predicate Rests(m: Mode, d: nat) { m == Outside(d) || m == Closed(d) }

  /** Text that closes all it opens, wherever it starts. */
  ghost predicate Whole(s: string) {
    forall d: nat :: Rests(Walk(Outside(d), s), d)
  }

  predicate PlainChar(c: char) { c !in "{}[]\"\\" }

  predicate Plain(s: string) { forall k | 0 <= k < |s| :: PlainChar(s[k]) }

  lemma {:induction false} PlainWalk(m: Mode, s: string)
    requires Plain(s) && (m.Outside? || m.Inside?)
    ensures Walk(m, s) == m
  {
    if s != "" {
      assert PlainChar(s[0]);
      PlainWalk(m, s[1..]);
    }
  }

  lemma {:induction false} BlankWalk(m: Mode, s: string)
    requires AllSpace(s) && (m.Outside? || m.Closed?)
    ensures Walk(m, s) == m
  {
    if s != "" {
      assert Space(s[0]);
      BlankWalk(m, s[1..]);
    }
  }

  lemma OneStep(m: Mode, c: char)
    ensures Walk(m, [c]) == Step(m, c)
  {
    assert [c][1..] == "";
  }

  lemma EscapeWalk(c: char, d: nat)
    ensures Walk(Inside(d), Escape(c)) == Inside(d)
  {
    hide Hex4;
    if c in "\"\\\n\r\t" || c == FORM_FEED || c == BACKSPACE {
      BackslashWalk(Escape(c), d);
    } else if !(' ' <= c <= '~') {
      if c as int < 0x10000 {
        UnicodeWalk(c as int, d);
      } else {
        var n := c as int - 0x10000;
        UnicodeWalk(0xD800 + n / 1024, d);
        UnicodeWalk(0xDC00 + n % 1024, d);
        WalkConcat(Inside(d), UnicodeEscape(0xD800 + n / 1024), UnicodeEscape(0xDC00 + n % 1024));
      }
    }
  }

  lemma BackslashWalk(s: string, d: nat)
    requires |s| == 2 && s[0] == '\\' && (s[1] == 'u' || Unescaped(s[1]).Some?)
    ensures Walk(Inside(d), s) == Inside(d)
  {
    assert s[1..][0] == s[1] && s[1..][1..] == "";
    assert Walk(Escaping(d), s[1..]) == Walk(Inside(d), "");
  }

  lemma UnicodeWalk(n: nat, d: nat)
    requires n < 0x10000
    ensures Walk(Inside(d), UnicodeEscape(n)) == Inside(d)
  {
    assert forall k | 0 <= k < 16 :: PlainChar(HexDigit(k));
    assert Plain(Hex4(n)) by { hide HexDigit; }
    BackslashWalk("\\u", d);
    hide HexDigit, Hex4, Plain;
    WalkConcat(Inside(d), "\\u", Hex4(n));
    PlainWalk(Inside(d), Hex4(n));
  }

  lemma {:induction false} ContentWalk(s: string, d: nat)
    ensures Walk(Inside(d), EscapeAll(s)) == Inside(d)
  {
    hide Escape, Step;
    if s != "" {
      EscapeWalk(s[0], d);
      WalkConcat(Inside(d), Escape(s[0]), EscapeAll(s[1..]));
      ContentWalk(s[1..], d);
    }
  }

  lemma QuotedWalk(s: string, d: nat)
    ensures Walk(Outside(d), Quoted(s)) == Closed(d)
  {
    hide EscapeAll, Walk;
    var content := EscapeAll(s);
    assert Quoted(s) == ['\"'] + content + ['\"'];
    ContentWalk(s, d);
    OneStep(Outside(d), '\"');
    OneStep(Inside(d), '\"');
    WalkConcat(Outside(d), ['\"'] + content, ['\"']);
    WalkConcat(Outside(d), ['\"'], content);
  }

  /** White space, a whole text and white space, in brackets. */
  lemma BracketedIsWhole(open: char, outer: string, s: string, inner: string, close: char)
    requires Whole(s) && AllSpace(outer) && AllSpace(inner)
    requires (open == '{' || open == '[') && (close == '}' || close == ']')
    ensures Whole([open] + outer + s + inner + [close])
    ensures Whole(outer + s + inner)
  {
    hide Walk, AllSpace;
    forall d: nat
      ensures Rests(Walk(Outside(d), [open] + outer + s + inner + [close]), d)
      ensures Rests(Walk(Outside(d), outer + s + inner), d)
    {
      OneStep(Outside(d), open);
      BlankWalk(Outside(d), outer);
      BlankWalk(Outside(d + 1), outer);
      BlankWalk(Walk(Outside(d), s), inner);
      BlankWalk(Walk(Outside(d + 1), s), inner);
      OneStep(Walk(Outside(d + 1), s), close);
      WalkConcat(Outside(d), [open] + outer + s + inner, [close]);
      WalkConcat(Outside(d), [open] + outer + s, inner);
      WalkConcat(Outside(d), [open] + outer, s);
      WalkConcat(Outside(d), [open], outer);
      WalkConcat(Outside(d), outer + s, inner);
      WalkConcat(Outside(d), outer, s);
    }
  }

  lemma PlainIsWhole(s: string)
    requires Plain(s)
    ensures Whole(s)
  {
    forall d: nat { PlainWalk(Outside(d), s); }
  }

  lemma QuotedIsWhole(s: string)
    ensures Whole(Quoted(s))
  {
    forall d: nat { QuotedWalk(s, d); }
  }

  lemma ListIsWhole(s: string, gap: string, t: string)
    requires Whole(s) && Whole(t) && AllSpace(gap)
    ensures Whole(s + "," + gap + t)
  {
    hide Walk, AllSpace;
    forall d: nat ensures Rests(Walk(Outside(d), s + "," + gap + t), d) {
      OneStep(Walk(Outside(d), s), ',');
      BlankWalk(Outside(d), gap);
      WalkConcat(Outside(d), s + "," + gap, t);
      WalkConcat(Outside(d), s + ",", gap);
      WalkConcat(Outside(d), s, ",");
    }
  }

  lemma MemberIsWhole(key: string, t: string)
    requires Whole(t)
    ensures Whole(Quoted(key) + ": " + t)
  {
    hide Walk, Quoted;
    forall d: nat ensures Rests(Walk(Outside(d), Quoted(key) + ": " + t), d) {
      QuotedWalk(key, d);
      OneStep(Closed(d), ':');
      OneStep(Outside(d), ' ');
      assert ": " == [':'] + [' '];
      WalkConcat(Closed(d), [':'], [' ']);
      WalkConcat(Outside(d), Quoted(key) + ": ", t);
      WalkConcat(Outside(d), Quoted(key), ": ");
    }
  }

  lemma LeafIsWhole(j: JSON, layout: Layout, depth: nat)
    requires WellFormed(j) && !j.Arr? && !j.Obj?
    ensures Whole(Text(j, layout, depth))
  {
    hide Whole, Quoted, NumberLength, InNumber;
    match j
    case Str(s) => QuotedIsWhole(s);
    case Num(literal) => NumberIsWhole(literal);
    case _ =>
      PlainIsWhole("null");
      PlainIsWhole("true");
      PlainIsWhole("false");
  }

  lemma NumberIsWhole(literal: string)
    requires IsNumber(literal)
    ensures Whole(literal)
  {
    hide Whole, NumberLength, IsNumber;
    NumberExactly(literal);
    NumberCharacters(literal);
    PlainIsWhole(literal);
  }

  /** Printed JSON is balanced. */
  lemma {:induction false} TextIsWhole(j: JSON, layout: Layout, depth: nat)
    requires WellFormed(j)
    ensures Whole(Text(j, layout, depth))
    decreases j
  {
    hide Whole, Break, Gap, SortedKeys, MembersText, ItemsText, AllSpace;
    LayoutIsSpace(layout, depth + 1);
    LayoutIsSpace(layout, depth);
    match j
    case Arr(items) =>
      ItemsAreWhole(items, layout, depth + 1);
      EmptyBrackets('[', ']');
      BracketedIsWhole('[', Break(layout, depth + 1), ItemsText(items, layout, depth + 1), Break(layout, depth), ']');
    case Obj(members) =>
      var text := MembersText(j, SortedKeys(members.Keys), layout, depth + 1);
      MembersAreWhole(j, SortedKeys(members.Keys), layout, depth + 1);
      EmptyBrackets('{', '}');
      BracketedIsWhole('{', Break(layout, depth + 1), text, Break(layout, depth), '}');
    case _ => LeafIsWhole(j, layout, depth);
  }

  lemma EmptyBrackets(open: char, close: char)
    requires (open == '{' || open == '[') && (close == '}' || close == ']')
    ensures Whole([open, close])
  {
    PlainIsWhole("");
    BracketedIsWhole(open, "", "", "", close);
    assert [open] + "" + "" + "" + [close] == [open, close];
  }

  lemma {:induction false} ItemsAreWhole(items: seq<JSON>, layout: Layout, depth: nat)
    requires WellFormed(Arr(items))
    ensures Whole(ItemsText(items, layout, depth))
    decreases items, 0
  {
    hide Whole, Text, Gap, AllSpace;
    if items == [] {
      PlainIsWhole("");
    } else {
      assert WellFormed(items[0]);
      TextIsWhole(items[0], layout, depth);
      assert WellFormed(Arr(items[1..]));
      ItemsAreWhole(items[1..], layout, depth);
      LayoutIsSpace(layout, depth);
      ListIsWhole(Text(items[0], layout, depth), Gap(layout, depth), ItemsText(items[1..], layout, depth));
    }
  }

  lemma {:induction false} MembersAreWhole(j: JSON, keys: seq<string>, layout: Layout, depth: nat)
    requires WellFormed(j) && j.Obj? && Elements(keys) <= j.members.Keys
    ensures Whole(MembersText(j, keys, layout, depth))
    decreases j, |keys|
  {
    hide Whole, Text, Gap, Quoted, AllSpace;
    if keys == [] {
      PlainIsWhole("");
    } else {
      assert keys[0] in Elements(keys);
      assert Elements(keys[1..]) <= Elements(keys);
      var value := Text(j.members[keys[0]], layout, depth);
      TextIsWhole(j.members[keys[0]], layout, depth);
      MemberIsWhole(keys[0], value);
      MembersAreWhole(j, keys[1..], layout, depth);
      LayoutIsSpace(layout, depth);
      ListIsWhole(Quoted(keys[0]) + ": " + value, Gap(layout, depth), MembersText(j, keys[1..], layout, depth));
    }
  }

  // -- what the scanner accepts is balanced ---------------------------------

  lemma Drop(m: Mode, s: string, n: nat)
    requires n <= |s| && Plain(s[..n]) && (m.Outside? || m.Inside?)
    ensures Walk(m, s) == Walk(m, s[n..])
  {
    assert s == s[..n] + s[n..];
    WalkConcat(m, s[..n], s[n..]);
    PlainWalk(m, s[..n]);
  }

  lemma {:induction false} SpaceWalk(m: Mode, s: string)
    requires m.Outside? || m.Closed?
    ensures Walk(m, s) == Walk(m, SkipSpace(s))
  {
    if s != "" && Space(s[0]) { SpaceWalk(m, s[1..]); }
  }

  lemma HexIsPlain(s: string)
    requires Unhex4(s).Some?
    ensures Plain(s[..4])
  {
    assert forall k | 0 <= k < 4 :: HexValue(s[k]).Some?;
  }

  lemma EscapeScanWalk(s: string, d: nat)
    requires ScanEscape(s).Got?
    ensures Walk(Escaping(d), s) == Walk(Inside(d), ScanEscape(s).rest)
  {
    hide Unhex4, Plain;
    if s[0] == 'u' {
      HexIsPlain(s[1..]);
      Drop(Inside(d), s[1..], 4);
      assert s[1..][4..] == s[5..];
      if |s| >= 11 && s[5] == '\\' && s[6] == 'u' && Unhex4(s[7..]).Some? {
        HexIsPlain(s[7..]);
        Drop(Inside(d), s[7..], 4);
        assert s[7..][4..] == s[11..];
        TwoSteps(s[5..], d);
        assert s[5..][2..] == s[7..];
      }
    }
  }

  lemma TwoSteps(s: string, d: nat)
    requires |s| >= 2 && s[0] == '\\' && s[1] == 'u'
    ensures Walk(Inside(d), s) == Walk(Inside(d), s[2..])
  {
    assert s[1..][0] == s[1] && s[1..][1..] == s[2..];
  }

  lemma {:induction false} StringScanWalk(s: string, d: nat)
    requires ScanString(s).Got?
    ensures Walk(Inside(d), s) == Walk(Closed(d), ScanString(s).rest)
    decreases |s|
  {
    hide ScanEscape;
    if s[0] == '\\' {
      EscapeScanWalk(s[1..], d);
      StringScanWalk(ScanEscape(s[1..]).rest, d);
    } else if s[0] != '\"' {
      StringScanWalk(s[1..], d);
    }
  }

  /** Where a reader stands after a value. */
  function After(value: JSON, d: nat): Mode { if value.Str? then Closed(d) else Outside(d) }

  lemma {:induction false} ValueScanWalk(s: string, d: nat)
    requires ScanValue(s).Got?
    ensures Walk(Outside(d), s) == Walk(After(ScanValue(s).value, d), ScanValue(s).rest)
    decreases |s|, 1
  {
    hide ScanString, ScanObject, ScanArray, NumberLength;
    if s[0] == '\"' {
      StringScanWalk(s[1..], d);
    } else if s[0] == '{' {
      ScanObjectIsObject(s[1..]);
      ObjectScanWalk(s[1..], d);
    } else if s[0] == '[' {
      ScanArrayIsArray(s[1..]);
      ArrayScanWalk(s[1..], d);
    } else {
      LeafScanWalk(s, d);
    }
  }

  lemma LeafScanWalk(s: string, d: nat)
    requires ScanValue(s).Got? && s[0] !in "\"{["
    ensures !ScanValue(s).value.Str? && Walk(Outside(d), s) == Walk(Outside(d), ScanValue(s).rest)
  {
    hide ScanString, ScanObject, ScanArray, NumberLength, Walk, Step, StartsWith, Plain;
    if StartsWith(s, "null") {
      DropWord(s, "null", d);
    } else if StartsWith(s, "true") {
      DropWord(s, "true", d);
    } else if StartsWith(s, "false") {
      DropWord(s, "false", d);
    } else {
      DropNumber(s, d);
    }
  }

  lemma DropWord(s: string, word: string, d: nat)
    requires StartsWith(s, word) && word in ["null", "true", "false"]
    ensures |word| <= |s| && Walk(Outside(d), s) == Walk(Outside(d), s[|word|..])
  {
    hide Walk, Step;
    assert Plain(word);
    Drop(Outside(d), s, |word|);
  }

  lemma DropNumber(s: string, d: nat)
    ensures Walk(Outside(d), s) == Walk(Outside(d), s[NumberLength(s)..])
  {
    hide NumberLength, Walk, Step;
    NumberCharacters(s);
    Drop(Outside(d), s, NumberLength(s));
  }

  lemma {:induction false} ObjectScanWalk(s: string, d: nat)
    requires ScanObject(s).Got?
    ensures Walk(Outside(d + 1), s) == Walk(Outside(d), ScanObject(s).rest)
    decreases |s|, 2
  {
    hide ScanMembers;
    SpaceWalk(Outside(d + 1), s);
    if SkipSpace(s)[0] == '\"' { MembersScanWalk(SkipSpace(s)[1..], map[], d); }
  }

  lemma {:induction false} MembersScanWalk(s: string, read: map<string, JSON>, d: nat)
    requires ScanMembers(s, read).Got?
    ensures Walk(Inside(d + 1), s) == Walk(Outside(d), ScanMembers(s, read).rest)
    decreases |s|, 0
  {
    hide ScanValue, ScanString, SkipSpace;
    StringScanWalk(s, d + 1);
    var key := ScanString(s);
    SpaceWalk(Closed(d + 1), key.rest);
    var colon := SkipSpace(key.rest);
    SpaceWalk(Outside(d + 1), colon[1..]);
    var value := ScanValue(SkipSpace(colon[1..]));
    ValueScanWalk(SkipSpace(colon[1..]), d + 1);
    SpaceWalk(After(value.value, d + 1), value.rest);
    var next := SkipSpace(value.rest);
    if next[0] == ',' {
      SpaceWalk(Outside(d + 1), next[1..]);
      MembersScanWalk(SkipSpace(next[1..])[1..], read[key.value := value.value], d);
    }
  }

  lemma {:induction false} ArrayScanWalk(s: string, d: nat)
    requires ScanArray(s).Got?
    ensures Walk(Outside(d + 1), s) == Walk(Outside(d), ScanArray(s).rest)
    decreases |s|, 3
  {
    hide ScanItems;
    SpaceWalk(Outside(d + 1), s);
    var t := SkipSpace(s);
    if !(t != "" && t[0] == ']') { ItemsScanWalk(t, [], d); }
  }

  lemma {:induction false} ItemsScanWalk(s: string, read: seq<JSON>, d: nat)
    requires ScanItems(s, read).Got?
    ensures Walk(Outside(d + 1), s) == Walk(Outside(d), ScanItems(s, read).rest)
    decreases |s|, 2
  {
    hide ScanValue, SkipSpace;
    ValueScanWalk(s, d + 1);
    var value := ScanValue(s);
    SpaceWalk(After(value.value, d + 1), value.rest);
    var next := SkipSpace(value.rest);
    if next[0] == ',' {
      SpaceWalk(Outside(d + 1), next[1..]);
      ItemsScanWalk(SkipSpace(next[1..]), read + [value.value], d);
    }
  }

  /** Text that is JSON closes every bracket and every quote it opens. */
  lemma JsonIsBalanced(s: string)
    requires Loads(s).Some?
    ensures Rests(Walk(Outside(0), s), 0)
  {
    hide ScanValue;
    SpaceWalk(Outside(0), s);
    var value := ScanValue(SkipSpace(s));
    ValueScanWalk(SkipSpace(s), 0);
    SpaceWalk(After(value.value, 0), value.rest);
  }

  // -- torn objects are never completed -------------------------------------

  /** A reader under an open bracket, or nowhere in JSON: what it has read is no JSON text. */
  predicate Unfinished(m: Mode) { m.Wrong? || m.depth > 0 }

  function Raise(m: Mode, k: nat): Mode {
    if m.Wrong? then Wrong else m.(depth := m.depth + k)
  }

  lemma {:induction false} Deeper(m: Mode, s: string, k: nat)
    requires Walk(m, s) != Wrong
    ensures Walk(Raise(m, k), s) == Raise(Walk(m, s), k)
    decreases |s|
  {
    if s != "" {
      if Step(m, s[0]) == Wrong { WrongStays(s[1..]); }
      Deeper(Step(m, s[0]), s[1..], k);
    }
  }

  /** A beginning of whole text, read under open brackets, leaves those brackets open. */
  lemma BeginningStaysOpen(s: string, n: nat, d: nat)
    requires Whole(s) && n <= |s| && d > 0
    ensures Unfinished(Walk(Outside(d), s[..n]))
  {
    hide Step, Walk;
    assert s == s[..n] + s[n..];
    assert Rests(Walk(Outside(0), s), 0);
    WalkConcat(Outside(0), s[..n], s[n..]);
    WrongStays(s[n..]);
    Deeper(Outside(0), s[..n], d);
  }

  /** A proper beginning of an object's text is unfinished. */
  lemma TornIsUnfinished(j: JSON, layout: Layout, cut: nat)
    requires WellFormed(j) && j.Obj? && 0 < cut < |Text(j, layout, 0)|
    ensures Unfinished(Walk(Outside(0), Text(j, layout, 0)[..cut]))
  {
    hide Text, Walk, Whole;
    var body := ObjectBody(j, layout);
    assert Text(j, layout, 0)[..cut] == ['{'] + body[..cut - 1];
    WalkConcat(Outside(0), ['{'], body[..cut - 1]);
    OneStep(Outside(0), '{');
    BeginningStaysOpen(body, cut - 1, 1);
  }

  lemma ObjectBody(j: JSON, layout: Layout) returns (body: string)
    requires WellFormed(j) && j.Obj?
    ensures Text(j, layout, 0) == "{" + body + "}" && Whole(body)
  {
    hide Whole, Break, MembersText, SortedKeys, AllSpace;
    if j.members == map[] {
      body := "";
      PlainIsWhole("");
    } else {
      var members := MembersText(j, SortedKeys(j.members.Keys), layout, 1);
      body := Break(layout, 1) + members + Break(layout, 0);
      MembersAreWhole(j, SortedKeys(j.members.Keys), layout, 1);
      LayoutIsSpace(layout, 1);
      LayoutIsSpace(layout, 0);
      BracketedIsWhole('{', Break(layout, 1), members, Break(layout, 0), '}');
    }
  }

  /** The text of an object with a key first that no string can be followed by. */
  predicate StartsWithKey(text: string) {
    |text| >= 3 && text[0] == '{' && text[1] == '\"' && text[2] !in ",:}]" && !Space(text[2])
  }

  /** However much of such an object is written after unfinished text, all of it included, the text stays
      unfinished. */
  lemma GluedIsUnfinished(m: Mode, text: string, n: nat)
    requires Unfinished(m) && Whole(text) && StartsWithKey(text) && n <= |text|
    ensures Unfinished(Walk(m, text[..n]))
  {
    hide Whole, Walk, Step, Unfinished;
    if m.Outside? {
      UnfinishedFacts(m, text);
      BeginningStaysOpen(text, n, m.depth);
    } else if n == 0 {
      assert text[..0] == "";
      UnfinishedFacts(m, text);
    } else {
      var s := text[..n];
      assert s[0] == text[0] && (n >= 2 ==> s[1] == text[1]) && (n >= 3 ==> s[2] == text[2]);
      UnfinishedFacts(m, text);
      if n == 1 {
        assert s == ['{'];
        OneStep(m, '{');
      } else {
        ThreeSteps(m, s);
        if n >= 3 { WrongStays(s[3..]); }
      }
    }
  }

  lemma UnfinishedFacts(m: Mode, text: string)
    requires Unfinished(m) && StartsWithKey(text)
    ensures m.Outside? ==> m.depth > 0
    ensures Walk(m, "") == m
    ensures !m.Outside? ==>
      && Unfinished(Step(m, text[0])) && Unfinished(Step(Step(m, text[0]), text[1]))
      && Step(Step(Step(m, text[0]), text[1]), text[2]) == Wrong
    ensures Unfinished(Wrong)
  {
    assert Walk(m, "") == m;
    hide Walk;
    match m
    case Outside(_) =>
    case Closed(_) =>
    case Inside(_) =>
    case Escaping(_) =>
    case Wrong =>
  }

  lemma ThreeSteps(m: Mode, s: string)
    requires |s| >= 2
    ensures |s| == 2 ==> Walk(m, s) == Step(Step(m, s[0]), s[1])
    ensures |s| >= 3 ==> Walk(m, s) == Walk(Step(Step(Step(m, s[0]), s[1]), s[2]), s[3..])
  {
    hide Step;
    var one := s[1..];
    assert one[0] == s[1] && one[1..] == s[2..];
    if |s| == 2 {
      assert one[1..] == "";
      assert Walk(Step(m, s[0]), one) == Walk(Step(Step(m, s[0]), s[1]), "");
    } else {
      assert s[2..][0] == s[2] && s[2..][1..] == s[3..];
      assert Walk(Step(m, s[0]), one) == Walk(Step(Step(m, s[0]), s[1]), s[2..]);
    }
  }
}
