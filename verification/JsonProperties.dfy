/** `loads` inverts `dumps`, and a JSON object's text has no proper prefix that is JSON. */
module JsonProperties {
  import opened Wrappers
  import opened Ordering
  import opened Json

  // -- numbers --------------------------------------------------------------

  lemma DigitsAgree(s: string, s': string)
    requires var d := Digits(s); d <= |s'| && s[..d] == s'[..d] && (d < |s'| ==> !Digit(s'[d]))
    ensures Digits(s') == Digits(s)
  {
    forall k | 0 <= k < Digits(s) ensures Digit(s'[k]) {
      assert s[..Digits(s)][k] == s'[..Digits(s)][k];
    }
  }

  /** Both texts have the same first `n` characters and neither goes on with a number there. */
  ghost predicate Agree(s: string, s': string, n: nat) {
    && n <= |s| && n <= |s'|
    && (forall k :: 0 <= k < n ==> s[k] == s'[k])
    && (n < |s| ==> !Continues(s[n])) && (n < |s'| ==> !Continues(s'[n]))
  }

  lemma DigitRunAgrees(s: string, s': string, at: nat, n: nat)
    requires Agree(s, s', n) && at <= n && at + Digits(s[at..]) <= n
    ensures Digits(s'[at..]) == Digits(s[at..])
  {
    DigitsAgree(s[at..], s'[at..]);
  }

  lemma IntegerEndAgrees(s: string, s': string, at: nat, n: nat)
    requires Agree(s, s', n) && at < n && IntegerEnd(s, at) <= n
    ensures IntegerEnd(s', at) == IntegerEnd(s, at)
  {
    if s[at] != '0' { DigitRunAgrees(s, s', at, n); }
  }

  lemma FractionEndAgrees(s: string, s': string, at: nat, n: nat)
    requires Agree(s, s', n) && at <= n && FractionEnd(s, at) <= n
    ensures FractionEnd(s', at) == FractionEnd(s, at)
  {
    hide Digits;
    if at < n && s[at] == '.' { DigitRunAgrees(s, s', at + 1, n); }
  }

  lemma ExponentEndAgrees(s: string, s': string, at: nat, n: nat)
    requires Agree(s, s', n) && at <= n && ExponentEnd(s, at) == n
    ensures ExponentEnd(s', at) == n
  {
    hide Digits;
    if at < n {
      var from := if at + 1 < |s| && (s[at + 1] == '+' || s[at + 1] == '-') then at + 2 else at + 1;
      DigitRunAgrees(s, s', from, n);
    }
  }

  /** How long a number literal is does not depend on what follows it, unless that continues it. */
  lemma NumberAgrees(s: string, s': string)
    requires NumberLength(s) > 0 && Agree(s, s', NumberLength(s))
    ensures NumberLength(s') == NumberLength(s)
  {
    hide IntegerEnd, FractionEnd, ExponentEnd, Digits;
    var n := NumberLength(s);
    var sign := if s[0] == '-' then 1 else 0;
    IntegerEndAgrees(s, s', sign, n);
    FractionEndAgrees(s, s', IntegerEnd(s, sign), n);
    ExponentEndAgrees(s, s', FractionEnd(s, IntegerEnd(s, sign)), n);
  }

  /** What the scanner takes is a literal. */
  lemma ScannedIsNumber(s: string)
    requires NumberLength(s) > 0
    ensures IsNumber(s[..NumberLength(s)])
  {
    hide IntegerEnd, FractionEnd, ExponentEnd, IsInteger, IsFraction, IsExponent;
    var sign := if s[0] == '-' then 1 else 0;
    var whole := IntegerEnd(s, sign);
    var fraction, end := FractionEnd(s, whole), NumberLength(s);
    ScannedWhole(s, sign);
    ScannedFraction(s, whole);
    ScannedExponent(s, fraction);
    assert AreParts(s[..sign], s[sign..whole], s[whole..fraction], s[fraction..end]);
    assert s[..end] == s[..sign] + s[sign..whole] + s[whole..fraction] + s[fraction..end];
  }

  lemma ScannedRun(s: string, at: nat)
    requires at <= |s|
    ensures Digits(s[at..]) > 0 ==> IsRun(s[at..at + Digits(s[at..])])
  {
    forall k | at <= k < at + Digits(s[at..]) ensures Digit(s[k]) { assert s[at..][k - at] == s[k]; }
  }

  lemma ScannedWhole(s: string, at: nat)
    requires at <= |s| && IntegerEnd(s, at) > at
    ensures IsInteger(s[at..IntegerEnd(s, at)])
  {
    hide Digits;
    ScannedRun(s, at);
  }

  lemma ScannedFraction(s: string, at: nat)
    requires at <= |s|
    ensures IsFraction(s[at..FractionEnd(s, at)])
  {
    hide Digits;
    if FractionEnd(s, at) > at {
      ScannedRun(s, at + 1);
      assert s[at..FractionEnd(s, at)][1..] == s[at + 1..FractionEnd(s, at)];
    }
  }

  lemma ScannedExponent(s: string, at: nat)
    requires at <= |s|
    ensures IsExponent(s[at..ExponentEnd(s, at)])
  {
    hide Digits;
    var end := ExponentEnd(s, at);
    if end > at {
      var from := if at + 1 < |s| && (s[at + 1] == '+' || s[at + 1] == '-') then at + 2 else at + 1;
      ScannedRun(s, from);
      assert s[at..end][from - at..] == s[from..end];
    }
  }

  /** The scanner stops at no shorter literal than there is. */
  lemma LongestNumber(s: string, n: nat)
    requires n <= |s| && IsNumber(s[..n])
    ensures 0 < n <= NumberLength(s)
  {
    hide IntegerEnd, FractionEnd, ExponentEnd, IsFraction, IsExponent;
    var sign, whole, fraction, exponent :|
      AreParts(sign, whole, fraction, exponent) && s[..n] == sign + whole + fraction + exponent;
    var a, b := |sign|, |sign| + |whole|;
    assert s[..n][a..b] == whole && s[..n][b..] == fraction + exponent;
    assert s[a..b] == whole && s[b..n] == fraction + exponent;
    assert a == 1 ==> s[..n][0] == '-';
    assert s[a] == whole[0];
    assert IsRun(whole);
    LongestWhole(s, a, b);
    if b < IntegerEnd(s, a) {
      DigitEnds(fraction, exponent, s[b]) by { if n > b { assert s[b..n][0] == s[b]; } }
    } else {
      LongestFraction(s, b, fraction, exponent);
    }
  }

  lemma LongestRun(s: string, at: nat, n: nat)
    requires at <= n <= |s| && IsRun(s[at..n])
    ensures n <= at + Digits(s[at..])
  {
    forall k | 0 <= k < n - at ensures Digit(s[at..][k]) { assert s[at..n][k] == s[at..][k]; }
    DigitsAtLeast(s[at..], n - at);
  }

  lemma DigitsAtLeast(s: string, n: nat)
    requires n <= |s| && forall k | 0 <= k < n :: Digit(s[k])
    ensures n <= Digits(s)
  {
  }

  /** A shorter integer part is followed by a digit. */
  lemma LongestWhole(s: string, at: nat, n: nat)
    requires at <= n <= |s| && IsInteger(s[at..n])
    ensures n <= IntegerEnd(s, at) && (n < IntegerEnd(s, at) ==> Digit(s[n]))
  {
    hide Digits;
    assert s[at..n][0] == s[at];
    LongestRun(s, at, n);
    if s[at..n] != "0" && n < at + Digits(s[at..]) { assert s[at..][n - at] == s[n]; }
  }

  lemma DigitEnds(fraction: string, exponent: string, c: char)
    requires IsFraction(fraction) && IsExponent(exponent) && Digit(c)
    requires fraction + exponent != "" ==> (fraction + exponent)[0] == c
    ensures fraction + exponent == ""
  {
  }

  lemma LongestFraction(s: string, at: nat, fraction: string, exponent: string)
    requires IsFraction(fraction) && IsExponent(exponent)
    requires at + |fraction + exponent| <= |s| && s[at..at + |fraction + exponent|] == fraction + exponent
    ensures at + |fraction + exponent| <= ExponentEnd(s, FractionEnd(s, at))
  {
    hide Digits, ExponentEnd, IsExponent;
    var b, n := at + |fraction|, at + |fraction + exponent|;
    assert s[at..n][|fraction|..] == exponent && s[at..n][..|fraction|] == fraction;
    assert s[at..b] == fraction && s[b..n] == exponent;
    if fraction == "" {
      assert n > at ==> s[b..n][0] == s[at];
      NoPoint(exponent);
      LongestExponent(s, at, exponent);
    } else {
      assert s[at..b][0] == s[at] && s[at..b][1..] == s[at + 1..b];
      LongestRun(s, at + 1, b);
      if b < FractionEnd(s, at) {
        assert s[at + 1..][b - at - 1] == s[b];
        DigitEnds("", exponent, s[b]) by { if n > b { assert s[b..n][0] == s[b]; } }
      } else {
        LongestExponent(s, b, exponent);
      }
    }
  }

  lemma NoPoint(exponent: string)
    requires IsExponent(exponent)
    ensures exponent != "" ==> exponent[0] != '.'
  {
  }

  lemma LongestExponent(s: string, at: nat, exponent: string)
    requires IsExponent(exponent) && at + |exponent| <= |s| && s[at..at + |exponent|] == exponent
    ensures at + |exponent| <= ExponentEnd(s, at)
  {
    hide Digits;
    if exponent != "" {
      var n := at + |exponent|;
      assert s[at..n][0] == s[at] && (|exponent| > 1 ==> s[at..n][1] == s[at + 1]);
      var from := if at + 1 < |s| && (s[at + 1] == '+' || s[at + 1] == '-') then at + 2 else at + 1;
      assert s[at..n][from - at..] == s[from..n];
      LongestRun(s, from, n);
    }
  }

  /** A text is a number literal if and only if the scanner takes all of it, and the scanner takes the longest literal
      a text starts with, if there is one. */
  lemma NumberExactly(s: string)
    ensures IsNumber(s) <==> s != "" && NumberLength(s) == |s|
    ensures NumberLength(s) > 0 ==> IsNumber(s[..NumberLength(s)])
    ensures forall n | 0 <= n <= |s| && IsNumber(s[..n]) :: 0 < n <= NumberLength(s)
  {
    hide IsNumber, NumberLength;
    assert s[..|s|] == s;
    if NumberLength(s) > 0 { ScannedIsNumber(s); }
    forall n | 0 <= n <= |s| && IsNumber(s[..n]) ensures 0 < n <= NumberLength(s) { LongestNumber(s, n); }
  }

  lemma WholeIsNumber(s: string)
    requires IsInteger(s)
    ensures IsNumber(s)
  {
    hide IsInteger;
    assert AreParts("", s, "", "") && s == "" + s + "" + "";
  }

  lemma NumberHead(s: string)
    requires NumberLength(s) > 0
    ensures s[0] == '-' || Digit(s[0])
  {
  }

  // -- strings --------------------------------------------------------------

  lemma HexValueOfDigit(n: nat)
    requires n < 16
    ensures HexValue(HexDigit(n)) == Some(n)
  {
  }

  lemma HexPlaces(n: nat)
    requires n < 0x10000
    ensures n == 4096 * (n / 4096) + 256 * (n / 256 % 16) + 16 * (n / 16 % 16) + n % 16
  {
    assert n / 16 / 16 == n / 256 && n / 256 / 16 == n / 4096;
  }

  lemma Unhex4OfHex4(n: nat, t: string)
    requires n < 0x10000
    ensures Unhex4(Hex4(n) + t) == Some(n)
  {
    hide HexValue, HexDigit;
    HexValueOfDigit(n / 4096);
    HexValueOfDigit(n / 256 % 16);
    HexValueOfDigit(n / 16 % 16);
    HexValueOfDigit(n % 16);
    HexPlaces(n);
  }

  lemma ScanSurrogates(high: nat, low: nat, c: char, t: string)
    requires 0xD800 <= high < 0xDC00 <= low < 0xE000
    requires c as int == 0x10000 + (high - 0xD800) * 1024 + (low - 0xDC00)
    ensures ScanEscape("u" + Hex4(high) + UnicodeEscape(low) + t) == Got(c, t)
  {
    hide Hex4, Unhex4;
    var s := "u" + Hex4(high) + UnicodeEscape(low) + t;
    assert s[1..] == Hex4(high) + (UnicodeEscape(low) + t);
    Unhex4OfHex4(high, UnicodeEscape(low) + t);
    assert s[7..] == Hex4(low) + t;
    Unhex4OfHex4(low, t);
    assert s[11..] == t;
  }

  lemma ScanSurrogatePair(c: char, t: string)
    requires c as int >= 0x10000
    ensures Escape(c)[0] == '\\'
    ensures ScanEscape(Escape(c)[1..] + t) == Got(c, t)
  {
    hide Hex4, Unhex4, ScanEscape;
    var n := c as int - 0x10000;
    var high, low := 0xD800 + n / 1024, 0xDC00 + n % 1024;
    assert Escape(c) == UnicodeEscape(high) + UnicodeEscape(low);
    hide Escape;
    ScanSurrogates(high, low, c, t);
    assert Escape(c)[1..] + t == "u" + Hex4(high) + UnicodeEscape(low) + t;
  }

  lemma ScanFourDigits(c: char, t: string)
    requires |Escape(c)| == 6
    ensures ScanEscape(Escape(c)[1..] + t) == Got(c, t)
  {
    hide Unhex4, Hex4;
    var s := Escape(c)[1..] + t;
    assert s == "u" + Hex4(c as int) + t;
    assert s[1..] == Hex4(c as int) + t;
    Unhex4OfHex4(c as int, t);
    assert s[5..] == t;
  }

  lemma ScanStringOfEscape(c: char, t: string)
    ensures ScanString(Escape(c) + t) == Push(c, ScanString(t))
  {
    hide Unhex4, Hex4;
    var s := Escape(c) + t;
    if Escape(c) == [c] {
      assert s[1..] == t;
    } else if |Escape(c)| == 2 {
      assert s[1..][1..] == t;
      assert s[1..][0] == Escape(c)[1];
      assert ScanEscape(s[1..]) == Got(c, t);
    } else if c as int < 0x10000 {
      ScanFourDigits(c, t);
      assert s[1..] == Escape(c)[1..] + t;
    } else {
      ScanSurrogatePair(c, t);
      assert s[1..] == Escape(c)[1..] + t;
    }
  }

  /** Scanning a printed string gives it back, every character of it. */
  lemma {:induction false} ScanStringOfQuoted(s: string, t: string)
    ensures ScanString(QuotedTail(s) + t) == Got(s, t)
  {
    if s == "" {
      assert QuotedTail(s) + t == "\"" + t;
    } else {
      assert QuotedTail(s) + t == Escape(s[0]) + (QuotedTail(s[1..]) + t);
      ScanStringOfEscape(s[0], QuotedTail(s[1..]) + t);
      ScanStringOfQuoted(s[1..], t);
      assert s == [s[0]] + s[1..];
    }
  }

  // -- white space ----------------------------------------------------------

  ghost predicate AllSpace(s: string) { forall k :: 0 <= k < |s| ==> Space(s[k]) }

  lemma {:induction false} SkipSpaceOver(gap: string, t: string)
    requires AllSpace(gap)
    ensures SkipSpace(gap + t) == SkipSpace(t)
  {
    if gap == "" {
      assert gap + t == t;
    } else {
      assert (gap + t)[1..] == gap[1..] + t;
      SkipSpaceOver(gap[1..], t);
    }
  }

  lemma {:induction false} SpacesAreSpace(n: nat)
    ensures AllSpace(Spaces(n))
  {
    if n > 0 { SpacesAreSpace(n - 1); }
  }

  lemma LayoutIsSpace(layout: Layout, depth: nat)
    ensures AllSpace(Break(layout, depth)) && AllSpace(Gap(layout, depth))
  {
    SpacesAreSpace(2 * depth);
  }

  // -- loads inverts dumps --------------------------------------------------

  /** The characters a JSON value can start with. */
  predicate Starts(c: char) { c in "\"{[ntf-" || Digit(c) }

  lemma TextHead(j: JSON, layout: Layout, depth: nat)
    requires WellFormed(j)
    ensures Text(j, layout, depth) != "" && Starts(Text(j, layout, depth)[0])
    ensures j.Obj? ==> Text(j, layout, depth)[0] == '{'
  {
    hide IsNumber, NumberLength;
    if j.Num? {
      NumberExactly(j.literal);
      NumberHead(j.literal);
    }
  }

  lemma ItemsHead(items: seq<JSON>, layout: Layout, depth: nat)
    requires items != [] && WellFormed(items[0])
    ensures ItemsText(items, layout, depth) != "" && Starts(ItemsText(items, layout, depth)[0])
  {
    TextHead(items[0], layout, depth);
  }

  /** What follows a number in printed text never continues it. */
  predicate Delimits(j: JSON, t: string) {
    j.Num? && t != "" ==> !Continues(t[0])
  }

  lemma ScanNumber(literal: string, t: string)
    requires IsNumber(literal) && (t != "" ==> !Continues(t[0]))
    ensures ScanValue(literal + t) == Got(Num(literal), t)
  {
    hide NumberLength, ScanString, ScanObject, ScanArray, IsNumber;
    NumberExactly(literal);
    NumberHead(literal);
    var s := literal + t;
    NumberAgrees(literal, s);
    assert s[0] == literal[0] && s[..|literal|] == literal && s[|literal|..] == t;
    NoWord(s);
  }

  lemma NoWord(s: string)
    requires s != "" && s[0] !in "ntf"
    ensures !StartsWith(s, "null") && !StartsWith(s, "true") && !StartsWith(s, "false")
  {
    if |s| >= 4 { assert s[..4][0] == s[0]; }
    if |s| >= 5 { assert s[..5][0] == s[0]; }
  }

  lemma ScanWord(word: string, t: string)
    requires word in ["null", "true", "false"]
    ensures ScanValue(word + t) == Got(if word == "null" then Null else Bool(word == "true"), t)
  {
    hide NumberLength, ScanString, ScanObject, ScanArray;
    var s := word + t;
    assert s[..|word|] == word && s[|word|..] == t && s[0] == word[0];
    if word == "false" { assert s[..4][0] == 'f'; }
    if word == "true" { assert s[..4][0] == 't'; }
  }

  lemma ScanQuote(s: string, text: string, t: string)
    requires ScanString(s) == Got(text, t)
    ensures ScanValue("\"" + s) == Got(Str(text), t)
  {
    hide ScanString;
    assert ("\"" + s)[1..] == s;
  }

  lemma ScanBrace(s: string)
    ensures ScanValue("{" + s) == ScanObject(s)
  {
    hide ScanObject;
    assert ("{" + s)[1..] == s;
  }

  lemma ScanBracket(s: string)
    ensures ScanValue("[" + s) == ScanArray(s)
  {
    hide ScanArray;
    assert ("[" + s)[1..] == s;
  }

  lemma ScanEmptyObject(t: string)
    ensures ScanObject("}" + t) == Got(Obj(map[]), t)
  {
    assert ("}" + t)[1..] == t;
  }

  lemma ScanEmptyArray(t: string)
    ensures ScanArray("]" + t) == Got(Arr([]), t)
  {
    hide ScanItems;
    assert ("]" + t)[1..] == t;
  }

  lemma ScanArrayFrom(gap: string, s: string)
    requires AllSpace(gap) && s != "" && Starts(s[0])
    ensures ScanArray(gap + s) == ScanItems(s, [])
  {
    hide ScanItems;
    SkipSpaceOver(gap, s);
  }

  lemma ScanObjectFrom(gap: string, s: string)
    requires AllSpace(gap)
    ensures ScanObject(gap + ("\"" + s)) == ScanMembers(s, map[])
  {
    hide ScanMembers;
    SkipSpaceOver(gap, "\"" + s);
    assert ("\"" + s)[1..] == s;
  }

  lemma ScanLastItem(s: string, value: JSON, gap: string, t: string, read: seq<JSON>)
    requires AllSpace(gap) && ScanValue(s) == Got(value, gap + ("]" + t))
    ensures ScanItems(s, read) == Got(Arr(read + [value]), t)
  {
    hide ScanValue;
    SkipSpaceOver(gap, "]" + t);
    assert ("]" + t)[1..] == t;
  }

  lemma ScanNextItem(s: string, value: JSON, gap: string, t: string, read: seq<JSON>)
    requires AllSpace(gap) && ScanValue(s) == Got(value, "," + (gap + t)) && t != "" && Starts(t[0])
    ensures ScanItems(s, read) == ScanItems(t, read + [value])
  {
    hide ScanValue;
    assert ("," + (gap + t))[1..] == gap + t;
    SkipSpaceOver(gap, t);
  }

  lemma ScanMember(s: string, key: string, text: string)
    requires text != "" && Starts(text[0])
    ensures ScanString(QuotedTail(key) + (": " + text)) == Got(key, ": " + text)
    ensures SkipSpace(": " + text) == ": " + text && (": " + text)[1..] == " " + text
    ensures SkipSpace(" " + text) == text
  {
    hide ScanString, QuotedTail;
    ScanStringOfQuoted(key, ": " + text);
    SkipSpaceOver(" ", text);
    assert (": " + text)[1..] == " " + text;
  }

  lemma ScanLastMember(
    s: string, key: string, text: string, value: JSON, gap: string, t: string, read: map<string, JSON>)
    requires AllSpace(gap) && text != "" && Starts(text[0]) && s == QuotedTail(key) + (": " + text)
    requires ScanValue(text) == Got(value, gap + ("}" + t))
    ensures ScanMembers(s, read) == Got(Obj(read[key := value]), t)
  {
    hide ScanValue, ScanString, QuotedTail;
    ScanMember(s, key, text);
    SkipSpaceOver(gap, "}" + t);
    assert ("}" + t)[1..] == t;
  }

  lemma ScanNextMember(
    s: string, key: string, text: string, value: JSON, gap: string, t: string, read: map<string, JSON>)
    requires AllSpace(gap) && text != "" && Starts(text[0]) && s == QuotedTail(key) + (": " + text)
    requires ScanValue(text) == Got(value, "," + (gap + ("\"" + t)))
    ensures ScanMembers(s, read) == ScanMembers(t, read[key := value])
  {
    hide ScanValue, ScanString, QuotedTail;
    ScanMember(s, key, text);
    assert ("," + (gap + ("\"" + t)))[1..] == gap + ("\"" + t);
    SkipSpaceOver(gap, "\"" + t);
    assert ("\"" + t)[1..] == t;
  }

  lemma NumberIsNumber(j: JSON)
    requires WellFormed(j) && j.Num?
    ensures IsNumber(j.literal)
  {
  }

  /** `loads` inverts `dumps` at every depth and in both layouts, whatever text comes after. */
  lemma {:induction false} ScanText(j: JSON, layout: Layout, depth: nat, t: string)
    requires WellFormed(j) && Delimits(j, t)
    ensures ScanValue(Text(j, layout, depth) + t) == Got(j, t)
    decreases j
  {
    hide ScanValue, ScanString, ScanArray, ScanObject, ItemsText, MembersText, QuotedTail, SortedKeys;
    hide NumberLength, IsNumber, Break, SkipSpace, WellFormed;
    match j
    case Null => ScanWord("null", t);
    case Bool(b) => ScanWord(if b then "true" else "false", t);
    case Num(literal) => NumberIsNumber(j); ScanNumber(literal, t);
    case Str(text) =>
      assert Quoted(text) + t == "\"" + (QuotedTail(text) + t);
      ScanStringOfQuoted(text, t);
      ScanQuote(QuotedTail(text) + t, text, t);
    case Arr(items) =>
      if items == [] {
        assert Text(j, layout, depth) + t == "[" + ("]" + t);
        ScanBracket("]" + t);
        ScanEmptyArray(t);
      } else {
        ScanArrayText(items, layout, depth, t);
      }
    case Obj(members) =>
      if members == map[] {
        assert Text(j, layout, depth) + t == "{" + ("}" + t);
        ScanBrace("}" + t);
        ScanEmptyObject(t);
      } else {
        ScanObjectText(j, layout, depth, t);
      }
  }

  lemma {:induction false} ScanArrayText(items: seq<JSON>, layout: Layout, depth: nat, t: string)
    requires WellFormed(Arr(items)) && items != []
    ensures ScanValue(Text(Arr(items), layout, depth) + t) == Got(Arr(items), t)
    decreases items, 1
  {
    hide ScanValue, ScanArray, ScanItems, ItemsText, Break;
    var open, close := Break(layout, depth + 1), Break(layout, depth);
    var body := ItemsText(items, layout, depth + 1) + (close + ("]" + t));
    assert Text(Arr(items), layout, depth) + t == "[" + (open + body);
    ScanBracket(open + body);
    LayoutIsSpace(layout, depth + 1);
    LayoutIsSpace(layout, depth);
    ItemsHead(items, layout, depth + 1);
    ScanArrayFrom(open, body);
    ScanItemsText(items, layout, depth + 1, close, t, []);
    assert [] + items == items;
  }

  lemma ItemsTextIs(items: seq<JSON>, layout: Layout, depth: nat, end: string)
    requires items != []
    ensures ItemsText(items, layout, depth) + end == Text(items[0], layout, depth)
      + if |items| == 1 then end else "," + (Gap(layout, depth) + (ItemsText(items[1..], layout, depth) + end))
  {
    hide Text, Gap;
  }

  lemma ItemsAreWellFormed(items: seq<JSON>)
    requires items != [] && WellFormed(Arr(items))
    ensures WellFormed(items[0])
    ensures |items| > 1 ==> WellFormed(items[1]) && WellFormed(Arr(items[1..]))
  {
    hide IsNumber;
  }

  lemma CommaDelimits(j: JSON, t: string)
    ensures Delimits(j, "," + t)
  {
  }

  lemma GapEndsNumber(j: JSON, gap: string, t: string)
    requires AllSpace(gap) && t != "" && !Continues(t[0])
    ensures Delimits(j, gap + t)
  {
    if gap != "" { assert (gap + t)[0] == gap[0]; }
  }

  lemma {:induction false} ScanItemsText(
    items: seq<JSON>, layout: Layout, depth: nat, gap: string, t: string, read: seq<JSON>)
    requires items != [] && AllSpace(gap) && WellFormed(Arr(items))
    ensures ScanItems(ItemsText(items, layout, depth) + (gap + ("]" + t)), read) == Got(Arr(read + items), t)
    decreases items, 0
  {
    hide ScanValue, ScanItems, Text, Gap, AllSpace, ItemsText, WellFormed, Delimits;
    var end := gap + ("]" + t);
    ItemsAreWellFormed(items);
    ItemsTextIs(items, layout, depth, end);
    if |items| == 1 {
      GapEndsNumber(items[0], gap, "]" + t);
      ScanText(items[0], layout, depth, end);
      ScanLastItem(Text(items[0], layout, depth) + end, items[0], gap, t, read);
      assert [items[0]] == items;
    } else {
      var next := ItemsText(items[1..], layout, depth) + end;
      var after := "," + (Gap(layout, depth) + next);
      CommaDelimits(items[0], Gap(layout, depth) + next);
      ScanText(items[0], layout, depth, after);
      LayoutIsSpace(layout, depth);
      ItemsHead(items[1..], layout, depth);
      ScanNextItem(Text(items[0], layout, depth) + after, items[0], Gap(layout, depth), next, read);
      ScanItemsText(items[1..], layout, depth, gap, t, read + [items[0]]);
      assert read + [items[0]] + items[1..] == read + items;
    }
  }

  /** What a scan of the members `keys` has read, starting from `read`. */
  ghost function ReadBack(members: map<string, JSON>, keys: seq<string>, read: map<string, JSON>): map<string, JSON>
    requires Elements(keys) <= members.Keys
  {
    read + (map k | k in Elements(keys) :: members[k])
  }

  lemma ReadBackWhole(members: map<string, JSON>, keys: seq<string>)
    requires Elements(keys) == members.Keys
    ensures ReadBack(members, keys, map[]) == members
  {
  }

  lemma ReadBackStep(members: map<string, JSON>, keys: seq<string>, read: map<string, JSON>)
    requires keys != [] && Elements(keys) <= members.Keys
    ensures keys[0] in members && Elements(keys[1..]) <= members.Keys
    ensures ReadBack(members, keys[1..], read[keys[0] := members[keys[0]]]) == ReadBack(members, keys, read)
  {
    assert keys[0] in Elements(keys);
    assert keys == [keys[0]] + keys[1..];
    ConsElements(keys[0], keys[1..]);
  }

  /** Printed members without their opening quote. */
  ghost function MembersTail(j: JSON, keys: seq<string>, layout: Layout, depth: nat): (r: string)
    requires j.Obj? && keys != [] && Elements(keys) <= j.members.Keys
    ensures MembersText(j, keys, layout, depth) == "\"" + r
  {
    hide QuotedTail, Text;
    var text := MembersText(j, keys, layout, depth);
    assert text[0] == '\"' && text == "\"" + text[1..];
    text[1..]
  }

  lemma {:induction false} ScanObjectText(j: JSON, layout: Layout, depth: nat, t: string)
    requires WellFormed(j) && j.Obj? && j.members != map[]
    ensures ScanValue(Text(j, layout, depth) + t) == Got(j, t)
    decreases j, |j.members| + 1
  {
    hide ScanValue, ScanObject, ScanMembers, MembersText, Break, SortedKeys;
    var keys := SortedKeys(j.members.Keys);
    var open, close := Break(layout, depth + 1), Break(layout, depth);
    assert keys != [] by { assert |keys| > 0; }
    var tail := MembersTail(j, keys, layout, depth + 1) + (close + ("}" + t));
    assert Text(j, layout, depth) + t == "{" + (open + ("\"" + tail));
    ScanBrace(open + ("\"" + tail));
    LayoutIsSpace(layout, depth + 1);
    LayoutIsSpace(layout, depth);
    ScanObjectFrom(open, tail);
    ScanMembersText(j, keys, layout, depth + 1, close, t, map[]);
    ReadBackWhole(j.members, keys);
  }

  lemma MembersTailIs(j: JSON, keys: seq<string>, layout: Layout, depth: nat)
    requires j.Obj? && keys != [] && Elements(keys) <= j.members.Keys
    ensures keys[0] in j.members && Elements(keys[1..]) <= j.members.Keys
    ensures MembersTail(j, keys, layout, depth) ==
      QuotedTail(keys[0]) + (": " + Text(j.members[keys[0]], layout, depth)
      + if |keys| == 1 then "" else "," + Gap(layout, depth) + ("\"" + MembersTail(j, keys[1..], layout, depth)))
  {
    hide QuotedTail, Text, Gap;
    ReadBackStep(j.members, keys, map[]);
  }

  lemma {:induction false} ScanMembersText(
    j: JSON, keys: seq<string>, layout: Layout, depth: nat, gap: string, t: string, read: map<string, JSON>)
    requires WellFormed(j) && j.Obj? && keys != [] && Elements(keys) <= j.members.Keys && AllSpace(gap)
    ensures ScanMembers(MembersTail(j, keys, layout, depth) + (gap + ("}" + t)), read)
         == Got(Obj(ReadBack(j.members, keys, read)), t)
    decreases j, |keys|
  {
    hide ScanValue, ScanMembers, Text, QuotedTail, Gap, SkipSpace, MembersText, MembersTail, ScanString, NumberLength;
    var key, end := keys[0], gap + ("}" + t);
    ReadBackStep(j.members, keys, read);
    MembersTailIs(j, keys, layout, depth);
    var value := j.members[key];
    var text := Text(value, layout, depth);
    TextHead(value, layout, depth);
    if |keys| == 1 {
      assert MembersTail(j, keys, layout, depth) + end == QuotedTail(key) + (": " + (text + end));
      assert Delimits(value, end) by { if gap != "" { assert end[0] == gap[0]; } }
      ScanText(value, layout, depth, end);
      ScanLastMember(QuotedTail(key) + (": " + (text + end)), key, text + end, value, gap, t, read);
      assert keys[1..] == [];
      assert ReadBack(j.members, [], read[key := value]) == read[key := value];
    } else {
      var next := MembersTail(j, keys[1..], layout, depth) + end;
      var after := "," + (Gap(layout, depth) + ("\"" + next));
      assert MembersTail(j, keys, layout, depth) + end == QuotedTail(key) + (": " + (text + after));
      ScanText(value, layout, depth, after);
      LayoutIsSpace(layout, depth);
      ScanNextMember(
        QuotedTail(key) + (": " + (text + after)), key, text + after, value, Gap(layout, depth), next, read);
      ScanMembersText(j, keys[1..], layout, depth, gap, t, read[key := value]);
    }
  }

  /** What `dumps` writes, `loads` reads back as the same value. */
  lemma LoadsInvertsDumps(j: JSON, layout: Layout)
    requires WellFormed(j)
    ensures Loads(Text(j, layout, 0)) == Some(j)
  {
    hide ScanValue, Text, WellFormed;
    ScanText(j, layout, 0, "");
    assert Text(j, layout, 0) + "" == Text(j, layout, 0);
    TextHead(j, layout, 0);
  }

  // -- a longer input scans the same ----------------------------------------

  lemma {:induction false} SkipSpaceExtends(s: string, t: string)
    requires SkipSpace(s) != ""
    ensures SkipSpace(s + t) == SkipSpace(s) + t
  {
    assert (s + t)[0] == s[0] && (s + t)[1..] == s[1..] + t;
    if Space(s[0]) { SkipSpaceExtends(s[1..], t); }
  }

  lemma ScanEscapeExtends(s: string, t: string)
    requires ScanEscape(s).Got?
    ensures ScanEscape(s + t) == Got(ScanEscape(s).value, ScanEscape(s).rest + t)
  {
    assert (s + t)[1..] == s[1..] + t;
    if s[0] == 'u' {
      assert (s + t)[5..] == s[5..] + t;
      if |s| >= 11 {
        assert (s + t)[7..] == s[7..] + t && (s + t)[11..] == s[11..] + t;
      }
    }
  }

  lemma {:induction false} ScanStringExtends(s: string, t: string)
    requires ScanString(s).Got?
    ensures ScanString(s + t) == Got(ScanString(s).value, ScanString(s).rest + t)
    decreases |s|
  {
    assert (s + t)[0] == s[0] && (s + t)[1..] == s[1..] + t;
    if s[0] == '\\' {
      ScanEscapeExtends(s[1..], t);
      ScanStringExtends(ScanEscape(s[1..]).rest, t);
    } else if s[0] != '\"' {
      ScanStringExtends(s[1..], t);
    }
  }

  /** Where a scanned value is complete, more input does not change it. */
  predicate Complete(r: Scan<JSON>) {
    r.Got? && (r.value.Num? ==> r.rest != "" && !Continues(r.rest[0]))
  }

  lemma NumberExtends(s: string, t: string)
    requires var n := NumberLength(s); n > 0 && n < |s| && !Continues(s[n])
    ensures NumberLength(s + t) == NumberLength(s) && (s[0] == '-' || Digit(s[0]))
    ensures var n := NumberLength(s); (s + t)[..n] == s[..n] && (s + t)[n..] == s[n..] + t
  {
    hide NumberLength;
    NumberHead(s);
    NumberAgrees(s, s + t);
  }

  lemma {:induction false} ScanValueExtends(s: string, t: string)
    requires Complete(ScanValue(s))
    ensures ScanValue(s + t) == Got(ScanValue(s).value, ScanValue(s).rest + t)
    decreases |s|, 1
  {
    hide NumberLength, ScanString, ScanObject, ScanArray;
    assert (s + t)[0] == s[0] && (s + t)[1..] == s[1..] + t;
    if s[0] == '\"' {
      ScanStringExtends(s[1..], t);
    } else if s[0] == '{' {
      ScanObjectExtends(s[1..], t);
    } else if s[0] == '[' {
      ScanArrayExtends(s[1..], t);
    } else if StartsWith(s, "null") || StartsWith(s, "true") {
      assert (s + t)[..4] == s[..4] && (s + t)[4..] == s[4..] + t;
    } else if StartsWith(s, "false") {
      assert (s + t)[..5] == s[..5] && (s + t)[5..] == s[5..] + t;
    } else {
      NumberExtends(s, t);
      NoWord(s + t);
    }
  }

  lemma {:induction false} ScanObjectExtends(s: string, t: string)
    requires ScanObject(s).Got?
    ensures ScanObject(s + t) == Got(ScanObject(s).value, ScanObject(s).rest + t)
    decreases |s|, 2
  {
    hide ScanMembers;
    SkipSpaceExtends(s, t);
    var u := SkipSpace(s);
    assert (u + t)[0] == u[0] && (u + t)[1..] == u[1..] + t;
    if u[0] == '\"' { ScanMembersExtends(u[1..], t, map[]); }
  }

  lemma AfterValue(r: string, c: char)
    requires SkipSpace(r) != "" && SkipSpace(r)[0] == c && c in ",]}"
    ensures r != "" && !Continues(r[0])
  {
  }

  lemma {:induction false} ScanMembersExtends(s: string, t: string, read: map<string, JSON>)
    requires ScanMembers(s, read).Got?
    ensures ScanMembers(s + t, read) == Got(ScanMembers(s, read).value, ScanMembers(s, read).rest + t)
    decreases |s|, 0
  {
    hide ScanValue, ScanString, SkipSpace;
    ScanStringExtends(s, t);
    var key := ScanString(s);
    SkipSpaceExtends(key.rest, t);
    var colon := SkipSpace(key.rest);
    assert (colon + t)[1..] == colon[1..] + t;
    SkipSpaceExtends(colon[1..], t);
    var value := ScanValue(SkipSpace(colon[1..]));
    var next := SkipSpace(value.rest);
    AfterValue(value.rest, next[0]);
    ScanValueExtends(SkipSpace(colon[1..]), t);
    SkipSpaceExtends(value.rest, t);
    assert (next + t)[0] == next[0] && (next + t)[1..] == next[1..] + t;
    if next[0] == ',' {
      SkipSpaceExtends(next[1..], t);
      var quote := SkipSpace(next[1..]);
      assert (quote + t)[1..] == quote[1..] + t;
      ScanMembersExtends(quote[1..], t, read[key.value := value.value]);
    }
  }

  lemma {:induction false} ScanArrayExtends(s: string, t: string)
    requires ScanArray(s).Got?
    ensures ScanArray(s + t) == Got(ScanArray(s).value, ScanArray(s).rest + t)
    decreases |s|, 3
  {
    hide ScanItems;
    SkipSpaceExtends(s, t);
    var u := SkipSpace(s);
    assert (u + t)[0] == u[0] && (u + t)[1..] == u[1..] + t;
    if u[0] != ']' { ScanItemsExtends(u, t, []); }
  }

  lemma {:induction false} ScanItemsExtends(s: string, t: string, read: seq<JSON>)
    requires ScanItems(s, read).Got?
    ensures ScanItems(s + t, read) == Got(ScanItems(s, read).value, ScanItems(s, read).rest + t)
    decreases |s|, 2
  {
    hide ScanValue;
    var value := ScanValue(s);
    var next := SkipSpace(value.rest);
    AfterValue(value.rest, next[0]);
    ScanValueExtends(s, t);
    SkipSpaceExtends(value.rest, t);
    assert (next + t)[0] == next[0] && (next + t)[1..] == next[1..] + t;
    if next[0] == ',' {
      SkipSpaceExtends(next[1..], t);
      ScanItemsExtends(SkipSpace(next[1..]), t, read + [value.value]);
    }
  }

  // -- no proper prefix of an object is JSON --------------------------------

  lemma {:induction false} SkipSpaceKeepsLast(s: string)
    requires s != "" && !Space(s[|s| - 1])
    ensures SkipSpace(s) != "" && SkipSpace(s)[|SkipSpace(s)| - 1] == s[|s| - 1]
  {
    if Space(s[0]) { SkipSpaceKeepsLast(s[1..]); }
  }

  /** A JSON object's text that does not end in white space has no proper prefix that is JSON:
      a file or a line cut short is never read as something else. */
  lemma ObjectTextIsPrefixFree(text: string, cut: nat)
    requires Loads(text).Some? && Loads(text).value.Obj?
    requires !Space(text[|text| - 1])
    requires cut < |text|
    ensures Loads(text[..cut]) == None
  {
    var p, t := text[..cut], text[cut..];
    assert text == p + t;
    if SkipSpace(p) != "" {
      hide ScanValue, SkipSpace;
      SkipSpaceExtends(p, t);
      HeadOfObject(SkipSpace(text));
      var r := ScanValue(SkipSpace(p));
      if r.Got? { HeadOfObject(SkipSpace(p)); }
      if r.Got? && SkipSpace(r.rest) == "" {
        ScanValueExtends(SkipSpace(p), t);
        SkipSpaceKeepsLast(r.rest + t);
      }
    }
  }

  lemma HeadOfObject(s: string)
    requires ScanValue(s).Got?
    ensures ScanValue(s).value.Obj? <==> s[0] == '{'
  {
    hide ScanItems;
    if s[0] == '[' { ScanArrayIsArray(s[1..]); }
    if s[0] == '{' {
      ScanObjectIsObject(s[1..]);
    }
  }

  lemma ScanObjectIsObject(s: string)
    ensures ScanObject(s).Got? ==> ScanObject(s).value.Obj?
  {
    hide ScanMembers;
    if SkipSpace(s) != "" { ScanMembersIsObject(SkipSpace(s)[1..], map[]); }
  }

  lemma {:induction false} ScanMembersIsObject(s: string, read: map<string, JSON>)
    ensures ScanMembers(s, read).Got? ==> ScanMembers(s, read).value.Obj?
    decreases |s|
  {
    hide ScanValue, ScanString, SkipSpace;
    var key := ScanString(s);
    if key.Got? && SkipSpace(key.rest) != "" {
      var value := ScanValue(SkipSpace(SkipSpace(key.rest)[1..]));
      if value.Got? && SkipSpace(value.rest) != "" {
        var quote := SkipSpace(SkipSpace(value.rest)[1..]);
        if quote != "" { ScanMembersIsObject(quote[1..], read[key.value := value.value]); }
      }
    }
  }

  lemma ScanArrayIsArray(s: string)
    ensures ScanArray(s).Got? ==> ScanArray(s).value.Arr?
  {
    ScanItemsIsArray(SkipSpace(s), []);
  }

  lemma {:induction false} ScanItemsIsArray(s: string, read: seq<JSON>)
    ensures ScanItems(s, read).Got? ==> ScanItems(s, read).value.Arr?
    decreases |s|
  {
    var value := ScanValue(s);
    if value.Got? {
      var next := SkipSpace(value.rest);
      if next != "" && next[0] == ',' { ScanItemsIsArray(SkipSpace(next[1..]), read + [value.value]); }
    }
  }

  // -- printed text is one line of printable ASCII ---------------------------

  ghost predicate Printable(s: string) { forall c :: c in s ==> ' ' <= c <= '~' }

  lemma PrintableConcat(a: string, b: string)
    requires Printable(a) && Printable(b)
    ensures Printable(a + b)
  {
  }

  lemma HexIsPrintable(n: nat)
    requires n < 0x10000
    ensures Printable(UnicodeEscape(n))
  {
    assert forall d | 0 <= d < 16 :: '0' <= HexDigit(d) <= 'f';
    hide HexDigit;
    assert Printable("\\u");
    PrintableConcat("\\u", Hex4(n));
  }

  lemma EscapeIsPrintable(c: char)
    ensures Printable(Escape(c))
  {
    hide UnicodeEscape;
    if c as int < 0x10000 {
      HexIsPrintable(c as int);
    } else {
      var n := c as int - 0x10000;
      HexIsPrintable(0xD800 + n / 1024);
      HexIsPrintable(0xDC00 + n % 1024);
      PrintableConcat(UnicodeEscape(0xD800 + n / 1024), UnicodeEscape(0xDC00 + n % 1024));
    }
  }

  lemma {:induction false} QuotedIsPrintable(s: string)
    ensures Printable(QuotedTail(s)) && Printable(Quoted(s))
  {
    if s != "" {
      EscapeIsPrintable(s[0]);
      QuotedIsPrintable(s[1..]);
      assert QuotedTail(s) == Escape(s[0]) + QuotedTail(s[1..]);
    }
  }

  predicate InNumber(c: char) { Continues(c) || c == '+' || c == '-' }

  lemma NumberCharacters(s: string)
    ensures forall k :: 0 <= k < NumberLength(s) ==> InNumber(s[k])
  {
    hide IntegerEnd, FractionEnd, ExponentEnd;
    var sign := if s != "" && s[0] == '-' then 1 else 0;
    var whole := IntegerEnd(s, sign);
    IntegerCharacters(s, sign);
    FractionCharacters(s, whole);
    ExponentCharacters(s, FractionEnd(s, whole));
  }

  lemma IntegerCharacters(s: string, at: nat)
    requires at <= |s|
    ensures forall k :: at <= k < IntegerEnd(s, at) ==> InNumber(s[k])
  {
    hide Digits;
    RunCharacters(s, at, IntegerEnd(s, at));
  }

  lemma FractionCharacters(s: string, at: nat)
    requires at <= |s|
    ensures forall k :: at <= k < FractionEnd(s, at) ==> InNumber(s[k])
  {
    hide Digits;
    if at < |s| { RunCharacters(s, at + 1, FractionEnd(s, at)); }
  }

  lemma ExponentCharacters(s: string, at: nat)
    requires at <= |s|
    ensures forall k :: at <= k < ExponentEnd(s, at) ==> InNumber(s[k])
  {
    hide Digits;
    if at < |s| {
      var from := if at + 1 < |s| && (s[at + 1] == '+' || s[at + 1] == '-') then at + 2 else at + 1;
      RunCharacters(s, from, ExponentEnd(s, at));
    }
  }

  lemma RunCharacters(s: string, at: nat, end: nat)
    requires at <= |s| && end <= |s|
    ensures end <= at + Digits(s[at..]) ==> forall k :: at <= k < end ==> Digit(s[k])
  {
    if end <= at + Digits(s[at..]) {
      forall k | at <= k < end ensures Digit(s[k]) { assert s[at..][k - at] == s[k]; }
    }
  }

  lemma {:induction false} CompactIsPrintable(j: JSON, depth: nat)
    requires WellFormed(j)
    ensures Printable(Text(j, Compact, depth))
    decreases j
  {
    hide QuotedTail, NumberLength, IsNumber, Quoted, ItemsText, MembersText, SortedKeys;
    match j
    case Num(literal) => NumberExactly(literal); NumberCharacters(literal);
    case Str(s) => QuotedIsPrintable(s);
    case Arr(items) => if items != [] { ItemsArePrintable(items, depth + 1); }
    case Obj(members) => if members != map[] { MembersArePrintable(j, SortedKeys(members.Keys), depth + 1); }
    case _ =>
  }

  lemma {:induction false} ItemsArePrintable(items: seq<JSON>, depth: nat)
    requires WellFormed(Arr(items))
    ensures Printable(ItemsText(items, Compact, depth))
    decreases items, 0
  {
    hide Text;
    if items != [] {
      assert WellFormed(items[0]);
      CompactIsPrintable(items[0], depth);
      assert WellFormed(Arr(items[1..]));
      ItemsArePrintable(items[1..], depth);
    }
  }

  lemma {:induction false} MembersArePrintable(j: JSON, keys: seq<string>, depth: nat)
    requires WellFormed(j) && j.Obj? && Elements(keys) <= j.members.Keys
    ensures Printable(MembersText(j, keys, Compact, depth))
    decreases j, |keys|
  {
    hide Text, Quoted;
    if keys != [] {
      ReadBackStep(j.members, keys, map[]);
      QuotedIsPrintable(keys[0]);
      CompactIsPrintable(j.members[keys[0]], depth);
      MembersArePrintable(j, keys[1..], depth);
    }
  }
}
