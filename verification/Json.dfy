/** JSON values, the text Python's `json.dumps` writes for them, and what `json.loads` reads.

    A Python dict is a map, so equal dicts are equal values. A number is kept as the text
    of its literal; `int` and `float` values are their `repr`. Strings are Unicode scalar values. */
module Json {
  import opened Wrappers
  import opened Ordering

  datatype JSON =
    | Null
    | Bool(b: bool)
    | Num(literal: string)
    | Str(s: string)
    | Arr(items: seq<JSON>)
    | Obj(members: map<string, JSON>)

  // -- number literals, by how they are put together: section 6 of RFC 8259 --

  /** One digit or more. */
  predicate IsRun(s: string) { s != "" && forall k | 0 <= k < |s| :: '0' <= s[k] <= '9' }

  predicate IsInteger(s: string) { s == "0" || (IsRun(s) && s[0] != '0') }

  predicate IsFraction(s: string) { s == "" || (s[0] == '.' && IsRun(s[1..])) }

  predicate IsExponent(s: string) {
    || s == ""
    || ((s[0] == 'e' || s[0] == 'E') && IsRun(if |s| > 1 && (s[1] == '+' || s[1] == '-') then s[2..] else s[1..]))
  }

  predicate AreParts(sign: string, whole: string, fraction: string, exponent: string) {
    (sign == "" || sign == "-") && IsInteger(whole) && IsFraction(fraction) && IsExponent(exponent)
  }

  ghost predicate IsNumber(s: string) {
    exists sign, whole, fraction, exponent ::
      AreParts(sign, whole, fraction, exponent) && s == sign + whole + fraction + exponent
  }

  /** Every number in the tree is a number literal. */
  ghost predicate WellFormed(j: JSON) {
    match j
    case Num(literal) => IsNumber(literal)
    case Arr(items) => forall k | 0 <= k < |items| :: WellFormed(items[k])
    case Obj(members) => forall k | k in members :: WellFormed(members[k])
    case _ => true
  }

  // -- scanning number literals ---------------------------------------------

  predicate Digit(c: char) { '0' <= c <= '9' }

  /** The characters that may continue a number literal after one of its complete prefixes. */
  predicate Continues(c: char) { Digit(c) || c == '.' || c == 'e' || c == 'E' }

  function Digits(s: string): (n: nat)
    ensures n <= |s|
    ensures n < |s| ==> !Digit(s[n])
    ensures forall k :: 0 <= k < n ==> Digit(s[k])
  {
    if s == "" || !Digit(s[0]) then 0 else 1 + Digits(s[1..])
  }

  /** Where the integer part starting at `at` ends; `at` itself when there is none. */
  function IntegerEnd(s: string, at: nat): (n: nat)
    requires at <= |s|
    ensures at <= n <= |s|
  {
    if at == |s| then at
    else if s[at] == '0' then at + 1
    else at + Digits(s[at..])
  }

  function FractionEnd(s: string, at: nat): (n: nat)
    requires at <= |s|
    ensures at <= n <= |s|
  {
    if at < |s| && s[at] == '.' && Digits(s[at + 1..]) > 0 then at + 1 + Digits(s[at + 1..]) else at
  }

  function ExponentEnd(s: string, at: nat): (n: nat)
    requires at <= |s|
    ensures at <= n <= |s|
  {
    if at < |s| && (s[at] == 'e' || s[at] == 'E') then
      var from := if at + 1 < |s| && (s[at + 1] == '+' || s[at + 1] == '-') then at + 2 else at + 1;
      if Digits(s[from..]) > 0 then from + Digits(s[from..]) else at
    else at
  }

  /** The length of the longest number literal `s` starts with, 0 when it starts with none. */
  function NumberLength(s: string): (n: nat)
    ensures n <= |s|
  {
    var sign := if s != "" && s[0] == '-' then 1 else 0;
    var whole := IntegerEnd(s, sign);
    if whole == sign then 0 else ExponentEnd(s, FractionEnd(s, whole))
  }

  // -- printing -------------------------------------------------------------

  function HexDigit(n: nat): char
    requires n < 16
  {
    "0123456789abcdef"[n]
  }

  function Hex4(n: nat): (r: string)
    requires n < 0x10000
    ensures |r| == 4
  {
    [HexDigit(n / 4096), HexDigit(n / 256 % 16), HexDigit(n / 16 % 16), HexDigit(n % 16)]
  }

  function UnicodeEscape(n: nat): (r: string)
    requires n < 0x10000
    ensures |r| == 6
  {
    "\\u" + Hex4(n)
  }

  const BACKSPACE: char := '\U{08}'
  const FORM_FEED: char := '\U{0C}'

  function Escape(c: char): (r: string)
    ensures r != ""
  {
    if c == '\"' then "\\\""
    else if c == '\\' then "\\\\"
    else if c == '\n' then "\\n"
    else if c == '\r' then "\\r"
    else if c == '\t' then "\\t"
    else if c == FORM_FEED then "\\f"
    else if c == BACKSPACE then "\\b"
    else if ' ' <= c <= '~' then [c]
    else if c as int < 0x10000 then UnicodeEscape(c as int)
    else
      var n := c as int - 0x10000;
      UnicodeEscape(0xD800 + n / 1024) + UnicodeEscape(0xDC00 + n % 1024)
  }

  function EscapeAll(s: string): string {
    if s == "" then "" else Escape(s[0]) + EscapeAll(s[1..])
  }

  /** A string literal without its opening quote. */
  function QuotedTail(s: string): string {
    EscapeAll(s) + "\""
  }

  function Quoted(s: string): string {
    "\"" + QuotedTail(s)
  }

  /** `Compact` is `json.dumps(data, sort_keys=True)`; `Indented` adds `indent=2`. */
  datatype Layout = Compact | Indented

  function Spaces(n: nat): (r: string)
    ensures |r| == n && forall k | 0 <= k < n :: r[k] == ' '
  {
    if n == 0 then "" else " " + Spaces(n - 1)
  }

  function Break(layout: Layout, depth: nat): string {
    if layout.Compact? then "" else "\n" + Spaces(2 * depth)
  }

  function Gap(layout: Layout, depth: nat): string {
    if layout.Compact? then " " else Break(layout, depth)
  }

  function Text(j: JSON, layout: Layout, depth: nat): string
    decreases j
  {
    match j
    case Null => "null"
    case Bool(b) => if b then "true" else "false"
    case Num(literal) => literal
    case Str(s) => Quoted(s)
    case Arr(items) =>
      if items == [] then "[]"
      else "[" + Break(layout, depth + 1) + ItemsText(items, layout, depth + 1) + Break(layout, depth) + "]"
    case Obj(members) =>
      if members == map[] then "{}"
      else "{" + Break(layout, depth + 1) + MembersText(j, SortedKeys(members.Keys), layout, depth + 1)
           + Break(layout, depth) + "}"
  }

  function ItemsText(items: seq<JSON>, layout: Layout, depth: nat): string
    decreases items, 0
  {
    if items == [] then ""
    else if |items| == 1 then Text(items[0], layout, depth)
    else Text(items[0], layout, depth) + "," + Gap(layout, depth) + ItemsText(items[1..], layout, depth)
  }

  function MembersText(j: JSON, keys: seq<string>, layout: Layout, depth: nat): string
    requires j.Obj? && Elements(keys) <= j.members.Keys
    decreases j, |keys|
  {
    if keys == [] then ""
    else
      assert keys[0] in Elements(keys);
      assert Elements(keys[1..]) <= Elements(keys);
      var member := Quoted(keys[0]) + ": " + Text(j.members[keys[0]], layout, depth);
      if |keys| == 1 then member
      else member + "," + Gap(layout, depth) + MembersText(j, keys[1..], layout, depth)
  }

  /** `json.dumps(data, sort_keys=True)`: one line of the event journal. */
  function Dumps(j: JSON): string {
    Text(j, Compact, 0)
  }

  /** `json.dump(data, handle, sort_keys=True, indent=2)`: a whole JSON file. */
  function DumpsIndented(j: JSON): string {
    Text(j, Indented, 0)
  }

  // -- scanning -------------------------------------------------------------

  /** What a scanner found at the start of its input, and the input after it. */
  datatype Scan<+T> = Fail | Got(value: T, rest: string)

  predicate Space(c: char) { c == ' ' || c == '\t' || c == '\n' || c == '\r' }

  function SkipSpace(s: string): (r: string)
    ensures |r| <= |s|
    ensures r != "" ==> !Space(r[0])
  {
    if s != "" && Space(s[0]) then SkipSpace(s[1..]) else s
  }

  function HexValue(c: char): Option<nat> {
    if '0' <= c <= '9' then Some(c as int - '0' as int)
    else if 'a' <= c <= 'f' then Some(c as int - 'a' as int + 10)
    else if 'A' <= c <= 'F' then Some(c as int - 'A' as int + 10)
    else None
  }

  /** The code unit of four hexadecimal digits. */
  function Unhex4(s: string): (n: Option<nat>)
    ensures n.Some? ==> |s| >= 4 && n.value < 0x10000
  {
    if |s| < 4 then None
    else match (HexValue(s[0]), HexValue(s[1]), HexValue(s[2]), HexValue(s[3]))
      case (Some(a), Some(b), Some(c), Some(d)) =>
        if a < 16 && b < 16 && c < 16 && d < 16 then Some(4096 * a + 256 * b + 16 * c + d) else None
      case _ => None
  }

  function Unescaped(c: char): Option<char> {
    if c == '\"' then Some('\"')
    else if c == '\\' then Some('\\')
    else if c == '/' then Some('/')
    else if c == 'b' then Some(BACKSPACE)
    else if c == 'f' then Some(FORM_FEED)
    else if c == 'n' then Some('\n')
    else if c == 'r' then Some('\r')
    else if c == 't' then Some('\t')
    else None
  }

  /** After a backslash. A lone surrogate is refused: it is no Unicode scalar value. */
  function ScanEscape(s: string): (r: Scan<char>)
    ensures r.Got? ==> |r.rest| < |s|
  {
    if s == "" then Fail
    else if s[0] != 'u' then
      match Unescaped(s[0])
      case Some(c) => Got(c, s[1..])
      case None => Fail
    else
      match Unhex4(s[1..])
      case None => Fail
      case Some(n) =>
        if !(0xD800 <= n < 0xE000) then Got(n as char, s[5..])
        else if n < 0xDC00 && |s| >= 11 && s[5] == '\\' && s[6] == 'u' then
          match Unhex4(s[7..])
          case Some(low) =>
            if 0xDC00 <= low < 0xE000
            then Got((0x10000 + (n - 0xD800) * 1024 + (low - 0xDC00)) as char, s[11..])
            else Fail
          case None => Fail
        else Fail
  }

  /** After the opening quote: section 7 of RFC 8259, control characters refused. */
  function ScanString(s: string): (r: Scan<string>)
    ensures r.Got? ==> |r.rest| < |s|
    decreases |s|
  {
    if s == "" then Fail
    else if s[0] == '\"' then Got("", s[1..])
    else if s[0] == '\\' then
      match ScanEscape(s[1..])
      case Fail => Fail
      case Got(c, rest) => Push(c, ScanString(rest))
    else if s[0] < ' ' then Fail
    else Push(s[0], ScanString(s[1..]))
  }

  function Push(c: char, r: Scan<string>): Scan<string> {
    if r.Got? then Got([c] + r.value, r.rest) else Fail
  }

  predicate StartsWith(s: string, word: string) {
    |word| <= |s| && s[..|word|] == word
  }

  function ScanValue(s: string): (r: Scan<JSON>)
    ensures r.Got? ==> |r.rest| < |s|
    decreases |s|, 1
  {
    if s == "" then Fail
    else if s[0] == '\"' then
      match ScanString(s[1..])
      case Fail => Fail
      case Got(text, rest) => Got(Str(text), rest)
    else if s[0] == '{' then ScanObject(s[1..])
    else if s[0] == '[' then ScanArray(s[1..])
    else if StartsWith(s, "null") then Got(Null, s[4..])
    else if StartsWith(s, "true") then Got(Bool(true), s[4..])
    else if StartsWith(s, "false") then Got(Bool(false), s[5..])
    else
      var n := NumberLength(s);
      if n == 0 then Fail else Got(Num(s[..n]), s[n..])
  }

  /** After `{`: section 4 of RFC 8259. */
  function ScanObject(s: string): (r: Scan<JSON>)
    ensures r.Got? ==> |r.rest| < |s|
    decreases |s|, 2
  {
    var t := SkipSpace(s);
    if t == "" then Fail
    else if t[0] == '}' then Got(Obj(map[]), t[1..])
    else if t[0] == '\"' then ScanMembers(t[1..], map[])
    else Fail
  }

  /** After the opening quote of a key, with the members read so far; a repeated key keeps its last value. */
  function ScanMembers(s: string, read: map<string, JSON>): (r: Scan<JSON>)
    ensures r.Got? ==> |r.rest| < |s|
    decreases |s|, 0
  {
    match ScanString(s)
    case Fail => Fail
    case Got(key, afterKey) =>
      var colon := SkipSpace(afterKey);
      if colon == "" || colon[0] != ':' then Fail
      else
        match ScanValue(SkipSpace(colon[1..]))
        case Fail => Fail
        case Got(value, afterValue) =>
          var next := SkipSpace(afterValue);
          if next == "" then Fail
          else if next[0] == '}' then Got(Obj(read[key := value]), next[1..])
          else if next[0] != ',' then Fail
          else
            var quote := SkipSpace(next[1..]);
            if quote == "" || quote[0] != '\"' then Fail
            else ScanMembers(quote[1..], read[key := value])
  }

  /** After `[`: section 5 of RFC 8259. */
  function ScanArray(s: string): (r: Scan<JSON>)
    ensures r.Got? ==> |r.rest| < |s|
    decreases |s|, 3
  {
    var t := SkipSpace(s);
    if t != "" && t[0] == ']' then Got(Arr([]), t[1..]) else ScanItems(t, [])
  }

  /** At an item, with the items read so far. */
  function ScanItems(s: string, read: seq<JSON>): (r: Scan<JSON>)
    ensures r.Got? ==> |r.rest| < |s|
    decreases |s|, 2
  {
    match ScanValue(s)
    case Fail => Fail
    case Got(value, afterValue) =>
      var next := SkipSpace(afterValue);
      if next == "" then Fail
      else if next[0] == ']' then Got(Arr(read + [value]), next[1..])
      else if next[0] != ',' then Fail
      else ScanItems(SkipSpace(next[1..]), read + [value])
  }

  /** `json.loads`: one value, white space around it, nothing else. */
  function Loads(s: string): Option<JSON> {
    var r := ScanValue(SkipSpace(s));
    if r.Got? && SkipSpace(r.rest) == "" then Some(r.value) else None
  }
}
