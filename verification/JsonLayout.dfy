/** How `json.dumps` lays a tree out: on one line, or with each level two spaces further right. */
module JsonLayout {
  import opened Json
  import opened JsonProperties
  import opened Ordering

  /** Two more spaces at the start of every line but the first. */
  ghost function Shift(s: string): string {
    if s == "" then "" else (if s[0] == '\n' then "\n  " else [s[0]]) + Shift(s[1..])
  }

  ghost function Joined(texts: seq<string>, separator: string): string {
    if texts == [] then "" else if |texts| == 1 then texts[0] else texts[0] + separator + Joined(texts[1..], separator)
  }

  /** The texts of the items, each on its own. */
  ghost function ItemTexts(items: seq<JSON>, layout: Layout): seq<string> {
    seq(|items|, k requires 0 <= k < |items| => Text(items[k], layout, 0))
  }

  ghost function MemberTexts(members: map<string, JSON>, keys: seq<string>, layout: Layout): seq<string>
    requires Elements(keys) <= members.Keys
  {
    seq(|keys|, k requires 0 <= k < |keys| =>
      assert keys[k] in Elements(keys);
      Quoted(keys[k]) + ": " + Text(members[keys[k]], layout, 0))
  }

  /** A list of texts between brackets, in either layout. */
  ghost function Bracketed(open: string, texts: seq<string>, close: string, layout: Layout): string {
    if texts == [] then open + close
    else match layout
      case Compact => open + Joined(texts, ", ") + close
      case Indented => open + Shift("\n" + Joined(texts, ",\n")) + "\n" + close
  }

  /** What one level deeper makes of a text. */
  ghost function Moved(layout: Layout, s: string): string { if layout.Compact? then s else Shift(s) }

  lemma {:induction false} ShiftConcat(s: string, t: string)
    ensures Shift(s + t) == Shift(s) + Shift(t)
  {
    if s == "" {
      assert s + t == t;
    } else {
      assert (s + t)[1..] == s[1..] + t;
      ShiftConcat(s[1..], t);
    }
  }

  lemma MovedConcat(layout: Layout, s: string, t: string)
    ensures Moved(layout, s + t) == Moved(layout, s) + Moved(layout, t)
  {
    hide Shift;
    ShiftConcat(s, t);
  }

  lemma {:induction false} ShiftLine(s: string)
    requires '\n' !in s
    ensures Shift(s) == s
  {
    if s != "" { ShiftLine(s[1..]); }
  }

  lemma MovedLine(layout: Layout, s: string)
    requires '\n' !in s
    ensures Moved(layout, s) == s
  {
    hide Shift;
    ShiftLine(s);
  }

  lemma MovedBreak(layout: Layout, depth: nat)
    ensures Moved(layout, Break(layout, depth)) == Break(layout, depth + 1)
  {
    if layout.Indented? {
      var spaces := Spaces(2 * depth);
      assert ("\n" + spaces)[1..] == spaces;
      ShiftLine(spaces);
      assert Spaces(2 * depth + 2) == " " + (" " + spaces);
      assert "\n  " + spaces == "\n" + (" " + (" " + spaces));
    }
  }

  lemma MovedGap(layout: Layout, depth: nat)
    ensures Moved(layout, Gap(layout, depth)) == Gap(layout, depth + 1)
  {
    MovedBreak(layout, depth);
  }

  lemma MovedFour(layout: Layout, a: string, b: string, c: string, d: string)
    ensures Moved(layout, a + b + c + d) == Moved(layout, a) + Moved(layout, b) + Moved(layout, c) + Moved(layout, d)
  {
    hide Moved;
    MovedConcat(layout, a, b);
    MovedConcat(layout, a + b, c);
    MovedConcat(layout, a + b + c, d);
  }

  /** A text printed one level deeper is the text moved right by one level. */
  lemma {:induction false} MovedText(j: JSON, layout: Layout, depth: nat)
    requires WellFormed(j)
    ensures Moved(layout, Text(j, layout, depth)) == Text(j, layout, depth + 1)
    decreases j
  {
    hide Moved, WellFormed, Break, ItemsText, MembersText, SortedKeys, Quoted;
    if j.Arr? && j.items != [] {
      MovedItems(j.items, layout, depth + 1);
      MovedBrackets("[", ItemsText(j.items, layout, depth + 1), "]", layout, depth);
    } else if j.Obj? && j.members != map[] {
      var keys := SortedKeys(j.members.Keys);
      MovedMembers(j, keys, layout, depth + 1);
      MovedBrackets("{", MembersText(j, keys, layout, depth + 1), "}", layout, depth);
    } else {
      CompactIsPrintable(j, 0);
      MovedLine(layout, Text(j, Compact, 0));
    }
  }

  lemma MovedBrackets(open: string, inner: string, close: string, layout: Layout, depth: nat)
    requires '\n' !in open && '\n' !in close
    ensures Moved(layout, open + Break(layout, depth + 1) + inner + Break(layout, depth) + close)
         == open + Break(layout, depth + 2) + Moved(layout, inner) + Break(layout, depth + 1) + close
  {
    hide Moved, Break;
    MovedFour(layout, open, Break(layout, depth + 1), inner, Break(layout, depth));
    MovedConcat(layout, open + Break(layout, depth + 1) + inner + Break(layout, depth), close);
    MovedLine(layout, open);
    MovedLine(layout, close);
    MovedBreak(layout, depth);
    MovedBreak(layout, depth + 1);
  }

  lemma {:induction false} MovedItems(items: seq<JSON>, layout: Layout, depth: nat)
    requires items != [] && WellFormed(Arr(items))
    ensures Moved(layout, ItemsText(items, layout, depth)) == ItemsText(items, layout, depth + 1)
    decreases items, 0
  {
    hide Moved, Text, Gap, WellFormed;
    ItemsAreWellFormed(items);
    MovedText(items[0], layout, depth);
    if |items| > 1 {
      MovedItems(items[1..], layout, depth);
      MovedFour(layout, Text(items[0], layout, depth), ",", Gap(layout, depth), ItemsText(items[1..], layout, depth));
      MovedLine(layout, ",");
      MovedGap(layout, depth);
    }
  }

  lemma {:induction false} MovedMembers(j: JSON, keys: seq<string>, layout: Layout, depth: nat)
    requires WellFormed(j) && j.Obj? && keys != [] && Elements(keys) <= j.members.Keys
    ensures Moved(layout, MembersText(j, keys, layout, depth)) == MembersText(j, keys, layout, depth + 1)
    decreases j, |keys|
  {
    hide Moved, Text, Gap, WellFormed, Quoted;
    ReadBackStep(j.members, keys, map[]);
    MovedMember(j, keys[0], layout, depth);
    if |keys| > 1 {
      MovedMembers(j, keys[1..], layout, depth);
      MovedFour(layout, Quoted(keys[0]) + ": " + Text(j.members[keys[0]], layout, depth), ",", Gap(layout, depth),
        MembersText(j, keys[1..], layout, depth));
      MovedLine(layout, ",");
      MovedGap(layout, depth);
    }
  }

  lemma {:induction false} MovedMember(j: JSON, key: string, layout: Layout, depth: nat)
    requires WellFormed(j) && j.Obj? && key in j.members
    ensures Moved(layout, Quoted(key) + ": " + Text(j.members[key], layout, depth))
         == Quoted(key) + ": " + Text(j.members[key], layout, depth + 1)
    decreases j, 0
  {
    hide Moved, Text, Quoted;
    assert WellFormed(j.members[key]);
    hide WellFormed;
    MovedText(j.members[key], layout, depth);
    QuotedIsPrintable(key);
    MovedLine(layout, Quoted(key));
    MovedLine(layout, ": ");
    MovedConcat(layout, Quoted(key), ": ");
    MovedConcat(layout, Quoted(key) + ": ", Text(j.members[key], layout, depth));
  }

  // -- the two layouts ------------------------------------------------------

  lemma {:induction false} ItemsAreJoined(items: seq<JSON>, layout: Layout)
    ensures ItemsText(items, layout, 0) == Joined(ItemTexts(items, layout), if layout.Compact? then ", " else ",\n")
  {
    hide Text;
    if |items| > 1 {
      ItemsAreJoined(items[1..], layout);
      assert ItemTexts(items, layout)[1..] == ItemTexts(items[1..], layout);
    }
  }

  lemma {:induction false} MembersAreJoined(j: JSON, keys: seq<string>, layout: Layout)
    requires j.Obj? && Elements(keys) <= j.members.Keys
    ensures MembersText(j, keys, layout, 0)
         == Joined(MemberTexts(j.members, keys, layout), if layout.Compact? then ", " else ",\n")
  {
    hide Text, Quoted;
    if keys != [] { ReadBackStep(j.members, keys, map[]); }
    if |keys| > 1 {
      MembersAreJoined(j, keys[1..], layout);
      assert MemberTexts(j.members, keys, layout)[1..] == MemberTexts(j.members, keys[1..], layout);
    }
  }

  /** The texts of an array's items, and of an object's members in the order of their keys, are put between brackets on
      one line or moved right by two spaces on lines of their own. */
  lemma LayoutExactly(j: JSON, layout: Layout)
    requires WellFormed(j)
    ensures j.Arr? ==> Text(j, layout, 0) == Bracketed("[", ItemTexts(j.items, layout), "]", layout)
    ensures j.Obj? ==>
      Text(j, layout, 0) == Bracketed("{", MemberTexts(j.members, SortedKeys(j.members.Keys), layout), "}", layout)
    ensures !j.Arr? && !j.Obj? ==> DumpsIndented(j) == Dumps(j)
  {
    hide WellFormed, Bracketed, ItemTexts, MemberTexts, SortedKeys, Quoted;
    if j.Arr? {
      ArrayLayout(j.items, layout);
    } else if j.Obj? {
      ObjectLayout(j, layout);
    }
  }

  lemma ArrayLayout(items: seq<JSON>, layout: Layout)
    requires WellFormed(Arr(items))
    ensures Text(Arr(items), layout, 0) == Bracketed("[", ItemTexts(items, layout), "]", layout)
  {
    hide WellFormed, ItemsText, Joined, Break, Moved, Shift;
    if items != [] {
      MovedItems(items, layout, 0);
      ItemsAreJoined(items, layout);
      BracketsMoved("[", ItemsText(items, layout, 0), "]", layout);
    }
  }

  lemma ObjectLayout(j: JSON, layout: Layout)
    requires j.Obj? && WellFormed(j)
    ensures var texts := MemberTexts(j.members, SortedKeys(j.members.Keys), layout);
      Text(j, layout, 0) == Bracketed("{", texts, "}", layout)
  {
    hide WellFormed, MembersText, SortedKeys, Quoted, Joined, Break, Moved, Shift;
    if j.members != map[] {
      var keys := SortedKeys(j.members.Keys);
      assert keys != [] by { assert |keys| > 0; }
      MovedMembers(j, keys, layout, 0);
      MembersAreJoined(j, keys, layout);
      BracketsMoved("{", MembersText(j, keys, layout, 0), "}", layout);
    }
  }

  lemma BracketsMoved(open: string, inner: string, close: string, layout: Layout)
    ensures open + Break(layout, 1) + Moved(layout, inner) + Break(layout, 0) + close ==
      match layout case Compact => open + inner + close case Indented => open + Shift("\n" + inner) + "\n" + close
  {
    if layout.Indented? {
      ShiftConcat("\n", inner);
      MovedBreak(layout, 0);
    }
  }
}
