/** The walks that look for secrets in a JSON tree, with abstract tests for a suspicious key and value. */
module Secrets {
  import opened Wrappers
  import opened Ordering
  import opened Json
  import opened Models
  import opened ModelProperties

  /** `_SECRET_KEY_PATTERN.search`, and the two tests on string values taken together. */
  datatype Detector = Detector(key: string -> bool, value: string -> bool)

  /** One step down the tree, and the way to a node from its root. */
  datatype Step = Key(name: string) | Index(k: nat)

  type Way = seq<Step>

  // -- the nodes of a tree --------------------------------------------------

  /** The node a way leads to. */
  function NodeAt(j: JSON, way: Way): Option<JSON>
    decreases |way|
  {
    if way == [] then Some(j)
    else match way[0]
      case Key(name) => if j.Obj? && name in j.members then NodeAt(j.members[name], way[1..]) else None
      case Index(k) => if j.Arr? && k < |j.items| then NodeAt(j.items[k], way[1..]) else None
  }

  /** The way ends in a mapping key that looks like a secret. */
  predicate OffendingKey(d: Detector, j: JSON, way: Way) {
    way != [] && way[|way| - 1].Key? && d.key(way[|way| - 1].name) && NodeAt(j, way).Some?
  }

  /** The way leads to a string that looks like a credential. */
  predicate OffendingValue(d: Detector, j: JSON, way: Way) {
    NodeAt(j, way).Some? && NodeAt(j, way).value.Str? && d.value(NodeAt(j, way).value.s)
  }

  // -- what the walks find --------------------------------------------------

  function Under(step: Step, ways: seq<Way>): (r: seq<Way>)
    ensures |r| == |ways|
    ensures forall k :: 0 <= k < |ways| ==> r[k] == [step] + ways[k]
  {
    if ways == [] then [] else [[step] + ways[0]] + Under(step, ways[1..])
  }

  function KeyWays(d: Detector, j: JSON): seq<Way>
    decreases j
  {
    match j
    case Obj(members) => KeyWaysOfMembers(d, j, SortedKeys(members.Keys))
    case Arr(items) => KeyWaysOfItems(d, j, |items|)
    case _ => []
  }

  function KeyWaysOfMembers(d: Detector, j: JSON, keys: seq<string>): seq<Way>
    requires j.Obj? && Elements(keys) <= j.members.Keys
    decreases j, |keys|
  {
    if keys == [] then []
    else
      LastIsElement(keys);
      var key := keys[|keys| - 1];
      KeyWaysOfMembers(d, j, keys[..|keys| - 1])
      + (if d.key(key) then [[Key(key)]] else []) + Under(Key(key), KeyWays(d, j.members[key]))
  }

  /** The first `n` items. */
  function KeyWaysOfItems(d: Detector, j: JSON, n: nat): seq<Way>
    requires j.Arr? && n <= |j.items|
    decreases j, n
  {
    if n == 0 then [] else KeyWaysOfItems(d, j, n - 1) + Under(Index(n - 1), KeyWays(d, j.items[n - 1]))
  }

  function ValueWays(d: Detector, j: JSON): seq<Way>
    decreases j
  {
    match j
    case Obj(members) => ValueWaysOfMembers(d, j, SortedKeys(members.Keys))
    case Arr(items) => ValueWaysOfItems(d, j, |items|)
    case Str(s) => if d.value(s) then [[]] else []
    case _ => []
  }

  function ValueWaysOfMembers(d: Detector, j: JSON, keys: seq<string>): seq<Way>
    requires j.Obj? && Elements(keys) <= j.members.Keys
    decreases j, |keys|
  {
    if keys == [] then []
    else
      LastIsElement(keys);
      var key := keys[|keys| - 1];
      ValueWaysOfMembers(d, j, keys[..|keys| - 1]) + Under(Key(key), ValueWays(d, j.members[key]))
  }

  function ValueWaysOfItems(d: Detector, j: JSON, n: nat): seq<Way>
    requires j.Arr? && n <= |j.items|
    decreases j, n
  {
    if n == 0 then [] else ValueWaysOfItems(d, j, n - 1) + Under(Index(n - 1), ValueWays(d, j.items[n - 1]))
  }

  lemma LastIsElement(keys: seq<string>)
    requires keys != []
    ensures keys[|keys| - 1] in Elements(keys)
    ensures Elements(keys[..|keys| - 1]) <= Elements(keys)
  {
  }

  /** The tree passes both walks. */
  predicate IsClean(d: Detector, j: JSON) {
    KeyWays(d, j) == [] && ValueWays(d, j) == []
  }

  // -- the dotted paths the walks report ------------------------------------

  function KeyPath(path: string, key: string): string {
    if path != "" then path + "." + key else key
  }

  function IndexPath(path: string, k: nat): string {
    path + "[" + NatText(k) + "]"
  }

  /** How a way is spelled: each key after a dot, except at the beginning, and each index in brackets. */
  function Spelled(begun: bool, way: Way): string
    decreases |way|
  {
    if way == [] then ""
    else match way[0]
      case Key(name) => (if begun then "." else "") + name + Spelled(begun || name != "", way[1..])
      case Index(k) => "[" + NatText(k) + "]" + Spelled(true, way[1..])
  }

  function PathText(path: string, way: Way): string { path + Spelled(path != "", way) }

  function RootText(path: string): string { if path != "" then path else "<root>" }

  /** `found` lists the paths of the ways, in order. */
  ghost predicate Reports(found: seq<string>, path: string, ways: seq<Way>) {
    |found| == |ways| && forall k | 0 <= k < |ways| :: found[k] == PathText(path, ways[k])
  }

  ghost predicate ReportsValues(found: seq<string>, path: string, ways: seq<Way>) {
    |found| == |ways| && forall k | 0 <= k < |ways| :: found[k] == RootText(PathText(path, ways[k]))
  }

  lemma OneKeyPath(path: string, key: string)
    ensures PathText(path, [Key(key)]) == KeyPath(path, key)
    ensures PathText(path, []) == path
  {
    assert [Key(key)][1..] == [];
    assert Spelled(path != "", [Key(key)]) == (if path != "" then "." else "") + key;
  }

  lemma WaysAre(d: Detector, j: JSON)
    ensures j.Obj? ==> KeyWays(d, j) == KeyWaysOfMembers(d, j, SortedKeys(j.members.Keys))
    ensures j.Obj? ==> ValueWays(d, j) == ValueWaysOfMembers(d, j, SortedKeys(j.members.Keys))
    ensures j.Arr? ==> KeyWays(d, j) == KeyWaysOfItems(d, j, |j.items|)
    ensures j.Arr? ==> ValueWays(d, j) == ValueWaysOfItems(d, j, |j.items|)
    ensures !j.Obj? && !j.Arr? ==> KeyWays(d, j) == []
    ensures !j.Obj? && !j.Arr? ==> ValueWays(d, j) == if j.Str? && d.value(j.s) then [[]] else []
  {
    hide SortedKeys;
  }

  lemma OneMoreKey(keys: seq<string>, i: nat)
    requires i < |keys|
    ensures keys[i] in Elements(keys) && Elements(keys[..i + 1]) == Elements(keys[..i]) + {keys[i]}
    ensures keys[..i + 1][..i] == keys[..i] && keys[..0] == []
  {
  }

  lemma NothingReported(d: Detector, j: JSON, path: string)
    ensures Reports([], path, []) && ReportsValues([], path, []) && ReportsValues([RootText(path)], path, [[]])
    ensures Elements([]) == {}
    ensures j.Obj? ==> KeyWaysOfMembers(d, j, []) == [] && ValueWaysOfMembers(d, j, []) == []
    ensures j.Arr? ==> KeyWaysOfItems(d, j, 0) == [] && ValueWaysOfItems(d, j, 0) == []
  {
    OneKeyPath(path, "");
  }

  lemma OneReported(path: string, key: string)
    ensures Reports([KeyPath(path, key)], path, [[Key(key)]]) && Reports([], path, [])
  {
    OneKeyPath(path, key);
  }

  lemma ReportsUnder(path: string, step: Step, found: seq<string>, ways: seq<Way>)
    requires Reports(found, if step.Key? then KeyPath(path, step.name) else IndexPath(path, step.k), ways)
    ensures Reports(found, path, Under(step, ways))
  {
    hide PathText, Under;
    UnderReports(path, step, ways);
  }

  lemma ReportsConcat(path: string, a: seq<string>, ways: seq<Way>, b: seq<string>, more: seq<Way>)
    requires Reports(a, path, ways) && Reports(b, path, more)
    ensures Reports(a + b, path, ways + more)
  {
    hide PathText;
  }

  lemma OneMoreMember(d: Detector, j: JSON, path: string, keys: seq<string>, i: nat, found: seq<string>,
                      inner: seq<string>, all: seq<string>)
    requires j.Obj? && i < |keys| && Elements(keys[..i + 1]) <= j.members.Keys && Elements(keys[..i]) <= j.members.Keys
    requires keys[i] in j.members && Reports(found, path, KeyWaysOfMembers(d, j, keys[..i]))
    requires Reports(inner, KeyPath(path, keys[i]), KeyWays(d, j.members[keys[i]]))
    requires all == (if d.key(keys[i]) then found + [KeyPath(path, keys[i])] else found) + inner
    ensures Reports(all, path, KeyWaysOfMembers(d, j, keys[..i + 1]))
  {
    hide KeyWays, PathText, Under, Elements, Reports;
    var key := keys[i];
    OneReported(path, key);
    assert keys[..i + 1][..i] == keys[..i];
    var own: seq<Way> := if d.key(key) then [[Key(key)]] else [];
    var ownFound := if d.key(key) then [KeyPath(path, key)] else [];
    ReportsUnder(path, Key(key), inner, KeyWays(d, j.members[key]));
    ReportsConcat(path, found, KeyWaysOfMembers(d, j, keys[..i]), ownFound, own);
    ReportsConcat(path, found + ownFound, KeyWaysOfMembers(d, j, keys[..i]) + own, inner,
                  Under(Key(key), KeyWays(d, j.members[key])));
    assert all == found + ownFound + inner;
  }

  lemma OneMoreItem(d: Detector, j: JSON, path: string, i: nat, found: seq<string>, inner: seq<string>)
    requires j.Arr? && i < |j.items| && Reports(found, path, KeyWaysOfItems(d, j, i))
    requires Reports(inner, IndexPath(path, i), KeyWays(d, j.items[i]))
    ensures Reports(found + inner, path, KeyWaysOfItems(d, j, i + 1))
  {
    hide KeyWays, PathText, Under;
    UnderReports(path, Index(i), KeyWays(d, j.items[i]));
  }

  lemma OneMoreMemberValue(d: Detector, j: JSON, path: string, keys: seq<string>, i: nat, found: seq<string>,
                           inner: seq<string>)
    requires j.Obj? && i < |keys| && Elements(keys[..i + 1]) <= j.members.Keys && Elements(keys[..i]) <= j.members.Keys
    requires keys[i] in j.members && ReportsValues(found, path, ValueWaysOfMembers(d, j, keys[..i]))
    requires ReportsValues(inner, KeyPath(path, keys[i]), ValueWays(d, j.members[keys[i]]))
    ensures ReportsValues(found + inner, path, ValueWaysOfMembers(d, j, keys[..i + 1]))
  {
    hide ValueWays, PathText, Under, Elements;
    assert keys[..i + 1][..i] == keys[..i];
    UnderReports(path, Key(keys[i]), ValueWays(d, j.members[keys[i]]));
  }

  lemma OneMoreItemValue(d: Detector, j: JSON, path: string, i: nat, found: seq<string>, inner: seq<string>)
    requires j.Arr? && i < |j.items| && ReportsValues(found, path, ValueWaysOfItems(d, j, i))
    requires ReportsValues(inner, IndexPath(path, i), ValueWays(d, j.items[i]))
    ensures ReportsValues(found + inner, path, ValueWaysOfItems(d, j, i + 1))
  {
    hide ValueWays, PathText, Under;
    UnderReports(path, Index(i), ValueWays(d, j.items[i]));
  }

  /** `find_secret_like_keys`. Members are visited in key order; the caller sorts what is found. */
  method FindSecretLikeKeys(d: Detector, data: JSON, path: string) returns (found: seq<string>)
    ensures Reports(found, path, KeyWays(d, data))
    decreases data
  {
    hide SortedKeys, KeyWays, ValueWays, NodeAt, PathText, Under, Reports, Elements, KeyWaysOfMembers, KeyWaysOfItems;
    WaysAre(d, data);
    NothingReported(d, data, path);
    found := [];
    if data.Obj? {
      var keys := SortedKeys(data.members.Keys);
      assert keys[..|keys|] == keys;
      for i := 0 to |keys|
        invariant Elements(keys[..i]) <= data.members.Keys
        invariant Reports(found, path, KeyWaysOfMembers(d, data, keys[..i]))
      {
        var key := keys[i];
        OneMoreKey(keys, i);
        ghost var before := found;
        var keyPath := KeyPath(path, key);
        if d.key(key) { found := found + [keyPath]; }
        var inner := FindSecretLikeKeys(d, data.members[key], keyPath);
        found := found + inner;
        OneMoreMember(d, data, path, keys, i, before, inner, found);
      }
    } else if data.Arr? {
      for i := 0 to |data.items|
        invariant Reports(found, path, KeyWaysOfItems(d, data, i))
      {
        var inner := FindSecretLikeKeys(d, data.items[i], IndexPath(path, i));
        OneMoreItem(d, data, path, i, found, inner);
        found := found + inner;
      }
    }
  }

  /** `find_secret_like_values`. */
  method FindSecretLikeValues(d: Detector, data: JSON, path: string) returns (found: seq<string>)
    ensures ReportsValues(found, path, ValueWays(d, data))
    decreases data
  {
    hide SortedKeys, KeyWays, ValueWays, NodeAt, PathText, Under, ReportsValues, Elements, ValueWaysOfMembers,
      ValueWaysOfItems;
    WaysAre(d, data);
    NothingReported(d, data, path);
    found := [];
    if data.Obj? {
      var keys := SortedKeys(data.members.Keys);
      assert keys[..|keys|] == keys;
      for i := 0 to |keys|
        invariant Elements(keys[..i]) <= data.members.Keys
        invariant ReportsValues(found, path, ValueWaysOfMembers(d, data, keys[..i]))
      {
        var key := keys[i];
        OneMoreKey(keys, i);
        var inner := FindSecretLikeValues(d, data.members[key], KeyPath(path, key));
        OneMoreMemberValue(d, data, path, keys, i, found, inner);
        found := found + inner;
      }
    } else if data.Arr? {
      for i := 0 to |data.items|
        invariant ReportsValues(found, path, ValueWaysOfItems(d, data, i))
      {
        var inner := FindSecretLikeValues(d, data.items[i], IndexPath(path, i));
        OneMoreItemValue(d, data, path, i, found, inner);
        found := found + inner;
      }
    } else if data.Str? && d.value(data.s) {
      found := [if path != "" then path else "<root>"];
    }
  }

  lemma UnderReports(path: string, step: Step, ways: seq<Way>)
    ensures var next := if step.Key? then KeyPath(path, step.name) else IndexPath(path, step.k);
      forall k | 0 <= k < |ways| :: PathText(path, Under(step, ways)[k]) == PathText(next, ways[k])
  {
    var next := if step.Key? then KeyPath(path, step.name) else IndexPath(path, step.k);
    forall k | 0 <= k < |ways| ensures PathText(path, Under(step, ways)[k]) == PathText(next, ways[k]) {
      assert Under(step, ways)[k][1..] == ways[k];
      OneStep(path, step, ways[k]);
    }
  }

  lemma OneStep(path: string, step: Step, way: Way)
    ensures PathText(path, [step] + way)
      == PathText(if step.Key? then KeyPath(path, step.name) else IndexPath(path, step.k), way)
  {
    hide NatText;
    assert ([step] + way)[1..] == way && ([step] + way)[0] == step;
    match step
    case Key(name) =>
      var rest := Spelled(path != "" || name != "", way);
      assert path + ("." + name + rest) == path + "." + name + rest;
      assert path + ("" + name + rest) == path + name + rest;
    case Index(k) =>
      assert path + ("[" + NatText(k) + "]" + Spelled(true, way)) == path + "[" + NatText(k) + "]" + Spelled(true, way);
  }

  // -- reported paths are unambiguous ---------------------------------------

  /** A key that the spelling cannot confuse with anything else. */
  predicate IsPlainKey(name: string) { name != "" && '.' !in name && '[' !in name }

  ghost predicate IsPlain(way: Way) {
    forall k | 0 <= k < |way| :: way[k].Key? ==> IsPlainKey(way[k].name)
  }

  /** The length of what comes before the first separator. */
  function UpTo(t: string, seps: set<char>): nat {
    if t == "" || t[0] in seps then 0 else 1 + UpTo(t[1..], seps)
  }

  lemma {:induction false} UpToIs(a: string, s: string, seps: set<char>)
    requires (forall c | c in a :: c !in seps) && (s != "" ==> s[0] in seps)
    ensures UpTo(a + s, seps) == |a|
  {
    if a == "" {
      assert a + s == s;
    } else {
      assert (a + s)[1..] == a[1..] + s && (a + s)[0] in a;
      UpToIs(a[1..], s, seps);
    }
  }

  /** What comes before the first separator is determined. */
  lemma SameUpTo(a: string, b: string, s: string, t: string, seps: set<char>)
    requires a + s == b + t
    requires (forall c | c in a :: c !in seps) && (forall c | c in b :: c !in seps)
    requires (s != "" ==> s[0] in seps) && (t != "" ==> t[0] in seps)
    ensures a == b && s == t
  {
    UpToIs(a, s, seps);
    UpToIs(b, t, seps);
    assert a == (a + s)[..|a|] && b == (b + t)[..|b|];
    assert s == (a + s)[|a|..] && t == (b + t)[|b|..];
  }

  lemma SpelledHead(way: Way)
    ensures way == [] <==> Spelled(true, way) == ""
    ensures way != [] ==> Spelled(true, way)[0] == if way[0].Key? then '.' else '['
  {
  }

  lemma SpelledTail(way: Way)
    requires way != []
    ensures Spelled(true, way)[1..] == StepText(way[0]) + Spelled(true, way[1..])
  {
    hide NatText;
    var rest := Spelled(true, way[1..]);
    match way[0]
    case Key(name) => AfterMark(".", name, rest);
    case Index(k) =>
      AfterMark("[", NatText(k), "]" + rest);
      Regroup("[" + NatText(k), "]", rest);
      Regroup(NatText(k), "]", rest);
  }

  lemma AfterMark(mark: string, a: string, b: string)
    requires |mark| == 1
    ensures (mark + a + b)[1..] == a + b
  {
  }

  lemma Regroup(a: string, b: string, c: string)
    ensures a + b + c == a + (b + c)
  {
  }

  lemma {:induction false} SpelledIsInjective(way: Way, other: Way)
    requires IsPlain(way) && IsPlain(other) && Spelled(true, way) == Spelled(true, other)
    ensures way == other
    decreases |way|
  {
    hide NatText;
    SpelledHead(way);
    SpelledHead(other);
    if way != [] {
      SameStep(way[0], Spelled(true, way[1..]), other[0], Spelled(true, other[1..])) by {
        SpelledHead(way[1..]);
        SpelledHead(other[1..]);
        SpelledTail(way);
        SpelledTail(other);
      }
      SpelledIsInjective(way[1..], other[1..]);
      assert way == [way[0]] + way[1..] && other == [other[0]] + other[1..];
    }
  }

  function StepText(step: Step): string {
    match step case Key(name) => name case Index(k) => NatText(k) + "]"
  }

  lemma SameStep(a: Step, s: string, b: Step, t: string)
    requires a.Key? == b.Key? && StepText(a) + s == StepText(b) + t
    requires (a.Key? ==> IsPlainKey(a.name)) && (b.Key? ==> IsPlainKey(b.name))
    requires (s != "" ==> s[0] in {'.', '['}) && (t != "" ==> t[0] in {'.', '['})
    ensures a == b && s == t
  {
    hide NatText;
    if a.Key? {
      SameUpTo(a.name, b.name, s, t, {'.', '['});
    } else {
      NatTextIsDigits(a.k);
      NatTextIsDigits(b.k);
      assert StepText(a) + s == NatText(a.k) + ("]" + s) && StepText(b) + t == NatText(b.k) + ("]" + t);
      SameUpTo(NatText(a.k), NatText(b.k), "]" + s, "]" + t, {']'});
      assert s == ("]" + s)[1..] && t == ("]" + t)[1..];
      NatTextExactly(NatText(a.k), a.k);
      NatTextExactly(NatText(b.k), b.k);
    }
  }

  /** Where the keys have no dot and no bracket, the reported text tells the node. */
  lemma PathTextIsInjective(way: Way, other: Way)
    requires IsPlain(way) && IsPlain(other) && PathText("", way) == PathText("", other)
    ensures way == other
  {
    hide NatText;
    assert "" + Spelled(false, way) == Spelled(false, way) && "" + Spelled(false, other) == Spelled(false, other);
    SpelledStart(way);
    SpelledStart(other);
    SpelledIsInjective(way, other);
  }

  lemma SpelledStart(way: Way)
    requires IsPlain(way)
    ensures Spelled(true, way) == (if way != [] && way[0].Key? then "." else "") + Spelled(false, way)
    ensures way != [] ==> Spelled(false, way) != "" && (Spelled(false, way)[0] == '[' <==> way[0].Index?)
    ensures way == [] ==> Spelled(false, way) == ""
  {
    hide NatText;
    if way != [] && way[0].Key? { assert way[0].name[0] in way[0].name; }
  }

  // -- soundness and completeness -------------------------------------------

  ghost predicate Distinct(ways: seq<Way>) {
    forall i, k | 0 <= i < k < |ways| :: ways[i] != ways[k]
  }

  lemma UnderDistinct(step: Step, ways: seq<Way>)
    requires Distinct(ways)
    ensures Distinct(Under(step, ways))
    ensures forall way: Way :: way in Under(step, ways) <==> way != [] && way[0] == step && way[1..] in ways
  {
    hide Under;
    forall i, k | 0 <= i < k < |ways| ensures Under(step, ways)[i] != Under(step, ways)[k] {
      assert Under(step, ways)[i][1..] == ways[i] && Under(step, ways)[k][1..] == ways[k];
    }
    forall way: Way { UnderExactly(step, ways, way); }
  }

  lemma UnderExactly(step: Step, ways: seq<Way>, way: Way)
    ensures way in Under(step, ways) <==> way != [] && way[0] == step && way[1..] in ways
  {
    hide Under;
    if way != [] && way[0] == step && way[1..] in ways {
      var k :| 0 <= k < |ways| && ways[k] == way[1..];
      assert Under(step, ways)[k] == [step] + way[1..] == way;
    }
    if way in Under(step, ways) {
      var k :| 0 <= k < |ways| && Under(step, ways)[k] == way;
      assert way[1..] == ways[k];
    }
  }

  lemma DistinctConcat(a: seq<Way>, b: seq<Way>)
    requires Distinct(a) && Distinct(b) && forall way: Way :: !(way in a && way in b)
    ensures Distinct(a + b)
  {
    forall i, k | 0 <= i < k < |a + b| ensures (a + b)[i] != (a + b)[k] {
      if i < |a| <= k { assert (a + b)[i] in a && (a + b)[k] in b; }
    }
  }

  /** The walk reports each offending key exactly once, at every depth, and nothing else; so it finds as many
      paths as there are offending nodes. */
  lemma {:induction false} KeyWaysExact(d: Detector, j: JSON)
    ensures Distinct(KeyWays(d, j))
    ensures forall way: Way :: way in KeyWays(d, j) <==> OffendingKey(d, j, way)
    decreases j
  {
    hide OffendingKey, SortedKeys, Distinct;
    match j
    case Obj(members) =>
      KeyWaysOfMembersExact(d, j, SortedKeys(members.Keys));
      forall way: Way ensures way in KeyWays(d, j) <==> OffendingKey(d, j, way) {
        KeyStep(d, j, way);
      }
    case Arr(items) =>
      KeyWaysOfItemsExact(d, j, |items|);
      forall way: Way ensures way in KeyWays(d, j) <==> OffendingKey(d, j, way) {
        KeyStep(d, j, way);
      }
    case _ =>
      forall way: Way ensures !OffendingKey(d, j, way) { KeyStep(d, j, way); }
      assert Distinct([]) by { NoneDistinct(); }
  }

  lemma NoneDistinct()
    ensures Distinct([])
  {
  }

  /** An offending key is a member's key or lies under a member or an item. */
  lemma KeyStep(d: Detector, j: JSON, way: Way)
    ensures OffendingKey(d, j, way) <==>
      && way != []
      && (way[0].Key? ==>
            && j.Obj? && way[0].name in j.members
            && ((way == [way[0]] && d.key(way[0].name)) || OffendingKey(d, j.members[way[0].name], way[1..])))
      && (way[0].Index? ==> j.Arr? && way[0].k < |j.items| && OffendingKey(d, j.items[way[0].k], way[1..]))
  {
    if way != [] {
      var rest := way[1..];
      if |way| == 1 {
        assert way == [way[0]] && rest == [] && way[|way| - 1] == way[0];
        if way[0].Key? {
          if j.Obj? && way[0].name in j.members { assert NodeAt(j, way) == Some(j.members[way[0].name]); }
        }
      } else {
        assert rest[|rest| - 1] == way[|way| - 1];
      }
    }
  }

  lemma {:induction false} KeyWaysOfMembersExact(d: Detector, j: JSON, keys: seq<string>)
    requires j.Obj? && Elements(keys) <= j.members.Keys && |Elements(keys)| == |keys|
    ensures Distinct(KeyWaysOfMembers(d, j, keys))
    ensures forall way: Way :: way in KeyWaysOfMembers(d, j, keys) <==>
      && way != [] && way[0].Key? && way[0].name in Elements(keys)
      && ((way == [way[0]] && d.key(way[0].name)) || OffendingKey(d, j.members[way[0].name], way[1..]))
    decreases j, |keys|
  {
    hide OffendingKey, Distinct, KeyWays, NodeAt, Under, Elements, SortedKeys;
    if keys == [] {
      NoneDistinct();
      NoElements(keys);
    } else {
      var init, key := keys[..|keys| - 1], keys[|keys| - 1];
      LastIsElement(keys);
      NoRepeat(keys);
      KeyWaysOfMembersExact(d, j, init);
      KeyWaysExact(d, j.members[key]);
      var own: seq<Way> := if d.key(key) then [[Key(key)]] else [];
      var inner := KeyWays(d, j.members[key]);
      UnderDistinct(Key(key), inner);
      assert Distinct(own) by { OneDistinct(own); }
      assert [] !in inner by { KeyStep(d, j.members[key], []); }
      DistinctConcat(KeyWaysOfMembers(d, j, init), own);
      DistinctConcat(KeyWaysOfMembers(d, j, init) + own, Under(Key(key), inner));
    }
  }

  lemma OneDistinct(ways: seq<Way>)
    requires |ways| <= 1
    ensures Distinct(ways)
  {
  }

  lemma NoRepeat(keys: seq<string>)
    requires keys != [] && |Elements(keys)| == |keys|
    ensures keys[|keys| - 1] !in Elements(keys[..|keys| - 1])
    ensures |Elements(keys[..|keys| - 1])| == |keys| - 1
    ensures Elements(keys) == Elements(keys[..|keys| - 1]) + {keys[|keys| - 1]}
  {
    var init, key := keys[..|keys| - 1], keys[|keys| - 1];
    assert keys == init + [key];
    assert Elements(keys) == Elements(init) + {key};
    ElementsBound(init);
  }

  lemma {:induction false} KeyWaysOfItemsExact(d: Detector, j: JSON, n: nat)
    requires j.Arr? && n <= |j.items|
    ensures Distinct(KeyWaysOfItems(d, j, n))
    ensures forall way: Way :: way in KeyWaysOfItems(d, j, n) <==>
      way != [] && way[0].Index? && way[0].k < n && OffendingKey(d, j.items[way[0].k], way[1..])
    decreases j, n
  {
    hide OffendingKey, Distinct, KeyWays, NodeAt, Under;
    if n == 0 {
      NoneDistinct();
    } else {
      KeyWaysOfItemsExact(d, j, n - 1);
      KeyWaysExact(d, j.items[n - 1]);
      UnderDistinct(Index(n - 1), KeyWays(d, j.items[n - 1]));
      DistinctConcat(KeyWaysOfItems(d, j, n - 1), Under(Index(n - 1), KeyWays(d, j.items[n - 1])));
    }
  }

  /** The same for credential-bearing values. */
  lemma {:induction false} ValueWaysExact(d: Detector, j: JSON)
    ensures Distinct(ValueWays(d, j))
    ensures forall way: Way :: way in ValueWays(d, j) <==> OffendingValue(d, j, way)
    decreases j
  {
    hide OffendingValue, SortedKeys, Distinct;
    forall way: Way { ValueStep(d, j, way); }
    match j
    case Obj(members) => ValueWaysOfMembersExact(d, j, SortedKeys(members.Keys));
    case Arr(items) => ValueWaysOfItemsExact(d, j, |items|);
    case _ => OneDistinct(ValueWays(d, j));
  }

  lemma ValueStep(d: Detector, j: JSON, way: Way)
    ensures OffendingValue(d, j, way) <==>
      if way == [] then j.Str? && d.value(j.s)
      else if way[0].Key? then
        j.Obj? && way[0].name in j.members && OffendingValue(d, j.members[way[0].name], way[1..])
      else j.Arr? && way[0].k < |j.items| && OffendingValue(d, j.items[way[0].k], way[1..])
  {
  }

  lemma {:induction false} ValueWaysOfMembersExact(d: Detector, j: JSON, keys: seq<string>)
    requires j.Obj? && Elements(keys) <= j.members.Keys && |Elements(keys)| == |keys|
    ensures Distinct(ValueWaysOfMembers(d, j, keys))
    ensures forall way: Way :: way in ValueWaysOfMembers(d, j, keys) <==>
      way != [] && way[0].Key? && way[0].name in Elements(keys)
      && OffendingValue(d, j.members[way[0].name], way[1..])
    decreases j, |keys|
  {
    hide OffendingValue, Distinct, ValueWays, NodeAt, Under, Elements, SortedKeys;
    if keys == [] {
      NoneDistinct();
      NoElements(keys);
    } else {
      var init, key := keys[..|keys| - 1], keys[|keys| - 1];
      LastIsElement(keys);
      NoRepeat(keys);
      ValueWaysOfMembersExact(d, j, init);
      ValueWaysExact(d, j.members[key]);
      UnderDistinct(Key(key), ValueWays(d, j.members[key]));
      DistinctConcat(ValueWaysOfMembers(d, j, init), Under(Key(key), ValueWays(d, j.members[key])));
    }
  }

  lemma {:induction false} ValueWaysOfItemsExact(d: Detector, j: JSON, n: nat)
    requires j.Arr? && n <= |j.items|
    ensures Distinct(ValueWaysOfItems(d, j, n))
    ensures forall way: Way :: way in ValueWaysOfItems(d, j, n) <==>
      way != [] && way[0].Index? && way[0].k < n && OffendingValue(d, j.items[way[0].k], way[1..])
    decreases j, n
  {
    hide OffendingValue, Distinct, ValueWays, NodeAt, Under;
    if n == 0 {
      NoneDistinct();
    } else {
      ValueWaysOfItemsExact(d, j, n - 1);
      ValueWaysExact(d, j.items[n - 1]);
      UnderDistinct(Index(n - 1), ValueWays(d, j.items[n - 1]));
      DistinctConcat(ValueWaysOfItems(d, j, n - 1), Under(Index(n - 1), ValueWays(d, j.items[n - 1])));
    }
  }

  /** A tree is let through exactly when no key and no value at any depth offends. */
  lemma CleanExactly(d: Detector, j: JSON)
    ensures IsClean(d, j) <==> forall way: Way :: !OffendingKey(d, j, way) && !OffendingValue(d, j, way)
  {
    hide OffendingKey, OffendingValue, KeyWays, ValueWays;
    KeyWaysExact(d, j);
    ValueWaysExact(d, j);
    if KeyWays(d, j) != [] { assert KeyWays(d, j)[0] in KeyWays(d, j); }
    if ValueWays(d, j) != [] { assert ValueWays(d, j)[0] in ValueWays(d, j); }
  }

  /** `_reject_secrets`: refuses exactly the trees that are not clean. */
  method RejectSecrets(d: Detector, data: JSON) returns (ok: bool)
    ensures ok == IsClean(d, data)
  {
    var keys := FindSecretLikeKeys(d, data, "");
    var values := FindSecretLikeValues(d, data, "");
    ok := keys == [] && values == [];
  }
}
