/**
 Spine insertion refines the off-side rule.

 The parser inserts each line along the rightmost spine of the tree built so far.
 Here that is related to definitions which never mention the tree: which lines
 are kept, which earlier line is a line's parent, and a top-down parser that
 groups a line with the deeper lines after it.
 */
module OffSide {
  import opened GoStrings
  import opened Outline
  import opened OutlineRoundTrip

  // ----- The off-side rule on sequences of lines -----

  /** No later line is as shallow as line `i`. */
  predicate Open(kept: seq<Node>, i: nat)
    requires i < |kept|
  {
    forall j :: i < j < |kept| ==> kept[i].level < kept[j].level
  }

  /** A new line is kept when it is at least as deep as the last one, or lines up with an open one. */
  predicate Kept(kept: seq<Node>, level: nat) {
    kept == [] || kept[|kept| - 1].level <= level || LinesUp(kept, level)
  }

  predicate LinesUp(kept: seq<Node>, level: nat) {
    exists i :: 0 <= i < |kept| && Open(kept, i) && kept[i].level == level
  }

  function Keep(kept: seq<Node>, lines: seq<Node>): seq<Node>
    decreases lines
  {
    if lines == [] then kept
    else Keep(if Kept(kept, lines[0].level) then kept + [lines[0]] else kept, lines[1..])
  }

  /** `p` is the nearest line before `j` that is shallower than `j`, or -1 if there is none. */
  predicate IsParent(lines: seq<Node>, j: nat, p: int)
    requires j < |lines|
  {
    && -1 <= p < j
    && (p >= 0 ==> lines[p].level < lines[j].level)
    && forall i :: p < i < j ==> lines[j].level <= lines[i].level
  }

  /** How many leading lines are deeper than `level`. */
  function Deeper(lines: seq<Node>, level: nat): (d: nat)
    ensures d <= |lines|
  {
    if lines == [] || lines[0].level <= level then 0 else 1 + Deeper(lines[1..], level)
  }

  /** The top-down off-side parser. */
  function Layout(lines: seq<Node>): Forest
    decreases |lines|
  {
    if lines == [] then []
    else
      var d := Deeper(lines[1..], lines[0].level);
      [lines[0].(nodes := Layout(lines[1..d + 1]))] + Layout(lines[d + 1..])
  }

  // ----- The tree as a sequence -----

  function Leaf(n: Node): Node {
    n.(nodes := [])
  }

  function Preorder(nodes: Forest): seq<Node> {
    if nodes == [] then []
    else [Leaf(nodes[0])] + Preorder(nodes[0].nodes) + Preorder(nodes[1..])
  }

  /** For each node in preorder, the position of its parent; the forest starts at position `at`. */
  function Parents(nodes: Forest, at: nat, parent: int): (r: seq<int>)
    ensures |r| == |Preorder(nodes)|
    decreases nodes
  {
    if nodes == [] then []
    else
      [parent]
      + Parents(nodes[0].nodes, at + 1, at)
      + Parents(nodes[1..], at + 1 + |Preorder(nodes[0].nodes)|, parent)
  }

  /** Siblings share one level and children are strictly deeper. */
  predicate WellIndented(nodes: Forest) {
    && (forall i :: 0 <= i < |nodes| ==> nodes[i].level == nodes[0].level)
    && forall i :: 0 <= i < |nodes| ==>
         && (nodes[i].nodes != [] ==> nodes[i].level < nodes[i].nodes[0].level)
         && WellIndented(nodes[i].nodes)
  }

  lemma WellIndentedParts(nodes: Forest)
    requires WellIndented(nodes) && nodes != []
    ensures WellIndented(nodes[0].nodes) && WellIndented(nodes[1..])
    ensures nodes[0].nodes != [] ==> nodes[0].level < nodes[0].nodes[0].level
    ensures nodes[1..] != [] ==> nodes[1].level == nodes[0].level
  {
  }

  lemma {:induction false} PreorderConcat(a: Forest, b: Forest)
    ensures Preorder(a + b) == Preorder(a) + Preorder(b)
    decreases |a|
  {
    if a == [] {
      assert a + b == b;
    } else {
      assert (a + b)[0] == a[0] && (a + b)[1..] == a[1..] + b;
      PreorderConcat(a[1..], b);
      var own := [Leaf(a[0])] + Preorder(a[0].nodes);
      assert own + (Preorder(a[1..]) + Preorder(b)) == own + Preorder(a[1..]) + Preorder(b);
    }
  }

  lemma PreorderOne(n: Node)
    ensures Preorder([n]) == [Leaf(n)] + Preorder(n.nodes)
  {
    assert [n][1..] == [];
    assert [Leaf(n)] + Preorder(n.nodes) + [] == [Leaf(n)] + Preorder(n.nodes);
  }

  lemma {:induction false} PreorderDeep(nodes: Forest, level: nat)
    requires WellIndented(nodes)
    requires nodes != [] ==> level <= nodes[0].level
    ensures forall i :: 0 <= i < |Preorder(nodes)| ==> level <= Preorder(nodes)[i].level
    decreases nodes
  {
    if nodes != [] {
      PreorderDeep(nodes[0].nodes, level);
      PreorderDeep(nodes[1..], level);
    }
  }

  // ----- One insertion -----

  lemma OpenInSuffix(front: seq<Node>, below: seq<Node>, i: nat)
    requires i < |below|
    ensures Open(front + below, |front| + i) <==> Open(below, i)
  {
    var all := front + below;
    assert forall j :: 0 <= j < |below| ==> all[|front| + j] == below[j];
    assert forall j :: |front| <= j < |all| ==> all[j] == below[j - |front|];
  }

  /** Only the suffix matters for a level that no open line of the prefix has. */
  lemma LinesUpInSuffix(front: seq<Node>, below: seq<Node>, level: nat)
    requires forall i :: 0 <= i < |front| && Open(front + below, i) ==> front[i].level != level
    ensures LinesUp(front + below, level) <==> LinesUp(below, level)
  {
    var all := front + below;
    if LinesUp(all, level) {
      var i :| 0 <= i < |all| && Open(all, i) && all[i].level == level;
      assert i >= |front|;
      OpenInSuffix(front, below, i - |front|);
    }
    if LinesUp(below, level) {
      var i :| 0 <= i < |below| && Open(below, i) && below[i].level == level;
      OpenInSuffix(front, below, i);
      assert all[|front| + i] == below[i];
    }
  }

  lemma ClosedBefore(before: seq<Node>, last: Node, below: seq<Node>, i: nat)
    requires i < |before| && last.level <= before[i].level
    ensures !Open(before + [last] + below, i)
  {
    var all := before + [last] + below;
    assert all[i] == before[i] && all[|before|] == last;
  }

  /** Which lines are kept, seen from the last of the top-level nodes. */
  lemma KeptBelow(before: seq<Node>, last: Node, below: seq<Node>, level: nat)
    requires forall i :: 0 <= i < |before| ==> last.level <= before[i].level
    requires forall i :: 0 <= i < |below| ==> last.level < below[i].level
    ensures Kept(before + [last] + below, level)
       <==> level == last.level || (last.level < level && Kept(below, level))
  {
    var front := before + [last];
    var all := front + below;
    forall i | 0 <= i < |before| ensures !Open(all, i) { ClosedBefore(before, last, below, i); }
    assert all[|all| - 1].level >= last.level;
    if level == last.level {
      OpenLast(before, last, below);
      assert all[|before|].level == level;
    } else {
      assert front[|before|] == last;
      LinesUpInSuffix(front, below, level);
      assert below != [] ==> all[|all| - 1] == below[|below| - 1];
    }
  }

  lemma OpenLast(before: seq<Node>, last: Node, below: seq<Node>)
    requires forall i :: 0 <= i < |below| ==> last.level < below[i].level
    ensures Open(before + [last] + below, |before|)
  {
    var all := before + [last] + below;
    assert all[|before|] == last;
    assert forall j :: |before| < j < |all| ==> all[j] == below[j - |before| - 1];
  }

  lemma SplitLast(o: Forest)
    requires o != [] && WellIndented(o)
    ensures Preorder(o) == Preorder(Front(o)) + [Leaf(Last(o))] + Preorder(Last(o).nodes)
    ensures forall i :: 0 <= i < |Preorder(Front(o))| ==> Last(o).level <= Preorder(Front(o))[i].level
    ensures forall i :: 0 <= i < |Preorder(Last(o).nodes)| ==> Last(o).level < Preorder(Last(o).nodes)[i].level
    ensures WellIndented(Front(o)) && WellIndented(Last(o).nodes)
  {
    assert o == Front(o) + [Last(o)];
    PreorderConcat(Front(o), [Last(o)]);
    PreorderOne(Last(o));
    assert Preorder(o) == Preorder(Front(o)) + [Leaf(Last(o))] + Preorder(Last(o).nodes);
    assert o[|o| - 1].level == o[0].level;
    PreorderDeep(Front(o), Last(o).level);
    PreorderDeep(Last(o).nodes, Last(o).level + 1);
  }

  lemma {:induction false} InsertIndented(o: Forest, n: Node)
    requires WellIndented(o) && n.nodes == []
    ensures WellIndented(Insert(o, n))
    ensures Insert(o, n) != [] && (o != [] ==> Insert(o, n)[0].level == o[0].level)
    decreases o
  {
    if o != [] && Last(o).level < n.level {
      assert o[|o| - 1] == Last(o);
      InsertIndented(Last(o).nodes, n);
      var r := Insert(o, n);
      assert forall i :: 0 <= i < |o| - 1 ==> r[i] == o[i];
    }
  }

  lemma KeptAtLast(o: Forest, level: nat)
    requires o != [] && WellIndented(o)
    ensures Kept(Preorder(o), level)
       <==> level == Last(o).level || (Last(o).level < level && Kept(Preorder(Last(o).nodes), level))
  {
    SplitLast(o);
    KeptBelow(Preorder(Front(o)), Leaf(Last(o)), Preorder(Last(o).nodes), level);
  }

  lemma PreorderOfInsert(o: Forest, n: Node)
    requires o != [] && WellIndented(o) && Last(o).level < n.level
    requires Preorder(Insert(Last(o).nodes, n)) == Preorder(Last(o).nodes) + [n]
    ensures Preorder(Insert(o, n)) == Preorder(o) + [n]
  {
    var last := Last(o).(nodes := Insert(Last(o).nodes, n));
    PreorderOne(last);
    PreorderConcat(Front(o), [last]);
    SplitLast(o);
  }

  lemma PreorderOfAppend(o: Forest, n: Node)
    requires n.nodes == []
    ensures Preorder(o + [n]) == Preorder(o) + [n]
  {
    PreorderOne(n);
    PreorderConcat(o, [n]);
    assert [n] + [] == [n];
  }

  lemma {:induction false} InsertKeeps(o: Forest, n: Node)
    requires WellIndented(o) && n.nodes == []
    ensures Kept(Preorder(o), n.level) ==> Preorder(Insert(o, n)) == Preorder(o) + [n]
    ensures !Kept(Preorder(o), n.level) ==> Insert(o, n) == o
    decreases o
  {
    PreorderOfAppend(o, n);
    if o != [] {
      KeptAtLast(o, n.level);
      if Last(o).level < n.level {
        assert WellIndented(Last(o).nodes);
        InsertKeeps(Last(o).nodes, n);
        if Kept(Preorder(Last(o).nodes), n.level) {
          PreorderOfInsert(o, n);
        } else {
          assert o == Front(o) + [Last(o)];
        }
      }
    }
  }

  // ----- Whole outlines -----

  lemma {:induction false} InsertAllKeeps(o: Forest, lines: seq<Node>)
    requires WellIndented(o)
    requires forall n <- lines :: n.nodes == []
    ensures WellIndented(InsertAll(o, lines))
    ensures Preorder(InsertAll(o, lines)) == Keep(Preorder(o), lines)
    decreases lines
  {
    if lines != [] {
      InsertIndented(o, lines[0]);
      InsertKeeps(o, lines[0]);
      InsertAllKeeps(Insert(o, lines[0]), lines[1..]);
    }
  }

  lemma {:induction false} DeeperStops(below: seq<Node>, rest: seq<Node>, level: nat)
    requires forall i :: 0 <= i < |below| ==> level < below[i].level
    requires rest != [] ==> rest[0].level <= level
    ensures Deeper(below + rest, level) == |below|
  {
    if below == [] {
      assert below + rest == rest;
    } else {
      assert (below + rest)[1..] == below[1..] + rest;
      DeeperStops(below[1..], rest, level);
    }
  }

  lemma LayoutCons(first: Node, below: seq<Node>, rest: seq<Node>)
    requires forall i :: 0 <= i < |below| ==> first.level < below[i].level
    requires rest != [] ==> rest[0].level <= first.level
    ensures Layout([first] + below + rest) == [first.(nodes := Layout(below))] + Layout(rest)
  {
    var lines := [first] + below + rest;
    assert lines[1..] == below + rest;
    DeeperStops(below, rest, first.level);
    assert lines[1..|below| + 1] == below && lines[|below| + 1..] == rest;
  }

  /** The top-down parser inverts preorder traversal on well-indented forests. */
  lemma {:induction false} LayoutPreorder(nodes: Forest)
    requires WellIndented(nodes)
    ensures Layout(Preorder(nodes)) == nodes
    decreases nodes
  {
    if nodes != [] {
      var n := nodes[0];
      WellIndentedParts(nodes);
      calc {
        Layout(Preorder(nodes));
        Layout([Leaf(n)] + Preorder(n.nodes) + Preorder(nodes[1..]));
        { PreorderDeep(n.nodes, n.level + 1); LayoutCons(Leaf(n), Preorder(n.nodes), Preorder(nodes[1..])); }
        [n.(nodes := Layout(Preorder(n.nodes)))] + Layout(Preorder(nodes[1..]));
        { LayoutPreorder(n.nodes); LayoutPreorder(nodes[1..]); }
        [n] + nodes[1..];
      }
    }
  }

  /** `parents` are the parents of the lines from position `at` on. */
  predicate AreParents(lines: seq<Node>, at: nat, parents: seq<int>) {
    && at + |parents| <= |lines|
    && forall j :: 0 <= j < |parents| ==> IsParent(lines, at + j, parents[j])
  }

  lemma AreParentsExtend(a: seq<Node>, b: seq<Node>, at: nat, parents: seq<int>)
    requires AreParents(a, at, parents)
    ensures AreParents(a + b, at, parents)
  {
    assert forall i :: 0 <= i < |a| ==> (a + b)[i] == a[i];
    forall j | 0 <= j < |parents| ensures IsParent(a + b, at + j, parents[j]) {
      assert IsParent(a, at + j, parents[j]);
    }
  }

  lemma AreParentsConcat(lines: seq<Node>, at: nat, p: seq<int>, q: seq<int>)
    requires AreParents(lines, at, p) && AreParents(lines, at + |p|, q)
    ensures AreParents(lines, at, p + q)
  {
    forall j | 0 <= j < |p + q| ensures IsParent(lines, at + j, (p + q)[j]) {
      if j < |p| {
        assert IsParent(lines, at + j, p[j]);
      } else {
        assert IsParent(lines, at + |p| + (j - |p|), q[j - |p|]);
      }
    }
  }

  /** A line of the given level put after `before` has parent `parent`. */
  predicate Fits(before: seq<Node>, parent: int, level: nat) {
    && -1 <= parent < |before|
    && (parent >= 0 ==> before[parent].level < level)
    && forall i :: parent < i < |before| ==> level <= before[i].level
  }

  /** The parents of a line, of the lines below it, and of the lines after those, together. */
  lemma AreParentsTree(before: seq<Node>, n: Node, below: seq<Node>, rest: seq<Node>,
                       parent: int, pBelow: seq<int>, pRest: seq<int>)
    requires Fits(before, parent, n.level)
    requires |pBelow| == |below| && AreParents(before + [n] + below, |before| + 1, pBelow)
    requires AreParents(before + [n] + below + rest, |before| + 1 + |below|, pRest)
    ensures AreParents(before + ([n] + below + rest), |before|, [parent] + pBelow + pRest)
  {
    assert IsParent(before + [n], |before|, parent);
    AreParentsExtend(before + [n], below, |before|, [parent]);
    AreParentsConcat(before + [n] + below, |before|, [parent], pBelow);
    AreParentsExtend(before + [n] + below, rest, |before|, [parent] + pBelow);
    AreParentsConcat(before + [n] + below + rest, |before|, [parent] + pBelow, pRest);
    assert before + ([n] + below + rest) == before + [n] + below + rest;
  }

  lemma FitsAfterTree(before: seq<Node>, parent: int, n: Node, below: seq<Node>)
    requires Fits(before, parent, n.level)
    requires forall i :: 0 <= i < |below| ==> n.level <= below[i].level
    ensures Fits(before + [n] + below, parent, n.level)
  {
    var upTo := before + [n] + below;
    assert forall i :: 0 <= i < |before| ==> upTo[i] == before[i];
    assert forall i :: |before| + 1 <= i < |upTo| ==> upTo[i] == below[i - |before| - 1];
  }

  /** The first tree and the trees after it fit where they stand. */
  lemma FitsParts(nodes: Forest, before: seq<Node>, parent: int)
    requires WellIndented(nodes) && nodes != [] && Fits(before, parent, nodes[0].level)
    ensures var n, with := nodes[0], before + [Leaf(nodes[0])];
            && (n.nodes != [] ==> Fits(with, |before|, n.nodes[0].level))
            && (nodes[1..] != [] ==> Fits(with + Preorder(n.nodes), parent, nodes[1].level))
  {
    var n := nodes[0];
    WellIndentedParts(nodes);
    PreorderDeep(n.nodes, n.level);
    FitsAfterTree(before, parent, Leaf(n), Preorder(n.nodes));
  }

  lemma {:induction false} ParentsNearest(nodes: Forest, before: seq<Node>, parent: int)
    requires WellIndented(nodes)
    requires nodes != [] ==> Fits(before, parent, nodes[0].level)
    ensures AreParents(before + Preorder(nodes), |before|, Parents(nodes, |before|, parent))
    decreases nodes
  {
    if nodes != [] {
      var n, below, rest := nodes[0], Preorder(nodes[0].nodes), Preorder(nodes[1..]);
      var with := before + [Leaf(n)];
      var pBelow, pRest := Parents(n.nodes, |with|, |before|), Parents(nodes[1..], |with + below|, parent);
      assert Parents(nodes, |before|, parent) == [parent] + pBelow + pRest;
      assert Preorder(nodes) == [Leaf(n)] + below + rest;
      WellIndentedParts(nodes);
      FitsParts(nodes, before, parent);
      ParentsNearest(n.nodes, with, |before|);
      ParentsNearest(nodes[1..], with + below, parent);
      AreParentsTree(before, Leaf(n), below, rest, parent, pBelow, pRest);
    }
  }

  /** Inserting any lines gives the off-side layout of the kept ones. */
  lemma InsertAllRefines(lines: seq<Node>)
    requires forall n <- lines :: n.nodes == []
    ensures var kept, o := Keep([], lines), InsertAll([], lines);
            && WellIndented(o)
            && Preorder(o) == kept
            && o == Layout(kept)
            && |Parents(o, 0, -1)| == |kept| && AreParents(kept, 0, Parents(o, 0, -1))
  {
    InsertAllKeeps([], lines);
    var o := InsertAll([], lines);
    LayoutPreorder(o);
    ParentsNearest(o, [], -1);
    assert [] + Preorder(o) == Preorder(o);
  }

  /**
   For every text the parser accepts, the outline it builds is the off-side
   layout of the kept lines: well indented, with exactly the kept lines in
   preorder, each below the nearest earlier kept line that is shallower.
   */
  lemma ParseRefinesOffSide(data: string)
    requires Parse(data).Ok?
    ensures var kept := Keep([], ReadParts(PartsOf(data)).value);
            var o := Parse(data).value;
            && WellIndented(o)
            && Preorder(o) == kept
            && o == Layout(kept)
            && |Parents(o, 0, -1)| == |kept| && AreParents(kept, 0, Parents(o, 0, -1))
  {
    ReadPartsPrintable(PartsOf(data));
    InsertAllRefines(ReadParts(PartsOf(data)).value);
  }

  /** A line that cannot be read: it is not blank and has no colon. */
  predicate Unreadable(part: string) {
    Remove(part, '\r') != "" && ':' !in part
  }

  lemma {:induction false} RemoveKeeps(s: string, c: char, d: char)
    requires c != d
    ensures d in Remove(s, c) <==> d in s
  {
    if s != "" { RemoveKeeps(s[1..], c, d); }
  }

  lemma {:induction false} ReadPartsFails(parts: seq<string>)
    requires forall i :: 0 <= i < |parts| ==> Avoids(parts[i], {'\n'})
    ensures ReadParts(parts).Panic? <==> exists i :: 0 <= i < |parts| && Unreadable(parts[i])
  {
    if parts != [] {
      var part := parts[0];
      assert Avoids(part, {'\n'});
      ReadPartsFails(parts[1..]);
      assert forall i :: 0 <= i < |parts[1..]| ==> parts[1..][i] == parts[i + 1];
      SkipsEmpty(part);
      NodeOfPartFails(part);
    }
  }

  lemma NodeOfPartFails(part: string)
    requires Avoids(part, {'\n'})
    ensures NodeOfPart(part).Panic? <==> Unreadable(part)
  {
    SplitNone(part, '\n');
    var o := Remove(part, '\r');
    RemoveKeeps(part, '\r', ':');
    SplitAlone(o, ':');
    assert NodeOfPart(part) == NodeOfLines([part], ZERO_NODE);
    if o == "" {
      assert NodeOfLines([part], ZERO_NODE) == NodeOfLines([part][1..], ZERO_NODE);
    } else if NodeOfLine(o).Ok? {
      assert NodeOfLines([part], ZERO_NODE) == NodeOfLines([part][1..], NodeOfLine(o).value);
    }
  }

  /** The parser indexes out of range exactly on texts with an unreadable line. */
  lemma ParsePanics(data: string)
    ensures Parse(data).Panic? <==> exists i :: 0 <= i < |PartsOf(data)| && Unreadable(PartsOf(data)[i])
  {
    var text := if BYTE_ORDER_MARK in data && data[0] == BYTE_ORDER_MARK then data[1..] else data;
    SplitParts(text, '\n', {});
    ReadPartsFails(PartsOf(data));
  }
}
