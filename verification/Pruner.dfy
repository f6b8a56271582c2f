/**
 Removal of setup and teardown nodes (pkg/testspecs/ginkgosspec.go).

 The source deletes from the slice it is iterating over and, after each deletion,
 prunes the whole remaining slice again before it goes on from the same index.
 Excluded below is the plain recursive filter it refines; Safe says when it does
 not index past the end of the slice.
 */
module Pruner {
  import opened Outline
  import opened OutlineRoundTrip

  const EXCLUDES := ["JustBeforeEach", "BeforeEach", "BeforeAll", "JustAfterEach", "AfterAll", "AfterEach"]

  predicate IsExcluded(n: Node) {
    n.name in EXCLUDES
  }

  /** The simple filter: drop the excluded nodes at every depth, keep the order. */
  function Filtered(nodes: Forest): Forest {
    if nodes == [] then []
    else (if IsExcluded(nodes[0]) then [] else [nodes[0].(nodes := Filtered(nodes[0].nodes))])
         + Filtered(nodes[1..])
  }

  /** Every sibling list the pruner visits is empty or ends in a kept node. */
  predicate Safe(nodes: Forest)
    decreases nodes, 1
  {
    nodes != [] ==> !IsExcluded(Last(nodes)) && SafeBelow(nodes)
  }

  predicate SafeBelow(nodes: Forest)
    decreases nodes, 0
  {
    forall i :: 0 <= i < |nodes| && !IsExcluded(nodes[i]) ==> Safe(nodes[i].nodes)
  }

  predicate Clean(nodes: Forest) {
    forall i :: 0 <= i < |nodes| ==> !IsExcluded(nodes[i]) && Clean(nodes[i].nodes)
  }

  function Count(nodes: Forest): nat {
    if nodes == [] then 0 else 1 + Count(nodes[0].nodes) + Count(nodes[1..])
  }

  // ----- The filter -----

  lemma {:induction false} FilteredConcat(a: Forest, b: Forest)
    ensures Filtered(a + b) == Filtered(a) + Filtered(b)
    decreases |a|
  {
    if a == [] {
      assert a + b == b;
    } else {
      assert (a + b)[0] == a[0] && (a + b)[1..] == a[1..] + b;
      FilteredConcat(a[1..], b);
    }
  }

  lemma FilteredOne(n: Node)
    ensures Filtered([n]) == if IsExcluded(n) then [] else [n.(nodes := Filtered(n.nodes))]
  {
    assert [n][1..] == [];
  }

  lemma {:induction false} FilteredClean(nodes: Forest)
    ensures Clean(Filtered(nodes))
    decreases nodes
  {
    if nodes != [] {
      FilteredClean(nodes[0].nodes);
      FilteredClean(nodes[1..]);
    }
  }

  lemma {:induction false} CleanFiltered(nodes: Forest)
    requires Clean(nodes)
    ensures Filtered(nodes) == nodes && Safe(nodes)
    decreases nodes
  {
    if nodes != [] {
      assert Clean(nodes[0].nodes) && Clean(nodes[1..]);
      CleanFiltered(nodes[1..]);
      forall i | 0 <= i < |nodes| ensures Safe(nodes[i].nodes) { CleanFiltered(nodes[i].nodes); }
      CleanFiltered(nodes[0].nodes);
    }
  }

  /** The filter changes nothing exactly when there is nothing to remove; so it is idempotent. */
  lemma FilteredFixpoint(nodes: Forest)
    ensures Filtered(nodes) == nodes <==> Clean(nodes)
    ensures Filtered(Filtered(nodes)) == Filtered(nodes)
  {
    FilteredClean(nodes);
    CleanFiltered(Filtered(nodes));
    if Clean(nodes) { CleanFiltered(nodes); }
  }

  // ----- What is left, path by path -----

  /** The setup and teardown nodes of Ginkgo. */
  predicate SetsUpOrTearsDown(name: string) {
    || name == "BeforeEach" || name == "AfterEach" || name == "BeforeAll" || name == "AfterAll"
    || name == "JustBeforeEach" || name == "JustAfterEach"
  }

  /** The way from a root to a node: the nodes on it without their children. */
  type Path = seq<Node>

  /** The paths to all nodes of a forest below `to`, in preorder. */
  function Paths(nodes: Forest, to: Path): seq<Path> {
    if nodes == [] then []
    else
      var here := to + [nodes[0].(nodes := [])];
      [here] + Paths(nodes[0].nodes, here) + Paths(nodes[1..], to)
  }

  predicate Stays(path: Path) {
    forall n <- path :: !SetsUpOrTearsDown(n.name)
  }

  function Staying(paths: seq<Path>): seq<Path> {
    if paths == [] then [] else (if Stays(paths[0]) then [paths[0]] else []) + Staying(paths[1..])
  }

  lemma {:induction false} StayingConcat(a: seq<Path>, b: seq<Path>)
    ensures Staying(a + b) == Staying(a) + Staying(b)
  {
    if a == [] {
      assert a + b == b;
    } else {
      assert (a + b)[0] == a[0] && (a + b)[1..] == a[1..] + b;
      StayingConcat(a[1..], b);
    }
  }

  lemma StayingOne(path: Path)
    ensures Staying([path]) == if Stays(path) then [path] else []
  {
    assert [path][1..] == [];
  }

  lemma StaysSnoc(to: Path, n: Node)
    ensures Stays(to + [n]) <==> Stays(to) && !SetsUpOrTearsDown(n.name)
  {
    assert forall x :: x in to + [n] <==> x in to || x == n;
  }

  /** A setup or teardown node takes everything below it along. */
  lemma {:induction false} NoneBelow(nodes: Forest, to: Path)
    requires !Stays(to)
    ensures Staying(Paths(nodes, to)) == []
    decreases nodes
  {
    if nodes != [] {
      var here := to + [nodes[0].(nodes := [])];
      StaysSnoc(to, nodes[0].(nodes := []));
      NoneBelow(nodes[0].nodes, here);
      NoneBelow(nodes[1..], to);
      StayingOne(here);
      StayingConcat([here], Paths(nodes[0].nodes, here));
      StayingConcat([here] + Paths(nodes[0].nodes, here), Paths(nodes[1..], to));
    }
  }

  lemma {:induction false} PathsConcat(a: Forest, b: Forest, to: Path)
    ensures Paths(a + b, to) == Paths(a, to) + Paths(b, to)
    decreases |a|
  {
    if a == [] {
      assert a + b == b;
    } else {
      assert (a + b)[0] == a[0] && (a + b)[1..] == a[1..] + b;
      PathsConcat(a[1..], b, to);
      var here := to + [a[0].(nodes := [])];
      var first := [here] + Paths(a[0].nodes, here);
      assert first + (Paths(a[1..], to) + Paths(b, to)) == first + Paths(a[1..], to) + Paths(b, to);
    }
  }

  lemma PathsOne(n: Node, to: Path)
    ensures var here := to + [n.(nodes := [])]; Paths([n], to) == [here] + Paths(n.nodes, here)
  {
    assert [n][1..] == [];
  }

  lemma {:induction false} PathsOfFiltered(nodes: Forest, to: Path)
    requires Stays(to)
    ensures Paths(Filtered(nodes), to) == Staying(Paths(nodes, to))
    decreases nodes
  {
    if nodes != [] {
      var n, rest := nodes[0], nodes[1..];
      var here := to + [n.(nodes := [])];
      StaysSnoc(to, n.(nodes := []));
      PathsOfFiltered(rest, to);
      StayingOne(here);
      StayingConcat([here], Paths(n.nodes, here));
      StayingConcat([here] + Paths(n.nodes, here), Paths(rest, to));
      if IsExcluded(n) {
        NoneBelow(n.nodes, here);
        assert Filtered(nodes) == Filtered(rest);
      } else {
        var n' := n.(nodes := Filtered(n.nodes));
        PathsOfFiltered(n.nodes, here);
        PathsConcat([n'], Filtered(rest), to);
        PathsOne(n', to);
        assert n'.(nodes := []) == n.(nodes := []);
      }
    }
  }

  /**
   Exactly the nodes on whose path there is a setup or teardown node are gone; all
   others are where they were, in the same order.
   */
  lemma FilteredPaths(nodes: Forest)
    ensures Paths(Filtered(nodes), []) == Staying(Paths(nodes, []))
  {
    PathsOfFiltered(nodes, []);
  }

  lemma {:induction false} CountConcat(a: Forest, b: Forest)
    ensures Count(a + b) == Count(a) + Count(b)
    decreases |a|
  {
    if a == [] {
      assert a + b == b;
    } else {
      assert (a + b)[0] == a[0] && (a + b)[1..] == a[1..] + b;
      CountConcat(a[1..], b);
    }
  }

  /** Removing one node leaves fewer; so does going down to a node's children. */
  lemma CountDrops(nodes: Forest, i: nat)
    requires i < |nodes|
    ensures Count(nodes[..i] + nodes[i + 1..]) < Count(nodes)
    ensures Count(nodes[i].nodes) < Count(nodes)
  {
    assert nodes == nodes[..i] + nodes[i..];
    CountConcat(nodes[..i], nodes[i..]);
    assert nodes[i..][1..] == nodes[i + 1..];
    CountConcat(nodes[..i], nodes[i + 1..]);
  }

  lemma {:induction false} FilteredShrinks(nodes: Forest)
    ensures Count(Filtered(nodes)) <= Count(nodes) && |Filtered(nodes)| <= |nodes|
    decreases nodes
  {
    if nodes != [] {
      FilteredShrinks(nodes[0].nodes);
      FilteredShrinks(nodes[1..]);
      assert nodes[0].(nodes := Filtered(nodes[0].nodes)).nodes == Filtered(nodes[0].nodes);
      var head := if IsExcluded(nodes[0]) then [] else [nodes[0].(nodes := Filtered(nodes[0].nodes))];
      CountConcat(head, Filtered(nodes[1..]));
      assert head != [] ==> head[1..] == [];
    }
  }

  lemma RemoveExcludedFiltered(front: Forest, n: Node, tail: Forest)
    requires IsExcluded(n)
    ensures Filtered(front + tail) == Filtered(front + [n] + tail)
  {
    FilteredConcat(front, tail);
    FilteredConcat(front + [n], tail);
    FilteredConcat(front, [n]);
    FilteredOne(n);
    assert Filtered(front) + [] == Filtered(front);
  }

  lemma SafeBelowConcat(a: Forest, b: Forest)
    ensures SafeBelow(a + b) <==> SafeBelow(a) && SafeBelow(b)
  {
    var c := a + b;
    assert forall i :: 0 <= i < |a| ==> c[i] == a[i];
    assert forall i :: 0 <= i < |b| ==> c[|a| + i] == b[i];
    assert forall i :: |a| <= i < |c| ==> c[i] == b[i - |a|];
  }

  lemma RemoveExcludedSafe(front: Forest, n: Node, tail: Forest)
    requires tail != [] && IsExcluded(n)
    ensures Safe(front + tail) <==> Safe(front + [n] + tail)
  {
    SafeBelowConcat(front, tail);
    SafeBelowConcat(front + [n], tail);
    SafeBelowConcat(front, [n]);
    assert SafeBelow([n]);
    assert Last(front + tail) == Last(tail) == Last(front + [n] + tail);
  }

  lemma {:induction false} FilteredNonEmpty(nodes: Forest)
    requires nodes != [] && !IsExcluded(Last(nodes))
    ensures Filtered(nodes) != []
  {
    if |nodes| > 1 { FilteredNonEmpty(nodes[1..]); }
  }

  /** Removing an excluded node that is not the last leaves room for the index. */
  lemma RemoveInner(front: Forest, n: Node, tail: Forest)
    requires Filtered(front) == front && tail != [] && IsExcluded(n)
    ensures Safe(front + tail) <==> Safe(front + [n] + tail)
    ensures Filtered(front + tail) == Filtered(front + [n] + tail)
    ensures Safe(front + tail) ==> |front| < |Filtered(front + tail)|
  {
    RemoveExcludedSafe(front, n, tail);
    RemoveExcludedFiltered(front, n, tail);
    if Safe(front + tail) {
      assert Last(front + tail) == Last(tail);
      FilteredNonEmpty(tail);
      FilteredConcat(front, tail);
    }
  }

  lemma CleanSafe(nodes: Forest)
    requires Clean(nodes)
    ensures Safe(nodes)
  {
    CleanFiltered(nodes);
  }

  lemma PruneChildFiltered(front: Forest, n: Node, tail: Forest)
    requires !IsExcluded(n)
    ensures Filtered(front + [n.(nodes := Filtered(n.nodes))] + tail) == Filtered(front + [n] + tail)
  {
    var n' := n.(nodes := Filtered(n.nodes));
    FilteredFixpoint(n.nodes);
    FilteredOne(n);
    FilteredOne(n');
    FilteredConcat(front, [n]);
    FilteredConcat(front, [n']);
    FilteredConcat(front + [n], tail);
    FilteredConcat(front + [n'], tail);
  }

  lemma PruneChildCount(front: Forest, n: Node, tail: Forest)
    ensures Count(front + [n.(nodes := Filtered(n.nodes))] + tail) <= Count(front + [n] + tail)
  {
    var n' := n.(nodes := Filtered(n.nodes));
    FilteredShrinks(n.nodes);
    CountConcat(front, [n]);
    CountConcat(front, [n']);
    CountConcat(front + [n], tail);
    CountConcat(front + [n'], tail);
    assert [n][1..] == [] && [n'][1..] == [];
  }

  lemma PruneChildSafe(cur: Forest, i: nat)
    requires i < |cur| && !IsExcluded(cur[i]) && Safe(cur[i].nodes)
    ensures Safe(cur[i := cur[i].(nodes := Filtered(cur[i].nodes))]) <==> Safe(cur)
  {
    var cur' := cur[i := cur[i].(nodes := Filtered(cur[i].nodes))];
    FilteredClean(cur[i].nodes);
    CleanSafe(Filtered(cur[i].nodes));
    assert forall j :: 0 <= j < |cur| && j != i ==> cur'[j] == cur[j];
    assert IsExcluded(Last(cur')) <==> IsExcluded(Last(cur));
  }

  lemma FilteredFacts(nodes: Forest, i: nat)
    ensures var f := Filtered(nodes);
            && Safe(f) && Filtered(f) == f
            && |f| <= |nodes| && Count(f) <= Count(nodes)
            && (i < |f| ==> !IsExcluded(f[i]) && Filtered(f[..i]) == f[..i])
  {
    FilteredFixpoint(nodes);
    FilteredClean(nodes);
    CleanSafe(Filtered(nodes));
    FilteredShrinks(nodes);
    if i < |Filtered(nodes)| { CleanFiltered(Filtered(nodes)[..i]); }
  }

  // ----- The loop invariant -----

  /** `cur` is what the slice holds when the first `i` of its nodes are done. */
  predicate Progress(input: Forest, cur: Forest, i: nat) {
    && i <= |cur| <= |input|
    && Count(cur) <= Count(input)
    && Filtered(cur) == Filtered(input)
    && (Safe(cur) <==> Safe(input))
    && Filtered(cur[..i]) == cur[..i]
  }

  /**
   What pruning the slice without its excluded node `i` leads to. If that node was
   the last one, the slice is left with `i` nodes and the index is past its end.
   */
  lemma RemoveNode(input: Forest, cur: Forest, i: nat)
    requires Progress(input, cur, i) && i < |cur| && IsExcluded(cur[i])
    ensures var rest := cur[..i] + cur[i + 1..];
            && Count(rest) < Count(cur)
            && (Safe(rest) && i < |Filtered(rest)| ==>
                  !IsExcluded(Filtered(rest)[i]) && Progress(input, Filtered(rest), i))
            && (!Safe(rest) || |Filtered(rest)| <= i ==> !Safe(input))
  {
    CountDrops(cur, i);
    if i < |cur| - 1 {
      assert cur == cur[..i] + [cur[i]] + cur[i + 1..];
      RemoveInner(cur[..i], cur[i], cur[i + 1..]);
      FilteredFacts(cur[..i] + cur[i + 1..], i);
      assert |cur[..i] + cur[i + 1..]| < |cur|;
    } else {
      assert cur[..i] + cur[i + 1..] == cur[..i];
    }
  }

  lemma PruneChild(input: Forest, cur: Forest, i: nat)
    requires Progress(input, cur, i) && i < |cur| && !IsExcluded(cur[i])
    ensures !Safe(cur[i].nodes) ==> !Safe(input)
    ensures Safe(cur[i].nodes) ==>
      Progress(input, cur[i := cur[i].(nodes := Filtered(cur[i].nodes))], i + 1)
  {
    var n := cur[i];
    assert Safe(cur) ==> SafeBelow(cur);
    assert SafeBelow(cur) ==> Safe(n.nodes);
    if Safe(n.nodes) {
      var cur' := cur[i := n.(nodes := Filtered(n.nodes))];
      assert cur == cur[..i] + [n] + cur[i + 1..];
      assert cur' == cur[..i] + [n.(nodes := Filtered(n.nodes))] + cur[i + 1..];
      PruneChildFiltered(cur[..i], n, cur[i + 1..]);
      PruneChildCount(cur[..i], n, cur[i + 1..]);
      PruneChildSafe(cur, i);
      FilteredFixpoint(n.nodes);
      assert cur'[..i + 1] == cur[..i] + [cur'[i]];
      FilteredConcat(cur[..i], [cur'[i]]);
      FilteredOne(cur'[i]);
    }
  }

  // ----- The in-place pruner -----

  /** `append(nodes[:i], nodes[i+1:]...)`: shifts the tail down by one place. */
  method RemoveAt(a: array<Node>, len: nat, i: nat) returns (len': nat)
    requires i < len <= a.Length
    modifies a
    ensures len' == len - 1
    ensures a[..len'] == old(a[..i] + a[i + 1..len])
  {
    ghost var was := a[..];
    for k := i + 1 to len
      invariant forall j :: 0 <= j < i ==> a[j] == was[j]
      invariant forall j :: i <= j < k - 1 ==> a[j] == was[j + 1]
      invariant forall j :: k <= j < len ==> a[j] == was[j]
    {
      a[k - 1] := a[k];
    }
    len' := len - 1;
    assert a[..len'] == was[..i] + was[i + 1..len];
  }

  /**
   `excludeSetupTeardownNodes` on the slice `a[..len]`. It runs without indexing
   past the end exactly on safe slices, and then leaves the filtered slice.
   */
  method Prune(a: array<Node>, len: nat) returns (ok: bool, len': nat)
    requires len <= a.Length
    modifies a
    ensures ok <==> Safe(old(a[..len]))
    ensures ok ==> len' <= len && a[..len'] == Filtered(old(a[..len]))
    decreases Count(a[..len]), 1
  {
    ghost var input := a[..len];
    len' := len;
    var i := 0;
    while i < len'
      invariant i <= len' <= len
      invariant Progress(input, a[..len'], i)
    {
      ok, len' := VisitNode(input, a, len', i);
      if !ok {
        return;
      }
      i := i + 1;
    }
    assert a[..len'][..i] == a[..len'];
    FilteredFacts(input, 0);
    ok := true;
  }

  /** The loop body, given that the first `i` nodes of the slice are done. */
  method VisitNode(ghost input: Forest, a: array<Node>, len: nat, i: nat) returns (ok: bool, len': nat)
    requires i < len <= a.Length && Progress(input, a[..len], i)
    modifies a
    ensures ok ==> i < len' <= len && Progress(input, a[..len'], i + 1)
    ensures !ok ==> !Safe(input)
    decreases Count(input), 0, 1
  {
    len' := len;
    if a[i].name in EXCLUDES {
      ghost var cur := a[..len];
      RemoveNode(input, cur, i);
      assert a[..i] + a[i + 1..len] == cur[..i] + cur[i + 1..];
      ok, len' := RemoveAndRestart(a, len, i);
      if !ok {
        return;
      }
    }
    if i >= len' {
      return false, len';
    }
    PruneChild(input, a[..len'], i);
    ok := VisitChildren(a, len', i);
  }

  /** Deletes the node at `i` and prunes the remaining slice from its start. */
  method RemoveAndRestart(a: array<Node>, len: nat, i: nat) returns (ok: bool, len': nat)
    requires i < len <= a.Length
    modifies a
    ensures ok <==> Safe(old(a[..i] + a[i + 1..len]))
    ensures ok ==> len' < len && a[..len'] == Filtered(old(a[..i] + a[i + 1..len]))
    decreases Count(a[..len]), 0, 0
  {
    ghost var cur := a[..len];
    CountDrops(cur, i);
    len' := RemoveAt(a, len, i);
    assert a[..len'] == cur[..i] + cur[i + 1..];
    ok, len' := Prune(a, len');
  }

  /** The end of the loop body: prunes the children of the node at `i`. */
  method VisitChildren(a: array<Node>, len: nat, i: nat) returns (ok: bool)
    requires i < len <= a.Length
    modifies a
    ensures ok <==> Safe(old(a[i]).nodes)
    ensures ok ==> a[..len] == old(a[..len])[i := old(a[i]).(nodes := Filtered(old(a[i]).nodes))]
    decreases Count(a[..len]), 0, 0
  {
    ghost var cur := a[..len];
    ok := true;
    if |a[i].nodes| != 0 {
      CountDrops(cur, i);
      var children;
      ok, children := PruneChildren(a[i].nodes);
      if ok {
        a[i] := a[i].(nodes := children);
      }
    }
    assert ok ==> a[..len] == cur[i := cur[i].(nodes := Filtered(cur[i].nodes))];
  }

  /** The recursive call on a node's own slice. */
  method PruneChildren(nodes: Forest) returns (ok: bool, r: Forest)
    ensures ok <==> Safe(nodes)
    ensures ok ==> r == Filtered(nodes)
    decreases Count(nodes), 2
  {
    var b := new Node[|nodes|](i requires 0 <= i < |nodes| => nodes[i]);
    assert b[..|nodes|] == nodes;
    var n;
    ok, n := Prune(b, |nodes|);
    r := if ok then b[..n] else [];
  }

  // ----- From a Ginkgo outline to a text outline and back -----

  function Marked(nodes: Forest): (r: Forest)
    ensures |r| == |nodes|
  {
    seq(|nodes|, i requires 0 <= i < |nodes| => nodes[i].(inner := true))
  }

  /** `markInnerParentContainer`. */
  method MarkInner(a: array<Node>)
    modifies a
    ensures a[..] == Marked(old(a[..]))
  {
    for i := 0 to a.Length
      invariant forall j :: 0 <= j < i ==> a[j] == old(a[j]).(inner := true)
      invariant forall j :: i <= j < a.Length ==> a[j] == old(a[j])
    {
      a[i] := a[i].(inner := true);
    }
  }

  /** Neither the children nor the container flag of a node matter to its own line. */
  lemma SameLine(n: Node, nodes: Forest)
    ensures PrintableNode(n.(nodes := nodes)) <==> PrintableNode(n)
    ensures PrintableNode(n.(inner := true)) <==> PrintableNode(n)
  {
  }

  lemma {:induction false} FilteredPrintable(nodes: Forest)
    requires Printable(nodes)
    ensures Printable(Filtered(nodes))
    decreases nodes
  {
    if nodes != [] {
      var n := nodes[0];
      FilteredPrintable(nodes[1..]);
      if IsExcluded(n) {
        assert Filtered(nodes) == Filtered(nodes[1..]);
      } else {
        FilteredPrintable(n.nodes);
        SameLine(n, Filtered(n.nodes));
        PrintableOne(n.(nodes := Filtered(n.nodes)));
        PrintableConcat([n.(nodes := Filtered(n.nodes))], Filtered(nodes[1..]));
      }
    }
  }

  lemma MarkedCons(nodes: Forest)
    requires nodes != []
    ensures Marked(nodes) == [nodes[0].(inner := true)] + Marked(nodes[1..])
  {
  }

  lemma {:induction false} MarkedPrintable(nodes: Forest)
    ensures Printable(Marked(nodes)) <==> Printable(nodes)
    decreases |nodes|
  {
    if nodes != [] {
      MarkedCons(nodes);
      SameLine(nodes[0], []);
      MarkedPrintable(nodes[1..]);
      assert Marked(nodes)[1..] == Marked(nodes[1..]);
    }
  }

  lemma {:induction false} MarkedNormalized(nodes: Forest, width: nat)
    ensures Normalized(Marked(nodes), width) == Normalized(nodes, width)
    decreases |nodes|
  {
    if nodes != [] {
      var n, rest := nodes[0], nodes[1..];
      MarkedCons(nodes);
      assert Marked(nodes)[0] == n.(inner := true) && Marked(nodes)[1..] == Marked(rest);
      assert LeafBack(n.(inner := true), width) == LeafBack(n, width);
      MarkedNormalized(rest, width);
    }
  }

  lemma MarkedConcat(a: Forest, b: Forest)
    ensures Marked(a + b) == Marked(a) + Marked(b)
  {
  }

  /** It does not matter whether the nodes are marked before they are filtered or afterwards. */
  lemma {:induction false} FilteredMarked(nodes: Forest)
    ensures Filtered(Marked(nodes)) == Marked(Filtered(nodes))
    decreases |nodes|
  {
    if nodes != [] {
      var n, rest := nodes[0], nodes[1..];
      assert nodes == [n] + rest;
      MarkedCons(nodes);
      FilteredMarked(rest);
      FilteredConcat([n], rest);
      FilteredConcat([n.(inner := true)], Marked(rest));
      FilteredOne(n);
      FilteredOne(n.(inner := true));
      MarkedConcat(Filtered([n]), Filtered(rest));
      assert Filtered([n.(inner := true)]) == Marked(Filtered([n]));
    }
  }

  lemma SafeMarked(nodes: Forest)
    ensures Safe(Marked(nodes)) <==> Safe(nodes)
  {
    var m := Marked(nodes);
    assert forall i :: 0 <= i < |nodes| ==> m[i].name == nodes[i].name && m[i].nodes == nodes[i].nodes;
  }

  /** The outline of a file: its nodes, inside the framework's describe node if there is one. */
  function Wrapped(describe: Node, nodes: Forest): Forest {
    if describe == ZERO_NODE then nodes else [describe.(nodes := nodes)]
  }

  /** What `FromFile` does with the nodes that `ginkgo outline` reports. */
  method FromGinkgo(a: array<Node>, describe: Node) returns (ok: bool, outline: Forest)
    modifies a
    ensures ok <==> Safe(old(a[..]))
    ensures ok ==> outline == Wrapped(describe, Filtered(Marked(old(a[..]))))
  {
    SafeMarked(a[..]);
    MarkInner(a);
    assert a[..a.Length] == a[..];
    var len;
    ok, len := Prune(a, a.Length);
    if !ok {
      return false, [];
    }
    if describe == ZERO_NODE {
      return true, a[..len];
    }
    return true, [describe.(nodes := a[..len])];
  }

  /**
   Writing a Ginkgo outline as text: it works exactly on safe outlines, and the
   text is read back as the outline without its setup and teardown nodes exactly
   if what is left is printable.
   */
  method Export(a: array<Node>, describe: Node) returns (ok: bool, text: string)
    modifies a
    ensures ok <==> Safe(old(a[..]))
    ensures ok ==> var outline := Wrapped(describe, Filtered(old(a[..])));
            Parse(text) == Ok(Normalized(outline, 0)) <==> Printable(outline)
  {
    ghost var nodes := a[..];
    var outline;
    ok, outline := FromGinkgo(a, describe);
    text := "";
    if ok {
      text := PrintOutline(outline, 0);
      ExportRoundTrip(nodes, describe);
    }
  }

  lemma WrappedMarked(describe: Node, nodes: Forest)
    ensures Normalized(Wrapped(describe, Marked(nodes)), 0) == Normalized(Wrapped(describe, nodes), 0)
    ensures Printable(Wrapped(describe, Marked(nodes))) <==> Printable(Wrapped(describe, nodes))
  {
    MarkedNormalized(nodes, 0);
    MarkedPrintable(nodes);
    if describe != ZERO_NODE {
      var x, y := describe.(nodes := Marked(nodes)), describe.(nodes := nodes);
      assert [x][1..] == [] && [y][1..] == [];
      MarkedNormalized(nodes, 2);
      assert LeafBack(x, 0) == LeafBack(y, 0);
      SameLine(describe, nodes);
      SameLine(describe, Marked(nodes));
      PrintableOne(x);
      PrintableOne(y);
    }
  }

  /**
   A Ginkgo outline that is marked, pruned, wrapped and written as text is read
   back without its setup and teardown nodes, and otherwise as it was, exactly if
   what is left is printable; which it is if the outline was.
   */
  lemma ExportRoundTrip(nodes: Forest, describe: Node)
    ensures Parse(Print(Wrapped(describe, Filtered(Marked(nodes))), 0)) == Ok(Normalized(Wrapped(describe, Filtered(nodes)), 0))
       <==> Printable(Wrapped(describe, Filtered(nodes)))
    ensures Printable(nodes) && PrintableNode(describe) ==> Printable(Wrapped(describe, Filtered(nodes)))
    ensures Clean(Normalized(Filtered(nodes), 0))
  {
    FilteredMarked(nodes);
    WrappedMarked(describe, Filtered(nodes));
    RoundTrip(Wrapped(describe, Marked(Filtered(nodes))));
    if Printable(nodes) {
      FilteredPrintable(nodes);
      SameLine(describe, Filtered(nodes));
      PrintableOne(describe.(nodes := Filtered(nodes)));
    }
    FilteredClean(nodes);
    NormalizedClean(Filtered(nodes), 0);
  }

  lemma {:induction false} NormalizedClean(nodes: Forest, width: nat)
    requires Clean(nodes)
    ensures Clean(Normalized(nodes, width))
    decreases nodes
  {
    if nodes != [] {
      assert Clean(nodes[0].nodes) && Clean(nodes[1..]);
      NormalizedClean(nodes[0].nodes, width + 2);
      NormalizedClean(nodes[1..], width);
    }
  }
}
