/**
 Printing an outline and reading it back.

 The main theorem, RoundTrip, is an equivalence: reading the printed form gives
 the outline back (up to the indentation levels, the cleared container flag and
 the one space the parser leaves after the text of a labelled node) exactly when
 every name, text and label of the outline is Printable.
 */
module OutlineRoundTrip {
  import opened GoStrings
  import opened Outline

  // ----- What a round trip should give -----

  /** A labelled node's text is read back with the space that preceded its first label. */
  function TextBack(n: Node): string {
    if n.labels != [] && n.text != "" then n.text + " " else n.text
  }

  function LeafBack(n: Node, width: nat): Node {
    Node(n.name, TextBack(n), n.labels, [], false, width)
  }

  function Normalized(nodes: Forest, width: nat): (r: Forest)
    ensures |r| == |nodes|
  {
    if nodes == [] then []
    else [LeafBack(nodes[0], width).(nodes := Normalized(nodes[0].nodes, width + 2))]
         + Normalized(nodes[1..], width)
  }

  predicate PrintableLabel(l: string) {
    Trimmed(l) && Avoids(l, {'\n', '\r', ':', '@', ','})
  }

  /** A text may end in spaces only in front of labels. */
  predicate PrintableNode(n: Node) {
    && Trimmed(n.name) && Avoids(n.name, {'\n', '\r', ':'})
    && NoLeadingSpace(n.text) && Avoids(n.text, {'\n', '\r', ':', '@'})
    && (n.labels == [] ==> Trimmed(n.text))
    && forall i :: 0 <= i < |n.labels| ==> PrintableLabel(n.labels[i])
  }

  predicate Printable(nodes: Forest) {
    nodes != [] ==>
      PrintableNode(nodes[0]) && Printable(nodes[0].nodes) && Printable(nodes[1..])
  }

  // ----- Reading one printed line -----

  /** The text between the at-signs of a printed label list. */
  function Pieces(labels: seq<string>): seq<string> {
    if |labels| <= 1 then labels else [labels[0] + ", "] + Pieces(labels[1..])
  }

  /** A printed label list without its leading at-sign. */
  function LabelTail(labels: seq<string>): string
    requires labels != []
  {
    labels[0] + if |labels| == 1 then "" else ", " + LabelList(labels[1..])
  }

  lemma LabelListCons(labels: seq<string>)
    requires labels != []
    ensures LabelList(labels) == ['@'] + LabelTail(labels)
  {
    assert AtSigns(labels)[1..] == AtSigns(labels[1..]);
  }

  lemma {:induction false} LabelListShape(labels: seq<string>)
    requires labels != []
    requires forall i :: 0 <= i < |labels| ==> PrintableLabel(labels[i])
    ensures var s := LabelList(labels);
            s != "" && s[0] == '@' && Trimmed(s) && Avoids(s, {'\n', '\r', ':'})
  {
    var first := labels[0];
    assert PrintableLabel(first);
    LabelListCons(labels);
    if |labels| == 1 {
      assert LabelTail(labels) == first + "";
      ShapeOne(first, "");
    } else {
      LabelListShape(labels[1..]);
      ShapeOne(first, ", " + LabelList(labels[1..]));
    }
  }

  /** A label after an at-sign, with something after it that does not end in a space. */
  lemma ShapeOne(l: string, more: string)
    requires PrintableLabel(l) && Avoids(more, {'\n', '\r', ':'})
    requires more != "" ==> more[|more| - 1] != ' '
    ensures var s := ['@'] + (l + more);
            s[0] == '@' && Trimmed(s) && Avoids(s, {'\n', '\r', ':'})
  {
  }

  lemma SplitOnce(front: string, tail: string)
    requires Avoids(front, {'@'})
    ensures Split(front + (['@'] + tail), '@') == [front] + Split(tail, '@')
  {
    SplitNone(front, '@');
    SplitConcat(front, '@', tail);
    assert front + (['@'] + tail) == front + ['@'] + tail;
  }

  lemma SplitAtLabels(front: string, labels: seq<string>)
    requires labels != [] && Avoids(front, {'@'})
    ensures Split(front + LabelList(labels), '@') == [front] + Split(LabelTail(labels), '@')
  {
    LabelListCons(labels);
    SplitOnce(front, LabelTail(labels));
  }

  lemma {:induction false} LabelTailSplit(labels: seq<string>)
    requires labels != []
    requires forall i :: 0 <= i < |labels| ==> PrintableLabel(labels[i])
    ensures Split(LabelTail(labels), '@') == Pieces(labels)
  {
    assert PrintableLabel(labels[0]);
    if |labels| == 1 {
      SplitNone(labels[0], '@');
      assert LabelTail(labels) == labels[0];
    } else {
      assert LabelTail(labels) == labels[0] + ", " + LabelList(labels[1..]);
      SplitAtLabels(labels[0] + ", ", labels[1..]);
      LabelTailSplit(labels[1..]);
    }
  }

  lemma PieceRead(l: string)
    requires PrintableLabel(l)
    ensures LabelsOfPiece(l) == [l] && LabelsOfPiece(l + ", ") == [l]
  {
    RemoveNone(l, ',');
    RemoveConcat(l, ", ", ',');
    assert Remove(", ", ',') == " " by { RemoveConcat(",", " ", ','); }
    TrimPadded(0, l);
    assert Spaces(0) + l == l;
  }

  lemma {:induction false} PiecesRead(labels: seq<string>)
    requires forall i :: 0 <= i < |labels| ==> PrintableLabel(labels[i])
    ensures LabelsOf(Pieces(labels)) == labels
  {
    if labels != [] {
      assert PrintableLabel(labels[0]);
      PieceRead(labels[0]);
      if |labels| > 1 { PiecesRead(labels[1..]); }
    }
  }

  lemma TailShape(n: Node)
    requires PrintableNode(n)
    ensures LabelList(n.labels) == "" <==> n.labels == []
    ensures Avoids(Tail(n), {'\n', '\r', ':'})
  {
    if n.labels != [] { LabelListShape(n.labels); }
  }

  /** What the parser makes of the part after the colon. */
  lemma TailRead(n: Node)
    requires PrintableNode(n)
    ensures Trim(Tail(n)) == TextBack(n) + LabelList(n.labels)
  {
    TailShape(n);
    var body := TextBack(n) + LabelList(n.labels);
    if n.labels != [] { LabelListShape(n.labels); }
    var pad := if n.labels != [] && n.text == "" then 2 else 1;
    assert Tail(n) == Spaces(pad) + body;
    TrimPadded(pad, body);
  }

  lemma LineAvoids(n: Node, width: nat)
    requires PrintableNode(n)
    ensures Avoids(LineOf(n, width), {'\n', '\r'}) && LineOf(n, width) != ""
  {
    TailShape(n);
  }

  lemma SpacedSplit(width: nat, name: string, tail: string)
    requires NoLeadingSpace(name) && Avoids(name, {':'}) && Avoids(tail, {':'})
    ensures var line := Spaces(width) + name + [':'] + tail;
            Split(line, ':') == [Spaces(width) + name, tail] && |TrimLeft(line)| == |line| - width
  {
    SplitConcat(Spaces(width) + name, ':', tail);
    SplitNone(Spaces(width) + name, ':');
    SplitNone(tail, ':');
    assert Spaces(width) + name + [':'] + tail == Spaces(width) + (name + [':'] + tail);
    TrimLeftSpaces(width, name + [':'] + tail);
  }

  lemma LineSplit(n: Node, width: nat)
    requires PrintableNode(n)
    ensures Split(LineOf(n, width), ':') == [Spaces(width) + n.name, Tail(n)]
    ensures |TrimLeft(LineOf(n, width))| == |LineOf(n, width)| - width
  {
    TailShape(n);
    SpacedSplit(width, n.name, Tail(n));
  }

  lemma LineRead(n: Node, width: nat)
    requires PrintableNode(n)
    ensures NodeOfPart(LineOf(n, width)) == Ok(LeafBack(n, width))
  {
    var line := LineOf(n, width);
    LineAvoids(n, width);
    SplitNone(line, '\n');
    RemoveNone(line, '\r');
    NodeOfPrintedLine(n, width);
    assert NodeOfLines([line], ZERO_NODE) == NodeOfLines([line][1..], LeafBack(n, width));
  }

  lemma NodeOfPrintedLine(n: Node, width: nat)
    requires PrintableNode(n)
    ensures NodeOfLine(LineOf(n, width)) == Ok(LeafBack(n, width))
  {
    LineSplit(n, width);
    TrimPadded(width, n.name);
    TailRead(n);
    if n.labels == [] {
      assert TextBack(n) + LabelList(n.labels) == n.text;
    } else {
      LabelListShape(n.labels);
      SplitAtLabels(TextBack(n), n.labels);
      LabelTailSplit(n.labels);
      PiecesRead(n.labels);
    }
  }

  // ----- From the printed text to lines -----

  function Lines(nodes: Forest, width: nat): seq<string> {
    if nodes == [] then []
    else
      [LineOf(nodes[0], width)] + Lines(nodes[0].nodes, width + 2)
      + (if BlankLineAfter(nodes[0]) then [""] else [])
      + Lines(nodes[1..], width)
  }

  function Glue(lines: seq<string>): string {
    if lines == [] then "" else "\n" + lines[0] + Glue(lines[1..])
  }

  lemma {:induction false} GlueConcat(a: seq<string>, b: seq<string>)
    ensures Glue(a + b) == Glue(a) + Glue(b)
  {
    if a == [] {
      assert a + b == b;
    } else {
      assert (a + b)[1..] == a[1..] + b;
      GlueConcat(a[1..], b);
    }
  }

  lemma {:induction false} PrintIsGlue(nodes: Forest, width: nat)
    ensures Print(nodes, width) == Glue(Lines(nodes, width))
    decreases nodes
  {
    if nodes != [] {
      var n := nodes[0];
      PrintIsGlue(n.nodes, width + 2);
      PrintIsGlue(nodes[1..], width);
      var blank := if BlankLineAfter(n) then [""] else [];
      assert Glue(blank) == if BlankLineAfter(n) then "\n" else "";
      assert Glue([LineOf(n, width)]) == "\n" + LineOf(n, width);
      GlueConcat([LineOf(n, width)], Lines(n.nodes, width + 2));
      GlueConcat([LineOf(n, width)] + Lines(n.nodes, width + 2), blank);
      GlueConcat([LineOf(n, width)] + Lines(n.nodes, width + 2) + blank, Lines(nodes[1..], width));
    }
  }

  lemma {:induction false} GlueSplit(first: string, lines: seq<string>)
    requires Avoids(first, {'\n'})
    requires forall i :: 0 <= i < |lines| ==> Avoids(lines[i], {'\n'})
    ensures Split(first + Glue(lines), '\n') == [first] + lines
    decreases lines
  {
    SplitNone(first, '\n');
    if lines == [] {
      assert first + Glue(lines) == first;
    } else {
      assert first + Glue(lines) == first + ['\n'] + (lines[0] + Glue(lines[1..]));
      SplitConcat(first, '\n', lines[0] + Glue(lines[1..]));
      GlueSplit(lines[0], lines[1..]);
    }
  }

  lemma {:induction false} LinesAvoid(nodes: Forest, width: nat)
    requires Printable(nodes)
    ensures forall i :: 0 <= i < |Lines(nodes, width)| ==> Avoids(Lines(nodes, width)[i], {'\n'})
    decreases nodes
  {
    if nodes != [] {
      LineAvoids(nodes[0], width);
      LinesAvoid(nodes[0].nodes, width + 2);
      LinesAvoid(nodes[1..], width);
    }
  }

  // ----- From lines to nodes -----

  /** The nodes of a forest in preorder, as the parser reads them. */
  function LeavesBack(nodes: Forest, width: nat): seq<Node> {
    if nodes == [] then []
    else [LeafBack(nodes[0], width)] + LeavesBack(nodes[0].nodes, width + 2) + LeavesBack(nodes[1..], width)
  }

  /** `FromFile` skips a part exactly when it is empty. */
  lemma SkipsEmpty(part: string)
    requires Avoids(part, {'\n'})
    ensures Contains("\n", part) <==> part == ""
  {
    if part == "" {
      assert OccursAt("\n", part, 0);
    } else {
      assert part[0] != '\n';
    }
  }

  lemma {:induction false} ReadConcat(a: seq<string>, b: seq<string>)
    requires ReadParts(a).Ok? && ReadParts(b).Ok?
    ensures ReadParts(a + b) == Ok(ReadParts(a).value + ReadParts(b).value)
  {
    if a == [] {
      assert a + b == b && [] + ReadParts(b).value == ReadParts(b).value;
    } else {
      assert (a + b)[0] == a[0] && (a + b)[1..] == a[1..] + b;
      ReadConcat(a[1..], b);
      var rest := ReadParts(a[1..]).value;
      if !Contains("\n", a[0]) {
        var first := [NodeOfPart(a[0]).value];
        assert first + (rest + ReadParts(b).value) == first + rest + ReadParts(b).value;
      }
    }
  }

  lemma ReadLine(n: Node, width: nat)
    requires PrintableNode(n)
    ensures ReadParts([LineOf(n, width)]) == Ok([LeafBack(n, width)])
    ensures ReadParts([""]) == Ok([])
  {
    LineAvoids(n, width);
    SkipsEmpty(LineOf(n, width));
    LineRead(n, width);
    SkipsEmpty("");
    assert ReadParts([""]) == ReadParts([""][1..]);
    assert ReadParts([LineOf(n, width)][1..]) == Ok([]);
    assert [LeafBack(n, width)] + [] == [LeafBack(n, width)];
  }

  lemma {:induction false} LinesRead(nodes: Forest, width: nat)
    requires Printable(nodes)
    ensures ReadParts(Lines(nodes, width)) == Ok(LeavesBack(nodes, width))
    decreases nodes
  {
    if nodes != [] {
      var n := nodes[0];
      var blank := if BlankLineAfter(n) then [""] else [];
      ReadLine(n, width);
      LinesRead(n.nodes, width + 2);
      LinesRead(nodes[1..], width);
      var own := [LineOf(n, width)] + Lines(n.nodes, width + 2);
      ReadConcat([LineOf(n, width)], Lines(n.nodes, width + 2));
      ReadConcat(own, blank);
      ReadConcat(own + blank, Lines(nodes[1..], width));
      assert ReadParts(own).value + [] == ReadParts(own).value;
    }
  }

  // ----- From nodes to the tree -----

  lemma {:induction false} InsertAllConcat(o: Forest, a: seq<Node>, b: seq<Node>)
    ensures InsertAll(o, a + b) == InsertAll(InsertAll(o, a), b)
    decreases a
  {
    if a == [] {
      assert a + b == b;
    } else {
      assert (a + b)[1..] == a[1..] + b;
      InsertAllConcat(Insert(o, a[0]), a[1..], b);
    }
  }

  /** Lines deeper than the last top-level node all go below it. */
  lemma {:induction false} InsertBelow(o: Forest, lines: seq<Node>)
    requires o != []
    requires forall i :: 0 <= i < |lines| ==> Last(o).level < lines[i].level
    ensures InsertAll(o, lines) == Front(o) + [Last(o).(nodes := InsertAll(Last(o).nodes, lines))]
    decreases lines
  {
    if lines == [] {
      assert o == Front(o) + [Last(o)];
    } else {
      assert Last(o).level < lines[0].level;
      var o' := Insert(o, lines[0]);
      assert Front(o') == Front(o);
      InsertBelow(o', lines[1..]);
    }
  }

  lemma {:induction false} LeavesDeep(nodes: Forest, width: nat)
    ensures forall i :: 0 <= i < |LeavesBack(nodes, width)| ==> width <= LeavesBack(nodes, width)[i].level
    decreases nodes
  {
    if nodes != [] {
      LeavesDeep(nodes[0].nodes, width + 2);
      LeavesDeep(nodes[1..], width);
    }
  }

  /** A line and the deeper lines that follow it become one node. */
  lemma InsertBlock(o: Forest, leaf: Node, below: seq<Node>)
    requires o == [] || Last(o).level == leaf.level
    requires leaf.nodes == []
    requires forall i :: 0 <= i < |below| ==> leaf.level < below[i].level
    ensures InsertAll(o, [leaf] + below) == o + [leaf.(nodes := InsertAll([], below))]
  {
    var o1 := o + [leaf];
    assert ([leaf] + below)[1..] == below;
    assert Front(o1) == o && Last(o1) == leaf;
    InsertBelow(o1, below);
  }

  lemma NormalizedBlock(nodes: Forest, width: nat)
    requires nodes != []
    ensures Normalized(nodes, width)
         == [LeafBack(nodes[0], width).(nodes := [] + Normalized(nodes[0].nodes, width + 2))]
            + Normalized(nodes[1..], width)
  {
    assert [] + Normalized(nodes[0].nodes, width + 2) == Normalized(nodes[0].nodes, width + 2);
  }

  lemma Associative(a: Forest, b: Forest, c: Forest)
    ensures a + b + c == a + (b + c)
  {
  }

  lemma {:induction false} InsertRebuilds(o: Forest, nodes: Forest, width: nat)
    requires o == [] || Last(o).level == width
    ensures InsertAll(o, LeavesBack(nodes, width)) == o + Normalized(nodes, width)
    decreases nodes
  {
    if nodes == [] {
      assert o + [] == o;
    } else {
      var n, leaf := nodes[0], LeafBack(nodes[0], width);
      var below, rest := LeavesBack(n.nodes, width + 2), LeavesBack(nodes[1..], width);
      var block := [leaf.(nodes := InsertAll([], below))];
      calc {
        InsertAll(o, LeavesBack(nodes, width));
        { InsertAllConcat(o, [leaf] + below, rest); }
        InsertAll(InsertAll(o, [leaf] + below), rest);
        { LeavesDeep(n.nodes, width + 2); InsertBlock(o, leaf, below); }
        InsertAll(o + block, rest);
        { assert Last(o + block).level == width; InsertRebuilds(o + block, nodes[1..], width); }
        o + block + Normalized(nodes[1..], width);
        { Associative(o, block, Normalized(nodes[1..], width)); }
        o + (block + Normalized(nodes[1..], width));
        { InsertRebuilds([], n.nodes, width + 2); NormalizedBlock(nodes, width); }
        o + Normalized(nodes, width);
      }
    }
  }

  lemma RoundTripPrintable(nodes: Forest)
    requires Printable(nodes)
    ensures Parse(Print(nodes, 0)) == Ok(Normalized(nodes, 0))
  {
    PartsOfPrinted(nodes);
    ReadSkipsFirst(Lines(nodes, 0));
    LinesRead(nodes, 0);
    InsertRebuilds([], nodes, 0);
    assert [] + Normalized(nodes, 0) == Normalized(nodes, 0);
  }

  lemma PartsOfPrinted(nodes: Forest)
    requires Printable(nodes)
    ensures PartsOf(Print(nodes, 0)) == [""] + Lines(nodes, 0)
  {
    var data := Print(nodes, 0);
    PrintIsGlue(nodes, 0);
    LinesAvoid(nodes, 0);
    GlueSplit("", Lines(nodes, 0));
    assert "" + data == data;
    assert data == "" || data[0] == '\n';
  }

  lemma ReadSkipsFirst(lines: seq<string>)
    ensures ReadParts([""] + lines) == ReadParts(lines)
  {
    SkipsEmpty("");
    assert ([""] + lines)[1..] == lines;
  }

  // ----- Only printable outlines survive -----

  lemma {:induction false} LabelsReadPrintable(pieces: seq<string>)
    requires forall i :: 0 <= i < |pieces| ==> Avoids(pieces[i], {'\n', '\r', ':', '@'})
    ensures forall i :: 0 <= i < |LabelsOf(pieces)| ==> PrintableLabel(LabelsOf(pieces)[i])
  {
    if pieces != [] {
      assert Avoids(pieces[0], {'\n', '\r', ':', '@'});
      RemoveAvoids(pieces[0], ',', {'\n', '\r', ':', '@'});
      TrimFacts(Remove(pieces[0], ','), {'\n', '\r', ':', '@', ','});
      LabelsReadPrintable(pieces[1..]);
    }
  }

  lemma NodeOfLinePrintable(o: string)
    requires Avoids(o, {'\n', '\r'}) && NodeOfLine(o).Ok?
    ensures PrintableNode(NodeOfLine(o).value) && NodeOfLine(o).value.nodes == []
  {
    var fields := Split(o, ':');
    SplitParts(o, ':', {'\n', '\r'});
    TrimFacts(fields[0], {'\n', '\r', ':'});
    TrimFacts(fields[1], {'\n', '\r', ':'});
    var txt := Trim(fields[1]);
    if '@' in txt {
      SplitParts(txt, '@', {'\n', '\r', ':'});
      SplitAlone(txt, '@');
      LabelsReadPrintable(Split(txt, '@')[1..]);
      assert LabelsOf(Split(txt, '@')[1..]) != [];
    }
  }

  lemma {:induction false} NodeOfLinesPrintable(lines: seq<string>, node: Node)
    requires forall i :: 0 <= i < |lines| ==> Avoids(lines[i], {'\n'})
    requires PrintableNode(node) && node.nodes == []
    requires NodeOfLines(lines, node).Ok?
    ensures PrintableNode(NodeOfLines(lines, node).value) && NodeOfLines(lines, node).value.nodes == []
    decreases lines
  {
    if lines != [] {
      assert Avoids(lines[0], {'\n'});
      var o := Remove(lines[0], '\r');
      RemoveAvoids(lines[0], '\r', {'\n'});
      if o == "" {
        NodeOfLinesPrintable(lines[1..], node);
      } else {
        NodeOfLinePrintable(o);
        NodeOfLinesPrintable(lines[1..], NodeOfLine(o).value);
      }
    }
  }

  lemma {:induction false} ReadPartsPrintable(parts: seq<string>)
    requires ReadParts(parts).Ok?
    ensures forall n <- ReadParts(parts).value :: PrintableNode(n) && n.nodes == []
  {
    if parts != [] {
      ReadPartsPrintable(parts[1..]);
      if !Contains("\n", parts[0]) {
        SplitParts(parts[0], '\n', {});
        NodeOfLinesPrintable(Split(parts[0], '\n'), ZERO_NODE);
      }
    }
  }

  lemma {:induction false} PrintableConcat(a: Forest, b: Forest)
    ensures Printable(a + b) <==> Printable(a) && Printable(b)
    decreases |a|
  {
    if a == [] {
      assert a + b == b;
    } else {
      assert (a + b)[0] == a[0] && (a + b)[1..] == a[1..] + b;
      PrintableConcat(a[1..], b);
    }
  }

  lemma PrintableOne(n: Node)
    ensures Printable([n]) <==> PrintableNode(n) && Printable(n.nodes)
  {
    assert [n][1..] == [];
  }

  lemma {:induction false} InsertPrintable(o: Forest, n: Node)
    requires Printable(o) && PrintableNode(n) && n.nodes == []
    ensures Printable(Insert(o, n))
    decreases o
  {
    PrintableOne(n);
    PrintableConcat(o, [n]);
    if o != [] && Last(o).level < n.level {
      assert o == Front(o) + [Last(o)];
      PrintableConcat(Front(o), [Last(o)]);
      PrintableOne(Last(o));
      InsertPrintable(Last(o).nodes, n);
      var last := Last(o).(nodes := Insert(Last(o).nodes, n));
      PrintableOne(last);
      PrintableConcat(Front(o), [last]);
    }
  }

  lemma {:induction false} InsertAllPrintable(o: Forest, lines: seq<Node>)
    requires Printable(o)
    requires forall n <- lines :: PrintableNode(n) && n.nodes == []
    ensures Printable(InsertAll(o, lines))
    decreases lines
  {
    if lines != [] {
      InsertPrintable(o, lines[0]);
      InsertAllPrintable(Insert(o, lines[0]), lines[1..]);
    }
  }

  /** Whatever text it is given, the parser only ever builds printable outlines. */
  lemma ParsePrintable(data: string)
    requires Parse(data).Ok?
    ensures Printable(Parse(data).value)
  {
    ReadPartsPrintable(PartsOf(data));
    InsertAllPrintable([], ReadParts(PartsOf(data)).value);
  }

  lemma {:induction false} NormalizedPrintable(nodes: Forest, width: nat)
    ensures Printable(Normalized(nodes, width)) <==> Printable(nodes)
    decreases nodes
  {
    if nodes != [] {
      var n := nodes[0];
      NormalizedPrintable(n.nodes, width + 2);
      NormalizedPrintable(nodes[1..], width);
      NodeBackPrintable(n, width);
    }
  }

  lemma NodeBackPrintable(n: Node, width: nat)
    ensures PrintableNode(LeafBack(n, width)) <==> PrintableNode(n)
  {
    if n.labels != [] && n.text != "" {
      assert n.text == TextBack(n)[..|n.text|];
    }
  }

  /** The round trip succeeds on the printable outlines and on no others. */
  lemma RoundTrip(nodes: Forest)
    ensures Parse(Print(nodes, 0)) == Ok(Normalized(nodes, 0)) <==> Printable(nodes)
  {
    if Printable(nodes) {
      RoundTripPrintable(nodes);
    } else if Parse(Print(nodes, 0)) == Ok(Normalized(nodes, 0)) {
      ParsePrintable(Print(nodes, 0));
      NormalizedPrintable(nodes, 0);
    }
  }
}
