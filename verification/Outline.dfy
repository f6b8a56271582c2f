/**
 Test outlines (pkg/testspecs): the tree of test nodes, its text form and the
 parser that reads the text back.

 Every loop of the source is a method here, proved equal to a recursive function;
 the theorems are about those functions.
 */
module Outline {
  import opened GoStrings

  datatype Node = Node(
    name: string,
    text: string,
    labels: seq<string>,
    nodes: seq<Node>,
    inner: bool,   // InnerParentContainer
    level: nat     // LineSpaceLevel
  )

  type Forest = seq<Node>

  /** Go's zero value of TestSpecNode. */
  const ZERO_NODE := Node("", "", [], [], false, 0)

  const BYTE_ORDER_MARK: char := '\U{FEFF}'

  /** Indexing past the end of a slice is the only way the parser can fail. */
  datatype Result<+T> = Ok(value: T) | Panic

  // ----- Printing -----

  function AtSigns(labels: seq<string>): (r: seq<string>)
    ensures |r| == |labels|
  {
    if labels == [] then [] else ["@" + labels[0]] + AtSigns(labels[1..])
  }

  function LabelList(labels: seq<string>): string {
    Join(AtSigns(labels), ", ")
  }

  /** What a printed line holds after its colon. */
  function Tail(n: Node): string {
    if LabelList(n.labels) != "" then " " + n.text + " " + LabelList(n.labels) else " " + n.text
  }

  /** One printed line, without its leading newline. */
  function LineOf(n: Node, width: nat): string {
    Spaces(width) + n.name + [':'] + Tail(n)
  }

  predicate BlankLineAfter(n: Node) {
    n.inner && n.name != "It" && n.name != "By"
  }

  function Print(nodes: Forest, width: nat): string {
    if nodes == [] then ""
    else
      "\n" + LineOf(nodes[0], width)
      + Print(nodes[0].nodes, width + 2)
      + (if BlankLineAfter(nodes[0]) then "\n" else "")
      + Print(nodes[1..], width)
  }

  /** The loop that puts an at-sign in front of each label. */
  method Annotate(labels: seq<string>) returns (annotated: seq<string>)
    ensures annotated == AtSigns(labels)
  {
    annotated := [];
    for j := 0 to |labels|
      invariant annotated + AtSigns(labels[j..]) == AtSigns(labels)
    {
      assert labels[j..][1..] == labels[j + 1..];
      annotated := annotated + ["@" + labels[j]];
    }
  }

  lemma LineParts(front: string, text: string, labels: string)
    ensures front + ": " + text == front + [':'] + (" " + text)
    ensures front + ": " + text + " " + labels == front + [':'] + (" " + text + " " + labels)
  {
  }

  /** The part of the printing loop that formats one node. */
  method FormatNode(n: Node, printWidth: nat) returns (nodeString: string)
    ensures nodeString == "\n" + LineOf(n, printWidth)
  {
    var annotated := Annotate(n.labels);
    var labels := Join(annotated, ", ");
    LineParts(Spaces(printWidth) + n.name, n.text, labels);
    if labels != "" {
      nodeString := "\n" + (Spaces(printWidth) + n.name + ": " + n.text + " " + labels);
    } else {
      nodeString := "\n" + (Spaces(printWidth) + n.name + ": " + n.text);
    }
  }

  /** `recursiveNodeStringBuilder`. */
  method PrintOutline(nodes: Forest, width: nat) returns (b: string)
    ensures b == Print(nodes, width)
    decreases nodes
  {
    b := "";
    var printWidth := width;
    for i := 0 to |nodes|
      invariant printWidth == width
      invariant b + Print(nodes[i..], width) == Print(nodes, width)
    {
      var n := nodes[i];
      assert nodes[i..][0] == n && nodes[i..][1..] == nodes[i + 1..];
      var nodeString := FormatNode(n, printWidth);
      var inside := "";
      if |n.nodes| != 0 {
        printWidth := printWidth + 2;
        inside := PrintOutline(n.nodes, printWidth);
        printWidth := printWidth - 2;
      }
      var blank := if n.inner && n.name != "It" && n.name != "By" then "\n" else "";
      Regroup(b, nodeString, inside, blank, Print(nodes[i + 1..], width));
      b := b + nodeString + inside + blank;
    }
  }

  // ----- Parsing one line -----

  /** The labels read from one piece between at-signs. */
  function LabelsOfPiece(l: string): seq<string> {
    [TrimRight(TrimLeft(Remove(l, ',')))]
    + (if l != "" && l[0] == '@' then [TrimLeft(l[1..])] else [])
  }

  function LabelsOf(pieces: seq<string>): seq<string> {
    if pieces == [] then [] else LabelsOfPiece(pieces[0]) + LabelsOf(pieces[1..])
  }

  function NodeOfLine(o: string): Result<Node>
  {
    var fields := Split(o, ':');
    if |fields| < 2 then Panic
    else
      var txt := Trim(fields[1]);
      var pieces := Split(txt, '@');
      var name := Trim(fields[0]);
      var level := |o| - |TrimLeft(o)|;
      TrimLeftFacts(o, {});
      if '@' in txt then Ok(Node(name, pieces[0], LabelsOf(pieces[1..]), [], false, level))
      else Ok(Node(name, txt, [], [], false, level))
  }

  /** The loop of `createTestSpecNodesFromString`: the last non-empty line wins. */
  function NodeOfLines(lines: seq<string>, node: Node): Result<Node> {
    if lines == [] then Ok(node)
    else
      var o := Remove(lines[0], '\r');
      if o == "" then NodeOfLines(lines[1..], node)
      else
        match NodeOfLine(o)
        case Panic => Panic
        case Ok(n) => NodeOfLines(lines[1..], n)
  }

  function NodeOfPart(part: string): Result<Node> {
    NodeOfLines(Split(part, '\n'), ZERO_NODE)
  }

  /** The label loop of `createTestSpecNodesFromString`. */
  method ReadLabels(labels: seq<string>) returns (r: seq<string>)
    ensures r == LabelsOf(labels)
  {
    r := [];
    for j := 0 to |labels|
      invariant r + LabelsOf(labels[j..]) == LabelsOf(labels)
    {
      assert labels[j..][1..] == labels[j + 1..];
      var l := labels[j];
      var noCommaL := Remove(l, ',');
      var got := [TrimRight(TrimLeft(noCommaL))];
      if l != "" && l[0] == '@' {
        got := got + [TrimLeft(l[1..])];
      }
      assert got == LabelsOfPiece(l);
      assert r + got + LabelsOf(labels[j + 1..]) == r + (got + LabelsOf(labels[j + 1..]));
      r := r + got;
    }
  }

  /** `createTestSpecNodesFromString`. */
  method CreateNode(part: string) returns (r: Result<Node>)
    ensures r == NodeOfPart(part)
  {
    var outlineSlice := Split(part, '\n');
    var node := ZERO_NODE;
    for i := 0 to |outlineSlice|
      invariant NodeOfLines(outlineSlice[i..], node) == NodeOfPart(part)
    {
      assert outlineSlice[i..][1..] == outlineSlice[i + 1..];
      var o := Remove(outlineSlice[i], '\r');
      TrimLeftFacts(o, {});
      var whiteSpaces := |o| - |TrimLeft(o)|;
      if whiteSpaces == 0 && |o| == 0 {
        continue;
      }
      var fields := Split(o, ':');
      if |fields| < 2 {
        return Panic;
      }
      node := ZERO_NODE.(name := Trim(fields[0]));
      var txt := Trim(fields[1]);
      if '@' in txt {
        var labels := ReadLabels(Split(txt, '@')[1..]);
        node := node.(labels := labels);
        txt := Split(txt, '@')[0];
      }
      node := node.(text := txt, nodes := [], level := whiteSpaces);
    }
    return Ok(node);
  }

  // ----- Building the tree -----

  function Last(nodes: Forest): Node
    requires nodes != []
  {
    nodes[|nodes| - 1]
  }

  function Front(nodes: Forest): Forest
    requires nodes != []
  {
    nodes[..|nodes| - 1]
  }

  /** `graphNodeToTestSpecOutline`: insertion along the rightmost spine. */
  function Insert(nodes: Forest, node: Node): Forest
    decreases nodes
  {
    if nodes == [] then nodes + [node]
    else if Last(nodes).level == node.level then nodes + [node]
    else if Last(nodes).level < node.level then
      Front(nodes) + [Last(nodes).(nodes := Insert(Last(nodes).nodes, node))]
    else nodes
  }

  function InsertAll(nodes: Forest, lines: seq<Node>): Forest
    decreases lines
  {
    if lines == [] then nodes else InsertAll(Insert(nodes, lines[0]), lines[1..])
  }

  /** The nodes of the parts that `FromFile` does not skip, or Panic if one cannot be read. */
  function ReadParts(parts: seq<string>): Result<seq<Node>> {
    if parts == [] then Ok([])
    else if Contains("\n", parts[0]) then ReadParts(parts[1..])
    else
      var first, rest := NodeOfPart(parts[0]), ReadParts(parts[1..]);
      if first.Panic? || rest.Panic? then Panic else Ok([first.value] + rest.value)
  }

  function PartsOf(data: string): seq<string> {
    Split(if BYTE_ORDER_MARK in data && data[0] == BYTE_ORDER_MARK then data[1..] else data, '\n')
  }

  function Parse(data: string): Result<Forest> {
    match ReadParts(PartsOf(data))
    case Panic => Panic
    case Ok(lines) => Ok(InsertAll([], lines))
  }

  /** The body of `FromFile` after the file has been read. */
  method FromText(data: string) returns (r: Result<Forest>)
    ensures r == Parse(data)
  {
    var outlineStr := data;
    if BYTE_ORDER_MARK in outlineStr {
      if outlineStr[0] == BYTE_ORDER_MARK {
        outlineStr := outlineStr[1..];
      }
    }
    var parts := Split(outlineStr, '\n');
    var outline: Forest := [];
    for i := 0 to |parts|
      invariant Parse(data) ==
        match ReadParts(parts[i..]) { case Panic => Panic case Ok(ns) => Ok(InsertAll(outline, ns)) }
    {
      assert parts[i..][1..] == parts[i + 1..];
      if !Contains("\n", parts[i]) {
        var node := CreateNode(parts[i]);
        if node.Panic? {
          return Panic;
        }
        outline := Insert(outline, node.value);
      }
    }
    return Ok(outline);
  }
}
