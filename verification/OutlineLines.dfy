/**
 Outline lines as people write them: any spacing, labels separated in any way, text
 after a second colon, blank lines, a byte order mark. What is read from them is
 stated here on the characters of the line.
 */
module OutlineLines {
  import opened GoStrings
  import opened Outline

  // ----- Padding -----

  predicate Padding(s: string) {
    forall i :: 0 <= i < |s| ==> s[i] == ' ' || s[i] == ','
  }

  lemma {:induction false} TrimRightSpaces(s: string, n: nat)
    requires s == "" || s[|s| - 1] != ' '
    ensures TrimRight(s + Spaces(n)) == s
  {
    if n == 0 {
      assert s + Spaces(0) == s;
    } else {
      var t := s + Spaces(n);
      assert t[..|t| - 1] == s + Spaces(n - 1);
      TrimRightSpaces(s, n - 1);
    }
  }

  lemma TrimBoth(i: nat, s: string, j: nat)
    requires Trimmed(s)
    ensures Trim(Spaces(i) + s + Spaces(j)) == s
  {
    if s == "" {
      assert Spaces(i) + s + Spaces(j) == Spaces(i + j) + "";
      TrimLeftSpaces(i + j, "");
      TrimRightSpaces("", 0);
    } else {
      assert Spaces(i) + s + Spaces(j) == Spaces(i) + (s + Spaces(j));
      TrimLeftSpaces(i, s + Spaces(j));
      TrimRightSpaces(s, j);
    }
  }

  /** Without its commas, padding is spaces. */
  lemma {:induction false} PaddingSpaces(s: string) returns (n: nat)
    requires Padding(s)
    ensures Remove(s, ',') == Spaces(n)
  {
    if s == "" {
      n := 0;
    } else {
      n := PaddingSpaces(s[1..]);
      if s[0] == ' ' {
        assert [' '] + Spaces(n) == Spaces(n + 1);
        n := n + 1;
      } else {
        assert "" + Spaces(n) == Spaces(n);
      }
    }
  }

  // ----- Labels -----

  /** One label as written: an at-sign, the label, and commas and spaces around it. */
  datatype Mark = Mark(before: string, lbl: string, after: string)

  predicate WellMarked(m: Mark) {
    && Padding(m.before) && Padding(m.after)
    && Trimmed(m.lbl) && Avoids(m.lbl, {'\n', '\r', ':', '@', ','})
  }

  function Piece(m: Mark): string {
    m.before + m.lbl + m.after
  }

  function Written(ms: seq<Mark>): string {
    if ms == [] then "" else ['@'] + Piece(ms[0]) + Written(ms[1..])
  }

  function LabelsIn(ms: seq<Mark>): seq<string> {
    if ms == [] then [] else [ms[0].lbl] + LabelsIn(ms[1..])
  }

  function PiecesOf(ms: seq<Mark>): seq<string> {
    if ms == [] then [] else [Piece(ms[0])] + PiecesOf(ms[1..])
  }

  lemma PieceAvoids(m: Mark)
    requires WellMarked(m)
    ensures Avoids(Piece(m), {'\n', '\r', ':', '@'})
  {
  }

  lemma {:induction false} WrittenAvoids(ms: seq<Mark>)
    requires forall i :: 0 <= i < |ms| ==> WellMarked(ms[i])
    ensures Avoids(Written(ms), {'\n', '\r', ':'})
  {
    if ms != [] {
      PieceAvoids(ms[0]);
      WrittenAvoids(ms[1..]);
    }
  }

  lemma {:induction false} WrittenSplit(x: string, ms: seq<Mark>)
    requires Avoids(x, {'@'}) && forall i :: 0 <= i < |ms| ==> WellMarked(ms[i])
    ensures Split(x + Written(ms), '@') == [x] + PiecesOf(ms)
    decreases |ms|
  {
    SplitNone(x, '@');
    if ms == [] {
      assert x + "" == x;
    } else {
      var rest := Piece(ms[0]) + Written(ms[1..]);
      PieceAvoids(ms[0]);
      WrittenSplit(Piece(ms[0]), ms[1..]);
      assert x + Written(ms) == x + ['@'] + rest;
      SplitConcat(x, '@', rest);
    }
  }

  lemma PieceRead(m: Mark)
    requires WellMarked(m)
    ensures LabelsOfPiece(Piece(m)) == [m.lbl]
  {
    PieceAvoids(m);
    var i := PaddingSpaces(m.before);
    var j := PaddingSpaces(m.after);
    RemoveConcat(m.before + m.lbl, m.after, ',');
    RemoveConcat(m.before, m.lbl, ',');
    RemoveNone(m.lbl, ',');
    TrimBoth(i, m.lbl, j);
  }

  lemma {:induction false} LabelsRead(ms: seq<Mark>)
    requires forall i :: 0 <= i < |ms| ==> WellMarked(ms[i])
    ensures LabelsOf(PiecesOf(ms)) == LabelsIn(ms)
  {
    if ms != [] {
      PieceRead(ms[0]);
      assert PiecesOf(ms)[1..] == PiecesOf(ms[1..]);
      LabelsRead(ms[1..]);
    }
  }

  // ----- Lines -----

  /** What stands between the first colon of a line and the second. */
  datatype Content = Content(text: string, marks: seq<Mark>)

  predicate WellWritten(c: Content) {
    && NoLeadingSpace(c.text) && Avoids(c.text, {'\n', '\r', ':', '@'})
    && (forall i :: 0 <= i < |c.marks| ==> WellMarked(c.marks[i]))
    && var body := Body(c); body == "" || body[|body| - 1] != ' '
  }

  function Body(c: Content): string {
    c.text + Written(c.marks)
  }

  lemma BodyShape(c: Content)
    requires WellWritten(c)
    ensures Trimmed(Body(c)) && Avoids(Body(c), {'\n', '\r', ':'})
    ensures '@' in Body(c) <==> c.marks != []
    ensures Split(Body(c), '@') == [c.text] + PiecesOf(c.marks)
  {
    WrittenAvoids(c.marks);
    WrittenSplit(c.text, c.marks);
    if c.marks != [] { assert Body(c)[|c.text|] == '@'; } else { assert Body(c) == c.text; }
  }

  /** The fields of a line around its first colon; a second colon and all that follows do not matter. */
  lemma FieldsOf(front: string, mid: string, more: string)
    requires Avoids(front, {':'}) && Avoids(mid, {':'}) && (more == "" || more[0] == ':')
    ensures var fields := Split(front + [':'] + (mid + more), ':');
            |fields| >= 2 && fields[0] == front && fields[1] == mid
  {
    SplitConcat(front, ':', mid + more);
    SplitNone(front, ':');
    SplitNone(mid, ':');
    if more == "" {
      assert mid + more == mid;
    } else {
      assert mid + more == mid + [':'] + more[1..];
      SplitConcat(mid, ':', more[1..]);
    }
  }

  /** What is made of the content: its text and its labels. */
  lemma ContentRead(c: Content)
    requires WellWritten(c)
    ensures var body := Body(c);
            if '@' in body then Split(body, '@')[0] == c.text && LabelsOf(Split(body, '@')[1..]) == LabelsIn(c.marks)
            else body == c.text && LabelsIn(c.marks) == []
  {
    BodyShape(c);
    if c.marks != [] {
      LabelsRead(c.marks);
      assert ([c.text] + PiecesOf(c.marks))[1..] == PiecesOf(c.marks);
    } else {
      assert Body(c) == c.text;
    }
  }

  lemma NodeRead(o: string, front: string, mid: string, name: string, c: Content, level: nat)
    requires WellWritten(c) && Trim(front) == name && Trim(mid) == Body(c) && |TrimLeft(o)| + level == |o|
    requires var fields := Split(o, ':'); |fields| >= 2 && fields[0] == front && fields[1] == mid
    ensures NodeOfLine(o) == Ok(Node(name, c.text, LabelsIn(c.marks), [], false, level))
  {
    ContentRead(c);
  }

  lemma PartIsLine(o: string)
    requires o != "" && Avoids(o, {'\n', '\r'})
    ensures NodeOfPart(o) == NodeOfLine(o)
  {
    SplitNone(o, '\n');
    RemoveNone(o, '\r');
    assert [o][1..] == [];
    assert NodeOfLine(o).Ok? ==> NodeOfLines([], NodeOfLine(o).value) == NodeOfLine(o);
  }

  /** A line: indentation, a name, a colon, the content, and perhaps another colon with more after it. */
  function Line(indent: nat, name: string, gap: nat, lead: nat, c: Content, tail: nat, more: string): string {
    Spaces(indent) + name + Spaces(gap) + [':'] + (Spaces(lead) + Body(c) + Spaces(tail) + more)
  }

  lemma IndentOf(indent: nat, rest: string)
    requires NoLeadingSpace(rest)
    ensures |TrimLeft(Spaces(indent) + rest)| + indent == |Spaces(indent) + rest|
  {
    TrimLeftSpaces(indent, rest);
  }

  lemma LineRegroup(indent: string, name: string, gap: string, more: string)
    ensures indent + name + gap + [':'] + more == indent + (name + gap + [':'] + more)
  {
  }

  /** Where a line's indentation ends. */
  lemma LineIndent(indent: nat, name: string, gap: nat, more: string)
    requires NoLeadingSpace(name) && (name == "" ==> gap == 0)
    ensures var o := Spaces(indent) + name + Spaces(gap) + [':'] + more;
            |TrimLeft(o)| + indent == |o|
  {
    var rest := name + Spaces(gap) + [':'] + more;
    LineRegroup(Spaces(indent), name, Spaces(gap), more);
    assert rest[0] == if name == "" then ':' else name[0];
    IndentOf(indent, rest);
  }

  lemma FrontAvoids(indent: nat, name: string, gap: nat, bad: set<char>)
    requires Avoids(name, bad) && ' ' !in bad
    ensures Avoids(Spaces(indent) + name + Spaces(gap), bad)
  {
  }

  lemma LineAvoids(front: string, mid: string, more: string)
    requires Avoids(front, {'\n', '\r'}) && Avoids(mid, {'\n', '\r'}) && Avoids(more, {'\n', '\r'})
    ensures var o := front + [':'] + (mid + more); o != "" && Avoids(o, {'\n', '\r'})
  {
  }

  /**
   What is read from any line with a colon: the name and the text without the spaces
   around them, the labels without the commas and spaces around them, and as level
   the number of leading spaces. Nothing after a second colon is read.
   */
  lemma LineReads(indent: nat, name: string, gap: nat, lead: nat, c: Content, tail: nat, more: string)
    requires Trimmed(name) && Avoids(name, {'\n', '\r', ':'}) && (name == "" ==> gap == 0)
    requires WellWritten(c) && (more == "" || more[0] == ':') && Avoids(more, {'\n', '\r'})
    ensures NodeOfPart(Line(indent, name, gap, lead, c, tail, more))
         == Ok(Node(name, c.text, LabelsIn(c.marks), [], false, indent))
  {
    var o := Line(indent, name, gap, lead, c, tail, more);
    var front, mid := Spaces(indent) + name + Spaces(gap), Spaces(lead) + Body(c) + Spaces(tail);
    BodyShape(c);
    FrontAvoids(indent, name, gap, {'\n', '\r', ':'});
    FrontAvoids(lead, Body(c), tail, {'\n', '\r', ':'});
    FieldsOf(front, mid, more);
    TrimBoth(indent, name, gap);
    TrimBoth(lead, Body(c), tail);
    LineIndent(indent, name, gap, mid + more);
    NodeRead(o, front, mid, name, c, indent);
    LineAvoids(front, mid, more);
    PartIsLine(o);
  }

  predicate IsLabel(l: string) {
    l != "" && Trimmed(l) && Avoids(l, {'\n', '\r', ':', '@', ','})
  }

  /** Two labels joined in any way. */
  lemma TwoLabels(text: string, a: string, sep: string, b: string)
    requires IsLabel(a) && IsLabel(b) && Padding(sep) && NoLeadingSpace(text) && Avoids(text, {'\n', '\r', ':', '@'})
    ensures NodeOfPart("It" + [':'] + (" " + (text + ("@" + a + (sep + "@") + b)))) == Ok(Node("It", text, [a, b], [], false, 0))
  {
    var c := Content(text, [Mark("", a, sep), Mark("", b, "")]);
    TwoMarks(a, sep, b);
    TwoWritten(text, a, sep, b);
    LineReads(0, "It", 0, 1, c, 0, "");
    PlainLine("It", c);
  }

  lemma TwoWritten(text: string, a: string, sep: string, b: string)
    requires IsLabel(a) && IsLabel(b) && Padding(sep) && NoLeadingSpace(text) && Avoids(text, {'\n', '\r', ':', '@'})
    ensures WellWritten(Content(text, [Mark("", a, sep), Mark("", b, "")]))
  {
    var c := Content(text, [Mark("", a, sep), Mark("", b, "")]);
    TwoMarks(a, sep, b);
    assert Body(c)[|Body(c)| - 1] == b[|b| - 1];
  }

  lemma PlainLine(name: string, c: Content)
    ensures Line(0, name, 0, 1, c, 0, "") == name + [':'] + (" " + Body(c))
  {
    assert Spaces(0) + name + Spaces(0) == name && Spaces(1) == " ";
    assert " " + Body(c) + Spaces(0) + "" == " " + Body(c);
  }

  /** A comma alone, or spaces alone, between two labels. */
  lemma HandWrittenLabels(text: string, a: string, b: string)
    requires IsLabel(a) && IsLabel(b) && NoLeadingSpace(text) && Avoids(text, {'\n', '\r', ':', '@'})
    ensures NodeOfPart("It" + [':'] + (" " + (text + ("@" + a + ",@" + b)))) == Ok(Node("It", text, [a, b], [], false, 0))
    ensures NodeOfPart("It" + [':'] + (" " + (text + ("@" + a + "  @" + b)))) == Ok(Node("It", text, [a, b], [], false, 0))
  {
    TwoLabels(text, a, ",", b);
    TwoLabels(text, a, "  ", b);
    assert "," + "@" == ",@" && "  " + "@" == "  @";
  }

  lemma TwoMarks(a: string, sep: string, b: string)
    ensures var ms := [Mark("", a, sep), Mark("", b, "")];
            Written(ms) == "@" + a + (sep + "@") + b && LabelsIn(ms) == [a, b]
  {
    var ms := [Mark("", a, sep), Mark("", b, "")];
    assert ms[1..] == [Mark("", b, "")] && ms[1..][1..] == [];
    assert Written(ms[1..]) == "@" + b && LabelsIn(ms[1..]) == [b];
    assert Piece(ms[0]) == a + sep;
  }

  // ----- Blank lines and the byte order mark -----

  /** A line that holds a carriage return and nothing else is read as an empty node. */
  lemma CarriageReturnLine()
    ensures NodeOfPart("\r") == Ok(ZERO_NODE) && !Contains("\n", "\r")
  {
    SplitNone("\r", '\n');
    assert "\r"[1..] == "";
    assert Remove("\r", '\r') == "";
    assert ["\r"][1..] == [];
    MissingChar("\n", "\r", 0);
  }

  lemma {:induction false} ReadPartsConcat(a: seq<string>, b: seq<string>)
    ensures ReadParts(a + b)
         == if ReadParts(a).Panic? || ReadParts(b).Panic? then Panic else Ok(ReadParts(a).value + ReadParts(b).value)
  {
    if a == [] {
      assert a + b == b;
      assert ReadParts(b).Ok? ==> [] + ReadParts(b).value == ReadParts(b).value;
    } else {
      assert (a + b)[0] == a[0] && (a + b)[1..] == a[1..] + b;
      ReadPartsConcat(a[1..], b);
      var first := NodeOfPart(a[0]);
      if first.Ok? && ReadParts(a[1..]).Ok? && ReadParts(b).Ok? {
        assert [first.value] + (ReadParts(a[1..]).value + ReadParts(b).value)
            == [first.value] + ReadParts(a[1..]).value + ReadParts(b).value;
      }
    }
  }

  lemma EmptyPart()
    ensures ReadParts([""]) == Ok([])
  {
    assert OccursAt("\n", "", 0);
    assert [""][1..] == [];
  }

  /** An empty line anywhere changes nothing. */
  lemma BlankLineIgnored(a: string, b: string)
    requires a != "" && a[0] != BYTE_ORDER_MARK
    ensures Parse(a + ['\n'] + (['\n'] + b)) == Parse(a + ['\n'] + b)
  {
    SplitConcat(a, '\n', ['\n'] + b);
    SplitConcat(a, '\n', b);
    SplitConcat("", '\n', b);
    assert "" + ['\n'] + b == ['\n'] + b;
    EmptyPart();
    ReadPartsConcat([""], Split(b, '\n'));
    ReadPartsConcat(Split(a, '\n'), [""] + Split(b, '\n'));
    ReadPartsConcat(Split(a, '\n'), Split(b, '\n'));
    assert Split("", '\n') == [""];
    assert ReadParts(Split(b, '\n')).Ok? ==> [] + ReadParts(Split(b, '\n')).value == ReadParts(Split(b, '\n')).value;
  }

  /** A byte order mark in front of the text is not part of its first line. */
  lemma ByteOrderMarkIgnored(data: string)
    requires data == "" || data[0] != BYTE_ORDER_MARK
    ensures Parse([BYTE_ORDER_MARK] + data) == Parse(data)
  {
    assert ([BYTE_ORDER_MARK] + data)[1..] == data;
  }

  // ----- Blank lines in the printed form -----

  lemma {:induction false} PrintConcat(a: Forest, b: Forest, width: nat)
    ensures Print(a + b, width) == Print(a, width) + Print(b, width)
    decreases |a|
  {
    if a == [] {
      assert a + b == b;
    } else {
      assert (a + b)[0] == a[0] && (a + b)[1..] == a[1..] + b;
      PrintConcat(a[1..], b, width);
    }
  }

  /**
   Wherever a node stands, its line is followed by its children and then, if it is
   a marked container and not an `It` or a `By`, by an empty line.
   */
  lemma BlankLinesPrinted(a: Forest, n: Node, b: Forest, width: nat)
    ensures Print(a + [n] + b, width)
         == Print(a, width)
            + ("\n" + LineOf(n, width) + Print(n.nodes, width + 2)
               + (if n.inner && n.name !in {"It", "By"} then "\n" else ""))
            + Print(b, width)
  {
    PrintConcat(a + [n], b, width);
    PrintConcat(a, [n], width);
    PrintOne(n, width);
  }

  lemma PrintOne(n: Node, width: nat)
    ensures Print([n], width)
         == "\n" + LineOf(n, width) + Print(n.nodes, width + 2) + (if BlankLineAfter(n) then "\n" else "")
  {
    assert [n][1..] == [];
  }
}
