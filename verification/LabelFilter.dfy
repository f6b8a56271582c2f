/**
 Ginkgo label filters as the repository writes them: labels, `!`, `&&`, `||` (or a
 comma) and parentheses, with `!` binding tightest and `||` loosest.
 */
module LabelFilter {
  import opened GoStrings

  datatype Token = Open | Close | Bang | AndOp | OrOp | Name(name: string)

  datatype Expr = Lbl(name: string) | Not(e: Expr) | And(l: Expr, r: Expr) | Or(l: Expr, r: Expr)

  /** Whether a test whose labels satisfy `has` is selected. */
  predicate Selects(e: Expr, has: string -> bool) {
    match e
    case Lbl(name) => has(name)
    case Not(e) => !Selects(e, has)
    case And(l, r) => Selects(l, has) && Selects(r, has)
    case Or(l, r) => Selects(l, has) || Selects(r, has)
  }

  // ----- Tokens -----

  const SPECIAL := {'&', '|', '!', ',', '(', ')'}

  /** The length of the label at the start of `s`, spaces inside and after it included. */
  function NameLength(s: string): (n: nat)
    ensures n <= |s|
    ensures forall i :: 0 <= i < n ==> s[i] !in SPECIAL
    ensures n < |s| ==> s[n] in SPECIAL
  {
    if s == "" || s[0] in SPECIAL then 0 else 1 + NameLength(s[1..])
  }

  /** What stands at the start of a text: nothing, a lone `&` or `|`, a space, or a token and its length. */
  datatype Lexeme = End | Lone | Space | Tok(t: Token, length: nat)

  function Head(s: string): (h: Lexeme)
    ensures h.Tok? ==> 0 < h.length <= |s|
    ensures h.Space? ==> s != ""
  {
    if s == "" then End
    else if s[0] == ' ' then Space
    else if s[0] == '(' then Tok(Open, 1)
    else if s[0] == ')' then Tok(Close, 1)
    else if s[0] == '!' then Tok(Bang, 1)
    else if s[0] == ',' then Tok(OrOp, 1)
    else if s[0] == '&' then if |s| > 1 && s[1] == '&' then Tok(AndOp, 2) else Lone
    else if s[0] == '|' then if |s| > 1 && s[1] == '|' then Tok(OrOp, 2) else Lone
    else Tok(Name(TrimRight(s[..NameLength(s)])), NameLength(s))
  }

  /** The tokens of a filter; None if a `&` or `|` stands alone. */
  function Lex(s: string): Option<seq<Token>>
    decreases |s|
  {
    match Head(s)
    case End => Some([])
    case Lone => None
    case Space => Lex(s[1..])
    case Tok(t, n) => var rest := Lex(s[n..]); if rest.Some? then Some([t] + rest.value) else None
  }

  lemma {:induction false} NameLengthConcat(a: string, b: string)
    requires b == "" || b[0] in SPECIAL
    ensures NameLength(a + b) == NameLength(a)
  {
    if a == "" {
      assert a + b == b;
    } else {
      assert (a + b)[1..] == a[1..] + b;
      NameLengthConcat(a[1..], b);
    }
  }

  lemma HeadConcat(a: string, b: string)
    requires a != "" && !Head(a).Lone? && (b == "" || b[0] in SPECIAL)
    ensures Head(a + b) == Head(a)
  {
    NameLengthConcat(a, b);
    assert (a + b)[..NameLength(a)] == a[..NameLength(a)];
  }

  lemma TokenCons(t: Token, a: seq<Token>, b: seq<Token>)
    ensures [t] + (a + b) == [t] + a + b
  {
  }

  /** Text that starts with an operator or a parenthesis is lexed on its own. */
  lemma {:induction false} LexConcat(a: string, b: string)
    requires Lex(a).Some? && Lex(b).Some? && (b == "" || b[0] in SPECIAL)
    ensures Lex(a + b) == Some(Lex(a).value + Lex(b).value)
    decreases |a|
  {
    if a == "" {
      assert a + b == b && [] + Lex(b).value == Lex(b).value;
    } else {
      HeadConcat(a, b);
      match Head(a)
      case Space =>
        assert (a + b)[1..] == a[1..] + b;
        LexConcat(a[1..], b);
      case Tok(t, n) =>
        assert (a + b)[n..] == a[n..] + b;
        LexConcat(a[n..], b);
        TokenCons(t, Lex(a[n..]).value, Lex(b).value);
    }
  }

  lemma {:induction false} NameLengthSpace(a: string)
    ensures NameLength(a + " ") == if NameLength(a) == |a| then |a| + 1 else NameLength(a)
  {
    if a == "" {
      assert (a + " ")[1..] == "";
    } else {
      assert (a + " ")[1..] == a[1..] + " ";
      if a[0] !in SPECIAL { NameLengthSpace(a[1..]); }
    }
  }

  /** A space after the text is part of its last label or of nothing. */
  lemma HeadSpace(a: string)
    requires a != "" && !Head(a).Lone?
    ensures var h, h' := Head(a), Head(a + " ");
            h' == h || (h.Tok? && h.length == |a| && h' == Tok(h.t, |a| + 1))
  {
    var s, n := a + " ", NameLength(a);
    NameLengthSpace(a);
    if n == |a| {
      assert s[..n + 1] == a[..n] + " ";
      assert (a[..n] + " ")[..n] == a[..n];
    } else {
      assert s[..n] == a[..n];
    }
  }

  /** A trailing space does not matter. */
  lemma {:induction false} LexSpace(a: string)
    requires Lex(a).Some?
    ensures Lex(a + " ") == Lex(a)
    decreases |a|
  {
    var s := a + " ";
    if a == "" {
      assert s[1..] == "";
    } else {
      HeadSpace(a);
      match Head(a)
      case Space =>
        assert s[1..] == a[1..] + " ";
        LexSpace(a[1..]);
      case Tok(t, n) =>
        assert s[n..] == a[n..] + " ";
        assert s[|a| + 1..] == "" && a[|a|..] == "";
        LexSpace(a[n..]);
    }
  }

  /** Where an or-token comes from. */
  lemma {:induction false} OrTokenText(s: string)
    requires Lex(s).Some? && OrOp in Lex(s).value
    ensures Contains(s, "||") || ',' in s
    decreases |s|
  {
    match Head(s)
    case Space =>
      OrTokenText(s[1..]);
      SuffixContains(s, 1);
    case Tok(t, n) =>
      if t == OrOp {
        if s[0] == '|' { assert OccursAt(s, "||", 0); }
      } else {
        OrTokenText(s[n..]);
        SuffixContains(s, n);
      }
  }

  lemma SuffixContains(s: string, n: nat)
    requires n <= |s|
    ensures Contains(s[n..], "||") ==> Contains(s, "||")
  {
    if Contains(s[n..], "||") {
      var k :| 0 <= k <= |s[n..]| && OccursAt(s[n..], "||", k);
      assert s[n + k..n + k + 2] == s[n..][k..k + 2];
      assert OccursAt(s, "||", n + k);
    }
  }

  // ----- Expressions -----

  datatype Parsed = Failed | Parsed(e: Expr, rest: seq<Token>)

  function ParseOr(ts: seq<Token>): (p: Parsed)
    ensures p.Parsed? ==> |p.rest| < |ts|
    decreases |ts|, 2
  {
    var p := ParseAnd(ts);
    if p.Failed? || p.rest == [] || p.rest[0] != OrOp then p
    else
      var q := ParseOr(p.rest[1..]);
      if q.Failed? then Failed else Parsed(Or(p.e, q.e), q.rest)
  }

  function ParseAnd(ts: seq<Token>): (p: Parsed)
    ensures p.Parsed? ==> |p.rest| < |ts|
    decreases |ts|, 1
  {
    var p := ParseNot(ts);
    if p.Failed? || p.rest == [] || p.rest[0] != AndOp then p
    else
      var q := ParseAnd(p.rest[1..]);
      if q.Failed? then Failed else Parsed(And(p.e, q.e), q.rest)
  }

  function ParseNot(ts: seq<Token>): (p: Parsed)
    ensures p.Parsed? ==> |p.rest| < |ts|
    decreases |ts|, 0
  {
    if ts == [] then Failed
    else if ts[0] == Bang then
      var p := ParseNot(ts[1..]);
      if p.Failed? then Failed else Parsed(Not(p.e), p.rest)
    else if ts[0] == Open then
      var p := ParseOr(ts[1..]);
      if p.Failed? || p.rest == [] || p.rest[0] != Close then Failed else Parsed(p.e, p.rest[1..])
    else if ts[0].Name? then Parsed(Lbl(ts[0].name), ts[1..])
    else Failed
  }

  /** The expression a filter denotes, if it is well formed. */
  function Parse(filter: string): Option<Expr> {
    var ts := Lex(filter);
    if ts.None? then None
    else
      var p := ParseOr(ts.value);
      if p.Parsed? && p.rest == [] then Some(p.e) else None
  }

  // ----- Parsing is local -----

  lemma {:induction false} NotLocal(ts: seq<Token>, more: seq<Token>)
    requires ParseNot(ts).Parsed?
    ensures var p := ParseNot(ts); ParseNot(ts + more) == Parsed(p.e, p.rest + more)
    decreases |ts|, 0
  {
    assert (ts + more)[0] == ts[0] && (ts + more)[1..] == ts[1..] + more;
    if ts[0] == Bang {
      NotLocal(ts[1..], more);
    } else if ts[0] == Open {
      var p := ParseOr(ts[1..]);
      OrLocal(ts[1..], more);
      assert (p.rest + more)[0] == Close && (p.rest + more)[1..] == p.rest[1..] + more;
    }
  }

  lemma {:induction false} AndLocal(ts: seq<Token>, more: seq<Token>)
    requires var p := ParseAnd(ts); p.Parsed? && (p.rest == [] && more != [] ==> more[0] != AndOp)
    ensures var p := ParseAnd(ts); ParseAnd(ts + more) == Parsed(p.e, p.rest + more)
    decreases |ts|, 1
  {
    var p := ParseNot(ts);
    NotLocal(ts, more);
    if p.rest != [] && p.rest[0] == AndOp {
      assert (p.rest + more)[1..] == p.rest[1..] + more;
      AndLocal(p.rest[1..], more);
    }
  }

  lemma {:induction false} OrLocal(ts: seq<Token>, more: seq<Token>)
    requires var p := ParseOr(ts); p.Parsed? && (p.rest == [] && more != [] ==> more[0] != AndOp && more[0] != OrOp)
    ensures var p := ParseOr(ts); ParseOr(ts + more) == Parsed(p.e, p.rest + more)
    decreases |ts|, 2
  {
    var p := ParseAnd(ts);
    AndLocal(ts, more);
    if p.rest != [] && p.rest[0] == OrOp {
      assert (p.rest + more)[1..] == p.rest[1..] + more;
      OrLocal(p.rest[1..], more);
    }
  }
}
