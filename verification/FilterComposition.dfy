/**
 Combining label filters as text (magefiles/magefile.go, repos/build_service.go and
 repos/release_service_catalog.go), and what the combined filter means.
 */
module FilterComposition {
  import opened GoStrings
  import opened LabelFilter

  // ----- The combinators -----

  predicate IsSpace(c: char) {
    c == ' ' || c == '\t' || c == '\n' || c == '\r' || c == '\U{b}' || c == '\U{c}'
  }

  /** `strings.TrimSpace`, for ASCII white space. */
  function TrimSpace(s: string): string {
    if s != "" && IsSpace(s[0]) then TrimSpace(s[1..])
    else if s != "" && IsSpace(s[|s| - 1]) then TrimSpace(s[..|s| - 1])
    else s
  }

  predicate AllSpace(s: string) {
    forall i :: 0 <= i < |s| ==> IsSpace(s[i])
  }

  /** `env` without the white space around it. */
  ghost predicate IsTrimmed(env: string, r: string) {
    && (r != "" ==> !IsSpace(r[0]) && !IsSpace(r[|r| - 1]))
    && exists a, b :: AllSpace(a) && AllSpace(b) && env == a + r + b
  }

  /** What `TrimSpace` computes, and that nothing else does. */
  lemma {:induction false} TrimSpaceMeans(env: string)
    ensures IsTrimmed(env, TrimSpace(env))
    decreases |env|
  {
    if env != "" && IsSpace(env[0]) {
      TrimSpaceMeans(env[1..]);
      var r := TrimSpace(env[1..]);
      var a, b :| AllSpace(a) && AllSpace(b) && env[1..] == a + r + b;
      assert env == [env[0]] + a + r + b;
      assert AllSpace([env[0]] + a);
    } else if env != "" && IsSpace(env[|env| - 1]) {
      var n := |env| - 1;
      TrimSpaceMeans(env[..n]);
      var r := TrimSpace(env[..n]);
      var a, b :| AllSpace(a) && AllSpace(b) && env[..n] == a + r + b;
      assert env == a + r + (b + [env[n]]);
      assert AllSpace(b + [env[n]]);
    } else {
      assert AllSpace("") && env == "" + env + "";
    }
  }

  lemma TrimmedUnique(env: string, r: string, q: string)
    requires IsTrimmed(env, r) && IsTrimmed(env, q)
    ensures r == q
  {
    var a, b :| AllSpace(a) && AllSpace(b) && env == a + r + b;
    var c, d :| AllSpace(c) && AllSpace(d) && env == c + q + d;
    if r != "" { FirstNotSpace(env, a, r, b); }
    if q != "" { FirstNotSpace(env, c, q, d); }
    if r != "" && q != "" {
      assert r == env[|a|..|a| + |r|] == q;
    }
  }

  /** Where the text inside white space starts and ends. */
  lemma FirstNotSpace(env: string, a: string, r: string, b: string)
    requires AllSpace(a) && AllSpace(b) && env == a + r + b && r != "" && !IsSpace(r[0]) && !IsSpace(r[|r| - 1])
    ensures !AllSpace(env)
    ensures |a| < |env| && !IsSpace(env[|a|]) && forall i :: 0 <= i < |a| ==> IsSpace(env[i])
    ensures !IsSpace(env[|a| + |r| - 1]) && forall i :: |a| + |r| <= i < |env| ==> IsSpace(env[i])
  {
    assert env[|a|] == r[0] && env[|a| + |r| - 1] == r[|r| - 1];
    assert forall i :: 0 <= i < |a| ==> env[i] == a[i];
    assert forall i :: |a| + |r| <= i < |env| ==> env[i] == b[i - |a| - |r|];
  }

  /** An extra filter is put in parentheses if it has an `||`. */
  function Protected(extra: string): string {
    if Contains(extra, "||") then "(" + extra + ")" else extra
  }

  function RunTestsFilter(labelsToRun: string, env: string): string {
    var extra := TrimSpace(env);
    if extra == "" then labelsToRun else "(" + (labelsToRun + (") && " + Protected(extra)))
  }

  /** The filter that `runTestsWithTimeout` passes on; `env` is E2E_EXTRA_LABEL_FILTER. */
  method ComposeRunFilter(labels: string, env: string) returns (labelsToRun: string)
    ensures labelsToRun == RunTestsFilter(labels, env)
  {
    labelsToRun := labels;
    var extraFilter := TrimSpace(env);
    if extraFilter != "" {
      if Contains(extraFilter, "||") {
        labelsToRun := "(" + labelsToRun + ") && (" + extraFilter + ")";
      } else {
        labelsToRun := "(" + labelsToRun + ") && " + extraFilter;
      }
      assert labelsToRun == "(" + (labels + (") && " + Protected(extraFilter)));
    }
  }

  /** `BuildLabelFilter`. */
  function BuildLabelFilter(baseLabel: string, env: string): string {
    var extra := TrimSpace(env);
    if extra == "" then baseLabel else baseLabel + (" && " + Protected(extra))
  }

  const PAIRED_EXCLUDED := [
    "fbc-release", "multiarch-advisories", "rh-advisories", "release-to-github",
    "rh-push-to-registry-redhat-io", "rhtap-service-push"]

  /** The labels negated and joined by `&&`. */
  function Exclusions(names: seq<string>): string
    requires names != []
  {
    "!" + if |names| == 1 then names[0] else names[0] + (" && " + Exclusions(names[1..]))
  }

  /** What `ExecuteReleaseCatalogPairedAction` makes of the filter. */
  function PairedFilter(labelFilter: string): string {
    labelFilter + (" && " + Exclusions(PAIRED_EXCLUDED))
  }

  // ----- Alternatives -----

  /** The top-level alternatives of an expression. */
  function Alternatives(ts: seq<Token>): (r: seq<Expr>)
    requires ParseOr(ts).Parsed?
    ensures |r| >= 1
    decreases |ts|
  {
    var p := ParseAnd(ts);
    if p.rest == [] || p.rest[0] != OrOp then [p.e] else [p.e] + Alternatives(p.rest[1..])
  }

  predicate SomeSelects(es: seq<Expr>, has: string -> bool) {
    exists i :: 0 <= i < |es| && Selects(es[i], has)
  }

  lemma SomeSelectsConcat(a: seq<Expr>, b: seq<Expr>, has: string -> bool)
    ensures SomeSelects(a + b, has) <==> SomeSelects(a, has) || SomeSelects(b, has)
  {
    var c := a + b;
    assert forall i :: 0 <= i < |a| ==> c[i] == a[i];
    assert forall i :: 0 <= i < |b| ==> c[|a| + i] == b[i];
    assert forall i :: |a| <= i < |c| ==> c[i] == b[i - |a|];
  }

  lemma SomeSelectsOne(e: Expr, has: string -> bool)
    ensures SomeSelects([e], has) <==> Selects(e, has)
  {
    assert [e][0] == e;
  }

  lemma {:induction false} SelectsByAlternatives(ts: seq<Token>, has: string -> bool)
    requires ParseOr(ts).Parsed?
    ensures Selects(ParseOr(ts).e, has) <==> SomeSelects(Alternatives(ts), has)
    decreases |ts|
  {
    var p := ParseAnd(ts);
    SomeSelectsOne(p.e, has);
    if p.rest != [] && p.rest[0] == OrOp {
      SelectsByAlternatives(p.rest[1..], has);
      SomeSelectsConcat([p.e], Alternatives(p.rest[1..]), has);
    }
  }

  /** Tokens that a parse leaves over were there before. */
  lemma {:induction false} RestNot(ts: seq<Token>, t: Token)
    requires t !in ts
    ensures ParseNot(ts).Parsed? ==> t !in ParseNot(ts).rest
    decreases |ts|, 0
  {
    if ts != [] {
      RestNot(ts[1..], t);
      RestOr(ts[1..], t);
    }
  }

  lemma {:induction false} RestAnd(ts: seq<Token>, t: Token)
    requires t !in ts
    ensures ParseAnd(ts).Parsed? ==> t !in ParseAnd(ts).rest
    decreases |ts|, 1
  {
    RestNot(ts, t);
    var p := ParseNot(ts);
    if p.Parsed? && p.rest != [] { RestAnd(p.rest[1..], t); }
  }

  lemma {:induction false} RestOr(ts: seq<Token>, t: Token)
    requires t !in ts
    ensures ParseOr(ts).Parsed? ==> t !in ParseOr(ts).rest
    decreases |ts|, 2
  {
    RestAnd(ts, t);
    var p := ParseAnd(ts);
    if p.Parsed? && p.rest != [] { RestOr(p.rest[1..], t); }
  }

  /** Without an or-token there is one alternative. */
  lemma OneAlternative(ts: seq<Token>)
    requires ParseOr(ts).Parsed? && OrOp !in ts
    ensures ParseAnd(ts) == ParseOr(ts) && Alternatives(ts) == [ParseOr(ts).e]
  {
    RestAnd(ts, OrOp);
  }

  // ----- Parentheses and conjunction on tokens -----

  lemma Wrapped(b: seq<Token>, more: seq<Token>)
    requires ParseOr(b).Parsed? && ParseOr(b).rest == []
    ensures ParseNot([Open] + b + [Close] + more) == Parsed(ParseOr(b).e, more)
  {
    var ts := [Open] + b + [Close] + more;
    assert ts[1..] == b + ([Close] + more);
    OrLocal(b, [Close] + more);
    assert [] + ([Close] + more) == [Close] + more;
    assert ([Close] + more)[1..] == more;
  }

  lemma WrappedAlone(e: seq<Token>)
    requires ParseOr(e).Parsed? && ParseOr(e).rest == []
    ensures var w := [Open] + e + [Close];
            ParseAnd(w) == Parsed(ParseOr(e).e, []) && ParseOr(w) == ParseAnd(w) && Alternatives(w) == [ParseOr(e).e]
  {
    var w := [Open] + e + [Close];
    Wrapped(e, []);
    assert w + [] == w;
  }

  /** `(b) && e`: the conjunction takes in the first alternative of `e` only. */
  lemma WrappedAnd(b: seq<Token>, e: seq<Token>)
    requires ParseOr(b).Parsed? && ParseOr(b).rest == []
    requires ParseOr(e).Parsed? && ParseOr(e).rest == []
    ensures var ts := [Open] + b + [Close] + ([AndOp] + e);
            && ParseOr(ts).Parsed? && ParseOr(ts).rest == []
            && Alternatives(ts) == [And(ParseOr(b).e, Alternatives(e)[0])] + Alternatives(e)[1..]
            && (Alternatives(e) == [ParseOr(e).e] ==> ParseOr(ts).e == And(ParseOr(b).e, ParseOr(e).e))
  {
    var ts := [Open] + b + [Close] + ([AndOp] + e);
    Wrapped(b, [AndOp] + e);
    assert ([AndOp] + e)[1..] == e;
    var q := ParseAnd(e);
    assert ParseAnd(ts) == Parsed(And(ParseOr(b).e, q.e), q.rest);
  }

  /** `a && e` for a conjunction `a`: it takes in the first alternative of `e`. */
  lemma {:induction false} AndAppended(a: seq<Token>, e: seq<Token>, has: string -> bool)
    requires ParseAnd(a).Parsed? && ParseAnd(a).rest == [] && ParseAnd(e).Parsed?
    ensures var r, q := ParseAnd(a + ([AndOp] + e)), ParseAnd(e);
            r.Parsed? && r.rest == q.rest && (Selects(r.e, has) <==> Selects(ParseAnd(a).e, has) && Selects(q.e, has))
    decreases |a|
  {
    var p := ParseNot(a);
    var more := [AndOp] + e;
    NotLocal(a, more);
    if p.rest == [] {
      assert p.rest + more == more && more[1..] == e;
    } else {
      assert (p.rest + more)[0] == p.rest[0] && (p.rest + more)[1..] == p.rest[1..] + more;
      AndAppended(p.rest[1..], e, has);
    }
  }

  /** What `b && e` selects, in terms of the alternatives of both sides: the conjunction joins two of them only. */
  predicate JoinedSelects(b: seq<Expr>, e: seq<Expr>, has: string -> bool)
    requires b != [] && e != []
  {
    || SomeSelects(b[..|b| - 1], has)
    || (Selects(b[|b| - 1], has) && Selects(e[0], has))
    || SomeSelects(e[1..], has)
  }

  lemma OneAppended(b: seq<Token>, e: seq<Token>, has: string -> bool)
    requires ParseAnd(b).Parsed? && ParseAnd(b).rest == []
    requires ParseOr(e).Parsed? && ParseOr(e).rest == []
    ensures var r := ParseOr(b + ([AndOp] + e));
            r.Parsed? && r.rest == [] && (Selects(r.e, has) <==> JoinedSelects([ParseAnd(b).e], Alternatives(e), has))
  {
    AndAppended(b, e, has);
    var x, q := ParseAnd(b).e, ParseAnd(e);
    assert [x][..0] == [];
    if q.rest == [] {
      assert [q.e][1..] == [];
    } else {
      SelectsByAlternatives(q.rest[1..], has);
      assert ([q.e] + Alternatives(q.rest[1..]))[1..] == Alternatives(q.rest[1..]);
    }
  }

  lemma JoinedCons(x: Expr, b: seq<Expr>, e: seq<Expr>, has: string -> bool)
    requires b != [] && e != []
    ensures JoinedSelects([x] + b, e, has) <==> Selects(x, has) || JoinedSelects(b, e, has)
  {
    var alts := [x] + b;
    assert alts[..|alts| - 1] == [x] + b[..|b| - 1];
    SomeSelectsConcat([x], b[..|b| - 1], has);
    SomeSelectsOne(x, has);
  }

  /** `b && e` without parentheses: the last alternative of `b` is joined with the first of `e`. */
  lemma {:induction false} OrAppended(b: seq<Token>, e: seq<Token>, has: string -> bool)
    requires ParseOr(b).Parsed? && ParseOr(b).rest == []
    requires ParseOr(e).Parsed? && ParseOr(e).rest == []
    ensures var r := ParseOr(b + ([AndOp] + e));
            r.Parsed? && r.rest == [] && (Selects(r.e, has) <==> JoinedSelects(Alternatives(b), Alternatives(e), has))
    decreases |b|
  {
    var p := ParseAnd(b);
    var more := [AndOp] + e;
    if p.rest == [] {
      OneAppended(b, e, has);
    } else {
      AndLocal(b, more);
      assert (p.rest + more)[0] == OrOp && (p.rest + more)[1..] == p.rest[1..] + more;
      OrAppended(p.rest[1..], e, has);
      JoinedCons(p.e, Alternatives(p.rest[1..]), Alternatives(e), has);
    }
  }

  // ----- From text to tokens -----

  lemma LexAnd(tail: string)
    requires Lex(tail).Some?
    ensures Lex("&& " + tail) == Some([AndOp] + Lex(tail).value)
  {
    var s := "&& " + tail;
    assert s[2..][1..] == tail;
    LexBlank(s[2..]);
    LexAmpersands(s);
  }

  lemma LexGlued(base: string, y: string, s: string)
    requires Lex(base).Some? && Lex(y).Some? && y != "" && y[0] == '&' && s == base + " " + y
    ensures Lex(s) == Some(Lex(base).value + Lex(y).value)
  {
    LexSpace(base);
    LexConcat(base + " ", y);
  }

  lemma AndRegroup(base: string, tail: string)
    ensures base + (" && " + tail) == base + " " + ("&& " + tail)
  {
  }

  /** Appending ` && tail` appends its tokens. */
  lemma LexAppended(base: string, tail: string)
    requires Lex(base).Some? && Lex(tail).Some?
    ensures Lex(base + (" && " + tail)) == Some(Lex(base).value + ([AndOp] + Lex(tail).value))
  {
    var y, s := "&& " + tail, base + (" && " + tail);
    assert Lex(y) == Some([AndOp] + Lex(tail).value) by { LexAnd(tail); }
    assert s == base + " " + y by { AndRegroup(base, tail); }
    LexGlued(base, y, s);
  }

  lemma LexWrapped(s: string, tail: string)
    requires Lex(s).Some? && Lex(")" + tail).Some?
    ensures Lex("(" + (s + (")" + tail))) == Some([Open] + (Lex(s).value + Lex(")" + tail).value))
  {
    LexConcat(s, ")" + tail);
    var t := "(" + (s + (")" + tail));
    assert t[1..] == s + (")" + tail);
  }

  lemma LexClose(tail: string)
    requires Lex(tail).Some?
    ensures Lex(")" + tail) == Some([Close] + Lex(tail).value)
  {
    assert (")" + tail)[1..] == tail;
  }

  /** The tokens of an extra filter, and the parentheses put around it. */
  lemma LexProtected(extra: string)
    requires Lex(extra).Some?
    ensures Lex(Protected(extra))
         == Some(if Contains(extra, "||") then [Open] + Lex(extra).value + [Close] else Lex(extra).value)
  {
    if Contains(extra, "||") {
      LexClose("");
      assert ")" + "" == ")";
      LexWrapped(extra, "");
      assert "(" + (extra + ")") == "(" + extra + ")";
      assert [Open] + (Lex(extra).value + ([Close] + [])) == [Open] + Lex(extra).value + [Close];
    }
  }

  /** The tokens between the base and the extra filter. */
  lemma LexCloseAnd(tail: string)
    requires Lex(tail).Some?
    ensures Lex(") && " + tail) == Some([Close] + ([AndOp] + Lex(tail).value))
  {
    var s := ") && " + tail;
    assert s[1..][1..] == s[2..] && s[2..][2..] == s[4..] && s[4..][1..] == tail;
    LexBlank(s[4..]);
    LexAmpersands(s[2..]);
    LexBlank(s[1..]);
    LexParen(s);
  }

  lemma LexBlank(s: string)
    requires s != "" && s[0] == ' '
    ensures Lex(s) == Lex(s[1..])
  {
  }

  lemma LexAmpersands(s: string)
    requires |s| >= 2 && s[0] == s[1] == '&' && Lex(s[2..]).Some?
    ensures Lex(s) == Some([AndOp] + Lex(s[2..]).value)
  {
  }

  lemma LexParen(s: string)
    requires s != "" && s[0] == ')' && Lex(s[1..]).Some?
    ensures Lex(s) == Some([Close] + Lex(s[1..]).value)
  {
  }

  lemma LexOpened(base: string, y: string, s: string)
    requires Lex(base).Some? && Lex(y).Some? && y != "" && y[0] == ')' && s == "(" + (base + y)
    ensures Lex(s) == Some([Open] + (Lex(base).value + Lex(y).value))
  {
    LexConcat(base, y);
    assert s[1..] == base + y;
  }

  lemma TokenRegroup(b: seq<Token>, t: seq<Token>)
    ensures [Open] + (b + ([Close] + t)) == [Open] + b + [Close] + t
  {
  }

  lemma LexRunTests(base: string, tail: string)
    requires Lex(base).Some? && Lex(tail).Some?
    ensures Lex("(" + (base + (") && " + tail)))
         == Some([Open] + Lex(base).value + [Close] + ([AndOp] + Lex(tail).value))
  {
    var y := ") && " + tail;
    LexCloseAnd(tail);
    LexOpened(base, y, "(" + (base + y));
    TokenRegroup(Lex(base).value, [AndOp] + Lex(tail).value);
  }

  // ----- What the combined filters mean -----

  /** The alternatives of an extra filter as they end up in a combined filter. */
  function ExtraAlternatives(extra: string): (r: seq<Expr>)
    requires Parse(extra).Some?
    ensures |r| >= 1
  {
    if Contains(extra, "||") then [Parse(extra).value] else Alternatives(Lex(extra).value)
  }

  lemma ProtectedParses(extra: string)
    requires Parse(extra).Some?
    ensures Lex(Protected(extra)).Some?
    ensures var p := ParseOr(Lex(Protected(extra)).value);
            && p.Parsed? && p.rest == [] && p.e == Parse(extra).value
            && Alternatives(Lex(Protected(extra)).value) == ExtraAlternatives(extra)
  {
    LexProtected(extra);
    if Contains(extra, "||") { WrappedAlone(Lex(extra).value); }
  }

  /** An extra filter without commas is one alternative. */
  lemma NoCommaOneAlternative(extra: string)
    requires Parse(extra).Some? && (Contains(extra, "||") || ',' !in extra)
    ensures ExtraAlternatives(extra) == [Parse(extra).value]
    ensures Lex(Protected(extra)).Some?
    ensures ParseAnd(Lex(Protected(extra)).value) == Parsed(Parse(extra).value, [])
  {
    LexProtected(extra);
    if Contains(extra, "||") {
      WrappedAlone(Lex(extra).value);
    } else {
      if OrOp in Lex(extra).value { OrTokenText(extra); }
      OneAlternative(Lex(extra).value);
    }
  }

  lemma RunTestsParses(base: string, env: string)
    requires Parse(base).Some? && Parse(TrimSpace(env)).Some?
    ensures var extra := TrimSpace(env);
            var b, alts := Parse(base).value, ExtraAlternatives(extra);
            var ts := Lex(RunTestsFilter(base, env));
            && ts.Some? && ParseOr(ts.value).Parsed? && ParseOr(ts.value).rest == []
            && Alternatives(ts.value) == [And(b, alts[0])] + alts[1..]
            && (alts == [Parse(extra).value] ==> ParseOr(ts.value).e == And(b, Parse(extra).value))
  {
    var extra := TrimSpace(env);
    assert Lex("") == Some([]) && ParseOr([]).Failed?;
    ProtectedParses(extra);
    LexRunTests(base, Protected(extra));
    WrappedAnd(Lex(base).value, Lex(Protected(extra)).value);
  }

  /**
   The filter `runTestsWithTimeout` builds is the conjunction of its two filters,
   for every pair of well-formed filters, as long as an extra filter that uses a
   comma also has an `||`.
   */
  lemma RunTestsIsConjunction(base: string, env: string)
    requires Parse(base).Some? && Parse(TrimSpace(env)).Some?
    requires Contains(TrimSpace(env), "||") || ',' !in TrimSpace(env)
    ensures Parse(RunTestsFilter(base, env)) == Some(And(Parse(base).value, Parse(TrimSpace(env)).value))
  {
    NoCommaOneAlternative(TrimSpace(env));
    RunTestsParses(base, env);
  }

  /** The extra filter of an unset or blank variable restricts nothing. */
  predicate WellFormedExtra(extra: string) {
    extra == "" || Parse(extra).Some?
  }

  predicate ExtraSelects(extra: string, has: string -> bool)
    requires WellFormedExtra(extra)
  {
    extra == "" || Selects(Parse(extra).value, has)
  }

  /** An alternative of the extra filter that the conjunction does not reach selects the test. */
  predicate LaterSelects(extra: string, has: string -> bool)
    requires WellFormedExtra(extra)
  {
    extra != "" && SomeSelects(ExtraAlternatives(extra)[1..], has)
  }

  lemma ExtraByAlternatives(extra: string, has: string -> bool)
    requires Parse(extra).Some?
    ensures var alts := ExtraAlternatives(extra);
            (Selects(Parse(extra).value, has) <==> Selects(alts[0], has) || SomeSelects(alts[1..], has))
  {
    var alts := ExtraAlternatives(extra);
    ProtectedParses(extra);
    SelectsByAlternatives(Lex(Protected(extra)).value, has);
    assert alts == [alts[0]] + alts[1..];
    SomeSelectsConcat([alts[0]], alts[1..], has);
    SomeSelectsOne(alts[0], has);
  }

  /**
   For every two filters, an extra one or none: `runTestsWithTimeout` selects a
   test as the conjunction does exactly when the base selects it or no later
   alternative of the extra filter does.
   */
  lemma RunTestsExactly(base: string, env: string, has: string -> bool)
    requires Parse(base).Some? && WellFormedExtra(TrimSpace(env))
    ensures Parse(RunTestsFilter(base, env)).Some?
    ensures var b, e := Selects(Parse(base).value, has), ExtraSelects(TrimSpace(env), has);
            (Selects(Parse(RunTestsFilter(base, env)).value, has) == (b && e)
             <==> (b || !LaterSelects(TrimSpace(env), has)))
  {
    var extra := TrimSpace(env);
    if extra != "" {
      var b, alts := Parse(base).value, ExtraAlternatives(extra);
      RunTestsParses(base, env);
      SelectsByAlternatives(Lex(RunTestsFilter(base, env)).value, has);
      SomeSelectsConcat([And(b, alts[0])], alts[1..], has);
      SomeSelectsOne(And(b, alts[0]), has);
      ExtraByAlternatives(extra, has);
    }
  }

  /** What a filter with ` && tail` appended selects. */
  lemma AppendedMeans(base: string, tail: string, has: string -> bool)
    requires Parse(base).Some? && Parse(tail).Some?
    ensures Parse(base + (" && " + tail)).Some?
    ensures Selects(Parse(base + (" && " + tail)).value, has)
       <==> JoinedSelects(Alternatives(Lex(base).value), Alternatives(Lex(tail).value), has)
  {
    LexAppended(base, tail);
    OrAppended(Lex(base).value, Lex(tail).value, has);
  }

  /** An alternative of the filter other than its last selects the test. */
  predicate EarlierSelects(base: string, has: string -> bool)
    requires Parse(base).Some?
  {
    var alts := Alternatives(Lex(base).value);
    SomeSelects(alts[..|alts| - 1], has)
  }

  lemma BaseByAlternatives(base: string, has: string -> bool)
    requires Parse(base).Some?
    ensures var alts := Alternatives(Lex(base).value);
            (Selects(Parse(base).value, has) <==> EarlierSelects(base, has) || Selects(alts[|alts| - 1], has))
  {
    var alts := Alternatives(Lex(base).value);
    SelectsByAlternatives(Lex(base).value, has);
    assert alts == alts[..|alts| - 1] + [alts[|alts| - 1]];
    SomeSelectsConcat(alts[..|alts| - 1], [alts[|alts| - 1]], has);
    SomeSelectsOne(alts[|alts| - 1], has);
  }

  lemma BuildLabelFilterMeans(base: string, env: string, has: string -> bool)
    requires Parse(base).Some? && Parse(TrimSpace(env)).Some?
    ensures Parse(BuildLabelFilter(base, env)).Some?
    ensures Selects(Parse(BuildLabelFilter(base, env)).value, has)
       <==> JoinedSelects(Alternatives(Lex(base).value), ExtraAlternatives(TrimSpace(env)), has)
  {
    var extra := TrimSpace(env);
    EmptyFails();
    ProtectedParses(extra);
    AppendedMeans(base, Protected(extra), has);
  }

  lemma EmptyFails()
    ensures Parse("").None?
  {
    assert Lex("") == Some([]) && ParseOr([]).Failed?;
  }

  /**
   For every two filters, an extra one or none: `BuildLabelFilter` selects a test
   as the conjunction does exactly when the extra filter selects it or no earlier
   alternative of the base does, and the base selects it or no later alternative
   of the extra filter does.
   */
  lemma BuildLabelFilterExactly(base: string, env: string, has: string -> bool)
    requires Parse(base).Some? && WellFormedExtra(TrimSpace(env))
    ensures Parse(BuildLabelFilter(base, env)).Some?
    ensures var b, e := Selects(Parse(base).value, has), ExtraSelects(TrimSpace(env), has);
            (Selects(Parse(BuildLabelFilter(base, env)).value, has) == (b && e)
             <==> (e || !EarlierSelects(base, has)) && (b || !LaterSelects(TrimSpace(env), has)))
  {
    var extra := TrimSpace(env);
    BaseByAlternatives(base, has);
    if extra != "" {
      BuildLabelFilterMeans(base, env, has);
      ExtraByAlternatives(extra, has);
    }
  }

  /** It is the conjunction for every test if neither filter has an alternative the other does not reach. */
  lemma BuildLabelFilterIsConjunction(base: string, env: string, has: string -> bool)
    requires Parse(base).Some? && |Alternatives(Lex(base).value)| == 1
    requires Parse(TrimSpace(env)).Some? && (Contains(TrimSpace(env), "||") || ',' !in TrimSpace(env))
    ensures Parse(BuildLabelFilter(base, env)).Some?
    ensures Selects(Parse(BuildLabelFilter(base, env)).value, has)
       <==> Selects(Parse(base).value, has) && Selects(Parse(TrimSpace(env)).value, has)
  {
    EmptyFails();
    NoCommaOneAlternative(TrimSpace(env));
    assert [Parse(TrimSpace(env)).value][1..] == [];
    BuildLabelFilterExactly(base, env, has);
  }

  // ----- The exclusions of the paired release-service-catalog run -----

  /** A label as text: no operators in it and no spaces around it. */
  predicate PlainName(n: string) {
    n != "" && Trimmed(n) && Avoids(n, SPECIAL)
  }

  /** A label that does not start or end in white space of any kind. */
  predicate Word(n: string) {
    PlainName(n) && !IsSpace(n[0]) && !IsSpace(n[|n| - 1])
  }

  lemma LettersPlain(n: string)
    requires n != "" && forall i :: 0 <= i < |n| ==> n[i] == '-' || 'a' <= n[i] <= 'z'
    ensures Word(n)
  {
  }

  lemma {:induction false} PlainLength(n: string)
    requires Avoids(n, SPECIAL)
    ensures NameLength(n) == |n|
  {
    if n != "" { PlainLength(n[1..]); }
  }

  lemma LexName(n: string)
    requires PlainName(n)
    ensures Lex(n) == Some([Name(n)])
  {
    PlainLength(n);
    TrimRightSpace(n);
    assert n[..|n|] == n && n[|n|..] == "";
    assert Head(n) == Tok(Name(n), |n|);
    assert [Name(n)] + [] == [Name(n)];
  }

  lemma LexBang(s: string)
    requires Lex(s).Some?
    ensures Lex("!" + s) == Some([Bang] + Lex(s).value)
  {
    assert ("!" + s)[1..] == s;
  }

  lemma ParseExcluded(n: string, more: seq<Token>)
    ensures ParseNot([Bang] + ([Name(n)] + more)) == Parsed(Not(Lbl(n)), more)
  {
    var ts := [Bang] + ([Name(n)] + more);
    assert ts[1..] == [Name(n)] + more && ([Name(n)] + more)[1..] == more;
  }

  /** One more exclusion in front of a conjunction. */
  lemma ExcludeOneMore(n: string, tail: string)
    requires PlainName(n) && Lex(tail).Some?
    requires var q := ParseAnd(Lex(tail).value); q.Parsed? && q.rest == []
    ensures var s := "!" + (n + (" && " + tail));
            && Lex(s).Some?
            && ParseAnd(Lex(s).value) == Parsed(And(Not(Lbl(n)), ParseAnd(Lex(tail).value).e), [])
  {
    LexName(n);
    LexAppended(n, tail);
    LexBang(n + (" && " + tail));
    var ts := Lex(tail).value;
    ParseExcluded(n, [AndOp] + ts);
    assert ([AndOp] + ts)[1..] == ts;
  }

  lemma ExcludeOne(n: string)
    requires PlainName(n)
    ensures Lex("!" + n).Some? && ParseAnd(Lex("!" + n).value) == Parsed(Not(Lbl(n)), [])
  {
    LexName(n);
    LexBang(n);
    assert [Name(n)] + [] == [Name(n)];
    ParseExcluded(n, []);
  }

  predicate HasNone(names: seq<string>, has: string -> bool) {
    forall i :: 0 <= i < |names| ==> !has(names[i])
  }

  lemma HasNoneCons(names: seq<string>, has: string -> bool)
    requires names != []
    ensures HasNone(names, has) <==> !has(names[0]) && HasNone(names[1..], has)
  {
    assert forall i :: 0 < i < |names| ==> names[i] == names[1..][i - 1];
    assert forall i :: 0 <= i < |names| - 1 ==> names[1..][i] == names[i + 1];
  }

  /** The exclusions select the tests that have none of the labels. */
  lemma {:induction false} ExclusionsMean(names: seq<string>, has: string -> bool)
    requires names != [] && forall i :: 0 <= i < |names| ==> PlainName(names[i])
    ensures Lex(Exclusions(names)).Some?
    ensures var q := ParseAnd(Lex(Exclusions(names)).value);
            q.Parsed? && q.rest == [] && (Selects(q.e, has) <==> HasNone(names, has))
  {
    HasNoneCons(names, has);
    if |names| == 1 {
      ExcludeOne(names[0]);
    } else {
      var rest := Exclusions(names[1..]);
      ExclusionsMean(names[1..], has);
      ExcludeOneMore(names[0], rest);
      assert Exclusions(names) == "!" + (names[0] + (" && " + rest));
      assert Selects(Not(Lbl(names[0])), has) == !has(names[0]);
    }
  }

  lemma ConjunctionAlone(ts: seq<Token>)
    requires ParseAnd(ts).Parsed? && ParseAnd(ts).rest == []
    ensures ParseOr(ts) == ParseAnd(ts) && Alternatives(ts) == [ParseAnd(ts).e] && Alternatives(ts)[1..] == []
  {
  }

  lemma PairedNamesPlain(i: nat)
    requires i < |PAIRED_EXCLUDED|
    ensures PlainName(PAIRED_EXCLUDED[i])
  {
    LettersPlain(PAIRED_EXCLUDED[i]);
  }

  /** The labels that the paired run leaves out. */
  predicate LeftOutWhenPaired(has: string -> bool) {
    || has("fbc-release") || has("multiarch-advisories") || has("rh-advisories")
    || has("release-to-github") || has("rh-push-to-registry-redhat-io") || has("rhtap-service-push")
  }

  lemma PairedNames(has: string -> bool)
    ensures HasNone(PAIRED_EXCLUDED, has) <==> !LeftOutWhenPaired(has)
  {
    var ns := PAIRED_EXCLUDED;
    assert ns[0] == "fbc-release" && ns[1] == "multiarch-advisories" && ns[2] == "rh-advisories";
    assert ns[3] == "release-to-github" && ns[4] == "rh-push-to-registry-redhat-io" && ns[5] == "rhtap-service-push";
  }

  /** A conjunction appended to a filter restricts its last alternative only. */
  lemma ConjunctionAppended(filter: string, tail: string, has: string -> bool)
    requires Parse(filter).Some? && Lex(tail).Some?
    requires var q := ParseAnd(Lex(tail).value); q.Parsed? && q.rest == []
    ensures var f, q := Parse(filter + (" && " + tail)), ParseAnd(Lex(tail).value);
            && f.Some?
            && (!Selects(q.e, has) ==> (Selects(f.value, has) <==> EarlierSelects(filter, has)))
            && (Selects(q.e, has) ==> Selects(f.value, has) == Selects(Parse(filter).value, has))
  {
    var q := ParseAnd(Lex(tail).value);
    ConjunctionAlone(Lex(tail).value);
    AppendedMeans(filter, tail, has);
    JoinedOne(Alternatives(Lex(filter).value), q.e, has);
    BaseByAlternatives(filter, has);
  }

  lemma JoinedOne(b: seq<Expr>, e: Expr, has: string -> bool)
    requires b != []
    ensures JoinedSelects(b, [e], has)
       <==> SomeSelects(b[..|b| - 1], has) || (Selects(b[|b| - 1], has) && Selects(e, has))
  {
    assert [e][1..] == [];
  }

  /**
   The exclusions added to a filter keep out exactly the tests with an excluded
   label that no alternative but the last selects.
   */
  lemma PairedExclusions(filter: string, has: string -> bool)
    requires Parse(filter).Some?
    ensures Parse(PairedFilter(filter)).Some?
    ensures LeftOutWhenPaired(has) ==>
              (Selects(Parse(PairedFilter(filter)).value, has) <==> EarlierSelects(filter, has))
    ensures !LeftOutWhenPaired(has) ==>
              Selects(Parse(PairedFilter(filter)).value, has) == Selects(Parse(filter).value, has)
  {
    forall i | 0 <= i < |PAIRED_EXCLUDED| ensures PlainName(PAIRED_EXCLUDED[i]) { PairedNamesPlain(i); }
    ExclusionsMean(PAIRED_EXCLUDED, has);
    PairedNames(has);
    ConjunctionAppended(filter, Exclusions(PAIRED_EXCLUDED), has);
  }

  /** `y` starts with an or operator, in either spelling, and `b` comes after it. */
  lemma LexOr(y: string, b: string)
    requires (y == "||" + b || y == "," + b) && Lex(b).Some?
    ensures Lex(y) == Some([OrOp] + Lex(b).value)
  {
    assert y == "||" + b ==> y[2..] == b;
    assert y == "," + b ==> y[1..] == b;
  }

  lemma LexNamed(a: string, y: string)
    requires PlainName(a) && Lex(y).Some? && y != "" && y[0] in SPECIAL
    ensures Lex(a + y) == Some([Name(a)] + Lex(y).value)
  {
    LexName(a);
    LexConcat(a, y);
  }

  lemma TwoCases(a: string, y: string, b: string)
    requires PlainName(a) && PlainName(b) && (y == "||" + b || y == "," + b)
    ensures Lex(a + y) == Some([Name(a), OrOp, Name(b)])
  {
    assert Lex(y) == Some([OrOp] + [Name(b)]) by {
      LexName(b);
      LexOr(y, b);
    }
    LexNamed(a, y);
    assert [Name(a)] + ([OrOp] + [Name(b)]) == [Name(a), OrOp, Name(b)];
  }

  lemma TwoAlternatives(a: string, b: string)
    ensures var ts := [Name(a), OrOp, Name(b)];
            ParseOr(ts) == Parsed(Or(Lbl(a), Lbl(b)), []) && Alternatives(ts) == [Lbl(a), Lbl(b)]
  {
    var ts, us := [Name(a), OrOp, Name(b)], [Name(b)];
    assert ts[1..][1..] == us && us[1..] == [];
    assert ParseAnd(us) == Parsed(Lbl(b), []) && ParseOr(us) == Parsed(Lbl(b), []);
    assert ParseAnd(ts) == Parsed(Lbl(a), ts[1..]);
    assert [Lbl(a)] + [Lbl(b)] == [Lbl(a), Lbl(b)];
  }

  /** With two test cases, as the catalog joins them, the first one escapes the exclusions. */
  lemma FirstCaseEscapes(a: string, b: string, has: string -> bool)
    requires PlainName(a) && PlainName(b) && has(a)
    ensures Parse(PairedFilter(a + ("||" + b))).Some?
    ensures Selects(Parse(PairedFilter(a + ("||" + b))).value, has)
  {
    var filter := a + ("||" + b);
    assert Parse(filter) == Some(Or(Lbl(a), Lbl(b))) && Alternatives(Lex(filter).value) == [Lbl(a), Lbl(b)] by {
      TwoCases(a, "||" + b, b);
      TwoAlternatives(a, b);
    }
    assert [Lbl(a), Lbl(b)][..1] == [Lbl(a)];
    SomeSelectsOne(Lbl(a), has);
    PairedExclusions(filter, has);
  }

  // ----- A comma escapes the conjunction -----

  lemma NoBarNoOr(s: string)
    requires '|' !in s
    ensures !Contains(s, "||")
  {
    MissingChar(s, "||", 0);
  }

  lemma CommaExtra(a: string, b: string)
    requires Word(a) && Word(b)
    ensures var env := a + ("," + b);
            && TrimSpace(env) == env && Parse(env) == Some(Or(Lbl(a), Lbl(b)))
            && ExtraAlternatives(env) == [Lbl(a), Lbl(b)]
  {
    var env := a + ("," + b);
    TwoCases(a, "," + b, b);
    TwoAlternatives(a, b);
    assert env[0] == a[0] && env[|env| - 1] == b[|b| - 1];
    NoBarNoOr(env);
  }

  lemma OneName(l: string)
    requires PlainName(l)
    ensures Parse(l) == Some(Lbl(l)) && Alternatives(Lex(l).value) == [Lbl(l)]
  {
    LexName(l);
    var ts := [Name(l)];
    assert ts[1..] == [];
    assert ParseNot(ts) == Parsed(Lbl(l), []);
    ConjunctionAlone(ts);
  }

  /**
   An extra filter of two labels joined by a comma: with either combinator, a test
   that has the second label is selected whether or not the base label is on it.
   */
  lemma CommaEscapes(l: string, a: string, b: string, has: string -> bool)
    requires PlainName(l) && Word(a) && Word(b) && has(b)
    ensures var env := a + ("," + b);
            && Parse(BuildLabelFilter(l, env)).Some? && Selects(Parse(BuildLabelFilter(l, env)).value, has)
            && Parse(RunTestsFilter(l, env)).Some? && Selects(Parse(RunTestsFilter(l, env)).value, has)
  {
    var env := a + ("," + b);
    CommaExtra(a, b);
    OneName(l);
    assert [Lbl(a), Lbl(b)][1..] == [Lbl(b)];
    SomeSelectsOne(Lbl(b), has);
    EmptyFails();
    BuildLabelFilterMeans(l, env, has);
    RunTestsExactly(l, env, has);
  }

  /** The labels of a test that has one label only. */
  function Only(lbl: string): string -> bool {
    n => n == lbl
  }

  /** What the build-service job makes of `github,gitlab`: any gitlab test, of whatever component, is run. */
  lemma BuildServiceCommaEscapes()
    ensures var f := Parse(BuildLabelFilter("build-service", "github,gitlab"));
            f.Some? && Selects(f.value, Only("gitlab")) && !Selects(Lbl("build-service"), Only("gitlab"))
  {
    LettersPlain("build-service");
    LettersPlain("github");
    LettersPlain("gitlab");
    assert "github" + ("," + "gitlab") == "github,gitlab";
    CommaEscapes("build-service", "github", "gitlab", Only("gitlab"));
  }

  /** And the disaster-recovery run, which `runTestsWithTimeout` starts. */
  lemma RunTestsCommaEscapes()
    ensures var f := Parse(RunTestsFilter("disaster-recovery", "github,gitlab"));
            f.Some? && Selects(f.value, Only("gitlab")) && !Selects(Lbl("disaster-recovery"), Only("gitlab"))
  {
    LettersPlain("disaster-recovery");
    LettersPlain("github");
    LettersPlain("gitlab");
    assert "github" + ("," + "gitlab") == "github,gitlab";
    CommaEscapes("disaster-recovery", "github", "gitlab", Only("gitlab"));
  }
}
