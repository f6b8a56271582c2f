/**
 What catalogs mean when conditions are stable: they read only what no action
 writes, and nothing fails. Then the effectful evaluation of a condition tree
 gives the truth value of the formula it looks like, and the actions it runs on
 the way are given by a trace that mentions neither contexts nor evaluation.
 */
module EngineMeaning {
  import opened Names
  import opened RulesEngine

  type Valuation = Id -> bool

  // ----- The formula and the trace -----

  /** The truth value of a condition tree. */
  predicate Holds(c: Cond, v: Valuation) {
    match c
    case Func(id) => v(id)
    case Any(cs) => exists i :: 0 <= i < |cs| && Holds(cs[i], v)
    case All(cs) => forall i :: 0 <= i < |cs| ==> Holds(cs[i], v)
    case NoneOf(cs) => forall i :: 0 <= i < |cs| ==> !Holds(cs[i], v)
    case Sub(rule) => Holds(rule.condition, v)
  }

  /** How many conditions are looked at by a loop that stops at the first one whose value is `stop`. */
  function Visited(cs: seq<Cond>, v: Valuation, stop: bool): (n: nat)
    ensures n <= |cs|
    ensures forall i :: 0 <= i < n - 1 ==> Holds(cs[i], v) != stop
    ensures n < |cs| ==> n > 0 && Holds(cs[n - 1], v) == stop
  {
    if cs == [] then 0
    else if Holds(cs[0], v) == stop then 1
    else 1 + Visited(cs[1..], v, stop)
  }

  /** The actions run by evaluating a condition. */
  function Trace(c: Cond, v: Valuation): seq<Id>
    decreases c, 1
  {
    match c
    case Func(_) => []
    case Any(cs) => Traces(cs, |cs|, v)
    case All(cs) => Traces(cs, Visited(cs, v, false), v)
    case NoneOf(cs) => Traces(cs, Visited(cs, v, true), v)
    case Sub(rule) => Trace(rule.condition, v) + if Holds(rule.condition, v) then rule.actions else []
  }

  /** The actions run by evaluating the first `n` conditions. */
  function Traces(cs: seq<Cond>, n: nat, v: Valuation): seq<Id>
    requires n <= |cs|
    decreases cs, 0
  {
    if n == 0 then [] else Trace(cs[0], v) + Traces(cs[1..], n - 1, v)
  }

  /** The actions in a log. */
  function Actions(log: seq<Call>): seq<Id> {
    if log == [] then []
    else Actions(log[..|log| - 1]) + (if log[|log| - 1].Executed? then [log[|log| - 1].id] else [])
  }

  // ----- Stability -----

  function CondIds(c: Cond): set<Id>
    decreases c, 0
  {
    match c
    case Func(id) => {id}
    case Any(cs) => set i, x | 0 <= i < |cs| && x in CondIds(cs[i]) :: x
    case All(cs) => set i, x | 0 <= i < |cs| && x in CondIds(cs[i]) :: x
    case NoneOf(cs) => set i, x | 0 <= i < |cs| && x in CondIds(cs[i]) :: x
    case Sub(rule) => CondIds(rule.condition)
  }

  function ActionIds(c: Cond): set<Id>
    decreases c, 0
  {
    match c
    case Func(_) => {}
    case Any(cs) => set i, x | 0 <= i < |cs| && x in ActionIds(cs[i]) :: x
    case All(cs) => set i, x | 0 <= i < |cs| && x in ActionIds(cs[i]) :: x
    case NoneOf(cs) => set i, x | 0 <= i < |cs| && x in ActionIds(cs[i]) :: x
    case Sub(rule) => ActionIds(rule.condition) + set x | x in rule.actions
  }

  /**
   From the states in `inv`, the conditions in `conds` answer as `v` says, the
   calls in `conds` and `acts` do not fail, and the state stays in `inv`.
   */
  ghost predicate Stable<Ctx(!new)>(
      I: Interp<Ctx>, inv: State<Ctx> -> bool, v: Valuation, conds: set<Id>, acts: set<Id>)
  {
    && (forall s, id | id in conds && inv(s) ::
          var r := CallCheck(I, id, s); r.err.None? && r.ok == v(id) && inv(r.s))
    && (forall s, id | id in acts && inv(s) ::
          var r := CallExec(I, id, s); r.err.None? && inv(r.s))
  }

  /** The context is still in `inv`, and exactly `trace` was executed meanwhile. */
  ghost predicate Did<Ctx>(inv: State<Ctx> -> bool, s: State<Ctx>, t: State<Ctx>, trace: seq<Id>) {
    inv(t) && t.dryRun == s.dryRun && Actions(t.log) == Actions(s.log) + trace
  }

  lemma ActionsSnoc(log: seq<Call>, c: Call)
    ensures Actions(log + [c]) == Actions(log) + if c.Executed? then [c.id] else []
  {
    assert (log + [c])[..|log|] == log;
  }

  lemma DidSteps<Ctx>(inv: State<Ctx> -> bool, s: State<Ctx>, t: State<Ctx>, u: State<Ctx>, a: seq<Id>, b: seq<Id>)
    requires Did(inv, s, t, a) && Did(inv, t, u, b)
    ensures Did(inv, s, u, a + b)
  {
    assert Actions(s.log) + a + b == Actions(s.log) + (a + b);
  }

  lemma DidNothing<Ctx>(inv: State<Ctx> -> bool, s: State<Ctx>)
    requires inv(s)
    ensures Did(inv, s, s, [])
  {
    assert Actions(s.log) + [] == Actions(s.log);
  }

  // ----- The meaning theorem -----

  lemma {:induction false} ActionsMeaning<Ctx(!new)>(
      I: Interp<Ctx>, inv: State<Ctx> -> bool, v: Valuation, conds: set<Id>, acts: set<Id>,
      actions: seq<Id>, s: State<Ctx>)
    requires Stable(I, inv, v, conds, acts) && inv(s)
    requires forall a <- actions :: a in acts
    ensures var r := RunActions(I, actions, s); r.err.None? && Did(inv, s, r.s, actions)
    decreases actions
  {
    if actions == [] {
      DidNothing(inv, s);
    } else {
      assert actions[0] in acts;
      var r := CallExec(I, actions[0], s);
      ActionsSnoc(s.log, Executed(actions[0], r.err));
      ActionsMeaning(I, inv, v, conds, acts, actions[1..], r.s);
      DidSteps(inv, s, r.s, RunActions(I, actions, s).s, [actions[0]], actions[1..]);
      assert [actions[0]] + actions[1..] == actions;
    }
  }

  lemma IdsOfParts(c: Cond, conds: set<Id>, acts: set<Id>)
    requires c.Any? || c.All? || c.NoneOf?
    requires CondIds(c) <= conds && ActionIds(c) <= acts
    ensures forall i :: 0 <= i < |c.cs| ==> CondIds(c.cs[i]) <= conds && ActionIds(c.cs[i]) <= acts
  {
    forall i | 0 <= i < |c.cs| ensures CondIds(c.cs[i]) <= conds && ActionIds(c.cs[i]) <= acts {
      assert forall x :: x in CondIds(c.cs[i]) ==> x in CondIds(c);
      assert forall x :: x in ActionIds(c.cs[i]) ==> x in ActionIds(c);
    }
  }

  /** Evaluation of a stable condition: its value is the formula's, its actions are the trace. */
  lemma {:induction false} Meaning<Ctx(!new)>(
      I: Interp<Ctx>, inv: State<Ctx> -> bool, v: Valuation, conds: set<Id>, acts: set<Id>,
      c: Cond, s: State<Ctx>)
    requires Stable(I, inv, v, conds, acts) && inv(s)
    requires CondIds(c) <= conds && ActionIds(c) <= acts
    ensures var r := CheckCond(I, c, s);
            r.err.None? && r.ok == Holds(c, v) && Did(inv, s, r.s, Trace(c, v))
    decreases c, 1
  {
    match c
    case Func(id) =>
      assert id in conds;
      ActionsSnoc(s.log, Checked(id, CallCheck(I, id, s).err));
    case Any(cs) =>
      IdsOfParts(c, conds, acts);
      AnyMeaning(I, inv, v, conds, acts, cs, s, false);
    case All(cs) =>
      IdsOfParts(c, conds, acts);
      AllMeaning(I, inv, v, conds, acts, cs, s);
    case NoneOf(cs) =>
      IdsOfParts(c, conds, acts);
      NoneMeaning(I, inv, v, conds, acts, cs, s);
    case Sub(rule) =>
      assert forall a <- rule.actions :: a in ActionIds(c);
      Meaning(I, inv, v, conds, acts, rule.condition, s);
      var r := CheckCond(I, rule.condition, s);
      if r.ok {
        ActionsMeaning(I, inv, v, conds, acts, rule.actions, r.s);
        DidSteps(inv, s, r.s, RunActions(I, rule.actions, r.s).s, Trace(rule.condition, v), rule.actions);
      } else {
        assert Trace(rule.condition, v) + [] == Trace(rule.condition, v);
      }
  }

  lemma {:induction false} AnyMeaning<Ctx(!new)>(
      I: Interp<Ctx>, inv: State<Ctx> -> bool, v: Valuation, conds: set<Id>, acts: set<Id>,
      cs: seq<Cond>, s: State<Ctx>, isAny: bool)
    requires Stable(I, inv, v, conds, acts) && inv(s)
    requires forall i :: 0 <= i < |cs| ==> CondIds(cs[i]) <= conds && ActionIds(cs[i]) <= acts
    ensures var r := CheckAny(I, cs, s, isAny);
            && r.err.None? && r.ok == (isAny || exists i :: 0 <= i < |cs| && Holds(cs[i], v))
            && Did(inv, s, r.s, Traces(cs, |cs|, v))
    decreases cs, 0
  {
    if cs == [] {
      DidNothing(inv, s);
    } else {
      Meaning(I, inv, v, conds, acts, cs[0], s);
      var r := CheckCond(I, cs[0], s);
      AnyMeaning(I, inv, v, conds, acts, cs[1..], r.s, isAny || r.ok);
      DidSteps(inv, s, r.s, CheckAny(I, cs, s, isAny).s, Trace(cs[0], v), Traces(cs[1..], |cs| - 1, v));
      assert forall i :: 0 < i < |cs| ==> cs[i] == cs[1..][i - 1];
    }
  }

  lemma {:induction false} AllMeaning<Ctx(!new)>(
      I: Interp<Ctx>, inv: State<Ctx> -> bool, v: Valuation, conds: set<Id>, acts: set<Id>,
      cs: seq<Cond>, s: State<Ctx>)
    requires Stable(I, inv, v, conds, acts) && inv(s)
    requires forall i :: 0 <= i < |cs| ==> CondIds(cs[i]) <= conds && ActionIds(cs[i]) <= acts
    ensures var r := CheckAll(I, cs, s);
            && r.err.None? && r.ok == (forall i :: 0 <= i < |cs| ==> Holds(cs[i], v))
            && Did(inv, s, r.s, Traces(cs, Visited(cs, v, false), v))
    decreases cs, 0
  {
    if cs == [] {
      DidNothing(inv, s);
    } else {
      Meaning(I, inv, v, conds, acts, cs[0], s);
      var r := CheckCond(I, cs[0], s);
      if r.ok {
        AllMeaning(I, inv, v, conds, acts, cs[1..], r.s);
        DidSteps(inv, s, r.s, CheckAll(I, cs, s).s, Trace(cs[0], v), Traces(cs[1..], Visited(cs[1..], v, false), v));
        assert forall i :: 0 < i < |cs| ==> cs[i] == cs[1..][i - 1];
      } else {
        assert Traces(cs, 1, v) == Trace(cs[0], v);
      }
    }
  }

  lemma {:induction false} NoneMeaning<Ctx(!new)>(
      I: Interp<Ctx>, inv: State<Ctx> -> bool, v: Valuation, conds: set<Id>, acts: set<Id>,
      cs: seq<Cond>, s: State<Ctx>)
    requires Stable(I, inv, v, conds, acts) && inv(s)
    requires forall i :: 0 <= i < |cs| ==> CondIds(cs[i]) <= conds && ActionIds(cs[i]) <= acts
    ensures var r := CheckNone(I, cs, s);
            && r.err.None? && r.ok == (forall i :: 0 <= i < |cs| ==> !Holds(cs[i], v))
            && Did(inv, s, r.s, Traces(cs, Visited(cs, v, true), v))
    decreases cs, 0
  {
    if cs == [] {
      DidNothing(inv, s);
    } else {
      Meaning(I, inv, v, conds, acts, cs[0], s);
      var r := CheckCond(I, cs[0], s);
      if !r.ok {
        NoneMeaning(I, inv, v, conds, acts, cs[1..], r.s);
        DidSteps(inv, s, r.s, CheckNone(I, cs, s).s, Trace(cs[0], v), Traces(cs[1..], Visited(cs[1..], v, true), v));
        assert forall i :: 0 < i < |cs| ==> cs[i] == cs[1..][i - 1];
      } else {
        assert Traces(cs, 1, v) == Trace(cs[0], v);
      }
    }
  }

  // ----- The optional-step idiom -----

  /**
   `Any{R, None{R}}` and `Any{None{R}, R}` always hold, and either way R is
   evaluated twice: its trace, which ends with its own actions when its
   condition holds and has none of them otherwise, is run two times over.
   */
  lemma OptionalStep<Ctx(!new)>(
      I: Interp<Ctx>, inv: State<Ctx> -> bool, v: Valuation, R: Rule, s: State<Ctx>)
    requires Stable(I, inv, v, CondIds(Sub(R)), ActionIds(Sub(R))) && inv(s)
    ensures var once := Trace(R.condition, v) + if Holds(R.condition, v) then R.actions else [];
            forall c | c in {Any([Sub(R), NoneOf([Sub(R)])]), Any([NoneOf([Sub(R)]), Sub(R)])} ::
              var r := CheckCond(I, c, s);
              r.err.None? && r.ok && Did(inv, s, r.s, once + once)
  {
    var conds, acts := CondIds(Sub(R)), ActionIds(Sub(R));
    var none := NoneOf([Sub(R)]);
    OptionalParts(Sub(R), none, v);
    OptionalParts(none, Sub(R), v);
    Meaning(I, inv, v, conds, acts, Any([Sub(R), none]), s);
    Meaning(I, inv, v, conds, acts, Any([none, Sub(R)]), s);
  }

  lemma OptionalParts(a: Cond, b: Cond, v: Valuation)
    requires exists r :: (a == Sub(r) && b == NoneOf([Sub(r)])) || (b == Sub(r) && a == NoneOf([Sub(r)]))
    ensures CondIds(Any([a, b])) == CondIds(if a.Sub? then a else b)
    ensures ActionIds(Any([a, b])) == ActionIds(if a.Sub? then a else b)
    ensures Holds(Any([a, b]), v)
    ensures var t := Trace(if a.Sub? then a else b, v); Trace(Any([a, b]), v) == t + t
  {
    var sub, none := if a.Sub? then a else b, if a.Sub? then b else a;
    var cs := [a, b];
    assert cs[0] == a && cs[1] == b;
    assert none.cs[0] == sub;
    assert Holds(none, v) <==> !Holds(sub, v);
    assert Holds(cs[0], v) || Holds(cs[1], v);
    assert CondIds(none) == CondIds(sub);
    assert ActionIds(none) == ActionIds(sub);
    assert CondIds(Any(cs)) == CondIds(a) + CondIds(b);
    assert ActionIds(Any(cs)) == ActionIds(a) + ActionIds(b);
    assert none.cs[1..] == [];
    assert Traces(none.cs, 1, v) == Trace(sub, v) + [];
    assert cs[1..] == [b] && [b][1..] == [];
    assert Traces([b], 1, v) == Trace(b, v) + [];
    assert Traces(cs, 2, v) == Trace(a, v) + Traces([b], 1, v);
  }

  // ----- Whole catalogs -----

  /** The actions of a catalog's conditions, evaluated in order. */
  function CatalogTraces(rules: RuleCatalog, v: Valuation): seq<Id> {
    if rules == [] then [] else Trace(rules[0].condition, v) + CatalogTraces(rules[1..], v)
  }

  /** The rules with actions that hold. */
  function Matched(rules: RuleCatalog, v: Valuation): RuleCatalog {
    if rules == [] then []
    else (if rules[0].actions != [] && Holds(rules[0].condition, v) then [rules[0]] else [])
         + Matched(rules[1..], v)
  }

  function AllActions(rules: RuleCatalog): seq<Id> {
    if rules == [] then [] else rules[0].actions + AllActions(rules[1..])
  }

  predicate ChainApplies(rule: Rule, v: Valuation) {
    rule.actions == [] && Holds(rule.condition, v)
  }

  /** How many rules are looked at: a rule chain that holds ends the run. */
  function Reached(rules: RuleCatalog, v: Valuation): (n: nat)
    ensures n <= |rules|
    ensures forall i :: 0 <= i < n - 1 ==> !ChainApplies(rules[i], v)
    ensures n < |rules| ==> n > 0 && ChainApplies(rules[n - 1], v)
  {
    if rules == [] then 0
    else if ChainApplies(rules[0], v) then 1
    else 1 + Reached(rules[1..], v)
  }

  /** Some rule chain of the catalog holds. */
  predicate EndsInChain(rules: RuleCatalog, v: Valuation) {
    exists i :: 0 <= i < |rules| && ChainApplies(rules[i], v)
  }

  /** Everything a run of the engine executes. */
  function EngineTrace(rules: RuleCatalog, matched: RuleCatalog, v: Valuation, dryRun: bool): seq<Id> {
    if EndsInChain(rules, v) then CatalogTraces(rules[..Reached(rules, v)], v)
    else
      CatalogTraces(rules, v) + FinalActions(matched + Matched(rules, v), dryRun)
  }

  /** What is executed once all rules have been looked at. */
  function FinalActions(matched: RuleCatalog, dryRun: bool): seq<Id> {
    if matched == [] then [] else if dryRun then matched[0].actions else AllActions(matched)
  }

  predicate InScope(rules: RuleCatalog, conds: set<Id>, acts: set<Id>) {
    forall r <- rules ::
      CondIds(r.condition) <= conds && ActionIds(r.condition) <= acts && forall a <- r.actions :: a in acts
  }

  ghost function CatalogConds(rules: RuleCatalog): set<Id> {
    set r, x | r in rules && x in CondIds(r.condition) :: x
  }

  ghost function CatalogActs(rules: RuleCatalog): set<Id> {
    (set r, x | r in rules && x in ActionIds(r.condition) :: x) + (set r, x | r in rules && x in r.actions :: x)
  }

  lemma ScopeOfCatalog(rules: RuleCatalog)
    ensures InScope(rules, CatalogConds(rules), CatalogActs(rules))
  {
    forall r <- rules
      ensures CondIds(r.condition) <= CatalogConds(rules) && ActionIds(r.condition) <= CatalogActs(rules)
      ensures forall a <- r.actions :: a in CatalogActs(rules)
    {
      assert forall x :: x in CondIds(r.condition) ==> x in CatalogConds(rules);
      assert forall x :: x in ActionIds(r.condition) ==> x in CatalogActs(rules);
    }
  }

  lemma {:induction false} MatchedMeaning<Ctx(!new)>(
      I: Interp<Ctx>, inv: State<Ctx> -> bool, v: Valuation, conds: set<Id>, acts: set<Id>,
      matched: RuleCatalog, s: State<Ctx>)
    requires Stable(I, inv, v, conds, acts) && inv(s) && InScope(matched, conds, acts)
    ensures var r := RunMatched(I, matched, s); r.err.None? && Did(inv, s, r.s, AllActions(matched))
    decreases matched
  {
    if matched == [] {
      DidNothing(inv, s);
    } else {
      assert matched[0] in matched;
      ActionsMeaning(I, inv, v, conds, acts, matched[0].actions, s);
      var r := RunActions(I, matched[0].actions, s);
      MatchedMeaning(I, inv, v, conds, acts, matched[1..], r.s);
      DidSteps(inv, s, r.s, RunMatched(I, matched, s).s, matched[0].actions, AllActions(matched[1..]));
    }
  }

  lemma FinishMeaning<Ctx(!new)>(
      I: Interp<Ctx>, inv: State<Ctx> -> bool, v: Valuation, conds: set<Id>, acts: set<Id>,
      matched: RuleCatalog, s: State<Ctx>)
    requires Stable(I, inv, v, conds, acts) && inv(s) && InScope(matched, conds, acts)
    ensures var r := Finish(I, matched, s); r.err.None? && Did(inv, s, r.s, EngineTrace([], matched, v, s.dryRun))
  {
    assert matched + [] == matched;
    MatchedMeaning(I, inv, v, conds, acts, matched, s);
    if matched == [] {
      DidNothing(inv, s);
    } else {
      assert matched[0] in matched;
      ActionsMeaning(I, inv, v, conds, acts, matched[0].actions, s);
      assert [] + matched[0].actions == matched[0].actions && [] + AllActions(matched) == AllActions(matched);
    }
  }

  function AddMatched(matched: RuleCatalog, rule: Rule, v: Valuation): RuleCatalog {
    if rule.actions != [] && Holds(rule.condition, v) then matched + [rule] else matched
  }

  lemma EndsInChainCons(rules: RuleCatalog, v: Valuation)
    requires rules != [] && !ChainApplies(rules[0], v)
    ensures EndsInChain(rules, v) <==> EndsInChain(rules[1..], v)
  {
    var rest := rules[1..];
    assert forall i :: 0 < i < |rules| ==> rules[i] == rest[i - 1];
    assert forall i :: 0 <= i < |rest| ==> rest[i] == rules[i + 1];
  }

  lemma RulesRegroup(a: RuleCatalog, b: RuleCatalog, c: RuleCatalog)
    ensures a + (b + c) == a + b + c
  {
  }

  lemma AddMatchedCons(rules: RuleCatalog, matched: RuleCatalog, v: Valuation)
    requires rules != []
    ensures matched + Matched(rules, v) == AddMatched(matched, rules[0], v) + Matched(rules[1..], v)
  {
    var head := if rules[0].actions != [] && Holds(rules[0].condition, v) then [rules[0]] else [];
    RulesRegroup(matched, head, Matched(rules[1..], v));
    assert matched + [] == matched;
  }

  lemma CatalogTracesCons(rules: RuleCatalog, v: Valuation, n: nat)
    requires 0 < n <= |rules|
    ensures CatalogTraces(rules[..n], v) == Trace(rules[0].condition, v) + CatalogTraces(rules[1..][..n - 1], v)
  {
    assert rules[..n][1..] == rules[1..][..n - 1];
  }

  /** One rule that does not end the run, in front of the rest. */
  lemma EngineTraceCons(rules: RuleCatalog, matched: RuleCatalog, v: Valuation, dryRun: bool)
    requires rules != [] && !ChainApplies(rules[0], v)
    ensures EngineTrace(rules, matched, v, dryRun)
         == Trace(rules[0].condition, v) + EngineTrace(rules[1..], AddMatched(matched, rules[0], v), v, dryRun)
  {
    EndsInChainCons(rules, v);
    if EndsInChain(rules, v) {
      CatalogTracesCons(rules, v, Reached(rules, v));
    } else {
      AddMatchedCons(rules, matched, v);
      var final := FinalActions(matched + Matched(rules, v), dryRun);
      var first, rest := Trace(rules[0].condition, v), CatalogTraces(rules[1..], v);
      assert first + rest + final == first + (rest + final);
    }
  }

  /** A stable run of the engine succeeds and executes exactly its trace. */
  lemma {:induction false} RunMeaning<Ctx(!new)>(
      I: Interp<Ctx>, inv: State<Ctx> -> bool, v: Valuation, conds: set<Id>, acts: set<Id>,
      rules: RuleCatalog, matched: RuleCatalog, s: State<Ctx>)
    requires Stable(I, inv, v, conds, acts) && inv(s)
    requires InScope(rules, conds, acts) && InScope(matched, conds, acts)
    ensures var r := RunCatalog(I, rules, matched, s);
            r.err.None? && Did(inv, s, r.s, EngineTrace(rules, matched, v, s.dryRun))
    decreases rules
  {
    if rules == [] {
      FinishMeaning(I, inv, v, conds, acts, matched, s);
    } else {
      var rule := rules[0];
      assert rule in rules;
      Meaning(I, inv, v, conds, acts, rule.condition, s);
      var r := CheckCond(I, rule.condition, s);
      if ChainApplies(rule, v) {
        assert rules[..1][1..] == [];
        assert CatalogTraces(rules[..1], v) == Trace(rule.condition, v) + [];
      } else {
        var matched' := AddMatched(matched, rule, v);
        EngineTraceCons(rules, matched, v, s.dryRun);
        RunMeaning(I, inv, v, conds, acts, rules[1..], matched', r.s);
        DidSteps(inv, s, r.s, RunCatalog(I, rules, matched, s).s,
                 Trace(rule.condition, v), EngineTrace(rules[1..], matched', v, s.dryRun));
      }
    }
  }
}
