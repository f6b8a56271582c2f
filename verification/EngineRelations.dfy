/**
 Two ways to lift a fact about single calls to whole runs of the engine:
 an invariant kept by every call, and a relation between two states that every
 call respects.
 */
module EngineRelations {
  import opened Names
  import opened RulesEngine
  import opened EngineMeaning

  // ----- Invariants -----

  /** Every call, failing or not, keeps `inv`. */
  ghost predicate Keeps<Ctx(!new)>(I: Interp<Ctx>, inv: State<Ctx> -> bool) {
    && (forall s, id | inv(s) :: inv(CallCheck(I, id, s).s))
    && (forall s, id | inv(s) :: inv(CallExec(I, id, s).s))
  }

  lemma {:induction false} ActionsKeep<Ctx(!new)>(I: Interp<Ctx>, inv: State<Ctx> -> bool, actions: seq<Id>, s: State<Ctx>)
    requires Keeps(I, inv) && inv(s)
    ensures inv(RunActions(I, actions, s).s)
    decreases actions
  {
    if actions != [] {
      var r := CallExec(I, actions[0], s);
      if r.err.None? { ActionsKeep(I, inv, actions[1..], r.s); }
    }
  }

  lemma {:induction false} CheckKeeps<Ctx(!new)>(I: Interp<Ctx>, inv: State<Ctx> -> bool, c: Cond, s: State<Ctx>)
    requires Keeps(I, inv) && inv(s)
    ensures inv(CheckCond(I, c, s).s)
    decreases c, 1
  {
    match c
    case Func(_) =>
    case Any(cs) => LoopsKeep(I, inv, cs, s, false);
    case All(cs) => LoopsKeep(I, inv, cs, s, false);
    case NoneOf(cs) => LoopsKeep(I, inv, cs, s, false);
    case Sub(rule) =>
      CheckKeeps(I, inv, rule.condition, s);
      ActionsKeep(I, inv, rule.actions, CheckCond(I, rule.condition, s).s);
  }

  lemma {:induction false} LoopsKeep<Ctx(!new)>(
      I: Interp<Ctx>, inv: State<Ctx> -> bool, cs: seq<Cond>, s: State<Ctx>, isAny: bool)
    requires Keeps(I, inv) && inv(s)
    ensures inv(CheckAny(I, cs, s, isAny).s) && inv(CheckAll(I, cs, s).s) && inv(CheckNone(I, cs, s).s)
    decreases cs, 0
  {
    if cs != [] {
      CheckKeeps(I, inv, cs[0], s);
      var r := CheckCond(I, cs[0], s);
      LoopsKeep(I, inv, cs[1..], r.s, isAny || r.ok);
    }
  }

  lemma {:induction false} MatchedKeep<Ctx(!new)>(I: Interp<Ctx>, inv: State<Ctx> -> bool, matched: RuleCatalog, s: State<Ctx>)
    requires Keeps(I, inv) && inv(s)
    ensures inv(RunMatched(I, matched, s).s)
    decreases matched
  {
    if matched != [] {
      ActionsKeep(I, inv, matched[0].actions, s);
      MatchedKeep(I, inv, matched[1..], RunActions(I, matched[0].actions, s).s);
    }
  }

  /** What every call keeps, every run of every catalog keeps, even one that fails half-way. */
  lemma {:induction false} RunKeeps<Ctx(!new)>(
      I: Interp<Ctx>, inv: State<Ctx> -> bool, rules: RuleCatalog, matched: RuleCatalog, s: State<Ctx>)
    requires Keeps(I, inv) && inv(s)
    ensures inv(RunCatalog(I, rules, matched, s).s)
    decreases rules
  {
    if rules == [] {
      MatchedKeep(I, inv, matched, s);
      if matched != [] { ActionsKeep(I, inv, matched[0].actions, s); }
    } else {
      CheckKeeps(I, inv, rules[0].condition, s);
      var r := CheckCond(I, rules[0].condition, s);
      RunKeeps(I, inv, rules[1..], matched, r.s);
      RunKeeps(I, inv, rules[1..], matched + [rules[0]], r.s);
    }
  }

  // ----- Relations -----

  type Rel<!Ctx> = (State<Ctx>, State<Ctx>) -> bool

  /** In related states the given calls answer alike and lead to related states. */
  ghost predicate Respects<Ctx(!new)>(I: Interp<Ctx>, rel: Rel<Ctx>, conds: set<Id>, acts: set<Id>) {
    && (forall s, t | rel(s, t) :: s.dryRun == t.dryRun)
    && (forall s, t, id | rel(s, t) && id in conds ::
          var r, q := CallCheck(I, id, s), CallCheck(I, id, t); r.ok == q.ok && r.err == q.err && rel(r.s, q.s))
    && (forall s, t, id | rel(s, t) && id in acts ::
          var r, q := CallExec(I, id, s), CallExec(I, id, t); r.err == q.err && rel(r.s, q.s))
  }

  ghost predicate Alike<Ctx>(rel: Rel<Ctx>, r: Outcome<Ctx>, q: Outcome<Ctx>) {
    r.ok == q.ok && r.err == q.err && rel(r.s, q.s)
  }

  ghost predicate RanAlike<Ctx>(rel: Rel<Ctx>, r: Ran<Ctx>, q: Ran<Ctx>) {
    r.err == q.err && rel(r.s, q.s)
  }

  lemma {:induction false} ActionsAlike<Ctx(!new)>(
      I: Interp<Ctx>, rel: Rel<Ctx>, conds: set<Id>, acts: set<Id>, actions: seq<Id>, s: State<Ctx>, t: State<Ctx>)
    requires Respects(I, rel, conds, acts) && rel(s, t)
    requires forall a <- actions :: a in acts
    ensures RanAlike(rel, RunActions(I, actions, s), RunActions(I, actions, t))
    decreases actions
  {
    if actions != [] {
      assert actions[0] in acts;
      var r, q := CallExec(I, actions[0], s), CallExec(I, actions[0], t);
      if r.err.None? { ActionsAlike(I, rel, conds, acts, actions[1..], r.s, q.s); }
    }
  }

  lemma {:induction false} CheckAlike<Ctx(!new)>(
      I: Interp<Ctx>, rel: Rel<Ctx>, conds: set<Id>, acts: set<Id>, c: Cond, s: State<Ctx>, t: State<Ctx>)
    requires Respects(I, rel, conds, acts) && rel(s, t)
    requires CondIds(c) <= conds && ActionIds(c) <= acts
    ensures Alike(rel, CheckCond(I, c, s), CheckCond(I, c, t))
    decreases c, 1
  {
    match c
    case Func(id) => assert id in conds;
    case Any(cs) => IdsOfParts(c, conds, acts); LoopsAlike(I, rel, conds, acts, cs, s, t, false);
    case All(cs) => IdsOfParts(c, conds, acts); LoopsAlike(I, rel, conds, acts, cs, s, t, false);
    case NoneOf(cs) => IdsOfParts(c, conds, acts); LoopsAlike(I, rel, conds, acts, cs, s, t, false);
    case Sub(rule) =>
      assert forall a <- rule.actions :: a in ActionIds(c);
      CheckAlike(I, rel, conds, acts, rule.condition, s, t);
      var r, q := CheckCond(I, rule.condition, s), CheckCond(I, rule.condition, t);
      ActionsAlike(I, rel, conds, acts, rule.actions, r.s, q.s);
  }

  lemma {:induction false} LoopsAlike<Ctx(!new)>(
      I: Interp<Ctx>, rel: Rel<Ctx>, conds: set<Id>, acts: set<Id>, cs: seq<Cond>,
      s: State<Ctx>, t: State<Ctx>, isAny: bool)
    requires Respects(I, rel, conds, acts) && rel(s, t)
    requires forall i :: 0 <= i < |cs| ==> CondIds(cs[i]) <= conds && ActionIds(cs[i]) <= acts
    ensures Alike(rel, CheckAny(I, cs, s, isAny), CheckAny(I, cs, t, isAny))
    ensures Alike(rel, CheckAll(I, cs, s), CheckAll(I, cs, t))
    ensures Alike(rel, CheckNone(I, cs, s), CheckNone(I, cs, t))
    decreases cs, 0
  {
    if cs != [] {
      CheckAlike(I, rel, conds, acts, cs[0], s, t);
      var r, q := CheckCond(I, cs[0], s), CheckCond(I, cs[0], t);
      LoopsAlike(I, rel, conds, acts, cs[1..], r.s, q.s, isAny || r.ok);
    }
  }

  predicate ActionsIn(rules: RuleCatalog, acts: set<Id>) {
    forall i :: 0 <= i < |rules| ==> forall a <- rules[i].actions :: a in acts
  }

  lemma {:induction false} MatchedAlike<Ctx(!new)>(
      I: Interp<Ctx>, rel: Rel<Ctx>, conds: set<Id>, acts: set<Id>, matched: RuleCatalog, s: State<Ctx>, t: State<Ctx>)
    requires Respects(I, rel, conds, acts) && rel(s, t)
    requires ActionsIn(matched, acts)
    ensures RanAlike(rel, RunMatched(I, matched, s), RunMatched(I, matched, t))
    decreases matched
  {
    if matched != [] {
      ActionsAlike(I, rel, conds, acts, matched[0].actions, s, t);
      var r, q := RunActions(I, matched[0].actions, s), RunActions(I, matched[0].actions, t);
      MatchedAlike(I, rel, conds, acts, matched[1..], r.s, q.s);
    }
  }

  lemma FinishAlike<Ctx(!new)>(
      I: Interp<Ctx>, rel: Rel<Ctx>, conds: set<Id>, acts: set<Id>, matched: RuleCatalog, s: State<Ctx>, t: State<Ctx>)
    requires Respects(I, rel, conds, acts) && rel(s, t)
    requires ActionsIn(matched, acts)
    ensures RanAlike(rel, Finish(I, matched, s), Finish(I, matched, t))
  {
    MatchedAlike(I, rel, conds, acts, matched, s, t);
    if matched != [] {
      ActionsAlike(I, rel, conds, acts, matched[0].actions, s, t);
    }
  }

  /** Checking a rule of the catalog in related states has related outcomes. */
  ghost predicate RulesRespect<Ctx(!new)>(I: Interp<Ctx>, rel: Rel<Ctx>, rules: RuleCatalog) {
    forall s, t, i {:trigger CheckCond(I, rules[i].condition, s), CheckCond(I, rules[i].condition, t)} ::
      0 <= i < |rules| && rel(s, t) ==>
      Alike(rel, CheckCond(I, rules[i].condition, s), CheckCond(I, rules[i].condition, t))
  }

  lemma {:induction false} RunAlike<Ctx(!new)>(
      I: Interp<Ctx>, rel: Rel<Ctx>, conds: set<Id>, acts: set<Id>,
      rules: RuleCatalog, matched: RuleCatalog, s: State<Ctx>, t: State<Ctx>)
    requires Respects(I, rel, conds, acts) && rel(s, t) && RulesRespect(I, rel, rules)
    requires ActionsIn(rules, acts) && ActionsIn(matched, acts)
    ensures RanAlike(rel, RunCatalog(I, rules, matched, s), RunCatalog(I, rules, matched, t))
    decreases rules
  {
    if rules == [] {
      FinishAlike(I, rel, conds, acts, matched, s, t);
    } else {
      var r, q := CheckCond(I, rules[0].condition, s), CheckCond(I, rules[0].condition, t);
      RulesRespectRest(I, rel, rules);
      RunAlike(I, rel, conds, acts, rules[1..], matched, r.s, q.s);
      RunAlike(I, rel, conds, acts, rules[1..], matched + [rules[0]], r.s, q.s);
    }
  }

  lemma RulesRespectRest<Ctx(!new)>(I: Interp<Ctx>, rel: Rel<Ctx>, rules: RuleCatalog)
    requires rules != [] && RulesRespect(I, rel, rules)
    ensures RulesRespect(I, rel, rules[1..])
  {
    forall s, t, i | 0 <= i < |rules| - 1 && rel(s, t)
      ensures Alike(rel, CheckCond(I, rules[1..][i].condition, s), CheckCond(I, rules[1..][i].condition, t))
    {
      assert rules[1..][i] == rules[i + 1];
    }
  }
}
