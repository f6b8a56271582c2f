/**
 The rule engine (magefiles/rulesengine/types.go).

 Conditions are trees of Any, All and None over condition functions and whole
 rules; evaluating a nested rule runs its actions. The context is a type
 parameter, and what condition functions and actions do to it is given by an
 Interp, which may depend on every call made so far (recorded in the log). So a
 statement about all Interps covers every outside world, including one that
 fails or changes its answers.
 */
module RulesEngine {
  import opened GoStrings
  import opened Names

  type Error = string

  datatype Cond =
    | Func(id: Id)
    | Any(cs: seq<Cond>)
    | All(cs: seq<Cond>)
    | NoneOf(cs: seq<Cond>)
    | Sub(rule: Rule)

  datatype Rule = Rule(name: string, condition: Cond, actions: seq<Id>)

  type RuleCatalog = seq<Rule>

  /** One call out of the engine, with the error it returned. */
  datatype Call =
    | Checked(id: Id, err: Option<Error>)
    | Executed(id: Id, err: Option<Error>)

  /** The rule context: the data the rules use, the dry-run flag, and the calls made so far. */
  datatype State<Ctx> = State(ctx: Ctx, dryRun: bool, log: seq<Call>)

  datatype Answer<Ctx> = Answer(ctx: Ctx, ok: bool, err: Option<Error>)
  datatype Effect<Ctx> = Effect(ctx: Ctx, err: Option<Error>)

  datatype Interp<!Ctx> = Interp(
    check: (Id, State<Ctx>) -> Answer<Ctx>,
    exec: (Id, State<Ctx>) -> Effect<Ctx>)

  datatype Outcome<Ctx> = Outcome(s: State<Ctx>, ok: bool, err: Option<Error>)
  datatype Ran<Ctx> = Ran(s: State<Ctx>, err: Option<Error>)

  // ----- The evaluator as a function -----

  function CallCheck<Ctx>(I: Interp<Ctx>, id: Id, s: State<Ctx>): Outcome<Ctx> {
    var a := I.check(id, s);
    Outcome(State(a.ctx, s.dryRun, s.log + [Checked(id, a.err)]), a.ok, a.err)
  }

  function CallExec<Ctx>(I: Interp<Ctx>, id: Id, s: State<Ctx>): Ran<Ctx> {
    var e := I.exec(id, s);
    Ran(State(e.ctx, s.dryRun, s.log + [Executed(id, e.err)]), e.err)
  }

  function RunActions<Ctx>(I: Interp<Ctx>, actions: seq<Id>, s: State<Ctx>): Ran<Ctx>
    decreases actions
  {
    if actions == [] then Ran(s, None)
    else
      var r := CallExec(I, actions[0], s);
      if r.err.Some? then r else RunActions(I, actions[1..], r.s)
  }

  function CheckCond<Ctx>(I: Interp<Ctx>, c: Cond, s: State<Ctx>): Outcome<Ctx>
    decreases c, 1
  {
    match c
    case Func(id) => CallCheck(I, id, s)
    case Any(cs) => CheckAny(I, cs, s, false)
    case All(cs) => CheckAll(I, cs, s)
    case NoneOf(cs) => CheckNone(I, cs, s)
    case Sub(r) => CheckRule(I, r, s)
  }

  function CheckAny<Ctx>(I: Interp<Ctx>, cs: seq<Cond>, s: State<Ctx>, isAny: bool): Outcome<Ctx>
    decreases cs, 0
  {
    if cs == [] then Outcome(s, isAny, None)
    else
      var r := CheckCond(I, cs[0], s);
      if r.err.Some? then Outcome(r.s, false, r.err) else CheckAny(I, cs[1..], r.s, isAny || r.ok)
  }

  function CheckAll<Ctx>(I: Interp<Ctx>, cs: seq<Cond>, s: State<Ctx>): Outcome<Ctx>
    decreases cs, 0
  {
    if cs == [] then Outcome(s, true, None)
    else
      var r := CheckCond(I, cs[0], s);
      if r.err.Some? || !r.ok then r else CheckAll(I, cs[1..], r.s)
  }

  function CheckNone<Ctx>(I: Interp<Ctx>, cs: seq<Cond>, s: State<Ctx>): Outcome<Ctx>
    decreases cs, 0
  {
    if cs == [] then Outcome(s, true, None)
    else
      var r := CheckCond(I, cs[0], s);
      if r.err.Some? then r
      else if r.ok then Outcome(r.s, false, None)
      else CheckNone(I, cs[1..], r.s)
  }

  function CheckRule<Ctx>(I: Interp<Ctx>, rule: Rule, s: State<Ctx>): Outcome<Ctx>
    decreases rule, 0
  {
    var r := CheckCond(I, rule.condition, s);
    if r.err.Some? then Outcome(r.s, false, r.err)
    else if !r.ok then Outcome(r.s, false, None)
    else
      var a := RunActions(I, rule.actions, r.s);
      Outcome(a.s, a.err.None? || r.s.dryRun, a.err)
  }

  /** `run`: the actions of every matched rule. */
  function RunMatched<Ctx>(I: Interp<Ctx>, matched: RuleCatalog, s: State<Ctx>): Ran<Ctx>
    decreases matched
  {
    if matched == [] then Ran(s, None)
    else
      var r := RunActions(I, matched[0].actions, s);
      if r.err.Some? then r else RunMatched(I, matched[1..], r.s)
  }

  /** The end of `runLoadedCatalog`; a dry run applies the first matched rule only. */
  function Finish<Ctx>(I: Interp<Ctx>, matched: RuleCatalog, s: State<Ctx>): Ran<Ctx> {
    if matched == [] then Ran(s, None)
    else if s.dryRun then RunActions(I, matched[0].actions, s)
    else RunMatched(I, matched, s)
  }

  function RunCatalog<Ctx>(I: Interp<Ctx>, rules: RuleCatalog, matched: RuleCatalog, s: State<Ctx>): Ran<Ctx>
    decreases rules
  {
    if rules == [] then Finish(I, matched, s)
    else
      var r := CheckCond(I, rules[0].condition, s);
      if r.err.Some? then Ran(r.s, r.err)
      else if rules[0].actions == [] then
        if r.ok then Ran(r.s, None) else RunCatalog(I, rules[1..], matched, r.s)
      else RunCatalog(I, rules[1..], if r.ok then matched + [rules[0]] else matched, r.s)
  }

  // ----- The evaluator as the source writes it -----

  class Engine<Ctx> {
    var s: State<Ctx>
    const I: Interp<Ctx>

    constructor (I: Interp<Ctx>, s: State<Ctx>)
      ensures this.I == I && this.s == s
    {
      this.I := I;
      this.s := s;
    }

    method CheckFunc(id: Id) returns (ok: bool, err: Option<Error>)
      modifies this
      ensures Outcome(s, ok, err) == CallCheck(I, id, old(s))
    {
      var a := I.check(id, s);
      s := State(a.ctx, s.dryRun, s.log + [Checked(id, a.err)]);
      return a.ok, a.err;
    }

    method Execute(id: Id) returns (err: Option<Error>)
      modifies this
      ensures Ran(s, err) == CallExec(I, id, old(s))
    {
      var e := I.exec(id, s);
      s := State(e.ctx, s.dryRun, s.log + [Executed(id, e.err)]);
      return e.err;
    }

    method Check(c: Cond) returns (ok: bool, err: Option<Error>)
      modifies this
      ensures Outcome(s, ok, err) == CheckCond(I, c, old(s))
      decreases c, 1
    {
      match c {
        case Func(id) => ok, err := CheckFunc(id);
        case Any(cs) => ok, err := CheckAnyOf(cs);
        case All(cs) => ok, err := CheckAllOf(cs);
        case NoneOf(cs) => ok, err := CheckNoneOf(cs);
        case Sub(rule) => ok, err := CheckNested(rule);
      }
    }

    method CheckAnyOf(cs: seq<Cond>) returns (ok: bool, err: Option<Error>)
      modifies this
      ensures Outcome(s, ok, err) == CheckAny(I, cs, old(s), false)
      decreases cs, 0
    {
      var isAny := false;
      for i := 0 to |cs|
        invariant CheckAny(I, cs[i..], s, isAny) == CheckAny(I, cs, old(s), false)
      {
        assert cs[i..][1..] == cs[i + 1..];
        ok, err := Check(cs[i]);
        if err.Some? {
          return false, err;
        }
        if ok {
          isAny := true;
        }
      }
      return isAny, None;
    }

    method CheckAllOf(cs: seq<Cond>) returns (ok: bool, err: Option<Error>)
      modifies this
      ensures Outcome(s, ok, err) == CheckAll(I, cs, old(s))
      decreases cs, 0
    {
      for i := 0 to |cs|
        invariant CheckAll(I, cs[i..], s) == CheckAll(I, cs, old(s))
      {
        assert cs[i..][1..] == cs[i + 1..];
        ok, err := Check(cs[i]);
        if err.Some? {
          return ok, err;
        }
        if !ok {
          return ok, None;
        }
      }
      return true, None;
    }

    method CheckNoneOf(cs: seq<Cond>) returns (ok: bool, err: Option<Error>)
      modifies this
      ensures Outcome(s, ok, err) == CheckNone(I, cs, old(s))
      decreases cs, 0
    {
      for i := 0 to |cs|
        invariant CheckNone(I, cs[i..], s) == CheckNone(I, cs, old(s))
      {
        assert cs[i..][1..] == cs[i + 1..];
        ok, err := Check(cs[i]);
        if err.Some? {
          return ok, err;
        }
        if ok {
          return !ok, None;
        }
      }
      return true, None;
    }

    method Apply(rule: Rule) returns (err: Option<Error>)
      modifies this
      ensures Ran(s, err) == RunActions(I, rule.actions, old(s))
    {
      for i := 0 to |rule.actions|
        invariant RunActions(I, rule.actions[i..], s) == RunActions(I, rule.actions, old(s))
      {
        assert rule.actions[i..][1..] == rule.actions[i + 1..];
        err := Execute(rule.actions[i]);
        if err.Some? {
          return;
        }
      }
      return None;
    }

    method DryRun(rule: Rule) returns (err: Option<Error>)
      modifies this
      ensures Ran(s, err) == RunActions(I, rule.actions, old(s).(dryRun := true))
    {
      s := s.(dryRun := true);
      err := Apply(rule);
    }

    method CheckNested(rule: Rule) returns (ok: bool, err: Option<Error>)
      modifies this
      ensures Outcome(s, ok, err) == CheckRule(I, rule, old(s))
      decreases rule, 0
    {
      ok, err := Check(rule.condition);
      if err.Some? {
        return false, err;
      }
      if ok {
        if s.dryRun {
          assert s == s.(dryRun := true);
          err := DryRun(rule);
          return true, err;
        }
        err := Apply(rule);
        if err.Some? {
          return false, err;
        }
        return true, None;
      }
      return false, None;
    }

    method RunAll(matched: RuleCatalog) returns (err: Option<Error>)
      modifies this
      ensures Ran(s, err) == RunMatched(I, matched, old(s))
    {
      for i := 0 to |matched|
        invariant RunMatched(I, matched[i..], s) == RunMatched(I, matched, old(s))
      {
        assert matched[i..][1..] == matched[i + 1..];
        err := Apply(matched[i]);
        if err.Some? {
          return;
        }
      }
      return None;
    }

    method RunLoadedCatalog(loaded: RuleCatalog) returns (err: Option<Error>)
      modifies this
      ensures Ran(s, err) == RunCatalog(I, loaded, [], old(s))
    {
      var matched: RuleCatalog := [];
      for i := 0 to |loaded|
        invariant RunCatalog(I, loaded[i..], matched, s) == RunCatalog(I, loaded, [], old(s))
      {
        assert loaded[i..][1..] == loaded[i + 1..];
        var rule := loaded[i];
        var ok;
        ok, err := Check(rule.condition);
        if err.Some? {
          return;
        }
        if |rule.actions| == 0 {
          if ok {
            return None;
          }
          continue;
        }
        if ok {
          matched := matched + [rule];
        }
      }
      if |matched| == 0 {
        return None;
      }
      if s.dryRun {
        assert s == s.(dryRun := true);
        err := DryRun(matched[0]);
        return;
      }
      err := RunAll(matched);
    }
  }
}
