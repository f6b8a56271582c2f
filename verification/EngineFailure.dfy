/**
 What a failing call does to a run of the rule engine, for every catalog and
 every outside world: the run stops there, reports that very error, and has made
 a prefix of the calls it would have made had the call succeeded.
 */
module EngineFailure {
  import opened GoStrings
  import opened Names
  import opened RulesEngine

  // ----- The first failure ends the run and is returned -----

  /** `log` continues `before`, and only its last call may have failed: with `err`. */
  predicate Faithful(before: seq<Call>, log: seq<Call>, err: Option<Error>) {
    && before <= log
    && (forall i :: |before| <= i < |log| - 1 ==> log[i].err.None?)
    && (|before| < |log| ==> log[|log| - 1].err == err)
    && (|before| == |log| ==> err.None?)
  }

  lemma FaithfulSteps(a: seq<Call>, b: seq<Call>, c: seq<Call>, err: Option<Error>)
    requires Faithful(a, b, None) && Faithful(b, c, err)
    ensures Faithful(a, c, err)
  {
    assert forall i :: 0 <= i < |b| ==> c[i] == b[i];
  }

  lemma {:induction false} ActionsFaithful<Ctx>(I: Interp<Ctx>, actions: seq<Id>, s: State<Ctx>)
    ensures var r := RunActions(I, actions, s); Faithful(s.log, r.s.log, r.err)
    decreases actions
  {
    if actions != [] {
      var r := CallExec(I, actions[0], s);
      if r.err.None? {
        ActionsFaithful(I, actions[1..], r.s);
        FaithfulSteps(s.log, r.s.log, RunActions(I, actions, s).s.log, RunActions(I, actions, s).err);
      }
    }
  }

  lemma {:induction false} CheckFaithful<Ctx>(I: Interp<Ctx>, c: Cond, s: State<Ctx>)
    ensures var r := CheckCond(I, c, s); Faithful(s.log, r.s.log, r.err)
    decreases c, 1
  {
    match c
    case Func(id) =>
    case Any(cs) => AnyFaithful(I, cs, s, false);
    case All(cs) => AllFaithful(I, cs, s);
    case NoneOf(cs) => NoneFaithful(I, cs, s);
    case Sub(rule) =>
      CheckFaithful(I, rule.condition, s);
      var r := CheckCond(I, rule.condition, s);
      if r.err.None? && r.ok {
        ActionsFaithful(I, rule.actions, r.s);
        var a := RunActions(I, rule.actions, r.s);
        FaithfulSteps(s.log, r.s.log, a.s.log, a.err);
      }
  }

  lemma {:induction false} AnyFaithful<Ctx>(I: Interp<Ctx>, cs: seq<Cond>, s: State<Ctx>, isAny: bool)
    ensures var r := CheckAny(I, cs, s, isAny); Faithful(s.log, r.s.log, r.err)
    decreases cs, 0
  {
    if cs != [] {
      CheckFaithful(I, cs[0], s);
      var r := CheckCond(I, cs[0], s);
      if r.err.None? {
        AnyFaithful(I, cs[1..], r.s, isAny || r.ok);
        var rest := CheckAny(I, cs[1..], r.s, isAny || r.ok);
        FaithfulSteps(s.log, r.s.log, rest.s.log, rest.err);
      }
    }
  }

  lemma {:induction false} AllFaithful<Ctx>(I: Interp<Ctx>, cs: seq<Cond>, s: State<Ctx>)
    ensures var r := CheckAll(I, cs, s); Faithful(s.log, r.s.log, r.err)
    decreases cs, 0
  {
    if cs != [] {
      CheckFaithful(I, cs[0], s);
      var r := CheckCond(I, cs[0], s);
      if r.err.None? && r.ok {
        AllFaithful(I, cs[1..], r.s);
        var rest := CheckAll(I, cs[1..], r.s);
        FaithfulSteps(s.log, r.s.log, rest.s.log, rest.err);
      }
    }
  }

  lemma {:induction false} NoneFaithful<Ctx>(I: Interp<Ctx>, cs: seq<Cond>, s: State<Ctx>)
    ensures var r := CheckNone(I, cs, s); Faithful(s.log, r.s.log, r.err)
    decreases cs, 0
  {
    if cs != [] {
      CheckFaithful(I, cs[0], s);
      var r := CheckCond(I, cs[0], s);
      if r.err.None? && !r.ok {
        NoneFaithful(I, cs[1..], r.s);
        var rest := CheckNone(I, cs[1..], r.s);
        FaithfulSteps(s.log, r.s.log, rest.s.log, rest.err);
      }
    }
  }

  lemma {:induction false} MatchedFaithful<Ctx>(I: Interp<Ctx>, matched: RuleCatalog, s: State<Ctx>)
    ensures var r := RunMatched(I, matched, s); Faithful(s.log, r.s.log, r.err)
    decreases matched
  {
    if matched != [] {
      ActionsFaithful(I, matched[0].actions, s);
      var r := RunActions(I, matched[0].actions, s);
      if r.err.None? {
        MatchedFaithful(I, matched[1..], r.s);
        var rest := RunMatched(I, matched[1..], r.s);
        FaithfulSteps(s.log, r.s.log, rest.s.log, rest.err);
      }
    }
  }

  /** Every call of an engine run but the last succeeded, and the run returns the last call's error. */
  lemma {:induction false} RunFaithful<Ctx>(I: Interp<Ctx>, rules: RuleCatalog, matched: RuleCatalog, s: State<Ctx>)
    ensures var r := RunCatalog(I, rules, matched, s); Faithful(s.log, r.s.log, r.err)
    decreases rules
  {
    if rules == [] {
      MatchedFaithful(I, matched, s);
      if matched != [] { ActionsFaithful(I, matched[0].actions, s); }
    } else {
      CheckFaithful(I, rules[0].condition, s);
      var r := CheckCond(I, rules[0].condition, s);
      if r.err.None? && !(rules[0].actions == [] && r.ok) {
        var matched' := if rules[0].actions != [] && r.ok then matched + [rules[0]] else matched;
        RunFaithful(I, rules[1..], matched', r.s);
        var rest := RunCatalog(I, rules[1..], matched', r.s);
        FaithfulSteps(s.log, r.s.log, rest.s.log, rest.err);
      }
    }
  }

  // ----- A failing run is a prefix of the run that goes on -----

  /** What was called, without the answers. */
  function Calls(log: seq<Call>): (r: seq<Call>)
    ensures |r| == |log|
  {
    seq(|log|, i requires 0 <= i < |log| => log[i].(err := None))
  }

  /** `J` answers every call that succeeds in `I` as `I` does; failing calls it may answer in any way. */
  ghost predicate Repairs<Ctx(!new)>(I: Interp<Ctx>, J: Interp<Ctx>) {
    && (forall id, s :: I.check(id, s).err.None? ==> J.check(id, s) == I.check(id, s))
    && (forall id, s :: I.exec(id, s).err.None? ==> J.exec(id, s) == I.exec(id, s))
  }

  lemma CallsPrefix(a: seq<Call>, b: seq<Call>, c: seq<Call>)
    requires Calls(a) <= Calls(b) && b <= c
    ensures Calls(a) <= Calls(c)
  {
    assert forall i :: 0 <= i < |b| ==> Calls(c)[i] == Calls(b)[i];
  }

  lemma {:induction false} ActionsPrefix<Ctx(!new)>(I: Interp<Ctx>, J: Interp<Ctx>, actions: seq<Id>, s: State<Ctx>)
    requires Repairs(I, J)
    ensures var r, q := RunActions(I, actions, s), RunActions(J, actions, s);
            (r.err.None? ==> q == r) && Calls(r.s.log) <= Calls(q.s.log)
    decreases actions
  {
    if actions != [] {
      var r, q := CallExec(I, actions[0], s), CallExec(J, actions[0], s);
      if r.err.None? {
        ActionsPrefix(I, J, actions[1..], r.s);
      } else {
        assert Calls(r.s.log) == Calls(q.s.log);
        ActionsFaithful(J, actions[1..], q.s);
        CallsPrefix(r.s.log, q.s.log, RunActions(J, actions, s).s.log);
      }
    }
  }

  lemma {:induction false} CheckPrefix<Ctx(!new)>(I: Interp<Ctx>, J: Interp<Ctx>, c: Cond, s: State<Ctx>)
    requires Repairs(I, J)
    ensures var r, q := CheckCond(I, c, s), CheckCond(J, c, s);
            (r.err.None? ==> q == r) && Calls(r.s.log) <= Calls(q.s.log)
    decreases c, 1
  {
    match c
    case Func(id) => assert Calls(CallCheck(I, id, s).s.log) == Calls(CallCheck(J, id, s).s.log);
    case Any(cs) => AnyPrefix(I, J, cs, s, false);
    case All(cs) => AllPrefix(I, J, cs, s);
    case NoneOf(cs) => NonePrefix(I, J, cs, s);
    case Sub(rule) =>
      CheckPrefix(I, J, rule.condition, s);
      var r, q := CheckCond(I, rule.condition, s), CheckCond(J, rule.condition, s);
      if r.err.None? {
        ActionsPrefix(I, J, rule.actions, r.s);
      } else if q.err.None? && q.ok {
        ActionsFaithful(J, rule.actions, q.s);
        CallsPrefix(r.s.log, q.s.log, RunActions(J, rule.actions, q.s).s.log);
      }
  }

  lemma {:induction false} AnyPrefix<Ctx(!new)>(I: Interp<Ctx>, J: Interp<Ctx>, cs: seq<Cond>, s: State<Ctx>, isAny: bool)
    requires Repairs(I, J)
    ensures var r, q := CheckAny(I, cs, s, isAny), CheckAny(J, cs, s, isAny);
            (r.err.None? ==> q == r) && Calls(r.s.log) <= Calls(q.s.log)
    decreases cs, 0
  {
    if cs != [] {
      CheckPrefix(I, J, cs[0], s);
      var r, q := CheckCond(I, cs[0], s), CheckCond(J, cs[0], s);
      if r.err.None? {
        AnyPrefix(I, J, cs[1..], r.s, isAny || r.ok);
      } else if q.err.None? {
        AnyFaithful(J, cs[1..], q.s, isAny || q.ok);
        CallsPrefix(r.s.log, q.s.log, CheckAny(J, cs, s, isAny).s.log);
      }
    }
  }

  lemma {:induction false} AllPrefix<Ctx(!new)>(I: Interp<Ctx>, J: Interp<Ctx>, cs: seq<Cond>, s: State<Ctx>)
    requires Repairs(I, J)
    ensures var r, q := CheckAll(I, cs, s), CheckAll(J, cs, s);
            (r.err.None? ==> q == r) && Calls(r.s.log) <= Calls(q.s.log)
    decreases cs, 0
  {
    if cs != [] {
      CheckPrefix(I, J, cs[0], s);
      var r, q := CheckCond(I, cs[0], s), CheckCond(J, cs[0], s);
      if r.err.None? {
        if r.ok { AllPrefix(I, J, cs[1..], r.s); }
      } else if q.err.None? && q.ok {
        AllFaithful(J, cs[1..], q.s);
        CallsPrefix(r.s.log, q.s.log, CheckAll(J, cs, s).s.log);
      }
    }
  }

  lemma {:induction false} NonePrefix<Ctx(!new)>(I: Interp<Ctx>, J: Interp<Ctx>, cs: seq<Cond>, s: State<Ctx>)
    requires Repairs(I, J)
    ensures var r, q := CheckNone(I, cs, s), CheckNone(J, cs, s);
            (r.err.None? ==> q == r) && Calls(r.s.log) <= Calls(q.s.log)
    decreases cs, 0
  {
    if cs != [] {
      CheckPrefix(I, J, cs[0], s);
      var r, q := CheckCond(I, cs[0], s), CheckCond(J, cs[0], s);
      if r.err.None? {
        if !r.ok { NonePrefix(I, J, cs[1..], r.s); }
      } else if q.err.None? && !q.ok {
        NoneFaithful(J, cs[1..], q.s);
        CallsPrefix(r.s.log, q.s.log, CheckNone(J, cs, s).s.log);
      }
    }
  }

  lemma {:induction false} MatchedPrefix<Ctx(!new)>(I: Interp<Ctx>, J: Interp<Ctx>, matched: RuleCatalog, s: State<Ctx>)
    requires Repairs(I, J)
    ensures var r, q := RunMatched(I, matched, s), RunMatched(J, matched, s);
            (r.err.None? ==> q == r) && Calls(r.s.log) <= Calls(q.s.log)
    decreases matched
  {
    if matched != [] {
      ActionsPrefix(I, J, matched[0].actions, s);
      var r, q := RunActions(I, matched[0].actions, s), RunActions(J, matched[0].actions, s);
      if r.err.None? {
        MatchedPrefix(I, J, matched[1..], r.s);
      } else if q.err.None? {
        MatchedFaithful(J, matched[1..], q.s);
        CallsPrefix(r.s.log, q.s.log, RunMatched(J, matched, s).s.log);
      }
    }
  }

  /**
   For every catalog: a run in which no call fails is unchanged by repairs, and a
   run that fails has made a prefix of the calls of any repaired run.
   */
  lemma {:induction false} FailurePrefix<Ctx(!new)>(
      I: Interp<Ctx>, J: Interp<Ctx>, rules: RuleCatalog, matched: RuleCatalog, s: State<Ctx>)
    requires Repairs(I, J)
    ensures var r, q := RunCatalog(I, rules, matched, s), RunCatalog(J, rules, matched, s);
            (r.err.None? ==> q == r) && Calls(r.s.log) <= Calls(q.s.log)
    decreases rules
  {
    if rules == [] {
      MatchedPrefix(I, J, matched, s);
      if matched != [] { ActionsPrefix(I, J, matched[0].actions, s); }
    } else {
      var rule := rules[0];
      CheckPrefix(I, J, rule.condition, s);
      var r, q := CheckCond(I, rule.condition, s), CheckCond(J, rule.condition, s);
      if r.err.None? {
        if !(rule.actions == [] && r.ok) {
          FailurePrefix(I, J, rules[1..], if rule.actions != [] && r.ok then matched + [rule] else matched, r.s);
        }
      } else if q.err.None? && !(rule.actions == [] && q.ok) {
        RunFaithful(J, rules[1..], if rule.actions != [] && q.ok then matched + [rule] else matched, q.s);
        CallsPrefix(r.s.log, q.s.log, RunCatalog(J, rules, matched, s).s.log);
      }
    }
  }
}
