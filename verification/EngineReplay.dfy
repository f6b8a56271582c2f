/**
 When actions change the context and conditions do not, the context after a run is
 the initial one with the executed actions replayed on it.
 */
module EngineReplay {
  import opened Names
  import opened RulesEngine
  import opened EngineMeaning
  import opened EngineRelations

  /** What an action does to the context. */
  type Act<!Ctx> = (Id, Ctx) -> Ctx

  function Replay<Ctx>(f: Act<Ctx>, actions: seq<Id>, ctx: Ctx): Ctx
    decreases actions
  {
    if actions == [] then ctx else Replay(f, actions[1..], f(actions[0], ctx))
  }

  /** Conditions leave the context alone, and `f` is what actions do to it, in a dry run and otherwise. */
  ghost predicate Plain<Ctx(!new)>(I: Interp<Ctx>, f: bool -> Act<Ctx>) {
    forall id, s :: I.check(id, s).ctx == s.ctx && I.exec(id, s).ctx == f(s.dryRun)(id, s.ctx)
  }

  lemma {:induction false} ReplayConcat<Ctx>(f: Act<Ctx>, a: seq<Id>, b: seq<Id>, ctx: Ctx)
    ensures Replay(f, a + b, ctx) == Replay(f, b, Replay(f, a, ctx))
    decreases a
  {
    if a == [] {
      assert a + b == b;
    } else {
      assert (a + b)[0] == a[0] && (a + b)[1..] == a[1..] + b;
      ReplayConcat(f, a[1..], b, f(a[0], ctx));
    }
  }

  /** `t` is reached from `s` by replaying the actions logged since. */
  ghost predicate Replayed<Ctx>(f: bool -> Act<Ctx>, s: State<Ctx>, t: State<Ctx>) {
    && t.dryRun == s.dryRun && Actions(s.log) <= Actions(t.log)
    && t.ctx == Replay(f(s.dryRun), Actions(t.log)[|Actions(s.log)|..], s.ctx)
  }

  lemma ReplayedKept<Ctx(!new)>(I: Interp<Ctx>, f: bool -> Act<Ctx>, s: State<Ctx>)
    requires Plain(I, f)
    ensures Keeps(I, (t: State<Ctx>) => Replayed(f, s, t))
  {
    forall t, id | Replayed(f, s, t) ensures Replayed(f, s, CallCheck(I, id, t).s) { CheckReplayed(I, f, s, t, id); }
    forall t, id | Replayed(f, s, t) ensures Replayed(f, s, CallExec(I, id, t).s) { ExecReplayed(I, f, s, t, id); }
  }

  lemma CheckReplayed<Ctx(!new)>(I: Interp<Ctx>, f: bool -> Act<Ctx>, s: State<Ctx>, t: State<Ctx>, id: Id)
    requires Plain(I, f) && Replayed(f, s, t)
    ensures Replayed(f, s, CallCheck(I, id, t).s)
  {
    ActionsSnoc(t.log, Checked(id, I.check(id, t).err));
    assert Actions(t.log) + [] == Actions(t.log);
  }

  lemma ExecReplayed<Ctx(!new)>(I: Interp<Ctx>, f: bool -> Act<Ctx>, s: State<Ctx>, t: State<Ctx>, id: Id)
    requires Plain(I, f) && Replayed(f, s, t)
    ensures Replayed(f, s, CallExec(I, id, t).s)
  {
    var n, since := |Actions(s.log)|, Actions(t.log)[|Actions(s.log)|..];
    ActionsSnoc(t.log, Executed(id, I.exec(id, t).err));
    assert (Actions(t.log) + [id])[n..] == since + [id];
    ReplayConcat(f(s.dryRun), since, [id], s.ctx);
    assert [id][1..] == [];
  }

  lemma ReplayedStart<Ctx>(f: bool -> Act<Ctx>, s: State<Ctx>)
    ensures Replayed(f, s, s)
  {
    assert Actions(s.log)[|Actions(s.log)|..] == [];
  }

  /** The context a run of the engine ends with. */
  lemma RunReplays<Ctx(!new)>(I: Interp<Ctx>, f: bool -> Act<Ctx>, rules: RuleCatalog, s: State<Ctx>)
    requires Plain(I, f)
    ensures Replayed(f, s, RunCatalog(I, rules, [], s).s)
  {
    ReplayedKept(I, f, s);
    ReplayedStart(f, s);
    RunKeeps(I, (t: State<Ctx>) => Replayed(f, s, t), rules, [], s);
  }

  /**
   The optional-step idiom on a rule whose actions are idempotent: it always holds,
   and the context afterwards is as if the rule had been checked once.
   */
  lemma OptionalStepOnce<Ctx(!new)>(
      I: Interp<Ctx>, f: bool -> Act<Ctx>, inv: State<Ctx> -> bool, v: Valuation, R: Rule, s: State<Ctx>)
    requires Plain(I, f) && Stable(I, inv, v, CondIds(Sub(R)), ActionIds(Sub(R))) && inv(s)
    requires var once, act := Trace(Sub(R), v), f(s.dryRun);
             Replay(act, once, Replay(act, once, s.ctx)) == Replay(act, once, s.ctx)
    ensures var single := CheckCond(I, Sub(R), s).s.ctx;
            && CheckCond(I, Any([Sub(R), NoneOf([Sub(R)])]), s).s.ctx == single
            && CheckCond(I, Any([NoneOf([Sub(R)]), Sub(R)]), s).s.ctx == single
  {
    var once := Trace(Sub(R), v);
    OptionalStep(I, inv, v, R, s);
    Meaning(I, inv, v, CondIds(Sub(R)), ActionIds(Sub(R)), Sub(R), s);
    DidReplays(I, f, inv, Sub(R), s, once);
    DidReplays(I, f, inv, Any([Sub(R), NoneOf([Sub(R)])]), s, once + once);
    DidReplays(I, f, inv, Any([NoneOf([Sub(R)]), Sub(R)]), s, once + once);
    ReplayConcat(f(s.dryRun), once, once, s.ctx);
  }

  lemma DidReplays<Ctx(!new)>(
      I: Interp<Ctx>, f: bool -> Act<Ctx>, inv: State<Ctx> -> bool, c: Cond, s: State<Ctx>, trace: seq<Id>)
    requires Plain(I, f) && Did(inv, s, CheckCond(I, c, s).s, trace)
    ensures CheckCond(I, c, s).s.ctx == Replay(f(s.dryRun), trace, s.ctx)
  {
    ReplayedKept(I, f, s);
    ReplayedStart(f, s);
    CheckKeeps(I, (t: State<Ctx>) => Replayed(f, s, t), c, s);
    assert (Actions(s.log) + trace)[|Actions(s.log)|..] == trace;
  }
}
