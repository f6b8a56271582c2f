/**
 What a `ci` run executes, repository by repository, when the catalogs are loaded in any
 order, nothing fails, and conditions keep their answers once the settings are made.
 */
module CIRuns {
  import opened GoStrings
  import opened Names
  import opened RulesEngine
  import opened EngineMeaning
  import opened E2ECatalog
  import opened E2ERun
  import opened CICatalogs
  import opened CIOrder

  // ----- What is executed -----

  function Steps(wanted: bool, actions: seq<Id>): seq<Id> {
    if wanted then actions else []
  }

  /** Test selection in the e2e-tests repository. */
  function SelectionSteps(v: Valuation): seq<Id> {
    var tests := !NonTestChanged(v) && !v(NothingChanged);
    Steps(!tests && !v(ReleasePipelinesTestsChanged), [ExecuteDefaultTests])
    + ((Steps(v(ReleaseHelpersOnly), [FocusOn(ReleaseHelpersOnly)])
        + Steps((NonTestChanged(v) || v(ReleaseHelpersOnly)) && v(ReleasePipelinesTestsChanged), [ExecuteAllButUpgrade]))
       + (Steps(tests, Focusing(FILE_IDS, v)) + Steps(tests && FileRuleHolds(v), [ExecuteTests])))
  }

  /** The cluster of the e2e-tests repository: each step only after the one before. */
  function BootstrapSteps(v: Valuation): seq<Id> {
    if !v(BootstrapWanted) then []
    else if !v(SprayProxyRequired) then [InstallKonflux]
    else if !v(MultiPlatformRequired) then [InstallKonflux, RegisterSprayProxy]
    else [InstallKonflux, RegisterSprayProxy, SetupMultiPlatform]
  }

  predicate BootstrapDone(v: Valuation) {
    v(BootstrapWanted) && v(SprayProxyRequired) && v(MultiPlatformRequired)
  }

  /** The cluster of a component repository. */
  function SprayProxySteps(v: Valuation): seq<Id> {
    if !v(BootstrapWanted) then []
    else if !v(SprayProxyRequired) then [InstallKonflux]
    else [InstallKonflux, RegisterSprayProxy]
  }

  /** What follows the installation of Ginkgo. */
  function AfterGinkgo(repo: string, v: Valuation): seq<Id> {
    if repo == "e2e-tests" then
      BootstrapSteps(v) + Steps(BootstrapDone(v), SelectionSteps(v))
    else if repo == "release-service" then
      Steps(v(BootstrapWanted), [InstallKonflux, InstallKonflux]) + [ExecuteTests]
    else if repo == "release-service-catalog" then
      Steps(v(BootstrapWanted), [InstallKonflux, InstallKonflux])
      + [if v(IsPaired) && !v(IsRehearse) then ExecuteCatalogPaired else ExecuteCatalog]
    else
      (SprayProxySteps(v) + SprayProxySteps(v)) + [ExecuteTests]
  }

  /** Everything a run executes for a repository. The optional steps are done twice. */
  function Expected(repo: string, v: Valuation): seq<Id> {
    if repo in ["e2e-tests", "release-service", "release-service-catalog",
                "integration-service", "image-controller", "build-service"] then
      [Settings(repo)] + (Steps(v(InfraPairingFound), [SetPairing, SetPairing])
      + Steps(v(PreflightOk), [InstallGinkgo] + AfterGinkgo(repo, v)))
    else []
  }

  // ----- Worlds in which nothing fails -----

  /** In the repository, before its settings are made: the guards answer as `v` says, and the settings lead into `inv`. */
  ghost predicate Settles<T(!new)>(I: Interp<CICtx<T>>, inv: State<CICtx<T>> -> bool, v: Valuation, repo: string) {
    && v(RepoIs(repo))
    && forall s: State<CICtx<T>> :: s.ctx.repo == repo ==>
         && I.check(IsPaired, s).ok == v(IsPaired) && I.check(IsRehearse, s).ok == v(IsRehearse)
         && CallExec(I, Settings(repo), s).err.None? && inv(CallExec(I, Settings(repo), s).s)
  }

  /** And from then on conditions answer as `v` says and nothing fails. */
  ghost predicate SmoothAt<T(!new)>(I: Interp<CICtx<T>>, inv: State<CICtx<T>> -> bool, v: Valuation, k: nat)
    requires k < COUNT
  {
    Settles(I, inv, v, REPOS[k]) && Stable(I, inv, v, CatalogConds(CatalogAt(k)), CatalogActs(CatalogAt(k)))
  }

  ghost predicate Smooth<T(!new)>(I: Interp<CICtx<T>>, inv: State<CICtx<T>> -> bool, v: Valuation, repo: string) {
    World(I) && forall k: nat :: k < COUNT && REPOS[k] == repo ==> SmoothAt(I, inv, v, k)
  }

  // ----- Conditions in sequence -----

  lemma TracesCons(c: Cond, cs: seq<Cond>, n: nat, v: Valuation)
    requires n <= |cs|
    ensures Traces([c] + cs, n + 1, v) == Trace(c, v) + Traces(cs, n, v)
  {
    assert ([c] + cs)[1..] == cs;
  }

  lemma VisitedCons(c: Cond, cs: seq<Cond>, v: Valuation)
    ensures Visited([c] + cs, v, false) == if Holds(c, v) then 1 + Visited(cs, v, false) else 1
  {
    assert ([c] + cs)[1..] == cs;
  }

  lemma HoldsCons(c: Cond, cs: seq<Cond>, v: Valuation)
    ensures Holds(All([c] + cs), v) <==> Holds(c, v) && Holds(All(cs), v)
  {
    var all := [c] + cs;
    assert all[0] == c;
    assert forall i :: 0 < i < |all| ==> all[i] == cs[i - 1];
    assert forall i :: 0 <= i < |cs| ==> cs[i] == all[i + 1];
  }

  lemma AllCons(c: Cond, cs: seq<Cond>, v: Valuation)
    ensures Holds(All([c] + cs), v) <==> Holds(c, v) && Holds(All(cs), v)
    ensures Trace(All([c] + cs), v) == Trace(c, v) + if Holds(c, v) then Trace(All(cs), v) else []
  {
    HoldsCons(c, cs, v);
    VisitedCons(c, cs, v);
    TracesCons(c, cs, if Holds(c, v) then Visited(cs, v, false) else 0, v);
  }

  lemma AllNone(v: Valuation)
    ensures Holds(All([]), v) && Trace(All([]), v) == []
  {
  }

  lemma AllOne(c: Cond, v: Valuation)
    ensures Holds(All([c]), v) <==> Holds(c, v)
    ensures Trace(All([c]), v) == Trace(c, v)
  {
    assert [c] == [c] + [];
    AllCons(c, [], v);
    AllNone(v);
  }

  lemma AllTwo(a: Cond, b: Cond, v: Valuation)
    ensures Holds(All([a, b]), v) <==> Holds(a, v) && Holds(b, v)
    ensures Trace(All([a, b]), v) == Trace(a, v) + if Holds(a, v) then Trace(b, v) else []
  {
    assert [a, b] == [a] + [b];
    AllCons(a, [b], v);
    AllOne(b, v);
  }

  /** Settings first, then the rest. */
  lemma SettingsThen<T(!new)>(
      I: Interp<CICtx<T>>, inv: State<CICtx<T>> -> bool, v: Valuation, conds: set<Id>, acts: set<Id>,
      repo: string, rest: seq<Cond>, s: State<CICtx<T>>)
    requires GuardsCompare(I) && Settles(I, inv, v, repo) && Stable(I, inv, v, conds, acts) && s.ctx.repo == repo
    requires CondIds(All(rest)) <= conds && ActionIds(All(rest)) <= acts
    ensures var r := CheckAll(I, [Sub(SettingsRule(repo))] + rest, s);
            && r.err.None? && r.ok == Holds(All(rest), v)
            && Did(inv, s, r.s, [Settings(repo)] + Trace(All(rest), v))
  {
    var first := CheckCond(I, Sub(SettingsRule(repo)), s);
    SettingsMade(I, inv, v, repo, s);
    CheckAllCons(I, Sub(SettingsRule(repo)), rest, s);
    Meaning(I, inv, v, conds, acts, All(rest), first.s);
    DidSteps(inv, s, first.s, CheckAll(I, rest, first.s).s, [Settings(repo)], Trace(All(rest), v));
  }

  lemma SettingsMade<T(!new)>(
      I: Interp<CICtx<T>>, inv: State<CICtx<T>> -> bool, v: Valuation, repo: string, s: State<CICtx<T>>)
    requires GuardsCompare(I) && Settles(I, inv, v, repo) && s.ctx.repo == repo
    ensures var r := CheckCond(I, Sub(SettingsRule(repo)), s);
            r.err.None? && r.ok && Did(inv, s, r.s, [Settings(repo)])
  {
    var t := CallCheck(I, RepoIs(repo), s).s;
    assert I.check(RepoIs(repo), s) == Answer(s.ctx, true, None);
    SubOne(I, SettingsRule(repo), RepoIs(repo), Settings(repo), s);
    LoggedCheckAndAction(s.log, RepoIs(repo), Settings(repo));
  }

  /** A rule with one condition and one action, when both succeed. */
  lemma SubOne<Ctx>(I: Interp<Ctx>, rule: Rule, id: Id, action: Id, s: State<Ctx>)
    requires rule.condition == Any([Func(id)]) && rule.actions == [action]
    requires I.check(id, s).err.None? && I.check(id, s).ok
    requires CallExec(I, action, CallCheck(I, id, s).s).err.None?
    ensures CheckCond(I, Sub(rule), s) == Outcome(CallExec(I, action, CallCheck(I, id, s).s).s, true, None)
  {
    AnyOne(I, Func(id), s);
    var t := CallCheck(I, id, s).s;
    assert [action][1..] == [];
    assert RunActions(I, [action], t) == RunActions(I, [], CallExec(I, action, t).s);
  }

  lemma LoggedCheckAndAction(log: seq<Call>, id: Id, action: Id)
    ensures Actions(log + [Checked(id, None)] + [Executed(action, None)]) == Actions(log) + [action]
  {
    ActionsSnoc(log, Checked(id, None));
    ActionsSnoc(log + [Checked(id, None)], Executed(action, None));
    assert Actions(log) + [] == Actions(log);
  }

  // ----- The steps of the workflows -----

  lemma FuncRule(rule: Rule, id: Id, v: Valuation)
    requires rule.condition == Func(id) || rule.condition == Any([Func(id)])
    ensures Holds(Sub(rule), v) == v(id)
    ensures Trace(Sub(rule), v) == Steps(v(id), rule.actions)
  {
    assert Trace(Func(id), v) == [];
    if rule.condition.Any? {
      var cs := [Func(id)];
      assert cs[0] == Func(id) && cs[1..] == [];
      assert Holds(Any(cs), v) == v(id);
      assert Traces(cs, 1, v) == Trace(Func(id), v) + [];
    }
  }

  lemma PairingMeans(v: Valuation)
    ensures Holds(OPTIONAL_PAIRING, v)
    ensures Trace(OPTIONAL_PAIRING, v) == Steps(v(InfraPairingFound), [SetPairing, SetPairing])
  {
    FuncRule(PAIRING, InfraPairingFound, v);
    OptionalParts(Sub(PAIRING), NoneOf([Sub(PAIRING)]), v);
  }

  lemma InstallMeans(v: Valuation)
    ensures Holds(OPTIONAL_INSTALL, v)
    ensures Trace(OPTIONAL_INSTALL, v) == Steps(v(BootstrapWanted), [InstallKonflux, InstallKonflux])
  {
    FuncRule(INSTALL, BootstrapWanted, v);
    OptionalParts(NoneOf([Sub(INSTALL)]), Sub(INSTALL), v);
  }

  lemma SprayProxyMeans(v: Valuation)
    ensures Holds(OPTIONAL_BOOTSTRAP, v)
    ensures Trace(OPTIONAL_BOOTSTRAP, v) == SprayProxySteps(v) + SprayProxySteps(v)
  {
    FuncRule(INSTALL, BootstrapWanted, v);
    FuncRule(REGISTER, SprayProxyRequired, v);
    AllTwo(Sub(INSTALL), Sub(REGISTER), v);
    assert Trace(Sub(BOOTSTRAP_SPRAY), v) == SprayProxySteps(v);
    OptionalParts(NoneOf([Sub(BOOTSTRAP_SPRAY)]), Sub(BOOTSTRAP_SPRAY), v);
  }

  lemma AllThree(a: Cond, b: Cond, c: Cond, v: Valuation)
    ensures Holds(All([a, b, c]), v) <==> Holds(a, v) && Holds(b, v) && Holds(c, v)
    ensures Trace(All([a, b, c]), v)
         == Trace(a, v) + if !Holds(a, v) then [] else Trace(b, v) + if Holds(b, v) then Trace(c, v) else []
  {
    assert [a, b, c] == [a] + [b, c];
    AllCons(a, [b, c], v);
    AllTwo(b, c, v);
  }

  lemma BootstrapMeans(v: Valuation)
    ensures Holds(Sub(BOOTSTRAP), v) <==> BootstrapDone(v)
    ensures Trace(Sub(BOOTSTRAP), v) == BootstrapSteps(v)
  {
    FuncRule(INSTALL, BootstrapWanted, v);
    FuncRule(REGISTER, SprayProxyRequired, v);
    FuncRule(MULTI_PLATFORM, MultiPlatformRequired, v);
    AllThree(Sub(INSTALL), Sub(REGISTER), Sub(MULTI_PLATFORM), v);
    SubMeans(BOOTSTRAP, v);
    BootstrapRegroup(v);
  }

  lemma BootstrapRegroup(v: Valuation)
    ensures BootstrapSteps(v)
         == Steps(v(BootstrapWanted), [InstallKonflux])
          + if !v(BootstrapWanted) then []
            else Steps(v(SprayProxyRequired), [RegisterSprayProxy])
                 + if v(SprayProxyRequired) then Steps(v(MultiPlatformRequired), [SetupMultiPlatform]) else []
  {
  }

  lemma AnyThree(a: Cond, b: Cond, c: Cond, v: Valuation)
    ensures Trace(Any([a, b, c]), v) == Trace(a, v) + (Trace(b, v) + Trace(c, v))
  {
    var cs := [a, b, c];
    assert cs[1..] == [b, c] && [b, c][1..] == [c] && [c][1..] == [];
    assert Traces([c], 1, v) == Trace(c, v) + [];
    assert Traces([b, c], 2, v) == Trace(b, v) + Traces([c], 1, v);
    assert Traces(cs, 3, v) == Trace(a, v) + Traces([b, c], 2, v);
  }

  lemma SubMeans(rule: Rule, v: Valuation)
    ensures Trace(Sub(rule), v) == Trace(rule.condition, v) + Steps(Holds(rule.condition, v), rule.actions)
  {
  }

  lemma FirstSelected(v: Valuation)
    ensures Trace(Sub(NON_TEST_FILES), v)
         == Steps((NonTestChanged(v) || v(NothingChanged)) && !v(ReleasePipelinesTestsChanged), [ExecuteDefaultTests])
  {
    SubMeans(NON_TEST_FILES, v);
    FirstRule(v);
    FirstTrace(v);
  }

  lemma SecondSelected(v: Valuation)
    ensures Trace(Sub(NON_TEST_FILES_WITH_RELEASE), v)
         == Steps(v(ReleaseHelpersOnly), [FocusOn(ReleaseHelpersOnly)])
          + Steps((NonTestChanged(v) || v(ReleaseHelpersOnly)) && v(ReleasePipelinesTestsChanged), [ExecuteAllButUpgrade])
  {
    SubMeans(NON_TEST_FILES_WITH_RELEASE, v);
    SecondRule(v);
    SecondTrace(v);
  }

  lemma ThirdSelected(v: Valuation)
    ensures var tests := !NonTestChanged(v) && !v(NothingChanged);
            Trace(Sub(TEST_FILES_ONLY), v) == Steps(tests, Focusing(FILE_IDS, v)) + Steps(tests && FileRuleHolds(v), [ExecuteTests])
  {
    SubMeans(TEST_FILES_ONLY, v);
    ThirdRule(v);
    ThirdTrace(v);
  }

  lemma SelectionMeans(v: Valuation)
    ensures Trace(TEST_SELECTION, v) == SelectionSteps(v)
  {
    FirstSelected(v);
    SecondSelected(v);
    ThirdSelected(v);
    AnyThree(Sub(NON_TEST_FILES), Sub(NON_TEST_FILES_WITH_RELEASE), Sub(TEST_FILES_ONLY), v);
  }

  /** Pairing and Ginkgo come first in every workflow. */
  lemma WorkflowMeans(rest: seq<Cond>, v: Valuation)
    ensures var c := All([OPTIONAL_PAIRING, Sub(PREFLIGHT)] + rest);
            && (Holds(c, v) <==> v(PreflightOk) && Holds(All(rest), v))
            && Trace(c, v) == Steps(v(InfraPairingFound), [SetPairing, SetPairing])
                              + Steps(v(PreflightOk), [InstallGinkgo] + Trace(All(rest), v))
  {
    PairingMeans(v);
    FuncRule(PREFLIGHT, PreflightOk, v);
    AllCons(Sub(PREFLIGHT), rest, v);
    AllCons(OPTIONAL_PAIRING, [Sub(PREFLIGHT)] + rest, v);
    assert [OPTIONAL_PAIRING, Sub(PREFLIGHT)] + rest == [OPTIONAL_PAIRING] + ([Sub(PREFLIGHT)] + rest);
  }

  /** The settings, the actions of a workflow, and those at its end. */
  function Whole(repo: string, workflow: Cond, end: seq<Id>, v: Valuation): seq<Id> {
    ([Settings(repo)] + Trace(workflow, v)) + Steps(Holds(workflow, v), end)
  }

  /** The catalog, run from a state, succeeds and executes the actions. */
  ghost predicate RunExecutes<T>(I: Interp<CICtx<T>>, rules: RuleCatalog, s: State<CICtx<T>>, actions: seq<Id>) {
    var r := RunCatalog(I, rules, [], s);
    r.err.None? && Actions(r.s.log) == Actions(s.log) + actions
  }

  /** A catalog of one rule, in its own repository. */
  lemma OneRuleRun<T(!new)>(
      I: Interp<CICtx<T>>, inv: State<CICtx<T>> -> bool, v: Valuation, rule: Rule, rest: seq<Cond>, s: State<CICtx<T>>)
    requires GuardsCompare(I) && Settles(I, inv, v, s.ctx.repo)
    requires Stable(I, inv, v, CatalogConds([rule]), CatalogActs([rule]))
    requires rule.condition == Guarded(s.ctx.repo, rest)
    ensures RunExecutes(I, [rule], s, Whole(s.ctx.repo, All(rest), rule.actions, v))
  {
    var conds, acts := CatalogConds([rule]), CatalogActs([rule]);
    var trace := [Settings(s.ctx.repo)] + Trace(All(rest), v);
    ScopeOfCatalog([rule]);
    assert rule in [rule] && [rule][1..] == [];
    RestInScope(rule.condition.cs[0], rest, conds, acts);
    SettingsThen(I, inv, v, conds, acts, s.ctx.repo, rest, s);
    var r := CheckCond(I, rule.condition, s);
    var matched := if r.ok && rule.actions != [] then [rule] else [];
    RunOne(I, rule, s);
    Finished(I, inv, v, conds, acts, matched, rule.actions, s, r.s, trace);
  }

  lemma RunOne<Ctx>(I: Interp<Ctx>, rule: Rule, s: State<Ctx>)
    requires CheckCond(I, rule.condition, s).err.None?
    ensures var r := CheckCond(I, rule.condition, s);
            RunCatalog(I, [rule], [], s) == Finish(I, if r.ok && rule.actions != [] then [rule] else [], r.s)
  {
    var r := CheckCond(I, rule.condition, s);
    assert [rule][1..] == [] && [] + [rule] == [rule];
    assert RunCatalog(I, [], [rule], r.s) == Finish(I, [rule], r.s) && RunCatalog(I, [], [], r.s) == Finish(I, [], r.s);
  }

  lemma RestInScope(c: Cond, rest: seq<Cond>, conds: set<Id>, acts: set<Id>)
    requires CondIds(All([c] + rest)) <= conds && ActionIds(All([c] + rest)) <= acts
    ensures CondIds(All(rest)) <= conds && ActionIds(All(rest)) <= acts
  {
    IdsOfParts(All([c] + rest), conds, acts);
    assert forall i :: 0 <= i < |rest| ==> rest[i] == ([c] + rest)[i + 1];
  }

  /** The last rule has been looked at. */
  lemma Finished<T(!new)>(
      I: Interp<CICtx<T>>, inv: State<CICtx<T>> -> bool, v: Valuation, conds: set<Id>, acts: set<Id>,
      matched: RuleCatalog, actions: seq<Id>, s: State<CICtx<T>>, t: State<CICtx<T>>, trace: seq<Id>)
    requires Stable(I, inv, v, conds, acts) && Did(inv, s, t, trace) && InScope(matched, conds, acts)
    requires |matched| <= 1 && (matched != [] ==> matched[0].actions == actions)
    ensures var r := Finish(I, matched, t);
            r.err.None? && Actions(r.s.log) == Actions(s.log) + (trace + Steps(matched != [], actions))
  {
    FinishMeaning(I, inv, v, conds, acts, matched, t);
    OneMatched(matched, actions, v, t.dryRun);
    DidSteps(inv, s, t, Finish(I, matched, t).s, trace, Steps(matched != [], actions));
  }

  lemma OneMatched(matched: RuleCatalog, actions: seq<Id>, v: Valuation, dryRun: bool)
    requires |matched| <= 1 && (matched != [] ==> matched[0].actions == actions)
    ensures EngineTrace([], matched, v, dryRun) == Steps(matched != [], actions)
  {
    assert matched + [] == matched;
    if matched != [] {
      assert matched[1..] == [];
      assert AllActions(matched) == actions + [];
    }
  }

  // ----- The two rules of release-service-catalog -----

  lemma GuardAnswers<T(!new)>(
      I: Interp<CICtx<T>>, inv: State<CICtx<T>> -> bool, v: Valuation, id: Id, s: State<CICtx<T>>)
    requires PairingStores(I) && KeepsRepo(I) && Settles(I, inv, v, s.ctx.repo) && (id == IsPaired || id == IsRehearse)
    ensures var r := CallCheck(I, id, s); r.err.None? && r.ok == v(id) && r.s.ctx.repo == s.ctx.repo
  {
    assert I.check(id, s).ctx.repo == s.ctx.repo;
  }

  lemma GuardsStable<T(!new)>(
      I: Interp<CICtx<T>>, inv: State<CICtx<T>> -> bool, g: State<CICtx<T>> -> bool, v: Valuation, repo: string)
    requires PairingStores(I) && KeepsRepo(I) && Settles(I, inv, v, repo) && forall t :: g(t) <==> t.ctx.repo == repo
    ensures Stable(I, g, v, {IsPaired, IsRehearse}, {})
  {
    forall s, id | id in {IsPaired, IsRehearse} && g(s)
      ensures var r := CallCheck(I, id, s); r.err.None? && r.ok == v(id) && g(r.s)
    {
      GuardAnswers(I, inv, v, id, s);
    }
  }

  lemma NoneMeans(id: Id, v: Valuation)
    ensures Holds(NoneOf([Func(id)]), v) == !v(id) && Trace(NoneOf([Func(id)]), v) == []
    ensures CondIds(NoneOf([Func(id)])) == {id} && ActionIds(NoneOf([Func(id)])) == {}
  {
    var cs := [Func(id)];
    assert cs[0] == Func(id) && cs[1..] == [];
    assert Trace(cs[0], v) == [];
    assert Visited(cs, v, true) == 1;
    assert CondIds(NoneOf(cs)) == CondIds(cs[0]) && ActionIds(NoneOf(cs)) == ActionIds(cs[0]);
    assert Traces(cs, 1, v) == [] + Traces([], 0, v);
  }

  lemma UnpairedGuardMeans(v: Valuation)
    ensures Holds(UNPAIRED_GUARD, v) <==> !(v(IsPaired) && !v(IsRehearse))
    ensures Trace(UNPAIRED_GUARD, v) == []
    ensures CondIds(UNPAIRED_GUARD) == {IsPaired, IsRehearse} && ActionIds(UNPAIRED_GUARD) == {}
  {
    var none := NoneOf([Func(IsPaired)]);
    var cs := [none, Func(IsRehearse)];
    NoneMeans(IsPaired, v);
    assert cs[0] == none && cs[1] == Func(IsRehearse);
    assert cs[1..] == [Func(IsRehearse)] && [Func(IsRehearse)][1..] == [];
    assert Traces([Func(IsRehearse)], 1, v) == Trace(Func(IsRehearse), v) + [];
    assert Traces(cs, 2, v) == Trace(none, v) + Traces([Func(IsRehearse)], 1, v);
    assert CondIds(Any(cs)) == CondIds(none) + CondIds(Func(IsRehearse));
    assert ActionIds(Any(cs)) == ActionIds(none) + ActionIds(Func(IsRehearse));
  }

  /** The guards, evaluated where their answers are fixed. */
  lemma GuardsMean<T(!new)>(I: Interp<CICtx<T>>, g: State<CICtx<T>> -> bool, v: Valuation, s: State<CICtx<T>>)
    requires Stable(I, g, v, {IsPaired, IsRehearse}, {}) && g(s)
    ensures var r := CheckCond(I, Func(IsPaired), s); r.err.None? && r.ok == v(IsPaired) && Did(g, s, r.s, [])
    ensures var r := CheckCond(I, NOT_REHEARSE, s); r.err.None? && r.ok == !v(IsRehearse) && Did(g, s, r.s, [])
    ensures var r := CheckCond(I, UNPAIRED_GUARD, s);
            r.err.None? && r.ok == !(v(IsPaired) && !v(IsRehearse)) && Did(g, s, r.s, [])
  {
    NoneMeans(IsRehearse, v);
    UnpairedGuardMeans(v);
    assert CondIds(Func(IsPaired)) == {IsPaired} && ActionIds(Func(IsPaired)) == {};
    Meaning(I, g, v, {IsPaired, IsRehearse}, {}, Func(IsPaired), s);
    Meaning(I, g, v, {IsPaired, IsRehearse}, {}, NOT_REHEARSE, s);
    Meaning(I, g, v, {IsPaired, IsRehearse}, {}, UNPAIRED_GUARD, s);
  }

  lemma DidQuietly<Ctx>(g: State<Ctx> -> bool, inv: State<Ctx> -> bool, s: State<Ctx>, t: State<Ctx>, u: State<Ctx>, a: seq<Id>)
    requires Did(g, s, t, []) && Did(inv, t, u, a)
    ensures Did(inv, s, u, a)
  {
    assert Actions(s.log) + [] == Actions(s.log);
  }

  /** The paired rule's condition: only a guard's lookups when it does not apply. */
  lemma PairedChecks<T(!new)>(
      I: Interp<CICtx<T>>, g: State<CICtx<T>> -> bool, v: Valuation, workflow: seq<Cond>, s: State<CICtx<T>>)
    returns (t: State<CICtx<T>>)
    requires Stable(I, g, v, {IsPaired, IsRehearse}, {}) && g(s)
    ensures Did(g, s, t, [])
    ensures var r := CheckCond(I, PairedCond(workflow), s);
            if v(IsPaired) && !v(IsRehearse) then r == CheckAll(I, workflow, t)
            else r.err.None? && !r.ok && r.s == t
  {
    GuardsMean(I, g, v, s);
    var r := CheckCond(I, Func(IsPaired), s);
    GuardsMean(I, g, v, r.s);
    var q := CheckCond(I, NOT_REHEARSE, r.s);
    DidQuietly(g, g, s, r.s, q.s, []);
    CheckAllCons(I, Func(IsPaired), [NOT_REHEARSE] + workflow, s);
    CheckAllCons(I, NOT_REHEARSE, workflow, r.s);
    t := if v(IsPaired) then q.s else r.s;
  }

  lemma UnpairedChecks<T(!new)>(
      I: Interp<CICtx<T>>, g: State<CICtx<T>> -> bool, v: Valuation, workflow: seq<Cond>, s: State<CICtx<T>>)
    returns (t: State<CICtx<T>>)
    requires Stable(I, g, v, {IsPaired, IsRehearse}, {}) && g(s)
    ensures Did(g, s, t, [])
    ensures var r := CheckCond(I, UnpairedCond(workflow), s);
            if v(IsPaired) && !v(IsRehearse) then r.err.None? && !r.ok && r.s == t
            else r == CheckAll(I, workflow, t)
  {
    GuardsMean(I, g, v, s);
    CheckAllCons(I, UNPAIRED_GUARD, workflow, s);
    t := CheckCond(I, UNPAIRED_GUARD, s).s;
  }

  lemma RunTwo<Ctx>(I: Interp<Ctx>, a: Rule, b: Rule, s: State<Ctx>)
    requires a.actions != [] && b.actions != []
    requires var r := CheckCond(I, a.condition, s); r.err.None? && CheckCond(I, b.condition, r.s).err.None?
    ensures var r := CheckCond(I, a.condition, s);
            var q := CheckCond(I, b.condition, r.s);
            RunCatalog(I, [a, b], [], s) == Finish(I, (if r.ok then [a] else []) + (if q.ok then [b] else []), q.s)
  {
    var r := CheckCond(I, a.condition, s);
    var q := CheckCond(I, b.condition, r.s);
    var m := if r.ok then [a] else [];
    var n := if q.ok then m + [b] else m;
    assert [a, b][1..] == [b] && [b][1..] == [] && [] + [a] == [a];
    assert RunCatalog(I, [a, b], [], s) == RunCatalog(I, [b], m, r.s);
    assert RunCatalog(I, [b], m, r.s) == RunCatalog(I, [], n, q.s);
    assert n == m + if q.ok then [b] else [];
  }

  /** Two rules with the same workflow, one for paired requests and one for all others. */
  ghost predicate TwoRules<T(!new)>(
      I: Interp<CICtx<T>>, inv: State<CICtx<T>> -> bool, g: State<CICtx<T>> -> bool, v: Valuation,
      conds: set<Id>, acts: set<Id>, repo: string, a: Rule, b: Rule, rest: seq<Cond>)
  {
    && GuardsCompare(I) && Settles(I, inv, v, repo)
    && Stable(I, g, v, {IsPaired, IsRehearse}, {}) && (forall t :: g(t) <==> t.ctx.repo == repo)
    && Stable(I, inv, v, conds, acts) && {IsPaired, IsRehearse} <= conds
    && InScope([a], conds, acts) && InScope([b], conds, acts) && InScope([Rule("", All(rest), [])], conds, acts)
    && a.condition == PairedCond([Sub(SettingsRule(repo))] + rest) && a.actions != []
    && b.condition == UnpairedCond([Sub(SettingsRule(repo))] + rest) && b.actions != []
  }

  lemma PairedRun<T(!new)>(
      I: Interp<CICtx<T>>, inv: State<CICtx<T>> -> bool, g: State<CICtx<T>> -> bool, v: Valuation,
      conds: set<Id>, acts: set<Id>, a: Rule, b: Rule, rest: seq<Cond>, s: State<CICtx<T>>)
    requires TwoRules(I, inv, g, v, conds, acts, s.ctx.repo, a, b, rest) && v(IsPaired) && !v(IsRehearse)
    ensures RunExecutes(I, [a, b], s, Whole(s.ctx.repo, All(rest), a.actions, v))
  {
    var workflow := [Sub(SettingsRule(s.ctx.repo))] + rest;
    var trace := [Settings(s.ctx.repo)] + Trace(All(rest), v);
    var t := PairedChecks(I, g, v, workflow, s);
    var r := CheckCond(I, a.condition, s);
    SettingsThen(I, inv, v, conds, acts, s.ctx.repo, rest, t);
    DidQuietly(g, inv, s, t, r.s, trace);
    assert Stable(I, inv, v, {IsPaired, IsRehearse}, {});
    var u := UnpairedChecks(I, inv, v, workflow, r.s);
    DidSteps(inv, s, r.s, u, trace, []);
    assert trace + [] == trace;
    RunTwo(I, a, b, s);
    assert (if r.ok then [a] else []) + [] == if r.ok then [a] else [];
    Finished(I, inv, v, conds, acts, if r.ok then [a] else [], a.actions, s, u, trace);
  }

  lemma UnpairedRun<T(!new)>(
      I: Interp<CICtx<T>>, inv: State<CICtx<T>> -> bool, g: State<CICtx<T>> -> bool, v: Valuation,
      conds: set<Id>, acts: set<Id>, a: Rule, b: Rule, rest: seq<Cond>, s: State<CICtx<T>>)
    requires TwoRules(I, inv, g, v, conds, acts, s.ctx.repo, a, b, rest) && !(v(IsPaired) && !v(IsRehearse))
    ensures RunExecutes(I, [a, b], s, Whole(s.ctx.repo, All(rest), b.actions, v))
  {
    var workflow := [Sub(SettingsRule(s.ctx.repo))] + rest;
    var trace := [Settings(s.ctx.repo)] + Trace(All(rest), v);
    var t := PairedChecks(I, g, v, workflow, s);
    var u := UnpairedChecks(I, g, v, workflow, t);
    DidQuietly(g, g, s, t, u, []);
    SettingsThen(I, inv, v, conds, acts, s.ctx.repo, rest, u);
    var q := CheckCond(I, b.condition, t);
    DidQuietly(g, inv, s, u, q.s, trace);
    RunTwo(I, a, b, s);
    assert [] + (if q.ok then [b] else []) == if q.ok then [b] else [];
    Finished(I, inv, v, conds, acts, if q.ok then [b] else [], b.actions, s, q.s, trace);
  }

  // ----- The six repositories -----

  lemma StepsRegroup(a: seq<Id>, b: seq<Id>, ready: bool, c: seq<Id>, d: seq<Id>, done: bool, e: seq<Id>)
    requires !ready ==> !done
    ensures (a + (b + Steps(ready, c + d))) + Steps(done, e) == a + (b + Steps(ready, c + (d + Steps(done, e))))
  {
  }

  /** The workflow of a repository with the actions at its end. */
  lemma WorkflowSteps(repo: string, rest: seq<Cond>, end: seq<Id>, after: seq<Id>, v: Valuation)
    requires after == Trace(All(rest), v) + Steps(Holds(All(rest), v), end)
    ensures Whole(repo, All([OPTIONAL_PAIRING, Sub(PREFLIGHT)] + rest), end, v)
         == [Settings(repo)] + (Steps(v(InfraPairingFound), [SetPairing, SetPairing])
                                + Steps(v(PreflightOk), [InstallGinkgo] + after))
  {
    WorkflowMeans(rest, v);
    var pairing := Steps(v(InfraPairingFound), [SetPairing, SetPairing]);
    if v(PreflightOk) {
      StepsRegroup([Settings(repo)], pairing, true, [InstallGinkgo], Trace(All(rest), v), Holds(All(rest), v), end);
    }
  }

  lemma SelectingSteps(v: Valuation)
    ensures AfterGinkgo("e2e-tests", v) == Trace(All([Sub(BOOTSTRAP), TEST_SELECTION]), v)
  {
    BootstrapMeans(v);
    SelectionMeans(v);
    AllTwo(Sub(BOOTSTRAP), TEST_SELECTION, v);
  }

  lemma InstallingSteps(repo: string, v: Valuation)
    requires repo == "release-service" || repo == "release-service-catalog"
    ensures Holds(All([OPTIONAL_INSTALL]), v)
    ensures AfterGinkgo(repo, v) == Trace(All([OPTIONAL_INSTALL]), v)
      + if repo == "release-service" then [ExecuteTests]
        else if v(IsPaired) && !v(IsRehearse) then [ExecuteCatalogPaired] else [ExecuteCatalog]
  {
    InstallMeans(v);
    AllOne(OPTIONAL_INSTALL, v);
  }

  lemma ComponentSteps(repo: string, v: Valuation)
    requires repo != "e2e-tests" && repo != "release-service" && repo != "release-service-catalog"
    ensures Holds(All([OPTIONAL_BOOTSTRAP]), v)
    ensures AfterGinkgo(repo, v) == Trace(All([OPTIONAL_BOOTSTRAP]), v) + [ExecuteTests]
  {
    SprayProxyMeans(v);
    AllOne(OPTIONAL_BOOTSTRAP, v);
  }

  /** The actions at the end of a repository's workflow. */
  function EndOf(k: nat, v: Valuation): seq<Id> {
    if k == 0 then []
    else if k == 2 then if v(IsPaired) && !v(IsRehearse) then [ExecuteCatalogPaired] else [ExecuteCatalog]
    else [ExecuteTests]
  }

  function WorkflowOf(k: nat): seq<Cond> {
    RestOf(if k == 2 then 1 else k)
  }

  lemma WorkflowShape(k: nat) returns (rest: seq<Cond>)
    requires k < COUNT
    ensures WorkflowOf(k) == [OPTIONAL_PAIRING, Sub(PREFLIGHT)] + rest
    ensures rest == if k == 0 then [Sub(BOOTSTRAP), TEST_SELECTION]
                    else if k <= 2 then [OPTIONAL_INSTALL] else [OPTIONAL_BOOTSTRAP]
  {
    rest := if k == 0 then [Sub(BOOTSTRAP), TEST_SELECTION]
            else if k <= 2 then [OPTIONAL_INSTALL] else [OPTIONAL_BOOTSTRAP];
  }

  lemma AfterSteps(k: nat, rest: seq<Cond>, v: Valuation)
    requires k < COUNT
    requires rest == if k == 0 then [Sub(BOOTSTRAP), TEST_SELECTION]
                     else if k <= 2 then [OPTIONAL_INSTALL] else [OPTIONAL_BOOTSTRAP]
    ensures AfterGinkgo(REPOS[k], v) == Trace(All(rest), v) + Steps(Holds(All(rest), v), EndOf(k, v))
  {
    if k == 0 {
      SelectingSteps(v);
    } else if k <= 2 {
      InstallingSteps(REPOS[k], v);
    } else {
      NamesDiffer(k, 0);
      NamesDiffer(k, 1);
      NamesDiffer(k, 2);
      ComponentSteps(REPOS[k], v);
    }
  }

  lemma WholeIsExpected(k: nat, v: Valuation)
    requires k < COUNT
    ensures Whole(REPOS[k], All(WorkflowOf(k)), EndOf(k, v), v) == Expected(REPOS[k], v)
  {
    var rest := WorkflowShape(k);
    AfterSteps(k, rest, v);
    WorkflowSteps(REPOS[k], rest, EndOf(k, v), AfterGinkgo(REPOS[k], v), v);
    SixRepos(k);
  }

  lemma SixRepos(k: nat)
    requires k < COUNT
    ensures REPOS[k] in ["e2e-tests", "release-service", "release-service-catalog",
                         "integration-service", "image-controller", "build-service"]
  {
  }

  lemma SingleRun<T(!new)>(I: Interp<CICtx<T>>, inv: State<CICtx<T>> -> bool, v: Valuation, k: nat, s: State<CICtx<T>>)
    requires GuardsCompare(I) && k < COUNT && k != 2 && s.ctx.repo == REPOS[k] && SmoothAt(I, inv, v, k)
    ensures RunExecutes(I, CatalogAt(k), s, Whole(s.ctx.repo, All(WorkflowOf(k)), EndOf(k, v), v))
  {
    CatalogShape(k);
    EndShape(k, v);
    assert CatalogAt(k) == [CatalogAt(k)[0]];
    OneRuleRun(I, inv, v, CatalogAt(k)[0], WorkflowOf(k), s);
  }

  lemma EndShape(k: nat, v: Valuation)
    requires k < COUNT && k != 2
    ensures |CatalogAt(k)| == 1 && CatalogAt(k)[0].actions == EndOf(k, v)
  {
  }

  lemma CatalogTwoRules<T(!new)>(
      I: Interp<CICtx<T>>, inv: State<CICtx<T>> -> bool, g: State<CICtx<T>> -> bool, v: Valuation)
    requires GuardsCompare(I) && PairingStores(I) && KeepsRepo(I) && SmoothAt(I, inv, v, 2)
    requires forall t :: g(t) <==> t.ctx.repo == CATALOG_REPO
    ensures TwoRules(I, inv, g, v, CatalogConds(CatalogAt(2)), CatalogActs(CatalogAt(2)), CATALOG_REPO, PAIRED, UNPAIRED, WorkflowOf(2))
  {
    GuardsStable(I, inv, g, v, CATALOG_REPO);
    CatalogScope();
    CatalogShapes();
  }

  lemma CatalogShapes()
    ensures PAIRED.condition == PairedCond([Sub(SettingsRule(CATALOG_REPO))] + WorkflowOf(2))
    ensures UNPAIRED.condition == UnpairedCond([Sub(SettingsRule(CATALOG_REPO))] + WorkflowOf(2))
  {
    assert CATALOG_WORKFLOW == [Sub(SettingsRule(CATALOG_REPO))] + WorkflowOf(2);
  }

  lemma CatalogScope()
    ensures var conds, acts := CatalogConds(CatalogAt(2)), CatalogActs(CatalogAt(2));
            && {IsPaired, IsRehearse} <= conds && InScope([PAIRED], conds, acts) && InScope([UNPAIRED], conds, acts)
            && InScope([Rule("", All(WorkflowOf(2)), [])], conds, acts)
  {
    var conds, acts := CatalogConds(CatalogAt(2)), CatalogActs(CatalogAt(2));
    ScopeOfCatalog(CatalogAt(2));
    assert PAIRED in CatalogAt(2) && UNPAIRED in CatalogAt(2);
    var w := [Sub(SettingsRule(CATALOG_REPO))] + WorkflowOf(2);
    assert CATALOG_WORKFLOW == w;
    RestInScope(UNPAIRED_GUARD, w, conds, acts);
    RestInScope(w[0], WorkflowOf(2), conds, acts);
    UnpairedGuardMeans(id => true);
    IdsOfParts(UNPAIRED.condition, conds, acts);
    assert UNPAIRED.condition.cs[0] == UNPAIRED_GUARD;
  }

  lemma CatalogRun<T(!new)>(I: Interp<CICtx<T>>, inv: State<CICtx<T>> -> bool, v: Valuation, s: State<CICtx<T>>)
    requires World(I) && s.ctx.repo == CATALOG_REPO && SmoothAt(I, inv, v, 2)
    ensures RunExecutes(I, CatalogAt(2), s, Whole(s.ctx.repo, All(WorkflowOf(2)), EndOf(2, v), v))
  {
    var g := (t: State<CICtx<T>>) => t.ctx.repo == CATALOG_REPO;
    CatalogTwoRules(I, inv, g, v);
    PairedOrUnpairedRun(I, inv, g, v, CatalogConds(CatalogAt(2)), CatalogActs(CatalogAt(2)), PAIRED, UNPAIRED, WorkflowOf(2), s);
  }

  lemma PairedOrUnpairedRun<T(!new)>(
      I: Interp<CICtx<T>>, inv: State<CICtx<T>> -> bool, g: State<CICtx<T>> -> bool, v: Valuation,
      conds: set<Id>, acts: set<Id>, a: Rule, b: Rule, rest: seq<Cond>, s: State<CICtx<T>>)
    requires TwoRules(I, inv, g, v, conds, acts, s.ctx.repo, a, b, rest)
    ensures var end := if v(IsPaired) && !v(IsRehearse) then a.actions else b.actions;
            RunExecutes(I, [a, b], s, Whole(s.ctx.repo, All(rest), end, v))
  {
    if v(IsPaired) && !v(IsRehearse) {
      PairedRun(I, inv, g, v, conds, acts, a, b, rest, s);
    } else {
      UnpairedRun(I, inv, g, v, conds, acts, a, b, rest, s);
    }
  }

  lemma OwnWhole<T(!new)>(I: Interp<CICtx<T>>, inv: State<CICtx<T>> -> bool, v: Valuation, k: nat, s: State<CICtx<T>>)
    requires World(I) && k < COUNT && s.ctx.repo == REPOS[k] && SmoothAt(I, inv, v, k)
    ensures RunExecutes(I, CatalogAt(k), s, Whole(REPOS[k], All(WorkflowOf(k)), EndOf(k, v), v))
  {
    if k == 2 {
      CatalogIndex();
      CatalogRun(I, inv, v, s);
    } else {
      SingleRun(I, inv, v, k, s);
    }
  }

  lemma CatalogIndex()
    ensures REPOS[2] == CATALOG_REPO
  {
  }

  lemma OwnRun<T(!new)>(I: Interp<CICtx<T>>, inv: State<CICtx<T>> -> bool, v: Valuation, k: nat, s: State<CICtx<T>>)
    requires World(I) && k < COUNT && s.ctx.repo == REPOS[k] && SmoothAt(I, inv, v, k)
    ensures RunExecutes(I, CatalogAt(k), s, Expected(REPOS[k], v))
  {
    WholeIsExpected(k, v);
    OwnWhole(I, inv, v, k, s);
  }

  lemma SameActions<T>(s: State<CICtx<T>>, t: State<CICtx<T>>)
    requires SameButPaired(s, t)
    ensures Actions(s.log) == Actions(t.log)
  {
    ObservedActions(s.log);
    ObservedActions(t.log);
  }

  lemma RunsLikeOwn<T(!new)>(I: Interp<CICtx<T>>, order: seq<nat>, k: nat, s: State<CICtx<T>>, actions: seq<Id>)
    requires World(I) && IsOrder(order) && k < COUNT && REPOS[k] == s.ctx.repo && RunExecutes(I, CatalogAt(k), s, actions)
    ensures RunExecutes(I, Load(order), s, actions)
  {
    OwnCatalogDecides(I, order, k, s);
    SameActions(RunCatalog(I, Load(order), [], s).s, RunCatalog(I, CatalogAt(k), [], s).s);
  }

  lemma RunsNothing<T(!new)>(I: Interp<CICtx<T>>, order: seq<nat>, s: State<CICtx<T>>)
    requires World(I) && IsOrder(order) && s.ctx.repo !in REPOS
    ensures RunExecutes(I, Load(order), s, [])
  {
    NoCatalogNoEffect(I, order, s);
    ExecutesNothing(I, Load(order), s);
  }

  lemma ExecutesNothing<T>(I: Interp<CICtx<T>>, rules: RuleCatalog, s: State<CICtx<T>>)
    requires var r := RunCatalog(I, rules, [], s); r.err.None? && SameButPaired(s, r.s)
    ensures RunExecutes(I, rules, s, [])
  {
    SameActions(s, RunCatalog(I, rules, [], s).s);
    assert Actions(s.log) + [] == Actions(s.log);
  }

  /** For every repository and every order of the catalogs: exactly what a run executes. */
  lemma ExecutedInAnyOrder<T(!new)>(
      I: Interp<CICtx<T>>, inv: State<CICtx<T>> -> bool, v: Valuation, order: seq<nat>, s: State<CICtx<T>>)
    requires Smooth(I, inv, v, s.ctx.repo) && IsOrder(order)
    ensures RunExecutes(I, Load(order), s, Expected(s.ctx.repo, v))
  {
    if s.ctx.repo in REPOS {
      var k :| 0 <= k < COUNT && REPOS[k] == s.ctx.repo;
      OwnRun(I, inv, v, k, s);
      RunsLikeOwn(I, order, k, s, Expected(s.ctx.repo, v));
    } else {
      RunsNothing(I, order, s);
      ExpectedElsewhere(s.ctx.repo, v);
    }
  }

  lemma ExpectedElsewhere(repo: string, v: Valuation)
    requires repo !in REPOS
    ensures Expected(repo, v) == []
  {
  }

  /** The tests of release-service-catalog end a run of them, and only one of the two kinds is run. */
  predicate EndsInCatalogTests(done: seq<Id>, v: Valuation) {
    var paired := v(IsPaired) && !v(IsRehearse);
    && (ExecuteCatalogPaired in done <==> v(PreflightOk) && paired)
    && (ExecuteCatalog in done <==> v(PreflightOk) && !paired)
    && (v(PreflightOk) ==> |done| > 0 && done[|done| - 1] == if paired then ExecuteCatalogPaired else ExecuteCatalog)
  }

  lemma CatalogEnd(v: Valuation)
    ensures EndsInCatalogTests(Expected("release-service-catalog", v), v)
  {
    var repo := "release-service-catalog";
    var pairing, install := Steps(v(InfraPairingFound), [SetPairing, SetPairing]), Steps(v(BootstrapWanted), [InstallKonflux, InstallKonflux]);
    var test := if v(IsPaired) && !v(IsRehearse) then ExecuteCatalogPaired else ExecuteCatalog;
    assert AfterGinkgo(repo, v) == install + [test];
    TestLast([Settings(repo)], pairing, [InstallGinkgo], install, v);
  }

  lemma TestLast(a: seq<Id>, b: seq<Id>, c: seq<Id>, d: seq<Id>, v: Valuation)
    requires forall x <- [a, b, c, d] :: ExecuteCatalogPaired !in x && ExecuteCatalog !in x
    ensures var test := if v(IsPaired) && !v(IsRehearse) then ExecuteCatalogPaired else ExecuteCatalog;
            EndsInCatalogTests(a + (b + Steps(v(PreflightOk), c + (d + [test]))), v)
  {
    var test := if v(IsPaired) && !v(IsRehearse) then ExecuteCatalogPaired else ExecuteCatalog;
    assert c + (d + [test]) == c + d + [test];
    assert a + (b + Steps(v(PreflightOk), c + d + [test])) == a + b + Steps(v(PreflightOk), c + d + [test]);
    LastOfThree(a + b, c + d, v);
  }

  lemma LastOfThree(a: seq<Id>, b: seq<Id>, v: Valuation)
    requires ExecuteCatalogPaired !in a && ExecuteCatalog !in a && ExecuteCatalogPaired !in b && ExecuteCatalog !in b
    ensures var test := if v(IsPaired) && !v(IsRehearse) then ExecuteCatalogPaired else ExecuteCatalog;
            EndsInCatalogTests(a + Steps(v(PreflightOk), b + [test]), v)
  {
  }

  /**
   In release-service-catalog, a paired request that is no rehearsal ends with the paired
   tests and never runs the others; any other request the reverse.
   */
  lemma PairedOrNot<T(!new)>(
      I: Interp<CICtx<T>>, inv: State<CICtx<T>> -> bool, v: Valuation, order: seq<nat>, s: State<CICtx<T>>)
    returns (done: seq<Id>)
    requires Smooth(I, inv, v, s.ctx.repo) && IsOrder(order) && s.ctx.repo == "release-service-catalog"
    ensures RunExecutes(I, Load(order), s, done)
    ensures EndsInCatalogTests(done, v)
  {
    ExecutedInAnyOrder(I, inv, v, order, s);
    done := Expected(s.ctx.repo, v);
    CatalogEnd(v);
  }

  // ----- Such a world -----

  /** The answers of a world that counts its actions. */
  function CountingAnswers(paired: bool, rehearse: bool, repo: string): Valuation {
    id => CountingAnswer(paired, rehearse, repo, id)
  }

  predicate CountingAnswer(paired: bool, rehearse: bool, repo: string, id: Id) {
    match id
    case RepoIs(name) => name == repo
    case IsPaired => paired
    case IsRehearse => rehearse
    case _ => true
  }

  lemma CountingIsSmooth(paired: bool, rehearse: bool, repo: string)
    ensures var inv := (s: State<CICtx<int>>) => s.ctx.repo == repo;
            Smooth(CountingWorld(paired, rehearse), inv, CountingAnswers(paired, rehearse, repo), repo)
  {
    CountingWorldIsOne(paired, rehearse);
    var I, v := CountingWorld(paired, rehearse), CountingAnswers(paired, rehearse, repo);
    var inv := (s: State<CICtx<int>>) => s.ctx.repo == repo;
    forall k: nat | k < COUNT && REPOS[k] == repo ensures SmoothAt(I, inv, v, k) {
      CountingStable(paired, rehearse, repo, inv, CatalogConds(CatalogAt(k)), CatalogActs(CatalogAt(k)));
      CountingSettles(paired, rehearse, repo, inv);
    }
  }

  lemma CountingAnswersAs(paired: bool, rehearse: bool, id: Id, s: State<CICtx<int>>)
    ensures var r := CountingCheck(paired, rehearse, id, s);
            && r.err.None? && r.ok == CountingAnswers(paired, rehearse, s.ctx.repo)(id)
            && r.ctx.repo == s.ctx.repo
  {
  }

  lemma CountingStable(
      paired: bool, rehearse: bool, repo: string, inv: State<CICtx<int>> -> bool, conds: set<Id>, acts: set<Id>)
    requires forall s :: inv(s) <==> s.ctx.repo == repo
    ensures Stable(CountingWorld(paired, rehearse), inv, CountingAnswers(paired, rehearse, repo), conds, acts)
  {
    var I, v := CountingWorld(paired, rehearse), CountingAnswers(paired, rehearse, repo);
    forall s, id | inv(s)
      ensures var r := CallCheck(I, id, s); r.err.None? && r.ok == v(id) && inv(r.s)
      ensures var r := CallExec(I, id, s); r.err.None? && inv(r.s)
    {
      CountingCalls(paired, rehearse, id, s);
      CountingAnswersAs(paired, rehearse, id, s);
    }
  }

  lemma CountingSettles(paired: bool, rehearse: bool, repo: string, inv: State<CICtx<int>> -> bool)
    requires forall s :: inv(s) <==> s.ctx.repo == repo
    ensures Settles(CountingWorld(paired, rehearse), inv, CountingAnswers(paired, rehearse, repo), repo)
  {
    CountingStable(paired, rehearse, repo, inv, {IsPaired, IsRehearse}, {Settings(repo)});
    var I, v := CountingWorld(paired, rehearse), CountingAnswers(paired, rehearse, repo);
    forall s: State<CICtx<int>> | s.ctx.repo == repo
      ensures I.check(IsPaired, s).ok == v(IsPaired) && I.check(IsRehearse, s).ok == v(IsRehearse)
      ensures CallExec(I, Settings(repo), s).err.None? && inv(CallExec(I, Settings(repo), s).s)
    {
      assert inv(s);
      assert CallCheck(I, IsPaired, s).ok == v(IsPaired) && CallCheck(I, IsRehearse, s).ok == v(IsRehearse);
    }
  }
}
