/**
 The `ci` catalogs (magefiles/rulesengine/engine/engine.go and repos/): the six
 catalogs are concatenated in whatever order Go iterates over the map, and the
 order does not matter.
 */
module CICatalogs {
  import opened GoStrings
  import opened Names
  import opened RulesEngine
  import opened EngineMeaning
  import opened EngineRelations
  import opened E2ECatalog

  // ----- The catalogs -----

  const PAIRING := Rule("Set Required Settings for E2E Repo PR Paired Job", Func(InfraPairingFound), [SetPairing])
  const PREFLIGHT := Rule("Preflight Check", Func(PreflightOk), [InstallGinkgo])
  const INSTALL := Rule("Install Konflux", Func(BootstrapWanted), [InstallKonflux])
  const REGISTER := Rule("Register SprayProxy", Any([Func(SprayProxyRequired)]), [RegisterSprayProxy])
  const MULTI_PLATFORM := Rule("Setup multi-platform tests", Any([Func(MultiPlatformRequired)]), [SetupMultiPlatform])
  const BOOTSTRAP := Rule("BoostrapCluster RuleChain", All([Sub(INSTALL), Sub(REGISTER), Sub(MULTI_PLATFORM)]), [])
  const BOOTSTRAP_SPRAY := Rule("BoostrapCluster with SprayProxy RuleChain", All([Sub(INSTALL), Sub(REGISTER)]), [])

  /** The optional-step idioms of the source. */
  const OPTIONAL_PAIRING := Any([Sub(PAIRING), NoneOf([Sub(PAIRING)])])
  const OPTIONAL_INSTALL := Any([NoneOf([Sub(INSTALL)]), Sub(INSTALL)])
  const OPTIONAL_BOOTSTRAP := Any([NoneOf([Sub(BOOTSTRAP_SPRAY)]), Sub(BOOTSTRAP_SPRAY)])

  /** The rule that sets a repository's defaults; it is guarded by the repository's name. */
  function SettingsRule(repo: string): Rule {
    Rule("General Required Settings", Any([Func(RepoIs(repo))]), [Settings(repo)])
  }

  /** The shape shared by the repositories: settings first, then the rest of the workflow. */
  function Guarded(repo: string, rest: seq<Cond>): Cond {
    All([Sub(SettingsRule(repo))] + rest)
  }

  const TEST_SELECTION := Any([Sub(NON_TEST_FILES), Sub(NON_TEST_FILES_WITH_RELEASE), Sub(TEST_FILES_ONLY)])

  const E2E_CI: RuleCatalog := [Rule("E2E Repo CI Workflow Rule Chain",
    Guarded("e2e-tests", [OPTIONAL_PAIRING, Sub(PREFLIGHT), Sub(BOOTSTRAP), TEST_SELECTION]), [])]

  const RELEASE_SERVICE_CI: RuleCatalog := [Rule("Release-service repo CI Workflow Rule",
    Guarded("release-service", [OPTIONAL_PAIRING, Sub(PREFLIGHT), OPTIONAL_INSTALL]), [ExecuteTests])]

  /** The workflow of the three component repositories that register a SprayProxy. */
  function ComponentCI(repo: string): RuleCatalog {
    [Rule("repo CI Workflow Rule",
       Guarded(repo, [OPTIONAL_PAIRING, Sub(PREFLIGHT), OPTIONAL_BOOTSTRAP]), [ExecuteTests])]
  }

  const CATALOG_REPO := "release-service-catalog"
  const NOT_REHEARSE := NoneOf([Func(IsRehearse)])
  const UNPAIRED_GUARD := Any([NoneOf([Func(IsPaired)]), Func(IsRehearse)])

  function PairedCond(workflow: seq<Cond>): Cond {
    All([Func(IsPaired)] + ([NOT_REHEARSE] + workflow))
  }

  function UnpairedCond(workflow: seq<Cond>): Cond {
    All([UNPAIRED_GUARD] + workflow)
  }

  const CATALOG_WORKFLOW := [Sub(SettingsRule(CATALOG_REPO)), OPTIONAL_PAIRING, Sub(PREFLIGHT), OPTIONAL_INSTALL]

  const PAIRED := Rule("Release-service-catalog repo CI Workflow Paired Rule",
    PairedCond(CATALOG_WORKFLOW), [ExecuteCatalogPaired])
  const UNPAIRED := Rule("Release-service-catalog repo CI Workflow Rule",
    UnpairedCond(CATALOG_WORKFLOW), [ExecuteCatalog])
  const RELEASE_CATALOG_CI: RuleCatalog := [PAIRED, UNPAIRED]

  const REPOS := ["e2e-tests", "release-service", CATALOG_REPO, "integration-service", "image-controller", "build-service"]

  const COUNT: nat := 6

  /** The catalog registered for the repository at an index of REPOS. */
  function CatalogAt(i: nat): RuleCatalog
    requires i < COUNT
  {
    if i == 0 then E2E_CI
    else if i == 1 then RELEASE_SERVICE_CI
    else if i == 2 then RELEASE_CATALOG_CI
    else ComponentCI(REPOS[i])
  }

  // ----- The outside world -----

  /** The context: the repository, the flag that `isPaired` writes, and all the rest. */
  datatype CICtx<T> = CICtx(repo: string, paired: bool, rest: T)

  /** The lookups by which a catalog finds out whether it is the repository's own. */
  predicate IsGuard(id: Id) {
    id.RepoIs? || id == IsPaired || id == IsRehearse
  }

  /** The calls in a log other than those lookups. */
  function Observed(log: seq<Call>): seq<Call> {
    if log == [] then []
    else
      var last := log[|log| - 1];
      Observed(log[..|log| - 1]) + if last.Checked? && IsGuard(last.id) then [] else [last]
  }

  lemma ObservedSnoc(log: seq<Call>, c: Call)
    ensures Observed(log + [c]) == Observed(log) + if c.Checked? && IsGuard(c.id) then [] else [c]
  {
    assert (log + [c])[..|log|] == log;
  }

  lemma {:induction false} ObservedActions(log: seq<Call>)
    ensures Actions(Observed(log)) == Actions(log)
  {
    if log != [] {
      var front, last := log[..|log| - 1], log[|log| - 1];
      ObservedActions(front);
      ActionsSnoc(Observed(front), last);
      assert Observed(front) + [] == Observed(front) && Actions(front) + [] == Actions(front);
    }
  }

  /** Equal but for the pairing flag and the lookups of guards. */
  ghost predicate SameButPaired<T>(s: State<CICtx<T>>, t: State<CICtx<T>>) {
    && s.ctx.repo == t.ctx.repo && s.ctx.rest == t.ctx.rest && s.dryRun == t.dryRun
    && Observed(s.log) == Observed(t.log)
  }

  ghost predicate Same<T>(s: State<CICtx<T>>, t: State<CICtx<T>>) {
    s.ctx == t.ctx && s.dryRun == t.dryRun && Observed(s.log) == Observed(t.log)
  }

  /** Repository guards compare names. */
  ghost predicate GuardsCompare<T(!new)>(I: Interp<CICtx<T>>) {
    forall s: State<CICtx<T>>, repo ::
      I.check(RepoIs(repo), s) == Answer(s.ctx, s.ctx.repo == repo, None)
  }

  /** `isPaired` stores its answer; `isRehearse` only reads. Neither fails. */
  ghost predicate PairingStores<T(!new)>(I: Interp<CICtx<T>>) {
    forall s: State<CICtx<T>> ::
      && I.check(IsPaired, s).err.None? && I.check(IsPaired, s).ctx == s.ctx.(paired := I.check(IsPaired, s).ok)
      && I.check(IsRehearse, s).err.None? && I.check(IsRehearse, s).ctx == s.ctx
  }

  /** Nothing changes the repository. */
  ghost predicate KeepsRepo<T(!new)>(I: Interp<CICtx<T>>) {
    forall s: State<CICtx<T>>, id ::
      I.check(id, s).ctx.repo == s.ctx.repo && I.exec(id, s).ctx.repo == s.ctx.repo
  }

  /** Calls depend on the context and on the calls so far, but not on how often guards were looked up. */
  ghost predicate IgnoresLog<T(!new)>(I: Interp<CICtx<T>>) {
    forall s: State<CICtx<T>>, t: State<CICtx<T>>, id :: Same(s, t) ==>
      I.check(id, s) == I.check(id, t) && I.exec(id, s) == I.exec(id, t)
  }

  /** No condition reads the pairing flag, and of the actions only release-service-catalog's settings. */
  ghost predicate IgnoresPaired<T(!new)>(I: Interp<CICtx<T>>) {
    forall s: State<CICtx<T>>, t: State<CICtx<T>>, id :: SameButPaired(s, t) ==>
      && I.check(id, s).ok == I.check(id, t).ok && I.check(id, s).err == I.check(id, t).err
      && I.check(id, s).ctx.rest == I.check(id, t).ctx.rest
      && (id != Settings(CATALOG_REPO) ==>
            I.exec(id, s).err == I.exec(id, t).err && I.exec(id, s).ctx.rest == I.exec(id, t).ctx.rest)
  }

  /** What the source says of its functions; everything else, failures included, is left open. */
  ghost predicate World<T(!new)>(I: Interp<CICtx<T>>) {
    GuardsCompare(I) && PairingStores(I) && KeepsRepo(I) && IgnoresLog(I) && IgnoresPaired(I)
  }

  /** A world of that kind: the pairing lookup and the rehearsal test have fixed answers, and actions count themselves. */
  function CountingWorld(paired: bool, rehearse: bool): Interp<CICtx<int>> {
    Interp((id, s) => CountingCheck(paired, rehearse, id, s), (id, s) => CountingExec(s))
  }

  function CountingCheck(paired: bool, rehearse: bool, id: Id, s: State<CICtx<int>>): Answer<CICtx<int>> {
    match id
    case RepoIs(repo) => Answer(s.ctx, s.ctx.repo == repo, None)
    case IsPaired => Answer(s.ctx.(paired := paired), paired, None)
    case IsRehearse => Answer(s.ctx, rehearse, None)
    case _ => Answer(s.ctx, true, None)
  }

  function CountingExec(s: State<CICtx<int>>): Effect<CICtx<int>> {
    Effect(s.ctx.(rest := s.ctx.rest + 1), None)
  }

  lemma CountingCalls(paired: bool, rehearse: bool, id: Id, s: State<CICtx<int>>)
    ensures var I := CountingWorld(paired, rehearse);
            I.check(id, s) == CountingCheck(paired, rehearse, id, s) && I.exec(id, s) == CountingExec(s)
  {
  }

  lemma CountingWorldIsOne(paired: bool, rehearse: bool)
    ensures World(CountingWorld(paired, rehearse))
  {
    var I := CountingWorld(paired, rehearse);
    forall s, repo ensures I.check(RepoIs(repo), s) == Answer(s.ctx, s.ctx.repo == repo, None) {
      CountingCalls(paired, rehearse, RepoIs(repo), s);
    }
    assert PairingStores(I) by {
      forall s ensures
        && I.check(IsPaired, s).err.None? && I.check(IsPaired, s).ctx == s.ctx.(paired := I.check(IsPaired, s).ok)
        && I.check(IsRehearse, s).err.None? && I.check(IsRehearse, s).ctx == s.ctx
      {
        CountingCalls(paired, rehearse, IsPaired, s);
        CountingCalls(paired, rehearse, IsRehearse, s);
      }
    }
    assert KeepsRepo(I) by {
      forall s, id ensures I.check(id, s).ctx.repo == s.ctx.repo && I.exec(id, s).ctx.repo == s.ctx.repo {
        CountingCalls(paired, rehearse, id, s);
      }
    }
    assert IgnoresLog(I) by { CountingIgnoresLog(paired, rehearse); }
    assert IgnoresPaired(I) by { CountingIgnoresPaired(paired, rehearse); }
  }

  lemma CountingIgnoresLog(paired: bool, rehearse: bool)
    ensures IgnoresLog(CountingWorld(paired, rehearse))
  {
    var I := CountingWorld(paired, rehearse);
    forall s, t, id | Same(s, t) ensures I.check(id, s) == I.check(id, t) && I.exec(id, s) == I.exec(id, t) {
      CountingCalls(paired, rehearse, id, s);
      CountingCalls(paired, rehearse, id, t);
    }
  }

  lemma CountingIgnoresPaired(paired: bool, rehearse: bool)
    ensures IgnoresPaired(CountingWorld(paired, rehearse))
  {
    var I := CountingWorld(paired, rehearse);
    forall s, t, id | SameButPaired(s, t)
      ensures I.check(id, s).ok == I.check(id, t).ok && I.check(id, s).err == I.check(id, t).err
      ensures I.check(id, s).ctx.rest == I.check(id, t).ctx.rest
      ensures I.exec(id, s).err == I.exec(id, t).err && I.exec(id, s).ctx.rest == I.exec(id, t).ctx.rest
    {
      CountingCalls(paired, rehearse, id, s);
      CountingCalls(paired, rehearse, id, t);
    }
  }

  lemma CallsRespectSameButPaired<T(!new)>(I: Interp<CICtx<T>>, conds: set<Id>, acts: set<Id>)
    requires KeepsRepo(I) && IgnoresPaired(I) && Settings(CATALOG_REPO) !in acts
    ensures Respects(I, SameButPaired, conds, acts)
  {
    forall s, t, id | SameButPaired(s, t)
      ensures var r, q := CallCheck(I, id, s), CallCheck(I, id, t); r.ok == q.ok && r.err == q.err && SameButPaired(r.s, q.s)
    {
      ObservedSnoc(s.log, Checked(id, I.check(id, s).err));
      ObservedSnoc(t.log, Checked(id, I.check(id, t).err));
    }
    forall s, t, id | SameButPaired(s, t) && id in acts
      ensures var r, q := CallExec(I, id, s), CallExec(I, id, t); r.err == q.err && SameButPaired(r.s, q.s)
    {
      ObservedSnoc(s.log, Executed(id, I.exec(id, s).err));
      ObservedSnoc(t.log, Executed(id, I.exec(id, t).err));
    }
  }

  lemma CallsRespectSame<T(!new)>(I: Interp<CICtx<T>>, conds: set<Id>, acts: set<Id>)
    requires IgnoresLog(I)
    ensures Respects(I, Same, conds, acts)
  {
    forall s, t, id | Same(s, t)
      ensures var r, q := CallCheck(I, id, s), CallCheck(I, id, t); r.ok == q.ok && r.err == q.err && Same(r.s, q.s)
      ensures var r, q := CallExec(I, id, s), CallExec(I, id, t); r.err == q.err && Same(r.s, q.s)
    {
      ObservedSnoc(s.log, Checked(id, I.check(id, s).err));
      ObservedSnoc(t.log, Checked(id, I.check(id, t).err));
      ObservedSnoc(s.log, Executed(id, I.exec(id, s).err));
      ObservedSnoc(t.log, Executed(id, I.exec(id, t).err));
    }
  }
}
