/**
 The order in which the `ci` catalogs are loaded does not matter: whatever the
 repository, only its own catalog does anything, and what it does is the same
 wherever it stands.
 */
module CIOrder {
  import opened GoStrings
  import opened Names
  import opened RulesEngine
  import opened EngineMeaning
  import opened EngineRelations
  import opened E2ECatalog
  import opened CICatalogs

  // ----- Catalogs of other repositories -----

  /** Checking the condition changes nothing but the pairing flag, and it does not hold. */
  ghost predicate Idle<T>(s: State<CICtx<T>>, r: Outcome<CICtx<T>>) {
    !r.ok && r.err.None? && SameButPaired(s, r.s)
  }

  ghost predicate Inert<T(!new)>(I: Interp<CICtx<T>>, rules: RuleCatalog, repo: string) {
    forall s: State<CICtx<T>>, i {:trigger CheckCond(I, rules[i].condition, s)} ::
      0 <= i < |rules| && s.ctx.repo == repo ==> Idle(s, CheckCond(I, rules[i].condition, s))
  }

  lemma CheckAllCons<Ctx>(I: Interp<Ctx>, c: Cond, cs: seq<Cond>, s: State<Ctx>)
    ensures CheckAll(I, [c] + cs, s)
         == var r := CheckCond(I, c, s); if r.err.Some? || !r.ok then r else CheckAll(I, cs, r.s)
  {
    assert ([c] + cs)[1..] == cs;
  }

  lemma AnyOne<Ctx>(I: Interp<Ctx>, c: Cond, s: State<Ctx>)
    ensures CheckCond(I, Any([c]), s)
         == var r := CheckCond(I, c, s); Outcome(r.s, r.ok && r.err.None?, r.err)
  {
    var r := CheckCond(I, c, s);
    assert [c][1..] == [];
    if r.err.None? {
      assert CheckAny(I, [c], s, false) == CheckAny(I, [], r.s, r.ok);
    }
  }

  lemma NoneOne<Ctx>(I: Interp<Ctx>, c: Cond, s: State<Ctx>)
    ensures CheckCond(I, NoneOf([c]), s)
         == var r := CheckCond(I, c, s); if r.err.Some? then r else Outcome(r.s, !r.ok, None)
  {
    var r := CheckCond(I, c, s);
    assert [c][1..] == [];
    if r.err.None? && !r.ok {
      assert CheckNone(I, [c], s) == CheckNone(I, [], r.s);
    }
  }

  lemma AnyTwo<Ctx>(I: Interp<Ctx>, a: Cond, b: Cond, s: State<Ctx>)
    requires CheckCond(I, a, s).err.None? && CheckCond(I, b, CheckCond(I, a, s).s).err.None?
    ensures CheckCond(I, Any([a, b]), s)
         == var r := CheckCond(I, a, s); Outcome(CheckCond(I, b, r.s).s, r.ok || CheckCond(I, b, r.s).ok, None)
  {
    var r := CheckCond(I, a, s);
    var q := CheckCond(I, b, r.s);
    assert [a, b][1..] == [b] && [b][1..] == [];
    assert CheckAny(I, [a, b], s, false) == CheckAny(I, [b], r.s, r.ok);
    assert CheckAny(I, [b], r.s, r.ok) == CheckAny(I, [], q.s, r.ok || q.ok);
  }

  lemma CheckedSame<T(!new)>(I: Interp<CICtx<T>>, id: Id, s: State<CICtx<T>>)
    requires KeepsRepo(I) && I.check(id, s).ctx.rest == s.ctx.rest && IsGuard(id)
    ensures SameButPaired(s, CallCheck(I, id, s).s)
  {
    ObservedSnoc(s.log, Checked(id, I.check(id, s).err));
  }

  lemma OtherSettings<T(!new)>(I: Interp<CICtx<T>>, repo: string, s: State<CICtx<T>>)
    requires GuardsCompare(I) && KeepsRepo(I) && s.ctx.repo != repo
    ensures Idle(s, CheckCond(I, Sub(SettingsRule(repo)), s))
  {
    AnyOne(I, Func(RepoIs(repo)), s);
    assert I.check(RepoIs(repo), s) == Answer(s.ctx, false, None);
    CheckedSame(I, RepoIs(repo), s);
  }

  lemma GuardedIdle<T(!new)>(I: Interp<CICtx<T>>, repo: string, rest: seq<Cond>, s: State<CICtx<T>>)
    requires GuardsCompare(I) && KeepsRepo(I) && s.ctx.repo != repo
    ensures Idle(s, CheckCond(I, Guarded(repo, rest), s))
  {
    OtherSettings(I, repo, s);
    CheckAllCons(I, Sub(SettingsRule(repo)), rest, s);
  }

  lemma PairedGuardChecks<T(!new)>(I: Interp<CICtx<T>>, s: State<CICtx<T>>)
    requires PairingStores(I) && KeepsRepo(I)
    ensures var r := CheckCond(I, Func(IsPaired), s); r.err.None? && SameButPaired(s, r.s)
    ensures var r := CheckCond(I, NoneOf([Func(IsPaired)]), s); r.err.None? && SameButPaired(s, r.s)
    ensures var r := CheckCond(I, Func(IsRehearse), s); r.err.None? && SameButPaired(s, r.s)
    ensures var r := CheckCond(I, NOT_REHEARSE, s); r.err.None? && SameButPaired(s, r.s)
  {
    CheckedSame(I, IsPaired, s);
    CheckedSame(I, IsRehearse, s);
    NoneOne(I, Func(IsPaired), s);
    NoneOne(I, Func(IsRehearse), s);
  }

  /** The rules of release-service-catalog stop at their settings in any other repository. */
  lemma PairedIdle<T(!new)>(I: Interp<CICtx<T>>, rest: seq<Cond>, s: State<CICtx<T>>)
    requires GuardsCompare(I) && PairingStores(I) && KeepsRepo(I) && s.ctx.repo != CATALOG_REPO
    ensures Idle(s, CheckCond(I, PairedCond([Sub(SettingsRule(CATALOG_REPO))] + rest), s))
  {
    var workflow := [Sub(SettingsRule(CATALOG_REPO))] + rest;
    PairedGuardChecks(I, s);
    var r := CheckCond(I, Func(IsPaired), s);
    PairedGuardChecks(I, r.s);
    var q := CheckCond(I, NOT_REHEARSE, r.s);
    GuardedIdle(I, CATALOG_REPO, rest, q.s);
    CheckAllCons(I, NOT_REHEARSE, workflow, r.s);
    CheckAllCons(I, Func(IsPaired), [NOT_REHEARSE] + workflow, s);
  }

  lemma UnpairedIdle<T(!new)>(I: Interp<CICtx<T>>, rest: seq<Cond>, s: State<CICtx<T>>)
    requires GuardsCompare(I) && PairingStores(I) && KeepsRepo(I) && s.ctx.repo != CATALOG_REPO
    ensures Idle(s, CheckCond(I, UnpairedCond([Sub(SettingsRule(CATALOG_REPO))] + rest), s))
  {
    PairedGuardChecks(I, s);
    var r := CheckCond(I, NoneOf([Func(IsPaired)]), s);
    PairedGuardChecks(I, r.s);
    AnyTwo(I, NoneOf([Func(IsPaired)]), Func(IsRehearse), s);
    var q := CheckCond(I, UNPAIRED_GUARD, s);
    GuardedIdle(I, CATALOG_REPO, rest, q.s);
    CheckAllCons(I, UNPAIRED_GUARD, [Sub(SettingsRule(CATALOG_REPO))] + rest, s);
  }

  lemma ReleaseCatalogInert<T(!new)>(I: Interp<CICtx<T>>, repo: string)
    requires GuardsCompare(I) && PairingStores(I) && KeepsRepo(I) && repo != CATALOG_REPO
    ensures Inert(I, RELEASE_CATALOG_CI, repo)
  {
    var rest := CATALOG_WORKFLOW[1..];
    assert [Sub(SettingsRule(CATALOG_REPO))] + rest == CATALOG_WORKFLOW;
    forall s: State<CICtx<T>>, j | 0 <= j < 2 && s.ctx.repo == repo
      ensures Idle(s, CheckCond(I, RELEASE_CATALOG_CI[j].condition, s))
    {
      if j == 0 { PairedIdle(I, rest, s); } else { UnpairedIdle(I, rest, s); }
    }
  }

  lemma GuardedInert<T(!new)>(I: Interp<CICtx<T>>, rule: Rule, guard: string, rest: seq<Cond>, repo: string)
    requires GuardsCompare(I) && KeepsRepo(I) && repo != guard && rule.condition == Guarded(guard, rest)
    ensures Inert(I, [rule], repo)
  {
    forall s: State<CICtx<T>>, j | 0 <= j < 1 && s.ctx.repo == repo
      ensures Idle(s, CheckCond(I, [rule][j].condition, s))
    {
      GuardedIdle(I, guard, rest, s);
    }
  }

  /** What follows the settings in the workflow of a repository other than release-service-catalog. */
  function RestOf(i: nat): seq<Cond> {
    if i == 0 then [OPTIONAL_PAIRING, Sub(PREFLIGHT), Sub(BOOTSTRAP), TEST_SELECTION]
    else if i == 1 then [OPTIONAL_PAIRING, Sub(PREFLIGHT), OPTIONAL_INSTALL]
    else [OPTIONAL_PAIRING, Sub(PREFLIGHT), OPTIONAL_BOOTSTRAP]
  }

  lemma CatalogShape(i: nat)
    requires i < COUNT && i != 2
    ensures |CatalogAt(i)| == 1 && CatalogAt(i)[0].condition == Guarded(REPOS[i], RestOf(i))
  {
  }

  /** A catalog does nothing observable for another repository. */
  lemma OtherCatalogInert<T(!new)>(I: Interp<CICtx<T>>, i: nat, repo: string)
    requires GuardsCompare(I) && PairingStores(I) && KeepsRepo(I) && i < COUNT && repo != REPOS[i]
    ensures Inert(I, CatalogAt(i), repo)
  {
    if i == 2 {
      ReleaseCatalogInert(I, repo);
    } else {
      CatalogShape(i);
      assert CatalogAt(i) == [CatalogAt(i)[0]];
      GuardedInert(I, CatalogAt(i)[0], REPOS[i], RestOf(i), repo);
    }
  }

  // ----- Inert catalogs around a catalog -----

  lemma {:induction false} InertBefore<T(!new)>(
      I: Interp<CICtx<T>>, pre: RuleCatalog, rules: RuleCatalog, matched: RuleCatalog, s: State<CICtx<T>>)
    returns (t: State<CICtx<T>>)
    requires Inert(I, pre, s.ctx.repo)
    ensures SameButPaired(s, t)
    ensures RunCatalog(I, pre + rules, matched, s) == RunCatalog(I, rules, matched, t)
    decreases pre
  {
    if pre == [] {
      assert pre + rules == rules;
      t := s;
    } else {
      var r := CheckCond(I, pre[0].condition, s);
      assert (pre + rules)[0] == pre[0] && (pre + rules)[1..] == pre[1..] + rules;
      InertRest(I, pre, s.ctx.repo);
      t := InertBefore(I, pre[1..], rules, matched, r.s);
    }
  }

  lemma InertRest<T(!new)>(I: Interp<CICtx<T>>, rules: RuleCatalog, repo: string)
    requires rules != [] && Inert(I, rules, repo)
    ensures Inert(I, rules[1..], repo)
  {
    forall s: State<CICtx<T>>, i | 0 <= i < |rules| - 1 && s.ctx.repo == repo
      ensures Idle(s, CheckCond(I, rules[1..][i].condition, s))
    {
      assert rules[1..][i] == rules[i + 1];
    }
  }

  lemma {:induction false} InertAfter<T(!new)>(
      I: Interp<CICtx<T>>, rules: RuleCatalog, post: RuleCatalog, matched: RuleCatalog,
      acts: set<Id>, s: State<CICtx<T>>)
    requires KeepsRepo(I) && IgnoresPaired(I) && Inert(I, post, s.ctx.repo) && Settings(CATALOG_REPO) !in acts
    requires ActionsIn(rules, acts) && ActionsIn(matched, acts)
    ensures RanAlike(SameButPaired, RunCatalog(I, rules + post, matched, s), RunCatalog(I, rules, matched, s))
    decreases rules
  {
    if rules == [] {
      var t := InertBefore(I, post, [], matched, s);
      assert post + [] == rules + post;
      CallsRespectSameButPaired(I, {}, acts);
      assert SameButPaired(t, s);
      FinishAlike(I, SameButPaired, {}, acts, matched, t, s);
    } else {
      var r := CheckCond(I, rules[0].condition, s);
      assert (rules + post)[0] == rules[0] && (rules + post)[1..] == rules[1..] + post;
      RepoStays(I, rules[0].condition, s);
      InertAfter(I, rules[1..], post, matched, acts, r.s);
      InertAfter(I, rules[1..], post, matched + [rules[0]], acts, r.s);
    }
  }

  lemma RepoStays<T(!new)>(I: Interp<CICtx<T>>, c: Cond, s: State<CICtx<T>>)
    requires KeepsRepo(I)
    ensures CheckCond(I, c, s).s.ctx.repo == s.ctx.repo
  {
    var inv := (t: State<CICtx<T>>) => t.ctx.repo == s.ctx.repo;
    CheckKeeps(I, inv, c, s);
  }

  // ----- The repository's own catalog -----

  /** The action does not occur in the condition. */
  predicate Lacks(c: Cond, a: Id) {
    match c
    case Func(_) => true
    case Any(cs) => forall i :: 0 <= i < |cs| ==> Lacks(cs[i], a)
    case All(cs) => forall i :: 0 <= i < |cs| ==> Lacks(cs[i], a)
    case NoneOf(cs) => forall i :: 0 <= i < |cs| ==> Lacks(cs[i], a)
    case Sub(rule) => Lacks(rule.condition, a) && a !in rule.actions
  }

  lemma {:induction false} LacksId(c: Cond, a: Id)
    requires Lacks(c, a)
    ensures a !in ActionIds(c)
  {
    match c
    case Func(_) =>
    case Any(cs) => forall i | 0 <= i < |cs| ensures a !in ActionIds(cs[i]) { LacksId(cs[i], a); }
    case All(cs) => forall i | 0 <= i < |cs| ensures a !in ActionIds(cs[i]) { LacksId(cs[i], a); }
    case NoneOf(cs) => forall i | 0 <= i < |cs| ensures a !in ActionIds(cs[i]) { LacksId(cs[i], a); }
    case Sub(rule) => LacksId(rule.condition, a);
  }

  lemma PartsLack(a: Id)
    requires a.Settings?
    ensures Lacks(OPTIONAL_PAIRING, a) && Lacks(Sub(PREFLIGHT), a) && Lacks(Sub(BOOTSTRAP), a)
    ensures Lacks(OPTIONAL_INSTALL, a) && Lacks(OPTIONAL_BOOTSTRAP, a)
  {
    assert Lacks(Sub(PAIRING), a) && Lacks(Sub(INSTALL), a) && Lacks(Sub(REGISTER), a) && Lacks(Sub(MULTI_PLATFORM), a);
    assert Lacks(NoneOf([Sub(PAIRING)]), a) && Lacks(NoneOf([Sub(INSTALL)]), a);
    assert Lacks(BOOTSTRAP_SPRAY.condition, a);
    assert Lacks(Sub(BOOTSTRAP_SPRAY), a);
    assert Lacks(NoneOf([Sub(BOOTSTRAP_SPRAY)]), a);
  }

  lemma FuncsLack(cs: seq<Cond>, a: Id)
    requires a.Settings?
    requires forall i :: 0 <= i < |cs| ==> cs[i].Func? || exists id :: cs[i] == FocusRule(id)
    ensures forall i :: 0 <= i < |cs| ==> Lacks(cs[i], a)
    ensures Lacks(Any(cs), a) && Lacks(NoneOf(cs), a)
  {
    forall i | 0 <= i < |cs| ensures Lacks(cs[i], a) {
      if !cs[i].Func? {
        var id :| cs[i] == FocusRule(id);
      }
    }
  }

  lemma TwoLack(x: Cond, y: Cond, a: Id)
    requires Lacks(x, a) && Lacks(y, a)
    ensures Lacks(All([x, y]), a)
  {
  }

  lemma SelectionLacks(a: Id)
    requires a.Settings?
    ensures Lacks(TEST_SELECTION, a)
  {
    var all1, all2, all3 := NON_TEST_FILES.condition, NON_TEST_FILES_WITH_RELEASE.condition, TEST_FILES_ONLY.condition;
    FuncsLack(all1.cs[0].cs, a);
    FuncsLack(all1.cs[1].cs, a);
    FuncsLack(all2.cs[0].cs, a);
    FuncsLack(all3.cs[0].cs, a);
    FuncsLack(FILE_RULES, a);
    TwoLack(all1.cs[0], all1.cs[1], a);
    TwoLack(all2.cs[0], all2.cs[1], a);
    TwoLack(all3.cs[0], all3.cs[1], a);
  }

  lemma GuardedLacks(repo: string, rest: seq<Cond>)
    requires repo != CATALOG_REPO
    requires forall i :: 0 <= i < |rest| ==> Lacks(rest[i], Settings(CATALOG_REPO))
    ensures Settings(CATALOG_REPO) !in ActionIds(Guarded(repo, rest))
  {
    var a := Settings(CATALOG_REPO);
    var cs := [Sub(SettingsRule(repo))] + rest;
    assert Lacks(SettingsRule(repo).condition, a);
    assert forall i :: 0 < i < |cs| ==> cs[i] == rest[i - 1];
    LacksId(Guarded(repo, rest), a);
  }

  lemma GuardedAlike<T(!new)>(I: Interp<CICtx<T>>, c: Cond, s: State<CICtx<T>>, t: State<CICtx<T>>)
    requires World(I) && SameButPaired(s, t) && Settings(CATALOG_REPO) !in ActionIds(c)
    ensures Alike(SameButPaired, CheckCond(I, c, s), CheckCond(I, c, t))
  {
    CallsRespectSameButPaired(I, CondIds(c), ActionIds(c));
    CheckAlike(I, SameButPaired, CondIds(c), ActionIds(c), c, s, t);
  }

  lemma RestLacks(i: nat)
    ensures forall j :: 0 <= j < |RestOf(i)| ==> Lacks(RestOf(i)[j], Settings(CATALOG_REPO))
  {
    PartsLack(Settings(CATALOG_REPO));
    SelectionLacks(Settings(CATALOG_REPO));
  }

  lemma NamesDiffer(i: nat, j: nat)
    requires i < COUNT && j < COUNT && i != j
    ensures REPOS[i] != REPOS[j]
  {
    assert |REPOS[0]| == 9 && |REPOS[1]| == 15 && |REPOS[2]| == 23 && |REPOS[3]| == 19 && |REPOS[4]| == 16 && |REPOS[5]| == 13;
  }

  /** After `isPaired` has stored its answer, states that differed in the flag agree. */
  lemma PairedAlike<T(!new)>(I: Interp<CICtx<T>>, rest: seq<Cond>, s: State<CICtx<T>>, t: State<CICtx<T>>)
    requires World(I) && SameButPaired(s, t)
    ensures Alike(SameButPaired, CheckCond(I, PairedCond(rest), s), CheckCond(I, PairedCond(rest), t))
  {
    var cs := [Func(IsPaired)] + ([NOT_REHEARSE] + rest);
    assert Alike(Same, CheckAll(I, cs, s), CheckAll(I, cs, t)) by {
      PairedSettles(I, s, t);
      AllAfter(I, Func(IsPaired), [NOT_REHEARSE] + rest, s, t);
    }
    Coarser(CheckAll(I, cs, s), CheckAll(I, cs, t));
  }

  lemma Coarser<T>(r: Outcome<CICtx<T>>, q: Outcome<CICtx<T>>)
    requires Alike(Same, r, q)
    ensures Alike(SameButPaired, r, q)
  {
  }

  lemma AllAfter<T(!new)>(I: Interp<CICtx<T>>, c: Cond, cs: seq<Cond>, s: State<CICtx<T>>, t: State<CICtx<T>>)
    requires IgnoresLog(I) && Alike(Same, CheckCond(I, c, s), CheckCond(I, c, t))
    ensures Alike(Same, CheckAll(I, [c] + cs, s), CheckAll(I, [c] + cs, t))
  {
    CheckAllCons(I, c, cs, s);
    CheckAllCons(I, c, cs, t);
    AllAlike(I, cs, CheckCond(I, c, s).s, CheckCond(I, c, t).s);
  }

  lemma PairedSettles<T(!new)>(I: Interp<CICtx<T>>, s: State<CICtx<T>>, t: State<CICtx<T>>)
    requires World(I) && SameButPaired(s, t)
    ensures Alike(Same, CheckCond(I, Func(IsPaired), s), CheckCond(I, Func(IsPaired), t))
    ensures Alike(Same, CheckCond(I, NoneOf([Func(IsPaired)]), s), CheckCond(I, NoneOf([Func(IsPaired)]), t))
    ensures CheckCond(I, NoneOf([Func(IsPaired)]), s).err.None?
  {
    ObservedSnoc(s.log, Checked(IsPaired, I.check(IsPaired, s).err));
    ObservedSnoc(t.log, Checked(IsPaired, I.check(IsPaired, t).err));
    NoneOne(I, Func(IsPaired), s);
    NoneOne(I, Func(IsPaired), t);
  }

  lemma AllAlike<T(!new)>(I: Interp<CICtx<T>>, cs: seq<Cond>, s: State<CICtx<T>>, t: State<CICtx<T>>)
    requires IgnoresLog(I) && Same(s, t)
    ensures Alike(Same, CheckAll(I, cs, s), CheckAll(I, cs, t))
  {
    var c := All(cs);
    CallsRespectSame(I, CondIds(c), ActionIds(c));
    CheckAlike(I, Same, CondIds(c), ActionIds(c), c, s, t);
  }

  lemma UnpairedAlike<T(!new)>(I: Interp<CICtx<T>>, rest: seq<Cond>, s: State<CICtx<T>>, t: State<CICtx<T>>)
    requires World(I) && SameButPaired(s, t)
    ensures Alike(SameButPaired, CheckCond(I, UnpairedCond(rest), s), CheckCond(I, UnpairedCond(rest), t))
  {
    var cs := [UNPAIRED_GUARD] + rest;
    assert Alike(Same, CheckAll(I, cs, s), CheckAll(I, cs, t)) by {
      GuardSettles(I, s, t);
      AllAfter(I, UNPAIRED_GUARD, rest, s, t);
    }
    Coarser(CheckAll(I, cs, s), CheckAll(I, cs, t));
  }

  lemma GuardSettles<T(!new)>(I: Interp<CICtx<T>>, s: State<CICtx<T>>, t: State<CICtx<T>>)
    requires World(I) && SameButPaired(s, t)
    ensures Alike(Same, CheckCond(I, UNPAIRED_GUARD, s), CheckCond(I, UNPAIRED_GUARD, t))
  {
    var none := NoneOf([Func(IsPaired)]);
    PairedSettles(I, s, t);
    var r, q := CheckCond(I, none, s), CheckCond(I, none, t);
    AnyTwo(I, none, Func(IsRehearse), s);
    AnyTwo(I, none, Func(IsRehearse), t);
    CallsRespectSame(I, {IsRehearse}, {});
    assert CallCheck(I, IsRehearse, r.s).ok == CallCheck(I, IsRehearse, q.s).ok;
  }

  lemma ReleaseCatalogAlike<T(!new)>(I: Interp<CICtx<T>>)
    requires World(I)
    ensures RulesRespect(I, SameButPaired, RELEASE_CATALOG_CI)
  {
    var rules := RELEASE_CATALOG_CI;
    forall s: State<CICtx<T>>, t: State<CICtx<T>>, j | 0 <= j < 2 && SameButPaired(s, t)
      ensures Alike(SameButPaired, CheckCond(I, rules[j].condition, s), CheckCond(I, rules[j].condition, t))
    {
      if j == 0 { PairedAlike(I, CATALOG_WORKFLOW, s, t); } else { UnpairedAlike(I, CATALOG_WORKFLOW, s, t); }
    }
  }

  lemma GuardedRuleAlike<T(!new)>(I: Interp<CICtx<T>>, rule: Rule)
    requires World(I) && Settings(CATALOG_REPO) !in ActionIds(rule.condition)
    ensures RulesRespect(I, SameButPaired, [rule])
  {
    forall s: State<CICtx<T>>, t: State<CICtx<T>>, j | 0 <= j < 1 && SameButPaired(s, t)
      ensures Alike(SameButPaired, CheckCond(I, [rule][j].condition, s), CheckCond(I, [rule][j].condition, t))
    {
      GuardedAlike(I, rule.condition, s, t);
    }
  }

  /** Every catalog treats states that differ only in the pairing flag alike. */
  lemma OwnCatalogAlike<T(!new)>(I: Interp<CICtx<T>>, i: nat)
    requires World(I) && i < COUNT
    ensures RulesRespect(I, SameButPaired, CatalogAt(i))
  {
    if i == 2 {
      ReleaseCatalogAlike(I);
    } else {
      CatalogShape(i);
      OwnLacks(i);
      assert CatalogAt(i) == [CatalogAt(i)[0]];
      GuardedRuleAlike(I, CatalogAt(i)[0]);
    }
  }

  lemma OwnLacks(i: nat)
    requires i < COUNT && i != 2
    ensures Settings(CATALOG_REPO) !in ActionIds(Guarded(REPOS[i], RestOf(i)))
  {
    RestLacks(i);
    NamesDiffer(i, 2);
    GuardedLacks(REPOS[i], RestOf(i));
  }

  // ----- Loading in any order -----

  predicate Indices(order: seq<nat>) {
    forall j :: 0 <= j < |order| ==> order[j] < COUNT
  }

  /** A way for Go to iterate over the six catalogs: each index once. */
  predicate IsOrder(order: seq<nat>) {
    && Indices(order)
    && Distinct(order)
    && 0 in order && 1 in order && 2 in order && 3 in order && 4 in order && 5 in order
  }

  /** The catalogs concatenated in the given order. */
  function Load(order: seq<nat>): RuleCatalog
    requires Indices(order)
  {
    if order == [] then [] else CatalogAt(order[0]) + Load(order[1..])
  }

  const TOP_ACTIONS := {ExecuteTests, ExecuteCatalogPaired, ExecuteCatalog}

  lemma TopActions(i: nat)
    requires i < COUNT
    ensures ActionsIn(CatalogAt(i), TOP_ACTIONS)
  {
  }

  lemma InertConcat<T(!new)>(I: Interp<CICtx<T>>, a: RuleCatalog, b: RuleCatalog, repo: string)
    requires Inert(I, a, repo) && Inert(I, b, repo)
    ensures Inert(I, a + b, repo)
  {
    forall s: State<CICtx<T>>, i | 0 <= i < |a + b| && s.ctx.repo == repo
      ensures Idle(s, CheckCond(I, (a + b)[i].condition, s))
    {
      assert (a + b)[i] == if i < |a| then a[i] else b[i - |a|];
    }
  }

  lemma {:induction false} LoadInert<T(!new)>(I: Interp<CICtx<T>>, order: seq<nat>, repo: string)
    requires GuardsCompare(I) && PairingStores(I) && KeepsRepo(I)
    requires Indices(order) && forall j :: 0 <= j < |order| ==> REPOS[order[j]] != repo
    ensures Inert(I, Load(order), repo)
  {
    if order != [] {
      OtherCatalogInert(I, order[0], repo);
      LoadInert(I, order[1..], repo);
      InertConcat(I, CatalogAt(order[0]), Load(order[1..]), repo);
    }
  }

  lemma {:induction false} LoadConcat(a: seq<nat>, b: seq<nat>)
    requires Indices(a) && Indices(b)
    ensures Indices(a + b) && Load(a + b) == Load(a) + Load(b)
  {
    if a == [] {
      assert a + b == b;
    } else {
      assert (a + b)[0] == a[0] && (a + b)[1..] == a[1..] + b;
      LoadConcat(a[1..], b);
      RulesRegroup(CatalogAt(a[0]), Load(a[1..]), Load(b));
    }
  }

  predicate Distinct(order: seq<nat>) {
    forall i, j :: 0 <= i < j < |order| ==> order[i] != order[j]
  }

  lemma SplitAt(order: seq<nat>, j: nat)
    requires j < |order| && Indices(order) && Distinct(order)
    ensures var pre, post := order[..j], order[j + 1..];
            && order == pre + ([order[j]] + post) && Indices(pre) && Indices(post)
            && order[j] !in pre && order[j] !in post
  {
  }

  /** An index stands exactly once in an order. */
  lemma SplitOrder(order: seq<nat>, k: nat) returns (pre: seq<nat>, post: seq<nat>)
    requires IsOrder(order) && k < COUNT
    ensures order == pre + ([k] + post) && k !in pre && k !in post && Indices(pre) && Indices(post)
  {
    assert k in order;
    var j :| 0 <= j < |order| && order[j] == k;
    SplitAt(order, j);
    pre, post := order[..j], order[j + 1..];
  }

  lemma OthersDiffer(order: seq<nat>, k: nat)
    requires Indices(order) && k < COUNT && k !in order
    ensures forall j :: 0 <= j < |order| ==> REPOS[order[j]] != REPOS[k]
  {
    forall j | 0 <= j < |order| ensures REPOS[order[j]] != REPOS[k] { NamesDiffer(order[j], k); }
  }

  lemma OthersInert<T(!new)>(I: Interp<CICtx<T>>, order: seq<nat>, k: nat)
    requires GuardsCompare(I) && PairingStores(I) && KeepsRepo(I)
    requires Indices(order) && k < COUNT && k !in order
    ensures Inert(I, Load(order), REPOS[k])
  {
    OthersDiffer(order, k);
    LoadInert(I, order, REPOS[k]);
  }

  lemma LoadSplit(pre: seq<nat>, k: nat, post: seq<nat>)
    requires Indices(pre) && Indices(post) && k < COUNT
    ensures Indices(pre + ([k] + post)) && Load(pre + ([k] + post)) == Load(pre) + (CatalogAt(k) + Load(post))
  {
    LoadConcat(pre, [k] + post);
    assert ([k] + post)[1..] == post;
  }

  /** Run in any order, the catalogs do what the repository's own catalog does alone. */
  lemma OwnCatalogDecides<T(!new)>(I: Interp<CICtx<T>>, order: seq<nat>, k: nat, s: State<CICtx<T>>)
    requires World(I) && IsOrder(order) && k < COUNT && REPOS[k] == s.ctx.repo
    ensures RanAlike(SameButPaired, RunCatalog(I, Load(order), [], s), RunCatalog(I, CatalogAt(k), [], s))
  {
    var pre, post := SplitOrder(order, k);
    LoadSplit(pre, k, post);
    OthersInert(I, pre, k);
    OthersInert(I, post, k);
    TopActions(k);
    OwnCatalogAlike(I, k);
    SurroundedAlike(I, Load(pre), CatalogAt(k), Load(post), s);
  }

  lemma SurroundedAlike<T(!new)>(
      I: Interp<CICtx<T>>, pre: RuleCatalog, own: RuleCatalog, post: RuleCatalog, s: State<CICtx<T>>)
    requires KeepsRepo(I) && IgnoresPaired(I) && Inert(I, pre, s.ctx.repo) && Inert(I, post, s.ctx.repo)
    requires ActionsIn(own, TOP_ACTIONS) && RulesRespect(I, SameButPaired, own)
    ensures RanAlike(SameButPaired, RunCatalog(I, pre + (own + post), [], s), RunCatalog(I, own, [], s))
  {
    var t := InertBefore(I, pre, own + post, [], s);
    AloneAlike(I, own, post, s, t);
  }

  lemma AloneAlike<T(!new)>(
      I: Interp<CICtx<T>>, own: RuleCatalog, post: RuleCatalog, s: State<CICtx<T>>, t: State<CICtx<T>>)
    requires KeepsRepo(I) && IgnoresPaired(I) && Inert(I, post, t.ctx.repo) && SameButPaired(t, s)
    requires ActionsIn(own, TOP_ACTIONS) && RulesRespect(I, SameButPaired, own)
    ensures RanAlike(SameButPaired, RunCatalog(I, own + post, [], t), RunCatalog(I, own, [], s))
  {
    InertAfter(I, own, post, [], TOP_ACTIONS, t);
    assert RanAlike(SameButPaired, RunCatalog(I, own, [], t), RunCatalog(I, own, [], s)) by {
      CallsRespectSameButPaired(I, {}, TOP_ACTIONS);
      RunAlike(I, SameButPaired, {}, TOP_ACTIONS, own, [], t, s);
    }
    RanAlikeTrans(RunCatalog(I, own + post, [], t), RunCatalog(I, own, [], t), RunCatalog(I, own, [], s));
  }

  lemma RanAlikeTrans<T>(a: Ran<CICtx<T>>, b: Ran<CICtx<T>>, c: Ran<CICtx<T>>)
    requires RanAlike(SameButPaired, a, b) && RanAlike(SameButPaired, b, c)
    ensures RanAlike(SameButPaired, a, c)
  {
  }

  /** For a repository without a catalog, nothing happens. */
  lemma NoCatalogNoEffect<T(!new)>(I: Interp<CICtx<T>>, order: seq<nat>, s: State<CICtx<T>>)
    requires World(I) && IsOrder(order) && s.ctx.repo !in REPOS
    ensures var r := RunCatalog(I, Load(order), [], s); r.err.None? && SameButPaired(s, r.s)
  {
    LoadInert(I, order, s.ctx.repo);
    assert Load(order) + [] == Load(order);
    var t := InertBefore(I, Load(order), [], [], s);
  }

  /**
   For every two orders of the catalogs, in every world the source allows: the runs
   return the same error or none, make the same calls but for lookups by guards,
   so execute the same actions, and end in the same context, apart from the
   pairing flag.
   */
  lemma OrderIndependence<T(!new)>(I: Interp<CICtx<T>>, p: seq<nat>, q: seq<nat>, s: State<CICtx<T>>)
    requires World(I) && IsOrder(p) && IsOrder(q)
    ensures RanAlike(SameButPaired, RunCatalog(I, Load(p), [], s), RunCatalog(I, Load(q), [], s))
    ensures Actions(RunCatalog(I, Load(p), [], s).s.log) == Actions(RunCatalog(I, Load(q), [], s).s.log)
  {
    if s.ctx.repo in REPOS {
      var k :| 0 <= k < COUNT && REPOS[k] == s.ctx.repo;
      OwnCatalogDecides(I, p, k, s);
      OwnCatalogDecides(I, q, k, s);
    } else {
      NoCatalogNoEffect(I, p, s);
      NoCatalogNoEffect(I, q, s);
    }
    ObservedActions(RunCatalog(I, Load(p), [], s).s.log);
    ObservedActions(RunCatalog(I, Load(q), [], s).s.log);
  }

  // ----- The two rules of release-service-catalog -----

  /**
   The guards of the paired and the unpaired rule, evaluated one after the other
   with pairing lookups that may differ: exactly one passes unless the lookups
   disagree outside a rehearsal.
   */
  lemma ExactlyOneGuard<T(!new)>(I: Interp<CICtx<T>>, s: State<CICtx<T>>, t: State<CICtx<T>>, rehearse: bool)
    requires PairingStores(I)
    requires forall u: State<CICtx<T>> :: I.check(IsRehearse, u).ok == rehearse
    ensures var paired := CheckCond(I, All([Func(IsPaired), NOT_REHEARSE]), s).ok;
            var unpaired := CheckCond(I, UNPAIRED_GUARD, t).ok;
            (paired != unpaired) <==> (rehearse || I.check(IsPaired, s).ok == I.check(IsPaired, t).ok)
  {
    assert [Func(IsPaired), NOT_REHEARSE] == [Func(IsPaired)] + [NOT_REHEARSE];
    CheckAllCons(I, Func(IsPaired), [NOT_REHEARSE], s);
    var r := CheckCond(I, Func(IsPaired), s);
    assert [NOT_REHEARSE] == [NOT_REHEARSE] + [];
    CheckAllCons(I, NOT_REHEARSE, [], r.s);
    NoneOne(I, Func(IsRehearse), r.s);
    NoneOne(I, Func(IsPaired), t);
    AnyTwo(I, NoneOf([Func(IsPaired)]), Func(IsRehearse), t);
  }
}
