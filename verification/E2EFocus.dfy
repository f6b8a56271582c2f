/**
 Running the test-selection rules of the e2e-tests repository: what is executed,
 and the focus list the nested rules leave behind.
 */
module E2EFocus {
  import opened GoStrings
  import opened Names
  import opened ChangedFiles
  import opened RulesEngine
  import opened EngineMeaning
  import opened EngineRelations
  import opened E2ECatalog
  import FilterComposition

  datatype E2ECtx = E2ECtx(diff: seq<string>, focus: seq<string>, labelFilter: string, timeoutMinutes: nat)

  // ----- The focus list -----

  predicate NoDuplicates(files: seq<string>) {
    forall i, j :: 0 <= i < j < |files| ==> files[i] != files[j]
  }

  function DedupeAppend(files: seq<string>, file: string): seq<string> {
    if file in files then files else files + [file]
  }

  /** `dedupeAppendFiles`. */
  method DedupeAppendFiles(files: seq<string>, file: string) returns (r: seq<string>)
    ensures r == DedupeAppend(files, file)
  {
    for i := 0 to |files|
      invariant file !in files[..i]
    {
      if files[i] == file {
        return files;
      }
    }
    return files + [file];
  }

  function AppendAll(files: seq<string>, names: seq<string>): seq<string>
    decreases names
  {
    if names == [] then files else AppendAll(DedupeAppend(files, names[0]), names[1..])
  }

  /** The loop shared by the actions that add focus files. */
  method AppendFocusFiles(files: seq<string>, names: seq<string>) returns (r: seq<string>)
    ensures r == AppendAll(files, names)
  {
    r := files;
    for i := 0 to |names|
      invariant AppendAll(r, names[i..]) == AppendAll(files, names)
    {
      assert names[i..][1..] == names[i + 1..];
      r := DedupeAppendFiles(r, names[i]);
    }
  }

  lemma {:induction false} AppendAllGrows(files: seq<string>, names: seq<string>)
    ensures files <= AppendAll(files, names)
    ensures NoDuplicates(files) ==> NoDuplicates(AppendAll(files, names))
    ensures forall f :: f in AppendAll(files, names) <==> f in files || f in names
    decreases names
  {
    if names != [] {
      AppendAllGrows(DedupeAppend(files, names[0]), names[1..]);
      assert names == [names[0]] + names[1..];
    }
  }

  function Without(names: seq<string>, subs: seq<string>): seq<string> {
    if names == [] then []
    else (if exists i :: 0 <= i < |subs| && Contains(names[0], subs[i]) then [] else [names[0]])
         + Without(names[1..], subs)
  }

  /** The focus files a nested rule adds; `disk` lists the files on disk, in the order of `filepath.Glob`. */
  function FocusNames(rule: Id, diff: seq<string>, disk: seq<string>): seq<string> {
    match rule
    case BuildOrTemplatesTestsOnly => KeepGlob(diff, BUILD_FILES)
    case BuildTemplatesDependent => ["tests/build/build_templates.go"]
    case BuildConst => Without(KeepGlob(diff, BUILD_FILES), ["source_build.go", "const.go", "scenarios.go"])
    case ReleaseTests => KeepGlob(diff, RELEASE_SUB)
    case ReleaseHelpersOnly => KeepGlob(disk, RELEASE_SUB)
    case DemoTests => KeepGlob(diff, DEMO_TESTS)
    case DemoConfigsOnly => KeepGlob(disk, DEMO_TESTS)
    case IntegrationTests => Without(KeepGlob(diff, INTEGRATION_FILES), ["const.go"])
    case IntegrationConst => Without(KeepGlob(disk, INTEGRATION_FILES), ["const.go"])
    case EcTests => KeepGlob(diff, EC_FILES)
    case _ => []
  }

  const DEFAULT_EXCLUDED := ["upgrade-create", "upgrade-verify", "upgrade-cleanup", "release-pipelines", "disaster-recovery"]
  const ALL_BUT_UPGRADE_EXCLUDED := ["upgrade-create", "upgrade-verify", "upgrade-cleanup", "disaster-recovery"]
  const DEFAULT_FILTER := FilterComposition.Exclusions(DEFAULT_EXCLUDED)
  const ALL_BUT_UPGRADE_FILTER := FilterComposition.Exclusions(ALL_BUT_UPGRADE_EXCLUDED)

  /** The nested rules whose action asks the file system first, and adds nothing if that fails. */
  predicate AsksDisk(rule: Id) {
    rule == ReleaseHelpersOnly || rule == DemoConfigsOnly || rule == IntegrationConst
  }

  /**
   What the world outside answers: the files on disk, the changed files of the
   repository, and which calls fail.
   */
  datatype Surroundings = Surroundings(
    disk: seq<string>,
    changed: seq<string>,
    fails: (Id, State<E2ECtx>) -> Option<Error>)

  /** The error of an action; the actions that only map changed files have none. */
  function ErrorOf(w: Surroundings, id: Id, s: State<E2ECtx>): Option<Error> {
    if id.FocusOn? && !AsksDisk(id.rule) then None else w.fails(id, s)
  }

  /** What an action does to the context. */
  function Acted(w: Surroundings, id: Id, ctx: E2ECtx, failed: bool): E2ECtx {
    match id
    case FocusOn(rule) =>
      if failed then ctx else ctx.(focus := AppendAll(ctx.focus, FocusNames(rule, ctx.diff, w.disk)))
    case Settings(_) => ctx.(diff := w.changed)
    case ExecuteDefaultTests => ctx.(labelFilter := DEFAULT_FILTER)
    case ExecuteAllButUpgrade => ctx.(labelFilter := ALL_BUT_UPGRADE_FILTER, timeoutMinutes := 150)
    case _ => ctx
  }

  function Act(w: Surroundings, id: Id, s: State<E2ECtx>): Effect<E2ECtx> {
    var err := ErrorOf(w, id, s);
    Effect(Acted(w, id, s.ctx, err.Some?), err)
  }

  /** The conditions read the diff only. */
  function E2EInterp(w: Surroundings): Interp<E2ECtx> {
    Interp(
      (id, s: State<E2ECtx>) => Answer(s.ctx, Answers(s.ctx.diff, id), None),
      (id, s: State<E2ECtx>) => Act(w, id, s))
  }

  /** The focus list has grown at its end only, and the diff is the one at the start or the one looked up. */
  predicate Grown(w: Surroundings, s: E2ECtx, t: E2ECtx) {
    s.focus <= t.focus && NoDuplicates(t.focus) && (t.diff == s.diff || t.diff == w.changed)
  }

  /**
   Whatever catalog is run, whatever fails on the way, and whether or not the
   rules that touched it match in the end: the focus list only grows at its end
   and never holds a file twice.
   */
  lemma FocusOnlyGrows(w: Surroundings, rules: RuleCatalog, s: State<E2ECtx>)
    requires NoDuplicates(s.ctx.focus)
    ensures Grown(w, s.ctx, RunCatalog(E2EInterp(w), rules, [], s).s.ctx)
  {
    var I := E2EInterp(w);
    var inv := (t: State<E2ECtx>) => Grown(w, s.ctx, t.ctx);
    forall t, id | inv(t) ensures inv(CallExec(I, id, t).s) {
      assert CallExec(I, id, t).s.ctx == Act(w, id, t).ctx;
      if id.FocusOn? { AppendAllGrows(t.ctx.focus, FocusNames(id.rule, t.ctx.diff, w.disk)); }
    }
    RunKeeps(I, inv, rules, [], s);
  }

  // ----- What is executed -----

  ghost predicate NoFailure(w: Surroundings) {
    forall id, s :: w.fails(id, s).None?
  }

  /** The rules that match, in catalog order. */
  lemma MatchedRules(v: Valuation)
    ensures Matched(E2E_TESTS, v)
         == (if Holds(NON_TEST_FILES.condition, v) then [NON_TEST_FILES] else [])
          + (if Holds(NON_TEST_FILES_WITH_RELEASE.condition, v) then [NON_TEST_FILES_WITH_RELEASE] else [])
          + (if Holds(TEST_FILES_ONLY.condition, v) then [TEST_FILES_ONLY] else [])
  {
    var two := [NON_TEST_FILES_WITH_RELEASE, TEST_FILES_ONLY];
    assert E2E_TESTS[1..] == two && two[1..] == [TEST_FILES_ONLY] && [TEST_FILES_ONLY][1..] == [];
    assert Matched([TEST_FILES_ONLY], v) == if Holds(TEST_FILES_ONLY.condition, v) then [TEST_FILES_ONLY] else [];
    assert Matched(two, v)
        == (if Holds(NON_TEST_FILES_WITH_RELEASE.condition, v) then [NON_TEST_FILES_WITH_RELEASE] else [])
         + Matched([TEST_FILES_ONLY], v);
  }

  predicate OnlyFocus(actions: seq<Id>) {
    forall a <- actions :: a.FocusOn?
  }

  lemma AllActionsTwo(a: Rule, b: Rule)
    ensures AllActions([a]) == a.actions && AllActions([a, b]) == a.actions + b.actions
  {
    assert [a][1..] == [] && [b][1..] == [] && [a, b][1..] == [b];
    assert AllActions([b]) == b.actions + [];
  }

  /** Every action below the condition adds focus files. */
  predicate FocusBelow(c: Cond) {
    match c
    case Func(_) => true
    case Any(cs) => forall i :: 0 <= i < |cs| ==> FocusBelow(cs[i])
    case All(cs) => forall i :: 0 <= i < |cs| ==> FocusBelow(cs[i])
    case NoneOf(cs) => forall i :: 0 <= i < |cs| ==> FocusBelow(cs[i])
    case Sub(rule) => FocusBelow(rule.condition) && OnlyFocus(rule.actions)
  }

  lemma {:induction false} IdsFocus(c: Cond)
    requires FocusBelow(c)
    ensures forall a <- ActionIds(c) :: a.FocusOn?
  {
    match c
    case Func(_) =>
    case Any(cs) => forall i | 0 <= i < |cs| ensures forall a <- ActionIds(cs[i]) :: a.FocusOn? { IdsFocus(cs[i]); }
    case All(cs) => forall i | 0 <= i < |cs| ensures forall a <- ActionIds(cs[i]) :: a.FocusOn? { IdsFocus(cs[i]); }
    case NoneOf(cs) => forall i | 0 <= i < |cs| ensures forall a <- ActionIds(cs[i]) :: a.FocusOn? { IdsFocus(cs[i]); }
    case Sub(rule) => IdsFocus(rule.condition);
  }

  lemma ListFocus(cs: seq<Cond>)
    requires forall i :: 0 <= i < |cs| ==> cs[i].Func? || exists id :: cs[i] == FocusRule(id)
    ensures FocusBelow(Any(cs)) && FocusBelow(NoneOf(cs))
  {
    forall i | 0 <= i < |cs| ensures FocusBelow(cs[i]) {
      if !cs[i].Func? {
        var id :| cs[i] == FocusRule(id);
        assert FocusBelow(Func(id));
      }
    }
  }

  lemma PairFocus(a: Cond, b: Cond)
    requires FocusBelow(a) && FocusBelow(b)
    ensures FocusBelow(All([a, b]))
  {
  }

  lemma ConditionsFocus(i: nat)
    requires i < 3
    ensures FocusBelow(E2E_TESTS[i].condition)
  {
    var all := E2E_TESTS[i].condition;
    ListFocus(all.cs[0].cs);
    if i == 0 { ListFocus(all.cs[1].cs); }
    if i == 2 { ListFocus(FILE_RULES); }
    PairFocus(all.cs[0], all.cs[1]);
  }

  /** No action of the catalog replaces the diff. */
  lemma NoSettings()
    ensures forall a <- CatalogActs(E2E_TESTS) :: !a.Settings?
  {
    forall i | 0 <= i < 3 ensures forall a <- ActionIds(E2E_TESTS[i].condition) :: a.FocusOn? {
      ConditionsFocus(i);
      IdsFocus(E2E_TESTS[i].condition);
    }
  }

  lemma StableRun(w: Surroundings, s: State<E2ECtx>, inv: State<E2ECtx> -> bool, conds: set<Id>, acts: set<Id>)
    requires NoFailure(w) && forall t :: inv(t) <==> t.ctx.diff == s.ctx.diff
    requires forall a <- acts :: !a.Settings?
    ensures Stable(E2EInterp(w), inv, Value(s.ctx.diff), conds, acts)
  {
    var I := E2EInterp(w);
    forall t, id | id in acts && inv(t)
      ensures var r := CallExec(I, id, t); r.err.None? && inv(r.s)
    {
      assert CallExec(I, id, t).s.ctx == Act(w, id, t).ctx;
      assert CallExec(I, id, t).err == ErrorOf(w, id, t);
    }
  }
}
