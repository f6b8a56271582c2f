/**
 What a run of the e2e-tests rules leaves behind, in terms of the changed paths: the
 focus list, the suites, the label filter and the timeout.
 */
module E2ERun {
  import opened GoStrings
  import opened Names
  import opened ChangedFiles
  import opened PathShapes
  import opened RulesEngine
  import opened EngineMeaning
  import opened EngineReplay
  import opened E2ECatalog
  import opened E2EFocus
  import LabelFilter
  import FilterComposition

  // ----- Kinds of test files -----

  predicate BuildTest(f: string) { FileAt(["tests", "build"], ".go", f) }
  predicate ReleaseHelper(f: string) { FileAt(["tests", "release"], ".go", f) }
  ghost predicate ReleaseTest(f: string) { FileIn(["tests", "release"], "", "", ".go", f) }
  predicate PipelineTest(f: string) { FileBelow(["tests", "release", "pipelines"], ".go", f) }
  ghost predicate DemoFile(f: string) { FileIn(["tests"], "", "-demo", ".go", f) }
  ghost predicate DemoTest(f: string) { FileIn(["tests"], "", "-demo", "-demo.go", f) }
  ghost predicate DemoConfig(f: string) { NestedIn(["tests"], "", "-demo", f) }
  ghost predicate IntegrationFile(f: string) { FileIn(["tests"], "integration-", "", ".go", f) }
  ghost predicate IntegrationConstFile(f: string) { NamedIn(["tests"], "integration-", "", "const.go", f) }
  ghost predicate EcTest(f: string) { FileIn(["tests"], "enterprise-", "", ".go", f) }

  predicate Scenarios(f: string) { Contains(f, "tests/build/build_templates_scenarios.go") }
  predicate SourceBuild(f: string) { Contains(f, "tests/build/source_build.go") }
  predicate ConstMentioned(f: string) { Contains(f, "tests/build/const.go") }

  /** Something changed, and only files of the tests. */
  predicate TestFilesOnly(diff: seq<string>) {
    diff != [] && forall f <- diff :: NoNonTestString(f)
  }

  /** Helpers in the root of the release tests changed, and no release test did. */
  ghost predicate HelpersOnly(diff: seq<string>) {
    (exists f <- diff :: ReleaseHelper(f)) && forall f <- diff :: !ReleaseTest(f)
  }

  /** The build rule that a changed build test goes by lets it into the focus list. */
  predicate BuildFocused(g: string, diff: seq<string>) {
    || (forall f <- diff :: !Scenarios(f) && !ConstMentioned(f) && !SourceBuild(f))
    || ("tests/build/const.go" in diff
        && !Contains(g, "source_build.go") && !Contains(g, "const.go") && !Contains(g, "scenarios.go"))
  }

  /** The focus files of a diff of test files only. */
  ghost predicate TestFocused(g: string, diff: seq<string>, disk: seq<string>) {
    || (g in diff && BuildTest(g) && BuildFocused(g, diff))
    || (g == "tests/build/build_templates.go" && exists f <- diff :: Scenarios(f) || SourceBuild(f))
    || (g in diff && ReleaseTest(g))
    || (g in diff && DemoTest(g))
    || (g in disk && DemoTest(g) && (forall f <- diff :: !DemoFile(f)) && exists f <- diff :: DemoConfig(f))
    || (g in diff && IntegrationFile(g) && !Contains(g, "const.go"))
    || (g in disk && IntegrationFile(g) && !Contains(g, "const.go") && exists f <- diff :: IntegrationConstFile(f))
    || (g in diff && EcTest(g))
  }

  /** The focus files of any diff. */
  ghost predicate Focused(g: string, diff: seq<string>, disk: seq<string>) {
    || (HelpersOnly(diff) && g in disk && ReleaseTest(g))
    || (TestFilesOnly(diff) && TestFocused(g, diff, disk))
  }

  /** The changed file is one that some test is mapped to. */
  ghost predicate MapsToTest(f: string) {
    || Scenarios(f) || SourceBuild(f) || f == "tests/build/const.go" || ReleaseTest(f)
    || DemoFile(f) || DemoConfig(f) || IntegrationFile(f) || EcTest(f)
  }

  ghost predicate Mapped(diff: seq<string>) {
    (forall f <- diff :: !ConstMentioned(f)) || exists f <- diff :: MapsToTest(f)
  }

  ghost predicate PipelinesChanged(diff: seq<string>) {
    exists f <- diff :: PipelineTest(f)
  }

  /** The suites that run. A dry run takes only the first where there are two. */
  ghost function SuitesFor(diff: seq<string>, dryRun: bool): seq<Id> {
    if !TestFilesOnly(diff) then
      if PipelinesChanged(diff) then [ExecuteAllButUpgrade] else [ExecuteDefaultTests]
    else if HelpersOnly(diff) && PipelinesChanged(diff) then
      if Mapped(diff) && !dryRun then [ExecuteAllButUpgrade, ExecuteTests] else [ExecuteAllButUpgrade]
    else if Mapped(diff) then [ExecuteTests] else []
  }

  // ----- Patterns as paths -----

  lemma BuildMeans(f: string)
    ensures PathMatch(BUILD_FILES, f) <==> BuildTest(f)
  {
    LitsTwo("tests", "build");
    assert BUILD_FILES == Lits(["tests", "build"]) + [Star("", ".go")];
    FileAtMeans(["tests", "build"], ".go", f);
  }

  lemma ReleaseRootMeans(f: string)
    ensures PathMatch(RELEASE_ROOT, f) <==> ReleaseHelper(f)
  {
    LitsTwo("tests", "release");
    assert RELEASE_ROOT == Lits(["tests", "release"]) + [Star("", ".go")];
    FileAtMeans(["tests", "release"], ".go", f);
  }

  lemma ReleaseSubMeans(f: string)
    ensures PathMatch(RELEASE_SUB, f) <==> ReleaseTest(f)
  {
    LitsTwo("tests", "release");
    assert RELEASE_SUB == Lits(["tests", "release"]) + ([Star("", "")] + [Star("", ".go")]);
    FileInMeans(["tests", "release"], "", "", ".go", f);
  }

  lemma PipelinesMeans(f: string)
    ensures PathMatch(RELEASE_PIPELINES, f) <==> PipelineTest(f)
  {
    LitsThree("tests", "release", "pipelines");
    assert RELEASE_PIPELINES == Lits(["tests", "release", "pipelines"]) + [DoubleStar, Star("", ".go")];
    FileBelowMeans(["tests", "release", "pipelines"], ".go", f);
  }

  lemma InTestsMeans(pre: string, suf: string, ends: string, f: string)
    requires NoSlash(pre) && NoSlash(suf)
    ensures PathMatch([Lit("tests"), Star(pre, suf), Star("", ends)], f) <==> FileIn(["tests"], pre, suf, ends, f)
  {
    LitsOne("tests");
    assert [Lit("tests"), Star(pre, suf), Star("", ends)] == Lits(["tests"]) + ([Star(pre, suf)] + [Star("", ends)]);
    FileInMeans(["tests"], pre, suf, ends, f);
  }

  lemma DemoMeans(f: string)
    ensures PathMatch(DEMO_FILES, f) <==> DemoFile(f)
    ensures PathMatch(DEMO_TESTS, f) <==> DemoTest(f)
  {
    InTestsMeans("", "-demo", ".go", f);
    InTestsMeans("", "-demo", "-demo.go", f);
  }

  lemma DemoNestedMeans(f: string)
    ensures PathMatch(DEMO_NESTED, f) <==> DemoConfig(f)
  {
    LitsOne("tests");
    assert DEMO_NESTED == Lits(["tests"]) + ([Star("", "-demo")] + ([Star("", "")] + [Star("", "")]));
    NestedInMeans(["tests"], "", "-demo", f);
  }

  lemma IntegrationMeans(f: string)
    ensures PathMatch(INTEGRATION_FILES, f) <==> IntegrationFile(f)
  {
    InTestsMeans("integration-", "", ".go", f);
  }

  lemma IntegrationConstMeans(f: string)
    ensures PathMatch(INTEGRATION_CONSTS, f) <==> IntegrationConstFile(f)
  {
    LitsOne("tests");
    assert INTEGRATION_CONSTS == Lits(["tests"]) + ([Star("integration-", "")] + [Lit("const.go")]);
    NamedInMeans(["tests"], "integration-", "", "const.go", f);
  }

  lemma EcMeans(f: string)
    ensures PathMatch(EC_FILES, f) <==> EcTest(f)
  {
    InTestsMeans("enterprise-", "", ".go", f);
  }

  /** Demo tests are demo files. */
  lemma DemoTestIsFile(f: string)
    requires DemoTest(f)
    ensures DemoFile(f)
  {
    var rest := f[|Dirs(["tests"])|..];
    var x, name :| StarHead(rest, "", x, "-demo", name) && NoSlash(name) && EndsWith(name, "-demo.go");
    ShorterEnd(name, "-demo.go", ".go");
  }

  lemma ShorterEnd(name: string, ends: string, last: string)
    requires EndsWith(name, ends) && EndsWith(ends, last)
    ensures EndsWith(name, last)
  {
    assert name[|name| - |last|..] == name[|name| - |ends|..][|ends| - |last|..];
  }

  // ----- The rules on the diff -----

  predicate HasPart(g: string, subs: seq<string>) {
    exists i :: 0 <= i < |subs| && Contains(g, subs[i])
  }

  lemma {:induction false} WithoutHas(names: seq<string>, subs: seq<string>)
    ensures forall g :: g in Without(names, subs) <==> g in names && !HasPart(g, subs)
  {
    if names != [] {
      WithoutHas(names[1..], subs);
      assert names == [names[0]] + names[1..];
    }
  }

  lemma WithoutOne(names: seq<string>, sub: string, g: string)
    ensures g in Without(names, [sub]) <==> g in names && !Contains(g, sub)
  {
    WithoutHas(names, [sub]);
    assert [sub][0] == sub;
  }

  lemma WithoutThree(names: seq<string>, a: string, b: string, c: string, g: string)
    ensures g in Without(names, [a, b, c]) <==> g in names && !Contains(g, a) && !Contains(g, b) && !Contains(g, c)
  {
    WithoutHas(names, [a, b, c]);
    var subs := [a, b, c];
    assert subs[0] == a && subs[1] == b && subs[2] == c;
  }

  /** A nested rule holds and adds the file. */
  predicate Adds(id: Id, g: string, diff: seq<string>, disk: seq<string>) {
    Answers(diff, id) && g in FocusNames(id, diff, disk)
  }

  /** A pattern means what `q` says. */
  ghost predicate Means(p: Pattern, q: string -> bool) {
    forall f :: PathMatch(p, f) <==> q(f)
  }

  lemma GlobOnDiff(files: seq<string>, p: Pattern, q: string -> bool)
    requires Means(p, q)
    ensures HasGlob(files, p) <==> exists f <- files :: q(f)
    ensures forall g :: g in KeepGlob(files, p) <==> g in files && q(g)
  {
    KeepGlobHas(files, p);
  }

  lemma ReleasePatterns()
    ensures Means(RELEASE_ROOT, f => ReleaseHelper(f)) && Means(RELEASE_SUB, f => ReleaseTest(f))
  {
    forall f ensures PathMatch(RELEASE_ROOT, f) <==> ReleaseHelper(f) { ReleaseRootMeans(f); }
    forall f ensures PathMatch(RELEASE_SUB, f) <==> ReleaseTest(f) { ReleaseSubMeans(f); }
  }

  lemma DemoPatterns()
    ensures Means(DEMO_FILES, f => DemoFile(f)) && Means(DEMO_TESTS, f => DemoTest(f)) && Means(DEMO_NESTED, f => DemoConfig(f))
  {
    forall f ensures PathMatch(DEMO_FILES, f) <==> DemoFile(f) { DemoMeans(f); }
    forall f ensures PathMatch(DEMO_TESTS, f) <==> DemoTest(f) { DemoMeans(f); }
    forall f ensures PathMatch(DEMO_NESTED, f) <==> DemoConfig(f) { DemoNestedMeans(f); }
  }

  lemma OtherPatterns()
    ensures Means(INTEGRATION_FILES, f => IntegrationFile(f)) && Means(INTEGRATION_CONSTS, f => IntegrationConstFile(f))
    ensures Means(EC_FILES, f => EcTest(f)) && Means(BUILD_FILES, f => BuildTest(f))
  {
    forall f ensures PathMatch(INTEGRATION_FILES, f) <==> IntegrationFile(f) { IntegrationMeans(f); }
    forall f ensures PathMatch(INTEGRATION_CONSTS, f) <==> IntegrationConstFile(f) { IntegrationConstMeans(f); }
    forall f ensures PathMatch(EC_FILES, f) <==> EcTest(f) { EcMeans(f); }
    forall f ensures PathMatch(BUILD_FILES, f) <==> BuildTest(f) { BuildMeans(f); }
  }

  lemma HelpersOnDiff(diff: seq<string>)
    ensures ReleaseHelpers(diff) <==> HelpersOnly(diff)
  {
    ReleasePatterns();
    GlobOnDiff(diff, RELEASE_ROOT, f => ReleaseHelper(f));
    GlobOnDiff(diff, RELEASE_SUB, f => ReleaseTest(f));
  }

  lemma BuildStrings(diff: seq<string>)
    ensures BuildOrTemplates(diff) <==> forall f <- diff :: !Scenarios(f) && !ConstMentioned(f) && !SourceBuild(f)
    ensures TemplatesDependent(diff) <==> exists f <- diff :: Scenarios(f) || SourceBuild(f)
  {
    ConstPath();
    KeepStringHas(diff, SCENARIOS_PATH);
    KeepStringHas(diff, SOURCE_BUILD_PATH);
    KeepStringHas(diff, CONST_PATH);
    forall f ensures Contains(f, SCENARIOS_PATH) <==> Scenarios(f) { }
    forall f ensures Contains(f, SOURCE_BUILD_PATH) <==> SourceBuild(f) { }
    forall f ensures Contains(f, CONST_PATH) <==> ConstMentioned(f) { }
  }

  lemma ConstPath()
    ensures CONST_PATH == "tests/build/const.go"
  {
  }

  lemma BuildFilesAdd(g: string, diff: seq<string>, disk: seq<string>)
    ensures Adds(BuildOrTemplatesTestsOnly, g, diff, disk)
       <==> BuildOrTemplates(diff) && g in diff && BuildTest(g)
    ensures Adds(BuildConst, g, diff, disk)
       <==> CONST_PATH in diff && g in diff && BuildTest(g)
            && !Contains(g, "source_build.go") && !Contains(g, "const.go") && !Contains(g, "scenarios.go")
  {
    OtherPatterns();
    GlobOnDiff(diff, BUILD_FILES, f => BuildTest(f));
    ConstOnDiff(diff);
    WithoutThree(KeepGlob(diff, BUILD_FILES), "source_build.go", "const.go", "scenarios.go", g);
  }

  lemma BuildAdds(g: string, diff: seq<string>, disk: seq<string>)
    ensures Adds(BuildOrTemplatesTestsOnly, g, diff, disk) || Adds(BuildConst, g, diff, disk)
       <==> g in diff && BuildTest(g) && BuildFocused(g, diff)
    ensures Adds(BuildTemplatesDependent, g, diff, disk)
       <==> g == "tests/build/build_templates.go" && exists f <- diff :: Scenarios(f) || SourceBuild(f)
  {
    BuildFilesAdd(g, diff, disk);
    BuildStrings(diff);
    ConstPath();
  }

  /** Whether a pattern is found decides the rule, and another one picks the files. */
  lemma GlobsAdd(
      diff: seq<string>, files: seq<string>, p: Pattern, q: string -> bool, r: Pattern, t: string -> bool, g: string)
    requires Means(p, q) && Means(r, t)
    ensures HasGlob(diff, p) && g in KeepGlob(files, r) <==> (exists f <- diff :: q(f)) && g in files && t(g)
  {
    GlobOnDiff(diff, p, q);
    GlobOnDiff(files, r, t);
  }

  lemma GlobsAddUnless(
      diff: seq<string>, files: seq<string>, p: Pattern, q: string -> bool, r: Pattern, t: string -> bool, g: string)
    requires Means(p, q) && Means(r, t)
    ensures HasGlob(diff, p) && !HasGlob(diff, r) && g in KeepGlob(files, r)
       <==> (exists f <- diff :: q(f)) && (forall f <- diff :: !t(f)) && g in files && t(g)
  {
    GlobOnDiff(diff, r, t);
    GlobsAdd(diff, files, p, q, r, t, g);
  }

  lemma HelpersAdd(g: string, diff: seq<string>, disk: seq<string>)
    ensures Adds(ReleaseHelpersOnly, g, diff, disk) <==> HelpersOnly(diff) && g in disk && ReleaseTest(g)
  {
    ReleasePatterns();
    GlobsAddUnless(diff, disk, RELEASE_ROOT, f => ReleaseHelper(f), RELEASE_SUB, f => ReleaseTest(f), g);
  }

  lemma DemoTestsAdd(g: string, diff: seq<string>, disk: seq<string>)
    ensures Adds(DemoTests, g, diff, disk) <==> g in diff && DemoTest(g)
  {
    DemoPatterns();
    GlobsAdd(diff, diff, DEMO_FILES, f => DemoFile(f), DEMO_TESTS, f => DemoTest(f), g);
    if DemoTest(g) { DemoTestIsFile(g); }
  }

  lemma DemoConfigsAdd(g: string, diff: seq<string>, disk: seq<string>)
    ensures Adds(DemoConfigsOnly, g, diff, disk)
       <==> g in disk && DemoTest(g) && (forall f <- diff :: !DemoFile(f)) && exists f <- diff :: DemoConfig(f)
  {
    DemoPatterns();
    GlobOnDiff(diff, DEMO_FILES, f => DemoFile(f));
    GlobsAdd(diff, disk, DEMO_NESTED, f => DemoConfig(f), DEMO_TESTS, f => DemoTest(f), g);
  }

  lemma IntegrationTestsAdd(g: string, diff: seq<string>, disk: seq<string>)
    ensures Adds(IntegrationTests, g, diff, disk) <==> g in diff && IntegrationFile(g) && !Contains(g, "const.go")
  {
    OtherPatterns();
    WithoutOne(KeepGlob(diff, INTEGRATION_FILES), "const.go", g);
    GlobsAdd(diff, diff, INTEGRATION_FILES, f => IntegrationFile(f), INTEGRATION_FILES, f => IntegrationFile(f), g);
  }

  lemma IntegrationConstAdds(g: string, diff: seq<string>, disk: seq<string>)
    ensures Adds(IntegrationConst, g, diff, disk)
       <==> g in disk && IntegrationFile(g) && !Contains(g, "const.go") && exists f <- diff :: IntegrationConstFile(f)
  {
    OtherPatterns();
    WithoutOne(KeepGlob(disk, INTEGRATION_FILES), "const.go", g);
    GlobsAdd(diff, disk, INTEGRATION_CONSTS, f => IntegrationConstFile(f), INTEGRATION_FILES, f => IntegrationFile(f), g);
  }

  lemma ReleaseTestsAdd(g: string, diff: seq<string>, disk: seq<string>)
    ensures Adds(ReleaseTests, g, diff, disk) <==> g in diff && ReleaseTest(g)
  {
    ReleasePatterns();
    GlobsAdd(diff, diff, RELEASE_SUB, f => ReleaseTest(f), RELEASE_SUB, f => ReleaseTest(f), g);
  }

  lemma EcTestsAdd(g: string, diff: seq<string>, disk: seq<string>)
    ensures Adds(EcTests, g, diff, disk) <==> g in diff && EcTest(g)
  {
    OtherPatterns();
    GlobsAdd(diff, diff, EC_FILES, f => EcTest(f), EC_FILES, f => EcTest(f), g);
  }

  /** Some rule among those listed holds and adds the file. */
  ghost predicate SomeAdds(ids: seq<Id>, g: string, diff: seq<string>, disk: seq<string>) {
    exists id <- ids :: Adds(id, g, diff, disk)
  }

  const FILE_IDS: seq<Id> := [
    BuildOrTemplatesTestsOnly, BuildTemplatesDependent, BuildConst, DemoConfigsOnly, DemoTests,
    ReleaseTests, IntegrationConst, IntegrationTests, EcTests]

  lemma FileRulesAdd(g: string, diff: seq<string>, disk: seq<string>)
    ensures SomeAdds(FILE_IDS, g, diff, disk) <==> TestFocused(g, diff, disk)
  {
    BuildAdds(g, diff, disk);
    DemoTestsAdd(g, diff, disk);
    DemoConfigsAdd(g, diff, disk);
    IntegrationTestsAdd(g, diff, disk);
    IntegrationConstAdds(g, diff, disk);
    ReleaseTestsAdd(g, diff, disk);
    EcTestsAdd(g, diff, disk);
    NineIds(g, diff, disk);
  }

  lemma NineIds(g: string, diff: seq<string>, disk: seq<string>)
    ensures SomeAdds(FILE_IDS, g, diff, disk)
       <==> || Adds(BuildOrTemplatesTestsOnly, g, diff, disk) || Adds(BuildTemplatesDependent, g, diff, disk)
            || Adds(BuildConst, g, diff, disk) || Adds(DemoConfigsOnly, g, diff, disk) || Adds(DemoTests, g, diff, disk)
            || Adds(ReleaseTests, g, diff, disk) || Adds(IntegrationConst, g, diff, disk)
            || Adds(IntegrationTests, g, diff, disk) || Adds(EcTests, g, diff, disk)
  {
    assert forall id :: id in FILE_IDS <==>
      id in {BuildOrTemplatesTestsOnly, BuildTemplatesDependent, BuildConst, DemoConfigsOnly, DemoTests,
             ReleaseTests, IntegrationConst, IntegrationTests, EcTests};
  }

  // ----- The actions of a run -----

  /** The focus actions of the rules that hold. */
  function Focusing(ids: seq<Id>, v: Valuation): seq<Id> {
    if ids == [] then [] else (if v(ids[0]) then [FocusOn(ids[0])] else []) + Focusing(ids[1..], v)
  }

  lemma {:induction false} FocusTraces(cs: seq<Cond>, ids: seq<Id>, v: Valuation)
    requires |cs| == |ids| && forall i :: 0 <= i < |cs| ==> cs[i] == FocusRule(ids[i])
    ensures Traces(cs, |cs|, v) == Focusing(ids, v)
  {
    if cs != [] {
      FocusTraces(cs[1..], ids[1..], v);
      FocusTrace(ids[0], v);
    }
  }

  lemma FocusTrace(id: Id, v: Valuation)
    ensures Trace(FocusRule(id), v) == if v(id) then [FocusOn(id)] else []
  {
    assert Trace(Func(id), v) == [];
  }

  lemma {:induction false} FuncsTrace(cs: seq<Cond>, n: nat, v: Valuation)
    requires n <= |cs| && forall i :: 0 <= i < |cs| ==> cs[i].Func?
    ensures Traces(cs, n, v) == []
  {
    if n > 0 { FuncsTrace(cs[1..], n - 1, v); }
  }

  lemma {:induction false} FuncsThen(cs: seq<Cond>, c: Cond, v: Valuation)
    requires forall i :: 0 <= i < |cs| ==> cs[i].Func?
    ensures Traces(cs + [c], |cs| + 1, v) == Trace(c, v)
  {
    if cs == [] {
      assert [] + [c] == [c] && [c][1..] == [];
      assert Traces([c], 1, v) == Trace(c, v) + [];
    } else {
      assert (cs + [c])[0] == cs[0] && (cs + [c])[1..] == cs[1..] + [c];
      FuncsThen(cs[1..], c, v);
      assert Trace(cs[0], v) == [];
    }
  }

  lemma BothTrace(a: Cond, b: Cond, v: Valuation)
    ensures Trace(All([a, b]), v) == Trace(a, v) + if Holds(a, v) then Trace(b, v) else []
  {
    var cs := [a, b];
    assert cs[1..] == [b] && [b][1..] == [];
    assert Visited([b], v, false) == 1;
    assert Traces([b], 1, v) == Trace(b, v) + [];
    assert Visited(cs, v, false) == if Holds(a, v) then 2 else 1;
    assert Traces(cs, 1, v) == Trace(a, v) + [];
    assert Traces(cs, 2, v) == Trace(a, v) + Traces([b], 1, v);
  }

  lemma FirstTrace(v: Valuation)
    ensures Trace(NON_TEST_FILES.condition, v) == []
  {
    var all := NON_TEST_FILES.condition;
    FuncsTrace(all.cs[0].cs, 5, v);
    FuncsTrace(all.cs[1].cs, Visited(all.cs[1].cs, v, true), v);
    BothTrace(all.cs[0], all.cs[1], v);
  }

  lemma SecondTrace(v: Valuation)
    ensures Trace(NON_TEST_FILES_WITH_RELEASE.condition, v)
         == if v(ReleaseHelpersOnly) then [FocusOn(ReleaseHelpersOnly)] else []
  {
    var all := NON_TEST_FILES_WITH_RELEASE.condition;
    var funcs := [Func(PkgChanged), Func(MageChanged), Func(CmdChanged), Func(TektonChanged)];
    assert all.cs[0].cs == funcs + [FocusRule(ReleaseHelpersOnly)];
    FuncsThen(funcs, FocusRule(ReleaseHelpersOnly), v);
    FocusTrace(ReleaseHelpersOnly, v);
    BothTrace(all.cs[0], all.cs[1], v);
    assert Trace(all.cs[1], v) == [];
  }

  lemma NoNonTest(v: Valuation)
    ensures var none := TEST_FILES_ONLY.condition.cs[0];
            Trace(none, v) == [] && (Holds(none, v) <==> !NonTestChanged(v) && !v(NothingChanged))
  {
    var none := TEST_FILES_ONLY.condition.cs[0];
    assert none.cs[0] == Func(PkgChanged) && none.cs[1] == Func(MageChanged) && none.cs[2] == Func(CmdChanged);
    assert none.cs[3] == Func(NothingChanged) && none.cs[4] == Func(TektonChanged);
    FuncsTrace(none.cs, Visited(none.cs, v, true), v);
  }

  lemma FilesTrace(v: Valuation)
    ensures Trace(Any(FILE_RULES), v) == Focusing(FILE_IDS, v)
  {
    FocusTraces(FILE_RULES, FILE_IDS, v);
  }

  lemma ThirdTrace(v: Valuation)
    ensures Trace(TEST_FILES_ONLY.condition, v)
         == if NonTestChanged(v) || v(NothingChanged) then [] else Focusing(FILE_IDS, v)
  {
    NoNonTest(v);
    FilesTrace(v);
    BothTrace(TEST_FILES_ONLY.condition.cs[0], Any(FILE_RULES), v);
  }

  lemma ThreeInOrder(a: Rule, b: Rule, c: Rule, v: Valuation)
    ensures CatalogTraces([a, b, c], v) == Trace(a.condition, v) + (Trace(b.condition, v) + Trace(c.condition, v))
  {
    assert [a, b, c][1..] == [b, c] && [b, c][1..] == [c] && [c][1..] == [];
    assert CatalogTraces([c], v) == Trace(c.condition, v) + [];
  }

  /** The focus actions of a run. */
  function FocusActions(v: Valuation): seq<Id> {
    (if v(ReleaseHelpersOnly) then [FocusOn(ReleaseHelpersOnly)] else [])
    + (if NonTestChanged(v) || v(NothingChanged) then [] else Focusing(FILE_IDS, v))
  }

  lemma TracesAre(v: Valuation)
    ensures CatalogTraces(E2E_TESTS, v) == FocusActions(v)
  {
    ThreeInOrder(NON_TEST_FILES, NON_TEST_FILES_WITH_RELEASE, TEST_FILES_ONLY, v);
    FirstTrace(v);
    SecondTrace(v);
    ThirdTrace(v);
  }

  lemma {:induction false} FocusingHas(ids: seq<Id>, v: Valuation)
    ensures forall a :: a in Focusing(ids, v) <==> a.FocusOn? && a.rule in ids && v(a.rule)
  {
    if ids != [] {
      FocusingHas(ids[1..], v);
      assert ids == [ids[0]] + ids[1..];
    }
  }

  // ----- What the actions leave -----

  /** Some action of the list adds the file. */
  predicate Adding(actions: seq<Id>, g: string, diff: seq<string>, disk: seq<string>) {
    exists a <- actions :: a.FocusOn? && g in FocusNames(a.rule, diff, disk)
  }

  function Acts(w: Surroundings): EngineReplay.Act<E2ECtx> {
    (id, ctx) => Acted(w, id, ctx, false)
  }

  lemma ActedFocus(w: Surroundings, a: Id, ctx: E2ECtx)
    requires !a.Settings?
    ensures var t := Acted(w, a, ctx, false);
            && t.diff == ctx.diff
            && forall g :: g in t.focus <==> g in ctx.focus || (a.FocusOn? && g in FocusNames(a.rule, ctx.diff, w.disk))
  {
    if a.FocusOn? { AppendAllGrows(ctx.focus, FocusNames(a.rule, ctx.diff, w.disk)); }
  }

  lemma {:induction false} ReplayFocus(w: Surroundings, actions: seq<Id>, ctx: E2ECtx)
    requires forall a <- actions :: !a.Settings?
    ensures var t := Replay(Acts(w), actions, ctx);
            t.diff == ctx.diff && forall g :: g in t.focus <==> g in ctx.focus || Adding(actions, g, ctx.diff, w.disk)
    decreases actions
  {
    if actions != [] {
      var a, rest := actions[0], actions[1..];
      ActedFocus(w, a, ctx);
      ReplayFocus(w, rest, Acted(w, a, ctx, false));
      forall g ensures Adding(actions, g, ctx.diff, w.disk)
                  <==> (a.FocusOn? && g in FocusNames(a.rule, ctx.diff, w.disk)) || Adding(rest, g, ctx.diff, w.disk) {
        AddingCons(actions, g, ctx.diff, w.disk);
      }
    }
  }

  lemma AddingCons(actions: seq<Id>, g: string, diff: seq<string>, disk: seq<string>)
    requires actions != []
    ensures Adding(actions, g, diff, disk)
       <==> (actions[0].FocusOn? && g in FocusNames(actions[0].rule, diff, disk)) || Adding(actions[1..], g, diff, disk)
  {
    assert actions == [actions[0]] + actions[1..];
  }

  lemma {:induction false} FocusKeepsRest(w: Surroundings, actions: seq<Id>, ctx: E2ECtx)
    requires OnlyFocus(actions)
    ensures var t := Replay(Acts(w), actions, ctx); t.labelFilter == ctx.labelFilter && t.timeoutMinutes == ctx.timeoutMinutes
    decreases actions
  {
    if actions != [] {
      assert actions[0].FocusOn?;
      FocusKeepsRest(w, actions[1..], Acted(w, actions[0], ctx, false));
    }
  }

  // ----- The suites on the diff -----

  lemma SameTestFile(f: string)
    ensures NoTestFile(f) <==> !MapsToTest(f)
  {
    ConstPath();
    ReleaseSubMeans(f);
    DemoMeans(f);
    DemoNestedMeans(f);
    IntegrationMeans(f);
    EcMeans(f);
  }

  lemma MappedMeans(diff: seq<string>)
    ensures FileRuleHolds(Value(diff)) <==> Mapped(diff)
  {
    FileRulesMap(diff);
    MappedOnDiff(diff);
    KeepStringHas(diff, CONST_PATH);
    forall f ensures Contains(f, CONST_PATH) <==> ConstMentioned(f) { ConstPath(); }
    forall f ensures NoTestFile(f) <==> !MapsToTest(f) { SameTestFile(f); }
  }

  lemma PipelinesOnDiff(diff: seq<string>)
    ensures Value(diff)(ReleasePipelinesTestsChanged) <==> PipelinesChanged(diff)
  {
    forall f ensures PathMatch(RELEASE_PIPELINES, f) <==> PipelineTest(f) { PipelinesMeans(f); }
    GlobOnDiff(diff, RELEASE_PIPELINES, f => PipelineTest(f));
    ReleaseValues(diff);
  }

  lemma TestFilesOnDiff(diff: seq<string>)
    ensures TestFilesOnly(diff) <==> !NonTestChanged(Value(diff)) && !Value(diff)(NothingChanged)
  {
    NonTestOnDiff(diff);
    NothingValue(diff);
  }

  lemma HelpersValue(diff: seq<string>)
    ensures Value(diff)(ReleaseHelpersOnly) <==> HelpersOnly(diff)
  {
    HelpersOnDiff(diff);
    ReleaseValues(diff);
  }

  /** Which rules hold, given what the conditions say of the diff. */
  predicate RulesHold(v: Valuation, tests: bool, helpers: bool, pipelines: bool, mapped: bool) {
    && (Holds(NON_TEST_FILES.condition, v) <==> !tests && !pipelines)
    && (Holds(NON_TEST_FILES_WITH_RELEASE.condition, v) <==> (!tests || helpers) && pipelines)
    && (Holds(TEST_FILES_ONLY.condition, v) <==> tests && mapped)
  }

  lemma RulesBy(v: Valuation, tests: bool, helpers: bool, pipelines: bool, mapped: bool)
    requires tests <==> !NonTestChanged(v) && !v(NothingChanged)
    requires v(ReleaseHelpersOnly) == helpers && v(ReleasePipelinesTestsChanged) == pipelines && FileRuleHolds(v) == mapped
    requires v(NothingChanged) ==> !v(ReleasePipelinesTestsChanged)
    ensures RulesHold(v, tests, helpers, pipelines, mapped)
  {
    FirstRule(v);
    SecondRule(v);
    ThirdRule(v);
  }

  lemma RulesOnDiff(diff: seq<string>)
    ensures RulesHold(Value(diff), TestFilesOnly(diff), HelpersOnly(diff), PipelinesChanged(diff), Mapped(diff))
  {
    TestFilesOnDiff(diff);
    NothingValue(diff);
    HelpersValue(diff);
    PipelinesOnDiff(diff);
    MappedMeans(diff);
    RulesBy(Value(diff), TestFilesOnly(diff), HelpersOnly(diff), PipelinesChanged(diff), Mapped(diff));
  }

  function SuitesBy(tests: bool, helpers: bool, pipelines: bool, mapped: bool, dryRun: bool): seq<Id> {
    if !tests then if pipelines then [ExecuteAllButUpgrade] else [ExecuteDefaultTests]
    else if helpers && pipelines then
      if mapped && !dryRun then [ExecuteAllButUpgrade, ExecuteTests] else [ExecuteAllButUpgrade]
    else if mapped then [ExecuteTests] else []
  }

  lemma FinalsBy(v: Valuation, tests: bool, helpers: bool, pipelines: bool, mapped: bool, dryRun: bool)
    requires RulesHold(v, tests, helpers, pipelines, mapped)
    ensures FinalActions(Matched(E2E_TESTS, v), dryRun) == SuitesBy(tests, helpers, pipelines, mapped, dryRun)
  {
    MatchedRules(v);
    var m := Matched(E2E_TESTS, v);
    AllActionsTwo(NON_TEST_FILES, TEST_FILES_ONLY);
    AllActionsTwo(NON_TEST_FILES_WITH_RELEASE, TEST_FILES_ONLY);
    AllActionsTwo(TEST_FILES_ONLY, TEST_FILES_ONLY);
    if !tests {
      assert m == if pipelines then [NON_TEST_FILES_WITH_RELEASE] else [NON_TEST_FILES];
    } else if helpers && pipelines {
      assert m == if mapped then [NON_TEST_FILES_WITH_RELEASE, TEST_FILES_ONLY] else [NON_TEST_FILES_WITH_RELEASE];
    } else {
      assert m == if mapped then [TEST_FILES_ONLY] else [];
    }
  }

  lemma FinalsOnDiff(diff: seq<string>, dryRun: bool)
    ensures FinalActions(Matched(E2E_TESTS, Value(diff)), dryRun) == SuitesFor(diff, dryRun)
  {
    RulesOnDiff(diff);
    FinalsBy(Value(diff), TestFilesOnly(diff), HelpersOnly(diff), PipelinesChanged(diff), Mapped(diff), dryRun);
  }

  // ----- The run -----

  lemma NoChainApplies(v: Valuation)
    ensures !EndsInChain(E2E_TESTS, v)
  {
    assert forall i :: 0 <= i < |E2E_TESTS| ==> E2E_TESTS[i].actions != [];
  }

  /**
   Without failures, on any diff: the run adds to the focus list and then executes
   the suites, and nothing else.
   */
  lemma SuitesExecuted(w: Surroundings, s: State<E2ECtx>)
    requires NoFailure(w)
    ensures OnlyFocus(FocusActions(Value(s.ctx.diff)))
    ensures var r := RunCatalog(E2EInterp(w), E2E_TESTS, [], s);
            && r.err.None?
            && Actions(r.s.log) == Actions(s.log) + (FocusActions(Value(s.ctx.diff)) + SuitesFor(s.ctx.diff, s.dryRun))
  {
    var v := Value(s.ctx.diff);
    var inv := (t: State<E2ECtx>) => t.ctx.diff == s.ctx.diff;
    var conds, acts := CatalogConds(E2E_TESTS), CatalogActs(E2E_TESTS);
    NoSettings();
    StableRun(w, s, inv, conds, acts);
    ScopeOfCatalog(E2E_TESTS);
    RunMeaning(E2EInterp(w), inv, v, conds, acts, E2E_TESTS, [], s);
    NoChainApplies(v);
    assert [] + Matched(E2E_TESTS, v) == Matched(E2E_TESTS, v);
    FinalsOnDiff(s.ctx.diff, s.dryRun);
    TracesAre(v);
    FocusActionsAre(v);
  }

  lemma PlainWhenNothingFails(w: Surroundings)
    requires NoFailure(w)
    ensures Plain(E2EInterp(w), (dry: bool) => Acts(w))
  {
    var I := E2EInterp(w);
    forall id, s ensures I.check(id, s).ctx == s.ctx && I.exec(id, s).ctx == Acts(w)(id, s.ctx) {
      assert I.exec(id, s) == E2EFocus.Act(w, id, s);
      assert ErrorOf(w, id, s).None?;
    }
  }

  lemma RunLeaves(w: Surroundings, s: State<E2ECtx>)
    requires NoFailure(w)
    ensures RunCatalog(E2EInterp(w), E2E_TESTS, [], s).s.ctx
         == Replay(Acts(w), FocusActions(Value(s.ctx.diff)) + SuitesFor(s.ctx.diff, s.dryRun), s.ctx)
  {
    PlainWhenNothingFails(w);
    RunReplays(E2EInterp(w), (dry: bool) => Acts(w), E2E_TESTS, s);
    SuitesExecuted(w, s);
    var executed := FocusActions(Value(s.ctx.diff)) + SuitesFor(s.ctx.diff, s.dryRun);
    assert (Actions(s.log) + executed)[|Actions(s.log)|..] == executed;
  }

  /** Some focus action of the list is of a rule that adds. */
  predicate AddingBy(actions: seq<Id>, adds: Id -> bool) {
    exists a <- actions :: a.FocusOn? && adds(a.rule)
  }

  predicate SomeBy(ids: seq<Id>, v: Valuation, adds: Id -> bool) {
    exists id <- ids :: v(id) && adds(id)
  }

  lemma AddingParts(v: Valuation, suites: seq<Id>, adds: Id -> bool)
    requires forall a <- suites :: !a.FocusOn?
    ensures AddingBy(FocusActions(v) + suites, adds)
       <==> || (v(ReleaseHelpersOnly) && adds(ReleaseHelpersOnly))
            || (!NonTestChanged(v) && !v(NothingChanged) && SomeBy(FILE_IDS, v, adds))
  {
    SomeFocusing(FILE_IDS, v, adds);
    var one := if v(ReleaseHelpersOnly) then [FocusOn(ReleaseHelpersOnly)] else [];
    var two := if NonTestChanged(v) || v(NothingChanged) then [] else Focusing(FILE_IDS, v);
    AddingConcat(one, two, suites, adds);
  }

  lemma SomeFocusing(ids: seq<Id>, v: Valuation, adds: Id -> bool)
    ensures AddingBy(Focusing(ids, v), adds) <==> SomeBy(ids, v, adds)
  {
    FocusingHas(ids, v);
    if SomeBy(ids, v, adds) {
      var id :| id in ids && v(id) && adds(id);
      assert FocusOn(id) in Focusing(ids, v);
    }
  }

  lemma AddingConcat(a: seq<Id>, b: seq<Id>, c: seq<Id>, adds: Id -> bool)
    requires forall x <- c :: !x.FocusOn?
    ensures AddingBy(a + b + c, adds) <==> AddingBy(a, adds) || AddingBy(b, adds)
  {
    assert forall x :: x in a + b + c <==> x in a || x in b || x in c;
  }

  lemma AddingMeans(g: string, diff: seq<string>, disk: seq<string>, dryRun: bool)
    ensures Adding(FocusActions(Value(diff)) + SuitesFor(diff, dryRun), g, diff, disk) <==> Focused(g, diff, disk)
  {
    var adds := (id: Id) => g in FocusNames(id, diff, disk);
    AddingParts(Value(diff), SuitesFor(diff, dryRun), adds);
    HelpersAdd(g, diff, disk);
    FileRulesAdd(g, diff, disk);
    TestFilesOnDiff(diff);
    SomeAddsBy(FILE_IDS, g, diff, disk);
  }

  lemma SomeAddsBy(ids: seq<Id>, g: string, diff: seq<string>, disk: seq<string>)
    ensures SomeBy(ids, Value(diff), id => g in FocusNames(id, diff, disk)) <==> SomeAdds(ids, g, diff, disk)
  {
  }

  lemma FocusActionsAre(v: Valuation)
    ensures OnlyFocus(FocusActions(v))
  {
    FocusingHas(FILE_IDS, v);
  }

  lemma NoSettingsAmong(focus: seq<Id>, suites: seq<Id>)
    requires OnlyFocus(focus) && forall a <- suites :: !a.Settings?
    ensures forall a <- focus + suites :: !a.Settings?
  {
  }

  /** The two parts of a run, and what the first leaves in the focus list. */
  lemma RunParts(w: Surroundings, s: State<E2ECtx>) returns (focus: seq<Id>, suites: seq<Id>)
    requires NoFailure(w)
    ensures RunCatalog(E2EInterp(w), E2E_TESTS, [], s).s.ctx == Replay(Acts(w), focus + suites, s.ctx)
    ensures OnlyFocus(focus) && suites == SuitesFor(s.ctx.diff, s.dryRun)
    ensures forall g :: Adding(focus + suites, g, s.ctx.diff, w.disk) <==> Focused(g, s.ctx.diff, w.disk)
  {
    focus, suites := FocusActions(Value(s.ctx.diff)), SuitesFor(s.ctx.diff, s.dryRun);
    RunLeaves(w, s);
    SuitesExecuted(w, s);
    forall g ensures Adding(focus + suites, g, s.ctx.diff, w.disk) <==> Focused(g, s.ctx.diff, w.disk) {
      AddingMeans(g, s.ctx.diff, w.disk, s.dryRun);
    }
  }

  lemma SuitesAreSuites(diff: seq<string>, dryRun: bool)
    ensures SuiteList(SuitesFor(diff, dryRun))
  {
  }

  predicate SuiteList(suites: seq<Id>) {
    || suites == [] || suites == [ExecuteTests] || suites == [ExecuteDefaultTests]
    || suites == [ExecuteAllButUpgrade] || suites == [ExecuteAllButUpgrade, ExecuteTests]
  }

  lemma SuitesKeep(suites: seq<Id>)
    requires SuiteList(suites)
    ensures forall a <- suites :: !a.Settings?
  {
  }

  /**
   A run without failures, on any diff, leaves in the focus list exactly the files
   that were there and the focus files of the diff.
   */
  lemma FocusLeft(w: Surroundings, s: State<E2ECtx>)
    requires NoFailure(w)
    ensures var t := RunCatalog(E2EInterp(w), E2E_TESTS, [], s).s.ctx;
            forall g :: g in t.focus <==> g in s.ctx.focus || Focused(g, s.ctx.diff, w.disk)
  {
    var focus, suites := RunParts(w, s);
    SuitesAreSuites(s.ctx.diff, s.dryRun);
    SuitesKeep(suites);
    NoSettingsAmong(focus, suites);
    ReplayFocus(w, focus + suites, s.ctx);
  }

  // ----- Label filter and timeout -----

  /** What the suites set before they start. */
  predicate SuitesSet(suites: seq<Id>, before: E2ECtx, after: E2ECtx) {
    if suites == [ExecuteDefaultTests] then
      after.labelFilter == DEFAULT_FILTER && after.timeoutMinutes == before.timeoutMinutes
    else if ExecuteAllButUpgrade in suites then
      after.labelFilter == ALL_BUT_UPGRADE_FILTER && after.timeoutMinutes == 150
    else after.labelFilter == before.labelFilter && after.timeoutMinutes == before.timeoutMinutes
  }

  lemma ReplayTwo(f: EngineReplay.Act<E2ECtx>, a: Id, b: Id, ctx: E2ECtx)
    ensures Replay(f, [], ctx) == ctx && Replay(f, [a], ctx) == f(a, ctx) && Replay(f, [a, b], ctx) == f(b, f(a, ctx))
  {
    assert [a, b][1..] == [b] && [b][1..] == [] && [a][1..] == [];
    assert Replay(f, [b], f(a, ctx)) == f(b, f(a, ctx));
  }

  lemma OneSuiteLeaves(w: Surroundings, suite: Id, ctx: E2ECtx)
    requires suite == ExecuteTests || suite == ExecuteDefaultTests || suite == ExecuteAllButUpgrade
    ensures SuitesSet([suite], ctx, Replay(Acts(w), [suite], ctx))
  {
    ReplayTwo(Acts(w), suite, suite, ctx);
  }

  lemma SuiteLeaves(w: Surroundings, suites: seq<Id>, ctx: E2ECtx)
    requires SuiteList(suites)
    ensures SuitesSet(suites, ctx, Replay(Acts(w), suites, ctx))
  {
    ReplayTwo(Acts(w), ExecuteAllButUpgrade, ExecuteTests, ctx);
    if |suites| == 1 { OneSuiteLeaves(w, suites[0], ctx); }
  }

  lemma SuitesLeave(w: Surroundings, focus: seq<Id>, suites: seq<Id>, ctx: E2ECtx)
    requires OnlyFocus(focus)
    ensures var t, u := Replay(Acts(w), focus + suites, ctx), Replay(Acts(w), suites, Replay(Acts(w), focus, ctx));
            t == u
    ensures var t := Replay(Acts(w), focus, ctx);
            t.labelFilter == ctx.labelFilter && t.timeoutMinutes == ctx.timeoutMinutes
  {
    ReplayConcat(Acts(w), focus, suites, ctx);
    FocusKeepsRest(w, focus, ctx);
  }

  /** A test with these labels is selected by the filter. */
  predicate Selected(filter: string, has: string -> bool) {
    LabelFilter.Parse(filter).Some? && LabelFilter.Selects(LabelFilter.Parse(filter).value, has)
  }

  predicate UpgradeOrRecovery(has: string -> bool) {
    has("upgrade-create") || has("upgrade-verify") || has("upgrade-cleanup") || has("disaster-recovery")
  }

  lemma FilterSelects(names: seq<string>, has: string -> bool)
    requires names != [] && forall i :: 0 <= i < |names| ==> FilterComposition.PlainName(names[i])
    ensures Selected(FilterComposition.Exclusions(names), has) <==> FilterComposition.HasNone(names, has)
  {
    FilterComposition.ExclusionsMean(names, has);
    FilterComposition.ConjunctionAlone(LabelFilter.Lex(FilterComposition.Exclusions(names)).value);
  }

  lemma DefaultFilterSelects(has: string -> bool)
    ensures Selected(DEFAULT_FILTER, has) <==> !UpgradeOrRecovery(has) && !has("release-pipelines")
  {
    var ns := DEFAULT_EXCLUDED;
    forall i | 0 <= i < |ns| ensures FilterComposition.PlainName(ns[i]) { FilterComposition.LettersPlain(ns[i]); }
    FilterSelects(ns, has);
    assert ns[0] == "upgrade-create" && ns[1] == "upgrade-verify" && ns[2] == "upgrade-cleanup";
    assert ns[3] == "release-pipelines" && ns[4] == "disaster-recovery";
  }

  lemma AllButUpgradeFilterSelects(has: string -> bool)
    ensures Selected(ALL_BUT_UPGRADE_FILTER, has) <==> !UpgradeOrRecovery(has)
  {
    var ns := ALL_BUT_UPGRADE_EXCLUDED;
    forall i | 0 <= i < |ns| ensures FilterComposition.PlainName(ns[i]) { FilterComposition.LettersPlain(ns[i]); }
    FilterSelects(ns, has);
    assert ns[0] == "upgrade-create" && ns[1] == "upgrade-verify" && ns[2] == "upgrade-cleanup";
    assert ns[3] == "disaster-recovery";
  }

  /** What the filter and the timeout of a run are. */
  ghost predicate SettingsLeft(diff: seq<string>, before: E2ECtx, after: E2ECtx) {
    if PipelinesChanged(diff) && (!TestFilesOnly(diff) || HelpersOnly(diff)) then
      after.timeoutMinutes == 150
      && forall has :: Selected(after.labelFilter, has) <==> !UpgradeOrRecovery(has)
    else
      && after.timeoutMinutes == before.timeoutMinutes
      && if TestFilesOnly(diff) then after.labelFilter == before.labelFilter
         else forall has :: Selected(after.labelFilter, has) <==> !UpgradeOrRecovery(has) && !has("release-pipelines")
  }

  /**
   Outside diffs of test files only, a run selects the tests without an upgrade,
   disaster-recovery or release-pipelines label; when the release pipelines' tests
   changed, the last of these run too, with two and a half hours to do so.
   */
  lemma FilterLeft(w: Surroundings, s: State<E2ECtx>)
    requires NoFailure(w)
    ensures SettingsLeft(s.ctx.diff, s.ctx, RunCatalog(E2EInterp(w), E2E_TESTS, [], s).s.ctx)
  {
    var focus, suites := RunParts(w, s);
    SuitesAreSuites(s.ctx.diff, s.dryRun);
    SuitesLeave(w, focus, suites, s.ctx);
    SuiteLeaves(w, suites, Replay(Acts(w), focus, s.ctx));
    SuitesSelect(s.ctx.diff, s.dryRun, s.ctx, Replay(Acts(w), focus + suites, s.ctx));
  }

  lemma SuitesNamed(diff: seq<string>, dryRun: bool)
    ensures var all := PipelinesChanged(diff) && (!TestFilesOnly(diff) || HelpersOnly(diff));
            && (all <==> ExecuteAllButUpgrade in SuitesFor(diff, dryRun))
            && (!all && !TestFilesOnly(diff) <==> SuitesFor(diff, dryRun) == [ExecuteDefaultTests])
  {
  }

  lemma SuitesSelect(diff: seq<string>, dryRun: bool, before: E2ECtx, after: E2ECtx)
    requires SuitesSet(SuitesFor(diff, dryRun), before, after)
    ensures SettingsLeft(diff, before, after)
  {
    SuitesNamed(diff, dryRun);
    forall has ensures Selected(DEFAULT_FILTER, has) <==> !UpgradeOrRecovery(has) && !has("release-pipelines") {
      DefaultFilterSelects(has);
    }
    forall has ensures Selected(ALL_BUT_UPGRADE_FILTER, has) <==> !UpgradeOrRecovery(has) {
      AllButUpgradeFilterSelects(has);
    }
  }
}
