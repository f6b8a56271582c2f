/**
 Test selection for the e2e-tests repository (magefiles/rulesengine/repos/e2e_repo.go):
 the three top-level rules as a decision table over the changed files, and the
 focus list that their nested rules build up.
 */
module E2ECatalog {
  import opened GoStrings
  import opened Names
  import opened ChangedFiles
  import opened RulesEngine
  import opened EngineMeaning

  // ----- Conditions on the changed files -----

  const GO_FILE := Star("", ".go")
  const BUILD_FILES: Pattern := [Lit("tests"), Lit("build"), GO_FILE]
  const BUILD_CONST: Pattern := [Lit("tests"), Lit("build"), Lit("const.go")]
  const RELEASE_PIPELINES: Pattern := [Lit("tests"), Lit("release"), Lit("pipelines"), DoubleStar, GO_FILE]
  const RELEASE_ROOT: Pattern := [Lit("tests"), Lit("release"), GO_FILE]
  const RELEASE_SUB: Pattern := [Lit("tests"), Lit("release"), Star("", ""), GO_FILE]
  const DEMO_FILES: Pattern := [Lit("tests"), Star("", "-demo"), GO_FILE]
  const DEMO_TESTS: Pattern := [Lit("tests"), Star("", "-demo"), Star("", "-demo.go")]
  const DEMO_NESTED: Pattern := [Lit("tests"), Star("", "-demo"), Star("", ""), Star("", "")]
  const INTEGRATION_FILES: Pattern := [Lit("tests"), Star("integration-", ""), GO_FILE]
  const INTEGRATION_CONSTS: Pattern := [Lit("tests"), Star("integration-", ""), Lit("const.go")]
  const EC_FILES: Pattern := [Lit("tests"), Star("enterprise-", ""), GO_FILE]

  const CONST_PATH := "tests" + ['/'] + ("build" + ['/'] + "const.go")
  const SCENARIOS_PATH := "tests/build/build_templates_scenarios.go"
  const SOURCE_BUILD_PATH := "tests/build/source_build.go"

  predicate HasGlob(diff: seq<string>, p: Pattern) {
    KeepGlob(diff, p) != []
  }

  predicate HasString(diff: seq<string>, sub: string) {
    KeepString(diff, sub) != []
  }

  predicate CheckPkgFilesChanged(diff: seq<string>) { HasString(diff, "pkg/") }
  predicate CheckMageFilesChanged(diff: seq<string>) { HasString(diff, "magefiles/") }
  predicate CheckCmdFilesChanged(diff: seq<string>) { HasString(diff, "cmd/") }
  predicate CheckTektonFilesChanged(diff: seq<string>) {
    HasString(diff, "integration-tests/") || HasString(diff, ".tekton/")
  }
  predicate CheckReleasePipelinesTestsChanged(diff: seq<string>) { HasGlob(diff, RELEASE_PIPELINES) }
  predicate BuildOrTemplates(diff: seq<string>) {
    !HasString(diff, SCENARIOS_PATH) && !HasString(diff, CONST_PATH) && !HasString(diff, SOURCE_BUILD_PATH)
  }
  predicate TemplatesDependent(diff: seq<string>) {
    HasString(diff, SCENARIOS_PATH) || HasString(diff, SOURCE_BUILD_PATH)
  }
  predicate BuildConstChanged(diff: seq<string>) { HasGlob(diff, BUILD_CONST) }
  predicate ReleaseTestsChanged(diff: seq<string>) { HasGlob(diff, RELEASE_SUB) }
  predicate ReleaseHelpers(diff: seq<string>) { HasGlob(diff, RELEASE_ROOT) && !HasGlob(diff, RELEASE_SUB) }
  predicate DemoTestsChanged(diff: seq<string>) { HasGlob(diff, DEMO_FILES) }
  predicate DemoConfigs(diff: seq<string>) { !HasGlob(diff, DEMO_FILES) && HasGlob(diff, DEMO_NESTED) }
  predicate IntegrationTestsChanged(diff: seq<string>) { HasGlob(diff, INTEGRATION_FILES) }
  predicate IntegrationConstChanged(diff: seq<string>) { HasGlob(diff, INTEGRATION_CONSTS) }
  predicate EcTestsChanged(diff: seq<string>) { HasGlob(diff, EC_FILES) }

  /** What the condition functions answer for a diff. */
  predicate Answers(diff: seq<string>, id: Id) {
    match id
    case PkgChanged => CheckPkgFilesChanged(diff)
    case MageChanged => CheckMageFilesChanged(diff)
    case CmdChanged => CheckCmdFilesChanged(diff)
    case NothingChanged => diff == []
    case TektonChanged => CheckTektonFilesChanged(diff)
    case ReleasePipelinesTestsChanged => CheckReleasePipelinesTestsChanged(diff)
    case BuildOrTemplatesTestsOnly => BuildOrTemplates(diff)
    case BuildTemplatesDependent => TemplatesDependent(diff)
    case BuildConst => BuildConstChanged(diff)
    case ReleaseTests => ReleaseTestsChanged(diff)
    case ReleaseHelpersOnly => ReleaseHelpers(diff)
    case DemoTests => DemoTestsChanged(diff)
    case DemoConfigsOnly => DemoConfigs(diff)
    case IntegrationTests => IntegrationTestsChanged(diff)
    case IntegrationConst => IntegrationConstChanged(diff)
    case EcTests => EcTestsChanged(diff)
    case _ => false
  }

  // ----- The rules -----

  /** A rule that maps changed files to focus files. */
  function FocusRule(id: Id): Cond {
    Sub(Rule("focus", Func(id), [FocusOn(id)]))
  }

  const NON_TEST_FILES := Rule("E2E Default PR Test Execution",
    All([
      Any([Func(PkgChanged), Func(MageChanged), Func(CmdChanged), Func(NothingChanged), Func(TektonChanged)]),
      NoneOf([Func(ReleasePipelinesTestsChanged)])]),
    [ExecuteDefaultTests])

  const NON_TEST_FILES_WITH_RELEASE := Rule("E2E PR Test Execution including release-pipelines test suite",
    All([
      Any([Func(PkgChanged), Func(MageChanged), Func(CmdChanged), Func(TektonChanged), FocusRule(ReleaseHelpersOnly)]),
      Func(ReleasePipelinesTestsChanged)]),
    [ExecuteAllButUpgrade])

  const FILE_RULES: seq<Cond> := [
    FocusRule(BuildOrTemplatesTestsOnly), FocusRule(BuildTemplatesDependent), FocusRule(BuildConst),
    FocusRule(DemoConfigsOnly), FocusRule(DemoTests), FocusRule(ReleaseTests),
    FocusRule(IntegrationConst), FocusRule(IntegrationTests), FocusRule(EcTests)]

  const TEST_FILES_ONLY := Rule("E2E PR Test File Diff Execution",
    All([
      NoneOf([Func(PkgChanged), Func(MageChanged), Func(CmdChanged), Func(NothingChanged), Func(TektonChanged)]),
      Any(FILE_RULES)]),
    [ExecuteTests])

  const E2E_TESTS: RuleCatalog := [NON_TEST_FILES, NON_TEST_FILES_WITH_RELEASE, TEST_FILES_ONLY]

  // ----- The rules as formulas -----

  /** Files outside the tests changed. */
  predicate NonTestChanged(v: Valuation) {
    v(PkgChanged) || v(MageChanged) || v(CmdChanged) || v(TektonChanged)
  }

  /** Some rule of FILE_RULES holds. */
  predicate FileRuleHolds(v: Valuation) {
    || v(BuildOrTemplatesTestsOnly) || v(BuildTemplatesDependent) || v(BuildConst)
    || v(DemoConfigsOnly) || v(DemoTests) || v(ReleaseTests)
    || v(IntegrationConst) || v(IntegrationTests) || v(EcTests)
  }

  /** The only way the second and the third rule can hold together. */
  predicate OnlyThroughHelpers(v: Valuation) {
    !NonTestChanged(v) && v(ReleaseHelpersOnly) && v(ReleasePipelinesTestsChanged)
  }

  lemma FocusRuleHolds(id: Id, v: Valuation)
    ensures Holds(FocusRule(id), v) == v(id)
  {
  }

  lemma FirstRule(v: Valuation)
    ensures Holds(NON_TEST_FILES.condition, v)
       <==> (NonTestChanged(v) || v(NothingChanged)) && !v(ReleasePipelinesTestsChanged)
  {
    var all := NON_TEST_FILES.condition;
    var any, none := all.cs[0], all.cs[1];
    assert any.cs[0] == Func(PkgChanged) && any.cs[1] == Func(MageChanged) && any.cs[2] == Func(CmdChanged);
    assert any.cs[3] == Func(NothingChanged) && any.cs[4] == Func(TektonChanged);
    assert Holds(any, v) <==> NonTestChanged(v) || v(NothingChanged);
    assert none.cs[0] == Func(ReleasePipelinesTestsChanged);
    assert Holds(none, v) <==> !v(ReleasePipelinesTestsChanged);
  }

  lemma SecondRule(v: Valuation)
    ensures Holds(NON_TEST_FILES_WITH_RELEASE.condition, v)
       <==> (NonTestChanged(v) || v(ReleaseHelpersOnly)) && v(ReleasePipelinesTestsChanged)
  {
    var all := NON_TEST_FILES_WITH_RELEASE.condition;
    var any := all.cs[0];
    FocusRuleHolds(ReleaseHelpersOnly, v);
    assert any.cs[0] == Func(PkgChanged) && any.cs[1] == Func(MageChanged) && any.cs[2] == Func(CmdChanged);
    assert any.cs[3] == Func(TektonChanged) && any.cs[4] == FocusRule(ReleaseHelpersOnly);
    assert Holds(any, v) <==> NonTestChanged(v) || v(ReleaseHelpersOnly);
    assert all.cs[1] == Func(ReleasePipelinesTestsChanged);
  }

  lemma FileRules(v: Valuation)
    ensures Holds(Any(FILE_RULES), v) <==> FileRuleHolds(v)
  {
    forall id ensures Holds(FocusRule(id), v) == v(id) { FocusRuleHolds(id, v); }
    var cs := FILE_RULES;
    assert cs[0] == FocusRule(BuildOrTemplatesTestsOnly) && cs[1] == FocusRule(BuildTemplatesDependent);
    assert cs[2] == FocusRule(BuildConst) && cs[3] == FocusRule(DemoConfigsOnly) && cs[4] == FocusRule(DemoTests);
    assert cs[5] == FocusRule(ReleaseTests) && cs[6] == FocusRule(IntegrationConst);
    assert cs[7] == FocusRule(IntegrationTests) && cs[8] == FocusRule(EcTests);
  }

  lemma ThirdRule(v: Valuation)
    ensures Holds(TEST_FILES_ONLY.condition, v)
       <==> !NonTestChanged(v) && !v(NothingChanged) && FileRuleHolds(v)
  {
    var all := TEST_FILES_ONLY.condition;
    var none := all.cs[0];
    assert none.cs[0] == Func(PkgChanged) && none.cs[1] == Func(MageChanged) && none.cs[2] == Func(CmdChanged);
    assert none.cs[3] == Func(NothingChanged) && none.cs[4] == Func(TektonChanged);
    assert Holds(none, v) <==> !NonTestChanged(v) && !v(NothingChanged);
    FileRules(v);
    assert all.cs[1] == Any(FILE_RULES);
  }

  /** At least one of the three rules holds. */
  predicate Covered(v: Valuation) {
    || Holds(NON_TEST_FILES.condition, v)
    || Holds(NON_TEST_FILES_WITH_RELEASE.condition, v)
    || Holds(TEST_FILES_ONLY.condition, v)
  }

  /** The first rule excludes the others; the other two overlap exactly when `both` says so. */
  predicate Exclusive(v: Valuation, both: bool) {
    var r1 := Holds(NON_TEST_FILES.condition, v);
    var r2 := Holds(NON_TEST_FILES_WITH_RELEASE.condition, v);
    var r3 := Holds(TEST_FILES_ONLY.condition, v);
    !(r1 && r2) && !(r1 && r3) && (r2 && r3 <==> both)
  }

  lemma RuleTable(v: Valuation)
    requires v(NothingChanged) ==> !v(ReleasePipelinesTestsChanged)
    ensures Covered(v) <==> NonTestChanged(v) || v(NothingChanged) || FileRuleHolds(v) || OnlyThroughHelpers(v)
    ensures Exclusive(v, OnlyThroughHelpers(v) && FileRuleHolds(v))
  {
    FirstRule(v);
    SecondRule(v);
    ThirdRule(v);
  }

  // ----- The decision table -----

  function Value(diff: seq<string>): Valuation {
    id => Answers(diff, id)
  }

  /** `tests/build/const.go` is mentioned only as that very path. */
  predicate ConstOnlyAtRoot(diff: seq<string>) {
    forall f <- diff :: Contains(f, CONST_PATH) ==> f == CONST_PATH
  }

  lemma ThreeSegments(a: string, b: string, c: string)
    requires Avoids(a, {'/'}) && Avoids(b, {'/'}) && Avoids(c, {'/'})
    ensures Split(a + ['/'] + (b + ['/'] + c), '/') == [a, b, c]
  {
    SplitConcat(a, '/', b + ['/'] + c);
    SplitConcat(b, '/', c);
    SplitNone(a, '/');
    SplitNone(b, '/');
    SplitNone(c, '/');
  }

  lemma {:induction false} LiteralSegments(names: seq<string>, p: Pattern, xs: seq<string>)
    requires |p| == |names| && forall i :: 0 <= i < |p| ==> p[i] == Lit(names[i])
    ensures MatchesSegments(p, xs) <==> xs == names
    decreases |p|
  {
    if p != [] {
      assert p[0] == Lit(names[0]);
      if xs != [] {
        LiteralSegments(names[1..], p[1..], xs[1..]);
        assert xs == [xs[0]] + xs[1..] && names == [names[0]] + names[1..];
      }
    }
  }

  /** A pattern of three literal segments matches one path only. */
  lemma LiteralPathMatches(a: string, b: string, c: string, f: string)
    requires Avoids(a, {'/'}) && Avoids(b, {'/'}) && Avoids(c, {'/'})
    ensures PathMatch([Lit(a), Lit(b), Lit(c)], f) <==> f == a + ['/'] + (b + ['/'] + c)
  {
    ThreeSegments(a, b, c);
    LiteralSegments([a, b, c], [Lit(a), Lit(b), Lit(c)], Split(f, '/'));
    if Split(f, '/') == [a, b, c] {
      JoinSplit(f, '/');
      JoinThree(a, b, c, ['/']);
    }
  }

  lemma JoinThree(a: string, b: string, c: string, sep: string)
    ensures Join([a, b, c], sep) == a + sep + (b + sep + c)
  {
    assert [a, b, c][1..] == [b, c] && [b, c][1..] == [c];
    assert Join([b, c], sep) == b + sep + c;
  }

  lemma FileRuleAlways(diff: seq<string>)
    requires ConstOnlyAtRoot(diff)
    ensures BuildOrTemplates(diff) || TemplatesDependent(diff) || BuildConstChanged(diff)
  {
    if HasString(diff, CONST_PATH) {
      KeepStringHas(diff, CONST_PATH);
      KeepGlobHas(diff, BUILD_CONST);
      ConstPathMatches(CONST_PATH);
    }
  }

  lemma ConstPathMatches(f: string)
    ensures PathMatch(BUILD_CONST, f) <==> f == CONST_PATH
  {
    LiteralPathMatches("tests", "build", "const.go", f);
  }

  /** A file that is below a sub-directory of the release pipelines' tests. */
  predicate NestedPipelineFile(f: string) {
    PathMatch(RELEASE_PIPELINES, f) && |Split(f, '/')| >= 5
  }

  lemma {:induction false} DoubleStarLength(p: Pattern, xs: seq<string>)
    requires p == [DoubleStar, GO_FILE] && MatchesSegments(p, xs)
    ensures |xs| >= 1
    ensures |xs| == 1 ==> MatchesSegments([GO_FILE], xs)
    decreases |xs|
  {
    assert p[1..] == [GO_FILE];
    if !MatchesSegments(p[1..], xs) { DoubleStarLength(p, xs[1..]); }
  }

  lemma ShallowPipelineFile(f: string)
    requires PathMatch(RELEASE_PIPELINES, f) && !PathMatch(RELEASE_SUB, f)
    ensures NestedPipelineFile(f)
  {
    var xs := Split(f, '/');
    var p, q := RELEASE_PIPELINES, RELEASE_SUB;
    assert p[1..][1..][1..] == [DoubleStar, GO_FILE];
    assert q[1..][1..][1..] == [GO_FILE];
    assert MatchesSegments(p[1..], xs[1..]);
    assert MatchesSegments(p[1..][1..], xs[1..][1..]);
    assert MatchesSegments([DoubleStar, GO_FILE], xs[1..][1..][1..]);
    DoubleStarLength([DoubleStar, GO_FILE], xs[1..][1..][1..]);
    if |xs| == 4 {
      assert MatchesSegments([GO_FILE], xs[1..][1..][1..]);
      assert MatchesSegment(q[1..][1..][0], xs[1..][1..][0]);
      assert MatchesSegments(q[1..][1..], xs[1..][1..]);
      assert MatchesSegments(q[1..], xs[1..]);
      assert MatchesSegments(q, xs);
    }
  }

  lemma HelpersNeedNestedFile(diff: seq<string>)
    requires ReleaseHelpers(diff) && CheckReleasePipelinesTestsChanged(diff)
    ensures (exists f <- diff :: NestedPipelineFile(f)) && forall f <- diff :: !PathMatch(RELEASE_SUB, f)
  {
    KeepGlobHas(diff, RELEASE_PIPELINES);
    KeepGlobHas(diff, RELEASE_SUB);
    var f :| f in diff && PathMatch(RELEASE_PIPELINES, f);
    ShallowPipelineFile(f);
  }

  lemma NothingValue(diff: seq<string>)
    ensures Value(diff)(NothingChanged) <==> diff == []
    ensures diff == [] ==> !Value(diff)(ReleasePipelinesTestsChanged)
  {
  }

  lemma FileRuleValue(diff: seq<string>)
    requires ConstOnlyAtRoot(diff)
    ensures FileRuleHolds(Value(diff))
  {
    FileRuleAlways(diff);
  }

  lemma TableWhenFileRuleHolds(v: Valuation)
    requires v(NothingChanged) ==> !v(ReleasePipelinesTestsChanged)
    requires FileRuleHolds(v)
    ensures Covered(v) && Exclusive(v, OnlyThroughHelpers(v))
  {
    RuleTable(v);
  }

  /**
   The three rules are a complete decision table: for every diff that mentions
   `tests/build/const.go` only as that path, some rule holds, and two hold exactly
   when the second one is reached only through the release helpers.
   */
  lemma DecisionTable(diff: seq<string>)
    requires ConstOnlyAtRoot(diff)
    ensures Covered(Value(diff))
    ensures Exclusive(Value(diff), OnlyThroughHelpers(Value(diff)))
  {
    NothingValue(diff);
    FileRuleValue(diff);
    TableWhenFileRuleHolds(Value(diff));
  }

  /** That overlap needs a nested file of the release pipelines' tests and no file one level up. */
  lemma OverlapNeedsNestedFile(diff: seq<string>)
    requires OnlyThroughHelpers(Value(diff))
    ensures (exists f <- diff :: NestedPipelineFile(f)) && forall f <- diff :: !PathMatch(RELEASE_SUB, f)
  {
    HelpersNeedNestedFile(diff);
  }

  // ----- Which diffs no rule covers -----

  predicate NoNonTestString(f: string) {
    && !Contains(f, "pkg/") && !Contains(f, "magefiles/") && !Contains(f, "cmd/")
    && !Contains(f, "integration-tests/") && !Contains(f, ".tekton/")
  }

  /** None of the file rules maps the file to a test. */
  predicate NoTestFile(f: string) {
    && !Contains(f, SCENARIOS_PATH) && !Contains(f, SOURCE_BUILD_PATH) && f != CONST_PATH
    && !PathMatch(RELEASE_SUB, f) && !PathMatch(DEMO_FILES, f) && !PathMatch(DEMO_NESTED, f)
    && !PathMatch(INTEGRATION_FILES, f) && !PathMatch(EC_FILES, f)
  }

  /**
   Some file has `tests/build/const.go` in its name, no file is that file or one
   that another rule looks for, and files in the root of the release tests and
   below the release pipelines' tests did not change together.
   */
  predicate FallsThrough(diff: seq<string>) {
    && (exists f <- diff :: Contains(f, CONST_PATH))
    && (forall f <- diff :: NoNonTestString(f) && NoTestFile(f))
    && !((exists f <- diff :: PathMatch(RELEASE_ROOT, f)) && (exists f <- diff :: PathMatch(RELEASE_PIPELINES, f)))
  }

  lemma FiveStrings(diff: seq<string>, a: string, b: string, c: string, d: string, e: string)
    ensures HasString(diff, a) || HasString(diff, b) || HasString(diff, c) || HasString(diff, d) || HasString(diff, e)
       <==> exists f <- diff ::
              Contains(f, a) || Contains(f, b) || Contains(f, c) || Contains(f, d) || Contains(f, e)
  {
    KeepStringHas(diff, a);
    KeepStringHas(diff, b);
    KeepStringHas(diff, c);
    KeepStringHas(diff, d);
    KeepStringHas(diff, e);
  }

  lemma NonTestOnDiff(diff: seq<string>)
    ensures NonTestChanged(Value(diff)) <==> exists f <- diff :: !NoNonTestString(f)
  {
    FiveStrings(diff, "pkg/", "magefiles/", "cmd/", "integration-tests/", ".tekton/");
  }

  /** A wider last segment keeps a match. */
  lemma WiderLast(a: Segment, b: Segment, x: Segment, y: Segment, xs: seq<string>)
    requires !a.DoubleStar? && !b.DoubleStar? && !x.DoubleStar? && !y.DoubleStar?
    requires MatchesSegments([a, b, x], xs)
    requires forall name :: MatchesSegment(x, name) ==> MatchesSegment(y, name)
    ensures MatchesSegments([a, b, y], xs)
  {
    assert [a, b, x][1..] == [b, x] && [b, x][1..] == [x] && [x][1..] == [];
    assert [a, b, y][1..] == [b, y] && [b, y][1..] == [y] && [y][1..] == [];
    assert MatchesSegments([b, x], xs[1..]) && MatchesSegments([x], xs[1..][1..]);
    assert MatchesSegments([y], xs[1..][1..]);
    assert MatchesSegments([b, y], xs[1..]);
  }

  lemma IntegrationConstsAreFiles(diff: seq<string>)
    ensures HasGlob(diff, INTEGRATION_CONSTS) ==> HasGlob(diff, INTEGRATION_FILES)
  {
    KeepGlobHas(diff, INTEGRATION_CONSTS);
    KeepGlobHas(diff, INTEGRATION_FILES);
    if HasGlob(diff, INTEGRATION_CONSTS) {
      var f :| f in diff && PathMatch(INTEGRATION_CONSTS, f);
      WiderLast(Lit("tests"), Star("integration-", ""), Lit("const.go"), GO_FILE, Split(f, '/'));
    }
  }

  /** The file rules in terms of what they look for. */
  predicate SomethingMapped(diff: seq<string>) {
    || HasString(diff, SCENARIOS_PATH) || HasString(diff, SOURCE_BUILD_PATH) || HasGlob(diff, BUILD_CONST)
    || HasGlob(diff, RELEASE_SUB) || HasGlob(diff, DEMO_FILES) || HasGlob(diff, DEMO_NESTED)
    || HasGlob(diff, INTEGRATION_FILES) || HasGlob(diff, EC_FILES)
  }

  lemma FileRulesMap(diff: seq<string>)
    ensures FileRuleHolds(Value(diff)) <==> !HasString(diff, CONST_PATH) || SomethingMapped(diff)
  {
    IntegrationConstsAreFiles(diff);
    BuildValues(diff);
    DemoValues(diff);
    OtherValues(diff);
    ReleaseValues(diff);
  }

  lemma BuildValues(diff: seq<string>)
    ensures var v := Value(diff);
            && v(BuildOrTemplatesTestsOnly) == BuildOrTemplates(diff)
            && v(BuildTemplatesDependent) == TemplatesDependent(diff) && v(BuildConst) == BuildConstChanged(diff)
  {
  }

  lemma DemoValues(diff: seq<string>)
    ensures var v := Value(diff);
            v(DemoConfigsOnly) == DemoConfigs(diff) && v(DemoTests) == DemoTestsChanged(diff)
  {
  }

  lemma OtherValues(diff: seq<string>)
    ensures var v := Value(diff);
            && v(IntegrationConst) == IntegrationConstChanged(diff)
            && v(IntegrationTests) == IntegrationTestsChanged(diff) && v(EcTests) == EcTestsChanged(diff)
  {
  }

  lemma ReleaseValues(diff: seq<string>)
    ensures var v := Value(diff);
            && v(ReleaseTests) == ReleaseTestsChanged(diff) && v(ReleaseHelpersOnly) == ReleaseHelpers(diff)
            && v(ReleasePipelinesTestsChanged) == CheckReleasePipelinesTestsChanged(diff)
  {
  }

  lemma SevenFiles(diff: seq<string>, a: string, b: string, c: Pattern, d: Pattern, e: Pattern, g: Pattern, h: Pattern)
    ensures || HasString(diff, a) || HasString(diff, b) || HasGlob(diff, c) || HasGlob(diff, d)
            || HasGlob(diff, e) || HasGlob(diff, g) || HasGlob(diff, h)
       <==> exists f <- diff ::
              || Contains(f, a) || Contains(f, b) || PathMatch(c, f) || PathMatch(d, f)
              || PathMatch(e, f) || PathMatch(g, f) || PathMatch(h, f)
  {
    KeepStringHas(diff, a);
    KeepStringHas(diff, b);
    KeepGlobHas(diff, c);
    KeepGlobHas(diff, d);
    KeepGlobHas(diff, e);
    KeepGlobHas(diff, g);
    KeepGlobHas(diff, h);
  }

  lemma ConstOnDiff(diff: seq<string>)
    ensures HasGlob(diff, BUILD_CONST) <==> CONST_PATH in diff
  {
    KeepGlobHas(diff, BUILD_CONST);
    forall f <- diff ensures PathMatch(BUILD_CONST, f) <==> f == CONST_PATH { ConstPathMatches(f); }
  }

  lemma MappedOnDiff(diff: seq<string>)
    ensures SomethingMapped(diff) <==> exists f <- diff :: !NoTestFile(f)
  {
    SevenFiles(diff, SCENARIOS_PATH, SOURCE_BUILD_PATH, RELEASE_SUB, DEMO_FILES, DEMO_NESTED, INTEGRATION_FILES, EC_FILES);
    ConstOnDiff(diff);
  }

  /** In terms of the rules' guards. */
  lemma CoveredGuards(diff: seq<string>)
    ensures Covered(Value(diff))
       <==> || NonTestChanged(Value(diff)) || !HasString(diff, CONST_PATH) || SomethingMapped(diff)
            || (HasGlob(diff, RELEASE_ROOT) && HasGlob(diff, RELEASE_PIPELINES))
  {
    NothingValue(diff);
    FileRulesMap(diff);
    ReleaseValues(diff);
    RuleTable(Value(diff));
  }

  /** Exactly which diffs the three rules leave uncovered. */
  lemma Coverage(diff: seq<string>)
    ensures Covered(Value(diff)) <==> !FallsThrough(diff)
  {
    CoveredGuards(diff);
    NonTestOnDiff(diff);
    MappedOnDiff(diff);
    KeepStringHas(diff, CONST_PATH);
    KeepGlobHas(diff, RELEASE_ROOT);
    KeepGlobHas(diff, RELEASE_PIPELINES);
  }

  // ----- A diff that no rule covers -----

  /** No pattern of the file rules matches a path whose second segment is `build`, but BUILD_FILES and BUILD_CONST. */
  lemma SecondSegment(p: Pattern, f: string, c: string)
    requires Split(f, '/') == ["tests", "build", c]
    requires |p| >= 2 && p[0] == Lit("tests") && !p[1].DoubleStar? && !MatchesSegment(p[1], "build")
    ensures !PathMatch(p, f)
  {
    assert Split(f, '/')[1..] == ["build", c];
    assert p[1..][0] == p[1];
    assert !MatchesSegments(p[1..], ["build", c]);
  }

  const STRAY_PATH := "tests" + ['/'] + ("build" + ['/'] + "const.go~")

  lemma AvoidsNonTest(f: string)
    requires Avoids(f, {'p', 'm', 'r', 'k'})
    ensures NoNonTestString(f)
  {
    MissingChar(f, "pkg/", 0);
    MissingChar(f, "magefiles/", 0);
    MissingChar(f, "cmd/", 1);
    MissingChar(f, "integration-tests/", 5);
    MissingChar(f, ".tekton/", 3);
  }

  lemma AvoidsPath(a: string, b: string, c: string, bad: set<char>)
    requires Avoids(a, bad) && Avoids(b, bad) && Avoids(c, bad) && '/' !in bad
    ensures Avoids(a + ['/'] + (b + ['/'] + c), bad)
  {
  }

  lemma StrayStrings(f: string)
    requires f == STRAY_PATH
    ensures NoNonTestString(f)
  {
    AvoidsPath("tests", "build", "const.go~", {'p', 'm', 'r', 'k'});
    AvoidsNonTest(f);
  }

  lemma StrayPaths(f: string)
    requires f == STRAY_PATH
    ensures !Contains(f, SCENARIOS_PATH) && !Contains(f, SOURCE_BUILD_PATH) && f != CONST_PATH
  {
  }

  lemma StrayGlobs(f: string)
    requires f == STRAY_PATH
    ensures !PathMatch(RELEASE_ROOT, f) && !PathMatch(RELEASE_SUB, f)
    ensures !PathMatch(DEMO_FILES, f) && !PathMatch(DEMO_NESTED, f)
    ensures !PathMatch(INTEGRATION_FILES, f) && !PathMatch(EC_FILES, f)
  {
    var c := "const.go~";
    ThreeSegments("tests", "build", c);
    SecondSegment(RELEASE_ROOT, f, c);
    SecondSegment(RELEASE_SUB, f, c);
    SecondSegment(DEMO_FILES, f, c);
    SecondSegment(DEMO_NESTED, f, c);
    SecondSegment(INTEGRATION_FILES, f, c);
    SecondSegment(EC_FILES, f, c);
  }

  lemma StrayContainsConst()
    ensures Contains(STRAY_PATH, CONST_PATH)
  {
    assert STRAY_PATH == CONST_PATH + "~";
    assert OccursAt(STRAY_PATH, CONST_PATH, 0);
  }

  lemma OneFileFallsThrough(f: string)
    requires NoNonTestString(f) && NoTestFile(f) && Contains(f, CONST_PATH) && !PathMatch(RELEASE_ROOT, f)
    ensures FallsThrough([f])
  {
    assert f in [f];
  }

  /** A file that merely contains the path of the build constants matches no rule at all. */
  lemma StrayDiffIsNotCovered()
    ensures !Covered(Value([STRAY_PATH]))
  {
    StrayStrings(STRAY_PATH);
    StrayPaths(STRAY_PATH);
    StrayGlobs(STRAY_PATH);
    StrayContainsConst();
    OneFileFallsThrough(STRAY_PATH);
    Coverage([STRAY_PATH]);
  }
}
