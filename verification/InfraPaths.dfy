/**
 The label filter of an infra-deployments run in terms of the changed paths: which
 directories stand for which label.
 */
module InfraPaths {
  import opened GoStrings
  import opened ChangedFiles
  import opened PathShapes
  import opened Names
  import opened RulesEngine
  import opened EngineMeaning
  import opened InfraLabels
  import opened InfraCatalog
  import opened InfraComponents

  /** Some changed path is below the directory, given by its segments. */
  predicate Touched(diff: seq<string>, dirs: seq<string>) {
    exists f <- diff :: Dirs(dirs) <= f
  }

  const PIPELINE_CONFIG := ["components", "build-service", "base", "build-pipeline-config"]

  /** A file directly in a directory. */
  predicate DirectlyIn(dirs: seq<string>, f: string) {
    Dirs(dirs) <= f && NoSlash(f[|Dirs(dirs)|..])
  }

  /** Whether the changed paths call for the tests of a label. */
  predicate Wanted(l: string, diff: seq<string>) {
    if l == "integration-service" then Touched(diff, ["components", "integration"])
    else if l == "image-controller" then Touched(diff, ["components", "image-controller"])
    else if l == "multi-platform" then Touched(diff, ["components", "multi-platform-controller"])
    else if l == "build-templates" then Dirs(PIPELINE_CONFIG) + "build-pipeline-config.yaml" in diff
    else if l == "build-service" then
      exists f <- diff :: Dirs(["components", "build-service"]) <= f && !DirectlyIn(PIPELINE_CONFIG, f)
    else if l == "release-service" then Touched(diff, ["components", "release"])
    else if l == "ec" then Touched(diff, ["components", "enterprise-contract"])
    else if l == "jvm-build-service" then Touched(diff, ["components", "jvm-build-service"])
    else if l == "pipeline-service" then Touched(diff, ["components", "pipeline-service"])
    else false
  }

  // ----- Patterns as paths -----

  lemma LitsFour(a: string, b: string, c: string, d: string)
    ensures Lits([a, b, c, d]) == [Lit(a), Lit(b), Lit(c), Lit(d)]
  {
    assert [a, b, c, d][1..] == [b, c, d] && [b, c, d][1..] == [c, d];
    LitsTwo(c, d);
  }

  lemma DeepMeans(dirs: seq<string>, f: string)
    requires NoSlashes(dirs)
    ensures PathMatch(Lits(dirs) + [DoubleStar, Star("", "")], f) <==> Dirs(dirs) <= f
  {
    FileBelowMeans(dirs, "", f);
  }

  lemma DirectMeans(dirs: seq<string>, f: string)
    requires NoSlashes(dirs)
    ensures PathMatch(Lits(dirs) + [Star("", "")], f) <==> DirectlyIn(dirs, f)
  {
    FileAtMeans(dirs, "", f);
  }

  lemma FileMeans(dirs: seq<string>, name: string, f: string)
    requires NoSlash(name) && NoSlashes(dirs)
    ensures PathMatch(Lits(dirs) + [Lit(name)], f) <==> f == Dirs(dirs) + name
  {
    var last := [Lit(name)];
    assert !MatchesSegments(last, []);
    PeelLits(dirs, last, f);
    PrefixOnly(Dirs(dirs), name, f);
    if Dirs(dirs) <= f { LastLit(name, f[|Dirs(dirs)|..]); }
  }

  lemma PrefixOnly(a: string, b: string, f: string)
    ensures f == a + b <==> a <= f && f[|a|..] == b
  {
    if a <= f { assert f == a + f[|a|..]; }
  }

  lemma BelowMeans(dir: string, f: string)
    requires NoSlash(dir)
    ensures PathMatch(Below(dir), f) <==> Dirs(["components", dir]) <= f
  {
    LitsTwo("components", dir);
    assert Below(dir) == Lits(["components", dir]) + [DoubleStar, Star("", "")];
    DeepMeans(["components", dir], f);
  }

  lemma BelowTouched(dir: string, diff: seq<string>)
    requires NoSlash(dir)
    ensures KeepGlob(diff, Below(dir)) != [] <==> Touched(diff, ["components", dir])
  {
    KeepGlobHas(diff, Below(dir));
    forall f <- diff ensures PathMatch(Below(dir), f) <==> Dirs(["components", dir]) <= f { BelowMeans(dir, f); }
  }

  lemma ConfigDirs()
    ensures Lits(PIPELINE_CONFIG) == [Lit("components"), Lit("build-service"), Lit("base"), Lit("build-pipeline-config")]
  {
    LitsFour("components", "build-service", "base", "build-pipeline-config");
  }

  lemma ConfigNoSlashes()
    ensures NoSlashes(PIPELINE_CONFIG)
  {
    assert NoSlash("components") && NoSlash("build-service") && NoSlash("base") && NoSlash("build-pipeline-config");
  }

  lemma ConfigDirMeans(f: string)
    ensures PathMatch(PIPELINE_CONFIG_DIR, f) <==> DirectlyIn(PIPELINE_CONFIG, f)
  {
    ConfigDirs();
    ConfigNoSlashes();
    assert PIPELINE_CONFIG_DIR == Lits(PIPELINE_CONFIG) + [Star("", "")];
    DirectMeans(PIPELINE_CONFIG, f);
  }

  lemma ConfigFileMeans(f: string)
    ensures PathMatch(PIPELINE_CONFIG_FILE, f) <==> f == Dirs(PIPELINE_CONFIG) + "build-pipeline-config.yaml"
  {
    ConfigDirs();
    ConfigNoSlashes();
    assert PIPELINE_CONFIG_FILE == Lits(PIPELINE_CONFIG) + [Lit("build-pipeline-config.yaml")];
    FileMeans(PIPELINE_CONFIG, "build-pipeline-config.yaml", f);
  }

  // ----- Components as labels -----

  lemma TemplatesWanted(diff: seq<string>)
    ensures ComponentChanges(TEMPLATES, diff) <==> Wanted(TEMPLATES, diff)
  {
    KeepGlobHas(diff, PIPELINE_CONFIG_FILE);
    var path := Dirs(PIPELINE_CONFIG) + "build-pipeline-config.yaml";
    forall f <- diff ensures PathMatch(PIPELINE_CONFIG_FILE, f) <==> f == path { ConfigFileMeans(f); }
  }

  lemma BuildWanted(diff: seq<string>)
    ensures ComponentChanges(BUILD, diff) <==> Wanted(BUILD, diff)
  {
    BuildServiceCondition(diff);
    forall f <- diff
      ensures PathMatch(Below("build-service"), f) <==> Dirs(["components", "build-service"]) <= f
      ensures PathMatch(PIPELINE_CONFIG_DIR, f) <==> DirectlyIn(PIPELINE_CONFIG, f)
    {
      BelowMeans("build-service", f);
      ConfigDirMeans(f);
    }
  }

  lemma IntegrationWanted(diff: seq<string>)
    ensures ComponentChanges(INTEGRATION, diff) <==> Wanted(INTEGRATION, diff)
  {
    BelowTouched("integration", diff);
  }

  lemma ImageWanted(diff: seq<string>)
    ensures ComponentChanges(IMAGE, diff) <==> Wanted(IMAGE, diff)
  {
    BelowTouched("image-controller", diff);
  }

  lemma MultiWanted(diff: seq<string>)
    ensures ComponentChanges(MULTI, diff) <==> Wanted(MULTI, diff)
  {
    BelowTouched("multi-platform-controller", diff);
  }

  lemma ReleaseWanted(diff: seq<string>)
    ensures ComponentChanges(RELEASE, diff) <==> Wanted(RELEASE, diff)
  {
    BelowTouched("release", diff);
  }

  lemma EcWanted(diff: seq<string>)
    ensures ComponentChanges(EC, diff) <==> Wanted(EC, diff)
  {
    BelowTouched("enterprise-contract", diff);
  }

  lemma JvmWanted(diff: seq<string>)
    ensures ComponentChanges(JVM, diff) <==> Wanted(JVM, diff)
  {
    BelowTouched("jvm-build-service", diff);
  }

  lemma PipelineWanted(diff: seq<string>)
    ensures ComponentChanges(PIPELINE, diff) <==> Wanted(PIPELINE, diff)
  {
    BelowTouched("pipeline-service", diff);
  }

  /** A component's condition, for every label and every diff. */
  lemma ConditionMeans(l: string, diff: seq<string>)
    ensures ComponentChanges(l, diff) <==> Wanted(l, diff)
  {
    if l == INTEGRATION { IntegrationWanted(diff); }
    else if l == IMAGE { ImageWanted(diff); }
    else if l == MULTI { MultiWanted(diff); }
    else if l == TEMPLATES { TemplatesWanted(diff); }
    else if l == BUILD { BuildWanted(diff); }
    else if l == RELEASE { ReleaseWanted(diff); }
    else if l == EC { EcWanted(diff); }
    else if l == JVM { JvmWanted(diff); }
    else if l == PIPELINE { PipelineWanted(diff); }
  }

  lemma IsComponent(l: string, diff: seq<string>)
    requires ComponentChanges(l, diff)
    ensures Named(l) in IN_COMPONENTS
  {
  }

  /** A label is that of a changed component. */
  ghost predicate Changes(l: string, any: seq<Component>, v: Valuation) {
    exists c :: c in any && c.lbl == l && v(ComponentChanged(c.name))
  }

  lemma ChangesMeans(l: string, diff: seq<string>)
    ensures Changes(l, IN_COMPONENTS, Value(RealChanges(), diff)) <==> Wanted(l, diff)
  {
    var v := Value(RealChanges(), diff);
    ConditionMeans(l, diff);
    assert v(ComponentChanged(l)) == ComponentChanges(l, diff);
    forall c | c in IN_COMPONENTS ensures c == Named(c.lbl) { ComponentLabels(c); }
    if ComponentChanges(l, diff) { IsComponent(l, diff); }
  }

  /**
   For every diff that is not empty, the tests run with a comma-separated filter that
   holds `konflux` and exactly the labels whose directories changed.
   */
  lemma FilterByPaths(s: State<InfraCtx>)
    requires s.ctx.labelFilter == "" && s.ctx.diff != []
    ensures var filter := RunCatalog(InfraInterp(RealChanges()), Catalog(IN_DEFAULT, IN_COMPONENTS), [], s).s.ctx.labelFilter;
            forall l :: l in Split(filter, ',') <==> l == "konflux" || Wanted(l, s.ctx.diff)
  {
    var filter := RunCatalog(InfraInterp(RealChanges()), Catalog(IN_DEFAULT, IN_COMPONENTS), [], s).s.ctx.labelFilter;
    SameNine();
    forall c <- IN_COMPONENTS ensures IsLabel(c.lbl) { ComponentLabels(c); }
    RealFresh(Value(RealChanges(), s.ctx.diff));
    FilterLists(IN_DEFAULT, IN_COMPONENTS, RealChanges(), s);
    forall l ensures l in Split(filter, ',') <==> l == "konflux" || Wanted(l, s.ctx.diff) {
      ChangesMeans(l, s.ctx.diff);
    }
  }

  lemma FilterLists(none: seq<Component>, any: seq<Component>, changes: InfraCatalog.Changes, s: State<InfraCtx>)
    requires SameComponents(none, any) && s.ctx.labelFilter == "" && s.ctx.diff != []
    requires forall c <- any :: IsLabel(c.lbl)
    requires Fresh([], AddedLabels(none, any, Value(changes, s.ctx.diff)))
    ensures var v := Value(changes, s.ctx.diff);
            var filter := RunCatalog(InfraInterp(changes), Catalog(none, any), [], s).s.ctx.labelFilter;
            forall l :: l in Split(filter, ',') <==> l == KONFLUX || Changes(l, any, v)
  {
    var v := Value(changes, s.ctx.diff);
    var filter := RunCatalog(InfraInterp(changes), Catalog(none, any), [], s).s.ctx.labelFilter;
    if Changed(any, v) != [] {
      FilterListsEachOnce(none, any, changes, s);
      ListedLabels(filter, any, v);
    } else {
      FinalFilter(none, any, changes, s);
      KonfluxAlone();
      ChangedHas(any, v);
    }
  }

  lemma KonfluxAlone()
    ensures Split(KONFLUX, ',') == [KONFLUX]
  {
    SplitNone(KONFLUX, ',');
  }

  lemma ListedLabels(filter: string, any: seq<Component>, v: Valuation)
    requires ListsEachOnce(filter, any, v) && forall c <- any :: IsLabel(c.lbl)
    ensures IsLabelList(Split(filter, ','), any, v)
  {
    var labels :| filter == Join(labels, ",") && IsLabelList(labels, any, v);
    ListedAreLabels(labels, any, v);
    assert KONFLUX in labels;
    JoinedLabels(labels);
  }
}
