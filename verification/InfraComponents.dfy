/**
 The nine component rules of infra-deployments: which files they look at, and why
 the label filter lists every matched label exactly once.
 */
module InfraComponents {
  import opened GoStrings
  import opened Names
  import opened ChangedFiles
  import opened RulesEngine
  import opened EngineMeaning
  import opened InfraLabels
  import opened InfraCatalog

  const INTEGRATION := "integration-service"
  const IMAGE := "image-controller"
  const MULTI := "multi-platform"
  const TEMPLATES := "build-templates"
  const BUILD := "build-service"
  const RELEASE := "release-service"
  const EC := "ec"
  const JVM := "jvm-build-service"
  const PIPELINE := "pipeline-service"

  const LABELS := [INTEGRATION, IMAGE, MULTI, TEMPLATES, BUILD, RELEASE, EC, JVM, PIPELINE, KONFLUX]

  // Components are named by their labels, which are distinct.
  function Named(l: string): Component {
    Component(l, l)
  }

  /** The entries that both rules list first, in the same order. */
  const COMMON := [Named(INTEGRATION), Named(IMAGE), Named(MULTI), Named(TEMPLATES), Named(BUILD), Named(RELEASE), Named(EC)]

  /** The order of the default rule, and that of the components rule. */
  const IN_DEFAULT := COMMON + [Named(JVM), Named(PIPELINE)]
  const IN_COMPONENTS := COMMON + [Named(PIPELINE), Named(JVM)]

  // ----- Files -----

  /** `components/<dir>/**/*`. */
  function Below(dir: string): Pattern {
    [Lit("components"), Lit(dir), DoubleStar, Star("", "")]
  }

  const PIPELINE_CONFIG_DIR: Pattern :=
    [Lit("components"), Lit("build-service"), Lit("base"), Lit("build-pipeline-config"), Star("", "")]
  const PIPELINE_CONFIG_FILE: Pattern :=
    [Lit("components"), Lit("build-service"), Lit("base"), Lit("build-pipeline-config"), Lit("build-pipeline-config.yaml")]

  /** Counts files below build-service against those in the pipeline configuration. */
  predicate BuildServiceChanged(diff: seq<string>) {
    |KeepGlob(diff, Below("build-service"))| > |KeepGlob(diff, PIPELINE_CONFIG_DIR)|
  }

  predicate ComponentChanges(name: string, diff: seq<string>) {
    if name == INTEGRATION then KeepGlob(diff, Below("integration")) != []
    else if name == IMAGE then KeepGlob(diff, Below("image-controller")) != []
    else if name == MULTI then KeepGlob(diff, Below("multi-platform-controller")) != []
    else if name == TEMPLATES then KeepGlob(diff, PIPELINE_CONFIG_FILE) != []
    else if name == BUILD then BuildServiceChanged(diff)
    else if name == RELEASE then KeepGlob(diff, Below("release")) != []
    else if name == EC then KeepGlob(diff, Below("enterprise-contract")) != []
    else if name == JVM then KeepGlob(diff, Below("jvm-build-service")) != []
    else if name == PIPELINE then KeepGlob(diff, Below("pipeline-service")) != []
    else false
  }

  lemma {:induction false} CountSplit(diff: seq<string>, p: Pattern, q: Pattern)
    requires forall f <- diff :: PathMatch(q, f) ==> PathMatch(p, f)
    ensures |KeepGlob(diff, q)| <= |KeepGlob(diff, p)|
    ensures |KeepGlob(diff, q)| < |KeepGlob(diff, p)| <==> exists f <- diff :: PathMatch(p, f) && !PathMatch(q, f)
  {
    if diff != [] {
      assert diff[0] in diff;
      CountSplit(diff[1..], p, q);
      if f :| f in diff && PathMatch(p, f) && !PathMatch(q, f) {
        assert f == diff[0] || f in diff[1..];
      }
    }
  }

  lemma ConfigIsBelow(f: string)
    requires PathMatch(PIPELINE_CONFIG_DIR, f)
    ensures PathMatch(Below("build-service"), f)
  {
    var xs := Split(f, '/');
    SegmentWise(PIPELINE_CONFIG_DIR, xs);
    assert MatchesSegment(PIPELINE_CONFIG_DIR[0], xs[0]) && MatchesSegment(PIPELINE_CONFIG_DIR[1], xs[1]);
    BelowMatches("build-service", xs);
  }

  lemma {:induction false} SegmentWise(p: Pattern, xs: seq<string>)
    requires MatchesSegments(p, xs) && DoubleStar !in p
    ensures |xs| == |p| && forall i :: 0 <= i < |p| ==> MatchesSegment(p[i], xs[i])
    decreases |p|
  {
    if p != [] { SegmentWise(p[1..], xs[1..]); }
  }

  lemma BelowMatches(dir: string, xs: seq<string>)
    requires |xs| == 5 && xs[0] == "components" && xs[1] == dir
    ensures MatchesSegments(Below(dir), xs)
  {
    var any: Pattern := [Star("", "")];
    var deep: Pattern := [DoubleStar, Star("", "")];
    assert Below(dir)[1..] == [Lit(dir), DoubleStar, Star("", "")];
    assert [Lit(dir), DoubleStar, Star("", "")][1..] == deep && deep[1..] == any && any[1..] == [];
    assert MatchesSegments([], []);
    assert xs[4..][1..] == [] && xs[4..][0][..0] == "" && xs[4..][0][|xs[4..][0]|..] == "";
    assert MatchesSegments(any, xs[4..]);
    assert MatchesSegments(deep, xs[4..]);
    assert xs[3..][1..] == xs[4..] && xs[2..][1..] == xs[3..] && xs[1..][1..] == xs[2..];
    assert MatchesSegments(deep, xs[3..]);
    assert MatchesSegments(deep, xs[2..]);
    assert MatchesSegments([Lit(dir), DoubleStar, Star("", "")], xs[1..]);
  }

  /** The counting condition says what the rule promises: some file outside the pipeline configuration. */
  lemma BuildServiceCondition(diff: seq<string>)
    ensures BuildServiceChanged(diff)
       <==> exists f <- diff :: PathMatch(Below("build-service"), f) && !PathMatch(PIPELINE_CONFIG_DIR, f)
  {
    forall f <- diff | PathMatch(PIPELINE_CONFIG_DIR, f) ensures PathMatch(Below("build-service"), f) {
      ConfigIsBelow(f);
    }
    CountSplit(diff, Below("build-service"), PIPELINE_CONFIG_DIR);
  }

  // ----- No label is part of another, with one exception -----

  lemma NoEc(x: string)
    requires forall k :: 0 <= k < |x| - 1 ==> !(x[k] == 'e' && x[k + 1] == 'c')
    ensures !Contains(x, EC)
  {
    forall k | 0 <= k <= |x| ensures !OccursAt(x, EC, k) {
      if k + 2 <= |x| {
        assert x[k..k + 2][0] == x[k] && x[k..k + 2][1] == x[k + 1];
      }
    }
  }

  lemma IntegrationNotIn(x: string)
    requires x in LABELS && x != INTEGRATION
    ensures !Contains(x, INTEGRATION)
  {
  }

  lemma ImageNotIn(x: string)
    requires x in LABELS && x != IMAGE
    ensures !Contains(x, IMAGE)
  {
    if x == INTEGRATION || x == PIPELINE {
      MissingChar(x, IMAGE, 1);
    } else if x == JVM {
      MissingChar(x, IMAGE, 2);
    }
  }

  lemma MultiNotIn(x: string)
    requires x in LABELS && x != MULTI
    ensures !Contains(x, MULTI)
  {
    if x == INTEGRATION || x == RELEASE || x == PIPELINE {
      MissingChar(x, MULTI, 0);
    } else if x == IMAGE {
      MissingChar(x, MULTI, 1);
    } else if x == TEMPLATES {
      MissingChar(x, MULTI, 10);
    } else if x == JVM {
      MissingChar(x, MULTI, 3);
    }
  }

  lemma TemplatesNotIn(x: string)
    requires x in LABELS && x != TEMPLATES
    ensures !Contains(x, TEMPLATES)
  {
    if x == INTEGRATION || x == IMAGE || x == RELEASE || x == PIPELINE {
      MissingChar(x, TEMPLATES, 0);
    } else if x == JVM {
      MissingChar(x, TEMPLATES, 6);
    }
  }

  lemma BuildNotIn(x: string)
    requires x in LABELS && x != BUILD && x != JVM
    ensures !Contains(x, BUILD)
  {
    if x == INTEGRATION || x == IMAGE || x == MULTI || x == RELEASE || x == PIPELINE {
      MissingChar(x, BUILD, 0);
    } else if x == TEMPLATES {
      MissingChar(x, BUILD, 8);
    }
  }

  lemma ReleaseNotIn(x: string)
    requires x in LABELS && x != RELEASE
    ensures !Contains(x, RELEASE)
  {
    if x == INTEGRATION {
      MissingChar(x, RELEASE, 2);
    } else if x == IMAGE {
      MissingChar(x, RELEASE, 5);
    } else if x == TEMPLATES {
      MissingChar(x, RELEASE, 0);
    } else if x == JVM || x == PIPELINE {
      MissingChar(x, RELEASE, 4);
    }
  }

  lemma EcNotIn(x: string)
    requires x in LABELS && x != EC
    ensures !Contains(x, EC)
  {
    if x == MULTI || x == KONFLUX {
      MissingChar(x, EC, 0);
    } else if x == TEMPLATES {
      MissingChar(x, EC, 1);
    } else if x == INTEGRATION || x == IMAGE || x == BUILD || x == RELEASE || x == JVM || x == PIPELINE {
      NoEc(x);
    }
  }

  lemma JvmNotIn(x: string)
    requires x in LABELS && x != JVM
    ensures !Contains(x, JVM)
  {
    if x == INTEGRATION {
      MissingChar(x, JVM, 0);
    }
  }

  lemma PipelineNotIn(x: string)
    requires x in LABELS && x != PIPELINE
    ensures !Contains(x, PIPELINE)
  {
    if x == INTEGRATION || x == IMAGE || x == JVM {
      MissingChar(x, PIPELINE, 0);
    }
  }

  lemma KonfluxNotIn(x: string)
    requires x in LABELS && x != KONFLUX
    ensures !Contains(x, KONFLUX)
  {
    if x == INTEGRATION || x == IMAGE || x == MULTI || x == TEMPLATES || x == BUILD || x == RELEASE || x == JVM || x == PIPELINE {
      MissingChar(x, KONFLUX, 0);
    }
  }

  lemma NotPartOf(x: string, y: string)
    requires x in LABELS && y in LABELS && x != y && !(x == JVM && y == BUILD)
    ensures !Contains(x, y)
  {
    if y == INTEGRATION { IntegrationNotIn(x); }
    else if y == IMAGE { ImageNotIn(x); }
    else if y == MULTI { MultiNotIn(x); }
    else if y == TEMPLATES { TemplatesNotIn(x); }
    else if y == BUILD { BuildNotIn(x); }
    else if y == RELEASE { ReleaseNotIn(x); }
    else if y == EC { EcNotIn(x); }
    else if y == JVM { JvmNotIn(x); }
    else if y == PIPELINE { PipelineNotIn(x); }
    else { KonfluxNotIn(x); }
  }

  // ----- The final filter -----

  /** `build-service` never comes after `jvm-build-service` unless it came before. */
  predicate BuildBeforeJvm(labels: seq<string>) {
    forall i, j :: 0 <= i < j < |labels| && labels[i] == JVM && labels[j] == BUILD ==> BUILD in labels[..i]
  }

  lemma NotCovered(kept: seq<string>, l: string)
    requires forall x <- kept :: x in LABELS
    requires l in LABELS && l !in kept && !(l == BUILD && JVM in kept)
    ensures !Covers(kept, l)
  {
    forall i | 0 <= i < |kept| ensures !Contains(kept[i], l) {
      assert kept[i] in kept;
      NotPartOf(kept[i], l);
    }
  }

  lemma {:induction false} AllFresh(kept: seq<string>, labels: seq<string>)
    requires forall x <- kept :: x in LABELS
    requires forall x <- labels :: x in LABELS
    requires BuildBeforeJvm(kept + labels)
    ensures Fresh(kept, labels)
    decreases labels
  {
    if labels != [] {
      var l, rest := labels[0], labels[1..];
      assert labels == [l] + rest;
      assert l in labels;
      if l in kept {
        DropKnown(kept, l, rest);
        AllFresh(kept, rest);
      } else {
        if l == BUILD && JVM in kept {
          JvmNotBefore(kept, rest);
        }
        NotCovered(kept, l);
        assert kept + [l] + rest == kept + labels;
        AllFresh(kept + [l], rest);
      }
    }
  }

  lemma JvmNotBefore(kept: seq<string>, rest: seq<string>)
    requires BuildBeforeJvm(kept + ([BUILD] + rest)) && BUILD !in kept
    ensures JVM !in kept
  {
    var all := kept + ([BUILD] + rest);
    assert all[|kept|] == BUILD;
    forall i | 0 <= i < |kept| ensures kept[i] != JVM {
      assert all[i] == kept[i];
      assert all[..i] == kept[..i];
    }
  }

  lemma DropKnown(kept: seq<string>, l: string, rest: seq<string>)
    requires l in kept && BuildBeforeJvm(kept + ([l] + rest))
    ensures BuildBeforeJvm(kept + rest)
  {
    var all, less := kept + ([l] + rest), kept + rest;
    var n := |kept|;
    assert forall m :: 0 <= m < n ==> all[m] == less[m] == kept[m];
    assert forall m :: n <= m < |less| ==> all[m + 1] == less[m];
    forall i, j | 0 <= i < j < |less| && less[i] == JVM && less[j] == BUILD
      ensures BUILD in less[..i]
    {
      var i', j' := if i < n then i else i + 1, if j < n then j else j + 1;
      assert all[i'] == JVM && all[j'] == BUILD;
      assert BUILD in all[..i'];
      var k :| 0 <= k < i' && all[k] == BUILD;
      var at :| 0 <= at < n && kept[at] == l;
      var k' := if k < n then k else if k == n then at else k - 1;
      assert k' < i && less[k'] == BUILD;
      assert less[..i][k'] == BUILD;
    }
  }

  lemma AreLabels(l: string)
    requires l in LABELS
    ensures IsLabel(l)
  {
  }

  lemma CommonLabels(c: Component)
    requires c in COMMON
    ensures c == Named(c.lbl) && c.lbl in LABELS && c.lbl != JVM
  {
  }

  lemma ComponentLabels(c: Component)
    requires c in IN_DEFAULT || c in IN_COMPONENTS
    ensures c == Named(c.lbl) && c.lbl in LABELS && IsLabel(c.lbl)
  {
    if c in COMMON { CommonLabels(c); }
    AreLabels(c.lbl);
  }

  lemma SameNine()
    ensures SameComponents(IN_DEFAULT, IN_COMPONENTS)
  {
    var a, b := [Named(JVM), Named(PIPELINE)], [Named(PIPELINE), Named(JVM)];
    forall c ensures c in IN_DEFAULT <==> c in IN_COMPONENTS {
      assert c in IN_DEFAULT <==> c in COMMON || c in a;
      assert c in IN_COMPONENTS <==> c in COMMON || c in b;
    }
  }

  /** Where the labels stand: the first one, those both rules share, then `pipeline-service`, `jvm-build-service`, `konflux`. */
  lemma AddedShape(v: Valuation) returns (first: seq<string>, shared: seq<string>, tail: seq<string>)
    ensures AddedLabels(IN_DEFAULT, IN_COMPONENTS, v) == first + shared + tail
    ensures first == Labels(First(IN_DEFAULT, v)) && shared == Labels(Changed(COMMON, v))
    ensures BUILD !in tail && JVM !in shared
    ensures first == [JVM] ==> BUILD !in shared
    ensures |first| <= 1
    ensures forall x <- first + shared + tail :: x in LABELS
  {
    var last := [Named(PIPELINE), Named(JVM)];
    ChangedConcat(COMMON, last, v);
    first, shared := Labels(First(IN_DEFAULT, v)), Labels(Changed(COMMON, v));
    tail := Labels(Changed(last, v)) + [KONFLUX];
    LabelsConcat(First(IN_DEFAULT, v), Changed(COMMON, v) + Changed(last, v));
    LabelsConcat(Changed(COMMON, v), Changed(last, v));
    SharedLabels(v);
    FirstLabel(v);
    LastLabels(v);
  }

  lemma SharedLabels(v: Valuation)
    ensures var shared := Labels(Changed(COMMON, v));
            && JVM !in shared && (forall x <- shared :: x in LABELS)
            && (BUILD in shared ==> v(ComponentChanged(BUILD)))
  {
    ChangedHas(COMMON, v);
    LabelsHas(Changed(COMMON, v));
    forall c <- Changed(COMMON, v) ensures c == Named(c.lbl) && c.lbl in LABELS && c.lbl != JVM { CommonLabels(c); }
  }

  lemma LastLabels(v: Valuation)
    ensures var tail := Labels(Changed([Named(PIPELINE), Named(JVM)], v)) + [KONFLUX];
            BUILD !in tail && forall x <- tail :: x in LABELS
  {
    var last := [Named(PIPELINE), Named(JVM)];
    ChangedHas(last, v);
    LabelsHas(Changed(last, v));
    assert BUILD != PIPELINE && BUILD != JVM && BUILD != KONFLUX by {
      assert |BUILD| == 13 && |PIPELINE| == 16 && |JVM| == 17 && |KONFLUX| == 7;
    }
  }

  lemma FirstLabel(v: Valuation)
    ensures var first := Labels(First(IN_DEFAULT, v));
            && |first| <= 1 && (forall x <- first :: x in LABELS)
            && (first == [JVM] ==> BUILD !in Labels(Changed(COMMON, v)))
  {
    forall c <- COMMON ensures c.lbl != JVM { CommonLabels(c); }
    FirstShared(COMMON, [Named(JVM), Named(PIPELINE)], v, JVM);
    FirstIsOne(IN_DEFAULT, v);
    forall c | c in IN_DEFAULT ensures c.lbl in LABELS { ComponentLabels(c); }
  }

  lemma AddedOrdered(v: Valuation)
    ensures BuildBeforeJvm(AddedLabels(IN_DEFAULT, IN_COMPONENTS, v))
    ensures forall x <- AddedLabels(IN_DEFAULT, IN_COMPONENTS, v) :: x in LABELS
  {
    var first, shared, tail := AddedShape(v);
    Ordered(first, shared, tail);
  }

  lemma Ordered(first: seq<string>, shared: seq<string>, tail: seq<string>)
    requires BUILD !in tail && JVM !in shared && |first| <= 1
    requires first == [JVM] ==> BUILD !in shared
    ensures BuildBeforeJvm(first + shared + tail)
  {
    var all := first + shared + tail;
    var n := |first| + |shared|;
    assert forall m :: n <= m < |all| ==> all[m] == tail[m - n];
    assert forall m :: |first| <= m < n ==> all[m] == shared[m - |first|];
    assert |first| == 1 ==> all[0] == first[0] && first == [first[0]];
  }

  function RealChanges(): (c: Changes)
    ensures c == ComponentChanges
  {
    ComponentChanges
  }

  /**
   For every diff that changes a component, the tests run with a comma-separated
   list that holds the label of each changed component and `konflux`, each exactly
   once and nothing else, although the default rule had already added one of them.
   */
  lemma RealFilter(s: State<InfraCtx>)
    requires s.ctx.labelFilter == "" && Changed(IN_COMPONENTS, Value(RealChanges(), s.ctx.diff)) != []
    ensures var r := RunCatalog(InfraInterp(RealChanges()), Catalog(IN_DEFAULT, IN_COMPONENTS), [], s);
            r.err.None? && ListsEachOnce(r.s.ctx.labelFilter, IN_COMPONENTS, Value(RealChanges(), s.ctx.diff))
  {
    var v := Value(RealChanges(), s.ctx.diff);
    SameNine();
    forall c <- IN_COMPONENTS ensures IsLabel(c.lbl) { ComponentLabels(c); }
    RealFresh(v);
    FilterListsEachOnce(IN_DEFAULT, IN_COMPONENTS, RealChanges(), s);
  }

  lemma RealFresh(v: Valuation)
    ensures Fresh([], AddedLabels(IN_DEFAULT, IN_COMPONENTS, v))
  {
    var added := AddedLabels(IN_DEFAULT, IN_COMPONENTS, v);
    AddedOrdered(v);
    assert [] + added == added;
    AllFresh([], added);
  }
}
