/**
 The infra-deployments catalog (magefiles/rulesengine/repos/infra_deployments.go)
 for any number of component rules, and for the nine rules of the source.
 */
module InfraCatalog {
  import opened GoStrings
  import opened Names
  import opened RulesEngine
  import opened EngineMeaning
  import opened EngineReplay
  import opened InfraLabels

  /** A component, and the label of its tests. */
  datatype Component = Component(name: string, lbl: string)

  datatype InfraCtx = InfraCtx(diff: seq<string>, labelFilter: string)

  const KONFLUX := "konflux"

  // ----- The rules -----

  function ComponentRule(c: Component): Cond {
    Sub(Rule(c.name, Func(ComponentChanged(c.name)), [AddLabel(c.lbl)]))
  }

  function ComponentRules(cs: seq<Component>): (r: seq<Cond>)
    ensures |r| == |cs|
  {
    if cs == [] then [] else [ComponentRule(cs[0])] + ComponentRules(cs[1..])
  }

  function DefaultRule(cs: seq<Component>): Rule {
    Rule("Infra Deployments Default Test Execution",
      NoneOf(ComponentRules(cs) + [Func(NothingChanged)]), [ExecuteInfraDefault])
  }

  function ComponentsRule(cs: seq<Component>): Rule {
    Rule("Infra-deployments PR Components File Diff Execution",
      Any(ComponentRules(cs)), [AddLabel(KONFLUX), ExecuteTests])
  }

  /** The catalog; the two rules may list the components in different orders. */
  function Catalog(none: seq<Component>, any: seq<Component>): RuleCatalog {
    [DefaultRule(none), ComponentsRule(any)]
  }

  // ----- The outside world -----

  function Acted(id: Id, ctx: InfraCtx): InfraCtx {
    match id
    case AddLabel(l) => ctx.(labelFilter := WithLabel(ctx.labelFilter, l))
    case ExecuteInfraDefault => ctx.(labelFilter := KONFLUX)
    case _ => ctx
  }

  /** Which components a diff changes; an empty diff changes none. */
  type Changes = c: (string, seq<string>) -> bool | forall name :: !c(name, []) witness (_, _) => false

  predicate Answers(changes: Changes, diff: seq<string>, id: Id) {
    match id
    case ComponentChanged(name) => changes(name, diff)
    case NothingChanged => diff == []
    case _ => false
  }

  function Value(changes: Changes, diff: seq<string>): Valuation {
    id => Answers(changes, diff, id)
  }

  function InfraInterp(changes: Changes): Interp<InfraCtx> {
    Interp(
      (id, s: State<InfraCtx>) => Answer(s.ctx, Value(changes, s.ctx.diff)(id), None),
      (id, s: State<InfraCtx>) => Effect(Acted(id, s.ctx), None))
  }

  // ----- Which rule holds -----

  /** The components that changed, in order. */
  function Changed(cs: seq<Component>, v: Valuation): seq<Component> {
    if cs == [] then []
    else (if v(ComponentChanged(cs[0].name)) then [cs[0]] else []) + Changed(cs[1..], v)
  }

  lemma {:induction false} ChangedHas(cs: seq<Component>, v: Valuation)
    ensures forall c :: c in Changed(cs, v) <==> c in cs && v(ComponentChanged(c.name))
  {
    if cs != [] { ChangedHas(cs[1..], v); }
  }

  lemma RuleHolds(c: Component, v: Valuation)
    ensures Holds(ComponentRule(c), v) == v(ComponentChanged(c.name))
  {
  }

  lemma AnyCons(c: Cond, cs: seq<Cond>, v: Valuation)
    ensures Holds(Any([c] + cs), v) <==> Holds(c, v) || Holds(Any(cs), v)
    ensures Holds(NoneOf([c] + cs), v) <==> !Holds(c, v) && Holds(NoneOf(cs), v)
  {
    var all := [c] + cs;
    assert all[0] == c;
    assert forall i :: 0 <= i < |cs| ==> all[i + 1] == cs[i];
    assert forall i :: 0 < i < |all| ==> all[i] == cs[i - 1];
  }

  lemma {:induction false} SomeChanged(cs: seq<Component>, v: Valuation)
    ensures Holds(Any(ComponentRules(cs)), v) <==> Changed(cs, v) != []
  {
    if cs != [] {
      RuleHolds(cs[0], v);
      AnyCons(ComponentRule(cs[0]), ComponentRules(cs[1..]), v);
      SomeChanged(cs[1..], v);
    }
  }

  ghost predicate SameComponents(a: seq<Component>, b: seq<Component>) {
    forall c :: c in a <==> c in b
  }

  lemma {:induction false} DefaultHolds(none: seq<Component>, v: Valuation)
    ensures Holds(DefaultRule(none).condition, v) <==> Changed(none, v) == [] && !v(NothingChanged)
  {
    var last := [Func(NothingChanged)];
    if none == [] {
      assert ComponentRules(none) + last == last && last[0] == Func(NothingChanged);
    } else {
      RuleHolds(none[0], v);
      assert ComponentRules(none) + last == [ComponentRule(none[0])] + (ComponentRules(none[1..]) + last);
      AnyCons(ComponentRule(none[0]), ComponentRules(none[1..]) + last, v);
      DefaultHolds(none[1..], v);
    }
  }

  lemma SameChanged(a: seq<Component>, b: seq<Component>, v: Valuation)
    requires SameComponents(a, b)
    ensures Changed(a, v) == [] <==> Changed(b, v) == []
    ensures Changed(b, v) != [] <==> exists x <- b :: v(ComponentChanged(x.name))
  {
    ChangedHas(a, v);
    ChangedHas(b, v);
    if Changed(a, v) != [] { assert Changed(a, v)[0] in Changed(b, v); }
    if Changed(b, v) != [] { assert Changed(b, v)[0] in Changed(a, v); }
  }

  lemma SelectionOf(none: seq<Component>, any: seq<Component>, v: Valuation)
    requires SameComponents(none, any) && (v(NothingChanged) ==> Changed(any, v) == [])
    ensures var d, c := Holds(DefaultRule(none).condition, v), Holds(ComponentsRule(any).condition, v);
            && (d || c <==> !v(NothingChanged)) && !(d && c)
            && (c <==> Changed(any, v) != [])
  {
    DefaultHolds(none, v);
    SomeChanged(any, v);
    SameChanged(none, any, v);
  }

  lemma ChangedValue(any: seq<Component>, changes: Changes, diff: seq<string>)
    ensures var v := Value(changes, diff);
            && (v(NothingChanged) <==> diff == [])
            && (Changed(any, v) != [] <==> exists x <- any :: changes(x.name, diff))
            && (diff == [] ==> Changed(any, v) == [])
  {
    var v := Value(changes, diff);
    SameChanged(any, any, v);
    assert forall name :: v(ComponentChanged(name)) == changes(name, diff);
  }

  /**
   For any components and any diff: on an empty diff neither rule holds; otherwise
   exactly one does, the components rule when some component changed.
   */
  lemma Selection(none: seq<Component>, any: seq<Component>, changes: Changes, diff: seq<string>)
    requires SameComponents(none, any)
    ensures var v := Value(changes, diff);
            var d, c := Holds(DefaultRule(none).condition, v), Holds(ComponentsRule(any).condition, v);
            && (d || c <==> diff != []) && !(d && c)
            && (c <==> exists x <- any :: changes(x.name, diff))
  {
    ChangedValue(any, changes, diff);
    SelectionOf(none, any, Value(changes, diff));
  }

  // ----- What is executed -----

  function AddLabels(cs: seq<Component>): seq<Id> {
    if cs == [] then [] else [AddLabel(cs[0].lbl)] + AddLabels(cs[1..])
  }

  lemma RuleTrace(c: Component, v: Valuation)
    ensures Trace(ComponentRule(c), v) == if v(ComponentChanged(c.name)) then [AddLabel(c.lbl)] else []
  {
    RuleHolds(c, v);
  }

  lemma {:induction false} AddLabelsConcat(a: seq<Component>, b: seq<Component>)
    ensures AddLabels(a + b) == AddLabels(a) + AddLabels(b)
  {
    if a == [] {
      assert a + b == b;
    } else {
      assert (a + b)[1..] == a[1..] + b;
      AddLabelsConcat(a[1..], b);
    }
  }

  lemma {:induction false} AnyTrace(cs: seq<Component>, v: Valuation)
    ensures Traces(ComponentRules(cs), |cs|, v) == AddLabels(Changed(cs, v))
  {
    if cs != [] {
      RuleTrace(cs[0], v);
      AnyTrace(cs[1..], v);
      var head := if v(ComponentChanged(cs[0].name)) then [cs[0]] else [];
      assert ComponentRules(cs)[1..] == ComponentRules(cs[1..]);
      AddLabelsConcat(head, Changed(cs[1..], v));
      assert AddLabels(head) == Trace(ComponentRule(cs[0]), v) by { assert [cs[0]][1..] == []; }
    }
  }

  lemma NoneTraceCons(c: Cond, cs: seq<Cond>, v: Valuation)
    ensures Trace(NoneOf([c] + cs), v) == Trace(c, v) + if Holds(c, v) then [] else Trace(NoneOf(cs), v)
  {
    var all := [c] + cs;
    assert all[0] == c && all[1..] == cs;
    if Holds(c, v) {
      assert Traces(all, 1, v) == Trace(c, v) + Traces(cs, 0, v);
    }
  }

  /** The default rule's None applies the first changed component's rule and stops there. */
  lemma {:induction false} NoneTrace(cs: seq<Component>, v: Valuation)
    ensures Trace(DefaultRule(cs).condition, v)
         == if Changed(cs, v) == [] then [] else [AddLabel(Changed(cs, v)[0].lbl)]
  {
    var last := [Func(NothingChanged)];
    if cs == [] {
      assert ComponentRules(cs) + last == last + [];
      NoneTraceCons(Func(NothingChanged), [], v);
    } else {
      assert ComponentRules(cs) + last == [ComponentRule(cs[0])] + (ComponentRules(cs[1..]) + last);
      NoneTraceCons(ComponentRule(cs[0]), ComponentRules(cs[1..]) + last, v);
      RuleHolds(cs[0], v);
      RuleTrace(cs[0], v);
      NoneTrace(cs[1..], v);
    }
  }

  /** The first changed component in the default rule's order. */
  function First(none: seq<Component>, v: Valuation): seq<Component> {
    if Changed(none, v) == [] then [] else [Changed(none, v)[0]]
  }

  /** Everything the catalog executes. */
  function Executes(none: seq<Component>, any: seq<Component>, v: Valuation): seq<Id> {
    AddLabels(First(none, v) + Changed(any, v))
    + (if Holds(DefaultRule(none).condition, v) then [ExecuteInfraDefault]
       else if Holds(ComponentsRule(any).condition, v) then [AddLabel(KONFLUX), ExecuteTests]
       else [])
  }

  lemma ConditionTraces(none: seq<Component>, any: seq<Component>, v: Valuation)
    ensures CatalogTraces(Catalog(none, any), v) == AddLabels(First(none, v) + Changed(any, v))
  {
    var d, c := DefaultRule(none), ComponentsRule(any);
    NoneTrace(none, v);
    AnyTrace(any, v);
    AddLabelsConcat(First(none, v), Changed(any, v));
    assert AddLabels(First(none, v)) == Trace(d.condition, v) by {
      if Changed(none, v) != [] { assert [Changed(none, v)[0]][1..] == []; }
    }
    assert [d, c][1..] == [c] && [c][1..] == [];
    assert CatalogTraces([c], v) == Trace(c.condition, v) + [];
  }

  lemma CatalogExecutes(none: seq<Component>, any: seq<Component>, v: Valuation, dryRun: bool)
    requires !(Holds(DefaultRule(none).condition, v) && Holds(ComponentsRule(any).condition, v))
    ensures EngineTrace(Catalog(none, any), [], v, dryRun) == Executes(none, any, v)
  {
    var d, c := DefaultRule(none), ComponentsRule(any);
    var rules := Catalog(none, any);
    ConditionTraces(none, any, v);
    assert !EndsInChain(rules, v);
    assert rules[1..] == [c] && [c][1..] == [];
    var m := Matched(rules, v);
    assert [] + m == m;
    assert Matched([c], v) == if Holds(c.condition, v) then [c] else [];
    if m != [] {
      assert m == [m[0]] && m[1..] == [];
      assert AllActions(m) == m[0].actions + [];
    }
  }

  // ----- The label filter the tests run with -----

  function Labels(cs: seq<Component>): seq<string> {
    if cs == [] then [] else [cs[0].lbl] + Labels(cs[1..])
  }

  lemma {:induction false} ReplayAddLabels(cs: seq<Component>, ctx: InfraCtx)
    ensures Replay(Acted, AddLabels(cs), ctx) == ctx.(labelFilter := WithLabels(ctx.labelFilter, Labels(cs)))
    decreases cs
  {
    if cs != [] {
      assert AddLabels(cs)[1..] == AddLabels(cs[1..]) && Labels(cs)[1..] == Labels(cs[1..]);
      ReplayAddLabels(cs[1..], Acted(AddLabel(cs[0].lbl), ctx));
    }
  }

  lemma {:induction false} WithLabelsSnoc(filter: string, labels: seq<string>, l: string)
    ensures WithLabels(filter, labels + [l]) == WithLabel(WithLabels(filter, labels), l)
    decreases labels
  {
    if labels == [] {
      assert labels + [l] == [l] && [l][1..] == [];
    } else {
      assert (labels + [l])[0] == labels[0] && (labels + [l])[1..] == labels[1..] + [l];
      WithLabelsSnoc(WithLabel(filter, labels[0]), labels[1..], l);
    }
  }

  /** Labels in the order they are added when some component changed. */
  function AddedLabels(none: seq<Component>, any: seq<Component>, v: Valuation): seq<string> {
    Labels(First(none, v) + Changed(any, v)) + [KONFLUX]
  }

  /** What is executed in each of the three cases. */
  lemma ExecutesCases(none: seq<Component>, any: seq<Component>, v: Valuation)
    requires SameComponents(none, any) && (v(NothingChanged) ==> Changed(any, v) == [])
    ensures Executes(none, any, v)
         == if Changed(any, v) != [] then AddLabels(First(none, v) + Changed(any, v)) + [AddLabel(KONFLUX), ExecuteTests]
            else if v(NothingChanged) then [] else [ExecuteInfraDefault]
  {
    SelectionOf(none, any, v);
    SameChanged(none, any, v);
    if Changed(any, v) == [] { assert First(none, v) + Changed(any, v) == []; }
  }

  lemma ReplayTwo(f: (Id, InfraCtx) -> InfraCtx, a: Id, b: Id, ctx: InfraCtx)
    ensures Replay(f, [a, b], ctx) == f(b, f(a, ctx)) && Replay(f, [a], ctx) == f(a, ctx)
  {
    assert [a, b][1..] == [b] && [b][1..] == [] && [a][1..] == [];
    assert Replay(f, [a, b], ctx) == Replay(f, [b], f(a, ctx));
  }

  lemma ReplayThenTwo(f: (Id, InfraCtx) -> InfraCtx, xs: seq<Id>, a: Id, b: Id, ctx: InfraCtx, mid: InfraCtx)
    requires Replay(f, xs, ctx) == mid
    ensures Replay(f, xs + [a, b], ctx) == f(b, f(a, mid))
  {
    ReplayConcat(f, xs, [a, b], ctx);
    ReplayTwo(f, a, b, mid);
  }

  lemma ActedLast(l: string, ctx: InfraCtx)
    ensures Acted(ExecuteTests, Acted(AddLabel(l), ctx)) == ctx.(labelFilter := WithLabel(ctx.labelFilter, l))
  {
  }

  lemma ReplayLabels(cs: seq<Component>, l: string, ctx: InfraCtx)
    ensures Replay(Acted, AddLabels(cs) + [AddLabel(l), ExecuteTests], ctx)
         == ctx.(labelFilter := WithLabels(ctx.labelFilter, Labels(cs) + [l]))
  {
    var mid := ctx.(labelFilter := WithLabels(ctx.labelFilter, Labels(cs)));
    ReplayAddLabels(cs, ctx);
    WithLabelsSnoc(ctx.labelFilter, Labels(cs), l);
    ReplayThenTwo(Acted, AddLabels(cs), AddLabel(l), ExecuteTests, ctx, mid);
    ActedLast(l, mid);
  }

  lemma PlainWorld(changes: Changes)
    ensures Plain(InfraInterp(changes), _ => Acted)
  {
  }

  lemma StableWorld(changes: Changes, diff: seq<string>, inv: State<InfraCtx> -> bool, conds: set<Id>, acts: set<Id>)
    requires forall t :: inv(t) <==> t.ctx.diff == diff
    ensures Stable(InfraInterp(changes), inv, Value(changes, diff), conds, acts)
  {
    var I := InfraInterp(changes);
    forall t, id | id in acts && inv(t)
      ensures var r := CallExec(I, id, t); r.err.None? && inv(r.s)
    {
      assert CallExec(I, id, t).s.ctx == Acted(id, t.ctx);
    }
  }

  /** The run of the whole catalog, in terms of what it executes. */
  lemma CatalogRun(none: seq<Component>, any: seq<Component>, changes: Changes, s: State<InfraCtx>)
    requires SameComponents(none, any)
    ensures var v := Value(changes, s.ctx.diff);
            var r := RunCatalog(InfraInterp(changes), Catalog(none, any), [], s);
            && r.err.None?
            && Actions(r.s.log) == Actions(s.log) + Executes(none, any, v)
            && r.s.ctx == Replay(Acted, Executes(none, any, v), s.ctx)
  {
    var v := Value(changes, s.ctx.diff);
    var I, rules := InfraInterp(changes), Catalog(none, any);
    var inv := (t: State<InfraCtx>) => t.ctx.diff == s.ctx.diff;
    var conds, acts := CatalogConds(rules), CatalogActs(rules);
    StableWorld(changes, s.ctx.diff, inv, conds, acts);
    ScopeOfCatalog(rules);
    RunMeaning(I, inv, v, conds, acts, rules, [], s);
    Selection(none, any, changes, s.ctx.diff);
    CatalogExecutes(none, any, v, s.dryRun);
    PlainWorld(changes);
    RunReplays(I, _ => Acted, rules, s);
    assert (Actions(s.log) + Executes(none, any, v))[|Actions(s.log)|..] == Executes(none, any, v);
  }

  /**
   The label filter after a run that starts with an empty one: untouched on an
   empty diff, `konflux` when no component changed, and otherwise the list of the
   added labels without those that are part of an earlier one.
   */
  lemma FinalFilter(none: seq<Component>, any: seq<Component>, changes: Changes, s: State<InfraCtx>)
    requires SameComponents(none, any) && s.ctx.labelFilter == ""
    requires forall c <- any :: IsLabel(c.lbl)
    ensures var v := Value(changes, s.ctx.diff);
            var r := RunCatalog(InfraInterp(changes), Catalog(none, any), [], s);
            && r.err.None?
            && (s.ctx.diff == [] ==> r.s.ctx == s.ctx)
            && (s.ctx.diff != [] && Changed(any, v) == [] ==> r.s.ctx.labelFilter == KONFLUX)
            && (Changed(any, v) != [] ==>
                  r.s.ctx.labelFilter == Join(KeepLabels([], AddedLabels(none, any, v)), ","))
  {
    var v := Value(changes, s.ctx.diff);
    CatalogRun(none, any, changes, s);
    ChangedValue(any, changes, s.ctx.diff);
    ExecutesCases(none, any, v);
    if Changed(any, v) != [] {
      FilterWhenChanged(none, any, v, s.ctx);
    } else {
      ReplayDefault(s.ctx);
    }
  }

  lemma ReplayDefault(ctx: InfraCtx)
    ensures Replay(Acted, [ExecuteInfraDefault], ctx) == ctx.(labelFilter := KONFLUX)
  {
    ReplayTwo(Acted, ExecuteInfraDefault, ExecuteInfraDefault, ctx);
  }

  lemma FilterWhenChanged(none: seq<Component>, any: seq<Component>, v: Valuation, ctx: InfraCtx)
    requires SameComponents(none, any) && ctx.labelFilter == ""
    requires forall c <- any :: IsLabel(c.lbl)
    ensures Replay(Acted, AddLabels(First(none, v) + Changed(any, v)) + [AddLabel(KONFLUX), ExecuteTests], ctx)
         == ctx.(labelFilter := Join(KeepLabels([], AddedLabels(none, any, v)), ","))
  {
    ReplayLabels(First(none, v) + Changed(any, v), KONFLUX, ctx);
    AddedAreLabels(none, any, v);
    FilterIsKept([], AddedLabels(none, any, v));
  }

  lemma {:induction false} LabelsHas(cs: seq<Component>)
    ensures forall l :: l in Labels(cs) <==> exists c :: c in cs && c.lbl == l
  {
    if cs != [] {
      LabelsHas(cs[1..]);
      assert cs == [cs[0]] + cs[1..];
    }
  }

  lemma AddedAreLabels(none: seq<Component>, any: seq<Component>, v: Valuation)
    requires SameComponents(none, any)
    requires forall c <- any :: IsLabel(c.lbl)
    ensures forall l <- AddedLabels(none, any, v) :: IsLabel(l)
  {
    ChangedHas(none, v);
    ChangedHas(any, v);
    var cs := First(none, v) + Changed(any, v);
    LabelsHas(cs);
    forall c <- cs ensures IsLabel(c.lbl) {
      assert c in none || c in any;
    }
  }

  // ----- Each label once -----

  lemma ComponentsRegroup(a: seq<Component>, b: seq<Component>, c: seq<Component>)
    ensures a + (b + c) == a + b + c
  {
  }

  lemma {:induction false} ChangedConcat(a: seq<Component>, b: seq<Component>, v: Valuation)
    ensures Changed(a + b, v) == Changed(a, v) + Changed(b, v)
  {
    if a == [] {
      assert a + b == b;
    } else {
      assert (a + b)[0] == a[0] && (a + b)[1..] == a[1..] + b;
      ChangedConcat(a[1..], b, v);
      var head := if v(ComponentChanged(a[0].name)) then [a[0]] else [];
      assert Changed(a + b, v) == head + Changed(a[1..] + b, v);
      ComponentsRegroup(head, Changed(a[1..], v), Changed(b, v));
    }
  }

  lemma {:induction false} LabelsConcat(a: seq<Component>, b: seq<Component>)
    ensures Labels(a + b) == Labels(a) + Labels(b)
  {
    if a == [] {
      assert a + b == b;
    } else {
      assert (a + b)[0] == a[0] && (a + b)[1..] == a[1..] + b;
      LabelsConcat(a[1..], b);
    }
  }

  lemma {:induction false} DedupeOnce(kept: seq<string>, labels: seq<string>)
    requires forall i, j :: 0 <= i < j < |kept| ==> kept[i] != kept[j]
    ensures var r := Dedupe(kept, labels);
            && (forall i, j :: 0 <= i < j < |r| ==> r[i] != r[j])
            && forall l :: l in r <==> l in kept || l in labels
    decreases labels
  {
    if labels != [] {
      DedupeOnce(if labels[0] in kept then kept else kept + [labels[0]], labels[1..]);
      assert labels == [labels[0]] + labels[1..];
    }
  }

  lemma FirstIsOne(cs: seq<Component>, v: Valuation)
    ensures var first := Labels(First(cs, v));
            |first| <= 1 && forall l <- first :: exists c :: c in cs && c.lbl == l
  {
    ChangedHas(cs, v);
    LabelsHas(First(cs, v));
    if Changed(cs, v) != [] {
      var c := Changed(cs, v)[0];
      assert c in Changed(cs, v);
      assert [c][1..] == [];
    }
  }

  /** If the first changed component is none of the common ones, none of those changed. */
  lemma FirstShared(common: seq<Component>, rest: seq<Component>, v: Valuation, l: string)
    requires forall c <- common :: c.lbl != l
    ensures Labels(First(common + rest, v)) == [l] ==> Labels(Changed(common, v)) == []
  {
    ChangedConcat(common, rest, v);
    ChangedHas(common, v);
    if Changed(common, v) != [] {
      var c := Changed(common, v)[0];
      assert c in Changed(common, v);
      assert First(common + rest, v) == [c];
      assert Labels([c])[0] == c.lbl;
    }
  }

  /** The filter is a list of `konflux` and the labels of the changed components, without repetition. */
  ghost predicate ListsEachOnce(filter: string, any: seq<Component>, v: Valuation) {
    exists labels ::
      && filter == Join(labels, ",")
      && (forall i, j :: 0 <= i < j < |labels| ==> labels[i] != labels[j])
      && IsLabelList(labels, any, v)
  }

  ghost predicate IsLabelList(labels: seq<string>, any: seq<Component>, v: Valuation) {
    forall l :: l in labels <==> l == KONFLUX || exists c :: c in any && c.lbl == l && v(ComponentChanged(c.name))
  }

  lemma AddedHas(none: seq<Component>, any: seq<Component>, v: Valuation)
    requires SameComponents(none, any)
    ensures IsLabelList(AddedLabels(none, any, v), any, v)
  {
    var cs := First(none, v) + Changed(any, v);
    LabelsHas(cs);
    ChangedHas(none, v);
    ChangedHas(any, v);
    if Changed(none, v) != [] { assert Changed(none, v)[0] in Changed(none, v); }
    assert forall c :: c in cs <==> c in any && v(ComponentChanged(c.name));
  }

  /**
   The filter lists every matched label once exactly when no label, as it is first
   added, is part of an earlier one.
   */
  lemma FilterListsEachOnce(none: seq<Component>, any: seq<Component>, changes: Changes, s: State<InfraCtx>)
    requires SameComponents(none, any) && s.ctx.labelFilter == ""
    requires forall c <- any :: IsLabel(c.lbl)
    requires Changed(any, Value(changes, s.ctx.diff)) != []
    ensures var v := Value(changes, s.ctx.diff);
            var r := RunCatalog(InfraInterp(changes), Catalog(none, any), [], s);
            && r.err.None?
            && (ListsEachOnce(r.s.ctx.labelFilter, any, v) <==> Fresh([], AddedLabels(none, any, v)))
  {
    var v := Value(changes, s.ctx.diff);
    FinalFilter(none, any, changes, s);
    ListedIffFresh(none, any, v);
  }

  lemma ListedIffFresh(none: seq<Component>, any: seq<Component>, v: Valuation)
    requires SameComponents(none, any)
    requires forall c <- any :: IsLabel(c.lbl)
    ensures var added := AddedLabels(none, any, v);
            ListsEachOnce(Join(KeepLabels([], added), ","), any, v) <==> Fresh([], added)
  {
    var added := AddedLabels(none, any, v);
    var kept := KeepLabels([], added);
    if Fresh([], added) {
      KeptOnceExactly([], added);
      DedupedIsList(none, any, v);
    } else if ListsEachOnce(Join(kept, ","), any, v) {
      var missing := NotFreshMisses([], added);
      var labels :| Join(kept, ",") == Join(labels, ",") && IsLabelList(labels, any, v);
      AddedHas(none, any, v);
      ListedAreLabels(labels, any, v);
      ListedAreLabels(added, any, v);
      KeptAreLabels([], added);
      JoinInjective(kept, labels);
    }
  }

  lemma ListedAreLabels(labels: seq<string>, any: seq<Component>, v: Valuation)
    requires IsLabelList(labels, any, v) && forall c <- any :: IsLabel(c.lbl)
    ensures forall l <- labels :: IsLabel(l)
  {
  }

  lemma DedupedIsList(none: seq<Component>, any: seq<Component>, v: Valuation)
    requires SameComponents(none, any)
    ensures var r := Dedupe([], AddedLabels(none, any, v));
            (forall i, j :: 0 <= i < j < |r| ==> r[i] != r[j]) && IsLabelList(r, any, v)
  {
    DedupeOnce([], AddedLabels(none, any, v));
    AddedHas(none, any, v);
  }
}
