/**
 Test selection for infra-deployments (magefiles/rulesengine/repos/infra_deployments.go):
 a default rule that holds when no component changed, and a rule that collects
 the label of every changed component in the label filter.
 */
module InfraLabels {
  import opened GoStrings

  // ----- Adding labels to a filter -----

  function WithLabel(filter: string, lbl: string): string {
    if Contains(filter, lbl) then filter
    else if filter == "" then lbl
    else filter + "," + lbl
  }

  class LabelContext {
    var labelFilter: string

    constructor ()
      ensures labelFilter == ""
    {
      labelFilter := "";
    }

    /** `AddLabelToLabelFilter`. */
    method AddLabelToLabelFilter(lbl: string)
      modifies this
      ensures labelFilter == WithLabel(old(labelFilter), lbl)
    {
      if !Contains(labelFilter, lbl) {
        if labelFilter == "" {
          labelFilter := lbl;
        } else {
          labelFilter := labelFilter + "," + lbl;
        }
      }
    }
  }

  function WithLabels(filter: string, labels: seq<string>): string
    decreases labels
  {
    if labels == [] then filter else WithLabels(WithLabel(filter, labels[0]), labels[1..])
  }

  predicate IsLabel(l: string) {
    l != "" && ',' !in l
  }

  predicate Covers(kept: seq<string>, l: string) {
    exists i :: 0 <= i < |kept| && Contains(kept[i], l)
  }

  /** The labels that get into a filter: those that occur in no label already there. */
  function KeepLabels(kept: seq<string>, labels: seq<string>): seq<string>
    decreases labels
  {
    if labels == [] then kept
    else KeepLabels(if Covers(kept, labels[0]) then kept else kept + [labels[0]], labels[1..])
  }

  /** Each label once, in order of first appearance. */
  function Dedupe(kept: seq<string>, labels: seq<string>): seq<string>
    decreases labels
  {
    if labels == [] then kept
    else Dedupe(if labels[0] in kept then kept else kept + [labels[0]], labels[1..])
  }

  /** No label, when it first appears, is part of an earlier one. */
  predicate Fresh(kept: seq<string>, labels: seq<string>)
    decreases labels
  {
    labels != [] ==>
      if labels[0] in kept then Fresh(kept, labels[1..])
      else !Covers(kept, labels[0]) && Fresh(kept + [labels[0]], labels[1..])
  }

  // ----- The filter is the list of kept labels -----

  lemma OccursInParts(a: string, b: string, l: string, k: nat)
    requires IsLabel(l) && OccursAt(a + "," + b, l, k)
    ensures Contains(a, l) || Contains(b, l)
  {
    var s := a + "," + b;
    assert s[|a|] == ',';
    assert forall m :: 0 <= m < |l| ==> l[m] == s[k + m];
    if k <= |a| < k + |l| {
      assert false;
    } else if k + |l| <= |a| {
      assert a[k..k + |l|] == l;
      assert OccursAt(a, l, k);
    } else {
      assert b[k - |a| - 1..k - |a| - 1 + |l|] == l;
      assert OccursAt(b, l, k - |a| - 1);
    }
  }

  lemma ContainsInside(a: string, b: string, c: string, l: string)
    requires Contains(b, l)
    ensures Contains(a + b + c, l)
  {
    var k :| 0 <= k <= |b| && OccursAt(b, l, k);
    var s := a + b + c;
    assert forall m :: 0 <= m < |l| ==> s[|a| + k + m] == b[k + m] == l[m];
    assert s[|a| + k..|a| + k + |l|] == l;
    assert OccursAt(s, l, |a| + k);
  }

  lemma ContainsInParts(a: string, b: string, l: string)
    requires IsLabel(l)
    ensures Contains(a + "," + b, l) <==> Contains(a, l) || Contains(b, l)
  {
    var s := a + "," + b;
    if Contains(s, l) {
      var k :| 0 <= k <= |s| && OccursAt(s, l, k);
      OccursInParts(a, b, l, k);
    }
    if Contains(a, l) {
      ContainsInside("", a, "," + b, l);
      assert "" + a + ("," + b) == s;
    }
    if Contains(b, l) {
      ContainsInside(a + ",", b, "", l);
      assert a + "," + b + "" == s;
    }
  }

  lemma {:induction false} JoinContains(kept: seq<string>, l: string)
    requires IsLabel(l)
    ensures Contains(Join(kept, ","), l) <==> Covers(kept, l)
  {
    if |kept| > 1 {
      ContainsInParts(kept[0], Join(kept[1..], ","), l);
      JoinContains(kept[1..], l);
      assert forall i :: 0 < i < |kept| ==> kept[i] == kept[1..][i - 1];
      assert forall i :: 0 <= i < |kept[1..]| ==> kept[1..][i] == kept[i + 1];
    }
  }

  lemma {:induction false} JoinSnoc(kept: seq<string>, l: string)
    ensures Join(kept + [l], ",") == if kept == [] then l else Join(kept, ",") + "," + l
  {
    if |kept| == 0 {
      assert kept + [l] == [l];
    } else if |kept| == 1 {
      assert (kept + [l])[1..] == [l];
    } else {
      assert (kept + [l])[1..] == kept[1..] + [l];
      JoinSnoc(kept[1..], l);
      assert kept[0] + "," + (Join(kept[1..], ",") + "," + l) == kept[0] + "," + Join(kept[1..], ",") + "," + l;
    }
  }

  lemma JoinEmpty(kept: seq<string>)
    requires forall l <- kept :: IsLabel(l)
    ensures Join(kept, ",") == "" <==> kept == []
  {
    if kept != [] { assert kept[0] in kept; }
  }

  /** Adding labels one by one to a filter adds the kept ones to its list. */
  lemma {:induction false} FilterIsKept(kept: seq<string>, labels: seq<string>)
    requires forall l <- kept :: IsLabel(l)
    requires forall l <- labels :: IsLabel(l)
    ensures WithLabels(Join(kept, ","), labels) == Join(KeepLabels(kept, labels), ",")
    decreases labels
  {
    if labels != [] {
      var l := labels[0];
      assert l in labels;
      JoinContains(kept, l);
      JoinEmpty(kept);
      JoinSnoc(kept, l);
      FilterIsKept(if Covers(kept, l) then kept else kept + [l], labels[1..]);
    }
  }

  /** A list of labels can be read back from a filter. */
  lemma {:induction false} JoinedLabels(labels: seq<string>)
    requires labels != [] && forall l <- labels :: IsLabel(l)
    ensures Split(Join(labels, ","), ',') == labels
  {
    assert labels[0] in labels;
    SplitNone(labels[0], ',');
    if |labels| > 1 {
      JoinedLabels(labels[1..]);
      SplitConcat(labels[0], ',', Join(labels[1..], ","));
      assert labels == [labels[0]] + labels[1..];
    }
  }

  lemma JoinInjective(a: seq<string>, b: seq<string>)
    requires forall l <- a :: IsLabel(l)
    requires forall l <- b :: IsLabel(l)
    requires Join(a, ",") == Join(b, ",")
    ensures a == b
  {
    JoinEmpty(a);
    JoinEmpty(b);
    if a != [] {
      JoinedLabels(a);
      JoinedLabels(b);
    }
  }

  lemma {:induction false} KeptAreLabels(kept: seq<string>, labels: seq<string>)
    requires forall l <- kept :: IsLabel(l)
    requires forall l <- labels :: IsLabel(l)
    ensures forall l <- KeepLabels(kept, labels) :: IsLabel(l)
    decreases labels
  {
    if labels != [] {
      assert labels[0] in labels;
      KeptAreLabels(if Covers(kept, labels[0]) then kept else kept + [labels[0]], labels[1..]);
    }
  }

  lemma {:induction false} NeverKept(kept: seq<string>, labels: seq<string>, l: string)
    requires Covers(kept, l) && l !in kept
    ensures kept <= KeepLabels(kept, labels) && l !in KeepLabels(kept, labels)
    decreases labels
  {
    if labels != [] {
      var next := if Covers(kept, labels[0]) then kept else kept + [labels[0]];
      assert forall i :: 0 <= i < |kept| ==> next[i] == kept[i];
      NeverKept(next, labels[1..], l);
    }
  }

  lemma {:induction false} DedupeHas(kept: seq<string>, labels: seq<string>)
    ensures forall l <- kept :: l in Dedupe(kept, labels)
    decreases labels
  {
    if labels != [] { DedupeHas(if labels[0] in kept then kept else kept + [labels[0]], labels[1..]); }
  }

  /** If some label is not fresh, some label does not get in. */
  lemma {:induction false} NotFreshMisses(kept: seq<string>, labels: seq<string>) returns (missing: string)
    requires !Fresh(kept, labels)
    ensures missing in labels && missing !in KeepLabels(kept, labels)
    decreases labels
  {
    var l, rest := labels[0], labels[1..];
    if l in kept {
      ContainsItself(l);
      assert Covers(kept, l);
      missing := NotFreshMisses(kept, rest);
    } else if Covers(kept, l) {
      NeverKept(kept, rest, l);
      missing := l;
    } else {
      missing := NotFreshMisses(kept + [l], rest);
    }
  }

  /** Every label gets in, once, exactly when each is fresh. */
  lemma {:induction false} KeptOnceExactly(kept: seq<string>, labels: seq<string>)
    ensures KeepLabels(kept, labels) == Dedupe(kept, labels) <==> Fresh(kept, labels)
    decreases labels
  {
    if labels != [] {
      var l, rest := labels[0], labels[1..];
      if l in kept {
        ContainsItself(l);
        assert Covers(kept, l);
        KeptOnceExactly(kept, rest);
      } else if Covers(kept, l) {
        NeverKept(kept, rest, l);
        DedupeHas(kept + [l], rest);
        assert l in kept + [l];
      } else {
        KeptOnceExactly(kept + [l], rest);
      }
    }
  }
}
