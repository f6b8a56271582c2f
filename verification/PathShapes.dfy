/**
 What glob patterns match, in terms of the characters of the path: a literal segment
 is a prefix, a star is any text without a slash, `**` is anything in between.
 */
module PathShapes {
  import opened GoStrings
  import opened ChangedFiles

  predicate EndsWith(s: string, suffix: string) {
    |suffix| <= |s| && s[|s| - |suffix|..] == suffix
  }

  predicate NoSlash(s: string) {
    Avoids(s, {'/'})
  }

  predicate NoSlashes(dirs: seq<string>) {
    forall i :: 0 <= i < |dirs| ==> NoSlash(dirs[i])
  }

  lemma SplitFirst(f: string)
    requires |Split(f, '/')| >= 2
    ensures Split(f, '/')[0] + ['/'] <= f
  {
    JoinSplit(f, '/');
    var xs := Split(f, '/');
    assert f == xs[0] + ['/'] + Join(xs[1..], ['/']);
  }

  /** The first segment of a path of several. */
  lemma SplitHead(a: string, f: string)
    requires NoSlash(a)
    ensures a + ['/'] <= f ==> Split(f, '/') == [a] + Split(f[|a| + 1..], '/')
    ensures !(a + ['/'] <= f) && |Split(f, '/')| >= 2 ==> Split(f, '/')[0] != a
  {
    if a + ['/'] <= f {
      var rest := f[|a| + 1..];
      assert f == a + ['/'] + rest;
      SplitConcat(a, '/', rest);
      SplitNone(a, '/');
    } else if |Split(f, '/')| >= 2 {
      SplitFirst(f);
    }
  }

  lemma MatchesCons(p0: Segment, p: Pattern, x: string, xs: seq<string>)
    requires !p0.DoubleStar?
    ensures MatchesSegments([p0] + p, [x] + xs) <==> MatchesSegment(p0, x) && MatchesSegments(p, xs)
  {
    assert ([p0] + p)[1..] == p && ([x] + xs)[1..] == xs;
  }

  lemma MatchesFirst(p0: Segment, p: Pattern, xs: seq<string>)
    requires !p0.DoubleStar?
    ensures MatchesSegments([p0] + p, xs) <==> xs != [] && MatchesSegment(p0, xs[0]) && MatchesSegments(p, xs[1..])
  {
    assert ([p0] + p)[1..] == p;
  }

  /** A literal first segment. */
  lemma PeelLit(a: string, p: Pattern, f: string)
    requires NoSlash(a) && !MatchesSegments(p, [])
    ensures PathMatch([Lit(a)] + p, f) <==> a + ['/'] <= f && PathMatch(p, f[|a| + 1..])
  {
    var xs := Split(f, '/');
    SplitHead(a, f);
    MatchesFirst(Lit(a), p, xs);
    if a + ['/'] <= f {
      MatchesCons(Lit(a), p, a, Split(f[|a| + 1..], '/'));
    } else if |xs| == 1 {
      assert xs[1..] == [];
    }
  }

  /** Literal segments, as a pattern and as the start of a path. */
  function Lits(dirs: seq<string>): Pattern {
    if dirs == [] then [] else [Lit(dirs[0])] + Lits(dirs[1..])
  }

  function Dirs(dirs: seq<string>): string {
    if dirs == [] then "" else dirs[0] + ['/'] + Dirs(dirs[1..])
  }

  lemma PrefixTwice(a: string, b: string, f: string)
    ensures a + b <= f <==> a <= f && b <= f[|a|..]
    ensures a + b <= f ==> f[|a + b|..] == f[|a|..][|b|..]
  {
    if a + b <= f {
      assert f[..|a|] == a && f[|a|..][..|b|] == b;
    }
    if a <= f && b <= f[|a|..] {
      assert f == a + f[|a|..];
      assert f[|a|..] == b + f[|a|..][|b|..];
    }
  }

  lemma PatternRegroup(a: Pattern, b: Pattern, c: Pattern)
    ensures a + b + c == a + (b + c)
  {
  }

  lemma {:induction false} LitsNotEmpty(dirs: seq<string>, p: Pattern)
    requires !MatchesSegments(p, [])
    ensures !MatchesSegments(Lits(dirs) + p, [])
  {
    if dirs == [] {
      assert Lits(dirs) + p == p;
    } else {
      PatternRegroup([Lit(dirs[0])], Lits(dirs[1..]), p);
      MatchesFirst(Lit(dirs[0]), Lits(dirs[1..]) + p, []);
    }
  }

  /** Several literal segments in front. */
  lemma {:induction false} PeelLits(dirs: seq<string>, p: Pattern, f: string)
    requires NoSlashes(dirs) && !MatchesSegments(p, [])
    ensures PathMatch(Lits(dirs) + p, f) <==> Dirs(dirs) <= f && PathMatch(p, f[|Dirs(dirs)|..])
    decreases |dirs|
  {
    if dirs == [] {
      assert Lits(dirs) + p == p && f[0..] == f;
    } else {
      var a, rest := dirs[0], dirs[1..];
      PatternRegroup([Lit(a)], Lits(rest), p);
      LitsNotEmpty(rest, p);
      PeelLit(a, Lits(rest) + p, f);
      PrefixTwice(a + ['/'], Dirs(rest), f);
      if a + ['/'] <= f { PeelLits(rest, p, f[|a| + 1..]); }
    }
  }

  /** A path that starts with a segment `pre…suf`. */
  predicate StarHead(f: string, pre: string, x: string, suf: string, rest: string) {
    NoSlash(x) && f == pre + x + suf + ['/'] + rest
  }

  lemma HeadIsStar(head: string, pre: string, suf: string)
    ensures MatchesSegment(Star(pre, suf), head) <==> exists x :: head == pre + x + suf
  {
    if MatchesSegment(Star(pre, suf), head) {
      var x := head[|pre|..|head| - |suf|];
      assert head == pre + x + suf;
    }
    forall x | head == pre + x + suf ensures MatchesSegment(Star(pre, suf), head) {
      assert head[..|pre|] == pre && head[|head| - |suf|..] == suf;
    }
  }

  /** A first segment with a star in it. */
  lemma PeelStar(pre: string, suf: string, p: Pattern, f: string)
    requires NoSlash(pre) && NoSlash(suf) && !MatchesSegments(p, [])
    ensures PathMatch([Star(pre, suf)] + p, f) <==> exists x, rest :: StarHead(f, pre, x, suf, rest) && PathMatch(p, rest)
  {
    var xs := Split(f, '/');
    MatchesFirst(Star(pre, suf), p, xs);
    forall x, rest | StarHead(f, pre, x, suf, rest) ensures PathMatch([Star(pre, suf)] + p, f) <==> PathMatch(p, rest) {
      StarHeadSplit(f, pre, x, suf, rest);
      HeadIsStar(pre + x + suf, pre, suf);
      MatchesCons(Star(pre, suf), p, pre + x + suf, Split(rest, '/'));
    }
    assert |xs| == 1 ==> xs[1..] == [];
    if PathMatch([Star(pre, suf)] + p, f) {
      SplitFirst(f);
      SplitParts(f, '/', {});
      HeadIsStar(xs[0], pre, suf);
      var x :| xs[0] == pre + x + suf;
      StarHeadFound(f, xs[0], pre, x, suf);
    }
  }

  lemma StarHeadSplit(f: string, pre: string, x: string, suf: string, rest: string)
    requires NoSlash(pre) && NoSlash(suf) && StarHead(f, pre, x, suf, rest)
    ensures Split(f, '/') == [pre + x + suf] + Split(rest, '/')
  {
    SplitConcat(pre + x + suf, '/', rest);
    SplitNone(pre + x + suf, '/');
  }

  lemma StarHeadFound(f: string, head: string, pre: string, x: string, suf: string)
    requires head + ['/'] <= f && head == pre + x + suf && NoSlash(head)
    ensures StarHead(f, pre, x, suf, f[|head| + 1..])
  {
    assert forall i :: 0 <= i < |x| ==> x[i] == head[|pre| + i];
  }

  /** A last segment with a star in it. */
  lemma LastStar(pre: string, suf: string, f: string)
    ensures PathMatch([Star(pre, suf)], f) <==> NoSlash(f) && exists x :: f == pre + x + suf
  {
    var xs := Split(f, '/');
    assert [Star(pre, suf)] == [Star(pre, suf)] + [];
    MatchesFirst(Star(pre, suf), [], xs);
    SplitAlone(f, '/');
    if NoSlash(f) {
      SplitNone(f, '/');
      assert xs == [f] && xs[1..] == [];
      HeadIsStar(f, pre, suf);
    } else {
      assert |xs| >= 2 && xs[1..] != [];
    }
  }

  lemma LastLit(name: string, f: string)
    requires NoSlash(name)
    ensures PathMatch([Lit(name)], f) <==> f == name
  {
    var xs := Split(f, '/');
    assert [Lit(name)] == [Lit(name)] + [];
    MatchesFirst(Lit(name), [], xs);
    SplitNone(name, '/');
    if |xs| == 1 {
      JoinSplit(f, '/');
      assert xs[1..] == [] && f == xs[0];
    } else {
      assert xs[1..] != [];
    }
  }

  // ----- Double stars -----

  lemma {:induction false} DeepLast(p: Segment, xs: seq<string>)
    requires !p.DoubleStar?
    ensures MatchesSegments([DoubleStar, p], xs) <==> xs != [] && MatchesSegment(p, xs[|xs| - 1])
    decreases |xs|
  {
    assert [DoubleStar, p][1..] == [p] && [p][1..] == [] && [p] == [p] + [];
    MatchesFirst(p, [], xs);
    if xs != [] {
      DeepLast(p, xs[1..]);
      if |xs| == 1 { assert xs[1..] == []; }
    }
  }

  lemma StringRegroup(a: string, b: string, c: string)
    ensures a + (b + c) == a + b + c
  {
  }

  lemma SplitRest(f: string) returns (a: string, rest: string)
    requires |Split(f, '/')| >= 2
    ensures f == a + ['/'] + rest && Split(f, '/') == [a] + Split(rest, '/')
  {
    a := Split(f, '/')[0];
    SplitFirst(f);
    SplitParts(f, '/', {});
    SplitHead(a, f);
    rest := f[|a| + 1..];
  }

  lemma {:induction false} SplitLast(f: string) returns (front: string)
    decreases |f|
    ensures var xs := Split(f, '/');
            f == front + xs[|xs| - 1] && (front == "" || front[|front| - 1] == '/') && NoSlash(xs[|xs| - 1])
  {
    if |Split(f, '/')| == 1 {
      JoinSplit(f, '/');
      SplitAlone(f, '/');
      front := "";
    } else {
      var a, rest := SplitRest(f);
      var t := SplitLast(rest);
      front := a + ['/'] + t;
      var ys := Split(rest, '/');
      StringRegroup(a + ['/'], t, ys[|ys| - 1]);
    }
  }

  // `**/*suf` is anything that ends in `suf`.
  lemma DeepSuffix(suf: string, f: string)
    requires NoSlash(suf)
    ensures PathMatch([DoubleStar, Star("", suf)], f) <==> EndsWith(f, suf)
  {
    var xs := Split(f, '/');
    var last := xs[|xs| - 1];
    DeepLast(Star("", suf), xs);
    var front := SplitLast(f);
    SuffixInLast(front, last, suf);
  }

  /** A suffix without a slash lies inside the last segment. */
  lemma SuffixInLast(front: string, last: string, suf: string)
    requires NoSlash(suf) && (front == "" || front[|front| - 1] == '/')
    ensures EndsWith(front + last, suf) <==> EndsWith(last, suf)
  {
    var f := front + last;
    if |suf| <= |last| {
      assert f[|f| - |suf|..] == last[|last| - |suf|..];
    } else if |suf| <= |f| {
      assert f[|f| - |suf|..][|suf| - |last| - 1] == front[|front| - 1];
    }
  }

  // ----- Shapes of paths -----

  /** A file directly in a directory. */
  predicate FileAt(root: seq<string>, ends: string, f: string) {
    Dirs(root) <= f && NoSlash(f[|Dirs(root)|..]) && EndsWith(f[|Dirs(root)|..], ends)
  }

  /** A file anywhere below a directory. */
  predicate FileBelow(root: seq<string>, ends: string, f: string) {
    Dirs(root) <= f && EndsWith(f[|Dirs(root)|..], ends)
  }

  /** A file directly in a directory `pre…suf` of the root. */
  ghost predicate FileIn(root: seq<string>, pre: string, suf: string, ends: string, f: string) {
    && Dirs(root) <= f
    && exists x, name :: StarHead(f[|Dirs(root)|..], pre, x, suf, name) && NoSlash(name) && EndsWith(name, ends)
  }

  /** The file of that name in a directory `pre…suf` of the root. */
  ghost predicate NamedIn(root: seq<string>, pre: string, suf: string, name: string, f: string) {
    Dirs(root) <= f && exists x :: StarHead(f[|Dirs(root)|..], pre, x, suf, name)
  }

  /** A path with one more segment in front of its name. */
  ghost predicate OneDeeper(rest: string) {
    exists x, name :: StarHead(rest, "", x, "", name) && NoSlash(name)
  }

  /** A file in a subdirectory of a directory `pre…suf` of the root. */
  ghost predicate NestedIn(root: seq<string>, pre: string, suf: string, f: string) {
    Dirs(root) <= f && exists x, rest :: StarHead(f[|Dirs(root)|..], pre, x, suf, rest) && OneDeeper(rest)
  }

  lemma LitsOne(a: string)
    ensures Lits([a]) == [Lit(a)]
  {
    assert [a][1..] == [];
  }

  lemma LitsTwo(a: string, b: string)
    ensures Lits([a, b]) == [Lit(a), Lit(b)]
  {
    assert [a, b][1..] == [b];
    LitsOne(b);
  }

  lemma LitsThree(a: string, b: string, c: string)
    ensures Lits([a, b, c]) == [Lit(a), Lit(b), Lit(c)]
  {
    assert [a, b, c][1..] == [b, c];
    LitsTwo(b, c);
  }

  lemma EndsWithParts(f: string, ends: string)
    ensures EndsWith(f, ends) <==> exists x :: f == "" + x + ends
  {
    if EndsWith(f, ends) { assert f == "" + f[..|f| - |ends|] + ends; }
  }

  lemma LastEnds(ends: string, f: string)
    ensures PathMatch([Star("", ends)], f) <==> NoSlash(f) && EndsWith(f, ends)
  {
    LastStar("", ends, f);
    EndsWithParts(f, ends);
  }

  lemma FileAtMeans(root: seq<string>, ends: string, f: string)
    requires NoSlashes(root)
    ensures PathMatch(Lits(root) + [Star("", ends)], f) <==> FileAt(root, ends, f)
  {
    assert !MatchesSegments([Star("", ends)], []);
    PeelLits(root, [Star("", ends)], f);
    if Dirs(root) <= f { LastEnds(ends, f[|Dirs(root)|..]); }
  }

  lemma FileBelowMeans(root: seq<string>, ends: string, f: string)
    requires NoSlashes(root) && NoSlash(ends)
    ensures PathMatch(Lits(root) + [DoubleStar, Star("", ends)], f) <==> FileBelow(root, ends, f)
  {
    DeepLast(Star("", ends), []);
    PeelLits(root, [DoubleStar, Star("", ends)], f);
    if Dirs(root) <= f { DeepSuffix(ends, f[|Dirs(root)|..]); }
  }

  lemma PeelDir(root: seq<string>, pre: string, suf: string, p: Pattern, f: string)
    requires NoSlashes(root) && NoSlash(pre) && NoSlash(suf) && !MatchesSegments(p, [])
    ensures PathMatch(Lits(root) + ([Star(pre, suf)] + p), f)
       <==> Dirs(root) <= f && exists x, rest :: StarHead(f[|Dirs(root)|..], pre, x, suf, rest) && PathMatch(p, rest)
  {
    MatchesFirst(Star(pre, suf), p, []);
    PeelLits(root, [Star(pre, suf)] + p, f);
    if Dirs(root) <= f { PeelStar(pre, suf, p, f[|Dirs(root)|..]); }
  }

  lemma FileInMeans(root: seq<string>, pre: string, suf: string, ends: string, f: string)
    requires NoSlashes(root) && NoSlash(pre) && NoSlash(suf)
    ensures PathMatch(Lits(root) + ([Star(pre, suf)] + [Star("", ends)]), f) <==> FileIn(root, pre, suf, ends, f)
  {
    assert !MatchesSegments([Star("", ends)], []);
    PeelDir(root, pre, suf, [Star("", ends)], f);
    forall name ensures PathMatch([Star("", ends)], name) <==> NoSlash(name) && EndsWith(name, ends) {
      LastEnds(ends, name);
    }
  }

  lemma NamedInMeans(root: seq<string>, pre: string, suf: string, name: string, f: string)
    requires NoSlashes(root) && NoSlash(pre) && NoSlash(suf) && NoSlash(name)
    ensures PathMatch(Lits(root) + ([Star(pre, suf)] + [Lit(name)]), f) <==> NamedIn(root, pre, suf, name, f)
  {
    assert !MatchesSegments([Lit(name)], []);
    PeelDir(root, pre, suf, [Lit(name)], f);
    forall rest ensures PathMatch([Lit(name)], rest) <==> rest == name { LastLit(name, rest); }
  }

  lemma OneDeeperMeans(rest: string)
    ensures PathMatch([Star("", "")] + [Star("", "")], rest) <==> OneDeeper(rest)
  {
    assert !MatchesSegments([Star("", "")], []);
    PeelStar("", "", [Star("", "")], rest);
    forall name ensures PathMatch([Star("", "")], name) <==> NoSlash(name) { LastEnds("", name); }
  }

  lemma NestedInMeans(root: seq<string>, pre: string, suf: string, f: string)
    requires NoSlashes(root) && NoSlash(pre) && NoSlash(suf)
    ensures PathMatch(Lits(root) + ([Star(pre, suf)] + ([Star("", "")] + [Star("", "")])), f) <==> NestedIn(root, pre, suf, f)
  {
    var p := [Star("", "")] + [Star("", "")];
    assert !MatchesSegments(p, []);
    PeelDir(root, pre, suf, p, f);
    forall rest ensures PathMatch(p, rest) <==> OneDeeper(rest) { OneDeeperMeans(rest); }
  }
}
