/**
 Changed files and the filters on them (magefiles/rulesengine/types.go).

 Globs are matched segment by segment: `*` stays inside a segment and `**`
 stands for any number of whole segments.
 */
module ChangedFiles {
  import opened GoStrings

  /** A pattern segment: `prefix*suffix`, a literal, or `**`. */
  datatype Segment = Lit(name: string) | Star(prefix: string, suffix: string) | DoubleStar

  type Pattern = seq<Segment>

  predicate MatchesSegment(p: Segment, x: string) {
    match p
    case Lit(name) => x == name
    case Star(prefix, suffix) =>
      && |prefix| + |suffix| <= |x|
      && x[..|prefix|] == prefix && x[|x| - |suffix|..] == suffix
    case DoubleStar => true
  }

  predicate MatchesSegments(p: Pattern, xs: seq<string>)
    decreases |p| + |xs|
  {
    if p == [] then xs == []
    else if p[0].DoubleStar? then
      MatchesSegments(p[1..], xs) || (xs != [] && MatchesSegments(p, xs[1..]))
    else xs != [] && MatchesSegment(p[0], xs[0]) && MatchesSegments(p[1..], xs[1..])
  }

  /** `doublestar.PathMatch`. */
  predicate PathMatch(p: Pattern, path: string) {
    MatchesSegments(p, Split(path, '/'))
  }

  function KeepGlob(files: seq<string>, p: Pattern): (r: seq<string>)
  {
    if files == [] then [] else (if PathMatch(p, files[0]) then [files[0]] else []) + KeepGlob(files[1..], p)
  }

  function KeepString(files: seq<string>, sub: string): (r: seq<string>) {
    if files == [] then [] else (if Contains(files[0], sub) then [files[0]] else []) + KeepString(files[1..], sub)
  }

  lemma {:induction false} KeepGlobHas(files: seq<string>, p: Pattern)
    ensures forall f :: f in KeepGlob(files, p) <==> f in files && PathMatch(p, f)
    ensures KeepGlob(files, p) == [] <==> forall f <- files :: !PathMatch(p, f)
  {
    if files != [] { KeepGlobHas(files[1..], p); }
  }

  lemma {:induction false} KeepStringHas(files: seq<string>, sub: string)
    ensures forall f :: f in KeepString(files, sub) <==> f in files && Contains(f, sub)
    ensures KeepString(files, sub) == [] <==> forall f <- files :: !Contains(f, sub)
  {
    if files != [] { KeepStringHas(files[1..], sub); }
  }

  /** `FilterByDirGlob`. */
  method FilterByDirGlob(files: seq<string>, p: Pattern) returns (subfiles: seq<string>)
    ensures subfiles == KeepGlob(files, p)
  {
    subfiles := [];
    for i := 0 to |files|
      invariant subfiles + KeepGlob(files[i..], p) == KeepGlob(files, p)
    {
      assert files[i..][1..] == files[i + 1..];
      if !PathMatch(p, files[i]) {
        continue;
      }
      subfiles := subfiles + [files[i]];
    }
  }

  /** `FilterByDirString`. */
  method FilterByDirString(files: seq<string>, filter: string) returns (subfiles: seq<string>)
    ensures subfiles == KeepString(files, filter)
  {
    subfiles := [];
    for i := 0 to |files|
      invariant subfiles + KeepString(files[i..], filter) == KeepString(files, filter)
    {
      assert files[i..][1..] == files[i + 1..];
      if !Contains(files[i], filter) {
        continue;
      }
      subfiles := subfiles + [files[i]];
    }
  }
}
