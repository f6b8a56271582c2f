/** The parts of Go's `strings` package that the modelled code relies on. */
module GoStrings {

  datatype Option<+T> = None | Some(value: T)

  /** `sub` occurs in `s` at offset `k`. */
  predicate OccursAt(s: string, sub: string, k: nat) {
    k + |sub| <= |s| && s[k..k + |sub|] == sub
  }

  /** `strings.Contains`. */
  predicate Contains(s: string, sub: string) {
    exists k :: 0 <= k <= |s| && OccursAt(s, sub, k)
  }

  /** `strings.Split` with a one-character separator. */
  function Split(s: string, sep: char): (parts: seq<string>)
    ensures |parts| >= 1
  {
    if s == "" then [""]
    else
      var rest := Split(s[1..], sep);
      if s[0] == sep then [""] + rest else [[s[0]] + rest[0]] + rest[1..]
  }

  /** `strings.Join`. */
  function Join(parts: seq<string>, sep: string): string {
    if parts == [] then ""
    else if |parts| == 1 then parts[0]
    else parts[0] + sep + Join(parts[1..], sep)
  }

  /** `strings.ReplaceAll(s, c, "")`. */
  function Remove(s: string, c: char): string {
    if s == "" then "" else (if s[0] == c then "" else [s[0]]) + Remove(s[1..], c)
  }

  /** `strings.TrimLeft(s, " ")`. */
  function TrimLeft(s: string): string {
    if s != "" && s[0] == ' ' then TrimLeft(s[1..]) else s
  }

  /** `strings.TrimRight(s, " ")`. */
  function TrimRight(s: string): string {
    if s != "" && s[|s| - 1] == ' ' then TrimRight(s[..|s| - 1]) else s
  }

  /** `strings.Trim(s, " ")`. */
  function Trim(s: string): string {
    TrimRight(TrimLeft(s))
  }

  /** `fmt.Sprintf("%*s", n, "")`. */
  function Spaces(n: nat): (s: string) {
    seq(n, _ => ' ')
  }

  predicate NoLeadingSpace(s: string) {
    s == "" || s[0] != ' '
  }

  predicate Trimmed(s: string) {
    s == "" || (s[0] != ' ' && s[|s| - 1] != ' ')
  }

  /** No character of `bad` occurs in `s`. */
  predicate Avoids(s: string, bad: set<char>) {
    forall k :: 0 <= k < |s| ==> s[k] !in bad
  }

  lemma Regroup(a: string, b: string, c: string, d: string, e: string)
    ensures a + b + c + d + e == a + (b + c + d + e)
  {
  }

  // ----- Split -----

  lemma {:induction false} SplitNone(s: string, sep: char)
    requires Avoids(s, {sep})
    ensures Split(s, sep) == [s]
  {
    if s != "" {
      SplitNone(s[1..], sep);
      assert [s[0]] + s[1..] == s;
    }
  }

  lemma {:induction false} SplitConcat(a: string, sep: char, b: string)
    ensures Split(a + [sep] + b, sep) == Split(a, sep) + Split(b, sep)
  {
    var s := a + [sep] + b;
    if a == "" {
      assert s[1..] == b;
    } else {
      assert s[1..] == a[1..] + [sep] + b;
      SplitConcat(a[1..], sep, b);
    }
  }

  lemma {:induction false} SplitParts(s: string, sep: char, bad: set<char>)
    requires Avoids(s, bad)
    ensures forall i :: 0 <= i < |Split(s, sep)| ==> Avoids(Split(s, sep)[i], bad + {sep})
  {
    if s != "" { SplitParts(s[1..], sep, bad); }
  }

  lemma {:induction false} SplitAlone(s: string, sep: char)
    ensures |Split(s, sep)| == 1 <==> Avoids(s, {sep})
    ensures Split(s, sep)[0] <= s
  {
    if s != "" { SplitAlone(s[1..], sep); }
  }

  lemma {:induction false} JoinSplit(s: string, sep: char)
    ensures Join(Split(s, sep), [sep]) == s
  {
    if s != "" {
      var rest := Split(s[1..], sep);
      JoinSplit(s[1..], sep);
      assert s == [s[0]] + s[1..];
      if s[0] == sep {
        assert ([""] + rest)[1..] == rest;
      } else {
        var first := [s[0]] + rest[0];
        assert ([first] + rest[1..])[1..] == rest[1..];
      }
    }
  }

  // ----- Remove -----

  lemma {:induction false} RemoveNone(s: string, c: char)
    requires Avoids(s, {c})
    ensures Remove(s, c) == s
  {
    if s != "" { RemoveNone(s[1..], c); }
  }

  lemma {:induction false} RemoveConcat(a: string, b: string, c: char)
    ensures Remove(a + b, c) == Remove(a, c) + Remove(b, c)
  {
    if a == "" {
      assert a + b == b;
    } else {
      assert (a + b)[1..] == a[1..] + b;
      RemoveConcat(a[1..], b, c);
    }
  }

  lemma {:induction false} RemoveAvoids(s: string, c: char, bad: set<char>)
    requires Avoids(s, bad)
    ensures Avoids(Remove(s, c), bad + {c})
  {
    if s != "" { RemoveAvoids(s[1..], c, bad); }
  }

  // ----- Trim -----

  lemma {:induction false} TrimLeftFacts(s: string, bad: set<char>)
    requires Avoids(s, bad)
    ensures Avoids(TrimLeft(s), bad) && NoLeadingSpace(TrimLeft(s))
    ensures |TrimLeft(s)| <= |s|
  {
    if s != "" && s[0] == ' ' { TrimLeftFacts(s[1..], bad); }
  }

  lemma {:induction false} TrimRightFacts(s: string, bad: set<char>)
    requires Avoids(s, bad)
    ensures TrimRight(s) <= s
    ensures TrimRight(s) == "" || TrimRight(s)[|TrimRight(s)| - 1] != ' '
    ensures Avoids(TrimRight(s), bad)
  {
    if s != "" && s[|s| - 1] == ' ' { TrimRightFacts(s[..|s| - 1], bad); }
  }

  lemma TrimFacts(s: string, bad: set<char>)
    requires Avoids(s, bad)
    ensures Trimmed(Trim(s)) && Avoids(Trim(s), bad)
  {
    TrimLeftFacts(s, bad);
    TrimRightFacts(TrimLeft(s), bad);
  }

  lemma {:induction false} TrimLeftSpaces(n: nat, s: string)
    requires NoLeadingSpace(s)
    ensures TrimLeft(Spaces(n) + s) == s
  {
    if n == 0 {
      assert Spaces(n) + s == s;
    } else {
      assert (Spaces(n) + s)[1..] == Spaces(n - 1) + s;
      TrimLeftSpaces(n - 1, s);
    }
  }

  lemma TrimRightSpace(s: string)
    requires s == "" || s[|s| - 1] != ' '
    ensures TrimRight(s + " ") == s && TrimRight(s) == s
  {
    assert (s + " ")[..|s|] == s;
  }

  lemma TrimPadded(n: nat, s: string)
    requires Trimmed(s)
    ensures Trim(Spaces(n) + s) == s
    ensures Trim(Spaces(n) + s + " ") == s
  {
    TrimLeftSpaces(n, s);
    TrimRightSpace(s);
    if s == "" {
      assert Spaces(n) + s + " " == Spaces(n + 1) + "";
      TrimLeftSpaces(n + 1, "");
    } else {
      assert Spaces(n) + s + " " == Spaces(n) + (s + " ");
      TrimLeftSpaces(n, s + " ");
    }
  }

  // ----- Contains -----

  /** A string with a character that `s` lacks does not occur in `s`. */
  lemma MissingChar(s: string, sub: string, j: nat)
    requires j < |sub| && sub[j] !in s
    ensures !Contains(s, sub)
  {
    forall k | 0 <= k <= |s| ensures !OccursAt(s, sub, k) {
      if k + |sub| <= |s| { assert s[k..k + |sub|][j] == s[k + j]; }
    }
  }

  lemma ContainsItself(s: string)
    ensures Contains(s, s)
  {
    assert OccursAt(s, s, 0);
  }
}
