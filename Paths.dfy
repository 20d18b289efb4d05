/** Paths as the main process builds them and the viewer passes them around. */
module Paths {

  /** A file-system path, as the string the main process hands out. */
  type Path = string

  /** The separator `path.join` and `path.basename` use (POSIX flavour). */
  const Separator: char := '/'

  /** `path.join(dir, name)` for a directory and a single entry name. */
  function Join(dir: string, name: string): Path
  {
    dir + [Separator] + name
  }

  /** Joining under one directory is injective in the entry name: two names
      share a joined path only when they are the same name. */
  lemma {:induction false} JoinInjective(dir: string, a: string, b: string)
    ensures Join(dir, a) == Join(dir, b) <==> a == b
  {
    if Join(dir, a) == Join(dir, b) {
      assert a == Join(dir, a)[|dir| + 1..];
      assert b == Join(dir, b)[|dir| + 1..];
    }
  }

  /** `s` without its trailing separators. */
  function StripTrailingSeparators(s: string): (r: string)
    ensures r <= s
    ensures r == [] || r[|r| - 1] != Separator
    ensures forall i :: |r| <= i < |s| ==> s[i] == Separator
  {
    if |s| > 0 && s[|s| - 1] == Separator then StripTrailingSeparators(s[..|s| - 1]) else s
  }

  /** The longest suffix of `s` that holds no separator. */
  function LastComponent(s: string): (r: string)
    ensures |r| <= |s| && r == s[|s| - |r|..]
    ensures Separator !in r
    ensures |r| < |s| ==> s[|s| - |r| - 1] == Separator
  {
    if |s| == 0 || s[|s| - 1] == Separator then []
    else LastComponent(s[..|s| - 1]) + [s[|s| - 1]]
  }

  /** `path.basename(p)`: the last component of `p`, trailing separators ignored. */
  function Basename(p: string): (name: string)
    ensures Separator !in name
    ensures var s := StripTrailingSeparators(p);
      |name| <= |s| && name == s[|s| - |name|..] && (|name| < |s| ==> s[|s| - |name| - 1] == Separator)
  {
    LastComponent(StripTrailingSeparators(p))
  }

  /** ASCII case folding, as a case-insensitive regular expression applies it to Latin letters. */
  function FoldCase(c: char): char
  {
    if 'A' <= c <= 'Z' then (c as int + 32) as char else c
  }

  /** `s.toLowerCase()` on ASCII letters. */
  function FoldCaseAll(s: string): (r: string)
    ensures |r| == |s|
    ensures forall i :: 0 <= i < |s| ==> r[i] == FoldCase(s[i])
    decreases |s|
  {
    if s == [] then [] else [FoldCase(s[0])] + FoldCaseAll(s[1..])
  }

  /** `s` ends with `suffix`, letters compared without regard to case: the last
      characters agree once folded, and so do the strings before them. */
  predicate EndsWithIgnoringCase(s: string, suffix: string)
    decreases |suffix|
  {
    && |suffix| <= |s|
    && (suffix == [] ||
        (FoldCase(s[|s| - 1]) == FoldCase(suffix[|suffix| - 1])
         && EndsWithIgnoringCase(s[..|s| - 1], suffix[..|suffix| - 1])))
  }

  /** Folding a string folds its last character and the string before it. */
  lemma {:induction false} FoldCaseAllLast(t: string)
    requires t != []
    ensures FoldCaseAll(t) == FoldCaseAll(t[..|t| - 1]) + [FoldCase(t[|t| - 1])]
  {
    var front := FoldCaseAll(t[..|t| - 1]);
    var r := front + [FoldCase(t[|t| - 1])];
    forall i | 0 <= i < |t|
      ensures FoldCaseAll(t)[i] == r[i]
    {
      if i < |t| - 1 {
        assert r[i] == front[i] == FoldCase(t[..|t| - 1][i]);
      }
    }
  }

  /** Two strings of one length extended by one character each are equal exactly
      when the strings and the characters are. */
  lemma AppendOneEq(a: string, x: char, b: string, y: char)
    requires |a| == |b|
    ensures a + [x] == b + [y] <==> a == b && x == y
  {
    if a + [x] == b + [y] {
      assert a == (a + [x])[..|a|] && b == (b + [y])[..|b|];
      assert x == (a + [x])[|a|] && y == (b + [y])[|b|];
    }
  }

  /** The case-insensitive suffix test compares the folded tail of `s` with the
      folded suffix. */
  lemma {:induction false} EndsWithIgnoringCaseFolds(s: string, suffix: string)
    ensures EndsWithIgnoringCase(s, suffix) <==>
      |suffix| <= |s| && FoldCaseAll(s[|s| - |suffix|..]) == FoldCaseAll(suffix)
    decreases |suffix|
  {
    if |suffix| <= |s| {
      var n := |suffix|;
      var tail := s[|s| - n..];
      if n == 0 {
        assert tail == [];
      } else {
        var s' := s[..|s| - 1];
        var suffix' := suffix[..n - 1];
        assert tail[..n - 1] == s'[|s'| - (n - 1)..];
        EndsWithIgnoringCaseFolds(s', suffix');
        var front, suffixFront := FoldCaseAll(tail[..n - 1]), FoldCaseAll(suffix');
        var last, suffixLast := FoldCase(s[|s| - 1]), FoldCase(suffix[n - 1]);
        FoldCaseAllLast(tail);
        FoldCaseAllLast(suffix);
        assert FoldCaseAll(tail) == front + [last];
        assert FoldCaseAll(suffix) == suffixFront + [suffixLast];
        AppendOneEq(front, last, suffixFront, suffixLast);
      }
    }
  }

}
