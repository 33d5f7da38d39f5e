/**
 * Glob matching of root-relative paths, and the exclusion test built on it.
 *
 * A pattern is a string of literal characters and `*`. A path matches a
 * pattern when the WHOLE path is spelt by the pattern with every `*` replaced
 * by some run of characters; a run may be empty and may contain `/`, so a
 * `*` reaches across directory levels. Matching is case-sensitive.
 */
module PatternMatcher {

  const STAR: char := '*'

  /** Number of `*` wildcards in `pattern` */
  function StarCount(pattern: string): (n: nat)
    ensures n <= |pattern|
  {
    if pattern == [] then 0
    else (if pattern[0] == STAR then 1 else 0) + StarCount(pattern[1..])
  }

  /** Whole-string glob match of `path` against `pattern`. */
  function Matches(path: string, pattern: string): (r: bool)
    // a match spends one path character on every literal character of the pattern
    ensures r ==> |pattern| - StarCount(pattern) <= |path|
    decreases |path| + |pattern|
  {
    if pattern == [] then path == []
    else if pattern[0] == STAR then
      // the star matches nothing more, or swallows one more character
      Matches(path, pattern[1..]) || (path != [] && Matches(path[1..], pattern))
    else
      path != [] && path[0] == pattern[0] && Matches(path[1..], pattern[1..])
  }

  /**
   * Reference semantics, independent of `Matches`: the string obtained from
   * `pattern` by replacing its i-th `*` with `fills[i]`.
   */
  function Fill(pattern: string, fills: seq<string>): (s: string)
    requires |fills| == StarCount(pattern)
  {
    if pattern == [] then []
    else if pattern[0] == STAR then fills[0] + Fill(pattern[1..], fills[1..])
    else [pattern[0]] + Fill(pattern[1..], fills)
  }

  /** `path` is one of the strings the pattern denotes */
  ghost predicate IsInstance(path: string, pattern: string)
  {
    exists fills :: |fills| == StarCount(pattern) && Fill(pattern, fills) == path
  }

  /** Taking one character from a non-empty first fill drops the first character of the filling. */
  lemma FillShrink(pattern: string, fills: seq<string>) returns (shorter: seq<string>)
    requires |fills| == StarCount(pattern)
    requires pattern != [] && pattern[0] == STAR && fills[0] != []
    ensures |shorter| == StarCount(pattern)
    ensures Fill(pattern, shorter) == Fill(pattern, fills)[1..]
  {
    shorter := [fills[0][1..]] + fills[1..];
    assert shorter[0] == fills[0][1..] && shorter[1..] == fills[1..];
    assert Fill(pattern, shorter) == fills[0][1..] + Fill(pattern[1..], fills[1..]);
  }

  /** Every filling of the stars is matched (completeness of `Matches`). */
  lemma {:induction false} FillMatches(pattern: string, fills: seq<string>)
    requires |fills| == StarCount(pattern)
    ensures Matches(Fill(pattern, fills), pattern)
    decreases |Fill(pattern, fills)|, |pattern|
  {
    var path := Fill(pattern, fills);
    if pattern == [] {
    } else if pattern[0] == STAR {
      var w := fills[0];
      assert path == w + Fill(pattern[1..], fills[1..]);
      if w == [] {
        FillMatches(pattern[1..], fills[1..]);
        assert path == Fill(pattern[1..], fills[1..]);
      } else {
        var shorter := FillShrink(pattern, fills);
        FillMatches(pattern, shorter);
      }
    } else {
      assert path == [pattern[0]] + Fill(pattern[1..], fills);
      assert path[1..] == Fill(pattern[1..], fills);
      FillMatches(pattern[1..], fills);
    }
  }

  /** A star may stand for nothing. */
  lemma InstanceEmptyStar(path: string, pattern: string)
    requires pattern != [] && pattern[0] == STAR
    requires IsInstance(path, pattern[1..])
    ensures IsInstance(path, pattern)
  {
    var fills :| |fills| == StarCount(pattern[1..]) && Fill(pattern[1..], fills) == path;
    var longer := [[]] + fills;
    assert longer[0] == [] && longer[1..] == fills;
    assert Fill(pattern, longer) == path;
  }

  /** A leading star may absorb one more character. */
  lemma InstanceExtendStar(path: string, pattern: string)
    requires pattern != [] && pattern[0] == STAR && path != []
    requires IsInstance(path[1..], pattern)
    ensures IsInstance(path, pattern)
  {
    var fills :| |fills| == StarCount(pattern) && Fill(pattern, fills) == path[1..];
    var longer := [[path[0]] + fills[0]] + fills[1..];
    assert longer[0] == [path[0]] + fills[0] && longer[1..] == fills[1..];
    assert |longer| == StarCount(pattern);
    var rest := Fill(pattern[1..], fills[1..]);
    assert path[1..] == fills[0] + rest;
    assert Fill(pattern, longer) == longer[0] + rest;
    assert Fill(pattern, longer) == [path[0]] + path[1..];
    assert Fill(pattern, longer) == path;
  }

  /** A literal first character followed by an instance of the rest is an instance. */
  lemma InstanceLiteral(path: string, pattern: string)
    requires pattern != [] && pattern[0] != STAR && path != [] && path[0] == pattern[0]
    requires IsInstance(path[1..], pattern[1..])
    ensures IsInstance(path, pattern)
  {
  }

  /** Soundness: every path `Matches` accepts is an instance of the pattern. */
  lemma {:induction false} MatchesIsInstance(path: string, pattern: string)
    requires Matches(path, pattern)
    ensures IsInstance(path, pattern)
    decreases |path| + |pattern|
  {
    if pattern == [] {
      assert Fill(pattern, []) == path;
    } else if pattern[0] == STAR {
      if Matches(path, pattern[1..]) {
        MatchesIsInstance(path, pattern[1..]);
        InstanceEmptyStar(path, pattern);
      } else {
        MatchesIsInstance(path[1..], pattern);
        InstanceExtendStar(path, pattern);
      }
    } else {
      MatchesIsInstance(path[1..], pattern[1..]);
      InstanceLiteral(path, pattern);
    }
  }

  /** `Matches` decides exactly the reference semantics. */
  lemma MatchesIffInstance(path: string, pattern: string)
    ensures Matches(path, pattern) <==> IsInstance(path, pattern)
  {
    if Matches(path, pattern) {
      MatchesIsInstance(path, pattern);
    }
    if IsInstance(path, pattern) {
      var fills :| |fills| == StarCount(pattern) && Fill(pattern, fills) == path;
      FillMatches(pattern, fills);
    }
  }

  /** A pattern without wildcards matches exactly the path spelt like it (so `""` matches only `""`). */
  lemma {:induction false} LiteralMatchesItselfOnly(path: string, literal: string)
    requires StarCount(literal) == 0
    ensures Matches(path, literal) <==> path == literal
  {
    if literal != [] {
      assert literal[0] != STAR;
      if path != [] {
        LiteralMatchesItselfOnly(path[1..], literal[1..]);
        assert path == [path[0]] + path[1..];
        assert literal == [literal[0]] + literal[1..];
      }
    }
  }

  /** `*` followed by a literal accepts only paths ending in that literal. */
  lemma {:induction false} StarThenLiteralEnds(path: string, tail: string)
    requires StarCount(tail) == 0
    requires Matches(path, [STAR] + tail)
    ensures |tail| <= |path| && path[|path| - |tail|..] == tail
  {
    var pattern := [STAR] + tail;
    assert pattern[0] == STAR && pattern[1..] == tail;
    if Matches(path, tail) {
      LiteralMatchesItselfOnly(path, tail);
    } else {
      assert path != [] && Matches(path[1..], pattern);
      StarThenLiteralEnds(path[1..], tail);
      assert path[1..][|path[1..]| - |tail|..] == path[|path| - |tail|..];
    }
  }

  /** `*` followed by a literal accepts every path ending in that literal. */
  lemma {:induction false} EndsMatchesStarThenLiteral(path: string, tail: string)
    requires StarCount(tail) == 0
    requires |tail| <= |path| && path[|path| - |tail|..] == tail
    ensures Matches(path, [STAR] + tail)
  {
    var pattern := [STAR] + tail;
    assert pattern[0] == STAR && pattern[1..] == tail;
    if |tail| == |path| {
      assert path[|path| - |tail|..] == path;
      LiteralMatchesItselfOnly(path, tail);
    } else {
      assert path[1..][|path[1..]| - |tail|..] == path[|path| - |tail|..];
      EndsMatchesStarThenLiteral(path[1..], tail);
    }
  }

  /** `*` followed by a literal matches exactly the paths ending in that literal, whatever directories precede it. */
  lemma StarThenLiteral(path: string, tail: string)
    requires StarCount(tail) == 0
    ensures Matches(path, [STAR] + tail) <==> |tail| <= |path| && path[|path| - |tail|..] == tail
  {
    if Matches(path, [STAR] + tail) {
      StarThenLiteralEnds(path, tail);
    }
    if |tail| <= |path| && path[|path| - |tail|..] == tail {
      EndsMatchesStarThenLiteral(path, tail);
    }
  }

  /**
   * A pattern with a single `*` between two literals matches exactly the
   * paths that start with the head, end with the tail and are long enough
   * for both: the patterns `*.txt`, `subdir/` + `*`, a bare `*`.
   */
  lemma {:induction false} OneStar(path: string, head: string, tail: string)
    requires StarCount(head) == 0 && StarCount(tail) == 0
    ensures Matches(path, head + [STAR] + tail) <==>
      |head| + |tail| <= |path| && path[..|head|] == head && path[|path| - |tail|..] == tail
  {
    var pattern := head + [STAR] + tail;
    if head == [] {
      assert pattern == [STAR] + tail;
      StarThenLiteral(path, tail);
    } else {
      assert head[0] != STAR;
      assert pattern[0] == head[0] && pattern[1..] == head[1..] + [STAR] + tail;
      if path != [] {
        OneStar(path[1..], head[1..], tail);
        assert path == [path[0]] + path[1..];
        assert head == [head[0]] + head[1..];
        if |head| + |tail| <= |path| {
          assert path[1..][|path[1..]| - |tail|..] == path[|path| - |tail|..];
          assert path[1..][..|head[1..]|] == path[1..|head|];
        }
      }
    }
  }

  /** Matching composes: concatenated paths match concatenated patterns. */
  lemma {:induction false} MatchesConcat(a: string, p: string, b: string, q: string)
    requires Matches(a, p) && Matches(b, q)
    ensures Matches(a + b, p + q)
    decreases |a| + |p|
  {
    if p == [] {
      assert a + b == b && p + q == q;
    } else if p[0] == STAR {
      assert (p + q)[0] == STAR && (p + q)[1..] == p[1..] + q;
      if Matches(a, p[1..]) {
        MatchesConcat(a, p[1..], b, q);
      } else {
        MatchesConcat(a[1..], p, b, q);
        assert (a + b)[1..] == a[1..] + b;
      }
    } else {
      MatchesConcat(a[1..], p[1..], b, q);
      assert (a + b)[1..] == a[1..] + b;
      assert (p + q)[1..] == p[1..] + q;
    }
  }

  /** A bare `*` matches every path, including paths with directory separators. */
  lemma {:induction false} StarMatchesEveryPath(path: string)
    ensures Matches(path, [STAR])
  {
    assert [STAR][1..] == [];
    assert StarCount([STAR]) == 1;
    assert Fill([STAR], [path]) == path;
    FillMatches([STAR], [path]);
  }

  /** Some pattern of `patterns` matches `path` (Python's `any` over the list). */
  function MatchesSome(path: string, patterns: seq<string>): (r: bool)
    ensures r ==> exists p :: p in patterns && Matches(path, p)
    ensures (exists p :: p in patterns && Matches(path, p)) ==> r
  {
    if patterns == [] then false
    else
      Matches(path, patterns[0]) || MatchesSome(path, patterns[1..])
  }

  /**
   * `is_excluded`: false for an empty list of exclude patterns, otherwise
   * true exactly when at least one of them matches the path.
   */
  function IsExcluded(path: string, excludes: seq<string>): (r: bool)
    ensures excludes == [] ==> !r
    ensures r <==> exists x :: x in excludes && Matches(path, x)
  {
    MatchesSome(path, excludes)
  }
}
