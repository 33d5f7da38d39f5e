/**
 * `separate_arguments`: turning a comma-separated command-line value into a
 * list of patterns. The string is split on every comma (as Python's
 * `str.split(',')`), each piece is stripped of surrounding whitespace (as
 * `str.strip()`) and empty pieces are dropped; the empty string itself is
 * kept as the one-element list `[""]`.
 */
module Arguments {

  const COMMA: char := ','

  /** The ASCII characters Python's `str.isspace` accepts: space, tab, line feed, vertical tab, form feed, carriage return and the four separators 0x1C-0x1F */
  predicate IsWhitespace(c: char)
  {
    c == ' ' || (9 as char <= c <= 13 as char) || (28 as char <= c <= 31 as char)
  }

  predicate AllWhitespace(s: string)
  {
    forall k :: 0 <= k < |s| ==> IsWhitespace(s[k])
  }

  /** Neither starts nor ends with whitespace */
  predicate IsStripped(s: string)
  {
    s != [] ==> !IsWhitespace(s[0]) && !IsWhitespace(s[|s| - 1])
  }

  /** Python's `str.strip()`: `s` without its leading and trailing whitespace. */
  function Strip(s: string): (r: string)
    ensures IsStripped(r)
    ensures |r| <= |s|
  {
    if s != [] && IsWhitespace(s[0]) then Strip(s[1..])
    else if s != [] && IsWhitespace(s[|s| - 1]) then Strip(s[..|s| - 1])
    else s
  }

  /** Stripping a stripped string changes nothing. */
  lemma StripStripped(s: string)
    requires IsStripped(s)
    ensures Strip(s) == s
  {
  }

  /** Trailing whitespace after a stripped core is removed, and nothing else. */
  lemma {:induction false} StripTrailing(core: string, tail: string)
    requires AllWhitespace(tail) && IsStripped(core)
    ensures Strip(core + tail) == core
    decreases |tail|
  {
    var s := core + tail;
    if tail == [] {
      assert s == core;
    } else if core == [] {
      assert s == tail && s[1..] == [] + tail[1..];
      StripTrailing([], tail[1..]);
    } else {
      assert s[0] == core[0] && s[|s| - 1] == tail[|tail| - 1];
      assert s[..|s| - 1] == core + tail[..|tail| - 1];
      StripTrailing(core, tail[..|tail| - 1]);
    }
  }

  /** Stripping removes exactly the whitespace around a stripped core, whatever its amount. */
  lemma {:induction false} StripPadded(head: string, core: string, tail: string)
    requires AllWhitespace(head) && AllWhitespace(tail)
    requires IsStripped(core)
    ensures Strip(head + core + tail) == core
  {
    if head == [] {
      assert head + core + tail == core + tail;
      StripTrailing(core, tail);
    } else {
      var s := head + core + tail;
      assert s[0] == head[0];
      assert s[1..] == head[1..] + core + tail;
      StripPadded(head[1..], core, tail);
    }
  }

  /** Stripping never introduces a character. */
  lemma {:induction false} StripKeepsOut(s: string, c: char)
    requires c !in s
    ensures c !in Strip(s)
    decreases |s|
  {
    if s != [] && IsWhitespace(s[0]) {
      assert forall k :: 0 <= k < |s[1..]| ==> s[1..][k] == s[k + 1];
      StripKeepsOut(s[1..], c);
    } else if s != [] && IsWhitespace(s[|s| - 1]) {
      assert forall k :: 0 <= k < |s| - 1 ==> s[..|s| - 1][k] == s[k];
      StripKeepsOut(s[..|s| - 1], c);
    }
  }

  /** Python's `sep.join(parts)` */
  function Join(parts: seq<string>, sep: char): string
  {
    if parts == [] then []
    else if |parts| == 1 then parts[0]
    else parts[0] + [sep] + Join(parts[1..], sep)
  }

  /** Python's `s.split(sep)`: the pieces between the separators, at least one, none containing `sep`, which join back to `s`. */
  function Split(s: string, sep: char): (parts: seq<string>)
    ensures |parts| >= 1
    ensures forall i :: 0 <= i < |parts| ==> sep !in parts[i]
    ensures Join(parts, sep) == s
  {
    if s == [] then [[]]
    else
      var rest := Split(s[1..], sep);
      if s[0] == sep then
        assert Join([[]] + rest, sep) == [sep] + Join(rest, sep);
        [[]] + rest
      else
        var parts := [[s[0]] + rest[0]] + rest[1..];
        assert parts[1..] == rest[1..];
        assert Join(parts, sep) == [s[0]] + Join(rest, sep) by {
          if |rest| > 1 {
            assert Join(rest, sep) == rest[0] + [sep] + Join(rest[1..], sep);
          }
        }
        assert s == [s[0]] + s[1..];
        parts
  }

  /**
   * Splitting undoes joining a non-empty list of pieces that do not contain
   * the separator. The empty list is the exception: it joins to `""`, which
   * splits into `[""]` (see `BlankInputsRoundTrip`).
   */
  lemma {:induction false} SplitJoin(parts: seq<string>, sep: char)
    requires |parts| >= 1
    requires forall i :: 0 <= i < |parts| ==> sep !in parts[i]
    ensures Split(Join(parts, sep), sep) == parts
    decreases |Join(parts, sep)|, |parts|
  {
    var s := Join(parts, sep);
    var head := parts[0];
    if head == [] {
      if |parts| == 1 {
        assert s == [];
      } else {
        assert s == [sep] + Join(parts[1..], sep);
        assert s[1..] == Join(parts[1..], sep);
        SplitJoin(parts[1..], sep);
        assert parts == [[]] + parts[1..];
      }
    } else {
      var shorter := [head[1..]] + parts[1..];
      assert shorter[1..] == parts[1..];
      assert forall i :: 0 <= i < |shorter| ==> sep !in shorter[i] by {
        assert forall c :: c in head[1..] ==> c in head;
      }
      assert head[0] != sep by { assert head[0] in head; }
      assert s == [head[0]] + Join(shorter, sep) by {
        if |parts| > 1 {
          assert Join(shorter, sep) == head[1..] + [sep] + Join(parts[1..], sep);
        }
        assert head == [head[0]] + head[1..];
      }
      assert s[1..] == Join(shorter, sep);
      SplitJoin(shorter, sep);
      assert head == [head[0]] + head[1..];
      assert parts == [[head[0]] + shorter[0]] + shorter[1..];
    }
  }

  /** What `separate_arguments` may return for a non-empty string: non-empty, stripped, comma-free */
  predicate IsCleanToken(t: string)
  {
    t != [] && IsStripped(t) && COMMA !in t
  }

  /** The stripped, non-empty pieces, in order */
  function NonEmptyStripped(pieces: seq<string>): (tokens: seq<string>)
    ensures |tokens| <= |pieces|
  {
    if pieces == [] then []
    else
      var t := Strip(pieces[0]);
      (if t == [] then [] else [t]) + NonEmptyStripped(pieces[1..])
  }

  /** Separating pieces is done piece by piece: it distributes over concatenation. */
  lemma {:induction false} NonEmptyStrippedAppend(a: seq<string>, b: seq<string>)
    ensures NonEmptyStripped(a + b) == NonEmptyStripped(a) + NonEmptyStripped(b)
  {
    if a != [] {
      assert (a + b)[0] == a[0] && (a + b)[1..] == a[1..] + b;
      NonEmptyStrippedAppend(a[1..], b);
    } else {
      assert a + b == b;
    }
  }

  /** Comma-free pieces give clean tokens only. */
  lemma {:induction false} NonEmptyStrippedClean(pieces: seq<string>)
    requires forall i :: 0 <= i < |pieces| ==> COMMA !in pieces[i]
    ensures forall i :: 0 <= i < |NonEmptyStripped(pieces)| ==> IsCleanToken(NonEmptyStripped(pieces)[i])
  {
    if pieces != [] {
      var t := Strip(pieces[0]);
      StripKeepsOut(pieces[0], COMMA);
      NonEmptyStrippedClean(pieces[1..]);
    }
  }

  /** `separate_arguments` on a string argument */
  function SeparateArguments(s: string): (tokens: seq<string>)
    ensures s == [] ==> tokens == [[]]
    ensures s != [] ==> forall i :: 0 <= i < |tokens| ==> IsCleanToken(tokens[i])
  {
    if s == [] then [[]]
    else
      NonEmptyStrippedClean(Split(s, COMMA));
      NonEmptyStripped(Split(s, COMMA))
  }

  /** Pieces that are already stripped and non-empty are kept as they are. */
  lemma {:induction false} NonEmptyStrippedKeeps(pieces: seq<string>)
    requires forall i :: 0 <= i < |pieces| ==> pieces[i] != [] && IsStripped(pieces[i])
    ensures NonEmptyStripped(pieces) == pieces
  {
    if pieces != [] {
      var t := Strip(pieces[0]);
      StripStripped(pieces[0]);
      assert t == pieces[0] && t != [];
      var rest := pieces[1..];
      forall i | 0 <= i < |rest|
        ensures rest[i] != [] && IsStripped(rest[i])
      {
        assert rest[i] == pieces[i + 1];
      }
      NonEmptyStrippedKeeps(rest);
      assert NonEmptyStripped(pieces) == [t] + NonEmptyStripped(pieces[1..]);
      assert pieces == [pieces[0]] + pieces[1..];
    }
  }

  /**
   * Joining a non-empty list of clean tokens with commas and separating it
   * again gives the tokens back. The empty list joins to `""`, which
   * separates into `[""]` (see `BlankInputsRoundTrip`).
   */
  lemma SeparateJoin(tokens: seq<string>)
    requires tokens != []
    requires forall i :: 0 <= i < |tokens| ==> IsCleanToken(tokens[i])
    ensures SeparateArguments(Join(tokens, COMMA)) == tokens
  {
    var s := Join(tokens, COMMA);
    assert s != [] by {
      if |tokens| > 1 {
        assert s == tokens[0] + [COMMA] + Join(tokens[1..], COMMA);
      }
    }
    SplitJoin(tokens, COMMA);
    NonEmptyStrippedKeeps(tokens);
  }

  /**
   * Separating is idempotent on every input whose separation is non-empty:
   * re-joining its output with commas and separating again changes nothing.
   * Blank inputs are the exception (see `BlankInputsRoundTrip`).
   */
  lemma SeparateArgumentsIdempotent(s: string)
    requires SeparateArguments(s) != []
    ensures SeparateArguments(Join(SeparateArguments(s), COMMA)) == SeparateArguments(s)
  {
    if s != [] {
      SeparateJoin(SeparateArguments(s));
    }
  }

  /**
   * The drop rule applied to blank inputs: a lone comma or a lone blank
   * separates into no tokens at all, unlike the empty string.
   */
  lemma DropRuleOnBlankInputs()
    ensures SeparateArguments(",") == []
    ensures SeparateArguments(" ") == []
  {
    SplitJoin(["", ""], COMMA);
    assert Join(["", ""], COMMA) == ",";
    assert NonEmptyStripped([""]) == [];
    assert Strip(" ") == "";
  }

  /**
   * Where the round trips fail: the empty list joins to `""`, which splits
   * and separates into `[""]`, not `[]`; so a lone comma or a lone blank,
   * which separate into `[]`, do not survive re-joining and separating.
   */
  lemma BlankInputsRoundTrip()
    ensures Split(Join([], COMMA), COMMA) == [""]
    ensures SeparateArguments(Join([], COMMA)) == [""]
    ensures SeparateArguments(Join(SeparateArguments(","), COMMA)) == [""]
    ensures SeparateArguments(Join(SeparateArguments(" "), COMMA)) == [""]
    ensures SeparateArguments(",") != [""] && SeparateArguments(" ") != [""]
  {
    DropRuleOnBlankInputs();
    assert Join([], COMMA) == "";
  }
}
