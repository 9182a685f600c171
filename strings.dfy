/**
 * The .NET string operations the core relies on: StartsWith, TrimStart(char)
 * and Split(char[]), on strings as sequences of characters.
 */
module Strings {

  predicate StartsWith(s: string, prefix: string) {
    |prefix| <= |s| && s[..|prefix|] == prefix
  }

  predicate IsSuffix(suffix: string, s: string) {
    |suffix| <= |s| && s[|s| - |suffix|..] == suffix
  }

  /** No character of `s` belongs to `seps`. */
  predicate NoneOf(s: string, seps: set<char>) {
    forall i :: 0 <= i < |s| ==> s[i] !in seps
  }

  /** String.TrimStart(c): removes every leading occurrence of `c`. */
  function TrimStart(s: string, c: char): (r: string)
    ensures IsSuffix(r, s)
    ensures forall i :: 0 <= i < |s| - |r| ==> s[i] == c
    ensures r == [] || r[0] != c
  {
    if |s| > 0 && s[0] == c then TrimStart(s[1..], c) else s
  }

  /**
   * String.Split(separators): the pieces between separators, in order; a string
   * with k separators gives k + 1 pieces, empty ones included.
   */
  function Split(s: string, seps: set<char>): (parts: seq<string>)
    ensures |parts| >= 1
    ensures forall k :: 0 <= k < |parts| ==> NoneOf(parts[k], seps)
  {
    if s == [] then [[]]
    else
      var init := Split(s[..|s| - 1], seps);
      var c := s[|s| - 1];
      if c in seps then init + [[]]
      else init[..|init| - 1] + [init[|init| - 1] + [c]]
  }

  /** String.Join(sep, parts): the inverse of splitting on a single separator. */
  function Join(parts: seq<string>, sep: char): string
    requires |parts| >= 1
  {
    if |parts| == 1 then parts[0]
    else Join(parts[..|parts| - 1], sep) + [sep] + parts[|parts| - 1]
  }

  /** Joining the pieces of a split on one separator gives back the original string. */
  lemma {:induction false} JoinSplit(s: string, sep: char)
    ensures Join(Split(s, {sep}), sep) == s
  {
    if s != [] {
      var prefix, c := s[..|s| - 1], s[|s| - 1];
      JoinSplit(prefix, sep);
      SplitStep(s, {sep});
      if c == sep {
        JoinAppendEmpty(Split(prefix, {sep}), sep);
      } else {
        JoinExtendLast(Split(prefix, {sep}), c, sep);
      }
      assert s == prefix + [c];
    }
  }

  /** How the split changes when one character is appended. */
  lemma SplitStep(s: string, seps: set<char>)
    requires s != []
    ensures var init := Split(s[..|s| - 1], seps);
      Split(s, seps) == if s[|s| - 1] in seps then init + [[]]
                        else init[..|init| - 1] + [init[|init| - 1] + [s[|s| - 1]]]
  {
  }

  /** Joining with one more, empty, piece adds the separator. */
  lemma JoinAppendEmpty(parts: seq<string>, sep: char)
    requires |parts| >= 1
    ensures Join(parts + [[]], sep) == Join(parts, sep) + [sep]
  {
    assert (parts + [[]])[..|parts|] == parts;
  }

  /** Joining after extending the last piece by a character extends the result by it. */
  lemma JoinExtendLast(parts: seq<string>, c: char, sep: char)
    requires |parts| >= 1
    ensures Join(parts[..|parts| - 1] + [parts[|parts| - 1] + [c]], sep) == Join(parts, sep) + [c]
  {
    var n := |parts|;
    var extended := parts[..n - 1] + [parts[n - 1] + [c]];
    if n > 1 {
      assert extended[..n - 1] == parts[..n - 1];
    }
  }

  /** The last piece of a split: the text after the last separator. */
  function LastPiece(s: string, seps: set<char>): string {
    var parts := Split(s, seps);
    parts[|parts| - 1]
  }

  /** How the last piece changes when one character is appended. */
  lemma LastPieceStep(s: string, seps: set<char>)
    requires s != []
    ensures LastPiece(s, seps) ==
      if s[|s| - 1] in seps then [] else LastPiece(s[..|s| - 1], seps) + [s[|s| - 1]]
  {
  }

  /**
   * The last piece is a suffix of `s`, and either it is all of `s` or a
   * separator stands right before it.
   */
  lemma {:induction false} SplitLast(s: string, seps: set<char>)
    ensures IsSuffix(LastPiece(s, seps), s)
    ensures LastPiece(s, seps) == s || s[|s| - |LastPiece(s, seps)| - 1] in seps
  {
    if s != [] {
      var prefix := s[..|s| - 1];
      SplitLast(prefix, seps);
      LastPieceStep(s, seps);
      SuffixStep(s, LastPiece(prefix, seps), LastPiece(s, seps), seps);
    }
  }

  /** The step of SplitLast, stated on the pieces alone. */
  lemma SuffixStep(s: string, previous: string, last: string, seps: set<char>)
    requires s != []
    requires IsSuffix(previous, s[..|s| - 1])
    requires previous == s[..|s| - 1] || s[|s| - 1 - |previous| - 1] in seps
    requires last == if s[|s| - 1] in seps then [] else previous + [s[|s| - 1]]
    ensures IsSuffix(last, s) && (last == s || s[|s| - |last| - 1] in seps)
  {
    var prefix, c := s[..|s| - 1], s[|s| - 1];
    if c !in seps {
      assert prefix + [c] == s;
      SuffixExtend(prefix, previous, c, seps);
    }
  }

  /** Appending the same character to a string and to a suffix of it keeps the suffix shape SplitLast states. */
  lemma SuffixExtend(s: string, suffix: string, c: char, seps: set<char>)
    requires IsSuffix(suffix, s)
    requires suffix == s || s[|s| - |suffix| - 1] in seps
    ensures IsSuffix(suffix + [c], s + [c])
    ensures suffix + [c] == s + [c] || (s + [c])[|s| - |suffix| - 1] in seps
  {
    assert (s + [c])[|s| + 1 - |suffix| - 1..] == s[|s| - |suffix|..] + [c];
  }

  lemma ReplaceLast(parts: seq<string>, last: string, c: char)
    ensures var extended := parts + [last];
      extended[..|extended| - 1] + [extended[|extended| - 1] + [c]] == parts + [last + [c]]
  {
    assert (parts + [last])[..|parts|] == parts;
  }

  /** A string without separators splits into itself alone. */
  lemma {:induction false} SplitNoSeparator(s: string, seps: set<char>)
    requires NoneOf(s, seps)
    ensures Split(s, seps) == [s]
  {
    if s != [] {
      SplitNoSeparator(s[..|s| - 1], seps);
      assert s[..|s| - 1] + [s[|s| - 1]] == s;
    }
  }

  /** Appending a separator and a separator-free piece adds exactly that piece at the end. */
  lemma {:induction false} SplitAppend(s: string, sep: char, piece: string, seps: set<char>)
    requires sep in seps && NoneOf(piece, seps)
    ensures Split(s + [sep] + piece, seps) == Split(s, seps) + [piece]
    decreases |piece|
  {
    if piece == [] {
      assert (s + [sep] + piece)[..|s + [sep] + piece| - 1] == s;
    } else {
      var t := s + [sep] + piece;
      var shorter := piece[..|piece| - 1];
      SplitAppend(s, sep, shorter, seps);
      assert t[..|t| - 1] == s + [sep] + shorter;
      SplitStep(t, seps);
      ReplaceLast(Split(s, seps), shorter, piece[|piece| - 1]);
      assert shorter + [piece[|piece| - 1]] == piece;
    }
  }
}
