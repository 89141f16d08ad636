/**
 * The .NET string operations the tool relies on, compared character by character on
 * `seq<char>`: StartsWith, IndexOf, Contains, Replace, Split and Join. Replace, Contains,
 * Split and Join are ordinal in .NET; IndexOf(string) and StartsWith(string) are
 * culture-sensitive there and are modelled here as ordinal.
 */
module Text {

  predicate StartsWith(s: string, prefix: string) {
    |prefix| <= |s| && s[..|prefix|] == prefix
  }

  /** `pat` occurs in `s` starting at index `i`. */
  predicate OccursAt(s: string, pat: string, i: int) {
    0 <= i && i + |pat| <= |s| && s[i..i + |pat|] == pat
  }

  /** No character of `s` is `c`. */
  predicate NoChar(s: string, c: char) {
    forall k :: 0 <= k < |s| ==> s[k] != c
  }

  /** String.IndexOf searching from `start`: the first occurrence at or after `start`, or -1. */
  function IndexOfFrom(s: string, pat: string, start: nat): (r: int)
    ensures r == -1 || (start <= r && OccursAt(s, pat, r))
    ensures forall j :: start <= j && (r == -1 || j < r) ==> !OccursAt(s, pat, j)
    decreases |s| - start
  {
    if start + |pat| > |s| then -1
    else if s[start..start + |pat|] == pat then start
    else IndexOfFrom(s, pat, start + 1)
  }

  function IndexOf(s: string, pat: string): int {
    IndexOfFrom(s, pat, 0)
  }

  predicate Contains(s: string, pat: string) {
    IndexOf(s, pat) >= 0
  }

  /** A single character occurs at `i` exactly when `s[i]` is that character. */
  lemma OccursAtChar(s: string, c: char, i: int)
    ensures OccursAt(s, [c], i) <==> 0 <= i < |s| && s[i] == c
  {
    if 0 <= i < |s| {
      assert s[i..i + 1] == [s[i]];
    }
  }

  /** String.Replace(pat, rep): every non-overlapping occurrence, left to right, replacement text not rescanned. */
  function Replace(s: string, pat: string, rep: string): string
    requires |pat| > 0
    decreases |s|
  {
    if |s| < |pat| then s
    else if s[..|pat|] == pat then rep + Replace(s[|pat|..], pat, rep)
    else [s[0]] + Replace(s[1..], pat, rep)
  }

  /** Text that cannot start an occurrence passes through Replace unchanged. */
  lemma {:induction false} ReplaceSkips(a: string, b: string, pat: string, rep: string)
    requires |pat| > 0 && NoChar(a, pat[0])
    ensures Replace(a + b, pat, rep) == a + Replace(b, pat, rep)
    decreases |a|
  {
    if a == [] {
      assert a + b == b;
    } else {
      var s := a + b;
      assert s[0] == a[0];
      if |s| < |pat| {
        assert |b| < |pat| && Replace(b, pat, rep) == b;
      } else {
        assert s[..|pat|][0] == a[0] != pat[0];
        assert Replace(s, pat, rep) == [a[0]] + Replace(s[1..], pat, rep);
        assert s[1..] == a[1..] + b;
        ReplaceSkips(a[1..], b, pat, rep);
        assert [a[0]] + (a[1..] + Replace(b, pat, rep)) == a + Replace(b, pat, rep);
      }
    }
  }

  lemma ReplaceLeading(pat: string, b: string, rep: string)
    requires |pat| > 0
    ensures Replace(pat + b, pat, rep) == rep + Replace(b, pat, rep)
  {
    var s := pat + b;
    assert s[..|pat|] == pat;
    assert s[|pat|..] == b;
  }

  lemma ReplaceAbsent(b: string, pat: string, rep: string)
    requires |pat| > 0 && NoChar(b, pat[0])
    ensures Replace(b, pat, rep) == b
  {
    ReplaceSkips(b, [], pat, rep);
    assert b + [] == b;
  }

  /** Text where the pattern's first character occurs once, at a place the pattern does not match, is left unchanged. */
  lemma ReplaceNearMiss(pre: string, c: char, post: string, pat: string, rep: string)
    requires |pat| > 0 && NoChar(pre, pat[0]) && NoChar(post, pat[0])
    requires !StartsWith([c] + post, pat)
    ensures Replace(pre + [c] + post, pat, rep) == pre + [c] + post
  {
    assert pre + [c] + post == pre + ([c] + post);
    ReplaceSkips(pre, [c] + post, pat, rep);
    var s := [c] + post;
    if |s| >= |pat| {
      assert s[1..] == post;
    }
    ReplaceAbsent(post, pat, rep);
  }

  /** A template holding one occurrence of the placeholder, and no other character that starts it. */
  lemma ReplaceSingle(pre: string, pat: string, post: string, rep: string)
    requires |pat| > 0 && NoChar(pre, pat[0]) && NoChar(post, pat[0])
    ensures Replace(pre + pat + post, pat, rep) == pre + rep + post
  {
    assert pre + pat + post == pre + (pat + post);
    ReplaceSkips(pre, pat + post, pat, rep);
    ReplaceLeading(pat, post, rep);
    ReplaceAbsent(post, pat, rep);
  }

  /**
   * String.Split(char[]) for a nonempty separator set: the pieces between separators,
   * empty pieces kept. (With no separators .NET splits on white space instead.)
   */
  function Split(s: string, seps: set<char>): (parts: seq<string>)
    ensures |parts| >= 1
    decreases |s|
  {
    if |s| == 0 then [""]
    else if s[0] in seps then [""] + Split(s[1..], seps)
    else
      var rest := Split(s[1..], seps);
      [[s[0]] + rest[0]] + rest[1..]
  }

  /** No piece holds a character of `cs`. */
  predicate PiecesAvoid(parts: seq<string>, cs: set<char>) {
    forall i, k :: 0 <= i < |parts| && 0 <= k < |parts[i]| ==> parts[i][k] !in cs
  }

  /** No piece of a split holds a separator. */
  lemma {:induction false} SplitPiecesClean(s: string, seps: set<char>)
    ensures PiecesAvoid(Split(s, seps), seps)
    decreases |s|
  {
    if |s| > 0 {
      SplitPiecesClean(s[1..], seps);
      var rest := Split(s[1..], seps);
      var parts := Split(s, seps);
      assert PiecesAvoid(rest, seps);
      forall i, k | 0 <= i < |parts| && 0 <= k < |parts[i]| ensures parts[i][k] !in seps {
        if s[0] in seps {
          assert parts == [""] + rest;
          assert parts[i] == rest[i - 1];
          assert rest[i - 1][k] !in seps;
        } else if i == 0 {
          assert parts[0] == [s[0]] + rest[0];
          if k > 0 {
            assert parts[0][k] == rest[0][k - 1] && rest[0][k - 1] !in seps;
          }
        } else {
          assert parts == [[s[0]] + rest[0]] + rest[1..];
          assert parts[i] == rest[i];
          assert rest[i][k] !in seps;
        }
      }
    }
  }

  /** String.Join(sep, parts). */
  function Join(sep: string, parts: seq<string>): (r: string)
    ensures |parts| > 0 ==> |parts[0]| <= |r| && r[..|parts[0]|] == parts[0]
  {
    if |parts| == 0 then ""
    else if |parts| == 1 then parts[0]
    else parts[0] + sep + Join(sep, parts[1..])
  }

  /** Joining a piece in front of a nonempty list puts the separator between them. */
  lemma JoinCons(sep: string, x: string, rest: seq<string>)
    requires |rest| > 0
    ensures Join(sep, [x] + rest) == x + sep + Join(sep, rest)
  {
    assert ([x] + rest)[1..] == rest;
  }

  /** Replace every character of `s` that is in `cs` by `sub`, keeping the others. */
  function MapChars(s: string, cs: set<char>, sub: char): (r: string) {
    seq(|s|, k requires 0 <= k < |s| => if s[k] in cs then sub else s[k])
  }

  /** Joining the pieces of a split with a one-character separator replaces each separator by it. */
  lemma {:induction false} JoinSplit(s: string, seps: set<char>, c: char)
    ensures Join([c], Split(s, seps)) == MapChars(s, seps, c)
    decreases |s|
  {
    if |s| > 0 {
      var rest := Split(s[1..], seps);
      JoinSplit(s[1..], seps, c);
      var m := MapChars(s[1..], seps, c);
      assert MapChars(s, seps, c) == [if s[0] in seps then c else s[0]] + m;
      if s[0] in seps {
        assert Split(s, seps) == [""] + rest;
      } else {
        var parts := [[s[0]] + rest[0]] + rest[1..];
        if |rest| == 1 {
          assert Join([c], parts) == [s[0]] + rest[0];
        } else {
          assert parts[1..] == rest[1..];
          assert Join([c], rest) == rest[0] + [c] + Join([c], rest[1..]);
        }
      }
    }
  }
}
