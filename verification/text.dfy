/**
 * Python's `str.replace(old, new)`, `str.split(sep)` and `sep.join(pieces)` on strings.
 * `Replace` scans left to right and replaces every non-overlapping occurrence of the
 * pattern; `Split` cuts at exactly the same occurrences, so the two are tied together
 * by `ReplaceIsJoinOfSplit`.
 */
module Text {

  /** No occurrence of `pat` starts anywhere in `s`. */
  predicate Free(s: string, pat: string) {
    forall k :: 0 <= k < |s| ==> !(pat <= s[k..])
  }

  /**
   * No suffix of `p` can begin an occurrence of `pat`, whatever text follows `p`:
   * a suffix neither holds `pat` as a prefix nor is itself a prefix of `pat`.
   */
  predicate Isolated(p: string, pat: string) {
    forall k :: 0 <= k < |p| ==> !(pat <= p[k..]) && !(p[k..] <= pat)
  }

  /** `s.replace(pat, rep)`: every non-overlapping occurrence, leftmost first. */
  function Replace(s: string, pat: string, rep: string): string
    requires pat != []
    decreases |s|
  {
    if s == [] then []
    else if pat <= s then rep + Replace(s[|pat|..], pat, rep)
    else [s[0]] + Replace(s[1..], pat, rep)
  }

  /** `s.split(pat)`: the text between consecutive occurrences; never an empty list. */
  function Split(s: string, pat: string): (pieces: seq<string>)
    requires pat != []
    ensures |pieces| >= 1
    decreases |s|
  {
    if s == [] then [[]]
    else if pat <= s then [[]] + Split(s[|pat|..], pat)
    else
      var rest := Split(s[1..], pat);
      [[s[0]] + rest[0]] + rest[1..]
  }

  /** `sep.join(pieces)`. */
  function Join(pieces: seq<string>, sep: string): string
    requires |pieces| >= 1
    decreases |pieces|
  {
    if |pieces| == 1 then pieces[0] else pieces[0] + sep + Join(pieces[1..], sep)
  }

  lemma JoinConsHead(c: char, pieces: seq<string>, sep: string)
    requires |pieces| >= 1
    ensures Join([[c] + pieces[0]] + pieces[1..], sep) == [c] + Join(pieces, sep)
  {
  }

  /** Replacing is splitting at the occurrences and joining with the replacement. */
  lemma {:induction false} ReplaceIsJoinOfSplit(s: string, pat: string, rep: string)
    requires pat != []
    ensures Replace(s, pat, rep) == Join(Split(s, pat), rep)
    decreases |s|
  {
    if s == [] {
    } else if pat <= s {
      ReplaceIsJoinOfSplit(s[|pat|..], pat, rep);
      var rest := Split(s[|pat|..], pat);
      assert ([[]] + rest)[1..] == rest;
    } else {
      ReplaceIsJoinOfSplit(s[1..], pat, rep);
      JoinConsHead(s[0], Split(s[1..], pat), rep);
    }
  }

  /** Replacing a pattern by itself gives the text back. */
  lemma {:induction false} ReplaceBySelf(s: string, pat: string)
    requires pat != []
    ensures Replace(s, pat, pat) == s
    decreases |s|
  {
    if s == [] {
    } else if pat <= s {
      ReplaceBySelf(s[|pat|..], pat);
      assert s == pat + s[|pat|..];
    } else {
      ReplaceBySelf(s[1..], pat);
      assert s == [s[0]] + s[1..];
    }
  }

  /** Joining the pieces of a split with the separator gives the text back. */
  lemma {:induction false} SplitJoinRoundTrip(s: string, pat: string)
    requires pat != []
    ensures Join(Split(s, pat), pat) == s
  {
    ReplaceBySelf(s, pat);
    ReplaceIsJoinOfSplit(s, pat, pat);
  }

  /**
   * The first piece of a split is a prefix of the text, and no piece contains the
   * pattern: every occurrence was cut out.
   */
  lemma {:induction false} SplitPiecesFree(s: string, pat: string)
    requires pat != []
    ensures Split(s, pat)[0] <= s
    ensures forall i :: 0 <= i < |Split(s, pat)| ==> Free(Split(s, pat)[i], pat)
    decreases |s|
  {
    var pieces := Split(s, pat);
    if s == [] {
    } else if pat <= s {
      var rest := Split(s[|pat|..], pat);
      SplitPiecesFree(s[|pat|..], pat);
      assert pieces == [[]] + rest;
      forall i | 0 <= i < |pieces|
        ensures Free(pieces[i], pat)
      {
        if i > 0 {
          assert pieces[i] == rest[i - 1];
        }
      }
    } else {
      var rest := Split(s[1..], pat);
      SplitPiecesFree(s[1..], pat);
      var head := [s[0]] + rest[0];
      assert pieces == [head] + rest[1..];
      assert head <= s;
      forall k | 0 <= k < |head|
        ensures !(pat <= head[k..])
      {
        if k == 0 {
          PrefixOfPrefix(pat, head, s);
        } else {
          assert head[k..] == rest[0][k - 1..];
        }
      }
      forall i | 0 <= i < |pieces|
        ensures Free(pieces[i], pat)
      {
        if i > 0 {
          assert pieces[i] == rest[i];
        }
      }
    }
  }

  /** Where piece `i` of a split begins in the text the pieces were cut from. */
  function PieceStart(pieces: seq<string>, i: nat, sep: string): nat
    requires i < |pieces|
    decreases i
  {
    if i == 0 then 0 else |pieces[0]| + |sep| + PieceStart(pieces[1..], i - 1, sep)
  }

  /** No occurrence of `pat` starts in `s` at any position from `from` up to (not including) `to`. */
  predicate NoMatchBetween(s: string, pat: string, from: nat, to: nat) {
    to <= |s| && forall p :: from <= p < to ==> !(pat <= s[p..])
  }

  /** A stretch without a match in a suffix of `s` is one in `s`, shifted by the suffix's offset. */
  lemma ShiftNoMatch(s: string, off: nat, pat: string, from: nat, to: nat)
    requires off <= |s| && NoMatchBetween(s[off..], pat, from, to)
    ensures NoMatchBetween(s, pat, off + from, off + to)
  {
    forall p | off + from <= p < off + to
      ensures !(pat <= s[p..])
    {
      assert s[p..] == s[off..][p - off..];
    }
  }

  /** Two adjacent stretches without a match make one. */
  lemma ConcatNoMatch(s: string, pat: string, a: nat, b: nat, c: nat)
    requires a <= b && NoMatchBetween(s, pat, a, b) && NoMatchBetween(s, pat, b, c)
    ensures NoMatchBetween(s, pat, a, c)
  {
  }

  /** Every piece of `pieces`, placed in `s`, is a stretch where no occurrence of `pat` starts. */
  predicate CutsLeftmost(s: string, pat: string, pieces: seq<string>) {
    forall i :: 0 <= i < |pieces| ==>
      NoMatchBetween(s, pat, PieceStart(pieces, i, pat), PieceStart(pieces, i, pat) + |pieces[i]|)
  }

  lemma CutsAfterMatch(s: string, pat: string, rest: seq<string>)
    requires pat <= s && CutsLeftmost(s[|pat|..], pat, rest)
    ensures CutsLeftmost(s, pat, [[]] + rest)
  {
    var pieces := [[]] + rest;
    assert pieces[1..] == rest;
    forall i | 0 < i < |pieces|
      ensures NoMatchBetween(s, pat, PieceStart(pieces, i, pat), PieceStart(pieces, i, pat) + |pieces[i]|)
    {
      assert pieces[i] == rest[i - 1];
      var start := PieceStart(rest, i - 1, pat);
      ShiftNoMatch(s, |pat|, pat, start, start + |rest[i - 1]|);
    }
  }

  lemma CutsAfterChar(s: string, pat: string, rest: seq<string>)
    requires s != [] && !(pat <= s) && |rest| >= 1 && CutsLeftmost(s[1..], pat, rest)
    ensures CutsLeftmost(s, pat, [[s[0]] + rest[0]] + rest[1..])
  {
    var head := [s[0]] + rest[0];
    var pieces := [head] + rest[1..];
    assert pieces[1..] == rest[1..];
    assert PieceStart(rest, 0, pat) == 0;
    ShiftNoMatch(s, 1, pat, 0, |rest[0]|);
    assert NoMatchBetween(s, pat, 0, 1) by { assert s[0..] == s; }
    ConcatNoMatch(s, pat, 0, 1, |head|);
    forall i | 0 < i < |pieces|
      ensures NoMatchBetween(s, pat, PieceStart(pieces, i, pat), PieceStart(pieces, i, pat) + |pieces[i]|)
    {
      assert pieces[i] == rest[i];
      var start := PieceStart(rest, i, pat);
      assert PieceStart(pieces, i, pat) == 1 + start;
      ShiftNoMatch(s, 1, pat, start, start + |rest[i]|);
    }
  }

  /**
   * No occurrence of the pattern starts inside any piece, at that piece's position in
   * the text: the split cuts at the leftmost occurrence each time.
   */
  lemma {:induction false} SplitCutsLeftmost(s: string, pat: string)
    requires pat != []
    ensures CutsLeftmost(s, pat, Split(s, pat))
    decreases |s|
  {
    if s == [] {
      assert Split(s, pat) == [[]];
    } else if pat <= s {
      SplitCutsLeftmost(s[|pat|..], pat);
      CutsAfterMatch(s, pat, Split(s[|pat|..], pat));
    } else {
      SplitCutsLeftmost(s[1..], pat);
      CutsAfterChar(s, pat, Split(s[1..], pat));
    }
  }

  /** The converse of `ShiftNoMatch`: a stretch without a match in `s` is one in a suffix. */
  lemma UnshiftNoMatch(s: string, off: nat, pat: string, from: nat, to: nat)
    requires off <= |s| && NoMatchBetween(s, pat, off + from, off + to)
    ensures NoMatchBetween(s[off..], pat, from, to)
  {
    forall p | from <= p < to
      ensures !(pat <= s[off..][p..])
    {
      assert s[off..][p..] == s[off + p..];
    }
  }

  /** Leftmost cuts that begin with an empty piece continue as leftmost cuts after the separator. */
  lemma CutsDropMatch(s: string, pat: string, rest: seq<string>)
    requires |pat| <= |s| && |rest| >= 1 && CutsLeftmost(s, pat, [[]] + rest)
    ensures CutsLeftmost(s[|pat|..], pat, rest)
  {
    var pieces := [[]] + rest;
    assert pieces[1..] == rest;
    forall i | 0 <= i < |rest|
      ensures NoMatchBetween(s[|pat|..], pat, PieceStart(rest, i, pat), PieceStart(rest, i, pat) + |rest[i]|)
    {
      assert pieces[i + 1] == rest[i];
      var start := PieceStart(rest, i, pat);
      assert PieceStart(pieces, i + 1, pat) == |pat| + start;
      UnshiftNoMatch(s, |pat|, pat, start, start + |rest[i]|);
    }
  }

  /** Leftmost cuts whose first piece is not empty remain leftmost cuts once its first character is dropped. */
  lemma CutsDropChar(s: string, pat: string, pieces: seq<string>)
    requires |pieces| >= 1 && pieces[0] != [] && CutsLeftmost(s, pat, pieces)
    ensures s != [] && CutsLeftmost(s[1..], pat, [pieces[0][1..]] + pieces[1..])
  {
    var head := pieces[0];
    var shorter := [head[1..]] + pieces[1..];
    assert NoMatchBetween(s, pat, 0, |head|);
    assert NoMatchBetween(s, pat, 1, |head|);
    UnshiftNoMatch(s, 1, pat, 0, |head| - 1);
    assert shorter[1..] == pieces[1..];
    forall i | 0 < i < |shorter|
      ensures NoMatchBetween(s[1..], pat, PieceStart(shorter, i, pat), PieceStart(shorter, i, pat) + |shorter[i]|)
    {
      assert shorter[i] == pieces[i];
      var start := PieceStart(shorter, i, pat);
      assert PieceStart(pieces, i, pat) == 1 + start;
      UnshiftNoMatch(s, 1, pat, start, start + |pieces[i]|);
    }
  }

  /**
   * The split is the only list of pieces that joins back to the text and cuts at the
   * leftmost occurrences: together with `SplitJoinRoundTrip` and `SplitCutsLeftmost`
   * this characterises `Split` completely.
   */
  lemma {:induction false} SplitUnique(s: string, pat: string, pieces: seq<string>)
    requires pat != [] && |pieces| >= 1
    requires Join(pieces, pat) == s && CutsLeftmost(s, pat, pieces)
    ensures pieces == Split(s, pat)
    decreases |s|
  {
    if pieces[0] == [] {
      if |pieces| > 1 {
        var rest := pieces[1..];
        assert s == pat + Join(rest, pat);
        assert s[|pat|..] == Join(rest, pat);
        assert pieces == [[]] + rest;
        CutsDropMatch(s, pat, rest);
        SplitUnique(s[|pat|..], pat, rest);
      }
    } else {
      var head := pieces[0];
      var shorter := [head[1..]] + pieces[1..];
      assert head == [head[0]] + shorter[0];
      assert pieces == [[head[0]] + shorter[0]] + shorter[1..];
      JoinConsHead(head[0], shorter, pat);
      CutsDropChar(s, pat, pieces);
      assert !(pat <= s) by {
        assert PieceStart(pieces, 0, pat) == 0;
        assert s[0..] == s;
      }
      SplitUnique(s[1..], pat, shorter);
    }
  }

  /**
   * Text `t` separates what comes before it from what comes after: no occurrence starts
   * in `t` or runs from `t` into what follows, and none that starts earlier can run into
   * `t`, because `t` begins with a character the pattern has only at its start, if at all.
   */
  predicate Separates(t: string, pat: string) {
    pat != [] && t != [] && Isolated(t, pat) && t[0] !in pat[1..]
  }

  /** An occurrence that starts in `x` and runs past its end meets `t[0]` after the pattern's first character. */
  lemma StraddleMeetsSeparator(x: string, t: string, y: string, pat: string)
    requires x != [] && t != []
    ensures pat <= x + (t + y) && |pat| > |x| ==> |pat| > 1 && t[0] in pat[1..]
  {
    if pat <= x + (t + y) && |pat| > |x| {
      assert pat[|x|] == (x + (t + y))[|x|] == t[0];
      assert pat[1..][|x| - 1] == pat[|x|];
    }
  }

  /** Replacing around a separator is replacing on each side of it. */
  lemma {:induction false} ReplaceAroundSeparator(x: string, t: string, y: string, pat: string, rep: string)
    requires Separates(t, pat)
    ensures Replace(x + (t + y), pat, rep) == Replace(x, pat, rep) + (t + Replace(y, pat, rep))
    decreases |x|
  {
    var ty := t + y;
    var s := x + ty;
    if x == [] {
      assert s == ty;
      ReplaceIsolatedPrefix(t, y, pat, rep);
    } else if pat <= s {
      StraddleMeetsSeparator(x, t, y, pat);
      assert pat <= x by { assert pat == s[..|pat|] == x[..|pat|]; }
      var x' := x[|pat|..];
      assert s[|pat|..] == x' + ty;
      ReplaceAroundSeparator(x', t, y, pat, rep);
      assert Replace(x, pat, rep) == rep + Replace(x', pat, rep);
    } else {
      PrefixOfPrefix(pat, x, s);
      assert s[1..] == x[1..] + ty;
      ReplaceAroundSeparator(x[1..], t, y, pat, rep);
      assert x[0] == s[0];
      assert Replace(x, pat, rep) == [x[0]] + Replace(x[1..], pat, rep);
    }
  }

  lemma PrefixOfPrefix(a: string, b: string, c: string)
    ensures a <= b && b <= c ==> a <= c
  {
  }

  lemma PrefixOfConcat(pat: string, p: string, b: string)
    ensures pat <= p + b ==> pat <= p || p <= pat
  {
  }

  /** A text without the pattern is left unchanged. */
  lemma {:induction false} ReplaceFreeUnchanged(s: string, pat: string, rep: string)
    requires pat != [] && Free(s, pat)
    ensures Replace(s, pat, rep) == s
    decreases |s|
  {
    if s != [] {
      assert s[0..] == s;
      forall k | 0 <= k < |s[1..]|
        ensures !(pat <= s[1..][k..])
      {
        assert s[1..][k..] == s[k + 1..];
      }
      ReplaceFreeUnchanged(s[1..], pat, rep);
      assert s == [s[0]] + s[1..];
    }
  }

  /** An isolated prefix is copied through, and the rest is replaced on its own. */
  lemma {:induction false} ReplaceIsolatedPrefix(p: string, b: string, pat: string, rep: string)
    requires pat != [] && Isolated(p, pat)
    ensures Replace(p + b, pat, rep) == p + Replace(b, pat, rep)
    decreases |p|
  {
    if p == [] {
      assert p + b == b;
    } else {
      var s := p + b;
      assert p[0..] == p;
      PrefixOfConcat(pat, p, b);
      assert !(pat <= s);
      forall k | 0 <= k < |p[1..]|
        ensures !(pat <= p[1..][k..]) && !(p[1..][k..] <= pat)
      {
        assert p[1..][k..] == p[k + 1..];
      }
      ReplaceIsolatedPrefix(p[1..], b, pat, rep);
      assert s[1..] == p[1..] + b;
      assert s[0] == p[0];
      calc {
        Replace(s, pat, rep);
        [p[0]] + Replace(p[1..] + b, pat, rep);
        [p[0]] + (p[1..] + Replace(b, pat, rep));
        ([p[0]] + p[1..]) + Replace(b, pat, rep);
        { assert [p[0]] + p[1..] == p; }
        p + Replace(b, pat, rep);
      }
    }
  }

  /** A text with no `{` is isolated from any pattern that starts with `{`. */
  lemma BraceFreeIsolated(p: string, pat: string)
    requires pat != [] && pat[0] == '{' && '{' !in p
    ensures Isolated(p, pat)
  {
  }
}
