/** Key patterns: `*` stands for any string, everything else for itself. */
module Glob {
  import opened Model

  /** What a pattern means. */
  ghost predicate Matches(p: string, t: string)
    decreases |p|
  {
    if p == "" then t == ""
    else if p[0] == '*' then exists k :: 0 <= k <= |t| && Matches(p[1..], t[k..])
    else t != "" && t[0] == p[0] && Matches(p[1..], t[1..])
  }

  /** One backtracking point: the pattern position of the last star and where in the
      text its match currently ends. */
  predicate InRange(p: string, t: string, pi: nat, ti: nat, star: Option<nat>, from: nat) {
    pi <= |p| && from <= ti <= |t| && (star.Some? ==> star.value < pi)
  }

  predicate AllStars(p: string) { forall i :: 0 <= i < |p| ==> p[i] == '*' }

  /** The matcher from a given state on. */
  function Run(p: string, t: string, pi: nat, ti: nat, star: Option<nat>, from: nat): bool
    requires InRange(p, t, pi, ti, star, from)
    decreases |t| - from, |p| - pi
  {
    if ti == |t| then AllStars(p[pi..])
    else if pi < |p| && p[pi] == t[ti] then Run(p, t, pi + 1, ti + 1, star, from)
    else if pi < |p| && p[pi] == '*' then Run(p, t, pi + 1, ti, Some(pi), ti)
    else if star.Some? then Run(p, t, star.value + 1, from + 1, star, from + 1)
    else false
  }

  function Glob(p: string, t: string): bool { Run(p, t, 0, 0, None, 0) }

  method GlobMatch(p: string, t: string) returns (r: bool)
    ensures r == Glob(p, t)
  {
    var pi: nat, ti: nat, from: nat := 0, 0, 0;
    var star: Option<nat> := None;
    while ti < |t|
      invariant InRange(p, t, pi, ti, star, from) && Run(p, t, pi, ti, star, from) == Glob(p, t)
      decreases |t| - from, |p| - pi
    {
      if pi < |p| && p[pi] == t[ti] {
        pi, ti := pi + 1, ti + 1;
      } else if pi < |p| && p[pi] == '*' {
        star, from := Some(pi), ti;
        pi := pi + 1;
      } else if star.Some? {
        pi, from := star.value + 1, from + 1;
        ti := from;
      } else {
        return false;
      }
    }
    ghost var rest := p[pi..];
    ghost var start := pi;
    while pi < |p| && p[pi] == '*'
      invariant start <= pi <= |p|
      invariant forall i :: start <= i < pi ==> p[i] == '*'
    {
      pi := pi + 1;
    }
    assert AllStars(rest) <==> pi == |p| by {
      if pi < |p| {
        assert rest[pi - start] != '*';
      }
    }
    r := pi == |p|;
  }

  // ---- Literal pieces of a pattern ----

  lemma {:induction false} LiteralPrefix(piece: string, q: string, t: string)
    requires '*' !in piece
    ensures Matches(piece + q, t) <==> |piece| <= |t| && t[..|piece|] == piece && Matches(q, t[|piece|..])
  {
    if piece == "" {
      assert piece + q == q && t[0..] == t;
    } else {
      var first, others := piece[0], piece[1..];
      assert first in piece;
      assert (piece + q)[1..] == others + q;
      if t != "" && t[0] == first {
        LiteralPrefix(others, q, t[1..]);
        assert |piece| <= |t| ==> t[1..][..|others|] == t[..|piece|][1..];
        assert |piece| <= |t| ==> t[1..][|others|..] == t[|piece|..];
        assert piece == [first] + others;
        assert |piece| <= |t| ==> t[..|piece|] == [t[0]] + t[..|piece|][1..];
      } else if |piece| <= |t| {
        assert t[..|piece|][0] == t[0];
      }
    }
  }

  lemma {:induction false} MatchesEmpty(p: string)
    ensures Matches(p, "") <==> AllStars(p)
  {
    if p != "" {
      MatchesEmpty(p[1..]);
      assert AllStars(p) <==> p[0] == '*' && AllStars(p[1..]) by {
        assert p == [p[0]] + p[1..];
      }
      assert ""[0..] == "";
    }
  }

  /** Nothing but stars matches a text that is a single star. */
  lemma {:induction false} MatchesStar(p: string)
    requires Matches(p, "*")
    ensures AllStars(p)
  {
    if p != "" && p[0] == '*' {
      var k :| 0 <= k <= 1 && Matches(p[1..], "*"[k..]);
      if k == 0 {
        assert "*"[0..] == "*";
        MatchesStar(p[1..]);
      } else {
        assert "*"[1..] == "";
        MatchesEmpty(p[1..]);
      }
      assert p == [p[0]] + p[1..];
    }
  }

  // ---- The matcher against the meaning ----

  /** A star stands nowhere in the text except possibly at its end. */
  predicate NoInnerStar(t: string) { forall i :: 0 <= i < |t| - 1 ==> t[i] != '*' }

  /** Some later end for the last star still leads to a match. */
  ghost predicate Later(p: string, t: string, star: Option<nat>, from: nat)
    requires star.Some? ==> star.value < |p|
  {
    star.Some? && exists k :: from < k <= |t| && Matches(p[star.value + 1..], t[k..])
  }

  /** The piece of the pattern behind the last star has matched the text literally. */
  predicate Aligned(p: string, t: string, pi: nat, ti: nat, star: Option<nat>, from: nat)
    requires InRange(p, t, pi, ti, star, from)
  {
    star.Some? ==> pi - (star.value + 1) == ti - from && p[star.value + 1..pi] == t[from..ti]
  }

  /** At the end of the text no later end for the last star can do better. */
  lemma EndIsFinal(p: string, t: string, pi: nat, star: Option<nat>, from: nat)
    requires InRange(p, t, pi, |t|, star, from) && Aligned(p, t, pi, |t|, star, from) && NoInnerStar(t)
    requires Later(p, t, star, from)
    ensures Matches(p[pi..], "")
  {
    var s := star.value + 1;
    var piece, q := p[s..pi], p[pi..];
    var k :| from < k <= |t| && Matches(p[s..], t[k..]);
    assert p[s..] == piece + q;
    if '*' !in piece {
      LiteralPrefix(piece, q, t[k..]);
    } else {
      var n := |piece| - 1;
      var front := piece[..n];
      forall i | 0 <= i < n ensures front[i] != '*' {
        assert front[i] == t[from..][i] == t[from + i];
      }
      assert piece[n] == '*' && piece == front + "*";
      assert piece + q == front + ("*" + q);
      LiteralPrefix(front, "*" + q, t[k..]);
      assert t[from..|t|][n] == '*';
      assert n == 0;
      assert t[k..] == "" && ("*" + q)[1..] == q && ""[0..] == "";
    }
  }

  /** A later end for an earlier star is also an end for the star met now. */
  lemma NewStarSuffices(p: string, t: string, pi: nat, ti: nat, star: Option<nat>, from: nat)
    requires InRange(p, t, pi, ti, star, from) && Aligned(p, t, pi, ti, star, from) && NoInnerStar(t)
    requires ti < |t| && pi < |p| && p[pi] == '*' && Later(p, t, star, from)
    ensures Matches(p[pi..], t[ti..])
  {
    var s := star.value + 1;
    var piece, q := p[s..pi], p[pi..];
    var k :| from < k <= |t| && Matches(p[s..], t[k..]);
    assert p[s..] == piece + q;
    assert '*' !in piece by {
      assert forall i | 0 <= i < |piece| :: piece[i] == t[from..ti][i] == t[from + i];
    }
    LiteralPrefix(piece, q, t[k..]);
    var n := |piece|;
    assert t[k..][n..] == t[k + n..];
    var j :| 0 <= j <= |t[k + n..]| && Matches(q[1..], t[k + n..][j..]);
    assert t[k + n..][j..] == t[ti..][k + n + j - ti..];
  }

  /** Matching a star against the rest of the text, split at its first end. */
  lemma StarSplits(p: string, t: string, pi: nat, ti: nat)
    requires pi < |p| && p[pi] == '*' && ti <= |t|
    ensures Matches(p[pi..], t[ti..]) <==> Matches(p[pi + 1..], t[ti..]) || Later(p, t, Some(pi), ti)
  {
    var q := p[pi..];
    assert q[1..] == p[pi + 1..];
    if Matches(q, t[ti..]) {
      var k :| 0 <= k <= |t[ti..]| && Matches(q[1..], t[ti..][k..]);
      assert t[ti..][k..] == t[ti + k..];
    }
    if Matches(p[pi + 1..], t[ti..]) {
      assert t[ti..][0..] == t[ti..];
    }
    if Later(p, t, Some(pi), ti) {
      var k :| ti < k <= |t| && Matches(p[pi + 1..], t[k..]);
      assert t[ti..][k - ti..] == t[k..];
    }
  }

  lemma LaterSplits(p: string, t: string, star: nat, from: nat)
    requires star < |p| && from < |t|
    ensures Later(p, t, Some(star), from) <==> Matches(p[star + 1..], t[from + 1..]) || Later(p, t, Some(star), from + 1)
  {
  }

  /** A star in the pattern that meets the star at the end of the text. */
  lemma LastStar(p: string, t: string, pi: nat)
    requires pi < |p| && t != "" && p[pi] == '*' == t[|t| - 1]
    ensures Matches(p[pi..], t[|t| - 1..]) <==> Matches(p[pi + 1..], t[|t|..])
  {
    assert t[|t| - 1..] == "*" && t[|t|..] == "";
    StarSplits(p, t, pi, |t| - 1);
    if Matches(p[pi + 1..], "*") {
      MatchesStar(p[pi + 1..]);
      MatchesEmpty(p[pi + 1..]);
    }
    if Matches(p[pi + 1..], "") {
      assert t[|t|..] == "";
    }
  }

  lemma AlignedNext(p: string, t: string, pi: nat, ti: nat, star: Option<nat>, from: nat)
    requires InRange(p, t, pi, ti, star, from) && Aligned(p, t, pi, ti, star, from)
    requires pi < |p| && ti < |t| && p[pi] == t[ti]
    ensures Aligned(p, t, pi + 1, ti + 1, star, from)
  {
    if star.Some? {
      var s := star.value + 1;
      assert p[s..pi + 1] == p[s..pi] + [p[pi]];
      assert t[from..ti + 1] == t[from..ti] + [t[ti]];
    }
  }

  /** Equal characters may be dropped, even when the character is a star. */
  lemma LiteralStep(p: string, t: string, pi: nat, ti: nat)
    requires pi < |p| && ti < |t| && p[pi] == t[ti] && NoInnerStar(t)
    ensures Matches(p[pi..], t[ti..]) <==> Matches(p[pi + 1..], t[ti + 1..])
  {
    if p[pi] == '*' {
      assert ti == |t| - 1;
      LastStar(p, t, pi);
    } else {
      assert p[pi..][1..] == p[pi + 1..] && t[ti..][1..] == t[ti + 1..];
    }
  }

  /** From every state the matcher reaches: it succeeds exactly when the rest
      matches here or the last star can end later. */
  lemma {:induction false} RunIs(p: string, t: string, pi: nat, ti: nat, star: Option<nat>, from: nat)
    requires InRange(p, t, pi, ti, star, from) && Aligned(p, t, pi, ti, star, from) && NoInnerStar(t)
    ensures Run(p, t, pi, ti, star, from) <==> Matches(p[pi..], t[ti..]) || Later(p, t, star, from)
    decreases |t| - from, |p| - pi
  {
    var pn, tn := pi + 1, ti + 1;
    if ti == |t| {
      MatchesEmpty(p[pi..]);
      if Later(p, t, star, from) {
        EndIsFinal(p, t, pi, star, from);
      }
    } else if pi < |p| && p[pi] == t[ti] {
      AlignedNext(p, t, pi, ti, star, from);
      RunIs(p, t, pn, tn, star, from);
      LiteralStep(p, t, pi, ti);
    } else if pi < |p| && p[pi] == '*' {
      RunIs(p, t, pn, ti, Some(pi), ti);
      StarSplits(p, t, pi, ti);
      if Later(p, t, star, from) {
        NewStarSuffices(p, t, pi, ti, star, from);
      }
    } else if star.Some? {
      var sn, fn := star.value + 1, from + 1;
      RunIs(p, t, sn, fn, star, fn);
      LaterSplits(p, t, star.value, from);
    }
  }

  // ---- Exactly which texts are matched faithfully ----

  /** A star inside the text is taken by the star of the pattern as an ordinary
      character, and the rest of the text is left over. */
  lemma {:induction false} InnerStarFails(x: string, y: string, i: nat)
    requires '*' !in x && y != "" && i <= |x| + 1
    ensures !Run(x + "*", x + "*" + y, i, i, None, 0)
    decreases |x| + 1 - i
  {
    var p, t := x + "*", x + "*" + y;
    if i <= |x| {
      assert p[i] == t[i];
      InnerStarFails(x, y, i + 1);
    }
  }

  lemma InnerStarMatches(x: string, y: string)
    requires '*' !in x
    ensures Matches(x + "*", x + "*" + y)
  {
    var t := x + "*" + y;
    LiteralPrefix(x, "*", t);
    assert t[..|x|] == x;
    var rest := t[|x|..];
    assert "*"[1..] == "" && rest[|rest|..] == "";
    assert Matches("*"[1..], rest[|rest|..]);
  }

  lemma FirstInnerStar(t: string) returns (i: nat)
    requires !NoInnerStar(t)
    ensures i < |t| - 1 && t[i] == '*' && '*' !in t[..i]
  {
    i := 0;
    while t[i] != '*'
      invariant i < |t| - 1 && '*' !in t[..i]
      invariant exists j :: i <= j < |t| - 1 && t[j] == '*'
      decreases |t| - i
    {
      assert t[..i + 1] == t[..i] + [t[i]];
      i := i + 1;
    }
  }

  /** For every text: the matcher agrees with the meaning on all patterns exactly
      when the text has no star before its last character. */
  lemma GlobIsExactIff(t: string)
    ensures (forall p :: Glob(p, t) == Matches(p, t)) <==> NoInnerStar(t)
  {
    if NoInnerStar(t) {
      forall p ensures Glob(p, t) == Matches(p, t) {
        RunIs(p, t, 0, 0, None, 0);
        assert p[0..] == p && t[0..] == t;
      }
    } else {
      var i := FirstInnerStar(t);
      var x, y := t[..i], t[i + 1..];
      assert t == x + "*" + y;
      InnerStarFails(x, y, 0);
      InnerStarMatches(x, y);
      var p := x + "*";
      assert Glob(p, t) != Matches(p, t);
    }
  }
}
