/** The target-pattern matcher (tunnel/server.go, wildcardMatch): an iterative glob with '*' and '?' that
    backtracks only to the last star, against the declarative meaning of such patterns. */
module Glob {

  /** The declarative meaning: '*' stands for any string, '?' for any one character, every other character
      for itself. */
  predicate Matches(p: string, s: string)
    decreases |p| + |s|
  {
    if p == "" then s == ""
    else if p[0] == '*' then Matches(p[1..], s) || (s != "" && Matches(p, s[1..]))
    else s != "" && (p[0] == '?' || p[0] == s[0]) && Matches(p[1..], s[1..])
  }

  // ---- the loop as a function of its four variables ----

  predicate Literal(p: string, pi: nat, s: string, si: nat)
    requires pi <= |p| && si < |s|
  {
    pi < |p| && (p[pi] == '?' || p[pi] == s[si])
  }

  predicate AtStar(p: string, pi: nat)
    requires pi <= |p|
  {
    pi < |p| && p[pi] == '*'
  }

  /** The star is -1 or a position before pi that holds '*', met no later than the current character. */
  predicate Position(p: string, s: string, si: nat, pi: nat, star: int, starSi: nat) {
    && si <= |s| && pi <= |p|
    && -1 <= star < pi
    && (star >= 0 ==> p[star] == '*' && starSi <= si)
  }

  predicate OnlyStars(p: string, pi: nat)
    requires pi <= |p|
  {
    forall i | pi <= i < |p| :: p[i] == '*'
  }

  /** What the loop answers from a position on. */
  predicate Loop(p: string, s: string, si: nat, pi: nat, star: int, starSi: nat)
    requires Position(p, s, si, pi, star, starSi)
    decreases |p| - star, |s| - starSi, |p| - pi
  {
    if si == |s| then OnlyStars(p, pi)
    else if Literal(p, pi, s, si) then Loop(p, s, si + 1, pi + 1, star, starSi)
    else if AtStar(p, pi) then Loop(p, s, si, pi + 1, pi, si)
    else if star >= 0 then Loop(p, s, starSi + 1, star + 1, star, starSi + 1)
    else false
  }

  method WildcardMatch(pattern: string, s: string) returns (matched: bool)
    ensures matched == Loop(pattern, s, 0, 0, -1, 0)
  {
    var si, pi := 0, 0;
    var star := -1;
    var starSi := 0;
    while si < |s|
      invariant 0 <= si && 0 <= pi && 0 <= starSi
      invariant Position(pattern, s, si, pi, star, starSi)
      invariant Loop(pattern, s, si, pi, star, starSi) == Loop(pattern, s, 0, 0, -1, 0)
      decreases |pattern| - star, |s| - starSi, |pattern| - pi
    {
      if pi < |pattern| && (pattern[pi] == '?' || pattern[pi] == s[si]) {
        si := si + 1;
        pi := pi + 1;
        continue;
      }
      if pi < |pattern| && pattern[pi] == '*' {
        star := pi;
        starSi := si;
        pi := pi + 1;
        continue;
      }
      if star >= 0 {
        pi := star + 1;
        starSi := starSi + 1;
        si := starSi;
        continue;
      }
      return false;
    }
    ghost var trailing := pi;
    while pi < |pattern| && pattern[pi] == '*'
      invariant trailing <= pi <= |pattern|
      invariant forall i | trailing <= i < pi :: pattern[i] == '*'
    {
      pi := pi + 1;
    }
    return pi == |pattern|;
  }

  // ---- facts about the meaning ----

  /** The meaning from a position on. */
  predicate From(p: string, s: string, pi: nat, si: nat)
    requires pi <= |p| && si <= |s|
  {
    Matches(p[pi..], s[si..])
  }

  lemma FromStep(p: string, s: string, pi: nat, si: nat)
    requires pi < |p| && si <= |s|
    ensures p[pi] == '*' ==>
              (From(p, s, pi, si) <==> From(p, s, pi + 1, si) || (si < |s| && From(p, s, pi, si + 1)))
    ensures p[pi] != '*' ==>
              (From(p, s, pi, si) <==> si < |s| && (p[pi] == '?' || p[pi] == s[si]) && From(p, s, pi + 1, si + 1))
  {
    assert p[pi..][1..] == p[pi + 1..];
    if si < |s| {
      assert s[si..][1..] == s[si + 1..];
    }
  }

  /** A star matches from si if what follows it matches from some later position. */
  lemma {:induction false} StarSkips(p: string, s: string, pi: nat, si: nat, k: nat)
    requires pi < |p| && p[pi] == '*' && si <= k <= |s|
    requires From(p, s, pi, k)
    ensures From(p, s, pi, si)
    decreases k - si
  {
    if si < k {
      StarSkips(p, s, pi, si + 1, k);
      FromStep(p, s, pi, si);
    }
  }

  /** At the end of the subject only stars match. */
  lemma {:induction false} EndMatches(p: string, s: string, pi: nat)
    requires pi <= |p|
    ensures From(p, s, pi, |s|) <==> OnlyStars(p, pi)
    decreases |p| - pi
  {
    if pi < |p| {
      FromStep(p, s, pi, |s|);
      EndMatches(p, s, pi + 1);
    } else {
      assert p[pi..] == "" && s[|s|..] == "";
    }
  }

  // ---- a true answer is right, for every subject ----

  /** Whatever the last star is, the loop's answer is justified by the current position or by the star. */
  lemma {:induction false} LoopSound(p: string, s: string, si: nat, pi: nat, star: int, starSi: nat)
    requires Position(p, s, si, pi, star, starSi)
    requires Loop(p, s, si, pi, star, starSi)
    ensures From(p, s, pi, si) || (star >= 0 && From(p, s, star, starSi))
    decreases |p| - star, |s| - starSi, |p| - pi
  {
    if si == |s| {
      EndMatches(p, s, pi);
    } else if Literal(p, pi, s, si) {
      LoopSound(p, s, si + 1, pi + 1, star, starSi);
      FromStep(p, s, pi, si);
      if p[pi] == '*' && From(p, s, pi + 1, si + 1) {
        FromStep(p, s, pi, si + 1);
      }
    } else if AtStar(p, pi) {
      LoopSound(p, s, si, pi + 1, pi, si);
      FromStep(p, s, pi, si);
    } else if star >= 0 {
      LoopSound(p, s, starSi + 1, star + 1, star, starSi + 1);
      FromStep(p, s, star, starSi);
      FromStep(p, s, star, starSi + 1);
    }
  }

  /** Soundness: what the matcher accepts, the pattern means. */
  lemma AcceptsOnlyMatches(p: string, s: string)
    requires Loop(p, s, 0, 0, -1, 0)
    ensures Matches(p, s)
  {
    LoopSound(p, s, 0, 0, -1, 0);
    assert p[0..] == p && s[0..] == s;
  }

  // ---- a false answer is right, for every subject without '*' ----

  /** The pattern between the last star and pi has no star and matches the subject from starSi to si. */
  predicate Block(p: string, s: string, si: nat, pi: nat, star: int, starSi: nat) {
    && Position(p, s, si, pi, star, starSi)
    && (star >= 0 ==>
          && si - starSi == pi - (star + 1)
          && (forall i | star < i < pi :: p[i] != '*'))
  }

  /** A star-free block consumes exactly its length. */
  lemma {:induction false} BlockConsumes(p: string, s: string, a: nat, b: nat, k: nat)
    requires a <= b <= |p| && k <= |s|
    requires forall i | a <= i < b :: p[i] != '*'
    requires From(p, s, a, k)
    ensures k + (b - a) <= |s| && From(p, s, b, k + (b - a))
    decreases b - a
  {
    if a < b {
      FromStep(p, s, a, k);
      BlockConsumes(p, s, a + 1, b, k + 1);
    }
  }

  /** Some position at or after k lets the rest of the pattern match. */
  predicate SomewhereFrom(p: string, s: string, pi: nat, k: nat)
    requires pi <= |p|
  {
    exists j: nat :: k <= j <= |s| && From(p, s, pi, j)
  }

  lemma {:induction false} StarMeans(p: string, s: string, pi: nat, si: nat)
    requires pi < |p| && p[pi] == '*' && si <= |s|
    ensures From(p, s, pi, si) <==> SomewhereFrom(p, s, pi + 1, si)
    decreases |s| - si
  {
    FromStep(p, s, pi, si);
    if si < |s| {
      StarMeans(p, s, pi, si + 1);
    }
    if SomewhereFrom(p, s, pi + 1, si) {
      var j: nat :| si <= j <= |s| && From(p, s, pi + 1, j);
      if j > si {
        assert SomewhereFrom(p, s, pi + 1, si + 1);
      }
    }
  }

  /** Backtracking only to the last star is enough: once a later star is reached, trying the earlier star
      further on can gain nothing, because the later star already covers everything it could reach. */
  lemma LastStarIsEnough(p: string, s: string, si: nat, pi: nat, star: int, starSi: nat)
    requires Block(p, s, si, pi, star, starSi) && star >= 0 && AtStar(p, pi)
    requires SomewhereFrom(p, s, star + 1, starSi + 1)
    ensures From(p, s, pi, si)
  {
    var j: nat :| starSi + 1 <= j <= |s| && From(p, s, star + 1, j);
    BlockConsumes(p, s, star + 1, pi, j);
    StarSkips(p, s, pi, si, j + (pi - (star + 1)));
  }

  lemma {:induction false} LoopComplete(p: string, s: string, si: nat, pi: nat, star: int, starSi: nat)
    requires '*' !in s
    requires Block(p, s, si, pi, star, starSi)
    requires From(p, s, pi, si) || (star >= 0 && SomewhereFrom(p, s, star + 1, starSi + 1))
    ensures Loop(p, s, si, pi, star, starSi)
    decreases |p| - star, |s| - starSi, |p| - pi
  {
    if si == |s| {
      CompleteAtEnd(p, s, pi, star, starSi);
    } else if Literal(p, pi, s, si) {
      assert p[pi] != '*' by { assert s[si] in s; }
      FromStep(p, s, pi, si);
      LoopComplete(p, s, si + 1, pi + 1, star, starSi);
    } else if AtStar(p, pi) {
      if !From(p, s, pi, si) {
        LastStarIsEnough(p, s, si, pi, star, starSi);
      }
      FromStep(p, s, pi, si);
      if !From(p, s, pi + 1, si) {
        StarMeans(p, s, pi, si + 1);
      }
      LoopComplete(p, s, si, pi + 1, pi, si);
    } else {
      if pi < |p| {
        FromStep(p, s, pi, si);
      } else {
        assert p[pi..] == "" && s[si..] != "";
      }
      var j: nat :| starSi + 1 <= j <= |s| && From(p, s, star + 1, j);
      if j > starSi + 1 {
        assert SomewhereFrom(p, s, star + 1, starSi + 2);
      }
      LoopComplete(p, s, starSi + 1, star + 1, star, starSi + 1);
    }
  }

  /** With the subject exhausted a retry further on is no better: the block would not fit. */
  lemma CompleteAtEnd(p: string, s: string, pi: nat, star: int, starSi: nat)
    requires Block(p, s, |s|, pi, star, starSi)
    requires From(p, s, pi, |s|) || (star >= 0 && SomewhereFrom(p, s, star + 1, starSi + 1))
    ensures OnlyStars(p, pi)
  {
    if !From(p, s, pi, |s|) {
      var j: nat :| starSi + 1 <= j <= |s| && From(p, s, star + 1, j);
      BlockConsumes(p, s, star + 1, pi, j);
    }
    EndMatches(p, s, pi);
  }

  /** Exactness: for a subject without '*' the matcher decides the declarative relation. */
  lemma DecidesStarFree(p: string, s: string)
    requires '*' !in s
    ensures Loop(p, s, 0, 0, -1, 0) <==> Matches(p, s)
  {
    assert p[0..] == p && s[0..] == s;
    if Matches(p, s) {
      LoopComplete(p, s, 0, 0, -1, 0);
    }
    if Loop(p, s, 0, 0, -1, 0) {
      AcceptsOnlyMatches(p, s);
    }
  }

  // ---- and only for those ----

  /** A pattern that begins with the subject's own characters is walked literally. */
  lemma {:induction false} LiteralWalk(p: string, s: string, si: nat, k: nat)
    requires si <= k <= |s| && k <= |p| && p[..k] == s[..k]
    ensures Loop(p, s, si, si, -1, 0) == Loop(p, s, k, k, -1, 0)
    decreases k - si
  {
    if si < k {
      assert p[si] == p[..k][si] && s[si] == s[..k][si];
      LiteralWalk(p, s, si + 1, k);
    }
  }

  lemma {:induction false} SelfMatches(p: string, s: string, k: nat, i: nat)
    requires i <= k <= |s| && k <= |p| && p[..k] == s[..k]
    requires From(p, s, k, k)
    ensures From(p, s, i, i)
    decreases k - i
  {
    if i < k {
      SelfMatches(p, s, k, i + 1);
      assert p[i] == p[..k][i] && s[i] == s[..k][i];
      FromStep(p, s, i, i);
      if p[i] == '*' {
        FromStep(p, s, i, i + 1);
      }
    }
  }

  /** A pattern on which the matcher is wrong about a subject that contains '*': the subject up to its first
      star, then a star, then '?' if that star ends the subject. */
  function Misjudged(s: string, k: nat): string
    requires k < |s|
  {
    s[..k] + (if k + 1 < |s| then "*" else "*?")
  }

  lemma MisjudgesStar(s: string, k: nat)
    requires k < |s| && s[k] == '*'
    ensures Matches(Misjudged(s, k), s)
    ensures !Loop(Misjudged(s, k), s, 0, 0, -1, 0)
  {
    var p := Misjudged(s, k);
    assert p[..k] == s[..k] && p[k] == '*';
    LiteralWalk(p, s, 0, k);
    assert Literal(p, k, s, k);
    assert Loop(p, s, k, k, -1, 0) == Loop(p, s, k + 1, k + 1, -1, 0);
    if k + 1 < |s| {
      assert |p| == k + 1;
      EndMatches(p, s, k + 1);
      StarMeans(p, s, k, k);
      assert From(p, s, k + 1, |s|);
    } else {
      assert p[k + 1] == '?';
      assert !OnlyStars(p, k + 1);
      FromStep(p, s, k + 1, k);
      EndMatches(p, s, k + 2);
      FromStep(p, s, k, k);
    }
    SelfMatches(p, s, k, 0);
    assert p[0..] == p && s[0..] == s;
  }

  /** The matcher is exact on a subject, for every pattern, if and only if the subject contains no '*'. */
  lemma ExactIffStarFree(s: string)
    ensures (forall p: string :: Loop(p, s, 0, 0, -1, 0) == Matches(p, s)) <==> '*' !in s
  {
    if '*' !in s {
      forall p: string ensures Loop(p, s, 0, 0, -1, 0) == Matches(p, s) {
        DecidesStarFree(p, s);
      }
    } else {
      var k: nat :| k < |s| && s[k] == '*';
      MisjudgesStar(s, k);
      assert Loop(Misjudged(s, k), s, 0, 0, -1, 0) != Matches(Misjudged(s, k), s);
    }
  }
}
