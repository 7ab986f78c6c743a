/** The wildcard matcher: a single pass with one remembered star, against the
    recursive meaning of `*` and `?`. */
module Glob {
  import opened Text

  /** `*` stands for any run of characters, `?` for any one character. */
  ghost predicate Matches(text: string, pattern: string)
    decreases |pattern|, |text|
  {
    if pattern == "" then text == ""
    else if pattern[0] == '*' then
      Matches(text, pattern[1..]) || (text != "" && Matches(text[1..], pattern))
    else
      text != "" && (pattern[0] == '?' || pattern[0] == text[0]) && Matches(text[1..], pattern[1..])
  }

  predicate OnlyStars(pattern: string) {
    forall i | 0 <= i < |pattern| :: pattern[i] == '*'
  }

  /** Where the last star was met: its pattern index and the text index up to
      which it is taken to reach. */
  datatype Star = NoStar | Star(at: nat, matched: nat)

  /** The state of the loop makes sense. */
  ghost predicate InStep(text: string, pattern: string, t: nat, p: nat, star: Star) {
    && t <= |text| && p <= |pattern|
    && (star.Star? ==>
      && star.at < p && pattern[star.at] == '*' && star.matched <= t
      && p - star.at - 1 == t - star.matched)
  }

  /** The single pass, as a function of where it stands. A literal or `?` is tried
      before `*`, and a mismatch goes back to the last star only. */
  function Greedy(text: string, pattern: string, t: nat, p: nat, star: Star): bool
    requires InStep(text, pattern, t, p, star)
    decreases |pattern| - (if star.Star? then star.at + 1 else 0),
              |text| - (if star.Star? then star.matched else 0),
              |text| - t
  {
    if t == |text| then OnlyStars(pattern[p..])
    else if p < |pattern| && (pattern[p] == '?' || pattern[p] == text[t]) then
      Greedy(text, pattern, t + 1, p + 1, star)
    else if p < |pattern| && pattern[p] == '*' then
      Greedy(text, pattern, t, p + 1, Star(p, t))
    else if star.Star? then
      Greedy(text, pattern, star.matched + 1, star.at + 1, Star(star.at, star.matched + 1))
    else false
  }

  ghost predicate From(text: string, pattern: string, t: nat, p: nat) {
    t <= |text| && p <= |pattern| && Matches(text[t..], pattern[p..])
  }

  /** The last star could reach further than it does now. */
  ghost predicate Later(text: string, pattern: string, star: Star) {
    exists k :: LaterAt(text, pattern, star, k)
  }

  ghost predicate LaterAt(text: string, pattern: string, star: Star, k: nat) {
    star.Star? && k > star.matched && From(text, pattern, k, star.at + 1)
  }

  lemma {:induction false} EmptyText(pattern: string)
    ensures Matches("", pattern) <==> OnlyStars(pattern)
  {
    if pattern == "" {
    } else {
      EmptyText(pattern[1..]);
      assert forall i | 1 <= i < |pattern| :: pattern[i] == pattern[1..][i - 1];
    }
  }

  /** A star reaches some point from which the rest matches. */
  lemma {:induction false} StarReaches(text: string, pattern: string, t: nat, p: nat) returns (k: nat)
    requires From(text, pattern, t, p) && p < |pattern| && pattern[p] == '*'
    ensures k >= t && From(text, pattern, k, p + 1)
    decreases |text| - t
  {
    var s, q := text[t..], pattern[p..];
    assert q[1..] == pattern[p + 1..];
    if Matches(s, q[1..]) {
      k := t;
    } else {
      assert s[1..] == text[t + 1..];
      k := StarReaches(text, pattern, t + 1, p);
    }
  }

  lemma {:induction false} StarAbsorbs(text: string, pattern: string, t: nat, p: nat, k: nat)
    requires t <= k && p < |pattern| && pattern[p] == '*' && From(text, pattern, k, p + 1)
    ensures From(text, pattern, t, p)
    decreases k - t
  {
    var s, q := text[t..], pattern[p..];
    assert q[1..] == pattern[p + 1..];
    if t < k {
      StarAbsorbs(text, pattern, t + 1, p, k);
      assert s[1..] == text[t + 1..];
    }
  }

  lemma OneStep(text: string, pattern: string, t: nat, p: nat)
    requires t <= |text| && p < |pattern| && pattern[p] != '*'
    ensures From(text, pattern, t, p) <==>
      t < |text| && (pattern[p] == '?' || pattern[p] == text[t]) && From(text, pattern, t + 1, p + 1)
  {
    assert pattern[p..][1..] == pattern[p + 1..];
    if t < |text| {
      assert text[t..][1..] == text[t + 1..];
    }
  }

  /** A stretch of pattern without stars takes as many characters as it has. */
  lemma {:induction false} Consumes(text: string, pattern: string, k: nat, a: nat, p: nat)
    requires a <= p && From(text, pattern, k, a) && p <= |pattern| && '*' !in pattern[a..p]
    ensures From(text, pattern, k + (p - a), p)
    decreases p - a
  {
    if a == p {
    } else {
      assert pattern[a] == pattern[a..p][0];
      OneStep(text, pattern, k, a);
      assert pattern[a + 1..p] == pattern[a..p][1..];
      Consumes(text, pattern, k + 1, a + 1, p);
    }
  }

  /** A true answer is always right. */
  lemma {:induction false} GreedySound(text: string, pattern: string, t: nat, p: nat, star: Star)
    requires InStep(text, pattern, t, p, star) && Greedy(text, pattern, t, p, star)
    ensures From(text, pattern, t, p) || Later(text, pattern, star)
    decreases |pattern| - (if star.Star? then star.at + 1 else 0),
              |text| - (if star.Star? then star.matched else 0),
              |text| - t
  {
    if t == |text| {
      assert text[t..] == "";
      EmptyText(pattern[p..]);
    } else if p < |pattern| && (pattern[p] == '?' || pattern[p] == text[t]) {
      GreedySound(text, pattern, t + 1, p + 1, star);
      if From(text, pattern, t + 1, p + 1) {
        if pattern[p] == '*' {
          StarAbsorbs(text, pattern, t, p, t + 1);
        } else {
          OneStep(text, pattern, t, p);
        }
      }
    } else if p < |pattern| && pattern[p] == '*' {
      GreedySound(text, pattern, t, p + 1, Star(p, t));
      if From(text, pattern, t, p + 1) {
        StarAbsorbs(text, pattern, t, p, t);
      } else {
        var k: nat :| LaterAt(text, pattern, Star(p, t), k);
        StarAbsorbs(text, pattern, t, p, k);
      }
    } else {
      var next := Star(star.at, star.matched + 1);
      GreedySound(text, pattern, star.matched + 1, star.at + 1, next);
      if From(text, pattern, star.matched + 1, star.at + 1) {
        assert LaterAt(text, pattern, star, star.matched + 1);
      } else {
        var k: nat :| LaterAt(text, pattern, next, k);
        assert LaterAt(text, pattern, star, k);
      }
    }
  }

  /** Where the pattern from `p` on matches, if the pass can still succeed. */
  lemma ReachedSoFar(text: string, pattern: string, t: nat, p: nat, star: Star) returns (k: nat)
    requires InStep(text, pattern, t, p, star) && (star.Star? ==> '*' !in pattern[star.at + 1..p])
    requires From(text, pattern, t, p) || Later(text, pattern, star)
    ensures From(text, pattern, k, p) && k >= t
  {
    hide Matches;
    k := t;
    if !From(text, pattern, t, p) {
      var j: nat :| LaterAt(text, pattern, star, j);
      Consumes(text, pattern, j, star.at + 1, p);
      k := j + (p - star.at - 1);
    }
  }

  /** Where neither a character nor a star goes on, only the last star can. */
  lemma LaterWhenStuck(text: string, pattern: string, t: nat, p: nat, star: Star) returns (j: nat)
    requires t < |text| && (From(text, pattern, t, p) || Later(text, pattern, star))
    requires p < |pattern| ==> pattern[p] != '?' && pattern[p] != text[t] && pattern[p] != '*'
    ensures LaterAt(text, pattern, star, j)
  {
    if p < |pattern| {
      hide Matches;
      OneStep(text, pattern, t, p);
    } else {
      assert !From(text, pattern, t, p);
    }
    j :| LaterAt(text, pattern, star, j);
  }

  /** Without a star on both sides a match is never missed: giving up every star
      but the last loses nothing. */
  lemma {:induction false} GreedyComplete(text: string, pattern: string, t: nat, p: nat, star: Star)
    requires InStep(text, pattern, t, p, star) && ('*' !in text || '*' !in pattern)
    requires star.Star? ==> '*' !in pattern[star.at + 1..p]
    requires From(text, pattern, t, p) || Later(text, pattern, star)
    ensures Greedy(text, pattern, t, p, star)
    decreases |pattern| - (if star.Star? then star.at + 1 else 0),
              |text| - (if star.Star? then star.matched else 0),
              |text| - t
  {
    hide Matches;
    var k := ReachedSoFar(text, pattern, t, p, star);
    if t == |text| {
      assert text[t..] == "";
      EmptyText(pattern[p..]);
    } else if p < |pattern| && (pattern[p] == '?' || pattern[p] == text[t]) {
      OneStep(text, pattern, t, p);
      assert star.Star? ==> pattern[star.at + 1..p + 1] == pattern[star.at + 1..p] + [pattern[p]];
      GreedyComplete(text, pattern, t + 1, p + 1, star);
    } else if p < |pattern| && pattern[p] == '*' {
      var reach := StarReaches(text, pattern, k, p);
      assert reach > t ==> LaterAt(text, pattern, Star(p, t), reach);
      GreedyComplete(text, pattern, t, p + 1, Star(p, t));
    } else {
      var j := LaterWhenStuck(text, pattern, t, p, star);
      var next := Star(star.at, star.matched + 1);
      assert j > star.matched + 1 ==> LaterAt(text, pattern, next, j);
      GreedyComplete(text, pattern, star.matched + 1, star.at + 1, next);
    }
  }

  /** The single pass agrees with the recursive meaning on everything that has no
      star in the text, and on every pattern without one. */
  lemma GreedyExact(text: string, pattern: string)
    ensures Greedy(text, pattern, 0, 0, NoStar) ==> Matches(text, pattern)
    ensures '*' !in text || '*' !in pattern ==> (Greedy(text, pattern, 0, 0, NoStar) <==> Matches(text, pattern))
  {
    assert text[0..] == text && pattern[0..] == pattern;
    if Greedy(text, pattern, 0, 0, NoStar) {
      GreedySound(text, pattern, 0, 0, NoStar);
    }
    if ('*' !in text || '*' !in pattern) && Matches(text, pattern) {
      GreedyComplete(text, pattern, 0, 0, NoStar);
    }
  }

  lemma NoStarLowered(s: string)
    ensures '*' in Lower(s) <==> '*' in s
  {
    forall i | 0 <= i < |s|
      ensures Lower(s)[i] == '*' <==> s[i] == '*'
    {
    }
  }

  /** wildcard_match_no_case. */
  method WildcardMatchNoCase(textIn: string, patternIn: string) returns (r: bool)
    ensures r == Greedy(Lower(textIn), Lower(patternIn), 0, 0, NoStar)
    ensures r ==> Matches(Lower(textIn), Lower(patternIn))
    ensures '*' !in textIn || '*' !in patternIn ==> (r <==> Matches(Lower(textIn), Lower(patternIn)))
  {
    hide Matches, Lower;
    var text, pattern := Lower(textIn), Lower(patternIn);
    var t: nat, p: nat := 0, 0;
    var star := NoStar;
    GreedyExact(text, pattern);
    NoStarLowered(textIn);
    NoStarLowered(patternIn);
    while t < |text|
      invariant InStep(text, pattern, t, p, star)
      invariant Greedy(text, pattern, t, p, star) == Greedy(text, pattern, 0, 0, NoStar)
      decreases |pattern| - (if star.Star? then star.at + 1 else 0),
                |text| - (if star.Star? then star.matched else 0),
                |text| - t
    {
      if p < |pattern| && (pattern[p] == '?' || pattern[p] == text[t]) {
        t, p := t + 1, p + 1;
      } else if p < |pattern| && pattern[p] == '*' {
        star := Star(p, t);
        p := p + 1;
      } else if star.Star? {
        p := star.at + 1;
        star := Star(star.at, star.matched + 1);
        t := star.matched;
      } else {
        return false;
      }
    }
    r := SkipStars(pattern, p);
  }

  /** The loop over the stars that may end the pattern. */
  method SkipStars(pattern: string, start: nat) returns (r: bool)
    requires start <= |pattern|
    ensures r <==> OnlyStars(pattern[start..])
  {
    var p := start;
    while p < |pattern| && pattern[p] == '*'
      invariant start <= p <= |pattern| && forall i | start <= i < p :: pattern[i] == '*'
    {
      p := p + 1;
    }
    if p < |pattern| {
      assert pattern[start..][p - start] != '*';
    }
    return p == |pattern|;
  }

  lemma {:induction false} SelfMatch(s: string)
    ensures Matches(s, s)
  {
    if s == "" {
    } else {
      SelfMatch(s[1..]);
      if s[0] == '*' {
        assert s[0..] == s;
        StarAbsorbs(s, s, 0, 0, 1);
      }
    }
  }

  /** A stretch matched character by character in front of a match. */
  lemma {:induction false} PrefixMatch(text: string, pattern: string, n: nat)
    requires n <= |text| && n <= |pattern| && From(text, pattern, n, n)
    requires forall i | 0 <= i < n :: pattern[i] != '*' && (pattern[i] == '?' || pattern[i] == text[i])
    ensures Matches(text, pattern)
  {
    assert text[0..] == text && pattern[0..] == pattern;
    var k := n;
    while k > 0
      invariant 0 <= k <= n && From(text, pattern, k, k)
    {
      OneStep(text, pattern, k - 1, k - 1);
      k := k - 1;
    }
  }

  /** Without a remembered star the pass only moves along both strings together
      until they differ or the pattern ends. */
  lemma {:induction false} GreedyLockstep(text: string, pattern: string, n: nat, k: nat)
    requires k <= n < |text| && n <= |pattern|
    requires forall i | k <= i < n :: pattern[i] == '?' || pattern[i] == text[i]
    requires n < |pattern| ==> pattern[n] != '?' && pattern[n] != text[n] && pattern[n] != '*'
    ensures !Greedy(text, pattern, k, k, NoStar)
    decreases n - k
  {
    if k == n {
    } else {
      GreedyLockstep(text, pattern, n, k + 1);
    }
  }

  lemma FirstStar(pattern: string) returns (f: nat)
    requires '*' in pattern
    ensures f < |pattern| && pattern[f] == '*' && forall i | 0 <= i < f :: pattern[i] != '*'
  {
    f := 0;
    while pattern[f] != '*'
      invariant 0 <= f < |pattern| && forall i | 0 <= i < f :: pattern[i] != '*'
      decreases |pattern| - f
    {
      assert f + 1 == |pattern| ==> false;
      f := f + 1;
    }
  }

  /** More stars in the text than the pattern is long, where the pattern has its
      first: the pass goes on character by character and ends among them. */
  lemma StarsAreMissed(text: string, pattern: string, f: nat)
    requires f < |pattern| && |text| > f + |pattern|
    requires forall i | 0 <= i < f :: pattern[i] == text[i]
    requires forall i | f <= i <= f + |pattern| :: text[i] == '*'
    ensures !Greedy(text, pattern, 0, 0, NoStar)
  {
    hide Greedy;
    var n := f;
    while n < |pattern| && (pattern[n] == '?' || pattern[n] == '*')
      invariant f <= n <= |pattern|
      invariant forall i | 0 <= i < n :: pattern[i] == '?' || pattern[i] == text[i]
    {
      n := n + 1;
    }
    GreedyLockstep(text, pattern, n, 0);
  }

  /** For every pattern with a star there is a text with stars that is missed. */
  lemma StarPatternMisses(pattern: string) returns (text: string)
    requires '*' in pattern
    ensures Matches(text, pattern) && !Greedy(text, pattern, 0, 0, NoStar)
  {
    hide Matches, Greedy;
    var f := FirstStar(pattern);
    var stars := seq(|pattern| + 1, i => '*');
    text := pattern[..f] + stars + pattern[f + 1..];
    var g := f + |stars|;
    assert text[g..] == pattern[f + 1..];
    SelfMatch(pattern[f + 1..]);
    StarAbsorbs(text, pattern, f, f, g);
    PrefixMatch(text, pattern, f);
    StarsAreMissed(text, pattern, f);
  }

  /** For every text with a star there is a pattern with a star that misses it. */
  lemma StarTextMissed(text: string) returns (pattern: string)
    requires '*' in text
    ensures Matches(text, pattern) && !Greedy(text, pattern, 0, 0, NoStar)
  {
    var f: nat :| f < |text| && text[f] == '*';
    var any := seq(f, i => '?');
    pattern := any + (if f + 1 < |text| then "*" else "*?");
    assert pattern[f..] == if f + 1 < |text| then "*" else "*?";
    if f + 1 < |text| {
      EmptyText("");
      assert From(text, pattern, |text|, f + 1);
      StarAbsorbs(text, pattern, f, f, |text|);
      PrefixMatch(text, pattern, f);
      GreedyLockstep(text, pattern, f + 1, 0);
    } else {
      EmptyText("");
      assert From(text, pattern, f + 1, f + 2);
      OneStep(text, pattern, f, f + 1);
      StarAbsorbs(text, pattern, f, f, f);
      PrefixMatch(text, pattern, f);
      LastStarMissed(text, pattern, f, 0);
    }
  }

  lemma {:induction false} LastStarMissed(text: string, pattern: string, f: nat, k: nat)
    requires |text| == f + 1 && |pattern| == f + 2 && k <= f + 1
    requires (forall i | 0 <= i < f :: pattern[i] == '?') && pattern[f] == '*' == text[f] && pattern[f + 1] == '?'
    ensures !Greedy(text, pattern, k, k, NoStar)
    decreases f + 1 - k
  {
    if k <= f {
      LastStarMissed(text, pattern, f, k + 1);
    } else {
      assert pattern[k..][0] == '?';
    }
  }

  ghost predicate Agrees(text: string, pattern: string) {
    Greedy(text, pattern, 0, 0, NoStar) <==> Matches(text, pattern)
  }

  /** Exactly the texts without a star are answered right for every pattern, and
      exactly the patterns without a star for every text. */
  lemma WhenTheMatcherIsExact(s: string)
    ensures (forall pattern :: Agrees(s, pattern)) <==> '*' !in s
    ensures (forall text :: Agrees(text, s)) <==> '*' !in s
  {
    if '*' in s {
      var pattern := StarTextMissed(s);
      assert !Agrees(s, pattern);
      var text := StarPatternMisses(s);
      assert !Agrees(text, s);
    } else {
      forall other
        ensures Agrees(s, other) && Agrees(other, s)
      {
        GreedyExact(s, other);
        GreedyExact(other, s);
      }
    }
  }
}
