/** Two tests for NVIDIA names written apart from each other: the broad one of the
    path predicates, a loop over the characters, and the strict one that guards
    services and tasks, which splits the text. What counts as alphanumeric is a
    parameter. */
module Tokens {
  import opened Text

  const CONTEXT_WORDS := ["nvidia", "geforce", "frameview", "shadowplay", "displaydriverras"]
  const STRONG_WORDS := ["nvidia", "geforce", "displaydriverras"]
  const STRONG_PREFIXES := [
    "nvtelemetry", "nvtm", "nvprofile", "nvdriver", "nvota", "nvbackend", "nvmodule", "nvnode", "nvstream", "nvvad",
    "nvwmi", "nvcamera"]

  type Class = char -> bool

  /** A maximal run of alphanumeric characters. */
  predicate IsRun(s: string, alnum: Class, i: nat, j: nat) {
    && i < j <= |s| && (forall k | i <= k < j :: alnum(s[k]))
    && (i == 0 || !alnum(s[i - 1])) && (j == |s| || !alnum(s[j]))
  }

  /** Such a run that is "nv" itself, or "nv" and at least two more characters. */
  predicate NvRun(s: string, alnum: Class, i: nat, j: nat) {
    && IsRun(s, alnum, i, j) && j - i >= 2 && s[i] == 'n' && s[i + 1] == 'v'
    && j - i != 3
  }

  predicate HasWord(s: string, words: seq<string>) {
    exists k | 0 <= k < |words| :: Contains(s, words[k])
  }

  /** What the broad test means. */
  ghost predicate NvidiaContext(s: string, alnum: Class) {
    HasWord(Lower(s), CONTEXT_WORDS) || exists i: nat, j: nat :: NvRun(Lower(s), alnum, i, j)
  }

  /** No run that counts begins before `n`. */
  ghost predicate NoneBefore(s: string, alnum: Class, n: nat) {
    forall i: nat, j: nat | i < n :: !NvRun(s, alnum, i, j)
  }

  /** The first position from `i` on that is not alphanumeric. */
  function RunEnd(s: string, alnum: Class, i: nat): (j: nat)
    requires i <= |s|
    ensures i <= j <= |s| && (forall k | i <= k < j :: alnum(s[k])) && (j == |s| || !alnum(s[j]))
    decreases |s| - i
  {
    if i == |s| || !alnum(s[i]) then i else RunEnd(s, alnum, i + 1)
  }

  /** A run ends in one place only. */
  lemma RunEndsThere(s: string, alnum: Class, i: nat, j: nat, k: nat)
    requires IsRun(s, alnum, i, j) && IsRun(s, alnum, i, k)
    ensures j == k
  {
  }

  /** is_nvidia_context_string */
  method IsNvidiaContextString(s: string, alnum: Class) returns (r: bool)
    ensures r <==> NvidiaContext(s, alnum)
  {
    var l := Lower(s);
    if HasWord(l, CONTEXT_WORDS) {
      return true;
    }
    r := ScanRuns(l, alnum);
  }

  method ScanRuns(chars: string, alnum: Class) returns (r: bool)
    ensures r <==> exists i: nat, j: nat :: NvRun(chars, alnum, i, j)
  {
    var i := 0;
    while i < |chars|
      invariant i <= |chars| && NoneBefore(chars, alnum, i)
      invariant i == 0 || i == |chars| || !alnum(chars[i])
    {
      ghost var before := i;
      while i < |chars| && !alnum(chars[i])
        invariant before <= i <= |chars| && NoneBefore(chars, alnum, i)
        invariant i > before ==> !alnum(chars[i - 1])
      {
        i := i + 1;
      }
      var start := i;
      while i < |chars| && alnum(chars[i])
        invariant start <= i <= |chars| && forall k | start <= k < i :: alnum(chars[k])
      {
        i := i + 1;
      }
      if i > start {
        assert IsRun(chars, alnum, start, i);
        if "nv" <= chars[start..] {
          var len := i - start;
          if len == 2 || len >= 4 {
            StartsWithNv(chars, start);
            assert NvRun(chars, alnum, start, i);
            return true;
          }
        }
        RunIsChecked(chars, alnum, start, i);
      }
    }
    assert NoneBefore(chars, alnum, |chars|);
    return false;
  }

  lemma StartsWithNv(s: string, i: nat)
    requires i <= |s|
    ensures "nv" <= s[i..] <==> i + 2 <= |s| && s[i] == 'n' && s[i + 1] == 'v'
  {
    if i + 2 <= |s| {
      assert s[i..][0] == s[i] && s[i..][1] == s[i + 1];
    }
  }

  lemma RunIsChecked(s: string, alnum: Class, start: nat, i: nat)
    requires IsRun(s, alnum, start, i) && NoneBefore(s, alnum, start)
    requires "nv" <= s[start..] ==> i - start != 2 && i - start < 4
    ensures NoneBefore(s, alnum, i)
  {
    forall a: nat, b: nat | a < i
      ensures !NvRun(s, alnum, a, b)
    {
      if a == start && IsRun(s, alnum, a, b) {
        RunEndsThere(s, alnum, start, i, b);
        StartsWithNv(s, a);
      }
    }
  }

  // ---- the strict test ----

  /** str::split at every character that is not alphanumeric, from `i` on. */
  function Split(s: string, alnum: Class, i: nat): seq<string>
    requires i <= |s|
    decreases |s| - i
  {
    var k := RunEnd(s, alnum, i);
    if k == |s| then [s[i..]] else [s[i..k]] + Split(s, alnum, k + 1)
  }

  /** has_strong_nvidia_named_target_context */
  predicate StrongContext(s: string, alnum: Class) {
    var l := Lower(s);
    HasWord(l, STRONG_WORDS)
    || exists t | t in Split(l, alnum, 0) :: t != "" && exists k | 0 <= k < |STRONG_PREFIXES| :: STRONG_PREFIXES[k] <= t
  }

  lemma {:induction false} PieceIsRun(s: string, alnum: Class, i: nat, t: string) returns (a: nat, b: nat)
    requires i <= |s| && (i == 0 || !alnum(s[i - 1])) && t != "" && t in Split(s, alnum, i)
    ensures i <= a && IsRun(s, alnum, a, b) && t == s[a..b]
    decreases |s| - i
  {
    var k := RunEnd(s, alnum, i);
    if t == s[i..k] {
      a, b := i, k;
    } else {
      a, b := PieceIsRun(s, alnum, k + 1, t);
    }
  }

  lemma {:induction false} RunIsPiece(s: string, alnum: Class, i: nat, a: nat, b: nat)
    requires i <= a && IsRun(s, alnum, a, b)
    ensures s[a..b] in Split(s, alnum, i)
    decreases |s| - i
  {
    var k := RunEnd(s, alnum, i);
    if a == i {
      assert b == k;
      assert s[a..b] == Split(s, alnum, i)[0];
    } else {
      assert a > k;
      RunIsPiece(s, alnum, k + 1, a, b);
    }
  }

  /** The non-empty pieces are exactly the maximal runs. */
  lemma PiecesAreRuns(s: string, alnum: Class, t: string)
    requires t != ""
    ensures t in Split(s, alnum, 0) <==> exists a: nat, b: nat :: IsRun(s, alnum, a, b) && t == s[a..b]
  {
    if t in Split(s, alnum, 0) {
      var a, b := PieceIsRun(s, alnum, 0, t);
    }
    forall a: nat, b: nat | IsRun(s, alnum, a, b) && t == s[a..b]
      ensures t in Split(s, alnum, 0)
    {
      RunIsPiece(s, alnum, 0, a, b);
    }
  }

  /** A maximal run begins with one of the listed prefixes. */
  ghost predicate HasPrefixedRun(s: string, alnum: Class) {
    exists a: nat, b: nat, prefix :: IsRun(s, alnum, a, b) && prefix in STRONG_PREFIXES && prefix <= s[a..b]
  }

  /** What the strict test means. */
  lemma StrictMeans(s: string, alnum: Class)
    ensures StrongContext(s, alnum) <==> HasWord(Lower(s), STRONG_WORDS) || HasPrefixedRun(Lower(s), alnum)
  {
    var l := Lower(s);
    forall t | t in Split(l, alnum, 0) && t != "" && exists k | 0 <= k < |STRONG_PREFIXES| :: STRONG_PREFIXES[k] <= t
      ensures HasPrefixedRun(l, alnum)
    {
      var k :| 0 <= k < |STRONG_PREFIXES| && STRONG_PREFIXES[k] <= t;
      var a, b := PieceIsRun(l, alnum, 0, t);
      assert STRONG_PREFIXES[k] in STRONG_PREFIXES;
    }
    forall a: nat, b: nat, prefix | IsRun(l, alnum, a, b) && prefix in STRONG_PREFIXES && prefix <= l[a..b]
      ensures StrongContext(s, alnum)
    {
      RunIsPiece(l, alnum, 0, a, b);
      var k :| 0 <= k < |STRONG_PREFIXES| && STRONG_PREFIXES[k] == prefix;
      assert STRONG_PREFIXES[k] <= l[a..b];
    }
  }

  lemma StrongPrefixIsNv(t: string, k: nat)
    requires k < |STRONG_PREFIXES| && STRONG_PREFIXES[k] <= t
    ensures |t| >= 4 && t[0] == 'n' && t[1] == 'v'
  {
    var p := STRONG_PREFIXES[k];
    assert forall j | 0 <= j < |STRONG_PREFIXES| :: |STRONG_PREFIXES[j]| >= 4 && "nv" <= STRONG_PREFIXES[j];
    assert t[0] == p[0] && t[1] == p[1];
  }

  lemma StrongWordIsContextWord(s: string)
    requires HasWord(s, STRONG_WORDS)
    ensures HasWord(s, CONTEXT_WORDS)
  {
    var k :| 0 <= k < |STRONG_WORDS| && Contains(s, STRONG_WORDS[k]);
    assert CONTEXT_WORDS[if k == 2 then 4 else k] == STRONG_WORDS[k];
  }

  /** Whatever the strict test accepts, the broad one accepts. */
  lemma StrictImpliesBroad(s: string, alnum: Class)
    requires StrongContext(s, alnum)
    ensures NvidiaContext(s, alnum)
  {
    var l := Lower(s);
    if HasWord(l, STRONG_WORDS) {
      StrongWordIsContextWord(l);
    } else {
      var t :| t in Split(l, alnum, 0) && t != ""
        && exists k | 0 <= k < |STRONG_PREFIXES| :: STRONG_PREFIXES[k] <= t;
      var k :| 0 <= k < |STRONG_PREFIXES| && STRONG_PREFIXES[k] <= t;
      StrongPrefixIsNv(t, k);
      var a, b := PieceIsRun(l, alnum, 0, t);
      assert NvRun(l, alnum, a, b);
    }
  }
}
