/** Small shared pieces: optional values and facts about sequences. */
module Basics {
  datatype Option<T> = None | Some(value: T)

  lemma Assoc<T>(a: seq<T>, b: seq<T>, c: seq<T>)
    ensures a + (b + c) == (a + b) + c
  {
  }

  predicate Distinct<T(==)>(s: seq<T>) {
    forall i, j | 0 <= i < j < |s| :: s[i] != s[j]
  }

  /** `a` is `s` with some elements left out. */
  predicate PartOf<T(==)>(a: seq<T>, s: seq<T>) {
    a == [] || (s != []
                && (PartOf(a, s[..|s| - 1]) || (a[|a| - 1] == s[|s| - 1] && PartOf(a[..|a| - 1], s[..|s| - 1]))))
  }

  lemma {:induction false} PartHolds<T>(a: seq<T>, s: seq<T>)
    requires PartOf(a, s)
    ensures forall x | x in a :: x in s
  {
    if a == [] {
    } else if PartOf(a, s[..|s| - 1]) {
      PartHolds(a, s[..|s| - 1]);
    } else {
      PartHolds(a[..|a| - 1], s[..|s| - 1]);
      assert a == a[..|a| - 1] + [a[|a| - 1]] && s == s[..|s| - 1] + [s[|s| - 1]];
    }
  }

  lemma {:induction false} WholeIsPart<T>(s: seq<T>)
    ensures PartOf(s, s)
  {
    if s == [] {
    } else {
      WholeIsPart(s[..|s| - 1]);
    }
  }

  lemma {:induction false} PartsTogether<T>(a: seq<T>, s: seq<T>, b: seq<T>, t: seq<T>)
    requires PartOf(a, s) && PartOf(b, t)
    ensures PartOf(a + b, s + t)
    decreases |t|
  {
    if t == [] {
      assert a + b == a && s + t == s;
    } else {
      var front := t[..|t| - 1];
      assert (s + t)[..|s + t| - 1] == s + front && (s + t)[|s + t| - 1] == t[|t| - 1];
      if b == [] || PartOf(b, front) {
        PartsTogether(a, s, b, front);
      } else {
        assert (a + b)[..|a + b| - 1] == a + b[..|b| - 1];
        PartsTogether(a, s, b[..|b| - 1], front);
      }
    }
  }

  /** The text behind the first occurrence of `sub`. */
  function After(s: string, sub: string): (behind: Option<string>)
    ensures behind.Some? ==> |behind.value| + |sub| <= |s|
  {
    if sub <= s then Some(s[|sub|..])
    else if s == "" then None
    else After(s[1..], sub)
  }
}
