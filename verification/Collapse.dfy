/** Dropping candidates that lie inside other candidates. */
module Collapse {
  import opened Basics
  import opened FileSystem
  import opened RunState
  import opened PathKeys
  import opened Matching

  // ---- keys ----

  /** key_is_parent_of_or_equal */
  predicate Covers(parent: string, child: string) {
    if parent == child then true
    else if parent != "" && parent[|parent| - 1] != '\\' then parent + "\\" <= child
    else parent <= child
  }

  lemma CoversIsPrefix(a: string, b: string)
    requires Covers(a, b)
    ensures a <= b && (a == b || |a| < |b| || a == "")
  {
    if a != b && a != "" && a[|a| - 1] != '\\' {
      assert a == (a + "\\")[..|a|];
    }
  }

  lemma CoversItself(a: string)
    ensures Covers(a, a)
  {
  }

  lemma CoversTransitive(a: string, b: string, c: string)
    requires Covers(a, b) && Covers(b, c)
    ensures Covers(a, c)
  {
    CoversIsPrefix(b, c);
  }

  lemma CoversAntisymmetric(a: string, b: string)
    requires Covers(a, b) && Covers(b, a)
    ensures a == b
  {
    CoversIsPrefix(a, b);
    CoversIsPrefix(b, a);
  }

  lemma CoversBehind(prefix: string, a: string, b: string)
    requires a != ""
    ensures Covers(prefix + a, prefix + b) <==> Covers(a, b)
  {
    var x, y := prefix + a, prefix + b;
    assert x[|prefix|..] == a && y[|prefix|..] == b && x[|x| - 1] == a[|a| - 1];
    assert x + "\\" == prefix + (a + "\\");
    assert (x + "\\" <= y <==> a + "\\" <= b) && (x <= y <==> a <= b) by {
      SamePrefix(prefix, a + "\\", b);
      SamePrefix(prefix, a, b);
    }
  }

  lemma SamePrefix(prefix: string, a: string, b: string)
    ensures prefix + a <= prefix + b <==> a <= b
  {
    if prefix + a <= prefix + b {
      assert (prefix + b)[..|prefix + a|] == prefix + b[..|a|];
      assert (prefix + a)[|prefix|..] == a && (prefix + b[..|a|])[|prefix|..] == b[..|a|];
    }
  }

  /** Of paths as the file system gives them, a key covers exactly those whose names
      begin with its own, in any letter case. */
  lemma CoversNames(p: Path, q: Path)
    requires Named(p) && Named(q)
    ensures Covers(PathKey(p), PathKey(q)) <==> Lowered(p) <= Lowered(q)
  {
    hide Join, PathKey;
    var a, b := Lowered(p), Lowered(q);
    KeyIsJoin(p);
    KeyIsJoin(q);
    NamedIsPlain(p);
    NamedIsPlain(q);
    LastOfJoin(a);
    ClosedPrefix(a, b);
    if Join(a) == Join(b) {
      JoinInjective(a, b);
    }
    assert a <= b <==> a == b || (|a| < |b| && a == b[..|a|]);
  }

  lemma {:induction false} LastOfJoin(a: seq<string>)
    requires a != [] && Plain(a) && forall n | n in a :: n != ""
    ensures Join(a) != "" && Join(a)[|Join(a)| - 1] != '\\'
  {
    PlainRest(a);
    assert a[0] in a;
    if |a| == 1 {
      assert a[0][|a[0]| - 1] in a[0];
    } else {
      assert forall n | n in a[1..] :: n in a;
      LastOfJoin(a[1..]);
      assert Join(a) == (a[0] + "\\") + Join(a[1..]);
    }
  }

  // ---- the order: shorter paths first, then by their characters ----

  predicate LexLe(a: string, b: string) {
    a == "" || (b != "" && (a[0] < b[0] || (a[0] == b[0] && LexLe(a[1..], b[1..]))))
  }

  /** At the first character in which they differ the first text has the smaller one, or
      it is a beginning of the second. */
  predicate SmallerAt(a: string, b: string, i: nat) {
    i < |a| && i < |b| && a[..i] == b[..i] && a[i] < b[i]
  }

  lemma SmallerBehind(a: string, b: string, i: nat)
    requires a != "" && b != ""
    ensures SmallerAt(a, b, i + 1) <==> a[0] == b[0] && SmallerAt(a[1..], b[1..], i)
  {
    if i + 1 < |a| && i + 1 < |b| {
      assert a[..i + 1] == [a[0]] + a[1..][..i] && b[..i + 1] == [b[0]] + b[1..][..i];
      assert a[..i + 1][1..] == a[1..][..i] && b[..i + 1][1..] == b[1..][..i];
    }
  }

  lemma PrefixBehind(a: string, b: string)
    requires a != "" && b != ""
    ensures a <= b <==> a[0] == b[0] && a[1..] <= b[1..]
  {
    assert a == [a[0]] + a[1..] && b == [b[0]] + b[1..];
  }

  lemma {:induction false} LexMeans(a: string, b: string)
    ensures LexLe(a, b) <==> a <= b || exists i: nat :: SmallerAt(a, b, i)
  {
    if a == "" || b == "" {
    } else {
      LexMeans(a[1..], b[1..]);
      PrefixBehind(a, b);
      assert SmallerAt(a, b, 0) <==> a[0] < b[0];
      if i: nat :| SmallerAt(a, b, i) {
        if i > 0 {
          SmallerBehind(a, b, i - 1);
        }
      }
      if i: nat :| SmallerAt(a[1..], b[1..], i) {
        SmallerBehind(a, b, i);
      }
    }
  }

  lemma {:induction false} LexTotal(a: string, b: string)
    ensures LexLe(a, b) || LexLe(b, a)
    ensures LexLe(a, b) && LexLe(b, a) ==> a == b
    ensures LexLe(a, a)
  {
    if a == "" {
    } else {
      LexTotal(a[1..], a[1..]);
      if b != "" && a[0] == b[0] {
        LexTotal(a[1..], b[1..]);
        assert a == [a[0]] + a[1..] && b == [b[0]] + b[1..];
      }
    }
  }

  lemma {:induction false} LexTransitive(a: string, b: string, c: string)
    requires LexLe(a, b) && LexLe(b, c)
    ensures LexLe(a, c)
  {
    if a == "" || a[0] != b[0] || b[0] != c[0] {
    } else {
      LexTransitive(a[1..], b[1..], c[1..]);
    }
  }

  predicate Le(a: string, b: string) {
    |a| < |b| || (|a| == |b| && LexLe(a, b))
  }

  lemma LeTotal(a: string, b: string)
    ensures Le(a, b) || Le(b, a)
    ensures Le(a, b) && Le(b, a) ==> a == b
    ensures Le(a, a)
  {
    LexTotal(a, b);
  }

  lemma LeTransitive(a: string, b: string, c: string)
    requires Le(a, b) && Le(b, c)
    ensures Le(a, c)
  {
    if |a| == |b| == |c| {
      LexTransitive(a, b, c);
    }
  }

  // ---- sorting ----

  function TextOf(c: Candidate): string {
    PathText(c.path)
  }

  function Texts(s: seq<Candidate>): seq<string> {
    seq(|s|, i requires 0 <= i < |s| => TextOf(s[i]))
  }

  predicate Ordered(t: seq<string>) {
    forall i, j | 0 <= i < j < |t| :: Le(t[i], t[j])
  }

  /** A stable sort: an equal element goes behind those already there. */
  function Insert(s: seq<Candidate>, c: Candidate): seq<Candidate> {
    if s == [] || Le(TextOf(s[|s| - 1]), TextOf(c)) then s + [c]
    else Insert(s[..|s| - 1], c) + [s[|s| - 1]]
  }

  function Sort(s: seq<Candidate>): seq<Candidate> {
    if s == [] then [] else Insert(Sort(s[..|s| - 1]), s[|s| - 1])
  }

  predicate Sorted(s: seq<Candidate>) {
    forall i, j | 0 <= i < j < |s| :: Le(TextOf(s[i]), TextOf(s[j]))
  }

  lemma {:induction false} InsertHolds(s: seq<Candidate>, c: Candidate)
    ensures multiset(Insert(s, c)) == multiset(s) + multiset{c}
    ensures forall x | x in Insert(s, c) :: x in s || x == c
  {
    if s == [] || Le(TextOf(s[|s| - 1]), TextOf(c)) {
    } else {
      assert s == s[..|s| - 1] + [s[|s| - 1]];
      InsertHolds(s[..|s| - 1], c);
    }
  }

  lemma SortedAppend(s: seq<Candidate>, last: Candidate)
    requires Sorted(s) && forall x | x in s :: Le(TextOf(x), TextOf(last))
    ensures Sorted(s + [last])
  {
    hide Le, TextOf;
  }

  lemma SortedFront(s: seq<Candidate>)
    requires Sorted(s) && s != []
    ensures Sorted(s[..|s| - 1])
    ensures forall x | x in s[..|s| - 1] :: Le(TextOf(x), TextOf(s[|s| - 1]))
  {
    hide Le, TextOf;
  }

  lemma NothingSorted()
    ensures Sorted([])
  {
  }

  lemma BelowLast(s: seq<Candidate>, x: Candidate, bound: string)
    requires Sorted(s) && x in s && Le(TextOf(s[|s| - 1]), bound)
    ensures Le(TextOf(x), bound)
  {
    LeTotal(TextOf(x), TextOf(x));
    LeTransitive(TextOf(x), TextOf(s[|s| - 1]), bound);
  }

  lemma {:induction false} InsertSorts(s: seq<Candidate>, c: Candidate)
    requires Sorted(s)
    ensures Sorted(Insert(s, c))
  {
    hide Le, TextOf, Sorted;
    if s == [] {
      SortedAppend(s, c);
    } else if Le(TextOf(s[|s| - 1]), TextOf(c)) {
      forall x | x in s
        ensures Le(TextOf(x), TextOf(c))
      {
        BelowLast(s, x, TextOf(c));
      }
      SortedAppend(s, c);
    } else {
      var front, last := s[..|s| - 1], s[|s| - 1];
      SortedFront(s);
      InsertSorts(front, c);
      InsertHolds(front, c);
      LeTotal(TextOf(last), TextOf(c));
      LeTotal(TextOf(last), TextOf(last));
      forall x | x in Insert(front, c)
        ensures Le(TextOf(x), TextOf(last))
      {
        if x != c {
          BelowLast(s, x, TextOf(last));
        }
      }
      SortedAppend(Insert(front, c), last);
    }
  }

  lemma {:induction false} SortSorts(s: seq<Candidate>)
    ensures Sorted(Sort(s)) && multiset(Sort(s)) == multiset(s)
  {
    hide Le, TextOf, Sorted, Insert;
    if s == [] {
      NothingSorted();
    } else {
      assert s == s[..|s| - 1] + [s[|s| - 1]];
      SortSorts(s[..|s| - 1]);
      InsertSorts(Sort(s[..|s| - 1]), s[|s| - 1]);
      InsertHolds(Sort(s[..|s| - 1]), s[|s| - 1]);
    }
  }

  lemma InsertBehind(s: seq<Candidate>, c: Candidate)
    requires forall x | x in s :: Le(TextOf(x), TextOf(c))
    ensures Insert(s, c) == s + [c]
  {
    hide Le, TextOf;
  }

  /** Sorting what is sorted changes nothing. */
  lemma {:induction false} SortOfSorted(s: seq<Candidate>)
    requires Sorted(s)
    ensures Sort(s) == s
  {
    hide Le, TextOf, Sorted, Insert;
    if s == [] {
    } else {
      var front, last := s[..|s| - 1], s[|s| - 1];
      SortedFront(s);
      SortOfSorted(front);
      InsertBehind(front, last);
      assert s == front + [last];
    }
  }

  // ---- what is kept ----

  /** Every entry whose key no earlier kept key covers. `key` stands for the
      lowercased canonical path. */
  function Keep(s: seq<Candidate>, key: string -> string): seq<Candidate> {
    if s == [] then []
    else
      var kept := Keep(s[..|s| - 1], key);
      if CoveredBy(kept, key, key(TextOf(s[|s| - 1]))) then kept else kept + [s[|s| - 1]]
  }

  predicate CoveredBy(kept: seq<Candidate>, key: string -> string, k: string) {
    exists c | c in kept :: Covers(key(TextOf(c)), k)
  }

  /** collapse_nested_candidates */
  method CollapseNested(candidates: seq<Candidate>, key: string -> string) returns (out: seq<Candidate>)
    ensures out == Keep(Sort(candidates), key)
  {
    hide Sort, TextOf, Covers;
    var sorted := Sort(candidates);
    var keptKeys: seq<string> := [];
    out := [];
    assert sorted[..0] == [];
    assert sorted[..|sorted|] == sorted;
    for i := 0 to |sorted|
      invariant out == Keep(sorted[..i], key)
      invariant |keptKeys| == |out| && forall j | 0 <= j < |out| :: keptKeys[j] == key(TextOf(out[j]))
    {
      assert sorted[..i + 1][..i] == sorted[..i];
      var nested := AnyCovers(keptKeys, key(TextOf(sorted[i])));
      assert nested == CoveredBy(out, key, key(TextOf(sorted[i]))) by {
        if nested {
          var j :| 0 <= j < |keptKeys| && Covers(keptKeys[j], key(TextOf(sorted[i])));
          assert out[j] in out;
        }
      }
      if !nested {
        keptKeys := keptKeys + [key(TextOf(sorted[i]))];
        out := out + [sorted[i]];
      }
    }
  }

  method AnyCovers(keys: seq<string>, k: string) returns (any: bool)
    ensures any <==> exists j | 0 <= j < |keys| :: Covers(keys[j], k)
  {
    for i := 0 to |keys|
      invariant forall j | 0 <= j < i :: !Covers(keys[j], k)
    {
      if Covers(keys[i], k) {
        return true;
      }
    }
    return false;
  }

  // ---- what collapsing keeps ----

  function KeyOf(c: Candidate, key: string -> string): string {
    key(TextOf(c))
  }

  lemma {:induction false} PartIsSorted(a: seq<Candidate>, s: seq<Candidate>)
    requires PartOf(a, s) && Sorted(s)
    ensures Sorted(a) && forall c | c in a :: c in s
  {
    hide Le, TextOf, Sorted;
    PartHolds(a, s);
    if a == [] {
      NothingSorted();
    } else {
      var front, last := s[..|s| - 1], s[|s| - 1];
      SortedFront(s);
      if PartOf(a, front) {
        PartIsSorted(a, front);
      } else {
        PartIsSorted(a[..|a| - 1], front);
        PartHolds(a[..|a| - 1], front);
        assert a == a[..|a| - 1] + [last];
        SortedAppend(a[..|a| - 1], last);
      }
    }
  }

  /** What is kept is part of the sorted input; every input entry is at or below a
      kept one; nothing kept lies below an earlier kept one. */
  lemma {:induction false} KeepIsACover(s: seq<Candidate>, key: string -> string)
    ensures PartOf(Keep(s, key), s)
    ensures forall c | c in s :: CoveredBy(Keep(s, key), key, KeyOf(c, key))
    ensures forall i, j | 0 <= i < j < |Keep(s, key)| ::
      !Covers(KeyOf(Keep(s, key)[i], key), KeyOf(Keep(s, key)[j], key))
  {
    if s == [] {
    } else {
      var front, last := s[..|s| - 1], s[|s| - 1];
      KeepIsACover(front, key);
      forall c | c in s
        ensures CoveredBy(Keep(s, key), key, KeyOf(c, key))
      {
        if c in front {
          var k :| k in Keep(front, key) && Covers(key(TextOf(k)), KeyOf(c, key));
          assert k in Keep(s, key);
        } else {
          assert c == last;
          assert !CoveredBy(Keep(front, key), key, KeyOf(c, key)) ==> last in Keep(s, key);
        }
      }
    }
  }

  /** A list in which no entry covers a later one is kept whole. */
  lemma {:induction false} KeepsAll(s: seq<Candidate>, key: string -> string)
    requires forall i, j | 0 <= i < j < |s| :: !Covers(KeyOf(s[i], key), KeyOf(s[j], key))
    ensures Keep(s, key) == s
  {
    if s == [] {
    } else {
      KeepsAll(s[..|s| - 1], key);
      assert s == s[..|s| - 1] + [s[|s| - 1]];
    }
  }

  /** Collapsing twice is collapsing once. */
  lemma CollapseTwice(s: seq<Candidate>, key: string -> string)
    ensures var once := Keep(Sort(s), key);
      Keep(Sort(once), key) == once
  {
    var once := Keep(Sort(s), key);
    SortSorts(s);
    KeepIsACover(Sort(s), key);
    PartIsSorted(once, Sort(s));
    SortOfSorted(once);
    KeepsAll(once, key);
  }

  /** The names of `p` begin those of `q`, in any letter case. */
  predicate AboveByName(p: Path, q: Path) {
    Lowered(p) <= Lowered(q)
  }

  lemma KeysByName(prefix: string, p: Path, q: Path)
    requires Named(p) && Named(q)
    ensures Covers(prefix + PathKey(p), prefix + PathKey(q)) <==> AboveByName(p, q)
  {
    KeyIsJoin(p);
    NamedIsPlain(p);
    LastOfJoin(Lowered(p));
    CoversBehind(prefix, PathKey(p), PathKey(q));
    CoversNames(p, q);
  }

  /** What the canonical keys say: `at` is where each path leads, spelled behind a common
      prefix. */
  ghost predicate KeysOfPaths(s: seq<Candidate>, key: string -> string, prefix: string, at: Candidate -> Path) {
    forall c | c in s :: Named(at(c)) && KeyOf(c, key) == prefix + PathKey(at(c))
  }

  ghost predicate LeadsWithin(kept: seq<Candidate>, at: Candidate -> Path, c: Candidate) {
    exists k :: k in kept && AboveByName(at(k), at(c))
  }

  ghost predicate NotWithin(kept: seq<Candidate>, at: Candidate -> Path, i: nat, j: nat)
    requires i < |kept| && j < |kept|
  {
    !AboveByName(at(kept[i]), at(kept[j]))
  }

  /** No candidate is dropped but one that leads, name by name, to or below where a kept
      one leads, and no kept one leads to or below where an earlier one does. */
  ghost predicate CollapsedByName(s: seq<Candidate>, kept: seq<Candidate>, at: Candidate -> Path) {
    && (forall c | c in kept :: c in s)
    && (forall c | c in s :: LeadsWithin(kept, at, c))
    && forall i, j | 0 <= i < j < |kept| :: NotWithin(kept, at, i, j)
  }

  lemma PairByName(s: seq<Candidate>, key: string -> string, prefix: string, at: Candidate -> Path,
                   a: Candidate, b: Candidate)
    requires KeysOfPaths(s, key, prefix, at) && a in s && b in s
    ensures Covers(KeyOf(a, key), KeyOf(b, key)) <==> AboveByName(at(a), at(b))
  {
    hide AboveByName, Covers, Named;
    KeysByName(prefix, at(a), at(b));
  }

  lemma CoveredLeadsWithin(s: seq<Candidate>, kept: seq<Candidate>, key: string -> string, prefix: string,
                           at: Candidate -> Path, c: Candidate)
    requires KeysOfPaths(s, key, prefix, at) && (forall k | k in kept :: k in s) && c in s
    requires CoveredBy(kept, key, KeyOf(c, key))
    ensures LeadsWithin(kept, at, c)
  {
    hide AboveByName, Covers, KeysOfPaths, TextOf;
    var k :| k in kept && Covers(key(TextOf(k)), KeyOf(c, key));
    PairByName(s, key, prefix, at, k, c);
  }

  lemma CoverByName(s: seq<Candidate>, kept: seq<Candidate>, key: string -> string, prefix: string,
                    at: Candidate -> Path)
    requires KeysOfPaths(s, key, prefix, at) && forall c | c in kept :: c in s
    requires forall c | c in s :: CoveredBy(kept, key, KeyOf(c, key))
    requires forall i, j | 0 <= i < j < |kept| :: !Covers(KeyOf(kept[i], key), KeyOf(kept[j], key))
    ensures CollapsedByName(s, kept, at)
  {
    hide AboveByName, Covers, KeysOfPaths, KeyOf, CoveredBy, LeadsWithin;
    forall c | c in s
      ensures LeadsWithin(kept, at, c)
    {
      CoveredLeadsWithin(s, kept, key, prefix, at, c);
    }
    forall i, j | 0 <= i < j < |kept|
      ensures NotWithin(kept, at, i, j)
    {
      PairByName(s, key, prefix, at, kept[i], kept[j]);
    }
  }

  /** For keys that are where the paths lead, collapsing goes by names: a sibling whose
      name only begins like that of a kept candidate stays. */
  lemma CollapseByNames(s: seq<Candidate>, key: string -> string, prefix: string, at: Candidate -> Path)
    requires KeysOfPaths(s, key, prefix, at)
    ensures CollapsedByName(s, Keep(Sort(s), key), at)
  {
    hide Sort, Keep, CollapsedByName, CoveredBy, Covers, KeyOf, Named;
    var kept := Keep(Sort(s), key);
    assert forall c :: c in Sort(s) <==> c in s by {
      SortSorts(s);
      assert forall c :: c in Sort(s) <==> c in multiset(s);
    }
    KeepIsACover(Sort(s), key);
    PartHolds(kept, Sort(s));
    CoverByName(s, kept, key, prefix, at);
  }

  // ---- independence of the order of discovery ----

  function KeepTexts(t: seq<string>, key: string -> string): seq<string> {
    if t == [] then []
    else
      var kept := KeepTexts(t[..|t| - 1], key);
      if exists k | k in kept :: Covers(key(k), key(t[|t| - 1])) then kept else kept + [t[|t| - 1]]
  }

  lemma CoveredByText(kept: seq<Candidate>, key: string -> string, x: string)
    ensures CoveredBy(kept, key, x) <==> exists k | k in Texts(kept) :: Covers(key(k), x)
  {
    forall k | k in kept
      ensures TextOf(k) in Texts(kept)
    {
      var i :| 0 <= i < |kept| && kept[i] == k;
      assert Texts(kept)[i] == TextOf(k);
    }
    forall t | t in Texts(kept)
      ensures exists k :: k in kept && TextOf(k) == t
    {
      var i :| 0 <= i < |kept| && Texts(kept)[i] == t;
      assert kept[i] in kept;
    }
  }

  lemma {:induction false} KeepByText(s: seq<Candidate>, key: string -> string)
    ensures Texts(Keep(s, key)) == KeepTexts(Texts(s), key)
  {
    if s == [] {
    } else {
      var front, last := s[..|s| - 1], s[|s| - 1];
      var kept := Keep(front, key);
      KeepByText(front, key);
      assert Texts(s)[..|s| - 1] == Texts(front);
      CoveredByText(kept, key, key(TextOf(last)));
      TextsAppend(kept, last);
    }
  }

  lemma TextsAppend(s: seq<Candidate>, c: Candidate)
    ensures Texts(s + [c]) == Texts(s) + [TextOf(c)]
  {
  }

  lemma {:induction false} InsertTexts(s: seq<Candidate>, c: Candidate)
    ensures multiset(Texts(Insert(s, c))) == multiset(Texts(s)) + multiset{TextOf(c)}
  {
    if s == [] || Le(TextOf(s[|s| - 1]), TextOf(c)) {
      TextsAppend(s, c);
    } else {
      var front, last := s[..|s| - 1], s[|s| - 1];
      InsertTexts(front, c);
      TextsAppend(Insert(front, c), last);
      TextsAppend(front, last);
      assert s == front + [last];
    }
  }

  lemma SortedTexts(s: seq<Candidate>)
    requires Sorted(s)
    ensures Ordered(Texts(s))
  {
  }

  lemma {:induction false} SortTexts(s: seq<Candidate>)
    ensures multiset(Texts(Sort(s))) == multiset(Texts(s))
  {
    if s == [] {
    } else {
      var front, last := s[..|s| - 1], s[|s| - 1];
      SortTexts(front);
      InsertTexts(Sort(front), last);
      assert Texts(s) == Texts(front) + [TextOf(last)] by {
        TextsAppend(front, last);
        assert s == front + [last];
      }
    }
  }

  lemma WithoutLast(a: seq<string>)
    requires a != []
    ensures multiset(a[..|a| - 1]) == multiset(a) - multiset{a[|a| - 1]}
  {
    assert a == a[..|a| - 1] + [a[|a| - 1]];
  }

  lemma SameLast(a: seq<string>, b: seq<string>)
    requires Ordered(a) && Ordered(b) && multiset(a) == multiset(b) && a != [] && b != []
    ensures a[|a| - 1] == b[|b| - 1]
  {
    var x, y := a[|a| - 1], b[|b| - 1];
    assert x in multiset(b) && y in multiset(a);
    LastIsGreatest(a, y);
    LastIsGreatest(b, x);
    LeTotal(x, y);
  }

  /** A collection of texts can be put in order in one way only. */
  lemma {:induction false} OneOrder(a: seq<string>, b: seq<string>)
    requires Ordered(a) && Ordered(b) && multiset(a) == multiset(b)
    ensures a == b
  {
    hide Le;
    assert |multiset(a)| == |a| && |multiset(b)| == |b|;
    if a == [] {
    } else {
      SameLast(a, b);
      WithoutLast(a);
      WithoutLast(b);
      OneOrder(a[..|a| - 1], b[..|b| - 1]);
      assert a == a[..|a| - 1] + [a[|a| - 1]] && b == b[..|b| - 1] + [b[|b| - 1]];
    }
  }

  lemma LastIsGreatest(a: seq<string>, x: string)
    requires Ordered(a) && x in a
    ensures Le(x, a[|a| - 1])
  {
    LeTotal(x, x);
  }

  /** Whichever way the same paths were found, the same paths are kept, in the same
      order. */
  lemma OrderDoesNotMatter(a: seq<Candidate>, b: seq<Candidate>, key: string -> string)
    requires multiset(Texts(a)) == multiset(Texts(b))
    ensures Texts(Keep(Sort(a), key)) == Texts(Keep(Sort(b), key))
  {
    SortTexts(a);
    SortTexts(b);
    SortSorts(a);
    SortSorts(b);
    SortedTexts(Sort(a));
    SortedTexts(Sort(b));
    OneOrder(Texts(Sort(a)), Texts(Sort(b)));
    KeepByText(Sort(a), key);
    KeepByText(Sort(b), key);
  }

  // ---- no candidate inside another ----

  predicate Antichain(s: seq<Candidate>, key: string -> string) {
    forall i, j | 0 <= i < |s| && 0 <= j < |s| && i != j :: !Covers(KeyOf(s[i], key), KeyOf(s[j], key))
  }

  predicate HasKey(s: seq<Candidate>, key: string -> string, k: string) {
    exists c | c in s :: KeyOf(c, key) == k
  }

  /** A key of the input that no other key of the input covers. */
  predicate Outermost(s: seq<Candidate>, key: string -> string, k: string) {
    HasKey(s, key, k) && forall c | c in s :: Covers(KeyOf(c, key), k) ==> KeyOf(c, key) == k
  }

  /** No entry before the `i`-th covers it. */
  predicate Free(s: seq<Candidate>, key: string -> string, i: nat)
    requires i < |s|
  {
    forall k | 0 <= k < i :: !Covers(KeyOf(s[k], key), KeyOf(s[i], key))
  }

  predicate StandsFree(s: seq<Candidate>, key: string -> string, c: Candidate) {
    exists i | 0 <= i < |s| :: s[i] == c && Free(s, key, i)
  }

  /** Whatever a later entry covers, unless they have the same key, an earlier one
      covers. */
  predicate Untangled(s: seq<Candidate>, key: string -> string) {
    forall i, j | 0 <= i < j < |s| && Covers(KeyOf(s[j], key), KeyOf(s[i], key)) && KeyOf(s[i], key) != KeyOf(s[j], key)
      :: !Free(s, key, i)
  }

  lemma FreeIsUncovered(front: seq<Candidate>, last: Candidate, key: string -> string)
    requires forall c | c in front :: !Covers(KeyOf(c, key), KeyOf(last, key))
    ensures !CoveredBy(Keep(front, key), key, KeyOf(last, key))
  {
    KeepIsACover(front, key);
    PartHolds(Keep(front, key), front);
  }

  lemma {:induction false} FreeIsKept(s: seq<Candidate>, key: string -> string, i: nat)
    requires i < |s| && Free(s, key, i)
    ensures s[i] in Keep(s, key)
  {
    var front, last := s[..|s| - 1], s[|s| - 1];
    if i < |front| {
      assert s[i] in Keep(front, key) by {
        FreeIsKept(front, key, i);
      }
    } else {
      assert !CoveredBy(Keep(front, key), key, KeyOf(last, key)) by {
        assert forall k | 0 <= k < |front| :: front[k] == s[k];
        FreeIsUncovered(front, last, key);
      }
    }
  }

  lemma UncoveredIsFree(front: seq<Candidate>, last: Candidate, key: string -> string)
    requires !CoveredBy(Keep(front, key), key, KeyOf(last, key))
    ensures Free(front + [last], key, |front|)
  {
    hide Covers, TextOf, Keep;
    KeepIsACover(front, key);
    forall k | 0 <= k < |front|
      ensures !Covers(KeyOf(front[k], key), KeyOf(last, key))
    {
      assert front[k] in front;
      var y :| y in Keep(front, key) && Covers(key(TextOf(y)), KeyOf(front[k], key));
      if Covers(KeyOf(front[k], key), KeyOf(last, key)) {
        CoversTransitive(KeyOf(y, key), KeyOf(front[k], key), KeyOf(last, key));
      }
    }
  }

  lemma {:induction false} KeptIsFree(s: seq<Candidate>, key: string -> string, c: Candidate)
    requires c in Keep(s, key)
    ensures StandsFree(s, key, c)
  {
    hide Covers, TextOf;
    var front, last := s[..|s| - 1], s[|s| - 1];
    if c in Keep(front, key) {
      KeptIsFree(front, key, c);
      var i :| 0 <= i < |front| && front[i] == c && Free(front, key, i);
      assert s[i] == c && Free(s, key, i);
    } else {
      UncoveredIsFree(front, last, key);
      assert s == front + [last];
    }
  }

  /** A kept entry covers no other one: `p` and `q` are where they stand in the input. */
  lemma UntangledApart(s: seq<Candidate>, key: string -> string, kept: seq<Candidate>, i: nat, j: nat, p: nat, q: nat)
    requires Untangled(s, key) && i < |kept| && j < |kept| && i != j && p < |s| && q < |s| && Free(s, key, p)
    requires kept[j] == s[p] && kept[i] == s[q]
    requires forall a, b | 0 <= a < b < |kept| :: !Covers(KeyOf(kept[a], key), KeyOf(kept[b], key))
    ensures !Covers(KeyOf(kept[i], key), KeyOf(kept[j], key))
  {
    CoversItself(KeyOf(kept[i], key));
  }

  lemma FreeOnesAreApart(s: seq<Candidate>, key: string -> string, kept: seq<Candidate>)
    requires Untangled(s, key) && forall c | c in kept :: StandsFree(s, key, c)
    requires forall a, b | 0 <= a < b < |kept| :: !Covers(KeyOf(kept[a], key), KeyOf(kept[b], key))
    ensures Antichain(kept, key)
  {
    forall i, j | 0 <= i < |kept| && 0 <= j < |kept| && i != j
      ensures !Covers(KeyOf(kept[i], key), KeyOf(kept[j], key))
    {
      assert StandsFree(s, key, kept[i]) && StandsFree(s, key, kept[j]);
      var q :| 0 <= q < |s| && s[q] == kept[i] && Free(s, key, q);
      var p :| 0 <= p < |s| && s[p] == kept[j] && Free(s, key, p);
      UntangledApart(s, key, kept, i, j, p, q);
    }
  }

  lemma UntangledIsAntichain(s: seq<Candidate>, key: string -> string)
    requires Untangled(s, key)
    ensures Antichain(Keep(s, key), key)
  {
    KeepIsACover(s, key);
    forall c | c in Keep(s, key)
      ensures StandsFree(s, key, c)
    {
      KeptIsFree(s, key, c);
    }
    FreeOnesAreApart(s, key, Keep(s, key));
  }

  lemma AboveKept(kept: seq<Candidate>, key: string -> string, x: Candidate, y: Candidate)
    requires Antichain(kept, key) && x in kept && CoveredBy(kept, key, KeyOf(y, key))
    ensures Covers(KeyOf(y, key), KeyOf(x, key)) ==> KeyOf(x, key) == KeyOf(y, key)
  {
    var z :| z in kept && Covers(key(TextOf(z)), KeyOf(y, key));
    var a :| 0 <= a < |kept| && kept[a] == z;
    var b :| 0 <= b < |kept| && kept[b] == x;
    if Covers(KeyOf(y, key), KeyOf(x, key)) {
      CoversTransitive(KeyOf(z, key), KeyOf(y, key), KeyOf(x, key));
      assert a == b;
      CoversAntisymmetric(KeyOf(x, key), KeyOf(y, key));
    }
  }

  lemma AntichainIsUntangled(s: seq<Candidate>, key: string -> string)
    requires Antichain(Keep(s, key), key)
    ensures Untangled(s, key)
  {
    forall i, j | 0 <= i < j < |s| && Free(s, key, i)
      ensures Covers(KeyOf(s[j], key), KeyOf(s[i], key)) ==> KeyOf(s[i], key) == KeyOf(s[j], key)
    {
      FreeIsKept(s, key, i);
      KeepIsACover(s, key);
      assert s[j] in s;
      AboveKept(Keep(s, key), key, s[i], s[j]);
    }
  }

  /** No kept candidate lies inside another, and the kept keys are exactly the
      outermost ones, if and only if what a later entry of the input covers is always
      covered by an earlier one, too. */
  lemma KeptAreOutermost(s: seq<Candidate>, key: string -> string)
    ensures Antichain(Keep(s, key), key) <==> Untangled(s, key)
    ensures (forall k :: HasKey(Keep(s, key), key, k) <==> Outermost(s, key, k)) <==> Untangled(s, key)
  {
    if Untangled(s, key) {
      UntangledIsAntichain(s, key);
      forall k
        ensures HasKey(Keep(s, key), key, k) <==> Outermost(s, key, k)
      {
        KeptKey(s, key, k);
      }
    }
    if forall k :: HasKey(Keep(s, key), key, k) <==> Outermost(s, key, k) {
      OutermostIsAntichain(s, key);
    }
    if Antichain(Keep(s, key), key) {
      AntichainIsUntangled(s, key);
    }
  }

  lemma OutermostApart(s: seq<Candidate>, key: string -> string, kept: seq<Candidate>)
    requires forall c | c in kept :: c in s && Outermost(s, key, KeyOf(c, key))
    requires forall a, b | 0 <= a < b < |kept| :: !Covers(KeyOf(kept[a], key), KeyOf(kept[b], key))
    ensures Antichain(kept, key)
  {
    forall i, j | 0 <= i < |kept| && 0 <= j < |kept| && i != j
      ensures !Covers(KeyOf(kept[i], key), KeyOf(kept[j], key))
    {
      assert kept[i] in s && Outermost(s, key, KeyOf(kept[j], key));
      CoversItself(KeyOf(kept[i], key));
    }
  }

  lemma OutermostIsAntichain(s: seq<Candidate>, key: string -> string)
    requires forall k :: HasKey(Keep(s, key), key, k) <==> Outermost(s, key, k)
    ensures Antichain(Keep(s, key), key)
  {
    var kept := Keep(s, key);
    KeepIsACover(s, key);
    PartHolds(kept, s);
    forall c | c in kept
      ensures c in s && Outermost(s, key, KeyOf(c, key))
    {
      assert HasKey(kept, key, KeyOf(c, key));
    }
    OutermostApart(s, key, kept);
  }

  lemma KeptKey(s: seq<Candidate>, key: string -> string, k: string)
    requires Antichain(Keep(s, key), key)
    ensures HasKey(Keep(s, key), key, k) <==> Outermost(s, key, k)
  {
    var kept := Keep(s, key);
    KeepIsACover(s, key);
    if HasKey(kept, key, k) {
      var c :| c in kept && KeyOf(c, key) == k;
      forall x | x in s && Covers(KeyOf(x, key), k)
        ensures KeyOf(x, key) == k
      {
        var y :| y in kept && Covers(key(TextOf(y)), KeyOf(x, key));
        CoversTransitive(KeyOf(y, key), KeyOf(x, key), k);
        assert y == c by {
          var i :| 0 <= i < |kept| && kept[i] == y;
          var j :| 0 <= j < |kept| && kept[j] == c;
        }
        CoversAntisymmetric(KeyOf(x, key), k);
      }
      assert c in s by {
        PartHolds(kept, s);
      }
    }
    if Outermost(s, key, k) {
      var c :| c in s && KeyOf(c, key) == k;
      var y :| y in kept && Covers(key(TextOf(y)), KeyOf(c, key));
      PartHolds(kept, s);
      assert KeyOf(y, key) == k;
    }
  }

  /** Where a longer path never has a shorter key, as when each path is its own
      canonical spelling behind a common prefix, the sorted list is untangled. */
  lemma LengthOrderUntangles(s: seq<Candidate>, key: string -> string)
    requires Sorted(s)
    requires forall c, d | c in s && d in s && |TextOf(c)| <= |TextOf(d)| :: |KeyOf(c, key)| <= |KeyOf(d, key)|
    ensures Untangled(s, key)
  {
    forall i, j | 0 <= i < j < |s| && Covers(KeyOf(s[j], key), KeyOf(s[i], key))
      ensures KeyOf(s[i], key) == KeyOf(s[j], key)
    {
      assert s[i] in s && s[j] in s;
      CoversIsPrefix(KeyOf(s[j], key), KeyOf(s[i], key));
    }
  }

  lemma KeepsBoth(a: Candidate, b: Candidate, key: string -> string)
    requires |TextOf(a)| < |TextOf(b)| && !Covers(KeyOf(a, key), KeyOf(b, key))
    ensures Keep(Sort([a, b]), key) == [a, b]
  {
    hide Sort, Keep, Covers, TextOf, LexLe;
    var s := [a, b];
    assert Sorted(s);
    SortOfSorted(s);
    KeepsAll(s, key);
  }

  const NEAR := Candidate(["C:", "N"], "NGX", true)
  const FAR := Candidate(["D:", "NVIDIA"], "NGX", true)

  lemma NearAndFar()
    ensures TextOf(NEAR) == "C:\\N" && TextOf(FAR) == "D:\\NVIDIA"
  {
    assert Parent(NEAR.path) == ["C:"] && Parent(FAR.path) == ["D:"];
  }

  lemma BehindPrefix(prefix: string, a: string, b: string)
    ensures Covers(prefix + a, prefix + a + "\\" + b)
    ensures |a| > |b| ==> !Covers(prefix + a, prefix + b) || prefix + a == ""
  {
    assert prefix + a + "\\" + b == (prefix + a + "\\") + b;
    if Covers(prefix + a, prefix + b) {
      CoversIsPrefix(prefix + a, prefix + b);
    }
  }

  /** A shorter path can lead deeper than a longer one, here a link into a folder that
      is a candidate, too; then both are kept, one inside the other. */
  lemma ShorterPathMayLeadDeeper(key: string -> string)
    requires key(TextOf(NEAR)) == "\\\\?\\d:\\nvidia\\data" && key(TextOf(FAR)) == "\\\\?\\d:\\nvidia"
    ensures Keep(Sort([NEAR, FAR]), key) == [NEAR, FAR] && !Antichain([NEAR, FAR], key)
  {
    hide Le, LexLe, TextOf, PathText, Covers, Keep, Sort;
    var s := [NEAR, FAR];
    var prefix, target, inside := "\\\\?\\", "d:\\nvidia", "d:\\nvidia\\data";
    NearAndFar();
    assert key(TextOf(NEAR)) == prefix + inside && key(TextOf(FAR)) == prefix + target;
    assert prefix + target + "\\" + "data" == prefix + inside;
    BehindPrefix(prefix, inside, target);
    KeepsBoth(NEAR, FAR, key);
    BehindPrefix(prefix, target, "data");
    assert Covers(KeyOf(s[1], key), KeyOf(s[0], key));
  }
}
