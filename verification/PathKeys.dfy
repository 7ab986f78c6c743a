/** Lowercased paths as text, and what comparing that text says about the names they
    are made of. */
module PathKeys {
  import opened FileSystem
  import opened RunState
  import opened Text

  /** Names with backslashes between them. */
  function Join(names: seq<string>): string {
    if names == [] then "" else if |names| == 1 then names[0] else names[0] + ("\\" + Join(names[1..]))
  }

  function Lowered(p: Path): seq<string> {
    seq(|p|, i requires 0 <= i < |p| => Lower(p[i]))
  }

  /** No name holds a backslash, as no file name does. */
  predicate Plain(names: seq<string>) {
    forall n | n in names :: '\\' !in n
  }

  /** A path as the file system gives it: names that are not empty and hold no
      backslash. */
  predicate Named(p: Path) {
    p != [] && forall n | n in p :: n != "" && '\\' !in n
  }

  // ---- keys are joined names ----

  lemma {:induction false} JoinAppend(a: seq<string>, n: string)
    requires a != []
    ensures Join(a + [n]) == Join(a) + ("\\" + n)
  {
    if |a| == 1 {
      assert (a + [n])[1..] == [n];
    } else {
      assert (a + [n])[1..] == a[1..] + [n];
      JoinAppend(a[1..], n);
    }
  }

  lemma ChildKey(p: Path, n: Name)
    requires p != []
    ensures PathKey(p + [n]) == PathKey(p) + ("\\" + Lower(n))
  {
    assert Parent(p + [n]) == p && Leaf(p + [n]) == n;
    LowerConcat(PathText(p) + "\\", n);
    LowerConcat(PathText(p), "\\");
    assert Lower("\\") == "\\";
  }

  lemma {:induction false} KeyIsJoin(p: Path)
    ensures PathKey(p) == Join(Lowered(p))
  {
    if |p| <= 1 {
      assert p == [] ==> Lower("") == "";
    } else {
      KeyIsJoin(Parent(p));
      assert p == Parent(p) + [Leaf(p)];
      ChildKey(Parent(p), Leaf(p));
      JoinAppend(Lowered(Parent(p)), Lower(Leaf(p)));
      assert Lowered(p) == Lowered(Parent(p)) + [Lower(Leaf(p))];
    }
  }

  lemma NamedIsPlain(p: Path)
    requires Named(p)
    ensures Plain(Lowered(p)) && Lowered(p) != [] && forall n | n in Lowered(p) :: n != ""
  {
    forall n | n in Lowered(p)
      ensures '\\' !in n && n != ""
    {
      var i :| 0 <= i < |p| && Lowered(p)[i] == n;
      assert p[i] in p;
      forall k | 0 <= k < |n|
        ensures n[k] != '\\'
      {
        assert p[i][k] in p[i] && n[k] == LowerChar(p[i][k]);
      }
    }
  }

  // ---- beginnings ----

  lemma PlainRest(names: seq<string>)
    requires Plain(names) && names != []
    ensures '\\' !in names[0] && Plain(names[1..])
  {
    assert names[0] in names && forall n | n in names[1..] :: n in names;
  }

  /** The first backslash ends the first name. */
  lemma SameHead(x: string, s: string, y: string, t: string)
    requires '\\' !in x && '\\' !in y
    ensures x + ("\\" + s) <= y + ("\\" + t) <==> x == y && s <= t
  {
    var a, b := x + ("\\" + s), y + ("\\" + t);
    assert a[|x|] == '\\' && b[|y|] == '\\';
    if a <= b {
      assert b[|x|] == '\\' && (|y| < |a| ==> a[|y|] == '\\');
      assert forall k | 0 <= k < |y| :: b[k] == y[k] && y[k] in y;
      assert forall k | 0 <= k < |x| :: a[k] == x[k] && x[k] in x;
      assert |x| == |y|;
      assert a[..|x|] == x && b[..|x|] == y && a[|x| + 1..] == s && b[|x| + 1..] == t;
    }
  }

  lemma NoBackslash(x: string, s: string, y: string)
    requires '\\' !in y
    ensures !(x + ("\\" + s) <= y)
  {
    if |x| < |y| {
      assert (x + ("\\" + s))[|x|] == '\\' && y[|x|] in y;
    }
  }

  /** The text of `a` and a backslash begin the text of `b` exactly when `a` begins `b`
      and ends before it. */
  lemma {:induction false} ClosedPrefix(a: seq<string>, b: seq<string>)
    requires a != [] && Plain(a) && Plain(b)
    ensures Join(a) + "\\" <= Join(b) <==> |a| < |b| && a == b[..|a|]
  {
    PlainRest(a);
    if b == [] {
    } else if |b| == 1 {
      PlainRest(b);
      if |a| == 1 {
        assert Join(a) + "\\" == a[0] + ("\\" + "");
        NoBackslash(a[0], "", b[0]);
      } else {
        assert Join(a) + "\\" == a[0] + ("\\" + (Join(a[1..]) + "\\"));
        NoBackslash(a[0], Join(a[1..]) + "\\", b[0]);
      }
    } else if |a| == 1 {
      PlainRest(b);
      assert Join(a) + "\\" == a[0] + ("\\" + "");
      SameHead(a[0], "", b[0], Join(b[1..]));
    } else {
      PlainRest(b);
      assert Join(a) + "\\" == a[0] + ("\\" + (Join(a[1..]) + "\\"));
      SameHead(a[0], Join(a[1..]) + "\\", b[0], Join(b[1..]));
      ClosedPrefix(a[1..], b[1..]);
      FirstAndRest(a, b);
    }
  }

  lemma FirstAndRest(a: seq<string>, b: seq<string>)
    requires |a| > 1 && |b| > 1
    ensures |a| <= |b| && a == b[..|a|] <==>
      a[0] == b[0] && |a[1..]| <= |b[1..]| && a[1..] == b[1..][..|a[1..]|]
  {
    if |a| <= |b| && a[0] == b[0] && a[1..] == b[1..][..|a[1..]|] {
      assert a == [a[0]] + a[1..] && b[..|a|] == [b[0]] + b[1..][..|a[1..]|];
    }
    if |a| <= |b| && a == b[..|a|] {
      assert a[1..] == b[1..][..|a| - 1];
    }
  }

  /** `a` begins `b` up to its last name, which only begins the name in its place. */
  predicate OpenPrefix(a: seq<string>, b: seq<string>) {
    a != [] && |a| <= |b| && a[..|a| - 1] == b[..|a| - 1] && a[|a| - 1] <= b[|a| - 1]
  }

  lemma WithinFirst(x: string, y: string, t: string)
    requires '\\' !in x
    ensures x <= y + ("\\" + t) <==> x <= y
  {
    var s := y + ("\\" + t);
    if |x| > |y| {
      assert s[|y|] == '\\' && x[|y|] in x;
    } else {
      assert s[..|x|] == y[..|x|];
    }
  }

  lemma OpenRest(a: seq<string>, b: seq<string>)
    requires |a| > 1 && |b| > 1
    ensures OpenPrefix(a, b) <==> a[0] == b[0] && OpenPrefix(a[1..], b[1..])
  {
    if |a| <= |b| {
      var x, y := a[..|a| - 1], b[..|a| - 1];
      assert a[1..][..|a[1..]| - 1] == x[1..] && b[1..][..|a[1..]| - 1] == y[1..];
      assert x == [a[0]] + x[1..] && y == [b[0]] + y[1..];
    }
  }

  lemma {:induction false} OpenJoin(a: seq<string>, b: seq<string>)
    requires a != [] && b != [] && Plain(a) && Plain(b)
    ensures Join(a) <= Join(b) <==> OpenPrefix(a, b)
  {
    PlainRest(a);
    PlainRest(b);
    if |a| == 1 {
      if |b| > 1 {
        WithinFirst(a[0], b[0], Join(b[1..]));
      }
    } else if |b| == 1 {
      NoBackslash(a[0], Join(a[1..]), b[0]);
    } else {
      SameHead(a[0], Join(a[1..]), b[0], Join(b[1..]));
      OpenJoin(a[1..], b[1..]);
      OpenRest(a, b);
    }
  }

  lemma JoinInjective(a: seq<string>, b: seq<string>)
    requires a != [] && b != [] && Plain(a) && Plain(b) && Join(a) == Join(b)
    ensures a == b
  {
    OpenJoin(a, b);
    OpenJoin(b, a);
    assert |a| == |b| && a[|a| - 1] == b[|b| - 1];
    assert a == a[..|a| - 1] + [a[|a| - 1]] && b == b[..|b| - 1] + [b[|b| - 1]];
  }

  // ---- names further behind ----

  lemma {:induction false} JoinParts(b: seq<string>, i: nat)
    requires 0 < i < |b|
    ensures Join(b) == Join(b[..i]) + ("\\" + Join(b[i..]))
  {
    if i == 1 {
      assert b[..1] == [b[0]];
    } else {
      JoinParts(b[1..], i - 1);
      assert b[1..][..i - 1] == b[..i][1..] && b[1..][i - 1..] == b[i..];
    }
  }

  /** Behind every backslash of the text a name begins. */
  lemma {:induction false} NameBehind(b: seq<string>, k: nat) returns (i: nat)
    requires Plain(b) && k < |Join(b)| && Join(b)[k] == '\\'
    ensures 0 < i < |b| && Join(b)[k + 1..] == Join(b[i..])
  {
    PlainRest(b);
    assert forall j | 0 <= j < |b[0]| :: b[0][j] in b[0];
    assert |b| > 1;
    var rest := Join(b[1..]);
    assert Join(b) == b[0] + ("\\" + rest) && Join(b)[|b[0]| + 1..] == rest;
    assert k >= |b[0]|;
    if k == |b[0]| {
      i := 1;
    } else {
      var j := NameBehind(b[1..], k - |b[0]| - 1);
      i := j + 1;
      assert b[1..][j..] == b[i..];
    }
  }

  lemma Behind(s: string, v: string)
    ensures Contains(s, "\\" + v) <==> exists k: nat :: BackslashAt(s, k) && v <= s[k + 1..]
  {
    var u := "\\" + v;
    forall k: nat | ContainsAt(s, u, k)
      ensures BackslashAt(s, k) && v <= s[k + 1..]
    {
      assert s[k..k + |u|][0] == '\\' && s[k..k + |u|][1..] == v;
      assert s[k + 1..][..|v|] == s[k..k + |u|][1..];
    }
    forall k: nat | BackslashAt(s, k) && v <= s[k + 1..]
      ensures ContainsAt(s, u, k)
    {
      assert s[k..k + |u|] == [s[k]] + s[k + 1..][..|v|];
    }
  }

  lemma AtTheEnd(s: string, v: string)
    ensures EndsWith(s, "\\" + v) <==> exists k: nat :: BackslashAt(s, k) && v == s[k + 1..]
  {
    var u := "\\" + v;
    forall k: nat | BackslashAt(s, k) && v == s[k + 1..]
      ensures EndsWith(s, u)
    {
      assert s[k..] == [s[k]] + s[k + 1..];
    }
    if EndsWith(s, u) {
      var k := |s| - |u|;
      assert s[k..][0] == '\\' && s[k..][1..] == s[k + 1..] && u[1..] == v;
      assert BackslashAt(s, k);
    }
  }

  predicate BackslashAt(s: string, k: nat) {
    k < |s| && s[k] == '\\'
  }

  /** A name behind the first begins here, and from there on the text begins with `v`. */
  predicate FromName(b: seq<string>, v: string, i: nat) {
    0 < i < |b| && v <= Join(b[i..])
  }

  lemma NameAfterBackslash(b: seq<string>, i: nat)
    requires 0 < i < |b|
    ensures BackslashAt(Join(b), |Join(b[..i])|) && Join(b)[|Join(b[..i])| + 1..] == Join(b[i..])
  {
    JoinParts(b, i);
  }

  lemma FoundBehind(b: seq<string>, v: string)
    requires Plain(b)
    ensures Contains(Join(b), "\\" + v) <==> exists i: nat :: FromName(b, v, i)
  {
    hide Join, Contains;
    Behind(Join(b), v);
    if k: nat :| BackslashAt(Join(b), k) && v <= Join(b)[k + 1..] {
      var i := NameBehind(b, k);
      assert FromName(b, v, i);
    }
    if i: nat :| FromName(b, v, i) {
      NameAfterBackslash(b, i);
    }
  }

  lemma PlainFrom(b: seq<string>, i: nat)
    requires Plain(b) && i <= |b|
    ensures Plain(b[i..])
  {
    assert forall n | n in b[i..] :: n in b;
  }

  // ---- names within a path ----

  /** The names `m` stand in `b` from `i` on, and something is before and behind them. */
  predicate StandAt(b: seq<string>, m: seq<string>, i: nat) {
    0 < i && i + |m| < |b| && b[i..i + |m|] == m
  }

  predicate Inside(b: seq<string>, m: seq<string>) {
    exists i: nat | i < |b| :: StandAt(b, m, i)
  }

  /** The names `m` stand in `b` from `i` on, the last as the beginning of one, and
      something is before them. */
  predicate BeginAt(b: seq<string>, m: seq<string>, i: nat) {
    0 < i < |b| && OpenPrefix(m, b[i..])
  }

  predicate Begun(b: seq<string>, m: seq<string>) {
    exists i: nat | i < |b| :: BeginAt(b, m, i)
  }

  /** The names `m` end `b`, and something is before them. */
  predicate Ending(b: seq<string>, m: seq<string>) {
    |m| < |b| && b[|b| - |m|..] == m
  }

  lemma StandText(b: seq<string>, m: seq<string>, i: nat)
    requires Plain(b) && Plain(m) && m != []
    ensures FromName(b, Join(m) + "\\", i) <==> StandAt(b, m, i)
  {
    if 0 < i < |b| {
      PlainFrom(b, i);
      ClosedPrefix(m, b[i..]);
      assert i + |m| <= |b| ==> b[i..][..|m|] == b[i..i + |m|];
    }
  }

  lemma InsideText(b: seq<string>, m: seq<string>)
    requires Plain(b) && Plain(m) && m != []
    ensures Contains(Join(b), "\\" + (Join(m) + "\\")) <==> Inside(b, m)
  {
    hide Join, Contains, StandAt, Plain;
    FoundBehind(b, Join(m) + "\\");
    forall i: nat
      ensures FromName(b, Join(m) + "\\", i) <==> StandAt(b, m, i)
    {
      StandText(b, m, i);
    }
  }

  lemma BeginText(b: seq<string>, m: seq<string>, i: nat)
    requires Plain(b) && Plain(m) && m != []
    ensures FromName(b, Join(m), i) <==> BeginAt(b, m, i)
  {
    if 0 < i < |b| {
      PlainFrom(b, i);
      OpenJoin(m, b[i..]);
    }
  }

  lemma BegunText(b: seq<string>, m: seq<string>)
    requires Plain(b) && Plain(m) && m != []
    ensures Contains(Join(b), "\\" + Join(m)) <==> Begun(b, m)
  {
    hide Join, Contains, Plain, OpenPrefix;
    FoundBehind(b, Join(m));
    forall i: nat
      ensures FromName(b, Join(m), i) <==> BeginAt(b, m, i)
    {
      BeginText(b, m, i);
    }
  }

  lemma EndingText(b: seq<string>, m: seq<string>)
    requires Plain(b) && Plain(m) && m != []
    ensures EndsWith(Join(b), "\\" + Join(m)) <==> Ending(b, m)
  {
    hide Join, EndsWith;
    AtTheEnd(Join(b), Join(m));
    if k: nat :| BackslashAt(Join(b), k) && Join(m) == Join(b)[k + 1..] {
      var i := NameBehind(b, k);
      PlainFrom(b, i);
      JoinInjective(m, b[i..]);
    }
    if Ending(b, m) {
      NameAfterBackslash(b, |b| - |m|);
    }
  }
}
