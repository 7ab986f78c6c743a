/** Building a Windows command line from arguments, and the splitting a child
    process applies to it. */
module CommandLine {
  function Backslashes(n: nat): (r: string)
    ensures |r| == n
  {
    seq(n, i => '\\')
  }

  const QUOTED_CHARS := [' ', '\t', '"', '&', '|', '<', '>', '^']

  predicate NeedsQuotes(a: string) {
    a == "" || exists i | 0 <= i < |a| :: a[i] in QUOTED_CHARS
  }

  /** What follows the opening quote when `pending` backslashes have been read but
      not yet written. */
  ghost function Encoded(arg: string, pending: nat): string
    decreases |arg|
  {
    if arg == "" then Backslashes(pending * 2) + "\""
    else if arg[0] == '\\' then Encoded(arg[1..], pending + 1)
    else if arg[0] == '"' then Backslashes(pending * 2 + 1) + "\"" + Encoded(arg[1..], 0)
    else Backslashes(pending) + [arg[0]] + Encoded(arg[1..], 0)
  }

  /** quote_arg. */
  method QuoteArg(arg: string) returns (out: string)
    ensures out == "\"" + Encoded(arg, 0)
  {
    out := "\"";
    var backslashes := 0;
    assert arg[0..] == arg;
    for i := 0 to |arg|
      invariant out + Encoded(arg[i..], backslashes) == "\"" + Encoded(arg, 0)
    {
      var c := arg[i];
      ghost var before, rest := out, arg[i..];
      assert rest[0] == c && rest[1..] == arg[i + 1..];
      if c == '\\' {
        backslashes := backslashes + 1;
      } else if c == '"' {
        out := out + Backslashes(backslashes * 2 + 1) + [c];
        assert before + Encoded(rest, backslashes) == out + Encoded(arg[i + 1..], 0);
        backslashes := 0;
      } else {
        out := out + Backslashes(backslashes) + [c];
        assert before + Encoded(rest, backslashes) == out + Encoded(arg[i + 1..], 0);
        backslashes := 0;
      }
    }
    assert arg[|arg|..] == "";
    out := out + Backslashes(backslashes * 2) + "\"";
  }

  /** One argument as it appears on the command line. */
  ghost function Item(a: string): string {
    if NeedsQuotes(a) then "\"" + Encoded(a, 0) else a
  }

  lemma {:induction false} EncodedIsLonger(arg: string, pending: nat)
    ensures |Encoded(arg, pending)| > |arg| + pending
    decreases |arg|
  {
    if arg == "" {
    } else if arg[0] == '\\' {
      EncodedIsLonger(arg[1..], pending + 1);
    } else {
      EncodedIsLonger(arg[1..], 0);
    }
  }

  /** An argument is written as it is exactly when it is not empty and holds no blank, no
      quote and none of the characters a command interpreter would take for its own. */
  lemma PlainItem(a: string)
    ensures Item(a) == a <==> a != "" && forall c | c in a :: c !in [' ', '\t', '"', '&', '|', '<', '>', '^']
  {
    EncodedIsLonger(a, 0);
  }

  ghost function MoreItems(args: seq<string>): string {
    if args == [] then "" else " " + Item(args[0]) + MoreItems(args[1..])
  }

  ghost function Joined(args: seq<string>): string {
    if args == [] then "" else Item(args[0]) + MoreItems(args[1..])
  }

  /** What is still to be written once `i` arguments have been. */
  ghost function Unwritten(args: seq<string>, i: nat): string
    requires i <= |args|
  {
    if i == 0 then Joined(args) else MoreItems(args[i..])
  }

  lemma NextItem(args: seq<string>, i: nat)
    requires i < |args|
    ensures Unwritten(args, i) == (if i > 0 then " " else "") + Item(args[i]) + Unwritten(args, i + 1)
  {
    assert args[i..][0] == args[i] && args[i..][1..] == args[i + 1..];
  }

  lemma Written(out: string, blank: string, item: string, rest: string)
    ensures out + (blank + item + rest) == (out + blank + item) + rest
  {
  }

  /** join_command. */
  method JoinCommand(args: seq<string>) returns (out: string)
    ensures out == Joined(args)
  {
    out := "";
    for i := 0 to |args|
      invariant out + Unwritten(args, i) == Joined(args)
    {
      NextItem(args, i);
      Written(out, if i > 0 then " " else "", Item(args[i]), Unwritten(args, i + 1));
      if i > 0 {
        out := out + " ";
      } else {
        assert out + "" == out;
      }
      if NeedsQuotes(args[i]) {
        var quoted := QuoteArg(args[i]);
        out := out + quoted;
      } else {
        out := out + args[i];
      }
    }
  }

  function SkipBlanks(s: string): string {
    if s != "" && (s[0] == ' ' || s[0] == '\t') then SkipBlanks(s[1..]) else s
  }

  /** The arguments in what is left of a command line: `cur` has been collected of
      the current one, `n` backslashes wait for what follows them. 2n backslashes
      before a quote stand for n and leave the quote alone, 2n + 1 stand for n and
      a literal quote; a doubled quote inside quotes is a literal quote. */
  function Scan(s: string, inQuotes: bool, cur: string, n: nat): seq<string>
    decreases |s|
  {
    if s == "" then
      if cur + Backslashes(n) != "" || inQuotes then [cur + Backslashes(n)] else []
    else if s[0] == '\\' then Scan(s[1..], inQuotes, cur, n + 1)
    else if s[0] == '"' then
      var half := cur + Backslashes(n / 2);
      if n % 2 == 1 then Scan(s[1..], inQuotes, half + "\"", 0)
      else if !inQuotes then Scan(s[1..], true, half, 0)
      else if |s| == 1 then [half]
      else if s[1] == '"' then Scan(s[2..], true, half + "\"", 0)
      else Scan(s[1..], false, half, 0)
    else if (s[0] == ' ' || s[0] == '\t') && !inQuotes then
      SkipShortens(s[1..]);
      [cur + Backslashes(n)] + Scan(SkipBlanks(s[1..]), false, "", 0)
    else Scan(s[1..], inQuotes, cur + Backslashes(n) + [s[0]], 0)
  }

  lemma SkipShortens(s: string)
    ensures |SkipBlanks(s)| <= |s|
  {
  }

  function SplitCommand(s: string): seq<string> {
    SkipShortens(s);
    Scan(SkipBlanks(s), false, "", 0)
  }

  lemma {:induction false} ScanBackslashes(k: nat, s: string, inQuotes: bool, cur: string, n: nat)
    ensures Scan(Backslashes(k) + s, inQuotes, cur, n) == Scan(s, inQuotes, cur, n + k)
    decreases k
  {
    if k == 0 {
      assert Backslashes(0) + s == s;
    } else {
      assert (Backslashes(k) + s)[1..] == Backslashes(k - 1) + s;
      ScanBackslashes(k - 1, s, inQuotes, cur, n + 1);
    }
  }

  /** What is split off when the argument `a` is complete and `tail` follows. */
  ghost function Then(a: string, tail: string): seq<string> {
    if tail == "" then [a] else [a] + Scan(SkipBlanks(tail[1..]), false, "", 0)
  }

  ghost predicate Boundary(tail: string) {
    tail == "" || tail[0] == ' '
  }

  /** The closing quote, after the doubled backslashes before it. */
  lemma QuotedEnd(pending: nat, cur: string, tail: string)
    requires Boundary(tail)
    ensures Scan(Encoded("", pending) + tail, true, cur, 0) == Then(cur + Backslashes(pending), tail)
  {
    var rest := "\"" + tail;
    assert Encoded("", pending) + tail == Backslashes(pending * 2) + rest;
    ScanBackslashes(pending * 2, rest, true, cur, 0);
    ClosingQuote(rest, cur, pending * 2);
    assert rest[1..] == tail;
  }

  lemma ClosingQuote(s: string, cur: string, n: nat)
    requires s != "" && s[0] == '"' && n % 2 == 0 && Boundary(s[1..])
    ensures Scan(s, true, cur, n) == Then(cur + Backslashes(n / 2), s[1..])
  {
    var half := cur + Backslashes(n / 2);
    if s[1..] != "" {
      assert half + Backslashes(0) == half;
    }
  }

  lemma LiteralQuote(s: string, cur: string, n: nat)
    requires s != "" && s[0] == '"' && n % 2 == 1
    ensures Scan(s, true, cur, n) == Scan(s[1..], true, cur + Backslashes(n / 2) + "\"", 0)
  {
  }

  /** A quote inside, behind an odd number of backslashes. */
  lemma QuotedQuote(arg: string, pending: nat, cur: string, tail: string)
    requires arg != "" && arg[0] == '"'
    ensures Scan(Encoded(arg, pending) + tail, true, cur, 0)
         == Scan(Encoded(arg[1..], 0) + tail, true, cur + Backslashes(pending) + "\"", 0)
  {
    hide Scan;
    var rest := "\"" + (Encoded(arg[1..], 0) + tail);
    assert Encoded(arg, pending) + tail == Backslashes(pending * 2 + 1) + rest;
    ScanBackslashes(pending * 2 + 1, rest, true, cur, 0);
    LiteralQuote(rest, cur, pending * 2 + 1);
    assert (pending * 2 + 1) / 2 == pending && rest[1..] == Encoded(arg[1..], 0) + tail;
  }

  lemma PlainCharacter(s: string, cur: string, n: nat)
    requires s != "" && s[0] != '"' && s[0] != '\\'
    ensures Scan(s, true, cur, n) == Scan(s[1..], true, cur + Backslashes(n) + [s[0]], 0)
  {
  }

  lemma QuotedOther(arg: string, pending: nat, cur: string, tail: string)
    requires arg != "" && arg[0] != '"' && arg[0] != '\\'
    ensures Scan(Encoded(arg, pending) + tail, true, cur, 0)
         == Scan(Encoded(arg[1..], 0) + tail, true, cur + Backslashes(pending) + [arg[0]], 0)
  {
    hide Scan;
    var rest := [arg[0]] + (Encoded(arg[1..], 0) + tail);
    assert Encoded(arg, pending) + tail == Backslashes(pending) + rest;
    ScanBackslashes(pending, rest, true, cur, 0);
    PlainCharacter(rest, cur, pending);
    assert rest[1..] == Encoded(arg[1..], 0) + tail;
  }

  /** Reading a quoted argument back. */
  lemma {:induction false} ScanQuoted(arg: string, pending: nat, cur: string, tail: string)
    requires Boundary(tail)
    ensures Scan(Encoded(arg, pending) + tail, true, cur, 0) == Then(cur + Backslashes(pending) + arg, tail)
    decreases |arg|
  {
    hide Scan, Then, Boundary;
    var all := cur + Backslashes(pending) + arg;
    if arg == "" {
      QuotedEnd(pending, cur, tail);
      assert cur + Backslashes(pending) == all;
    } else if arg[0] == '\\' {
      ScanQuoted(arg[1..], pending + 1, cur, tail);
      assert cur + Backslashes(pending + 1) + arg[1..] == all;
    } else if arg[0] == '"' {
      var next := cur + Backslashes(pending) + "\"";
      QuotedQuote(arg, pending, cur, tail);
      ScanQuoted(arg[1..], 0, next, tail);
      assert next + Backslashes(0) + arg[1..] == all;
    } else {
      var next := cur + Backslashes(pending) + [arg[0]];
      QuotedOther(arg, pending, cur, tail);
      ScanQuoted(arg[1..], 0, next, tail);
      assert next + Backslashes(0) + arg[1..] == all;
    }
  }

  /** Reading an argument that needed no quotes. */
  lemma {:induction false} ScanPlain(arg: string, n: nat, cur: string, tail: string)
    requires Boundary(tail) && cur + Backslashes(n) + arg != ""
    requires forall i | 0 <= i < |arg| :: arg[i] !in QUOTED_CHARS
    ensures Scan(arg + tail, false, cur, n) == Then(cur + Backslashes(n) + arg, tail)
    decreases |arg|
  {
    var all := cur + Backslashes(n) + arg;
    if arg == "" {
      assert arg + tail == tail && cur + Backslashes(n) == all;
    } else {
      assert (arg + tail)[1..] == arg[1..] + tail;
      assert arg[0] !in QUOTED_CHARS;
      if arg[0] == '\\' {
        assert cur + Backslashes(n + 1) + arg[1..] == all;
        ScanPlain(arg[1..], n + 1, cur, tail);
      } else {
        var next := cur + Backslashes(n) + [arg[0]];
        assert next + Backslashes(0) + arg[1..] == all;
        ScanPlain(arg[1..], 0, next, tail);
      }
    }
  }

  lemma ScanItem(a: string, tail: string)
    requires Boundary(tail)
    ensures Scan(Item(a) + tail, false, "", 0) == Then(a, tail)
    ensures Item(a) != "" && Item(a)[0] != ' ' && Item(a)[0] != '\t'
  {
    if NeedsQuotes(a) {
      var s := Item(a) + tail;
      assert s[1..] == Encoded(a, 0) + tail;
      assert "" + Backslashes(0) == "";
      ScanQuoted(a, 0, "", tail);
      assert "" + Backslashes(0) + a == a;
    } else {
      assert a[0] !in QUOTED_CHARS;
      assert "" + Backslashes(0) + a == a;
      ScanPlain(a, 0, "", tail);
    }
  }

  lemma NothingScanned()
    ensures Scan("", false, "", 0) == []
  {
  }

  lemma {:induction false} ScanJoined(args: seq<string>)
    ensures Scan(Joined(args), false, "", 0) == args
    ensures SkipBlanks(Joined(args)) == Joined(args)
    decreases |args|
  {
    hide Scan, Item;
    if args == [] {
      NothingScanned();
    } else {
      var tail := MoreItems(args[1..]);
      ScanItem(args[0], tail);
      ScanJoined(args[1..]);
      if args[1..] != [] {
        assert tail[1..] == Joined(args[1..]);
      }
      assert args == [args[0]] + args[1..];
    }
  }

  /** Splitting undoes joining, for every list of arguments. */
  lemma SplitUndoesJoin(args: seq<string>)
    ensures SplitCommand(Joined(args)) == args
  {
    ScanJoined(args);
  }
}
