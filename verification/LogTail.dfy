/** The shared run log: how records are written, and how a parent that keeps
    reading the growing file shows each of them once. */
module LogTail {
  import opened Basics

  datatype Record = Record(timestamp: string, level: string, message: string)

  // ---- writing ----

  /** "\r\n" becomes " | ". */
  function ReplaceCrLf(s: string): string {
    if |s| < 2 then s
    else if s[0] == '\r' && s[1] == '\n' then " | " + ReplaceCrLf(s[2..])
    else [s[0]] + ReplaceCrLf(s[1..])
  }

  function ReplaceBreaks(s: string): string {
    if s == "" then ""
    else (if s[0] == '\r' || s[0] == '\n' then " | " else [s[0]]) + ReplaceBreaks(s[1..])
  }

  /** one_line. */
  function OneLine(message: string): string {
    ReplaceBreaks(ReplaceCrLf(message))
  }

  predicate SingleLine(s: string) {
    '\n' !in s && '\r' !in s
  }

  lemma {:induction false} ReplaceBreaksRemovesThem(s: string)
    ensures SingleLine(ReplaceBreaks(s))
    ensures SingleLine(s) ==> ReplaceBreaks(s) == s
  {
    if s == "" {
    } else {
      ReplaceBreaksRemovesThem(s[1..]);
      assert s == [s[0]] + s[1..];
    }
  }

  lemma {:induction false} ReplaceCrLfKeeps(s: string)
    requires SingleLine(s)
    ensures ReplaceCrLf(s) == s
  {
    if |s| < 2 {
    } else {
      assert s[0] in s;
      ReplaceCrLfKeeps(s[1..]);
    }
  }

  /** A message is always one line, and a message that was one line is unchanged. */
  lemma OneLineIsOneLine(message: string)
    ensures SingleLine(OneLine(message))
    ensures SingleLine(message) ==> OneLine(message) == message
  {
    ReplaceBreaksRemovesThem(ReplaceCrLf(message));
    if SingleLine(message) {
      ReplaceCrLfKeeps(message);
    }
  }

  lemma PlainFirst(s: string)
    requires s != "" && s[0] != '\r' && s[0] != '\n'
    ensures OneLine(s) == [s[0]] + OneLine(s[1..])
  {
    var t := ReplaceCrLf(s);
    if |s| >= 2 {
      assert t[1..] == ReplaceCrLf(s[1..]);
    } else {
      assert s[1..] == "" && t[1..] == "";
    }
  }

  predicate IsBreak(brk: string) {
    brk in {"\r\n", "\n", "\r"}
  }

  /** A carriage return is a break of its own unless a newline follows. */
  predicate BreaksBefore(brk: string, rest: string) {
    IsBreak(brk) && (brk == "\r" && rest != "" ==> rest[0] != '\n')
  }

  lemma {:induction false} BarsConcat(a: string, b: string)
    ensures ReplaceBreaks(a + b) == ReplaceBreaks(a) + ReplaceBreaks(b)
  {
    if a == "" {
      assert a + b == b;
    } else {
      assert (a + b)[1..] == a[1..] + b;
      BarsConcat(a[1..], b);
    }
  }

  lemma BarFirst(brk: string, rest: string)
    requires BreaksBefore(brk, rest)
    ensures OneLine(brk + rest) == " | " + OneLine(rest)
  {
    var s := brk + rest;
    if brk == "\r\n" {
      assert s[2..] == rest;
      BarsConcat(" | ", ReplaceCrLf(rest));
      ReplaceBreaksRemovesThem(" | ");
    } else {
      assert s[1..] == rest;
      assert ReplaceCrLf(s) == brk + ReplaceCrLf(rest);
      BarsConcat(brk, ReplaceCrLf(rest));
      assert brk[1..] == "";
    }
  }

  /** Where the message breaks, in any of the three ways, " | " stands instead. */
  lemma {:induction false} BreaksAreBars(a: string, brk: string, rest: string)
    requires SingleLine(a) && BreaksBefore(brk, rest)
    ensures OneLine(a + (brk + rest)) == a + (" | " + OneLine(rest))
  {
    hide OneLine;
    if a == "" {
      BarFirst(brk, rest);
      assert a + (brk + rest) == brk + rest;
    } else {
      var s := a + (brk + rest);
      assert a[0] in a && forall c | c in a[1..] :: c in a;
      BreaksAreBars(a[1..], brk, rest);
      assert s[1..] == a[1..] + (brk + rest);
      PlainFirst(s);
      assert a + (" | " + OneLine(rest)) == [a[0]] + (a[1..] + (" | " + OneLine(rest)));
    }
  }

  function RecordLine(r: Record): string {
    "[" + (r.timestamp + ("] [" + (r.level + ("] " + r.message))))
  }

  /** log_line: what one call appends to the file. */
  function LogLine(level: string, message: string, timestamp: string): string {
    RecordLine(Record(timestamp, level, OneLine(message))) + "\n"
  }

  // ---- reading a line ----

  /** parse_log_record. */
  function ParseLogRecord(line: string): Option<Record> {
    if !("[" <= line) then None
    else
      var rest := line[1..];
      var tail := After(rest, "] [");
      if tail.None? then None
      else
        var message := After(tail.value, "] ");
        if message.None? then None
        else
          var timestamp := rest[..|rest| - |tail.value| - 3];
          var level := tail.value[..|tail.value| - |message.value| - 2];
          Some(Record(timestamp, level, message.value))
  }

  lemma {:induction false} SplitOnce(s: string, head: string, sep: string, tail: string)
    requires sep != "" && sep[0] !in head && s == head + (sep + tail)
    ensures After(s, sep) == Some(tail) && s[..|s| - |tail| - |sep|] == head
  {
    if head == "" {
      assert s == sep + tail;
    } else {
      assert s[0] == head[0] && s[1..] == head[1..] + (sep + tail);
      SplitOnce(s[1..], head[1..], sep, tail);
    }
  }

  /** Reading a written record gives it back, whatever its message contains. */
  lemma ParseWritten(r: Record)
    requires ']' !in r.timestamp && ']' !in r.level
    ensures ParseLogRecord(RecordLine(r)) == Some(r)
  {
    var tail := r.level + ("] " + r.message);
    var rest := r.timestamp + ("] [" + tail);
    assert ("[" + rest)[1..] == rest;
    SplitOnce(rest, r.timestamp, "] [", tail);
    SplitOnce(tail, r.level, "] ", r.message);
  }

  // ---- reading text ----

  function StripCr(s: string): string {
    if s != "" && s[|s| - 1] == '\r' then s[..|s| - 1] else s
  }

  /** The length of the first line, its newline included; 0 when there is none. */
  function FirstLine(s: string): (n: nat)
    ensures n <= |s| && (n > 0 ==> s[n - 1] == '\n' && '\n' !in s[..n - 1]) && (n == 0 ==> '\n' !in s)
  {
    if s == "" then 0
    else if s[0] == '\n' then 1
    else
      var n := FirstLine(s[1..]);
      assert n > 0 ==> s[..n] == [s[0]] + s[1..][..n - 1];
      if n == 0 then 0 else n + 1
  }

  /** str::lines. */
  function Lines(s: string): seq<string>
    decreases |s|
  {
    if s == "" then []
    else
      var n := FirstLine(s);
      if n == 0 then [s] else [StripCr(s[..n - 1])] + Lines(s[n..])
  }

  function ParsedLines(lines: seq<string>): seq<Record> {
    if lines == [] then []
    else
      var r := ParseLogRecord(lines[0]);
      (if r.Some? then [r.value] else []) + ParsedLines(lines[1..])
  }

  /** The records shown for a consumed chunk. */
  function Shown(chunk: string): seq<Record> {
    ParsedLines(Lines(chunk))
  }

  /** The length up to and including the last newline; 0 when there is none. */
  function LastNewline(s: string): (n: nat)
    ensures n <= |s| && (n > 0 ==> s[n - 1] == '\n') && '\n' !in s[n..]
  {
    if s == "" then 0
    else if s[|s| - 1] == '\n' then |s|
    else
      var n := LastNewline(s[..|s| - 1]);
      assert s[n..] == s[..|s| - 1][n..] + [s[|s| - 1]];
      n
  }

  // ---- the reader ----

  /** Where the reader is and what it has shown. */
  datatype Reader = Reader(cursor: nat, shown: seq<Record>)

  /** What is consumed of the `n` characters read from `cursor` on: whole lines
      only, unless everything is flushed. */
  function Consumed(content: string, cursor: nat, n: nat, flush: bool): (text: string)
    ensures |text| <= n
  {
    if cursor + n > |content| then ""
    else
      var buf := content[cursor..cursor + n];
      if flush then buf else buf[..LastNewline(buf)]
  }

  /** The reader once it has moved past `text` and shown its records. */
  function Past(s: Reader, text: string): Reader {
    Reader(s.cursor + |text|, s.shown + Shown(text))
  }

  /** The reader after it has read on from its cursor. */
  function Advanced(s: Reader, content: string, n: nat, flush: bool): Reader {
    Past(s, Consumed(content, s.cursor, n, flush))
  }

  /** A file shorter than the cursor is read from its start again. */
  function Rewound(s: Reader, content: string): Reader {
    if |content| < s.cursor then s.(cursor := 0) else s
  }

  /** One poll that finds the file as `content` and reads `n` characters of it. */
  function Polled(s: Reader, content: string, n: nat, flush: bool): Reader {
    Advanced(Rewound(s, content), content, n, flush)
  }

  class LogReader {
    var cursor: nat
    var shown: seq<Record>

    constructor (start: nat)
      ensures cursor == start && shown == []
    {
      cursor, shown := start, [];
    }

    function State(): Reader
      reads this
    {
      Reader(cursor, shown)
    }

    /** stream_child_log_lines. The file cannot be opened, or it holds `content`
        and the read returns the next `n` characters. The lines consumed are
        counted, the timestamped records among them are shown. */
    method StreamChildLogLines(canOpen: bool, content: string, n: nat, flush: bool) returns (lineCount: nat)
      requires Rewound(State(), content).cursor + n <= |content|
      modifies this
      ensures State() == if canOpen then Polled(old(State()), content, n, flush) else old(State())
      ensures lineCount == if canOpen then |Lines(Consumed(content, Rewound(old(State()), content).cursor, n, flush))|
                           else 0
    {
      if !canOpen {
        return 0;
      }
      if |content| < cursor {
        cursor := 0;
      }
      var text := ReadWholeLines(content, n, flush);
      lineCount := Consume(text);
    }

    /** The buffer that was read, cut after its last newline unless flushing. */
    method ReadWholeLines(content: string, n: nat, flush: bool) returns (text: string)
      requires cursor + n <= |content|
      ensures text == Consumed(content, cursor, n, flush)
    {
      if |content| <= cursor || n == 0 {
        return "";
      }
      var buf := content[cursor..cursor + n];
      var validLen := if flush then n else LastNewline(buf);
      return buf[..validLen];
    }

    /** Moves past the text and shows its records. */
    method Consume(text: string) returns (lineCount: nat)
      modifies this
      ensures State() == Past(old(State()), text) && lineCount == |Lines(text)|
    {
      if text == "" {
        return 0;
      }
      cursor := cursor + |text|;
      lineCount := ShowLines(Lines(text));
    }

    method ShowLines(lines: seq<string>) returns (lineCount: nat)
      modifies this`shown
      ensures shown == old(shown) + ParsedLines(lines) && lineCount == |lines|
    {
      lineCount := 0;
      ghost var before := shown;
      assert lines[0..] == lines;
      for i := 0 to |lines|
        invariant lineCount == i && shown + ParsedLines(lines[i..]) == before + ParsedLines(lines)
      {
        assert lines[i..][0] == lines[i] && lines[i..][1..] == lines[i + 1..];
        lineCount := lineCount + 1;
        var r := ParseLogRecord(lines[i]);
        if r.Some? {
          assert ParsedLines(lines[i..]) == [r.value] + ParsedLines(lines[i + 1..]);
          assert shown + ([r.value] + ParsedLines(lines[i + 1..])) == (shown + [r.value]) + ParsedLines(lines[i + 1..]);
          shown := shown + [r.value];
        } else {
          assert ParsedLines(lines[i..]) == [] + ParsedLines(lines[i + 1..]);
        }
      }
      assert lines[|lines|..] == [];
    }
  }

  // ---- exactly once ----

  lemma FirstLineIs(s: string, n: nat)
    requires 0 < n <= |s| && s[n - 1] == '\n' && '\n' !in s[..n - 1]
    ensures FirstLine(s) == n
  {
    var m := FirstLine(s);
    assert forall i | 0 <= i < n - 1 :: s[..n - 1][i] == s[i];
  }

  lemma FirstLineSplits(a: string, b: string)
    requires a != "" && a[|a| - 1] == '\n'
    ensures var n := FirstLine(a);
      n > 0 && Lines(a) == [StripCr(a[..n - 1])] + Lines(a[n..])
      && Lines(a + b) == [StripCr(a[..n - 1])] + Lines(a[n..] + b)
  {
    var n := FirstLine(a);
    assert (a + b)[..n - 1] == a[..n - 1];
    FirstLineIs(a + b, n);
    assert (a + b)[n..] == a[n..] + b;
  }

  /** Cutting text right after a newline cuts it between two lines. */
  lemma {:induction false} LinesConcat(a: string, b: string)
    requires WholeLines(a)
    ensures Lines(a + b) == Lines(a) + Lines(b)
    decreases |a|
  {
    if a == "" {
      assert a + b == b;
    } else {
      var first, rest := StripCr(a[..FirstLine(a) - 1]), a[FirstLine(a)..];
      assert Lines(a) == [first] + Lines(rest) && Lines(a + b) == [first] + Lines(rest + b) by {
        FirstLineSplits(a, b);
      }
      LinesConcat(rest, b);
      Assoc([first], Lines(rest), Lines(b));
    }
  }

  lemma {:induction false} ParsedConcat(a: seq<string>, b: seq<string>)
    ensures ParsedLines(a + b) == ParsedLines(a) + ParsedLines(b)
  {
    if a == [] {
      assert a + b == b;
    } else {
      assert (a + b)[1..] == a[1..] + b;
      ParsedConcat(a[1..], b);
      var r := ParseLogRecord(a[0]);
      var first := if r.Some? then [r.value] else [];
      assert ParsedLines(a + b) == first + ParsedLines(a[1..] + b);
      assert first + (ParsedLines(a[1..]) + ParsedLines(b)) == (first + ParsedLines(a[1..])) + ParsedLines(b);
    }
  }

  lemma ShownConcat(a: string, b: string)
    requires WholeLines(a)
    ensures Shown(a + b) == Shown(a) + Shown(b)
  {
    LinesConcat(a, b);
    ParsedConcat(Lines(a), Lines(b));
  }

  /** What a reader that began at `start` has shown is what the log holds from
      there up to its cursor, and the cursor is between two lines. */
  ghost predicate InStep(s: Reader, log: string, start: nat) {
    && start <= s.cursor <= |log| && (s.cursor == 0 || log[s.cursor - 1] == '\n')
    && s.shown == Shown(log[start..s.cursor])
  }

  lemma ShownAdvances(log: string, start: nat, c: nat, d: nat)
    requires start <= c <= d <= |log| && (c == start || log[c - 1] == '\n')
    ensures Shown(log[start..d]) == Shown(log[start..c]) + Shown(log[c..d])
  {
    assert log[start..d] == log[start..c] + log[c..d];
    assert c > start ==> log[start..c][c - start - 1] == '\n';
    ShownConcat(log[start..c], log[c..d]);
  }

  /** What a poll consumes is the file's next text up to some newline. */
  lemma ConsumesLines(content: string, c: nat, n: nat)
    requires c <= |content|
    ensures var text := Consumed(content, c, n, false);
      && c + |text| <= |content| && text == content[c..c + |text|]
      && (text != "" ==> content[c + |text| - 1] == '\n')
  {
  }

  /** A poll without flush keeps the reader in step with a log that only grows,
      however much of the last append it sees and however little it reads. */
  lemma PollKeepsStep(s: Reader, log: string, start: nat, content: string, n: nat)
    requires InStep(s, log, start) && content <= log && s.cursor <= |content|
    ensures InStep(Polled(s, content, n, false), log, start)
    ensures s.cursor <= Polled(s, content, n, false).cursor <= |content|
  {
    var text := Consumed(content, s.cursor, n, false);
    ConsumesLines(content, s.cursor, n);
    PastKeepsStep(s, log, start, content, text);
  }

  lemma PastKeepsStep(s: Reader, log: string, start: nat, content: string, text: string)
    requires InStep(s, log, start) && content <= log && s.cursor + |text| <= |content|
    requires text == content[s.cursor..s.cursor + |text|]
    requires text != "" ==> content[s.cursor + |text| - 1] == '\n'
    ensures InStep(Past(s, text), log, start)
  {
    hide Shown;
    var d := s.cursor + |text|;
    assert log[..|content|] == content;
    assert log[s.cursor..d] == content[s.cursor..d];
    assert text != "" ==> log[d - 1] == '\n';
    ShownAdvances(log, start, s.cursor, d);
  }

  /** One poll, whatever it finds: it reads on from the cursor, or from the start of a file
      that is shorter than that; when flushing it takes all it reads, otherwise all up to
      the last newline, and it shows the records of what it takes. */
  lemma PollMovesOn(s: Reader, content: string, n: nat, flush: bool)
    requires (if |content| < s.cursor then 0 else s.cursor) + n <= |content|
    ensures var from, to := if |content| < s.cursor then 0 else s.cursor, Polled(s, content, n, flush).cursor;
      && from <= to <= from + n && Polled(s, content, n, flush).shown == s.shown + Shown(content[from..to])
      && (flush ==> to == from + n)
      && (!flush ==> '\n' !in content[to..from + n] && (to > from ==> content[to - 1] == '\n'))
  {
    hide Shown, Consumed;
    var from := if |content| < s.cursor then 0 else s.cursor;
    var text := Consumed(content, from, n, flush);
    ConsumedIs(content, from, n, flush);
    assert Polled(s, content, n, flush) == Reader(from + |text|, s.shown + Shown(text));
  }

  lemma ConsumedIs(content: string, from: nat, n: nat, flush: bool)
    requires from + n <= |content|
    ensures var text := Consumed(content, from, n, flush);
      var to := from + |text|;
      && to <= from + n && text == content[from..to] && (flush ==> to == from + n)
      && (!flush ==> '\n' !in content[to..from + n] && (to > from ==> content[to - 1] == '\n'))
  {
    hide LastNewline;
    var buf := content[from..from + n];
    var text := Consumed(content, from, n, flush);
    assert buf[|text|..] == content[from + |text|..from + n];
    assert text != "" ==> content[from + |text| - 1] == buf[|text| - 1];
  }

  /** A schedule of polls: what each finds in the file and how much it reads. */
  datatype Poll = Poll(content: string, n: nat)

  function PollAll(s: Reader, polls: seq<Poll>): Reader {
    if polls == [] then s
    else
      var p := polls[|polls| - 1];
      Polled(PollAll(s, polls[..|polls| - 1]), p.content, p.n, false)
  }

  /** The file only grows towards `log`. */
  ghost predicate Growing(polls: seq<Poll>, log: string, from: nat) {
    && (forall i | 0 <= i < |polls| :: polls[i].content <= log && from <= |polls[i].content|)
    && forall i, j | 0 <= i < j < |polls| :: |polls[i].content| <= |polls[j].content|
  }

  lemma {:induction false} PollsKeepStep(s: Reader, log: string, start: nat, polls: seq<Poll>)
    requires InStep(s, log, start) && Growing(polls, log, s.cursor)
    ensures InStep(PollAll(s, polls), log, start)
    ensures polls == [] ==> PollAll(s, polls) == s
    ensures polls != [] ==> s.cursor <= PollAll(s, polls).cursor <= |polls[|polls| - 1].content|
  {
    if polls == [] {
    } else {
      var front := polls[..|polls| - 1];
      PollsKeepStep(s, log, start, front);
      var p := polls[|polls| - 1];
      if front != [] {
        assert front[|front| - 1] == polls[|polls| - 2];
      }
      PollKeepsStep(PollAll(s, front), log, start, p.content, p.n);
    }
  }

  // ---- what the log holds ----

  /** What stages of a run append: a record, or a block whose lines carry no
      timestamp. */
  datatype Append = Logged(level: string, message: string, timestamp: string) | Block(lines: seq<string>)

  function Unlines(lines: seq<string>): string {
    if lines == [] then "" else lines[0] + "\n" + Unlines(lines[1..])
  }

  function AppendText(a: Append): string {
    match a
    case Logged(level, message, timestamp) => LogLine(level, message, timestamp)
    case Block(lines) => Unlines(lines)
  }

  /** The file after the given appends. */
  function Log(appends: seq<Append>): string {
    if appends == [] then "" else Log(appends[..|appends| - 1]) + AppendText(appends[|appends| - 1])
  }

  predicate PlainAppend(a: Append) {
    match a
    case Logged(level, _, timestamp) =>
      ']' !in timestamp && ']' !in level && SingleLine(timestamp) && SingleLine(level)
    case Block(lines) => forall l | l in lines :: SingleLine(l) && (l == "" || l[0] != '[')
  }

  /** The records logged, in order. */
  function Logs(appends: seq<Append>): seq<Record> {
    if appends == [] then []
    else
      Logs(appends[..|appends| - 1]) + LogsOf(appends[|appends| - 1])
  }

  lemma LineEnds(l: string, rest: string)
    requires SingleLine(l)
    ensures Lines(l + "\n" + rest) == [l] + Lines(rest)
  {
    var s := l + "\n" + rest;
    assert s[..|l|] == l && s[|l| + 1..] == rest;
    FirstLineIs(s, |l| + 1);
    assert l != "" ==> l[|l| - 1] in l;
  }

  /** A carriage return before the newline does not belong to the line. */
  lemma CrLfEnds(l: string, rest: string)
    requires SingleLine(l)
    ensures Lines(l + ("\r\n" + rest)) == [l] + Lines(rest)
  {
    var line := l + "\r";
    var s := line + "\n" + rest;
    assert s == l + ("\r\n" + rest) && s[..|line|] == line && s[|line| + 1..] == rest;
    assert '\n' !in line && line[..|line| - 1] == l;
    FirstLineIs(s, |line| + 1);
  }

  lemma {:induction false} BlockShowsNothing(lines: seq<string>)
    requires forall l | l in lines :: SingleLine(l) && (l == "" || l[0] != '[')
    ensures Shown(Unlines(lines)) == []
  {
    if lines == [] {
    } else {
      assert lines[0] in lines;
      BlockShowsNothing(lines[1..]);
      LineEnds(lines[0], Unlines(lines[1..]));
      var all := [lines[0]] + Lines(Unlines(lines[1..]));
      assert all[1..] == Lines(Unlines(lines[1..]));
      assert ParseLogRecord(all[0]) == None;
    }
  }

  lemma RecordIsOneLine(r: Record)
    requires SingleLine(r.timestamp) && SingleLine(r.level) && SingleLine(r.message)
    ensures SingleLine(RecordLine(r))
  {
  }

  lemma OneParsed(line: string, r: Record)
    requires ParseLogRecord(line) == Some(r)
    ensures ParsedLines([line] + Lines("")) == [r]
  {
    assert [line] + Lines("") == [line];
    assert [line][1..] == [];
  }

  lemma RecordShowsItself(r: Record)
    requires ']' !in r.timestamp && ']' !in r.level
    requires SingleLine(r.timestamp) && SingleLine(r.level) && SingleLine(r.message)
    ensures Shown(RecordLine(r) + "\n") == [r]
  {
    var line := RecordLine(r);
    RecordIsOneLine(r);
    LineEnds(line, "");
    assert line + "\n" == line + "\n" + "";
    ParseWritten(r);
    OneParsed(line, r);
  }

  /** Nothing, or whole lines only. */
  predicate WholeLines(s: string) {
    s == "" || s[|s| - 1] == '\n'
  }

  lemma {:induction false} UnlinesEnds(lines: seq<string>)
    ensures WholeLines(Unlines(lines))
  {
    if lines == [] {
    } else {
      UnlinesEnds(lines[1..]);
    }
  }

  lemma AppendEnds(a: Append)
    ensures WholeLines(AppendText(a))
  {
    match a
    case Logged(level, message, timestamp) =>
    case Block(lines) => UnlinesEnds(lines);
  }

  lemma WholeLinesConcat(a: string, b: string)
    requires WholeLines(a) && WholeLines(b)
    ensures WholeLines(a + b)
  {
  }

  lemma {:induction false} LogEnds(appends: seq<Append>)
    ensures WholeLines(Log(appends))
  {
    if appends == [] {
    } else {
      var front, a := appends[..|appends| - 1], appends[|appends| - 1];
      LogEnds(front);
      AppendEnds(a);
      WholeLinesConcat(Log(front), AppendText(a));
    }
  }

  lemma {:induction false} LogShowsItsRecords(appends: seq<Append>)
    requires forall a | a in appends :: PlainAppend(a)
    ensures Shown(Log(appends)) == Logs(appends)
  {
    if appends == [] {
    } else {
      var front, a := appends[..|appends| - 1], appends[|appends| - 1];
      LogShowsItsRecords(front);
      assert a in appends;
      assert Shown(Log(front) + AppendText(a)) == Logs(front) + LogsOf(a) by {
        LogEnds(front);
        ShownConcat(Log(front), AppendText(a));
        AppendShows(a);
      }
    }
  }

  function LogsOf(a: Append): seq<Record> {
    if a.Logged? then [Record(a.timestamp, a.level, OneLine(a.message))] else []
  }

  lemma AppendShows(a: Append)
    requires PlainAppend(a)
    ensures Shown(AppendText(a)) == LogsOf(a)
  {
    match a
    case Logged(level, message, timestamp) =>
      OneLineIsOneLine(message);
      RecordShowsItself(Record(timestamp, level, OneLine(message)));
    case Block(lines) => BlockShowsNothing(lines);
  }

  lemma LogOfMore(a: seq<Append>, last: Append)
    ensures Log(a + [last]) == Log(a) + AppendText(last)
  {
    hide AppendText;
    assert (a + [last])[..|a|] == a;
  }

  lemma {:induction false} LogConcat(a: seq<Append>, b: seq<Append>)
    ensures Log(a + b) == Log(a) + Log(b)
  {
    hide AppendText;
    if b == [] {
      assert a + b == a;
    } else {
      var front, last := b[..|b| - 1], b[|b| - 1];
      LogConcat(a, front);
      assert a + b == (a + front) + [last] && b == front + [last];
      LogOfMore(a + front, last);
      LogOfMore(front, last);
      Assoc(Log(a), Log(front), AppendText(last));
    }
  }

  /** However the worker's appends and the parent's polls interleave, the parent,
      which begins at the end of what was there before, shows the records logged
      from then on, each once and in order: those shown so far are the beginning
      of those logged, and all of them once the cursor has reached the end. */
  lemma ShownExactlyOnce(before: seq<Append>, appends: seq<Append>, polls: seq<Poll>)
    requires (forall a | a in before :: PlainAppend(a)) && (forall a | a in appends :: PlainAppend(a))
    requires Growing(polls, Log(before + appends), |Log(before)|)
    ensures var log, start := Log(before + appends), |Log(before)|;
      var s := PollAll(Reader(start, []), polls);
      && InStep(s, log, start) && s.shown <= Logs(appends)
      && (s.cursor == |log| ==> s.shown == Logs(appends))
  {
    LogConcat(before, appends);
    LogEnds(before);
    LogShowsItsRecords(appends);
    ShownOfLog(Log(before), Log(appends), polls);
  }

  lemma InStepAtStart(held: string, more: string)
    requires WholeLines(held)
    ensures InStep(Reader(|held|, []), held + more, |held|)
  {
    assert (held + more)[|held|..|held|] == "";
  }

  lemma ShownSoFar(s: Reader, held: string, more: string)
    requires InStep(s, held + more, |held|)
    ensures s.shown <= Shown(more) && (s.cursor == |held + more| ==> s.shown == Shown(more))
  {
    var log, start := held + more, |held|;
    ShownAdvances(log, start, s.cursor, |log|);
    assert log[start..|log|] == more;
  }

  lemma ShownOfLog(held: string, more: string, polls: seq<Poll>)
    requires WholeLines(held)
    requires Growing(polls, held + more, |held|)
    ensures var s := PollAll(Reader(|held|, []), polls);
      && InStep(s, held + more, |held|) && s.shown <= Shown(more)
      && (s.cursor == |held + more| ==> s.shown == Shown(more))
  {
    InStepAtStart(held, more);
    PollsKeepStep(Reader(|held|, []), held + more, |held|, polls);
    ShownSoFar(PollAll(Reader(|held|, []), polls), held, more);
  }

  lemma FlushCatchesUp(s: Reader, held: string, more: string)
    requires InStep(s, held + more, |held|)
    ensures var log := held + more;
      var t := Polled(s, log, |log| - s.cursor, true);
      t.cursor == |log| && t.shown == Shown(more)
  {
    hide Shown;
    var log := held + more;
    assert Consumed(log, s.cursor, |log| - s.cursor, true) == log[s.cursor..|log|];
    assert Shown(more) == s.shown + Shown(log[s.cursor..|log|]) by {
      ShownAdvances(log, |held|, s.cursor, |log|);
      assert log[|held|..|log|] == more;
    }
  }

  lemma FlushOfLog(held: string, more: string, polls: seq<Poll>)
    requires WholeLines(held)
    requires Growing(polls, held + more, |held|)
    ensures var log, s := held + more, PollAll(Reader(|held|, []), polls);
      s.cursor <= |log| && Polled(s, log, |log| - s.cursor, true) == Reader(|log|, Shown(more))
  {
    hide Growing, PollAll, Polled;
    ShownOfLog(held, more, polls);
    FlushCatchesUp(PollAll(Reader(|held|, []), polls), held, more);
  }

  /** The flushing read at the end of the wait, once the worker has written its
      last record and the read returns all of it, leaves every record logged from
      then on shown exactly once and in order. */
  lemma FlushShowsTheRest(before: seq<Append>, appends: seq<Append>, polls: seq<Poll>)
    requires (forall a | a in before :: PlainAppend(a)) && (forall a | a in appends :: PlainAppend(a))
    requires Growing(polls, Log(before + appends), |Log(before)|)
    ensures var log := Log(before + appends);
      var s := PollAll(Reader(|Log(before)|, []), polls);
      s.cursor <= |log| && Polled(s, log, |log| - s.cursor, true) == Reader(|log|, Logs(appends))
  {
    hide PlainAppend, Log, Logs, Growing, PollAll, Polled;
    LogConcat(before, appends);
    LogEnds(before);
    LogShowsItsRecords(appends);
    FlushOfLog(Log(before), Log(appends), polls);
  }
}
