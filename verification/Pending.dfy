/** The rename queue Windows keeps for the next restart: how it lists the
    deletions one run asked for, and how a later run reads them back. */
module Pending {
  import opened Basics
  import opened FileSystem
  import opened RunState
  import opened Text

  const NUL: char := '\0'

  /** One queued operation; an empty target is a deletion. */
  datatype Rename = Rename(source: string, target: string)

  predicate NulFree(s: string) {
    NUL !in s
  }

  // ---- what the registry value holds ----

  function EncodeOne(r: Rename): string {
    r.source + ([NUL] + (r.target + [NUL]))
  }

  function Encode(renames: seq<Rename>): string {
    if renames == [] then "" else EncodeOne(renames[0]) + Encode(renames[1..])
  }

  /** The kernel's spelling of a path. */
  function NtPath(text: string): string {
    "\\??\\" + text
  }

  /** The entries MoveFileExW adds for deletions of these paths, in order. */
  function Registered(queue: seq<Path>): seq<Rename> {
    seq(|queue|, i requires 0 <= i < |queue| => Rename(NtPath(PathText(queue[i])), ""))
  }

  // ---- reading it back ----

  function NormalizePendingPath(raw: string): string {
    Lower(if "\\??\\" <= raw then raw[4..] else if "\\\\?\\" <= raw then raw[4..] else raw)
  }

  function DisplayPath(p: string): string {
    if "\\\\?\\" <= p then p[4..] else p
  }

  function IndexOfNul(s: string): (i: nat)
    ensures i <= |s| && NulFree(s[..i]) && (i < |s| ==> s[i] == NUL)
  {
    if s == "" || s[0] == NUL then 0
    else
      assert s[..1 + IndexOfNul(s[1..])] == [s[0]] + s[1..][..IndexOfNul(s[1..])];
      1 + IndexOfNul(s[1..])
  }

  /** slice::split at every NUL: one part more than there are NULs. */
  function SplitNul(data: string): (parts: seq<string>)
    ensures parts != []
    decreases |data|
  {
    var i := IndexOfNul(data);
    if i == |data| then [data] else [data[..i]] + SplitNul(data[i + 1..])
  }

  function Deletion(source: string, target: string): seq<string> {
    if target == "" then [NormalizePendingPath(source)] else []
  }

  /** What the parts say: pairs up to the first empty source. */
  function Deletions(parts: seq<string>): seq<string> {
    if |parts| < 2 || parts[0] == "" then [] else Deletion(parts[0], parts[1]) + Deletions(parts[2..])
  }

  /** Handling the pair at `i` leaves the same total. */
  lemma PairHandled(parts: seq<string>, i: nat, out: seq<string>)
    requires i + 1 < |parts| && parts[i] != ""
    ensures out + Deletions(parts[i..]) == (out + Deletion(parts[i], parts[i + 1])) + Deletions(parts[i + 2..])
  {
    assert parts[i..][2..] == parts[i + 2..];
    Assoc(out, Deletion(parts[i], parts[i + 1]), Deletions(parts[i + 2..]));
  }

  lemma NothingLeft(parts: seq<string>, i: nat, out: seq<string>)
    requires i <= |parts| && (i + 1 < |parts| ==> parts[i] == "")
    ensures out + Deletions(parts[i..]) == out
  {
  }

  /** parse_pending_deletions. */
  method ParsePendingDeletions(data: string) returns (out: seq<string>)
    ensures out == Deletions(SplitNul(data))
  {
    var parts := SplitNul(data);
    out := [];
    var i := 0;
    ghost var total := Deletions(parts);
    assert out + Deletions(parts[i..]) == total;
    while i + 1 < |parts|
      invariant 0 <= i <= |parts|
      invariant out + Deletions(parts[i..]) == total
      decreases |parts| - i
    {
      var src, dst := parts[i], parts[i + 1];
      if src == "" {
        break;
      }
      PairHandled(parts, i, out);
      if dst == "" {
        out := out + [NormalizePendingPath(src)];
      } else {
        assert out + [] == out;
      }
      i := i + 2;
    }
    NothingLeft(parts, i, out);
  }

  // ---- the round trip ----

  predicate Encodable(renames: seq<Rename>) {
    forall r | r in renames :: r.source != "" && NulFree(r.source) && NulFree(r.target)
  }

  /** The deletions among queued operations. */
  function DeletionsOf(renames: seq<Rename>): seq<string> {
    if renames == [] then []
    else Deletion(renames[0].source, renames[0].target) + DeletionsOf(renames[1..])
  }

  lemma {:induction false} FirstNulAt(head: string, rest: string)
    requires NulFree(head)
    ensures IndexOfNul(head + ([NUL] + rest)) == |head|
  {
    if head == "" {
    } else {
      assert head[0] in head;
      assert (head + ([NUL] + rest))[1..] == head[1..] + ([NUL] + rest);
      FirstNulAt(head[1..], rest);
    }
  }

  lemma Around(head: string, rest: string)
    ensures var s := head + ([NUL] + rest);
      |s| > |head| && s[..|head|] == head && s[|head| + 1..] == rest
  {
  }

  lemma SplitFirst(head: string, rest: string)
    requires NulFree(head)
    ensures SplitNul(head + ([NUL] + rest)) == [head] + SplitNul(rest)
  {
    FirstNulAt(head, rest);
    Around(head, rest);
  }

  lemma SplitPair(r: Rename, rest: string)
    requires NulFree(r.source) && NulFree(r.target)
    ensures SplitNul(EncodeOne(r) + rest) == [r.source] + ([r.target] + SplitNul(rest))
  {
    var tail := r.target + ([NUL] + rest);
    assert EncodeOne(r) + rest == r.source + ([NUL] + tail);
    SplitFirst(r.source, tail);
    SplitFirst(r.target, rest);
  }

  lemma FirstPair(source: string, target: string, parts: seq<string>)
    requires source != ""
    ensures Deletions([source] + ([target] + parts))
         == Deletion(source, target) + Deletions(parts)
  {
    assert ([source] + ([target] + parts))[2..] == parts;
  }

  /** Parsing the encoded queue gives exactly the deletions in it, in order,
      whether the list's own terminator, anything behind it, or nothing follows. */
  lemma {:induction false} ParseEncoded(renames: seq<Rename>, tail: string)
    requires Encodable(renames) && (tail == "" || tail[0] == NUL)
    ensures Deletions(SplitNul(Encode(renames) + tail)) == DeletionsOf(renames)
  {
    if renames == [] {
      assert Encode(renames) + tail == tail;
      if tail != "" {
        assert tail == "" + ([NUL] + tail[1..]);
        SplitFirst("", tail[1..]);
      }
    } else {
      var r, rest := renames[0], Encode(renames[1..]) + tail;
      assert r in renames;
      assert Encode(renames) + tail == EncodeOne(r) + rest;
      ParseEncoded(renames[1..], tail);
      SplitPair(r, rest);
      FirstPair(r.source, r.target, SplitNul(rest));
    }
  }

  /** What is read back are the sources of the operations without a target, and of no
      others. */
  lemma {:induction false} DeletionsAre(renames: seq<Rename>, k: string)
    ensures k in DeletionsOf(renames) <==>
      exists r :: r in renames && r.target == "" && k == NormalizePendingPath(r.source)
  {
    if renames == [] {
    } else {
      var first, rest := renames[0], renames[1..];
      DeletionsAre(rest, k);
      assert renames == [first] + rest;
      assert forall r :: r in renames <==> r == first || r in rest;
    }
  }

  predicate Prefixed(text: string) {
    "\\??\\" <= text || "\\\\?\\" <= text
  }

  /** Each of the two prefixes is dropped once, and letter case with it. */
  lemma NormalizedPath(text: string)
    ensures NormalizePendingPath("\\??\\" + text) == Lower(text)
    ensures NormalizePendingPath("\\\\?\\" + text) == Lower(text)
    ensures !Prefixed(text) ==> NormalizePendingPath(text) == Lower(text)
  {
    assert ("\\??\\" + text)[4..] == text && ("\\\\?\\" + text)[4..] == text;
    assert ("\\\\?\\" + text)[1] == '\\' && "\\??\\"[1] == '?';
  }

  // ---- one run after another ----

  lemma {:induction false} DeletionsConcat(a: seq<Rename>, b: seq<Rename>)
    ensures DeletionsOf(a + b) == DeletionsOf(a) + DeletionsOf(b)
  {
    if a == [] {
      assert a + b == b;
    } else {
      assert (a + b)[1..] == a[1..] + b;
      DeletionsConcat(a[1..], b);
      Assoc(Deletion(a[0].source, a[0].target), DeletionsOf(a[1..]), DeletionsOf(b));
    }
  }

  /** The kernel's prefix is dropped and nothing else. */
  lemma NormalizeNt(text: string)
    ensures NormalizePendingPath(NtPath(text)) == Lower(text)
  {
    assert NtPath(text)[4..] == text;
  }

  /** What was registered for a run's queue is read back as the keys that run
      recorded as pending. */
  lemma {:induction false} RegisteredKeys(run: Run, h: seq<Event>)
    ensures var keys := DeletionsOf(Registered(run.QueueOf(h)));
      forall k :: k in keys <==> k in run.KeysOf(h)
  {
    if h == [] {
    } else {
      var front, last := h[..|h| - 1], h[|h| - 1];
      RegisteredKeys(run, front);
      if last.Visit? && run.Accepted(last.path) {
        var one := Rename(NtPath(PathText(last.path)), "");
        assert Registered(run.QueueOf(h)) == Registered(run.QueueOf(front)) + [one];
        DeletionsConcat(Registered(run.QueueOf(front)), [one]);
        NormalizeNt(PathText(last.path));
        assert DeletionsOf([one]) == [PathKey(last.path)] + DeletionsOf([]);
      } else {
        assert run.QueueOf(h) == run.QueueOf(front);
      }
    }
  }

  lemma {:induction false} RegisteredEncodable(queue: seq<Path>)
    requires forall p | p in queue :: NulFree(PathText(p))
    ensures Encodable(Registered(queue))
  {
    forall r | r in Registered(queue)
      ensures r.source != "" && NulFree(r.source) && NulFree(r.target)
    {
      var i :| 0 <= i < |queue| && r == Registered(queue)[i];
      assert queue[i] in queue;
    }
  }

  /** Whatever was queued before it, the next run reads back what was pending
      already and exactly the keys this run recorded as scheduled. */
  lemma NextRunReads(run: Run, before: seq<Rename>, tail: string)
    requires run.Valid() && Encodable(before) && (tail == "" || tail[0] == NUL)
    requires forall p | p in run.queue :: NulFree(PathText(p))
    ensures var read := Deletions(SplitNul(Encode(before + Registered(run.queue)) + tail));
      forall k :: k in read <==> k in DeletionsOf(before) || k in run.rebootScheduled
  {
    RegisteredEncodable(run.queue);
    ParseEncoded(before + Registered(run.queue), tail);
    DeletionsConcat(before, Registered(run.queue));
    RegisteredKeys(run, run.history);
  }

  /** The keys under which candidates are looked up. */
  function KeysOf(candidates: seq<string>): seq<string> {
    seq(|candidates|, i requires 0 <= i < |candidates| => Lower(DisplayPath(candidates[i])))
  }

  /** The positions among the first `n` keys that are in the pending set. */
  function AlreadyPending(keys: seq<string>, n: nat, pending: set<string>): set<nat>
    requires n <= |keys|
  {
    set i: nat | i < n && keys[i] in pending
  }

  lemma OneMoreKey(keys: seq<string>, i: nat, pending: set<string>)
    requires i < |keys|
    ensures |AlreadyPending(keys, i + 1, pending)|
         == |AlreadyPending(keys, i, pending)| + (if keys[i] in pending then 1 else 0)
  {
    var before, after := AlreadyPending(keys, i, pending), AlreadyPending(keys, i + 1, pending);
    if keys[i] in pending {
      assert after == before + {i};
    } else {
      assert after == before;
    }
  }

  /** note_candidates_already_pending. */
  method CountAlreadyPending(candidates: seq<string>, pending: set<string>) returns (already: nat, total: nat)
    ensures already == |AlreadyPending(KeysOf(candidates), |candidates|, pending)| && total == |candidates|
  {
    already, total := 0, |candidates|;
    ghost var keys := KeysOf(candidates);
    for i := 0 to |candidates|
      invariant already == |AlreadyPending(keys, i, pending)|
    {
      OneMoreKey(keys, i, pending);
      if Lower(DisplayPath(candidates[i])) in pending {
        already := already + 1;
      }
    }
  }

  /** A candidate of the next run, spelled plainly or extended-length, is counted
      when an earlier run's schedule call for that path succeeded; otherwise only
      when it was already pending before. */
  lemma ScheduledIsCounted(run: Run, before: seq<Rename>, tail: string, candidates: seq<string>, i: nat, p: Path)
    requires run.Valid() && Encodable(before) && (tail == "" || tail[0] == NUL)
    requires forall q | q in run.queue :: NulFree(PathText(q))
    requires i < |candidates| && !Prefixed(PathText(p))
    requires candidates[i] == PathText(p) || candidates[i] == "\\\\?\\" + PathText(p)
    ensures var read := Deletions(SplitNul(Encode(before + Registered(run.queue)) + tail));
      i in AlreadyPending(KeysOf(candidates), |candidates|, set k | k in read)
      <==> PathKey(p) in DeletionsOf(before) || PathKey(p) in run.rebootScheduled
  {
    NextRunReads(run, before, tail);
    assert ("\\\\?\\" + PathText(p))[4..] == PathText(p);
  }
}
