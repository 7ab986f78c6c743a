/** Stopping the processes that hold files open. Between the snapshot, the opening
    of a handle and the termination anything may exit, start or take over a
    process id; what is terminated is what the handle was opened on. */
module Termination {
  import opened Basics
  import opened Text
  import opened Matching

  type Pid = nat
  /** A process object; ids of exited processes are given out again, objects are not. */
  type Object = nat

  const KNOWN_KILLABLE_PROCESS_NAMES := [
    "nvtelemetrycontainer.exe", "nvidia share.exe", "nvsphelper64.exe", "nvidia web helper.exe", "nvidia app.exe",
    "nvbackend.exe", "nvnodejslauncher.exe", "nvidia overlay.exe", "nvidia broadcast.exe", "nvstreamservice.exe",
    "nvstreamnetworkservice.exe", "nvstreamuseragent.exe", "frameview.exe", "presentmon.exe"]

  const APPROVED_ROOTS := [
    ":\\program files\\nvidia corporation\\", ":\\program files (x86)\\nvidia corporation\\",
    ":\\programdata\\nvidia corporation\\", ":\\programdata\\nvidia\\",
    "\\windows\\system32\\driverstore\\filerepository\\nv"]

  const CONVERGENCE_MS: nat := 3000

  predicate ExplicitlyKillable(exe: string) {
    Lower(exe) in KNOWN_KILLABLE_PROCESS_NAMES
  }

  function ImageLeaf(path: string): string {
    if path == "" || path[|path| - 1] == '\\' || path[|path| - 1] == '/' then ""
    else ImageLeaf(path[..|path| - 1]) + [path[|path| - 1]]
  }

  predicate UnderApprovedRoot(path: string) {
    exists i | 0 <= i < |APPROVED_ROOTS| :: Contains(Lower(path), APPROVED_ROOTS[i])
  }

  /** process_image_is_nvidia_owned */
  predicate ImageIsOwned(path: string, exe: string) {
    Lower(ImageLeaf(path)) == Lower(exe) && UnderApprovedRoot(path)
  }

  // ---- which component owns a process ----

  datatype Decision = NotMatched | ComponentDisabled(key: string) | Allowed(key: string)

  /** The owning key of each known name. */
  function ExactKey(l: string): Option<string> {
    if l == "nvtelemetrycontainer.exe" then Some("Telemetry")
    else if l == "nvidia share.exe" || l == "nvsphelper64.exe" then Some("ShadowPlayShare")
    else if l in ["nvidia web helper.exe", "nvidia app.exe", "nvbackend.exe", "nvnodejslauncher.exe",
                  "nvidia overlay.exe", "nvidia broadcast.exe"] then Some("GeForceExperienceAndNvidiaApp")
    else if l in ["nvstreamservice.exe", "nvstreamnetworkservice.exe", "nvstreamuseragent.exe"] then Some("Shield")
    else if l == "frameview.exe" || l == "presentmon.exe" then Some("FrameView")
    else None
  }

  /** classify_process_key */
  function ClassifyProcessKey(exe: string): Option<string> {
    var l := Lower(exe);
    if ExactKey(l).Some? then ExactKey(l)
    else if Contains(l, "telemetry") then Some("Telemetry")
    else if Contains(l, "shadowplay") then Some("ShadowPlayShare")
    else if Contains(l, "frameview") then Some("FrameView")
    else if Contains(l, "nvstream") then Some("Shield")
    else None
  }

  predicate IsPreservedContainerName(exe: string) {
    Contains(Lower(exe), "nvdisplay.container") || Contains(Lower(exe), "nvcontainer.exe")
  }

  function Resolved(catalog: seq<Component>, key: string, enabled: Enabled): Decision {
    if !(exists i | 0 <= i < |catalog| :: catalog[i].key == key) then NotMatched
    else if IsEnabled(enabled, key) then Allowed(key)
    else ComponentDisabled(key)
  }

  /** process_action_decision */
  function Decide(s: Selection, exe: string): Decision {
    if s.preserveContainers && IsPreservedContainerName(exe) then NotMatched
    else
      var key := ClassifyProcessKey(exe);
      if key.None? then NotMatched else Resolved(s.catalog, key.value, s.enabled)
  }

  datatype Selection = Selection(catalog: seq<Component>, enabled: Enabled, preserveContainers: bool)

  /** What may be terminated: a live image under an approved root whose own file
      name is on the list and belongs to an enabled component. */
  predicate Approved(s: Selection, path: string) {
    UnderApprovedRoot(path) && ExplicitlyKillable(ImageLeaf(path)) && Decide(s, ImageLeaf(path)).Allowed?
  }

  /** The decision depends on a name only up to case, so what was decided for the
      name in the snapshot holds for the image behind the handle. */
  lemma VerifiedIsApproved(s: Selection, exe: string, path: string)
    requires ExplicitlyKillable(exe) && Decide(s, exe).Allowed? && ImageIsOwned(path, exe)
    ensures Approved(s, path) && Decide(s, ImageLeaf(path)) == Decide(s, exe)
  {
  }

  /** Every name on the list has an owner, by the list of names alone: the looser
      word matching never decides about a process that may be terminated. */
  lemma KnownNamesAreOwned(exe: string)
    requires ExplicitlyKillable(exe)
    ensures ExactKey(Lower(exe)).Some? && ClassifyProcessKey(exe) == ExactKey(Lower(exe))
  {
    var l := Lower(exe);
    var i :| 0 <= i < |KNOWN_KILLABLE_PROCESS_NAMES| && KNOWN_KILLABLE_PROCESS_NAMES[i] == l;
    if i == 0 {
      assert l == "nvtelemetrycontainer.exe";
    } else if i == 1 {
      assert l == "nvidia share.exe";
    } else if i == 2 {
      assert l == "nvsphelper64.exe";
    }
  }

  // ---- what a decision amounts to ----

  /** The listed name, in any letter case, belongs to a component of the catalog that is
      enabled. */
  ghost predicate OwnerEnabled(s: Selection, exe: string) {
    exists key: string :: OwnedBy(s, exe, key) && key in s.enabled && s.enabled[key]
  }

  ghost predicate OwnedBy(s: Selection, exe: string, key: string) {
    ExactKey(Lower(exe)) == Some(key) && exists c | c in s.catalog :: c.key == key
  }

  /** Such a name never names a container that is preserved: in these names a dot comes
      before the extension only. */
  predicate OneDot(l: string) {
    |l| >= 4 && l[|l| - 4..] == ".exe" && forall i | 0 <= i < |l| - 4 :: l[i] != '.'
  }

  lemma OneDotIsNoDisplay(l: string)
    requires OneDot(l)
    ensures !Contains(l, "nvdisplay.container")
  {
    var sub := "nvdisplay.container";
    forall i: nat
      ensures !ContainsAt(l, sub, i)
    {
      if i + |sub| <= |l| {
        assert sub[9] == '.' && sub[10] == 'c' && l[|l| - 4..][1] == 'e';
        assert l[i..i + |sub|][9] == l[i + 9] && l[i..i + |sub|][10] == l[i + 10];
      }
    }
  }

  lemma NoContainerAtEnd(l: string)
    requires OneDot(l) && (|l| >= 15 ==> l[|l| - 15..|l| - 4] != "nvcontainer")
    ensures !Contains(l, "nvcontainer.exe")
  {
    var sub := "nvcontainer.exe";
    assert |sub| == 15 && sub[11] == '.' && sub[..11] == "nvcontainer";
    forall i: nat
      ensures !ContainsAt(l, sub, i)
    {
      if ContainsAt(l, sub, i) {
        DotIsAtEnd(l, sub, i);
      }
    }
  }

  lemma DotIsAtEnd(l: string, sub: string, i: nat)
    requires OneDot(l) && |sub| == 15 && sub[11] == '.' && ContainsAt(l, sub, i)
    ensures |l| >= 15 && l[|l| - 15..|l| - 4] == sub[..11]
  {
    assert l[i..i + 15][11] == l[i + 11];
    assert l[i..i + 15][..11] == l[i..i + 11];
  }

  /** A file name of letters, with its extension, that does not end like a container. */
  predicate PlainImageName(l: string) {
    OneDot(l) && (|l| >= 15 ==> l[|l| - 15..|l| - 4] != "nvcontainer")
  }

  lemma StemIsPlain(stem: string)
    requires '.' !in stem && (|stem| >= 11 ==> stem[|stem| - 11] != 'n' || stem[|stem| - 1] != 'r')
    ensures PlainImageName(stem + ".exe")
  {
    var l := stem + ".exe";
    assert forall i | 0 <= i < |stem| :: l[i] == stem[i] && stem[i] in stem;
    if |stem| >= 11 {
      var tail := l[|l| - 15..|l| - 4];
      assert tail[0] == stem[|stem| - 11] && tail[10] == stem[|stem| - 1];
    }
  }

  lemma ShareNamesArePlain()
    ensures PlainImageName("nvidia share.exe") && PlainImageName("nvsphelper64.exe")
  {
    hide PlainImageName;
    StemIsPlain("nvidia share");
    assert "nvidia share" + ".exe" == "nvidia share.exe";
    StemIsPlain("nvsphelper64");
    assert "nvsphelper64" + ".exe" == "nvsphelper64.exe";
  }

  lemma TelemetryNamesArePlain()
    ensures PlainImageName("nvtelemetrycontainer.exe") && PlainImageName("nvidia app.exe")
  {
    hide PlainImageName;
    StemIsPlain("nvtelemetrycontainer");
    assert "nvtelemetrycontainer" + ".exe" == "nvtelemetrycontainer.exe";
    StemIsPlain("nvidia app");
    assert "nvidia app" + ".exe" == "nvidia app.exe";
  }

  lemma HelperNamesArePlain()
    ensures PlainImageName("nvidia web helper.exe") && PlainImageName("nvbackend.exe")
  {
    hide PlainImageName;
    StemIsPlain("nvidia web helper");
    assert "nvidia web helper" + ".exe" == "nvidia web helper.exe";
    StemIsPlain("nvbackend");
    assert "nvbackend" + ".exe" == "nvbackend.exe";
  }

  lemma DesktopNamesArePlain()
    ensures PlainImageName("nvnodejslauncher.exe") && PlainImageName("nvidia overlay.exe")
  {
    hide PlainImageName;
    StemIsPlain("nvnodejslauncher");
    assert "nvnodejslauncher" + ".exe" == "nvnodejslauncher.exe";
    StemIsPlain("nvidia overlay");
    assert "nvidia overlay" + ".exe" == "nvidia overlay.exe";
  }

  lemma CastNamesArePlain()
    ensures PlainImageName("nvidia broadcast.exe") && PlainImageName("frameview.exe")
  {
    hide PlainImageName;
    StemIsPlain("nvidia broadcast");
    assert "nvidia broadcast" + ".exe" == "nvidia broadcast.exe";
    StemIsPlain("frameview");
    assert "frameview" + ".exe" == "frameview.exe";
  }

  lemma StreamNamesArePlain()
    ensures PlainImageName("nvstreamservice.exe") && PlainImageName("nvstreamnetworkservice.exe")
  {
    hide PlainImageName;
    StemIsPlain("nvstreamservice");
    assert "nvstreamservice" + ".exe" == "nvstreamservice.exe";
    StemIsPlain("nvstreamnetworkservice");
    assert "nvstreamnetworkservice" + ".exe" == "nvstreamnetworkservice.exe";
  }

  lemma AgentNamesArePlain()
    ensures PlainImageName("nvstreamuseragent.exe") && PlainImageName("presentmon.exe")
  {
    hide PlainImageName;
    StemIsPlain("nvstreamuseragent");
    assert "nvstreamuseragent" + ".exe" == "nvstreamuseragent.exe";
    StemIsPlain("presentmon");
    assert "presentmon" + ".exe" == "presentmon.exe";
  }

  lemma KnownNamesArePlain(l: string)
    requires l in KNOWN_KILLABLE_PROCESS_NAMES
    ensures PlainImageName(l)
  {
    hide PlainImageName;
    ShareNamesArePlain();
    TelemetryNamesArePlain();
    HelperNamesArePlain();
    DesktopNamesArePlain();
    CastNamesArePlain();
    StreamNamesArePlain();
    AgentNamesArePlain();
  }

  /** So what preserving containers protects and what may be terminated never meet. */
  lemma KnownIsNoContainer(exe: string)
    requires ExplicitlyKillable(exe)
    ensures !IsPreservedContainerName(exe)
  {
    hide ContainsAt;
    KnownNamesArePlain(Lower(exe));
    OneDotIsNoDisplay(Lower(exe));
    NoContainerAtEnd(Lower(exe));
  }

  /** While containers are preserved none of them is matched; that changes nothing for any
      other name. */
  lemma ContainersArePreserved(s: Selection, exe: string)
    ensures var kept := Contains(Lower(exe), "nvdisplay.container") || Contains(Lower(exe), "nvcontainer.exe");
      Decide(s, exe) == if s.preserveContainers && kept then NotMatched
                        else Decide(s.(preserveContainers := false), exe)
  {
  }

  /** A listed process is looked at exactly when the component that owns its name is
      enabled, whether containers are preserved or not, and counted as deselected exactly
      when that component is in the catalog and not enabled. */
  lemma EligibleIsOwned(s: Selection, p: Running)
    ensures Eligible(s, p) <==> ExplicitlyKillable(p.exe) && OwnerEnabled(s, p.exe)
    ensures ExplicitlyKillable(p.exe) && Decide(s, p.exe).ComponentDisabled?
      <==> ExplicitlyKillable(p.exe) && !OwnerEnabled(s, p.exe) && exists key :: OwnedBy(s, p.exe, key)
  {
    hide ExplicitlyKillable, ExactKey, ClassifyProcessKey, IsPreservedContainerName;
    if ExplicitlyKillable(p.exe) {
      KnownNamesAreOwned(p.exe);
      KnownIsNoContainer(p.exe);
      var key := ExactKey(Lower(p.exe)).value;
      CatalogByIndex(s.catalog, key);
      assert OwnerEnabled(s, p.exe) <==> OwnedBy(s, p.exe, key) && IsEnabled(s.enabled, key);
      assert (exists other :: OwnedBy(s, p.exe, other)) <==> OwnedBy(s, p.exe, key);
    }
  }

  lemma CatalogByIndex(catalog: seq<Component>, key: string)
    ensures (exists i | 0 <= i < |catalog| :: catalog[i].key == key) <==> exists c | c in catalog :: c.key == key
  {
    if c :| c in catalog && c.key == key {
      var i :| 0 <= i < |catalog| && catalog[i] == c;
    }
  }

  lemma {:induction false} LookedAreOwned(s: Selection, processes: seq<Running>)
    ensures forall p :: p in Looked(s, processes) <==>
      p in processes && ExplicitlyKillable(p.exe) && OwnerEnabled(s, p.exe)
  {
    hide ExplicitlyKillable, OwnerEnabled, Eligible;
    if processes == [] {
    } else {
      var front, last := processes[..|processes| - 1], processes[|processes| - 1];
      assert processes == front + [last];
      LookedAreOwned(s, front);
      EligibleIsOwned(s, last);
    }
  }

  predicate Separates(c: char) {
    c == '\\' || c == '/'
  }

  /** The file name of an image: what stands behind its last separator. */
  lemma {:induction false} ImageLeafIs(path: string)
    ensures forall i | 0 <= i < |ImageLeaf(path)| :: !Separates(ImageLeaf(path)[i])
    ensures |ImageLeaf(path)| <= |path| && path[|path| - |ImageLeaf(path)|..] == ImageLeaf(path)
    ensures |ImageLeaf(path)| < |path| ==> Separates(path[|path| - |ImageLeaf(path)| - 1])
  {
    if path == "" || Separates(path[|path| - 1]) {
    } else {
      var front := path[..|path| - 1];
      ImageLeafIs(front);
      assert path[|path| - |ImageLeaf(path)|..] == front[|front| - |ImageLeaf(front)|..] + [path[|path| - 1]];
    }
  }

  /** What may be stopped: an image below one of the vendor's roots whose file name is on
      the list and belongs to an enabled component, all in any letter case. */
  ghost predicate MayBeStopped(s: Selection, path: string) {
    && BelowVendorRoot(path)
    && Lower(ImageLeaf(path)) in KNOWN_KILLABLE_PROCESS_NAMES && OwnerEnabled(s, ImageLeaf(path))
  }

  ghost predicate BelowVendorRoot(path: string) {
    exists root, at: nat :: root in APPROVED_ROOTS && ContainsAt(Lower(path), root, at)
  }

  lemma RootIsVendors(path: string)
    ensures UnderApprovedRoot(path) <==> BelowVendorRoot(path)
  {
    if root, at: nat :| root in APPROVED_ROOTS && ContainsAt(Lower(path), root, at) {
      var i :| 0 <= i < |APPROVED_ROOTS| && APPROVED_ROOTS[i] == root;
      assert ContainsAt(Lower(path), APPROVED_ROOTS[i], at) && Contains(Lower(path), APPROVED_ROOTS[i]);
    }
  }

  lemma ApprovedMayBeStopped(s: Selection, path: string)
    ensures Approved(s, path) <==> MayBeStopped(s, path)
  {
    hide Contains, ExactKey, OwnerEnabled, Decide, UnderApprovedRoot, BelowVendorRoot;
    RootIsVendors(path);
    EligibleIsOwned(s, Running(0, ImageLeaf(path)));
  }

  // ---- the kernel ----

  datatype Event =
    | Opened(pid: Pid, exe: string, verified: Option<Object>)
    | Terminated(target: Object, done: bool)
    | Waited(target: Object, at: nat, ms: nat)

  /** The kernel between our calls does as it likes: at each moment every process id
      belongs to whatever object it belongs to then. Only an object's image stays. */
  class Kernel {
    var now: nat
    var log: seq<Event>
    const occupant: (nat, Pid) -> Option<Object>
    const image: Object -> string
    const readable: (nat, Object) -> bool
    const stoppable: (nat, Object) -> bool
    const gone: (nat, Object) -> bool
    /** Milliseconds at each moment. */
    const clock: nat -> nat

    constructor (occupant: (nat, Pid) -> Option<Object>, image: Object -> string, readable: (nat, Object) -> bool,
                 stoppable: (nat, Object) -> bool, gone: (nat, Object) -> bool, clock: nat -> nat)
      ensures now == 0 && log == []
    {
      now, log := 0, [];
      this.occupant, this.image, this.readable := occupant, image, readable;
      this.stoppable, this.gone, this.clock := stoppable, gone, clock;
    }

    /** open_and_verify: the handle stays on the object it was opened on. */
    method OpenAndVerify(pid: Pid, exe: string) returns (handle: Option<Object>)
      modifies this
      ensures log == old(log) + [Opened(pid, exe, handle)] && old(now) < now
      ensures handle.Some? ==> ImageIsOwned(image(handle.value), exe)
      ensures OpenedAt(this, Opened(pid, exe, handle), old(now))
    {
      var current := occupant(now, pid);
      now := now + 1;
      handle := None;
      if current.Some? {
        RootIsVendors(image(current.value));
        if readable(now, current.value) && ImageIsOwned(image(current.value), exe) {
          handle := current;
        }
        now := now + 1;
      }
      log := log + [Opened(pid, exe, handle)];
    }

    method Terminate(target: Object) returns (done: bool)
      modifies this
      ensures log == old(log) + [Terminated(target, done)] && old(now) < now
    {
      done := stoppable(now, target);
      now := now + 1;
      log := log + [Terminated(target, done)];
    }

    method WaitMs(target: Object, ms: nat, at: nat) returns (exited: bool)
      modifies this
      ensures log == old(log) + [Waited(target, at, ms)] && old(now) < now
    {
      exited := gone(now, target);
      now := now + 1;
      log := log + [Waited(target, at, ms)];
    }

    method Elapsed(start: nat) returns (ms: nat)
      modifies this`now
      ensures ms == Since(clock, start, old(now)) && now == old(now) + 1
    {
      var t := clock(now);
      now := now + 1;
      ms := if t < start then 0 else t - start;
    }
  }

  /** The time from `start` to a moment; none while the clock stands before it. */
  function Since(clock: nat -> nat, start: nat, at: nat): nat {
    if clock(at) < start then 0 else clock(at) - start
  }

  /** A handle is on the object that had the process id at that moment, if there was one
      whose image could be read, is below one of the vendor's roots and has the expected
      file name; otherwise there is none. */
  ghost predicate OpenedAt(k: Kernel, open: Event, at: nat)
    requires open.Opened?
  {
    var current := k.occupant(at, open.pid);
    open.verified ==
      if current.Some? && k.readable(at + 1, current.value) && BelowVendorRoot(k.image(current.value))
         && Lower(ImageLeaf(k.image(current.value))) == Lower(open.exe)
      then current else None
  }

  ghost predicate OpenedBetween(k: Kernel, open: Event, from: nat, to: nat) {
    open.Opened? && exists at | from <= at < to :: OpenedAt(k, open, at)
  }

  ghost predicate AllOpenedBetween(k: Kernel, opens: seq<Event>, from: nat, to: nat) {
    forall i | 0 <= i < |opens| :: OpenedBetween(k, opens[i], from, to)
  }

  lemma OpenedByThen(k: Kernel, opens: seq<Event>, open: seq<Event>, from: nat, between: nat, to: nat)
    requires AllOpenedBetween(k, opens, from, between) && AllOpenedBetween(k, open, between, to)
    requires from <= between <= to
    ensures AllOpenedBetween(k, opens + open, from, to)
  {
    hide OpenedAt;
    forall i | 0 <= i < |opens + open|
      ensures OpenedBetween(k, (opens + open)[i], from, to)
    {
      if i < |opens| {
        assert OpenedBetween(k, opens[i], from, between);
      } else {
        assert OpenedBetween(k, open[i - |opens|], between, to);
      }
    }
  }

  // ---- selecting, terminating, waiting ----

  datatype Running = Running(pid: Pid, exe: string)

  predicate Eligible(s: Selection, p: Running) {
    ExplicitlyKillable(p.exe) && Decide(s, p.exe).Allowed?
  }

  /** The processes of a snapshot that are looked at more closely, in its order. */
  function Looked(s: Selection, processes: seq<Running>): seq<Running> {
    if processes == [] then []
    else
      var last := processes[|processes| - 1];
      Looked(s, processes[..|processes| - 1]) + (if Eligible(s, last) then [last] else [])
  }

  function CountKnown(processes: seq<Running>): nat {
    if processes == [] then 0
    else
      CountKnown(processes[..|processes| - 1])
      + (if ExplicitlyKillable(processes[|processes| - 1].exe) then 1 else 0)
  }

  function CountDeselected(s: Selection, processes: seq<Running>): nat {
    if processes == [] then 0
    else
      var exe := processes[|processes| - 1].exe;
      CountDeselected(s, processes[..|processes| - 1])
      + (if ExplicitlyKillable(exe) && Decide(s, exe).ComponentDisabled? then 1 else 0)
  }

  /** These events open a handle for each of these processes. */
  predicate OpensFor(events: seq<Event>, looked: seq<Running>) {
    |events| == |looked|
    && forall i | 0 <= i < |events| ::
         events[i].Opened? && events[i].pid == looked[i].pid && events[i].exe == looked[i].exe
  }

  /** The objects that passed verification. */
  function Verified(events: seq<Event>): seq<Object> {
    if events == [] then []
    else
      var last := events[|events| - 1];
      Verified(events[..|events| - 1]) + (if last.Opened? && last.verified.Some? then [last.verified.value] else [])
  }

  lemma FirstPositions(processes: seq<Running>, n: nat, counted: Running -> bool)
    requires n < |processes|
    ensures var front := Positions(processes, n, counted);
      && n !in front && Positions(processes, n + 1, counted) == if counted(processes[n]) then front + {n} else front
  {
  }

  /** Where processes of a kind stand among the first `n`. */
  function Positions(processes: seq<Running>, n: nat, counted: Running -> bool): set<nat>
    requires n <= |processes|
  {
    set i: nat | i < n && counted(processes[i])
  }

  /** The two counts are of the listed processes, and of those whose component is in the
      catalog and deselected. */
  lemma {:induction false} CountsAre(s: Selection, processes: seq<Running>, n: nat)
    requires n <= |processes|
    ensures CountKnown(processes[..n]) == |Positions(processes, n, Known())|
    ensures CountDeselected(s, processes[..n]) == |Positions(processes, n, Deselected(s))|
  {
    hide Known, Deselected, Positions;
    if n == 0 {
      NoPositions(processes, Known());
      NoPositions(processes, Deselected(s));
    } else {
      CountsAre(s, processes, n - 1);
      assert processes[..n][..n - 1] == processes[..n - 1];
      FirstPositions(processes, n - 1, Known());
      FirstPositions(processes, n - 1, Deselected(s));
      KindsAre(s, processes[n - 1]);
    }
  }

  lemma NoPositions(processes: seq<Running>, counted: Running -> bool)
    ensures Positions(processes, 0, counted) == {}
  {
  }

  function Known(): Running -> bool {
    (p: Running) => Lower(p.exe) in KNOWN_KILLABLE_PROCESS_NAMES
  }

  ghost function Deselected(s: Selection): Running -> bool {
    (p: Running) =>
      Lower(p.exe) in KNOWN_KILLABLE_PROCESS_NAMES && !OwnerEnabled(s, p.exe) && exists key :: OwnedBy(s, p.exe, key)
  }

  lemma KindsAre(s: Selection, p: Running)
    ensures Known()(p) <==> ExplicitlyKillable(p.exe)
    ensures Deselected(s)(p) <==> ExplicitlyKillable(p.exe) && Decide(s, p.exe).ComponentDisabled?
  {
    hide OwnerEnabled, OwnedBy, Decide;
    EligibleIsOwned(s, p);
  }

  /** Each process of a snapshot is looked at, or not, for itself, in its place. */
  lemma {:induction false} LookedInOrder(s: Selection, a: seq<Running>, b: seq<Running>)
    ensures Looked(s, a + b) == Looked(s, a) + Looked(s, b)
    ensures |a| == 1 ==>
      Looked(s, a) == if Lower(a[0].exe) in KNOWN_KILLABLE_PROCESS_NAMES && OwnerEnabled(s, a[0].exe) then a else []
  {
    hide OwnerEnabled, Eligible;
    if |a| == 1 {
      EligibleIsOwned(s, a[0]);
      assert a[..0] == [] && [a[0]] == a;
    }
    if b == [] {
      assert a + b == a && Looked(s, a) + [] == Looked(s, a);
    } else {
      var front := b[..|b| - 1];
      LookedInOrder(s, a, front);
      assert (a + b)[..|a + b| - 1] == a + front;
    }
  }

  /** Every handle that was opened counts, one after the other. */
  lemma {:induction false} VerifiedAre(a: seq<Event>, b: seq<Event>)
    ensures Verified(a + b) == Verified(a) + Verified(b)
    ensures |a| == 1 ==> Verified(a) == if a[0].Opened? && a[0].verified.Some? then [a[0].verified.value] else []
  {
    if b == [] {
      assert a + b == a && Verified(a) + [] == Verified(a);
    } else {
      var front := b[..|b| - 1];
      VerifiedAre(a, front);
      assert (a + b)[..|a + b| - 1] == a + front;
    }
  }

  predicate Kills(events: seq<Event>, targets: seq<Object>) {
    |events| == |targets| && forall i | 0 <= i < |events| :: events[i].Terminated? && events[i].target == targets[i]
  }

  /** Waits for the first targets, in order, each for what is left of the time that all
      of them share from the moment `begun` on. */
  predicate Waits(k: Kernel, events: seq<Event>, targets: seq<Object>, begun: nat) {
    |events| <= |targets|
    && forall i | 0 <= i < |events| ::
      && events[i].Waited? && events[i].target == targets[i] && begun <= events[i].at && events[i].ms > 0
      && Since(k.clock, k.clock(begun), events[i].at) + events[i].ms == CONVERGENCE_MS
  }

  /** All are waited for, unless the time is over before. */
  ghost predicate WaitedOut(k: Kernel, events: seq<Event>, targets: seq<Object>, from: nat, to: nat) {
    exists begun: nat | from <= begun <= to ::
      Waits(k, events, targets, begun) && (|events| == |targets| || OverBy(k, begun, to))
  }

  ghost predicate OverBy(k: Kernel, begun: nat, to: nat) {
    exists at | begun <= at < to :: Since(k.clock, k.clock(begun), at) >= CONVERGENCE_MS
  }

  /** One process of the snapshot. */
  method Consider(k: Kernel, s: Selection, p: Running)
    returns (handle: Option<Object>, isKnown: bool, isDeselected: bool, ghost open: seq<Event>)
    modifies k
    ensures isKnown == ExplicitlyKillable(p.exe) && isDeselected == (isKnown && Decide(s, p.exe).ComponentDisabled?)
    ensures k.log == old(k.log) + open && open == if Eligible(s, p) then [Opened(p.pid, p.exe, handle)] else []
    ensures old(k.now) <= k.now && AllOpenedBetween(k, open, old(k.now), k.now)
    ensures handle.Some? ==> Eligible(s, p) && Approved(s, k.image(handle.value))
  {
    handle, isKnown, isDeselected, open := None, false, false, [];
    if !ExplicitlyKillable(p.exe) {
      return;
    }
    isKnown := true;
    var decision := Decide(s, p.exe);
    if decision.ComponentDisabled? {
      isDeselected := true;
      return;
    }
    if decision.NotMatched? {
      return;
    }
    handle := k.OpenAndVerify(p.pid, p.exe);
    open := [Opened(p.pid, p.exe, handle)];
    assert OpenedBetween(k, open[0], old(k.now), k.now);
    if handle.Some? {
      VerifiedIsApproved(s, p.exe, k.image(handle.value));
    }
  }

  lemma NothingOpened()
    ensures OpensFor([], []) && Verified([]) == []
  {
  }

  lemma OneMoreLooked(s: Selection, opens: seq<Event>, open: seq<Event>, processes: seq<Running>, n: nat,
                      handle: Option<Object>)
    requires n < |processes| && OpensFor(opens, Looked(s, processes[..n]))
    requires var p := processes[n];
      open == if Eligible(s, p) then [Opened(p.pid, p.exe, handle)] else []
    requires handle.Some? ==> Eligible(s, processes[n])
    ensures OpensFor(opens + open, Looked(s, processes[..n + 1]))
    ensures Verified(opens + open) == Verified(opens) + (if handle.Some? then [handle.value] else [])
  {
    hide Eligible;
    assert processes[..n + 1][..n] == processes[..n];
    if Eligible(s, processes[n]) {
      assert (opens + open)[..|opens|] == opens;
    } else {
      assert opens + open == opens && Verified(opens) + [] == Verified(opens);
    }
  }

  method Select(k: Kernel, s: Selection, processes: seq<Running>)
    returns (targets: seq<Object>, known: nat, deselected: nat, ghost opens: seq<Event>)
    modifies k
    ensures k.log == old(k.log) + opens && OpensFor(opens, Looked(s, processes)) && targets == Verified(opens)
    ensures old(k.now) <= k.now && AllOpenedBetween(k, opens, old(k.now), k.now)
    ensures known == CountKnown(processes) && deselected == CountDeselected(s, processes)
    ensures forall i | 0 <= i < |targets| :: Approved(s, k.image(targets[i]))
  {
    hide OpensFor, OpenedBetween, Decide, ExplicitlyKillable, Approved;
    targets, known, deselected, opens := [], 0, 0, [];
    ghost var before := k.log;
    NothingOpened();
    for n := 0 to |processes|
      invariant k.log == before + opens && OpensFor(opens, Looked(s, processes[..n])) && targets == Verified(opens)
      invariant old(k.now) <= k.now && AllOpenedBetween(k, opens, old(k.now), k.now)
      invariant known == CountKnown(processes[..n]) && deselected == CountDeselected(s, processes[..n])
      invariant forall i | 0 <= i < |targets| :: Approved(s, k.image(targets[i]))
    {
      assert processes[..n + 1][..n] == processes[..n];
      ghost var open: seq<Event>;
      var handle, isKnown, isDeselected;
      ghost var between := k.now;
      handle, isKnown, isDeselected, open := Consider(k, s, processes[n]);
      known := known + if isKnown then 1 else 0;
      deselected := deselected + if isDeselected then 1 else 0;
      OneMoreLooked(s, opens, open, processes, n, handle);
      Assoc(before, opens, open);
      OpenedByThen(k, opens, open, old(k.now), between, k.now);
      opens := opens + open;
      if handle.Some? {
        targets := targets + [handle.value];
      }
    }
    assert processes[..|processes|] == processes;
  }

  method TerminateAll(k: Kernel, targets: seq<Object>) returns (ghost kills: seq<Event>)
    modifies k
    ensures k.log == old(k.log) + kills && Kills(kills, targets) && old(k.now) <= k.now
  {
    kills := [];
    ghost var before := k.log;
    for i := 0 to |targets|
      invariant k.log == before + kills && Kills(kills, targets[..i]) && old(k.now) <= k.now
    {
      var done := k.Terminate(targets[i]);
      kills := kills + [Terminated(targets[i], done)];
    }
    assert targets[..|targets|] == targets;
  }

  method WaitAll(k: Kernel, targets: seq<Object>) returns (ghost waits: seq<Event>)
    modifies k
    ensures k.log == old(k.log) + waits && WaitedOut(k, waits, targets, old(k.now), k.now)
  {
    waits := [];
    ghost var before, begun := k.log, k.now;
    var start := k.clock(k.now);
    for i := 0 to |targets|
      invariant k.log == before + waits && Waits(k, waits, targets, begun) && |waits| == i && begun <= k.now
    {
      var at := k.now;
      var elapsed := k.Elapsed(start);
      if elapsed >= CONVERGENCE_MS {
        assert OverBy(k, begun, k.now);
        break;
      }
      var exited := k.WaitMs(targets[i], CONVERGENCE_MS - elapsed, at);
      waits := waits + [Waited(targets[i], at, CONVERGENCE_MS - elapsed)];
    }
  }

  /** kill_locker_processes. Nothing is terminated before every handle has been
      opened; each verified object is terminated once, in the order of the snapshot;
      every one of them is approved. Without `execute` the same handles are
      verified and nothing is terminated. */
  method KillLockerProcesses(k: Kernel, s: Selection, snapshot: Option<seq<Running>>, killLockers: bool, execute: bool)
    returns (known: nat, verified: nat, deselected: nat,
             ghost opens: seq<Event>, ghost kills: seq<Event>, ghost waits: seq<Event>)
    modifies k
    ensures k.log == old(k.log) + (opens + (kills + waits))
    ensures !killLockers || snapshot.None? ==> opens == [] && kills == [] && waits == []
    ensures killLockers && snapshot.Some? ==>
      && OpensFor(opens, Looked(s, snapshot.value))
      && known == |Positions(snapshot.value, |snapshot.value|, Known())|
      && deselected == |Positions(snapshot.value, |snapshot.value|, Deselected(s))|
      && verified == |Verified(opens)|
    ensures killLockers && snapshot.Some? && execute ==>
      Kills(kills, Verified(opens)) && WaitedOut(k, waits, Verified(opens), old(k.now), k.now)
    ensures AllOpenedBetween(k, opens, old(k.now), k.now)
    ensures !execute ==> kills == [] && waits == []
    ensures forall i | 0 <= i < |kills| :: kills[i].Terminated? && MayBeStopped(s, k.image(kills[i].target))
    ensures forall i | 0 <= i < |opens| :: opens[i].Opened? && OwnerEnabled(s, opens[i].exe)
  {
    known, verified, deselected, opens, kills, waits := 0, 0, 0, [], [], [];
    if !killLockers {
      return;
    }
    if snapshot.None? {
      return;
    }
    var targets;
    targets, known, deselected, opens := Select(k, s, snapshot.value);
    verified := |targets|;
    LookedAreOwned(s, snapshot.value);
    CountsAre(s, snapshot.value, |snapshot.value|);
    assert snapshot.value[..|snapshot.value|] == snapshot.value;
    if !execute {
      return;
    }
    kills := TerminateAll(k, targets);
    forall i | 0 <= i < |targets|
      ensures MayBeStopped(s, k.image(targets[i]))
    {
      ApprovedMayBeStopped(s, k.image(targets[i]));
    }
    waits := WaitAll(k, targets);
    Assoc(old(k.log), opens, kills + waits);
    Assoc(old(k.log) + opens, kills, waits);
  }
}
