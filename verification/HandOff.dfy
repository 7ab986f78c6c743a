/** Handing a run over to an elevated child: what the parent forwards, and what
    the child makes of its command line. */
module HandOff {
  import opened Basics
  import opened Text
  import opened Options
  import opened Components
  import opened Switches
  import opened CommandLine
  import Reading

  function Texts(s: seq<Switch>): (r: seq<string>)
    ensures |r| == |s| && forall i | 0 <= i < |s| :: r[i] == SwitchText(s[i])
  {
    seq(|s|, i requires 0 <= i < |s| => SwitchText(s[i]))
  }

  /** The component choices, in the order the map is iterated. */
  function Choices(m: Selection, keys: seq<string>): seq<Switch>
    requires forall k | k in keys :: k in m
  {
    seq(|keys|, i requires 0 <= i < |keys| => Component(keys[i], m[keys[i]]))
  }

  /** The switch that forwards one boolean option; most are left out when the
      option has its default. */
  function Forward(t: Toggle, o: Opts): seq<Switch> {
    var v := t in o.on;
    match t
    case Executing => [Plain(if v then Execute else DryRun)]
    case KillsLockers => if v then [Plain(KillLockers)] else []
    case PreservesNvContainers => if v then [] else [PreserveOff]
    case DisablesServices => if v then [Plain(DisableServices)] else []
    case DeletesServices => if v then [Plain(DeleteServices)] else []
    case DeletesScheduledTasks => if v then [Plain(DeleteTasks)] else []
    case DisablesScheduledTasks => if v then [] else [Plain(NoDisableTasks)]
    case SchedulesLockedForReboot => if v then [Plain(ScheduleRebootDelete)] else []
    case TakesOwnership => if v then [Plain(TakeOwnership)] else []
    case WithNgx => if v then [Plain(IncludeNgx)] else []
    case WithHdAudio => if v then [Plain(IncludeHdAudio)] else []
    case WithPhysx => if v then [Plain(IncludePhysx)] else []
    case WithNotebookOptimus => if v then [Plain(IncludeNotebookOptimus)] else []
    case WithVirtualAudio => if v then [Plain(IncludeVirtualAudio)] else []
    case WithNvwmi => if v then [Plain(IncludeNvwmi)] else []
    case WithCaptureSdk => if v then [Plain(IncludeCaptureSdk)] else []
    case WithAnsel => if v then [Plain(IncludeAnsel)] else []
    case AdminFallbackAllowed => if v then [Plain(AllowAdminFallback)] else []
    case _ => []
  }

  /** The boolean options that are forwarded, in the order of their switches. */
  const FORWARDED: seq<Toggle> := [
    Executing, KillsLockers, PreservesNvContainers, DisablesServices, DeletesServices, DeletesScheduledTasks,
    DisablesScheduledTasks, SchedulesLockedForReboot, TakesOwnership, WithNgx, WithHdAudio, WithPhysx,
    WithNotebookOptimus, WithVirtualAudio, WithNvwmi, WithCaptureSdk, WithAnsel, AdminFallbackAllowed]

  predicate IsForwarded(t: Toggle) {
    !(t.ShowMenu? || t.WizardDefaults? || t.PauseOnExit? || t.IsTiChild? || t.TiRelaunchAttempted?
      || t.NeverPause? || t.Monochrome? || t.ShowHelp? || t.ShowVersion? || t.ShowComponents?)
  }

  lemma ForwardedList()
    ensures forall i, j | 0 <= i < j < |FORWARDED| :: FORWARDED[i] != FORWARDED[j]
    ensures forall t :: t in FORWARDED <==> IsForwarded(t)
  {
  }

  function ForwardAll(ts: seq<Toggle>, o: Opts): seq<Switch> {
    if ts == [] then [] else ForwardAll(ts[..|ts| - 1], o) + Forward(ts[|ts| - 1], o)
  }

  function EffectiveSwitches(o: Opts, m: Selection, keys: seq<string>): seq<Switch>
    requires forall k | k in keys :: k in m
  {
    Front(o) + Choices(m, keys)
  }

  /** One switch whose value the child can read. */
  predicate Readable(s: Switch) {
    s.Wait? ==> -I64_MAX - 1 <= s.seconds <= I64_MAX
  }

  lemma LongIsNoConsole(low: string)
    requires |low| > 10
    ensures ConsoleFlag(low) == None
  {
  }

  lemma LongIsNoKey(low: string)
    requires |low| > 17
    ensures ValueKeyOf(low) == None
  {
  }

  lemma ThirdIsNoKey(low: string)
    requires |low| > 2 && low[2] != 's' && low[2] != 'l' && low[2] != 't' && low[2] != 'a'
    ensures ValueKeyOf(low) == None
  {
  }

  /** A switch that neither stands alone nor takes the next argument, by its third
      letter. */
  lemma ThirdIsOther(low: string)
    requires |low| > 10 && low[2] in {'c', 'p'}
    ensures FlagOf(low) == None && ValueKeyOf(low) == None
  {
    hide ModeFlag, ActionFlag, IncludeFlag, ConsoleFlag, ValueKeyOf;
    ThirdIsNoMode(low);
    ThirdIsNoAction(low);
    NotIncluded(low);
    LongIsNoConsole(low);
    ThirdIsNoKey(low);
  }

  lemma ComponentLower()
    ensures Lower(COMPONENT_PREFIX) == COMPONENT_PREFIX && |COMPONENT_PREFIX| == 12
    ensures COMPONENT_PREFIX[2] == 'c' && COMPONENT_PREFIX[11] == '=' && '=' !in COMPONENT_PREFIX[..11]
  {
  }

  lemma ComponentText(key: string, on: bool)
    ensures var low := Lower(SwitchText(Component(key, on)));
      && COMPONENT_PREFIX <= low && |low| > 12
      && FlagOf(low) == None && ValueKeyOf(low) == None
    ensures COMPONENT_PREFIX <= SwitchText(Component(key, on))
  {
    hide FlagOf, ValueKeyOf;
    var a := SwitchText(Component(key, on));
    var rest := key + ":" + (if on then "on" else "off");
    assert a == COMPONENT_PREFIX + rest && |a| > 12;
    LowerConcat(COMPONENT_PREFIX, rest);
    ComponentLower();
    ThirdIsOther(Lower(a));
  }

  lemma {:induction false} FirstOf(s: string, c: char, i: nat)
    requires i < |s| && s[i] == c && forall j | 0 <= j < i :: s[j] != c
    ensures IndexOf(s, c) == i
    decreases i
  {
    if i == 0 {
    } else {
      FirstOf(s[1..], c, i - 1);
    }
  }

  lemma NoAssignedKey(key: string)
    requires |key| > 2 && key[2] == 'c'
    ensures key != "--status-file" && key != "--log-file" && key != "--log-dir" && key != "--abort-event"
  {
  }

  lemma AssignmentOfOther(a: string, key: string, o: Opts)
    requires COMPONENT_PREFIX <= Lower(a) && IndexOf(a, '=') < |a|
    requires key == Lower(a[..IndexOf(a, '=')]) && |key| > 2 && key[2] == 'c'
    ensures ApplyAssignment(a, o) == o
  {
    hide Lower, IndexOf;
    NoAssignedKey(key);
  }

  lemma ComponentIsNoAssignment(key: string, on: bool, o: Opts)
    ensures ApplyAssignment(SwitchText(Component(key, on)), o) == o
  {
    hide ApplyAssignment, SwitchText, FlagOf, ValueKeyOf;
    var a := SwitchText(Component(key, on));
    ComponentText(key, on);
    ComponentLower();
    assert forall j | 0 <= j < 12 :: a[j] == COMPONENT_PREFIX[j];
    assert forall j | 0 <= j < 11 :: a[j] != '=' by {
      assert forall j | 0 <= j < 11 :: COMPONENT_PREFIX[..11][j] == COMPONENT_PREFIX[j];
    }
    FirstOf(a, '=', 11);
    assert Lower(a[..11])[2] == 'c';
    AssignmentOfOther(a, Lower(a[..11]), o);
  }

  lemma PreserveThird()
    ensures |PRESERVE| > 2 && Lower(PRESERVE)[2] == 'p' && PRESERVE[2] == 'p'
  {
  }

  lemma NotPreserve(a: string)
    requires |a| > 2 && Lower(a)[2] != 'p'
    ensures ParseBoolAssignment(a, PRESERVE) == NotMine && Lower(a) != PRESERVE
  {
    hide ParseBoolWord;
    PreserveThird();
    assert (Lower(PRESERVE) + "=")[2] == 'p';
  }

  lemma WaitThird()
    ensures Lower(WAIT_PREFIX) == WAIT_PREFIX && |WAIT_PREFIX| == 18 && WAIT_PREFIX[2] == 't'
  {
  }

  /** What is left of ApplyOther for a switch with this third letter. */
  lemma OtherIsAssignment(a: string, o: Opts)
    requires |a| > 2 && Lower(a)[2] != 'p' && Lower(a)[2] != 't'
    ensures ApplyOther(a, o) == ApplyAssignment(a, o)
  {
    hide ParseBoolAssignment, ApplyAssignment, ApplyTiWait;
    NotPreserve(a);
    WaitThird();
  }

  lemma StepComponent(key: string, on: bool, o: Opts)
    ensures ApplyOther(SwitchText(Component(key, on)), o) == o
  {
    hide ApplyOther, ApplyAssignment, SwitchText, FlagOf, ValueKeyOf;
    var a := SwitchText(Component(key, on));
    ComponentText(key, on);
    ComponentLower();
    assert Lower(a)[2] == 'c';
    OtherIsAssignment(a, o);
    ComponentIsNoAssignment(key, on, o);
  }

  lemma TenseIsNoMode(low: string)
    requires |low| > 17 && low[2] == 't'
    ensures ModeFlag(low) == None
  {
  }

  lemma TenseIsNoAction(low: string)
    requires |low| > 17 && low[2] == 't'
    ensures ActionFlag(low) == None
  {
  }

  lemma NotAWaitFlag(low: string)
    requires |low| > 18 && low[2] == 't'
    ensures FlagOf(low) == None && ValueKeyOf(low) == None
  {
    hide ModeFlag, ActionFlag, IncludeFlag, ConsoleFlag, ValueKeyOf;
    TenseIsNoMode(low);
    TenseIsNoAction(low);
    NotIncluded(low);
    LongIsNoConsole(low);
    LongIsNoKey(low);
  }

  lemma WaitText(n: int)
    requires -I64_MAX - 1 <= n <= I64_MAX
    ensures var low := Lower(SwitchText(Wait(n)));
      && low == WAIT_PREFIX + IntText(n) && |IntText(n)| > 0
      && FlagOf(low) == None && ValueKeyOf(low) == None
  {
    hide FlagOf, ValueKeyOf, Decimal, Digits, ParseI64;
    var low := Lower(SwitchText(Wait(n)));
    ParseFormatted(n);
    DecimalDigits(if n < 0 then 0 - n else n);
    LowerConcat(WAIT_PREFIX, IntText(n));
    WaitThird();
    assert SwitchText(Wait(n)) == WAIT_PREFIX + IntText(n);
    NotAWaitFlag(low);
  }

  lemma WaitIsApplied(a: string, o: Opts)
    requires |a| > 18 && WAIT_PREFIX <= Lower(a)
    ensures ApplyOther(a, o) == ApplyTiWait(Lower(a)[18..], o)
  {
    hide ParseBoolAssignment, ApplyAssignment, ApplyTiWait;
    WaitThird();
    assert Lower(a)[2] == 't';
    NotPreserve(a);
  }

  lemma StepWait(n: int, o: Opts)
    requires -I64_MAX - 1 <= n <= I64_MAX
    ensures ApplyOther(SwitchText(Wait(n)), o) == Effect(Wait(n), o)
  {
    hide ApplyOther, SwitchText, FlagOf, ValueKeyOf, ParseI64, IntText, Lower;
    var a := SwitchText(Wait(n));
    WaitText(n);
    WaitThird();
    ParseFormatted(n);
    var low := Lower(a);
    assert low[18..] == IntText(n) && WAIT_PREFIX <= low && |low| == |a|;
    WaitIsApplied(a, o);
  }

  lemma PreserveText()
    ensures var low := Lower(SwitchText(PreserveOff));
      low == SwitchText(PreserveOff) && FlagOf(low) == None && ValueKeyOf(low) == None
  {
    hide FlagOf, ValueKeyOf;
    var a := SwitchText(PreserveOff);
    LowerConcat(PRESERVE, "=");
    LowerConcat(PRESERVE + "=", "off");
    PreserveLower();
    assert a[2] == PRESERVE[2];
    ThirdIsOther(a);
  }

  lemma StepPreserve(o: Opts)
    ensures ApplyOther(SwitchText(PreserveOff), o) == Effect(PreserveOff, o)
  {
    hide ApplyAssignment, ApplyTiWait, FlagOf, ValueKeyOf;
    var a, prefix := SwitchText(PreserveOff), PRESERVE + "=";
    PreserveText();
    PreserveLower();
    assert prefix <= a && a[|prefix|..] == "off";
    assert ParseBoolWord("off") == Some(false);
  }

  /** Parsing one forwarded switch has its effect. */
  lemma StepSwitch(s: Switch, rest: seq<string>, o: Opts)
    requires Readable(s)
    ensures ParseFrom([SwitchText(s)] + rest, o) == ParseFrom(rest, Effect(s, o))
  {
    hide Spelling, Lower, FlagOf, ValueKeyOf, Apply, ApplyOther, IntText;
    var args := [SwitchText(s)] + rest;
    assert args[0] == SwitchText(s) && args[1..] == rest;
    match s
    case Plain(f) => FlagSpelled(f);
    case PreserveOff => PreserveText(); StepPreserve(o);
    case Wait(n) => WaitText(n); StepWait(n, o);
    case Component(key, on) => ComponentText(key, on); StepComponent(key, on, o);
  }

  function Effects(s: seq<Switch>, o: Opts): Opts {
    if s == [] then o else Effect(s[|s| - 1], Effects(s[..|s| - 1], o))
  }

  lemma {:induction false} StepSwitches(s: seq<Switch>, rest: seq<string>, o: Opts)
    requires forall i | 0 <= i < |s| :: Readable(s[i])
    ensures ParseFrom(Texts(s) + rest, o) == ParseFrom(rest, Effects(s, o))
    decreases |s|
  {
    if s == [] {
      assert Texts(s) + rest == rest;
    } else {
      var front, last := s[..|s| - 1], s[|s| - 1];
      assert Texts(s) + rest == Texts(front) + ([SwitchText(last)] + rest);
      StepSwitches(front, [SwitchText(last)] + rest, o);
      StepSwitch(last, rest, Effects(front, o));
    }
  }

  lemma {:induction false} EffectsConcat(a: seq<Switch>, b: seq<Switch>, o: Opts)
    ensures Effects(a + b, o) == Effects(b, Effects(a, o))
  {
    if b == [] {
      assert a + b == a;
    } else {
      EffectsConcat(a, b[..|b| - 1], o);
      assert (a + b)[..|a + b| - 1] == a + b[..|b| - 1];
    }
  }

  /** The options a child starts from when everything the parent forwards has been
      read: the rest keeps its default. */
  function Forwarded(o: Opts): Opts {
    DEFAULTS.(
      on := (set t | t in o.on && IsForwarded(t)) + (set t | t in DEFAULTS.on && !IsForwarded(t)),
      tiWaitSeconds := Clamp(o.tiWaitSeconds, TI_WAIT_MIN_SECS, TI_WAIT_MAX_SECS))
  }

  /** `x` is the default but for the options of `ts`, which are those of `o`. */
  ghost predicate TakenOver(ts: seq<Toggle>, o: Opts, x: Opts) {
    && x == DEFAULTS.(on := x.on)
    && forall t :: t in x.on <==> if t in ts then t in o.on else t in DEFAULTS.on
  }

  lemma EffectsOfOne(s: Switch, x: Opts)
    ensures Effects([s], x) == Effect(s, x) && Effects([], x) == x
  {
    assert [s][..0] == [];
  }

  lemma ForwardShape(t: Toggle, o: Opts)
    requires IsForwarded(t)
    ensures |Forward(t, o)| <= 1
    ensures Forward(t, o) == [] ==> (t in o.on <==> t in DEFAULTS.on)
  {
  }

  predicate IsPart(t: Toggle) {
    t.WithNgx? || t.WithHdAudio? || t.WithPhysx? || t.WithNotebookOptimus? || t.WithVirtualAudio? || t.WithNvwmi?
    || t.WithCaptureSdk? || t.WithAnsel?
  }

  lemma PartEffect(t: Toggle, o: Opts, x: Opts)
    requires IsPart(t) && Forward(t, o) != []
    ensures Effect(Forward(t, o)[0], x) == Set(x, t, t in o.on)
  {
  }

  lemma ActionEffect(t: Toggle, o: Opts, x: Opts)
    requires IsForwarded(t) && !IsPart(t) && Forward(t, o) != []
    ensures Effect(Forward(t, o)[0], x) == Set(x, t, t in o.on)
  {
  }

  lemma ForwardEffect(t: Toggle, o: Opts, x: Opts)
    requires IsForwarded(t) && Forward(t, o) != []
    ensures Effect(Forward(t, o)[0], x) == Set(x, t, t in o.on)
  {
    hide Forward, Effect, Set, IsForwarded;
    if IsPart(t) {
      PartEffect(t, o, x);
    } else {
      ActionEffect(t, o, x);
    }
  }

  lemma ForwardOne(t: Toggle, o: Opts, x: Opts)
    requires IsForwarded(t) && (t in x.on <==> t in DEFAULTS.on)
    ensures Effects(Forward(t, o), x) == Set(x, t, t in o.on)
  {
    hide Forward, Effect;
    var f := Forward(t, o);
    ForwardShape(t, o);
    if f != [] {
      assert f == [f[0]];
      EffectsOfOne(f[0], x);
      ForwardEffect(t, o, x);
    } else {
      EffectsOfOne(PreserveOff, x);
      assert Set(x, t, t in o.on).on == x.on;
    }
  }

  lemma {:induction false} ForwardTakesOver(ts: seq<Toggle>, o: Opts)
    requires (forall i, j | 0 <= i < j < |ts| :: ts[i] != ts[j]) && forall t | t in ts :: IsForwarded(t)
    ensures TakenOver(ts, o, Effects(ForwardAll(ts, o), DEFAULTS))
    decreases |ts|
  {
    hide Forward;
    if ts == [] {
    } else {
      var front, t := ts[..|ts| - 1], ts[|ts| - 1];
      ForwardTakesOver(front, o);
      assert ts == front + [t] && t !in front;
      ForwardOne(t, o, Effects(ForwardAll(front, o), DEFAULTS));
      EffectsConcat(ForwardAll(front, o), Forward(t, o), DEFAULTS);
    }
  }

  lemma {:induction false} ChoicesHaveNoEffect(m: Selection, keys: seq<string>, o: Opts)
    requires forall k | k in keys :: k in m
    ensures Effects(Choices(m, keys), o) == o
    decreases |keys|
  {
    if keys == [] {
    } else {
      var front := keys[..|keys| - 1];
      ChoicesHaveNoEffect(m, front, o);
      assert Choices(m, keys)[..|keys| - 1] == Choices(m, front);
    }
  }

  lemma EffectiveEffects(o: Opts, m: Selection, keys: seq<string>)
    requires forall k | k in keys :: k in m
    ensures Effects(EffectiveSwitches(o, m, keys), DEFAULTS) == Forwarded(o)
  {
    hide Effects, ForwardAll, Choices, IsForwarded;
    var a, w, c := ForwardAll(FORWARDED, o), [Wait(o.tiWaitSeconds)], Choices(m, keys);
    ForwardedList();
    ForwardTakesOver(FORWARDED, o);
    EffectsConcat(a, w, DEFAULTS);
    EffectsConcat(a + w, c, DEFAULTS);
    ChoicesHaveNoEffect(m, keys, Effects(a + w, DEFAULTS));
    EffectsOfOne(w[0], Effects(a, DEFAULTS));
    assert Effects(a, DEFAULTS).on == Forwarded(o).on;
  }

  lemma {:induction false} ForwardReadable(ts: seq<Toggle>, o: Opts)
    ensures forall s | s in ForwardAll(ts, o) :: s.Plain? || s.PreserveOff?
  {
    if ts == [] {
    } else {
      ForwardReadable(ts[..|ts| - 1], o);
    }
  }

  /** Whatever follows, the child first reads back what the parent forwarded. */
  lemma ForwardedIsRead(o: Opts, m: Selection, keys: seq<string>, rest: seq<string>)
    requires (forall k | k in keys :: k in m) && Readable(Wait(o.tiWaitSeconds))
    ensures ParseFrom(Texts(EffectiveSwitches(o, m, keys)) + rest, DEFAULTS) == ParseFrom(rest, Forwarded(o))
  {
    ForwardReadable(FORWARDED, o);
    var all := EffectiveSwitches(o, m, keys);
    forall i | 0 <= i < |all|
      ensures Readable(all[i])
    {
      assert i < |ForwardAll(FORWARDED, o)| ==> all[i] in ForwardAll(FORWARDED, o);
    }
    StepSwitches(EffectiveSwitches(o, m, keys), rest, DEFAULTS);
    EffectiveEffects(o, m, keys);
  }

  /** The letters with which switches that take a value begin, `--ti-wait-seconds`
      aside. */
  predicate ValueStart(low: string) {
    && |low| > 8
    && ((low[2] == 's' && low[3] == 't') || (low[2] == 'l' && low[3] == 'o') || (low[2] == 'a' && low[3] == 'b'))
  }

  lemma ValueIsNoMode(low: string)
    requires ValueStart(low)
    ensures ModeFlag(low) == None
  {
  }

  lemma ValueIsNoAction(low: string)
    requires ValueStart(low)
    ensures ActionFlag(low) == None
  {
    hide ActionFlag;
    if low[2] == 's' {
      StIsNoAction(low);
    } else {
      ThirdIsNoAction(low);
    }
  }

  lemma StIsNoAction(low: string)
    requires |low| > 8 && low[2] == 's' && low[3] == 't'
    ensures ActionFlag(low) == None
  {
  }

  lemma ValueIsNoConsole(low: string)
    requires ValueStart(low)
    ensures ConsoleFlag(low) == None
  {
  }

  lemma NotAValueFlag(low: string)
    requires ValueStart(low)
    ensures FlagOf(low) == None
  {
    hide ModeFlag, ActionFlag, IncludeFlag, ConsoleFlag;
    ValueIsNoMode(low);
    ValueIsNoAction(low);
    ValueIsNoConsole(low);
    NotIncluded(low);
  }

  lemma KeyLower(k: ValueKey)
    ensures Lower(KeySpelling(k)) == KeySpelling(k)
    ensures ValueKeyOf(KeySpelling(k)) == Some(k)
  {
  }

  lemma KeyStart(k: ValueKey)
    requires k != TiWaitSeconds
    ensures ValueStart(KeySpelling(k))
  {
  }

  /** A switch followed by its value. */
  lemma StepValue(k: ValueKey, v: string, rest: seq<string>, o: Opts)
    requires k != TiWaitSeconds
    ensures ParseFrom([KeySpelling(k), v] + rest, o) == ParseFrom(rest, AssignNext(KeySpelling(k), k, v, o))
  {
    hide Lower, FlagOf, ValueKeyOf, AssignNext, Apply, ApplyOther;
    var a := KeySpelling(k);
    var args := [a, v] + rest;
    KeyLower(k);
    KeyStart(k);
    NotAValueFlag(a);
    assert args[0] == a && args[1] == v && args[2..] == rest;
  }

  /** What a UAC child is started with. */
  function UacArgs(o: Opts, m: Selection, keys: seq<string>, logFile: string, abortEvent: string): seq<string>
    requires forall k | k in keys :: k in m
  {
    Texts(EffectiveSwitches(o, m, keys)) + UacTail(o.statusFile, logFile, abortEvent)
  }

  function UacTail(statusFile: string, logFile: string, abortEvent: string): seq<string> {
    [Spelling(NoMenu), Spelling(Pause), KeySpelling(LogFile), logFile]
    + (if statusFile != "" then [KeySpelling(StatusFile), statusFile] else [])
    + [KeySpelling(AbortEvent), abortEvent]
  }

  /** What the scheduled worker is started with. */
  function WorkerArgs(o: Opts, m: Selection, keys: seq<string>, logFile: string): seq<string>
    requires forall k | k in keys :: k in m
  {
    Texts(EffectiveSwitches(o, m, keys)) + WorkerTail(logFile)
  }

  /** The options a process starts with. */
  function StartOptions(args: seq<string>): Opts {
    ParseFrom(args, if args == [] then BARE_LAUNCH else DEFAULTS)
  }

  lemma StepFlag(f: Flag, rest: seq<string>, o: Opts)
    ensures ParseFrom([Spelling(f)] + rest, o) == ParseFrom(rest, Apply(f, o))
  {
    StepSwitch(Plain(f), rest, o);
  }

  const BARE_SWITCHES: seq<string> := [
    "--menu", "--execute", "--kill-lockers", "--disable-services", "--delete-scheduled-tasks",
    "--schedule-reboot-delete"]

  /** A launch without arguments is one with these switches that asks for the window. */
  lemma BareLaunchIs()
    ensures StartOptions([]) == Set(StartOptions(BARE_SWITCHES), WizardDefaults, true)
  {
    hide Apply, ParseFrom, Set, Spelling;
    BareSpellings();
    BareSwitchesRead(BARE_FLAGS, BARE_SWITCHES, DEFAULTS);
    BareOptions();
    NothingToRead(BARE_LAUNCH);
  }

  const BARE_FLAGS: seq<Flag> := [Menu, Execute, KillLockers, DisableServices, DeleteTasks, ScheduleRebootDelete]

  lemma BareSpellings()
    ensures |BARE_FLAGS| == |BARE_SWITCHES|
    ensures forall i | 0 <= i < |BARE_FLAGS| :: Spelling(BARE_FLAGS[i]) == BARE_SWITCHES[i]
  {
  }

  function ApplyAll(flags: seq<Flag>, o: Opts): Opts {
    if flags == [] then o else ApplyAll(flags[1..], Apply(flags[0], o))
  }

  lemma {:induction false} BareSwitchesRead(flags: seq<Flag>, texts: seq<string>, o: Opts)
    requires |flags| == |texts| && forall i | 0 <= i < |flags| :: Spelling(flags[i]) == texts[i]
    ensures ParseFrom(texts, o) == ApplyAll(flags, o)
  {
    hide Apply, ParseFrom, Spelling;
    if flags == [] {
      NothingToRead(o);
    } else {
      StepFlag(flags[0], texts[1..], o);
      assert texts == [texts[0]] + texts[1..];
      BareSwitchesRead(flags[1..], texts[1..], Apply(flags[0], o));
    }
  }

  lemma NothingToRead(o: Opts)
    ensures ParseFrom([], o) == o
  {
  }

  const BARE_TOGGLES: seq<Toggle> := [
    ShowMenu, Executing, KillsLockers, DisablesServices, DeletesScheduledTasks, SchedulesLockedForReboot]

  lemma BareOptions()
    ensures Set(ApplyAll(BARE_FLAGS, DEFAULTS), WizardDefaults, true) == BARE_LAUNCH
  {
    assert ApplyAll(BARE_FLAGS, DEFAULTS) == DEFAULTS.(on := DEFAULTS.on + (set t | t in BARE_TOGGLES)) by {
      hide Apply, Set;
      forall i, o | 0 <= i < |BARE_FLAGS|
        ensures Apply(BARE_FLAGS[i], o) == Set(o, BARE_TOGGLES[i], true)
      {
        BareTurnsOn(i, o);
      }
      AllTurnOn(BARE_FLAGS, BARE_TOGGLES, DEFAULTS);
    }
  }

  lemma BareTurnsOn(i: nat, o: Opts)
    requires i < |BARE_FLAGS|
    ensures Apply(BARE_FLAGS[i], o) == Set(o, BARE_TOGGLES[i], true)
  {
    hide Set;
  }

  lemma {:induction false} AllTurnOn(flags: seq<Flag>, toggles: seq<Toggle>, o: Opts)
    requires |flags| == |toggles|
    requires forall i, x | 0 <= i < |flags| :: Apply(flags[i], x) == Set(x, toggles[i], true)
    ensures ApplyAll(flags, o) == o.(on := o.on + (set t | t in toggles))
  {
    hide Apply;
    if flags == [] {
      assert o.on + (set t | t in toggles) == o.on;
    } else {
      AllTurnOn(flags[1..], toggles[1..], Apply(flags[0], o));
      assert toggles == [toggles[0]] + toggles[1..];
      assert (o.on + {toggles[0]}) + (set t | t in toggles[1..]) == o.on + (set t | t in toggles);
    }
  }

  /** What the arguments of the tail make of `o`, one after the other. */
  function TailOptions(o: Opts, statusFile: string, logFile: string, abortEvent: string): Opts {
    var a := AssignNext(KeySpelling(LogFile), LogFile, logFile, Apply(Pause, Apply(NoMenu, o)));
    var b := if statusFile != "" then AssignNext(KeySpelling(StatusFile), StatusFile, statusFile, a) else a;
    AssignNext(KeySpelling(AbortEvent), AbortEvent, abortEvent, b)
  }

  lemma UacTailIsRead(statusFile: string, logFile: string, abortEvent: string, o: Opts)
    ensures ParseFrom(UacTail(statusFile, logFile, abortEvent), o)
      == TailOptions(o, statusFile, logFile, abortEvent)
  {
    var last := [KeySpelling(AbortEvent), abortEvent];
    var mid := if statusFile != "" then [KeySpelling(StatusFile), statusFile] else [];
    var tail2 := [KeySpelling(LogFile), logFile] + (mid + last);
    assert UacTail(statusFile, logFile, abortEvent) == [Spelling(NoMenu)] + ([Spelling(Pause)] + tail2);
    StepFlag(NoMenu, [Spelling(Pause)] + tail2, o);
    StepFlag(Pause, tail2, Apply(NoMenu, o));
    var p := Apply(Pause, Apply(NoMenu, o));
    StepValue(LogFile, logFile, mid + last, p);
    var a := AssignNext(KeySpelling(LogFile), LogFile, logFile, p);
    if statusFile != "" {
      StepValue(StatusFile, statusFile, last, a);
    } else {
      assert mid + last == last;
    }
    var b := if statusFile != "" then AssignNext(KeySpelling(StatusFile), StatusFile, statusFile, a) else a;
    assert last + [] == last;
    StepValue(AbortEvent, abortEvent, [], b);
  }

  lemma StartsWithSwitches(o: Opts, m: Selection, keys: seq<string>, rest: seq<string>)
    requires (forall k | k in keys :: k in m) && Readable(Wait(o.tiWaitSeconds))
    ensures StartOptions(Texts(EffectiveSwitches(o, m, keys)) + rest) == ParseFrom(rest, Forwarded(o))
  {
    ForwardedIsRead(o, m, keys, rest);
    assert |EffectiveSwitches(o, m, keys)| > 0;
  }

  /** The options after a UAC child's tail, from any options before it. */
  function AfterTail(x: Opts, statusFile: string, logFile: string, abortEvent: string): Opts {
    x.(on := (x.on - {ShowMenu}) + {PauseOnExit}, logFileOverride := logFile,
       statusFile := if statusFile != "" then statusFile else x.statusFile, abortEvent := abortEvent)
  }

  /** None of the values a window is given looks like a switch. */
  predicate Usable(statusFile: string, logFile: string, abortEvent: string) {
    !FlagLike(statusFile) && !FlagLike(logFile) && !FlagLike(abortEvent)
  }

  lemma TailEffect(x: Opts, statusFile: string, logFile: string, abortEvent: string)
    ensures var y := TailOptions(x, statusFile, logFile, abortEvent);
      && y.on == (x.on - {ShowMenu}) + {PauseOnExit} && y.tiWaitSeconds == x.tiWaitSeconds
      && (Usable(statusFile, logFile, abortEvent) ==> y == AfterTail(x, statusFile, logFile, abortEvent))
      && (!Usable(statusFile, logFile, abortEvent) ==> y.unknownArgs != [])
  {
  }

  lemma NoMenuForwarded(o: Opts)
    ensures ShowMenu !in Forwarded(o).on && IsTiChild !in Forwarded(o).on && WizardDefaults !in Forwarded(o).on
    ensures forall t :: ((Forwarded(o).on - {ShowMenu}) + {t}) == Forwarded(o).on + {t}
  {
  }

  /** The window's options: the forwarded ones whatever its values are, and those too
      when they are usable; it refuses to run exactly when one of them looks like a
      switch. */
  lemma UacChildOptions(o: Opts, m: Selection, keys: seq<string>, logFile: string, abortEvent: string)
    requires (forall k | k in keys :: k in m) && Readable(Wait(o.tiWaitSeconds))
    ensures var child := StartOptions(UacArgs(o, m, keys, logFile, abortEvent));
      var usable := Usable(o.statusFile, logFile, abortEvent);
      && child.on == Forwarded(o).on + {PauseOnExit} && child.tiWaitSeconds == Forwarded(o).tiWaitSeconds
      && (child.unknownArgs == [] <==> usable)
      && (usable ==> child == Forwarded(o).(on := Forwarded(o).on + {PauseOnExit}, logFileOverride := logFile,
                                            statusFile := o.statusFile, abortEvent := abortEvent))
  {
    StartsWithSwitches(o, m, keys, UacTail(o.statusFile, logFile, abortEvent));
    UacTailIsRead(o.statusFile, logFile, abortEvent, Forwarded(o));
    TailEffect(Forwarded(o), o.statusFile, logFile, abortEvent);
    NoMenuForwarded(o);
  }

  function WorkerTail(logFile: string): seq<string> {
    [Spelling(TiChild)] + ([Spelling(NoMenu)] + [KeySpelling(LogFile), logFile])
  }

  lemma WorkerTailIsRead(x: Opts, logFile: string)
    ensures ParseFrom(WorkerTail(logFile), x)
      == AssignNext(KeySpelling(LogFile), LogFile, logFile, Apply(NoMenu, Apply(TiChild, x)))
  {
    var last := [KeySpelling(LogFile), logFile];
    StepFlag(TiChild, [Spelling(NoMenu)] + last, x);
    StepFlag(NoMenu, last, Apply(TiChild, x));
    assert last + [] == last;
    StepValue(LogFile, logFile, [], Apply(NoMenu, Apply(TiChild, x)));
  }

  lemma WorkerTailEffect(x: Opts, logFile: string)
    requires ShowMenu !in x.on && x.unknownArgs == [] && x.logFileOverride == ""
    ensures var y := AssignNext(KeySpelling(LogFile), LogFile, logFile, Apply(NoMenu, Apply(TiChild, x)));
      && (y.unknownArgs == [] <==> !FlagLike(logFile))
      && y.(unknownArgs := []) == x.(
           on := x.on + {IsTiChild}, logFileOverride := if FlagLike(logFile) then "" else logFile)
  {
    assert (x.on + {IsTiChild}) - {ShowMenu} == x.on + {IsTiChild};
  }

  /** The worker's options are the forwarded ones, marked as worker, with the shared
      log; it refuses to run exactly when the log path looks like a switch, and then
      has no shared log. */
  lemma WorkerOptions(o: Opts, m: Selection, keys: seq<string>, logFile: string)
    requires (forall k | k in keys :: k in m) && Readable(Wait(o.tiWaitSeconds))
    ensures var child := StartOptions(WorkerArgs(o, m, keys, logFile));
      && (child.unknownArgs == [] <==> !FlagLike(logFile))
      && child.(unknownArgs := []) == Forwarded(o).(
           on := Forwarded(o).on + {IsTiChild}, logFileOverride := if FlagLike(logFile) then "" else logFile)
  {
    StartsWithSwitches(o, m, keys, WorkerTail(logFile));
    WorkerTailIsRead(Forwarded(o), logFile);
    NoMenuForwarded(o);
    WorkerTailEffect(Forwarded(o), logFile);
  }

  // ---- which log path a parent hands over ----

  /** PathBuf::join with a plain file name. */
  function InFolder(dir: string, name: string): string {
    if dir == "" || dir[|dir| - 1] in {'\\', '/', ':'} then dir + name else dir + "\\" + name
  }

  /** Where a run logs; `exeDir` is the folder of the program and `runId` names the
      run. */
  function LogPath(o: Opts, exeDir: string, runId: string): string {
    if o.logFileOverride != "" then o.logFileOverride
    else InFolder(if o.logDirOverride == "" then exeDir else o.logDirOverride, "debloat-" + runId + ".log")
  }

  lemma FolderStarts(dir: string, name: string)
    requires name != "" && name[0] != '-'
    ensures FlagLike(InFolder(dir, name)) <==> dir != "" && dir[0] == '-'
  {
  }

  /** A run that was given a log file or a log folder that looks like a switch starts
      a worker that refuses to run, and no other run does. */
  lemma WorkerRefuses(o: Opts, m: Selection, keys: seq<string>, exeDir: string, runId: string)
    requires (forall k | k in keys :: k in m) && Readable(Wait(o.tiWaitSeconds))
    ensures var given := if o.logFileOverride != "" then o.logFileOverride
                         else if o.logDirOverride != "" then o.logDirOverride else exeDir;
      StartOptions(WorkerArgs(o, m, keys, LogPath(o, exeDir, runId))).unknownArgs != []
      <==> given != "" && given[0] == '-' && (o.logFileOverride != "" ==> |given| > 1)
  {
    assert FlagLike(o.logFileOverride) <==> |o.logFileOverride| > 1 && o.logFileOverride[0] == '-';
    hide StartOptions, WorkerArgs, InFolder, Forwarded, FlagLike;
    WorkerOptions(o, m, keys, LogPath(o, exeDir, runId));
    if o.logFileOverride == "" {
      var name := "debloat-" + runId + ".log";
      assert name[0] == 'd';
      FolderStarts(if o.logDirOverride == "" then exeDir else o.logDirOverride, name);
    }
  }

  lemma KeyHasNoEquals(k: ValueKey)
    ensures '=' !in KeySpelling(k) && |KeySpelling(k)| > 8
  {
  }

  lemma AssignmentOf(k: ValueKey, v: string, o: Opts)
    requires k != TiWaitSeconds
    ensures ApplyAssignment(KeySpelling(k) + "=" + v, o) == Assign(k, v, o)
  {
    var key := KeySpelling(k);
    var a := key + "=" + v;
    KeyHasNoEquals(k);
    assert forall j | 0 <= j < |key| :: a[j] == key[j] && key[j] in key;
    FirstOf(a, '=', |key|);
    assert a[..|key|] == key && a[|key| + 1..] == v;
    KeyLower(k);
  }

  lemma AssignedStart(k: ValueKey, v: string)
    requires k != TiWaitSeconds
    ensures var low := Lower(KeySpelling(k) + "=" + v);
      ValueStart(low) && ValueKeyOf(low) == None && low[2] != 'p' && low[2] != 't'
  {
    hide ValueKeyOf, KeySpelling, Lower;
    var key := KeySpelling(k);
    var low := Lower(key + "=" + v);
    KeyLower(k);
    KeyStart(k);
    KeyHasNoEquals(k);
    assert forall j | 0 <= j < |key| :: low[j] == Lower(key)[j];
    assert low[|key|] == '=';
    EqualsIsNoKey(low);
  }

  lemma EqualsIsNoKey(low: string)
    requires '=' in low
    ensures ValueKeyOf(low) == None
  {
    hide KeySpelling;
    if ValueKeyOf(low).Some? {
      KeyHasNoEquals(ValueKeyOf(low).value);
      KeyOfSpelling(low);
    }
  }

  lemma KeyOfSpelling(low: string)
    requires ValueKeyOf(low).Some?
    ensures KeySpelling(ValueKeyOf(low).value) == low
  {
  }

  lemma AssignedValue(k: ValueKey, v: string, o: Opts)
    requires k != TiWaitSeconds
    ensures ParseFrom([KeySpelling(k) + "=" + v], o) == Assign(k, v, o)
  {
    hide Lower, FlagOf, ValueKeyOf, ApplyOther, ApplyAssignment, Assign, KeySpelling, ValueStart;
    var a := KeySpelling(k) + "=" + v;
    var args, low := [a], Lower(a);
    AssignedStart(k, v);
    NotAValueFlag(low);
    assert ApplyOther(a, o) == Assign(k, v, o) by {
      LongerThanThree(low);
      OtherIsAssignment(a, o);
      AssignmentOf(k, v, o);
    }
    assert args[1..] == [];
  }

  lemma LongerThanThree(low: string)
    requires ValueStart(low)
    ensures |low| > 3
  {
  }

  lemma GivenNext(k: ValueKey, v: string, o: Opts)
    requires k != TiWaitSeconds && !(|v| > 1 && v[0] == '-')
    ensures ParseFrom([KeySpelling(k), v], o) == Assign(k, v, o)
  {
    hide Assign, KeySpelling;
    StepValue(k, v, [], o);
    assert [KeySpelling(k), v] + [] == [KeySpelling(k), v];
  }

  /** Both forms of a switch with a value set the same field and nothing else; the form
      with an equals sign takes any value, the other none that looks like a switch. */
  lemma ValueForms(v: string, o: Opts)
    ensures ParseFrom(["--status-file=" + v], o) == o.(statusFile := v)
    ensures ParseFrom(["--log-dir=" + v], o) == o.(logDirOverride := v)
    ensures ParseFrom(["--log-file=" + v], o) == o.(logFileOverride := v)
    ensures ParseFrom(["--abort-event=" + v], o) == o.(abortEvent := v)
    ensures !(|v| > 1 && v[0] == '-') ==>
      && ParseFrom(["--status-file", v], o) == o.(statusFile := v)
      && ParseFrom(["--log-dir", v], o) == o.(logDirOverride := v)
      && ParseFrom(["--log-file", v], o) == o.(logFileOverride := v)
      && ParseFrom(["--abort-event", v], o) == o.(abortEvent := v)
  {
    hide ParseFrom;
    forall k: ValueKey | k != TiWaitSeconds
      ensures ParseFrom([KeySpelling(k) + "=" + v], o) == Assign(k, v, o)
      ensures !(|v| > 1 && v[0] == '-') ==> ParseFrom([KeySpelling(k), v], o) == Assign(k, v, o)
    {
      AssignedValue(k, v, o);
      if !(|v| > 1 && v[0] == '-') {
        GivenNext(k, v, o);
      }
    }
    assert "--status-file=" == KeySpelling(StatusFile) + "=" && "--log-dir=" == KeySpelling(LogDir) + "=";
    assert "--log-file=" == KeySpelling(LogFile) + "=" && "--abort-event=" == KeySpelling(AbortEvent) + "=";
  }

  lemma ExecuteWithLog(v: string)
    ensures StartOptions([Spelling(Execute), "--log-file=" + v]) == Apply(Execute, DEFAULTS).(logFileOverride := v)
  {
    hide ParseFrom, Apply, Lower;
    var rest := ["--log-file=" + v];
    assert [Spelling(Execute), "--log-file=" + v] == [Spelling(Execute)] + rest;
    StepFlag(Execute, rest, DEFAULTS);
    ValueForms(v, Apply(Execute, DEFAULTS));
  }

  /** Such a run can be started: the form with an equals sign takes any value, while
      the worker is given its log path as an argument of its own. */
  lemma DashedLogIsAcceptedOnce(v: string, m: Selection, keys: seq<string>, exeDir: string, runId: string)
    requires (forall k | k in keys :: k in m) && |v| > 1 && v[0] == '-'
    ensures var parent := StartOptions([Spelling(Execute), "--log-file=" + v]);
      && parent.unknownArgs == [] && Executing in parent.on && parent.logFileOverride == v
      && StartOptions(WorkerArgs(parent, m, keys, LogPath(parent, exeDir, runId))).unknownArgs != []
  {
    hide StartOptions, WorkerArgs, LogPath;
    var parent := StartOptions([Spelling(Execute), "--log-file=" + v]);
    assert parent == Apply(Execute, DEFAULTS).(logFileOverride := v) by {
      ExecuteWithLog(v);
    }
    assert StartOptions(WorkerArgs(parent, m, keys, LogPath(parent, exeDir, runId))).unknownArgs != [] by {
      WorkerRefuses(parent, m, keys, exeDir, runId);
    }
  }

  predicate WaitInRange(o: Opts) {
    TI_WAIT_MIN_SECS <= o.tiWaitSeconds <= TI_WAIT_MAX_SECS
  }

  /** One argument, with its value or without, neither brings the bare-launch defaults
      nor takes the wait out of its bounds. */
  ghost predicate Keeps(o: Opts, after: Opts) {
    (WizardDefaults in after.on ==> WizardDefaults in o.on) && (WaitInRange(o) ==> WaitInRange(after))
  }

  lemma FlagKeeps(f: Flag, o: Opts)
    ensures Keeps(o, Apply(f, o))
  {
  }

  lemma ValueKeeps(a: string, k: ValueKey, v: string, o: Opts)
    ensures Keeps(o, AssignNext(a, k, v, o))
  {
  }

  lemma OtherKeeps(a: string, o: Opts)
    ensures Keeps(o, ApplyOther(a, o))
  {
  }

  lemma {:induction false} ParsingKeeps(args: seq<string>, o: Opts)
    ensures Keeps(o, ParseFrom(args, o))
    decreases |args|
  {
    if args == [] {
    } else {
      var a, low := args[0], Lower(args[0]);
      var flag, key := FlagOf(low), ValueKeyOf(low);
      if flag.Some? {
        FlagKeeps(flag.value, o);
        ParsingKeeps(args[1..], Apply(flag.value, o));
      } else if key.Some? {
        if |args| > 1 {
          ValueKeeps(a, key.value, args[1], o);
          ParsingKeeps(args[2..], AssignNext(a, key.value, args[1], o));
        }
      } else {
        OtherKeeps(a, o);
        ParsingKeeps(args[1..], ApplyOther(a, o));
      }
    }
  }

  /** Only a bare launch asks for the elevated window. It was given no paths, so the
      window gets no status file, and a log path in the program's own folder. */
  lemma WindowIsForBareLaunches(args: seq<string>, exeDir: string, runId: string)
    ensures WaitInRange(StartOptions(args)) && (WizardDefaults in StartOptions(args).on <==> args == [])
    ensures args == [] ==> StartOptions(args).statusFile == "" && StartOptions(args).unknownArgs == []
    ensures args == [] ==>
      (FlagLike(LogPath(StartOptions(args), exeDir, runId)) <==> exeDir != "" && exeDir[0] == '-')
  {
    ParsingKeeps(args, if args == [] then BARE_LAUNCH else DEFAULTS);
  }

  // ---- component choices ----

  /** Catalog keys: told apart case-insensitively, without the separators. */
  ghost predicate GoodKeys(keys: seq<string>) {
    && (forall i, j | 0 <= i < j < |keys| :: Lower(keys[i]) != Lower(keys[j]))
    && forall k | k in keys :: ':' !in k && '=' !in k
  }

  lemma {:induction false} SeparatorAt(s: string, i: nat)
    requires i < |s| && s[i] == ':' && forall j | 0 <= j < i :: s[j] != ':' && s[j] != '='
    ensures Separator(s) == i
    decreases i
  {
    if i == 0 {
    } else {
      SeparatorAt(s[1..], i - 1);
    }
  }

  lemma ChoiceOfSpec(spec: string, key: string, word: string, on: bool)
    requires spec == key + ":" + word && ':' !in key && '=' !in key
    requires ParseBoolWord(Lower(word)) == Some(on)
    ensures var sep := Separator(spec);
      sep < |spec| && spec[..sep] == key && ParseBoolWord(Lower(spec[sep + 1..])) == Some(on)
  {
    hide ParseBoolWord, Lower;
    forall j | 0 <= j < |key|
      ensures spec[j] != ':' && spec[j] != '='
    {
      assert spec[j] == key[j];
    }
    SeparatorAt(spec, |key|);
    assert spec[..|key|] == key && spec[|key| + 1..] == word;
  }

  lemma OnOffWords(on: bool)
    ensures ParseBoolWord(Lower(if on then "on" else "off")) == Some(on)
  {
    assert Lower("on") == "on" && Lower("off") == "off";
  }

  lemma ChoiceOfText(a: string, key: string, word: string, on: bool)
    requires COMPONENT_PREFIX <= Lower(a) && a[|COMPONENT_PREFIX|..] == key + ":" + word
    requires ':' !in key && '=' !in key && ParseBoolWord(Lower(word)) == Some(on)
    ensures ChoiceOf(a) == Choose(Lower(key), on)
  {
    ChoiceOfSpec(a[|COMPONENT_PREFIX|..], key, word, on);
  }

  lemma ChoiceOfComponent(key: string, on: bool)
    requires ':' !in key && '=' !in key
    ensures ChoiceOf(SwitchText(Component(key, on))) == Choose(Lower(key), on)
  {
    hide ChoiceOf, FlagOf, ValueKeyOf, ParseBoolWord;
    var word := if on then "on" else "off";
    var a := SwitchText(Component(key, on));
    assert COMPONENT_PREFIX <= Lower(a) && a[|COMPONENT_PREFIX|..] == key + ":" + word by {
      ComponentText(key, on);
      assert a == COMPONENT_PREFIX + (key + ":" + word);
    }
    assert ParseBoolWord(Lower(word)) == Some(on) by {
      OnOffWords(on);
    }
    assert ChoiceOf(a) == Choose(Lower(key), on) by {
      ChoiceOfText(a, key, word, on);
    }
  }

  lemma NotAChoice(a: string)
    requires |a| <= 2 || LowerChar(a[2]) != 'c'
    ensures ChoiceOf(a) == NoChoice
  {
    assert COMPONENT_PREFIX[2] == 'c';
  }

  predicate ThirdNotC(text: string) {
    |text| > 2 && text[2] != 'c' && text[2] != 'C'
  }

  lemma ModeIsNoChoice(f: Flag)
    requires IsMode(f)
    ensures ThirdNotC(Spelling(f))
  {
  }

  lemma ActionIsNoChoice(f: Flag)
    requires IsAction(f)
    ensures ThirdNotC(Spelling(f))
  {
  }

  lemma FlagIsNoChoice(f: Flag)
    ensures ThirdNotC(Spelling(f))
  {
    hide Spelling, IncludeFlag;
    if IsMode(f) {
      ModeIsNoChoice(f);
    } else if IsAction(f) {
      ActionIsNoChoice(f);
    } else if IsInclude(f) {
      IncludeSpelled(f);
    } else {
      ConsoleShape(f);
    }
  }

  lemma ForwardIsNoChoice(s: Switch)
    requires !s.Component?
    ensures ChoiceOf(SwitchText(s)) == NoChoice
  {
    match s
    case Plain(f) => FlagIsNoChoice(f); NotAChoice(SwitchText(s));
    case PreserveOff => assert PRESERVE[2] == 'p'; NotAChoice(SwitchText(s));
    case Wait(n) => assert SwitchText(s)[2] == 't'; NotAChoice(SwitchText(s));
  }

  lemma {:induction false} NoChoicesIgnored(m: Selection, a: seq<string>, b: seq<string>)
    requires forall i | 0 <= i < |b| :: ChoiceOf(b[i]) == NoChoice
    ensures ChosenAll(m, a + b) == ChosenAll(m, a)
    decreases |b|
  {
    if b == [] {
      assert a + b == a;
    } else {
      NoChoicesIgnored(m, a, b[..|b| - 1]);
      assert (a + b)[..|a + b| - 1] == a + b[..|b| - 1];
    }
  }

  function Overlaid(m0: Selection, m: Selection, keys: seq<string>): Selection
    requires forall k | k in keys :: k in m
  {
    map k | k in m0 :: if k in keys then m[k] else m0[k]
  }

  /** The forwarded choices, read one after the other, set each component. */
  lemma {:induction false} ChoicesAreRead(m: Selection, m0: Selection, keys: seq<string>, a: seq<string>)
    requires GoodKeys(keys) && forall k | k in keys :: k in m && k in m0
    requires ChosenAll(m0, a) == m0
    requires forall k, l | k in m0 && l in m0 && Lower(k) == Lower(l) :: k == l
    ensures ChosenAll(m0, a + Texts(Choices(m, keys))) == Overlaid(m0, m, keys)
    decreases |keys|
  {
    if keys == [] {
      assert a + Texts(Choices(m, keys)) == a;
      assert Overlaid(m0, m, keys) == m0;
    } else {
      var front, key := keys[..|keys| - 1], keys[|keys| - 1];
      assert keys == front + [key];
      ChoicesAreRead(m, m0, front, a);
      ChoiceOfComponent(key, m[key]);
      OneMoreChoice(m, m0, front, key);
      LastChosen(m0, a, m, front, key);
    }
  }

  lemma ChosenAppend(m0: Selection, s: seq<string>, a: string)
    ensures ChosenAll(m0, s + [a]) == Chosen(ChosenAll(m0, s), a)
  {
    assert (s + [a])[..|s|] == s;
  }

  lemma TextsAppend(s: seq<Switch>, x: Switch)
    ensures Texts(s + [x]) == Texts(s) + [SwitchText(x)]
  {
    TextsConcat(s, [x]);
  }

  lemma ChoicesAppend(m: Selection, front: seq<string>, key: string)
    requires key in m && forall k | k in front :: k in m
    ensures Choices(m, front + [key]) == Choices(m, front) + [Component(key, m[key])]
  {
  }

  lemma LastChosen(m0: Selection, a: seq<string>, m: Selection, front: seq<string>, key: string)
    requires key in m && forall k | k in front :: k in m
    ensures ChosenAll(m0, a + Texts(Choices(m, front + [key])))
         == Chosen(ChosenAll(m0, a + Texts(Choices(m, front))), SwitchText(Component(key, m[key])))
  {
    var x := Component(key, m[key]);
    ChoicesAppend(m, front, key);
    assert a + Texts(Choices(m, front + [key])) == (a + Texts(Choices(m, front))) + [SwitchText(x)] by {
      TextsAppend(Choices(m, front), x);
    }
    ChosenAppend(m0, a + Texts(Choices(m, front)), SwitchText(x));
  }

  lemma OneMoreChoice(m: Selection, m0: Selection, front: seq<string>, key: string)
    requires key in m && key in m0 && forall k | k in front :: k in m
    requires forall k, l | k in m0 && l in m0 && Lower(k) == Lower(l) :: k == l
    requires ChoiceOf(SwitchText(Component(key, m[key]))) == Choose(Lower(key), m[key])
    ensures Chosen(Overlaid(m0, m, front), SwitchText(Component(key, m[key]))) == Overlaid(m0, m, front + [key])
  {
  }

  /** `keys` iterates the selection `m`, whose keys a catalog can have, and the
      child starts from a selection over the same keys. */
  ghost predicate SameCatalog(m: Selection, m0: Selection, keys: seq<string>) {
    GoodKeys(keys) && m0.Keys == m.Keys && forall k :: k in keys <==> k in m
  }

  lemma DistinctKeys(m: Selection, m0: Selection, keys: seq<string>)
    requires SameCatalog(m, m0, keys)
    ensures forall k, l | k in m0 && l in m0 && Lower(k) == Lower(l) :: k == l
  {
    forall k, l | k in m0 && l in m0 && Lower(k) == Lower(l)
      ensures k == l
    {
      assert k in keys && l in keys;
      var i :| 0 <= i < |keys| && keys[i] == k;
      var j :| 0 <= j < |keys| && keys[j] == l;
      assert i == j;
    }
  }

  lemma {:induction false} NoChoiceAtAll(m0: Selection, s: seq<string>)
    requires forall i | 0 <= i < |s| :: ChoiceOf(s[i]) == NoChoice
    ensures ChosenAll(m0, s) == m0
  {
    NoChoicesIgnored(m0, [], s);
    assert [] + s == s;
  }

  /** Reading the forwarded component choices gives back the parent's selection,
      whatever arguments without a choice follow. */
  lemma SelectionRestored(o: Opts, m: Selection, m0: Selection, keys: seq<string>, tail: seq<string>)
    requires SameCatalog(m, m0, keys)
    requires forall i | 0 <= i < |tail| :: ChoiceOf(tail[i]) == NoChoice
    ensures ChosenAll(m0, Texts(EffectiveSwitches(o, m, keys)) + tail) == m
    ensures forall a | a in Texts(EffectiveSwitches(o, m, keys)) + tail :: !BadChoice(m0, a)
  {
    var front := Front(o);
    TextsConcat(front, Choices(m, keys));
    assert ChosenAll(m0, Texts(front) + Texts(Choices(m, keys))) == m by {
      ChoicesRestore(o, m, m0, keys);
    }
    assert ChosenAll(m0, Texts(front) + Texts(Choices(m, keys)) + tail) == m by {
      NoChoicesIgnored(m0, Texts(front) + Texts(Choices(m, keys)), tail);
    }
    FrontHasNoChoice(o);
    GoodChoices(m, m0, keys, Texts(front), tail);
  }

  lemma RestoredAfter(m: Selection, m0: Selection, keys: seq<string>, a: seq<string>)
    requires SameCatalog(m, m0, keys) && ChosenAll(m0, a) == m0
    ensures ChosenAll(m0, a + Texts(Choices(m, keys))) == m
  {
    hide ChosenAll, Texts, Choices;
    DistinctKeys(m, m0, keys);
    ChoicesAreRead(m, m0, keys, a);
    assert Overlaid(m0, m, keys) == m;
  }

  lemma ChoicesRestore(o: Opts, m: Selection, m0: Selection, keys: seq<string>)
    requires SameCatalog(m, m0, keys)
    ensures ChosenAll(m0, Texts(Front(o)) + Texts(Choices(m, keys))) == m
  {
    assert ChosenAll(m0, Texts(Front(o))) == m0 by {
      FrontHasNoChoice(o);
      NoChoiceAtAll(m0, Texts(Front(o)));
    }
    assert ChosenAll(m0, Texts(Front(o)) + Texts(Choices(m, keys))) == m by {
      RestoredAfter(m, m0, keys, Texts(Front(o)));
    }
  }

  /** The forwarded switches before the component choices. */
  function Front(o: Opts): seq<Switch> {
    ForwardAll(FORWARDED, o) + [Wait(o.tiWaitSeconds)]
  }

  lemma FrontHasNoChoice(o: Opts)
    ensures forall i | 0 <= i < |Texts(Front(o))| :: ChoiceOf(Texts(Front(o))[i]) == NoChoice
  {
    ForwardReadable(FORWARDED, o);
    var front := Front(o);
    forall i | 0 <= i < |front|
      ensures ChoiceOf(Texts(front)[i]) == NoChoice
    {
      if i < |ForwardAll(FORWARDED, o)| {
        assert front[i] in ForwardAll(FORWARDED, o);
      }
      ForwardIsNoChoice(front[i]);
    }
  }

  lemma TextsConcat(a: seq<Switch>, b: seq<Switch>)
    ensures Texts(a + b) == Texts(a) + Texts(b)
  {
  }

  lemma GoodChoices(m: Selection, m0: Selection, keys: seq<string>, front: seq<string>, tail: seq<string>)
    requires SameCatalog(m, m0, keys)
    requires forall i | 0 <= i < |front| :: ChoiceOf(front[i]) == NoChoice
    requires forall i | 0 <= i < |tail| :: ChoiceOf(tail[i]) == NoChoice
    ensures forall a | a in front + Texts(Choices(m, keys)) + tail :: !BadChoice(m0, a)
  {
    forall a | a in Texts(Choices(m, keys))
      ensures !BadChoice(m0, a)
    {
      var i :| 0 <= i < |keys| && Texts(Choices(m, keys))[i] == a;
      ChoiceOfComponent(keys[i], m[keys[i]]);
      assert keys[i] in keys;
    }
  }

  lemma TailHasNoChoice(statusFile: string, logFile: string, abortEvent: string)
    requires ChoiceOf(logFile) == NoChoice && ChoiceOf(statusFile) == NoChoice && ChoiceOf(abortEvent) == NoChoice
    ensures var tail := UacTail(statusFile, logFile, abortEvent);
      forall i | 0 <= i < |tail| :: ChoiceOf(tail[i]) == NoChoice
  {
    hide ChoiceOf, Spelling;
    FlagIsNoChoice(NoMenu);
    FlagIsNoChoice(Pause);
    NotAChoice(Spelling(NoMenu));
    NotAChoice(Spelling(Pause));
    NotAChoice(KeySpelling(LogFile));
    NotAChoice(KeySpelling(StatusFile));
    NotAChoice(KeySpelling(AbortEvent));
  }

  lemma NotFlagLikeNoChoice(v: string)
    requires !FlagLike(v)
    ensures ChoiceOf(v) == NoChoice
  {
    assert COMPONENT_PREFIX[0] == '-' && |COMPONENT_PREFIX| == 12;
  }

  /** The selection a process ends up with. */
  function SelectionFrom(args: seq<string>, catalog: seq<CatalogEntry>): Selection {
    var chosen := ChosenAll(Initial(catalog, StartOptions(args)), args);
    if WizardDefaults in StartOptions(args).on then WithoutUpdater(chosen) else chosen
  }

  lemma NoChoices(m: Selection)
    ensures ChosenAll(m, []) == m
  {
  }

  /** A bare launch selects what the catalog selects by default, but nothing optional and
      not the updater; with arguments, the choices decide. */
  lemma SelectedAtStart(args: seq<string>, catalog: seq<CatalogEntry>, i: nat)
    requires i < |catalog| && forall j | i < j < |catalog| :: catalog[j].key != catalog[i].key
    ensures var c, m := catalog[i], SelectionFrom(args, catalog);
      && c.key in m
      && (args == [] ==>
            (m[c.key] <==> Reading.SwitchFor(c.key) == None && c.defaultEnabled && c.key != UPDATER))
      && (args != [] ==> m == ChosenAll(Initial(catalog, StartOptions(args)), args))
  {
    hide Reading.SwitchFor, InitialState, Initial, ChosenAll;
    ParsingKeeps(args, if args == [] then BARE_LAUNCH else DEFAULTS);
    LastEntryCounts(catalog, StartOptions(args), i);
    Reading.ChoicesKeepKeys(Initial(catalog, StartOptions(args)), args);
    if args == [] {
      NoChoices(Initial(catalog, BARE_LAUNCH));
      Reading.SelectedBySwitch([], BARE_LAUNCH, catalog[i]);
    }
  }

  /** No argument is a component choice that cannot be applied. */
  predicate ChoicesAccepted(args: seq<string>, catalog: seq<CatalogEntry>) {
    forall a | a in args :: !BadChoice(Initial(catalog, StartOptions(args)), a)
  }

  /** `keys` iterates the selection `m` over a catalog the child has, too. */
  ghost predicate Iterates(keys: seq<string>, m: Selection, catalog: seq<CatalogEntry>) {
    GoodKeys(keys) && m.Keys == CatalogKeys(catalog) && forall k :: k in keys <==> k in m
  }

  /** What any child makes of the choices it was handed, whatever usable values
      follow them. */
  lemma ChildSelection(o: Opts, m: Selection, keys: seq<string>, catalog: seq<CatalogEntry>, tail: seq<string>)
    requires Iterates(keys, m, catalog) && forall i | 0 <= i < |tail| :: ChoiceOf(tail[i]) == NoChoice
    ensures var args := Texts(EffectiveSwitches(o, m, keys)) + tail;
      WizardDefaults !in StartOptions(args).on ==> SelectionFrom(args, catalog) == m && ChoicesAccepted(args, catalog)
  {
    var args := Texts(EffectiveSwitches(o, m, keys)) + tail;
    SelectionRestored(o, m, Initial(catalog, StartOptions(args)), keys, tail);
  }

  /** What belongs to one process alone: its role, its console, its dialogs. */
  const NOT_FORWARDED: set<Toggle> := {
    ShowMenu, WizardDefaults, PauseOnExit, IsTiChild, TiRelaunchAttempted, NeverPause, Monochrome, ShowHelp,
    ShowVersion, ShowComponents}

  /** `child` has every forwarded option of `o`, and no bare-launch defaults. */
  ghost predicate Restored(o: Opts, child: Opts) {
    && (forall t | t !in NOT_FORWARDED :: t in child.on <==> t in o.on)
    && child.tiWaitSeconds == o.tiWaitSeconds && ShowMenu !in child.on && WizardDefaults !in child.on
  }

  lemma ForwardedIsRestored(o: Opts, child: Opts, own: Toggle)
    requires WaitInRange(o) && own in {PauseOnExit, IsTiChild}
    requires child.on == Forwarded(o).on + {own} && child.tiWaitSeconds == Forwarded(o).tiWaitSeconds
    ensures Restored(o, child) && own in child.on
  {
  }

  lemma WindowIsRestored(o: Opts, m: Selection, keys: seq<string>, logFile: string, abortEvent: string, child: Opts)
    requires (forall k | k in keys :: k in m) && WaitInRange(o)
    requires child == StartOptions(UacArgs(o, m, keys, logFile, abortEvent))
    ensures Restored(o, child) && (child.unknownArgs == [] <==> Usable(o.statusFile, logFile, abortEvent))
    ensures Usable(o.statusFile, logFile, abortEvent) ==>
      child.logFileOverride == logFile && child.statusFile == o.statusFile && child.abortEvent == abortEvent
  {
    hide StartOptions, UacArgs, Restored, Forwarded;
    UacChildOptions(o, m, keys, logFile, abortEvent);
    ForwardedIsRestored(o, child, PauseOnExit);
  }

  lemma UacTailHasNoChoice(statusFile: string, logFile: string, abortEvent: string)
    requires Usable(statusFile, logFile, abortEvent)
    ensures var tail := UacTail(statusFile, logFile, abortEvent);
      forall i | 0 <= i < |tail| :: ChoiceOf(tail[i]) == NoChoice
  {
    NotFlagLikeNoChoice(logFile);
    NotFlagLikeNoChoice(statusFile);
    NotFlagLikeNoChoice(abortEvent);
    TailHasNoChoice(statusFile, logFile, abortEvent);
  }

  /** The whole hand-off to the elevated window: the command line the parent builds is
      split back into the same arguments, the child's options are the forwarded ones,
      and nothing is refused exactly when the values behind them are usable; then it
      has these, too, and the parent's component selection. */
  lemma HandOffRestores(o: Opts, m: Selection, keys: seq<string>, catalog: seq<CatalogEntry>, logFile: string,
                        abortEvent: string)
    requires Iterates(keys, m, catalog) && WaitInRange(o)
    ensures var args := SplitCommand(Joined(UacArgs(o, m, keys, logFile, abortEvent)));
      var child, usable := StartOptions(args), Usable(o.statusFile, logFile, abortEvent);
      && Restored(o, child) && (child.unknownArgs == [] <==> usable)
      && (usable ==> child.logFileOverride == logFile && child.statusFile == o.statusFile)
      && (usable ==> child.abortEvent == abortEvent)
      && (usable ==> SelectionFrom(args, catalog) == m && ChoicesAccepted(args, catalog))
  {
    var args := UacArgs(o, m, keys, logFile, abortEvent);
    SplitUndoesJoin(args);
    WindowIsRestored(o, m, keys, logFile, abortEvent, StartOptions(args));
    if Usable(o.statusFile, logFile, abortEvent) {
      assert SelectionFrom(args, catalog) == m && ChoicesAccepted(args, catalog) by {
        UacTailHasNoChoice(o.statusFile, logFile, abortEvent);
        ChildSelection(o, m, keys, catalog, UacTail(o.statusFile, logFile, abortEvent));
      }
    }
  }

  lemma WorkerTailHasNoChoice(logFile: string)
    requires !FlagLike(logFile)
    ensures forall i | 0 <= i < |WorkerTail(logFile)| :: ChoiceOf(WorkerTail(logFile)[i]) == NoChoice
  {
    FlagIsNoChoice(TiChild);
    FlagIsNoChoice(NoMenu);
    NotAChoice(Spelling(TiChild));
    NotAChoice(Spelling(NoMenu));
    NotAChoice(KeySpelling(LogFile));
    NotFlagLikeNoChoice(logFile);
  }

  lemma WorkerIsRestored(o: Opts, m: Selection, keys: seq<string>, logFile: string, child: Opts)
    requires (forall k | k in keys :: k in m) && WaitInRange(o)
    requires child == StartOptions(WorkerArgs(o, m, keys, logFile))
    ensures Restored(o, child) && IsTiChild in child.on && (child.unknownArgs == [] <==> !FlagLike(logFile))
    ensures !FlagLike(logFile) ==> child.logFileOverride == logFile
  {
    hide StartOptions, WorkerArgs, Restored, Forwarded;
    WorkerOptions(o, m, keys, logFile);
    var plain := child.(unknownArgs := []);
    assert plain.on == child.on && plain.logFileOverride == child.logFileOverride;
    assert plain.tiWaitSeconds == child.tiWaitSeconds;
    ForwardedIsRestored(o, child, IsTiChild);
  }

  /** The whole hand-off to the scheduled worker: with every log path it reads back
      the forwarded options; it refuses nothing exactly when that path does not look
      like a switch, and then shares the log and has the parent's selection. */
  lemma WorkerRestores(o: Opts, m: Selection, keys: seq<string>, catalog: seq<CatalogEntry>, logFile: string)
    requires Iterates(keys, m, catalog) && WaitInRange(o)
    ensures var args := SplitCommand(Joined(WorkerArgs(o, m, keys, logFile)));
      var child := StartOptions(args);
      && Restored(o, child) && IsTiChild in child.on && (child.unknownArgs == [] <==> !FlagLike(logFile))
      && (!FlagLike(logFile) ==>
            child.logFileOverride == logFile && SelectionFrom(args, catalog) == m && ChoicesAccepted(args, catalog))
  {
    var args := WorkerArgs(o, m, keys, logFile);
    SplitUndoesJoin(args);
    WorkerIsRestored(o, m, keys, logFile, StartOptions(args));
    if !FlagLike(logFile) {
      assert SelectionFrom(args, catalog) == m && ChoicesAccepted(args, catalog) by {
        WorkerTailHasNoChoice(logFile);
        ChildSelection(o, m, keys, catalog, WorkerTail(logFile));
      }
    }
  }

  // ---- the code that builds and reads the command line ----

  /** effective_child_switches; `keys` is the order in which the map iterates. */
  method EffectiveChildSwitches(o: Opts, m: Selection, keys: seq<string>) returns (out: seq<string>)
    requires forall k | k in keys :: k in m
    ensures out == Texts(EffectiveSwitches(o, m, keys))
  {
    hide Forward, SwitchText;
    ghost var sent: seq<Switch> := [];
    out := [];
    for i := 0 to |FORWARDED|
      invariant sent == ForwardAll(FORWARDED[..i], o) && out == Texts(sent)
    {
      var switch := Forward(FORWARDED[i], o);
      assert FORWARDED[..i + 1][..i] == FORWARDED[..i];
      TextsConcat(sent, switch);
      out := out + Texts(switch);
      sent := sent + switch;
    }
    assert FORWARDED[..|FORWARDED|] == FORWARDED;
    TextsConcat(sent, [Wait(o.tiWaitSeconds)]);
    out := out + [SwitchText(Wait(o.tiWaitSeconds))];
    assert Texts([Wait(o.tiWaitSeconds)]) == [SwitchText(Wait(o.tiWaitSeconds))];
    for i := 0 to |keys|
      invariant out == Texts(Front(o)) + Texts(Choices(m, keys[..i]))
    {
      assert Choices(m, keys[..i + 1]) == Choices(m, keys[..i]) + [Component(keys[i], m[keys[i]])];
      TextsConcat(Choices(m, keys[..i]), [Component(keys[i], m[keys[i]])]);
      out := out + [SwitchText(Component(keys[i], m[keys[i]]))];
    }
    assert keys[..|keys|] == keys;
    TextsConcat(Front(o), Choices(m, keys));
  }

  /** The command line of relaunch_elevated_for_wizard. */
  method UacCommandLine(o: Opts, m: Selection, keys: seq<string>, logFile: string, abortEvent: string)
    returns (joined: string)
    requires forall k | k in keys :: k in m
    ensures joined == Joined(UacArgs(o, m, keys, logFile, abortEvent))
  {
    hide Texts, Spelling, KeySpelling, Joined;
    var params := EffectiveChildSwitches(o, m, keys);
    params := params + [Spelling(NoMenu)];
    params := params + [Spelling(Pause)];
    params := params + [KeySpelling(LogFile), logFile];
    if o.statusFile != "" {
      params := params + [KeySpelling(StatusFile), o.statusFile];
    }
    params := params + [KeySpelling(AbortEvent), abortEvent];
    assert params == UacArgs(o, m, keys, logFile, abortEvent);
    joined := JoinCommand(params);
  }

  /** The command line of the scheduled worker, as
      attempt_trusted_installer_relaunch builds it. */
  method WorkerCommandLine(o: Opts, m: Selection, keys: seq<string>, logFile: string) returns (joined: string)
    requires forall k | k in keys :: k in m
    ensures joined == Joined(WorkerArgs(o, m, keys, logFile))
  {
    hide Texts, Spelling, KeySpelling, Joined;
    var childArgs := EffectiveChildSwitches(o, m, keys);
    childArgs := childArgs + [Spelling(TiChild)];
    childArgs := childArgs + [Spelling(NoMenu)];
    childArgs := childArgs + [KeySpelling(LogFile)];
    childArgs := childArgs + [logFile];
    assert childArgs == WorkerArgs(o, m, keys, logFile);
    joined := JoinCommand(childArgs);
  }

  /** What a process makes of its command line before it does anything. */
  method ReadCommandLine(line: string, catalog: seq<CatalogEntry>) returns (o: Opts, m: Selection)
    ensures var args := SplitCommand(line);
      && o == StartOptions(args).(unknownArgs := o.unknownArgs)
      && StartOptions(args).unknownArgs <= o.unknownArgs
      && (forall p :: p in o.unknownArgs[|StartOptions(args).unknownArgs|..] <==>
            p in args && BadChoice(Initial(catalog, StartOptions(args)), p))
      && m == SelectionFrom(args, catalog)
  {
    var args := SplitCommand(line);
    o := ParseArgs(args);
    m := InitializeSelection(catalog, o);
    var problems;
    m, problems := ApplyComponentArgs(m, args);
    assert (o.unknownArgs + problems)[|o.unknownArgs|..] == problems;
    o := o.(unknownArgs := o.unknownArgs + problems);
    if WizardDefaults in o.on {
      if UPDATER in m {
        m := m[UPDATER := false];
      }
    }
  }
}
