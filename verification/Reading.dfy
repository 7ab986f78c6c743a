/** What a command line says, by its text: what each switch means, which arguments are
    understood at all, and which optional components are selected. */
module Reading {
  import opened Basics
  import opened Text
  import opened Options
  import opened Components
  import opened Switches

  /** A switch turns one option on or off. */
  datatype Meaning = Meaning(toggle: Toggle, on: bool)

  function ModeMeaning(low: string): Option<Meaning> {
    if low in ["--help", "-h", "/?"] then Some(Meaning(ShowHelp, true))
    else if low == "--version" then Some(Meaning(ShowVersion, true))
    else if low == "--list-components" then Some(Meaning(ShowComponents, true))
    else if low == "--menu" then Some(Meaning(ShowMenu, true))
    else if low == "--no-menu" then Some(Meaning(ShowMenu, false))
    else if low in ["--execute", "-execute"] then Some(Meaning(Executing, true))
    else if low in ["--dry-run", "-dryrun"] then Some(Meaning(Executing, false))
    else if low == "--allow-admin-fallback" then Some(Meaning(AdminFallbackAllowed, true))
    else if low == "--no-ti-relaunch" then Some(Meaning(TiRelaunchAttempted, false))
    else if low == "--ti-child" then Some(Meaning(IsTiChild, true))
    else None
  }

  function ActionMeaning(low: string): Option<Meaning> {
    if low == "--kill-lockers" then Some(Meaning(KillsLockers, true))
    else if low == "--disable-services" then Some(Meaning(DisablesServices, true))
    else if low == "--delete-services" then Some(Meaning(DeletesServices, true))
    else if low == "--disable-scheduled-tasks" then Some(Meaning(DisablesScheduledTasks, true))
    else if low == "--no-disable-scheduled-tasks" then Some(Meaning(DisablesScheduledTasks, false))
    else if low == "--delete-scheduled-tasks" then Some(Meaning(DeletesScheduledTasks, true))
    else if low == "--schedule-reboot-delete" then Some(Meaning(SchedulesLockedForReboot, true))
    else if low == "--take-ownership" then Some(Meaning(TakesOwnership, true))
    else None
  }

  function IncludeMeaning(low: string): Option<Meaning> {
    if low == "--include-ngx" then Some(Meaning(WithNgx, true))
    else if low == "--include-hdaudio" then Some(Meaning(WithHdAudio, true))
    else if low == "--include-physx" then Some(Meaning(WithPhysx, true))
    else if low == "--include-notebook-optimus" then Some(Meaning(WithNotebookOptimus, true))
    else if low == "--include-virtual-audio" then Some(Meaning(WithVirtualAudio, true))
    else if low == "--include-nvwmi" then Some(Meaning(WithNvwmi, true))
    else if low == "--include-capture-sdk" then Some(Meaning(WithCaptureSdk, true))
    else if low == "--include-ansel" then Some(Meaning(WithAnsel, true))
    else None
  }

  function ConsoleMeaning(low: string): Option<Meaning> {
    if low == "--no-pause" then Some(Meaning(NeverPause, true))
    else if low == "--pause" then Some(Meaning(PauseOnExit, true))
    else if low == "--no-color" then Some(Meaning(Monochrome, true))
    else None
  }

  function MeaningOf(low: string): Option<Meaning> {
    if ModeMeaning(low).Some? then ModeMeaning(low)
    else if ActionMeaning(low).Some? then ActionMeaning(low)
    else if IncludeMeaning(low).Some? then IncludeMeaning(low)
    else ConsoleMeaning(low)
  }

  predicate Means(flag: Option<Flag>, meaning: Option<Meaning>, o: Opts) {
    && flag.Some? == meaning.Some?
    && (flag.Some? ==> Apply(flag.value, o) == Set(o, meaning.value.toggle, meaning.value.on))
  }

  lemma ModeMeans(low: string, o: Opts)
    ensures Means(ModeFlag(low), ModeMeaning(low), o)
  {
    hide Set;
  }

  function ActedBy(f: Flag): Meaning
    requires IsAction(f)
  {
    match f
    case KillLockers => Meaning(KillsLockers, true)
    case DisableServices => Meaning(DisablesServices, true)
    case DeleteServices => Meaning(DeletesServices, true)
    case DisableTasks => Meaning(DisablesScheduledTasks, true)
    case NoDisableTasks => Meaning(DisablesScheduledTasks, false)
    case DeleteTasks => Meaning(DeletesScheduledTasks, true)
    case ScheduleRebootDelete => Meaning(SchedulesLockedForReboot, true)
    case TakeOwnership => Meaning(TakesOwnership, true)
  }

  lemma ActionActs(f: Flag, o: Opts)
    requires IsAction(f)
    ensures Apply(f, o) == Set(o, ActedBy(f).toggle, ActedBy(f).on)
  {
    hide Set;
  }

  lemma ActionIsNamed(low: string)
    requires ActionFlag(low).Some?
    ensures IsAction(ActionFlag(low).value) && ActionMeaning(low) == Some(ActedBy(ActionFlag(low).value))
  {
  }

  lemma NoOtherAction(low: string)
    ensures ActionFlag(low).Some? <==> ActionMeaning(low).Some?
  {
  }

  lemma ActionMeans(low: string, o: Opts)
    ensures Means(ActionFlag(low), ActionMeaning(low), o)
  {
    hide Set, Apply, ActedBy, ActionFlag, ActionMeaning;
    NoOtherAction(low);
    if ActionFlag(low).Some? {
      ActionIsNamed(low);
      ActionActs(ActionFlag(low).value, o);
    }
  }

  function IncludedBy(f: Flag): Toggle
    requires IsInclude(f)
  {
    match f
    case IncludeNgx => WithNgx
    case IncludeHdAudio => WithHdAudio
    case IncludePhysx => WithPhysx
    case IncludeNotebookOptimus => WithNotebookOptimus
    case IncludeVirtualAudio => WithVirtualAudio
    case IncludeNvwmi => WithNvwmi
    case IncludeCaptureSdk => WithCaptureSdk
    case IncludeAnsel => WithAnsel
  }

  lemma IncludeTurnsOn(f: Flag, o: Opts)
    requires IsInclude(f)
    ensures Apply(f, o) == Set(o, IncludedBy(f), true)
  {
    hide Set;
  }

  lemma IncludeIsNamed(low: string)
    requires IncludeFlag(low).Some?
    ensures IsInclude(IncludeFlag(low).value)
    ensures IncludeMeaning(low) == Some(Meaning(IncludedBy(IncludeFlag(low).value), true))
  {
  }

  lemma NoOtherInclude(low: string)
    ensures IncludeFlag(low).Some? <==> IncludeMeaning(low).Some?
  {
  }

  lemma IncludeMeans(low: string, o: Opts)
    ensures Means(IncludeFlag(low), IncludeMeaning(low), o)
  {
    hide Set, Apply, IncludedBy, IncludeFlag, IncludeMeaning;
    NoOtherInclude(low);
    if IncludeFlag(low).Some? {
      IncludeIsNamed(low);
      IncludeTurnsOn(IncludeFlag(low).value, o);
    }
  }

  lemma ConsoleMeans(low: string, o: Opts)
    ensures Means(ConsoleFlag(low), ConsoleMeaning(low), o)
  {
    hide Set;
  }

  /** The parser takes exactly these texts for switches and does with each what it means. */
  lemma SwitchMeans(low: string, o: Opts)
    ensures Means(FlagOf(low), MeaningOf(low), o)
  {
    hide ModeFlag, ActionFlag, IncludeFlag, ConsoleFlag, Apply;
    hide ModeMeaning, ActionMeaning, IncludeMeaning, ConsoleMeaning;
    ModeMeans(low, o);
    ActionMeans(low, o);
    IncludeMeans(low, o);
    ConsoleMeans(low, o);
  }

  // ---- over a whole command line ----

  /** The arguments that are read as switches, lowercased, in order: what follows a
      switch that takes a value is not. */
  function SwitchesRead(args: seq<string>): seq<string> {
    if args == [] then []
    else
      var low := Lower(args[0]);
      if FlagOf(low).Some? then [low] + SwitchesRead(args[1..])
      else if ValueKeyOf(low).Some? then (if |args| > 1 then SwitchesRead(args[2..]) else [])
      else SwitchesRead(args[1..])
  }

  predicate SaysOf(low: string, t: Toggle) {
    MeaningOf(low).Some? && MeaningOf(low).value.toggle == t
  }

  /** What the last switch about an option says; the option as it was if there is none. */
  function LastWord(t: Toggle, texts: seq<string>, was: bool): bool {
    if texts == [] then was
    else if SaysOf(texts[|texts| - 1], t) then MeaningOf(texts[|texts| - 1]).value.on
    else LastWord(t, texts[..|texts| - 1], was)
  }

  lemma {:induction false} FirstWord(t: Toggle, low: string, rest: seq<string>, was: bool)
    ensures LastWord(t, [low] + rest, was)
         == LastWord(t, rest, if SaysOf(low, t) then MeaningOf(low).value.on else was)
  {
    hide MeaningOf;
    if rest == [] {
      assert [low] + rest == [low] && [low][..0] == [];
    } else {
      var front := rest[..|rest| - 1];
      FirstWord(t, low, front, was);
      assert ([low] + rest)[..|rest|] == [low] + front;
    }
  }

  lemma ValueKeepsToggles(a: string, k: ValueKey, v: string, o: Opts)
    ensures AssignNext(a, k, v, o).on == o.on
  {
  }

  lemma OtherKeepsToggles(a: string, o: Opts, t: Toggle)
    requires t != PreservesNvContainers
    ensures t in ApplyOther(a, o).on <==> t in o.on
  {
  }

  /** Whatever stands between them, an option is as the last switch about it says. */
  lemma {:induction false} LastSwitchDecides(args: seq<string>, o: Opts, t: Toggle)
    requires t != PreservesNvContainers
    ensures t in ParseFrom(args, o).on <==> LastWord(t, SwitchesRead(args), t in o.on)
    decreases |args|
  {
    hide FlagOf, ValueKeyOf, Apply, ApplyOther, AssignNext, MeaningOf, Lower;
    if args == [] {
    } else {
      var a, low := args[0], Lower(args[0]);
      if FlagOf(low).Some? {
        SwitchMeans(low, o);
        LastSwitchDecides(args[1..], Apply(FlagOf(low).value, o), t);
        FirstWord(t, low, SwitchesRead(args[1..]), t in o.on);
      } else if ValueKeyOf(low).Some? {
        if |args| > 1 {
          ValueKeepsToggles(a, ValueKeyOf(low).value, args[1], o);
          LastSwitchDecides(args[2..], AssignNext(a, ValueKeyOf(low).value, args[1], o), t);
        }
      } else {
        OtherKeepsToggles(a, o, t);
        LastSwitchDecides(args[1..], ApplyOther(a, o), t);
      }
    }
  }

  const EXECUTE_TEXTS := ["--execute", "-execute"]
  const DRY_RUN_TEXTS := ["--dry-run", "-dryrun"]

  lemma ActsOnNoMode(f: Flag)
    requires IsAction(f)
    ensures ActedBy(f).toggle !in {Executing, PreservesNvContainers}
  {
  }

  lemma IncludesNoMode(f: Flag)
    requires IsInclude(f)
    ensures IncludedBy(f) !in {Executing, PreservesNvContainers}
  {
  }

  lemma ConsoleIsNoMode(low: string)
    requires ConsoleMeaning(low).Some?
    ensures ConsoleMeaning(low).value.toggle !in {Executing, PreservesNvContainers}
  {
  }

  /** Only one group of switches tells whether the run is destructive, and none whether
      containers are preserved. */
  lemma NoOtherMode(low: string)
    ensures ActionMeaning(low).Some? ==> ActionMeaning(low).value.toggle !in {Executing, PreservesNvContainers}
    ensures IncludeMeaning(low).Some? ==> IncludeMeaning(low).value.toggle !in {Executing, PreservesNvContainers}
    ensures ConsoleMeaning(low).Some? ==> ConsoleMeaning(low).value.toggle !in {Executing, PreservesNvContainers}
  {
    hide ActionMeaning, IncludeMeaning, ConsoleMeaning, ActionFlag, IncludeFlag, ActedBy, IncludedBy;
    NoOtherAction(low);
    NoOtherInclude(low);
    if ActionMeaning(low).Some? {
      ActionIsNamed(low);
      ActsOnNoMode(ActionFlag(low).value);
    }
    if IncludeMeaning(low).Some? {
      IncludeIsNamed(low);
      IncludesNoMode(IncludeFlag(low).value);
    }
    if ConsoleMeaning(low).Some? {
      ConsoleIsNoMode(low);
    }
  }

  lemma ModeExecutes(low: string)
    ensures ModeMeaning(low) == Some(Meaning(Executing, true)) <==> low in EXECUTE_TEXTS
    ensures ModeMeaning(low) == Some(Meaning(Executing, false)) <==> low in DRY_RUN_TEXTS
  {
  }

  /** Told yes, and not told otherwise behind that. */
  predicate ToldAt(texts: seq<string>, i: nat, yes: seq<string>, no: seq<string>) {
    i < |texts| && texts[i] in yes && forall j | i < j < |texts| :: texts[j] !in no
  }

  /** These texts, and no others, turn the option on, and those off. */
  ghost predicate SaidBy(t: Toggle, yes: seq<string>, no: seq<string>) {
    forall low ::
      && (SaysOf(low, t) && MeaningOf(low).value.on <==> low in yes)
      && (SaysOf(low, t) && !MeaningOf(low).value.on <==> low in no)
  }

  lemma {:induction false} LastTold(t: Toggle, texts: seq<string>, yes: seq<string>, no: seq<string>)
    requires SaidBy(t, yes, no)
    ensures LastWord(t, texts, false) <==> exists i: nat :: ToldAt(texts, i, yes, no)
  {
    hide MeaningOf;
    if texts == [] {
    } else {
      var front, low := texts[..|texts| - 1], texts[|texts| - 1];
      LastTold(t, front, yes, no);
      if low in yes {
        assert ToldAt(texts, |texts| - 1, yes, no);
      } else {
        assert SaysOf(low, t) <==> low in no;
        assert forall i: nat | ToldAt(texts, i, yes, no) :: ToldAt(front, i, yes, no);
        assert low !in no ==> forall i: nat | ToldAt(front, i, yes, no) :: ToldAt(texts, i, yes, no);
      }
    }
  }

  lemma ExecutingIsSaid()
    ensures SaidBy(Executing, EXECUTE_TEXTS, DRY_RUN_TEXTS)
  {
    hide ModeMeaning, ActionMeaning, IncludeMeaning, ConsoleMeaning;
    forall low
      ensures SaysOf(low, Executing) && MeaningOf(low).value.on <==> low in EXECUTE_TEXTS
      ensures SaysOf(low, Executing) && !MeaningOf(low).value.on <==> low in DRY_RUN_TEXTS
    {
      NoOtherMode(low);
      ModeExecutes(low);
    }
  }

  /** A launch with arguments is destructive exactly when it is told to, and the last word
      on that stands. */
  lemma ExecutesWhenTold(args: seq<string>)
    ensures Executing in ParseFrom(args, DEFAULTS).on <==>
      exists i: nat :: ToldAt(SwitchesRead(args), i, EXECUTE_TEXTS, DRY_RUN_TEXTS)
  {
    hide ToldAt, ParseFrom, SwitchesRead, SaidBy;
    LastSwitchDecides(args, DEFAULTS, Executing);
    ExecutingIsSaid();
    LastTold(Executing, SwitchesRead(args), EXECUTE_TEXTS, DRY_RUN_TEXTS);
  }

  /** The switch that selects a component that is optional. */
  function SwitchFor(key: string): Option<string> {
    match key
    case "NGX" => Some("--include-ngx")
    case "HDAudio" => Some("--include-hdaudio")
    case "PhysX" => Some("--include-physx")
    case "NotebookOptimus" => Some("--include-notebook-optimus")
    case "VirtualAudio" => Some("--include-virtual-audio")
    case "NvWMI" => Some("--include-nvwmi")
    case "CaptureSDK" => Some("--include-capture-sdk")
    case "AnselCamera" => Some("--include-ansel")
    case _ => None
  }

  function IncludeToggle(key: string): Toggle
    requires SwitchFor(key).Some?
  {
    match key
    case "NGX" => WithNgx
    case "HDAudio" => WithHdAudio
    case "PhysX" => WithPhysx
    case "NotebookOptimus" => WithNotebookOptimus
    case "VirtualAudio" => WithVirtualAudio
    case "NvWMI" => WithNvwmi
    case "CaptureSDK" => WithCaptureSdk
    case _ => WithAnsel
  }

  lemma OptionalStarts(c: CatalogEntry, o: Opts)
    ensures InitialState(c, o) == if SwitchFor(c.key).Some? then IncludeToggle(c.key) in o.on else c.defaultEnabled
  {
  }

  lemma ToggleIsOff(key: string)
    requires SwitchFor(key).Some?
    ensures IncludeToggle(key) !in DEFAULTS.on && IncludeToggle(key) !in BARE_LAUNCH.on
    ensures IncludeToggle(key) != PreservesNvContainers
  {
  }

  predicate Includes(t: Toggle) {
    t in {WithNgx, WithHdAudio, WithPhysx, WithNotebookOptimus, WithVirtualAudio, WithNvwmi, WithCaptureSdk, WithAnsel}
  }

  lemma NoModeIncludes(low: string)
    ensures ModeMeaning(low).Some? ==> !Includes(ModeMeaning(low).value.toggle)
  {
  }

  lemma NoActionIncludes(low: string)
    ensures ActionMeaning(low).Some? ==> !Includes(ActionMeaning(low).value.toggle)
  {
  }

  lemma NoConsoleIncludes(low: string)
    ensures ConsoleMeaning(low).Some? ==> !Includes(ConsoleMeaning(low).value.toggle)
  {
  }

  /** The text that turns an optional component's toggle on. */
  function TextFor(t: Toggle): string {
    match t
    case WithNgx => "--include-ngx"
    case WithHdAudio => "--include-hdaudio"
    case WithPhysx => "--include-physx"
    case WithNotebookOptimus => "--include-notebook-optimus"
    case WithVirtualAudio => "--include-virtual-audio"
    case WithNvwmi => "--include-nvwmi"
    case WithCaptureSdk => "--include-capture-sdk"
    case _ => "--include-ansel"
  }

  lemma TextOfInclude(low: string)
    requires IncludeMeaning(low).Some?
    ensures TextFor(IncludeMeaning(low).value.toggle) == low && IncludeMeaning(low).value.on
  {
  }

  lemma TextOfKey(key: string)
    requires SwitchFor(key).Some?
    ensures TextFor(IncludeToggle(key)) == SwitchFor(key).value
  {
  }

  lemma OneInclude(key: string, low: string)
    requires SwitchFor(key).Some? && IncludeMeaning(low).Some?
    requires IncludeMeaning(low).value.toggle == IncludeToggle(key)
    ensures low == SwitchFor(key).value && IncludeMeaning(low).value.on
  {
    hide SwitchFor, IncludeMeaning, IncludeToggle, TextFor;
    TextOfInclude(low);
    TextOfKey(key);
  }

  lemma OnlyThisSwitch(key: string, low: string)
    requires SwitchFor(key).Some? && SaysOf(low, IncludeToggle(key))
    ensures low == SwitchFor(key).value && MeaningOf(low).value.on
  {
    hide ModeMeaning, ActionMeaning, IncludeMeaning, ConsoleMeaning, SwitchFor;
    NoModeIncludes(low);
    NoActionIncludes(low);
    NoConsoleIncludes(low);
    assert Includes(IncludeToggle(key));
    OneInclude(key, low);
  }

  lemma SwitchShape(key: string)
    requires SwitchFor(key).Some?
    ensures var low := SwitchFor(key).value;
      |low| > 8 && low[2] == 'i' && IncludeMeaning(low) == Some(Meaning(IncludeToggle(key), true))
  {
  }

  lemma ThisSwitch(key: string)
    requires SwitchFor(key).Some?
    ensures MeaningOf(SwitchFor(key).value) == Some(Meaning(IncludeToggle(key), true))
  {
    hide ModeFlag, ActionFlag, ModeMeaning, ActionMeaning, IncludeMeaning, ConsoleMeaning, SwitchFor, IncludeToggle;
    var low := SwitchFor(key).value;
    SwitchShape(key);
    ThirdIsNoMode(low);
    ThirdIsNoAction(low);
    ModeMeans(low, DEFAULTS);
    ActionMeans(low, DEFAULTS);
  }

  lemma {:induction false} OnceOn(t: Toggle, low: string, texts: seq<string>)
    requires forall x | SaysOf(x, t) :: x == low && MeaningOf(x).value.on
    requires SaysOf(low, t)
    ensures LastWord(t, texts, false) <==> low in texts
  {
    hide MeaningOf;
    if texts == [] {
    } else {
      OnceOn(t, low, texts[..|texts| - 1]);
      assert texts == texts[..|texts| - 1] + [texts[|texts| - 1]];
    }
  }

  /** An optional component starts selected exactly when its own switch was read, whatever
      else stands on the command line; every other one as the catalog says. */
  lemma SelectedBySwitch(args: seq<string>, o: Opts, c: CatalogEntry)
    requires o == DEFAULTS || o == BARE_LAUNCH
    ensures InitialState(c, ParseFrom(args, o)) ==
      if SwitchFor(c.key).Some? then SwitchFor(c.key).value in SwitchesRead(args) else c.defaultEnabled
  {
    hide SwitchFor, IncludeToggle, MeaningOf, InitialState, ParseFrom, SwitchesRead;
    OptionalStarts(c, ParseFrom(args, o));
    if SwitchFor(c.key).Some? {
      var t, low := IncludeToggle(c.key), SwitchFor(c.key).value;
      ToggleIsOff(c.key);
      LastSwitchDecides(args, o, t);
      ThisSwitch(c.key);
      forall x | SaysOf(x, t)
        ensures x == low && MeaningOf(x).value.on
      {
        OnlyThisSwitch(c.key, x);
      }
      OnceOn(t, low, SwitchesRead(args));
    }
  }

  // ---- what is understood ----

  const PATH_SWITCHES := ["--status-file", "--log-dir", "--log-file", "--abort-event"]
  const ON_WORDS := ["true", "1", "yes", "on"]
  const OFF_WORDS := ["false", "0", "no", "off"]

  lemma WordMeans(low: string)
    ensures ParseBoolWord(low) == Some(true) <==> low in ON_WORDS
    ensures ParseBoolWord(low) == Some(false) <==> low in OFF_WORDS
  {
  }

  predicate SwitchLike(v: string) {
    |v| > 1 && v[0] == '-'
  }

  predicate TakesValue(low: string) {
    low in PATH_SWITCHES || low == "--ti-wait-seconds"
  }

  predicate AssignsPath(low: string) {
    exists k | k in PATH_SWITCHES :: k + "=" <= low
  }

  predicate SetsPreserve(low: string) {
    low == PRESERVE || exists w | w in ON_WORDS + OFF_WORDS :: low == PRESERVE + "=" + w
  }

  /** An argument that is understood without another one. */
  predicate StandsAlone(low: string) {
    || SetsPreserve(low) || (WAIT_PREFIX <= low && ParseI64(low[|WAIT_PREFIX|..]).Some?)
    || AssignsPath(low) || COMPONENT_PREFIX <= low
  }

  /** Every argument is a switch, a value that belongs to one, or stands alone. */
  predicate Understood(args: seq<string>) {
    args == [] ||
    var low := Lower(args[0]);
    if MeaningOf(low).Some? then Understood(args[1..])
    else if TakesValue(low) then
      && |args| > 1 && !SwitchLike(args[1]) && (low == "--ti-wait-seconds" ==> ParseI64(args[1]).Some?)
      && Understood(args[2..])
    else StandsAlone(low) && Understood(args[1..])
  }

  /** A problem may be added, nothing is taken away. */
  predicate OneProblemUnless(good: bool, before: seq<string>, after: seq<string>) {
    if good then after == before else |after| == |before| + 1 && before <= after
  }

  lemma ValueProblem(a: string, k: ValueKey, v: string, o: Opts)
    ensures OneProblemUnless(!SwitchLike(v) && (k == TiWaitSeconds ==> ParseI64(v).Some?),
                             o.unknownArgs, AssignNext(a, k, v, o).unknownArgs)
  {
    hide ParseI64;
  }

  lemma KeyTakesValue(low: string)
    ensures ValueKeyOf(low).Some? <==> TakesValue(low)
    ensures ValueKeyOf(low) == Some(TiWaitSeconds) <==> low == "--ti-wait-seconds"
  {
  }

  lemma WordBehind(low: string)
    requires PRESERVE + "=" <= low
    ensures ParseBoolWord(low[|PRESERVE| + 1..]).Some? <==> SetsPreserve(low)
  {
    var prefix := PRESERVE + "=";
    var rest := low[|prefix|..];
    WordMeans(rest);
    assert low == prefix + rest && low != PRESERVE;
    if w :| w in ON_WORDS + OFF_WORDS && low == prefix + w {
      assert (prefix + w)[|prefix|..] == w;
    }
  }

  /** Up to the first `=` stands a key exactly when the text begins with the key and `=`. */
  lemma KeyBeforeEquals(a: string, key: string)
    requires '=' !in key
    ensures var eq := IndexOf(a, '=');
      eq < |a| && Lower(a[..eq]) == key <==> key + "=" <= Lower(a)
  {
    hide Lower, IndexOf;
    var eq, low := IndexOf(a, '='), Lower(a);
    BeginsWithKey(low, key);
    LowerFront(a, eq);
    if eq < |a| {
      EqualsAt(a, eq);
    }
    if key + "=" <= low {
      FirstEquals(a, key);
    }
  }

  lemma BeginsWithKey(low: string, key: string)
    ensures key + "=" <= low <==> |key| < |low| && low[..|key|] == key && low[|key|] == '='
  {
    var prefix := key + "=";
    assert prefix[..|key|] == key && prefix[|key|] == '=';
    if prefix <= low {
      assert low[..|key|] == prefix[..|key|] && low[|key|] == prefix[|key|];
    }
    if |key| < |low| && low[..|key|] == key && low[|key|] == '=' {
      assert low[..|prefix|] == prefix;
    }
  }

  lemma LowerFront(a: string, i: nat)
    requires i <= |a|
    ensures |Lower(a)| == |a| && Lower(a)[..i] == Lower(a[..i])
  {
  }

  lemma FirstEquals(a: string, key: string)
    requires '=' !in key && key + "=" <= Lower(a)
    ensures IndexOf(a, '=') == |key| < |a|
  {
    hide IndexOf;
    var low := Lower(a);
    BeginsWithKey(low, key);
    EqualsAt(a, |key|);
    forall j | 0 <= j < |key|
      ensures a[j] != '='
    {
      assert low[j] == low[..|key|][j] == key[j] && key[j] in key;
      EqualsAt(a, j);
    }
    NotBefore(a, |key|);
  }

  lemma EqualsAt(a: string, i: nat)
    requires i < |a|
    ensures Lower(a)[i] == '=' <==> a[i] == '='
  {
  }

  lemma NotBefore(a: string, i: nat)
    requires i < |a| && a[i] == '='
    ensures IndexOf(a, '=') <= i
  {
    var eq := IndexOf(a, '=');
    assert forall j | 0 <= j < eq :: a[j] == a[..eq][j] && a[j] in a[..eq];
  }

  lemma PathTexts()
    ensures forall k | k in PATH_SWITCHES :: '=' !in k && |k| > 2 && k[2] in {'s', 'l', 'a'}
  {
    assert forall i | 0 <= i < |PATH_SWITCHES| :: '=' !in PATH_SWITCHES[i] && |PATH_SWITCHES[i]| > 2;
    assert forall i | 0 <= i < |PATH_SWITCHES| :: PATH_SWITCHES[i][2] in {'s', 'l', 'a'};
  }

  lemma ThirdOf(prefix: string, low: string)
    requires |prefix| > 2 && prefix <= low
    ensures |low| > 2 && low[2] == prefix[2]
  {
  }

  lemma ThirdOfPrefixes()
    ensures |PRESERVE| > 2 && PRESERVE[2] == 'p' && |WAIT_PREFIX| > 2 && WAIT_PREFIX[2] == 't'
    ensures |COMPONENT_PREFIX| > 2 && COMPONENT_PREFIX[2] == 'c'
  {
  }

  lemma ThirdOfPreserve(low: string)
    requires SetsPreserve(low) || PRESERVE <= low
    ensures |low| > 2 && low[2] == 'p'
  {
    ThirdOfPrefixes();
    assert PRESERVE <= low by {
      if w :| w in ON_WORDS + OFF_WORDS && low == PRESERVE + "=" + w {
        assert low == PRESERVE + ("=" + w);
      }
    }
    ThirdOf(PRESERVE, low);
  }

  lemma ThirdOfPath(low: string)
    requires AssignsPath(low)
    ensures |low| > 2 && low[2] in {'s', 'l', 'a'}
  {
    PathTexts();
    var k :| k in PATH_SWITCHES && k + "=" <= low;
    ThirdOf(k + "=", low);
  }

  /** The forms with an equals sign are told apart by their third letter. */
  lemma ThirdLetters(low: string)
    ensures SetsPreserve(low) || PRESERVE + "=" <= low ==> |low| > 2 && low[2] == 'p'
    ensures WAIT_PREFIX <= low ==> |low| > 2 && low[2] == 't'
    ensures AssignsPath(low) ==> |low| > 2 && low[2] in {'s', 'l', 'a'}
    ensures COMPONENT_PREFIX <= low ==> |low| > 2 && low[2] == 'c'
  {
    hide SetsPreserve, AssignsPath;
    ThirdOfPrefixes();
    if PRESERVE + "=" <= low {
      LongerPrefix(PRESERVE, low);
    }
    if SetsPreserve(low) || PRESERVE <= low {
      ThirdOfPreserve(low);
    }
    if WAIT_PREFIX <= low {
      ThirdOf(WAIT_PREFIX, low);
    }
    if AssignsPath(low) {
      ThirdOfPath(low);
    }
    if COMPONENT_PREFIX <= low {
      ThirdOf(COMPONENT_PREFIX, low);
    }
  }

  lemma LongerPrefix(prefix: string, low: string)
    requires prefix + "=" <= low
    ensures prefix <= low
  {
  }

  lemma PreserveProblem(a: string, o: Opts)
    ensures var b := ParseBoolAssignment(a, PRESERVE);
      && (b.NotMine? <==> !(PRESERVE + "=" <= Lower(a)))
      && (b.Assigned? ==> SetsPreserve(Lower(a))) && (b.Malformed? ==> !SetsPreserve(Lower(a)))
    ensures !(PRESERVE + "=" <= Lower(a)) ==> (SetsPreserve(Lower(a)) <==> Lower(a) == PRESERVE)
  {
    hide ParseBoolWord;
    var low := Lower(a);
    PreserveLower();
    if PRESERVE + "=" <= low {
      WordBehind(low);
    }
    if w :| w in ON_WORDS + OFF_WORDS && low == PRESERVE + "=" + w {
      assert PRESERVE + "=" <= low;
    }
  }

  lemma AssignsByKey(a: string, key: string)
    requires key == if IndexOf(a, '=') < |a| then Lower(a[..IndexOf(a, '=')]) else ""
    ensures AssignsPath(Lower(a)) <==> key in PATH_SWITCHES
  {
    hide Lower, IndexOf;
    PathTexts();
    forall k | k in PATH_SWITCHES
      ensures k == key <==> k + "=" <= Lower(a)
    {
      KeyBeforeEquals(a, k);
    }
  }

  lemma AssignmentProblem(a: string, o: Opts)
    ensures OneProblemUnless(AssignsPath(Lower(a)) || COMPONENT_PREFIX <= Lower(a),
                             o.unknownArgs, ApplyAssignment(a, o).unknownArgs)
  {
    hide Lower, IndexOf, AssignsPath;
    AssignsByKey(a, if IndexOf(a, '=') < |a| then Lower(a[..IndexOf(a, '=')]) else "");
  }

  lemma OtherProblem(a: string, o: Opts)
    ensures OneProblemUnless(StandsAlone(Lower(a)), o.unknownArgs, ApplyOther(a, o).unknownArgs)
  {
    hide ParseBoolAssignment, SetsPreserve, AssignsPath, ParseI64, ApplyAssignment, Lower;
    ThirdLetters(Lower(a));
    PreserveProblem(a, o);
    AssignmentProblem(a, o);
  }

  /** Nothing is taken for a problem but what is not understood, and nothing that is not
      understood is passed over. */
  lemma {:induction false} ProblemsAreReported(args: seq<string>, o: Opts)
    ensures o.unknownArgs <= ParseFrom(args, o).unknownArgs
    ensures ParseFrom(args, o).unknownArgs == o.unknownArgs <==> Understood(args)
    decreases |args|
  {
    hide FlagOf, ValueKeyOf, Apply, ApplyOther, AssignNext, MeaningOf, Lower, TakesValue, StandsAlone, ParseI64;
    if args == [] {
    } else {
      var a, low := args[0], Lower(args[0]);
      SwitchMeans(low, o);
      KeyTakesValue(low);
      if FlagOf(low).Some? {
        ProblemsAreReported(args[1..], Apply(FlagOf(low).value, o));
      } else if ValueKeyOf(low).Some? {
        if |args| > 1 {
          ValueProblem(a, ValueKeyOf(low).value, args[1], o);
          ProblemsAreReported(args[2..], AssignNext(a, ValueKeyOf(low).value, args[1], o));
        }
      } else {
        OtherProblem(a, o);
        ProblemsAreReported(args[1..], ApplyOther(a, o));
      }
    }
  }

  // ---- preserving containers ----

  /** The arguments that neither are switches nor belong to one, lowercased, in order. */
  function OthersRead(args: seq<string>): seq<string> {
    if args == [] then []
    else
      var low := Lower(args[0]);
      if FlagOf(low).Some? then OthersRead(args[1..])
      else if ValueKeyOf(low).Some? then (if |args| > 1 then OthersRead(args[2..]) else [])
      else [low] + OthersRead(args[1..])
  }

  predicate Preserves(low: string) {
    low == PRESERVE || exists w | w in ON_WORDS :: low == PRESERVE + "=" + w
  }

  predicate GivesUp(low: string) {
    exists w | w in OFF_WORDS :: low == PRESERVE + "=" + w
  }

  function LastPreserved(texts: seq<string>, was: bool): bool {
    if texts == [] then was
    else if Preserves(texts[|texts| - 1]) then true
    else if GivesUp(texts[|texts| - 1]) then false
    else LastPreserved(texts[..|texts| - 1], was)
  }

  lemma {:induction false} FirstPreserved(low: string, rest: seq<string>, was: bool)
    ensures LastPreserved([low] + rest, was)
         == LastPreserved(rest, if Preserves(low) then true else if GivesUp(low) then false else was)
  {
    hide Preserves, GivesUp;
    if rest == [] {
      assert [low] + rest == [low] && [low][..0] == [];
    } else {
      var front := rest[..|rest| - 1];
      FirstPreserved(low, front, was);
      assert ([low] + rest)[..|rest|] == [low] + front;
    }
  }

  lemma NoModePreserves(low: string)
    ensures ModeMeaning(low).Some? ==> ModeMeaning(low).value.toggle != PreservesNvContainers
  {
  }

  lemma SwitchKeepsPreserving(low: string, o: Opts)
    requires FlagOf(low).Some?
    ensures PreservesNvContainers in Apply(FlagOf(low).value, o).on <==> PreservesNvContainers in o.on
  {
    hide FlagOf, Apply, ModeMeaning, ActionMeaning, IncludeMeaning, ConsoleMeaning;
    SwitchMeans(low, o);
    NoModePreserves(low);
    NoOtherMode(low);
  }

  lemma WordSaid(low: string)
    requires PRESERVE + "=" <= low
    ensures ParseBoolWord(low[|PRESERVE| + 1..]) == Some(true) <==> Preserves(low)
    ensures ParseBoolWord(low[|PRESERVE| + 1..]) == Some(false) <==> GivesUp(low)
  {
    var prefix := PRESERVE + "=";
    var rest := low[|prefix|..];
    WordMeans(rest);
    assert low == prefix + rest && low != PRESERVE;
    forall w: string | low == prefix + w
      ensures w == rest
    {
      assert (prefix + w)[|prefix|..] == w;
    }
  }

  lemma NothingSaid(low: string)
    requires !(PRESERVE + "=" <= low)
    ensures (Preserves(low) <==> low == PRESERVE) && !GivesUp(low)
  {
    forall w: string
      ensures low != PRESERVE + "=" + w
    {
      assert low == PRESERVE + "=" + w ==> PRESERVE + "=" <= low;
    }
  }

  lemma AssignmentKeepsToggles(a: string, raw: string, o: Opts)
    ensures ApplyAssignment(a, o).on == o.on && ApplyTiWait(raw, o).on == o.on
  {
    hide IndexOf, Lower, ParseI64;
  }

  lemma OtherPreserves(a: string, o: Opts)
    ensures PreservesNvContainers in ApplyOther(a, o).on <==>
      if Preserves(Lower(a)) then true else if GivesUp(Lower(a)) then false else PreservesNvContainers in o.on
  {
    hide Preserves, GivesUp, ParseBoolWord, ApplyAssignment, ApplyTiWait, Lower;
    var low := Lower(a);
    PreserveLower();
    if PRESERVE + "=" <= low {
      WordSaid(low);
    } else {
      NothingSaid(low);
      AssignmentKeepsToggles(a, if WAIT_PREFIX <= low then low[|WAIT_PREFIX|..] else "", o);
    }
  }

  /** Containers are preserved as the last argument about that says, whatever stands
      around it. */
  lemma {:induction false} LastPreserveDecides(args: seq<string>, o: Opts)
    ensures PreservesNvContainers in ParseFrom(args, o).on
      <==> LastPreserved(OthersRead(args), PreservesNvContainers in o.on)
    decreases |args|
  {
    hide FlagOf, ValueKeyOf, Apply, ApplyOther, AssignNext, Lower, Preserves, GivesUp;
    if args == [] {
    } else {
      var a, low := args[0], Lower(args[0]);
      if FlagOf(low).Some? {
        SwitchKeepsPreserving(low, o);
        LastPreserveDecides(args[1..], Apply(FlagOf(low).value, o));
      } else if ValueKeyOf(low).Some? {
        if |args| > 1 {
          ValueKeepsToggles(a, ValueKeyOf(low).value, args[1], o);
          LastPreserveDecides(args[2..], AssignNext(a, ValueKeyOf(low).value, args[1], o));
        }
      } else {
        OtherPreserves(a, o);
        LastPreserveDecides(args[1..], ApplyOther(a, o));
        FirstPreserved(low, OthersRead(args[1..]), PreservesNvContainers in o.on);
      }
    }
  }

  // ---- component choices ----

  /** `--component=`, a key, `:` or `=`, and a word. */
  predicate ChoiceText(a: string, key: string, sep: char, word: string) {
    && COMPONENT_PREFIX <= Lower(a) && a[|COMPONENT_PREFIX|..] == key + ([sep] + word)
    && sep in {':', '='} && ':' !in key && '=' !in key
  }

  lemma SeparatorBehind(key: string, sep: char, word: string)
    requires sep in {':', '='} && ':' !in key && '=' !in key
    ensures Separator(key + ([sep] + word)) == |key|
  {
    var spec := key + ([sep] + word);
    assert spec[|key|] == sep && forall j | 0 <= j < |key| :: spec[j] == key[j] && key[j] in key;
  }

  /** A choice is applied, to every component whose key it names in any letter case, when
      the word is one for on or off and there is such a component; otherwise it is
      reported and changes nothing. */
  lemma ChoiceIsRead(m: Selection, a: string, key: string, sep: char, word: string)
    requires ChoiceText(a, key, sep, word)
    ensures BadChoice(m, a) <==>
      Lower(word) !in ON_WORDS + OFF_WORDS || forall k | k in m :: Lower(k) != Lower(key)
    ensures BadChoice(m, a) ==> Chosen(m, a) == m
    ensures !BadChoice(m, a) ==> forall k | k in m ::
      Chosen(m, a)[k] == if Lower(k) == Lower(key) then Lower(word) in ON_WORDS else m[k]
  {
    hide ParseBoolWord, Lower;
    var spec := a[|COMPONENT_PREFIX|..];
    SeparatorBehind(key, sep, word);
    assert spec[..|key|] == key && spec[|key| + 1..] == word;
    WordMeans(Lower(word));
  }

  lemma {:induction false} ChoicesKeepKeys(m: Selection, args: seq<string>)
    ensures ChosenAll(m, args).Keys == m.Keys
  {
    if args == [] {
    } else {
      ChoicesKeepKeys(m, args[..|args| - 1]);
    }
  }

  /** Of several choices for a component the last one counts. */
  lemma LaterChoiceCounts(m: Selection, args: seq<string>, a: string, key: string, sep: char, word: string)
    requires ChoiceText(a, key, sep, word) && Lower(word) in ON_WORDS + OFF_WORDS
    ensures var before, after := ChosenAll(m, args), ChosenAll(m, args + [a]);
      && before.Keys == after.Keys == m.Keys
      && forall k | k in m :: after[k] == if Lower(k) == Lower(key) then Lower(word) in ON_WORDS else before[k]
  {
    hide ChoiceText, Chosen, BadChoice, Lower;
    assert (args + [a])[..|args|] == args;
    ChoicesKeepKeys(m, args);
    ChoicesKeepKeys(m, args + [a]);
    ChoiceIsRead(ChosenAll(m, args), a, key, sep, word);
  }

  /** Without a separator it is reported; anything else is no choice. */
  lemma NoChoiceIsRead(m: Selection, a: string)
    ensures !(COMPONENT_PREFIX <= Lower(a)) ==> !BadChoice(m, a) && Chosen(m, a) == m
    ensures COMPONENT_PREFIX <= Lower(a) && (forall c | c in a[|COMPONENT_PREFIX|..] :: c != ':' && c != '=') ==>
      BadChoice(m, a) && Chosen(m, a) == m
  {
    if COMPONENT_PREFIX <= Lower(a) {
      var spec := a[|COMPONENT_PREFIX|..];
      assert Separator(spec) < |spec| ==> spec[Separator(spec)] in spec;
    }
  }
}
