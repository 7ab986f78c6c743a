/** Command-line options: how arguments become options and component choices. */
module Options {
  import opened Basics
  import opened Text

  /** The boolean options, by name. */
  datatype Toggle =
    | Executing | ShowMenu | WizardDefaults | PauseOnExit | IsTiChild | AdminFallbackAllowed | TiRelaunchAttempted
    | KillsLockers | PreservesNvContainers | DisablesServices | DeletesServices
    | DisablesScheduledTasks | DeletesScheduledTasks | SchedulesLockedForReboot | TakesOwnership
    | WithNgx | WithHdAudio | WithPhysx | WithNotebookOptimus | WithVirtualAudio
    | WithNvwmi | WithCaptureSdk | WithAnsel
    | NeverPause | Monochrome | ShowHelp | ShowVersion | ShowComponents

  /** The options: `on` holds the boolean ones that are true. */
  datatype Opts = Opts(
    on: set<Toggle>, tiWaitSeconds: int,
    statusFile: string, logDirOverride: string, logFileOverride: string, abortEvent: string,
    unknownArgs: seq<string>)

  const DEFAULTS := Opts(
    on := {TiRelaunchAttempted, PreservesNvContainers, DisablesScheduledTasks}, tiWaitSeconds := 600,
    statusFile := "", logDirOverride := "", logFileOverride := "", abortEvent := "", unknownArgs := [])

  function Set(o: Opts, t: Toggle, v: bool): Opts {
    o.(on := if v then o.on + {t} else o.on - {t})
  }

  /** The switches that stand alone. */
  datatype Flag =
    | Help | Version | ListComponents | Menu | NoMenu | Execute | DryRun
    | AllowAdminFallback | NoTiRelaunch | TiChild
    | KillLockers | DisableServices | DeleteServices | DisableTasks | NoDisableTasks | DeleteTasks
    | ScheduleRebootDelete | TakeOwnership
    | IncludeNgx | IncludeHdAudio | IncludePhysx | IncludeNotebookOptimus | IncludeVirtualAudio
    | IncludeNvwmi | IncludeCaptureSdk | IncludeAnsel
    | NoPause | Pause | NoColor

  function Spelling(f: Flag): string {
    match f
    case Help => "--help"
    case Version => "--version"
    case ListComponents => "--list-components"
    case Menu => "--menu"
    case NoMenu => "--no-menu"
    case Execute => "--execute"
    case DryRun => "--dry-run"
    case AllowAdminFallback => "--allow-admin-fallback"
    case NoTiRelaunch => "--no-ti-relaunch"
    case TiChild => "--ti-child"
    case KillLockers => "--kill-lockers"
    case DisableServices => "--disable-services"
    case DeleteServices => "--delete-services"
    case DisableTasks => "--disable-scheduled-tasks"
    case NoDisableTasks => "--no-disable-scheduled-tasks"
    case DeleteTasks => "--delete-scheduled-tasks"
    case ScheduleRebootDelete => "--schedule-reboot-delete"
    case TakeOwnership => "--take-ownership"
    case IncludeNgx => "--include-ngx"
    case IncludeHdAudio => "--include-hdaudio"
    case IncludePhysx => "--include-physx"
    case IncludeNotebookOptimus => "--include-notebook-optimus"
    case IncludeVirtualAudio => "--include-virtual-audio"
    case IncludeNvwmi => "--include-nvwmi"
    case IncludeCaptureSdk => "--include-capture-sdk"
    case IncludeAnsel => "--include-ansel"
    case NoPause => "--no-pause"
    case Pause => "--pause"
    case NoColor => "--no-color"
  }

  function ModeFlag(low: string): Option<Flag> {
    if low == "--help" || low == "-h" || low == "/?" then Some(Help)
    else if low == "--version" then Some(Version)
    else if low == "--list-components" then Some(ListComponents)
    else if low == "--menu" then Some(Menu)
    else if low == "--no-menu" then Some(NoMenu)
    else if low == "--execute" || low == "-execute" then Some(Execute)
    else if low == "--dry-run" || low == "-dryrun" then Some(DryRun)
    else if low == "--allow-admin-fallback" then Some(AllowAdminFallback)
    else if low == "--no-ti-relaunch" then Some(NoTiRelaunch)
    else if low == "--ti-child" then Some(TiChild)
    else None
  }

  function ActionFlag(low: string): Option<Flag> {
    if low == "--kill-lockers" then Some(KillLockers)
    else if low == "--disable-services" then Some(DisableServices)
    else if low == "--delete-services" then Some(DeleteServices)
    else if low == "--disable-scheduled-tasks" then Some(DisableTasks)
    else if low == "--no-disable-scheduled-tasks" then Some(NoDisableTasks)
    else if low == "--delete-scheduled-tasks" then Some(DeleteTasks)
    else if low == "--schedule-reboot-delete" then Some(ScheduleRebootDelete)
    else if low == "--take-ownership" then Some(TakeOwnership)
    else None
  }

  function IncludeFlag(low: string): Option<Flag> {
    if low == "--include-ngx" then Some(IncludeNgx)
    else if low == "--include-hdaudio" then Some(IncludeHdAudio)
    else if low == "--include-physx" then Some(IncludePhysx)
    else if low == "--include-notebook-optimus" then Some(IncludeNotebookOptimus)
    else if low == "--include-virtual-audio" then Some(IncludeVirtualAudio)
    else if low == "--include-nvwmi" then Some(IncludeNvwmi)
    else if low == "--include-capture-sdk" then Some(IncludeCaptureSdk)
    else if low == "--include-ansel" then Some(IncludeAnsel)
    else None
  }

  function ConsoleFlag(low: string): Option<Flag> {
    if low == "--no-pause" then Some(NoPause)
    else if low == "--pause" then Some(Pause)
    else if low == "--no-color" then Some(NoColor)
    else None
  }

  function FlagOf(low: string): Option<Flag> {
    var mode := ModeFlag(low);
    var action := ActionFlag(low);
    var include_ := IncludeFlag(low);
    if mode.Some? then mode
    else if action.Some? then action
    else if include_.Some? then include_
    else ConsoleFlag(low)
  }

  function Apply(f: Flag, o: Opts): Opts {
    match f
    case Help => Set(o, ShowHelp, true)
    case Version => Set(o, ShowVersion, true)
    case ListComponents => Set(o, ShowComponents, true)
    case Menu => Set(o, ShowMenu, true)
    case NoMenu => Set(o, ShowMenu, false)
    case Execute => Set(o, Executing, true)
    case DryRun => Set(o, Executing, false)
    case AllowAdminFallback => Set(o, AdminFallbackAllowed, true)
    case NoTiRelaunch => Set(o, TiRelaunchAttempted, false)
    case TiChild => Set(o, IsTiChild, true)
    case KillLockers => Set(o, KillsLockers, true)
    case DisableServices => Set(o, DisablesServices, true)
    case DeleteServices => Set(o, DeletesServices, true)
    case DisableTasks => Set(o, DisablesScheduledTasks, true)
    case NoDisableTasks => Set(o, DisablesScheduledTasks, false)
    case DeleteTasks => Set(o, DeletesScheduledTasks, true)
    case ScheduleRebootDelete => Set(o, SchedulesLockedForReboot, true)
    case TakeOwnership => Set(o, TakesOwnership, true)
    case IncludeNgx => Set(o, WithNgx, true)
    case IncludeHdAudio => Set(o, WithHdAudio, true)
    case IncludePhysx => Set(o, WithPhysx, true)
    case IncludeNotebookOptimus => Set(o, WithNotebookOptimus, true)
    case IncludeVirtualAudio => Set(o, WithVirtualAudio, true)
    case IncludeNvwmi => Set(o, WithNvwmi, true)
    case IncludeCaptureSdk => Set(o, WithCaptureSdk, true)
    case IncludeAnsel => Set(o, WithAnsel, true)
    case NoPause => Set(o, NeverPause, true)
    case Pause => Set(o, PauseOnExit, true)
    case NoColor => Set(o, Monochrome, true)
  }

  datatype BoolAssign = NotMine | Assigned(value: bool) | Malformed(text: string)

  function ParseBoolWord(low: string): Option<bool> {
    if low == "true" || low == "1" || low == "yes" || low == "on" then Some(true)
    else if low == "false" || low == "0" || low == "no" || low == "off" then Some(false)
    else None
  }

  /** parse_bool_assignment: recognised words only. */
  function ParseBoolAssignment(arg: string, name: string): BoolAssign {
    var low, prefix := Lower(arg), Lower(name) + "=";
    if !(prefix <= low) then NotMine
    else
      var word := ParseBoolWord(low[|prefix|..]);
      if word.Some? then Assigned(word.value) else Malformed(low[|prefix|..])
  }

  const TI_WAIT_MIN_SECS := 15
  const TI_WAIT_MAX_SECS := 7200
  const I64_MAX := 0x7FFF_FFFF_FFFF_FFFF

  function Clamp(v: int, lo: int, hi: int): int {
    if v < lo then lo else if v > hi then hi else v
  }

  predicate IsDigit(c: char) {
    '0' <= c <= '9'
  }

  function Digits(s: string): Option<nat> {
    if s == "" then Some(0)
    else if !IsDigit(s[|s| - 1]) then None
    else
      var front := Digits(s[..|s| - 1]);
      if front.None? then None else Some(front.value * 10 + (s[|s| - 1] - '0') as nat)
  }

  /** The value of digits after an optional minus sign, when it fits an i64. */
  function Signed(negative: bool, body: string): Option<int> {
    var n := Digits(body);
    if body == "" || n.None? || n.value > I64_MAX + (if negative then 1 else 0) then None
    else Some(if negative then 0 - (n.value as int) else n.value)
  }

  /** str::parse::<i64>: an optional sign, at least one digit, nothing else, and
      a value that fits. */
  function ParseI64(s: string): Option<int> {
    if s != "" && s[0] == '-' then Signed(true, s[1..])
    else if s != "" && s[0] == '+' then Signed(false, s[1..])
    else Signed(false, s)
  }

  function ApplyTiWait(raw: string, o: Opts): Opts {
    var v := ParseI64(raw);
    if v.Some? then o.(tiWaitSeconds := Clamp(v.value, TI_WAIT_MIN_SECS, TI_WAIT_MAX_SECS))
    else Problem(o, "--ti-wait-seconds=" + raw + " is not an integer")
  }

  function Problem(o: Opts, text: string): Opts {
    o.(unknownArgs := o.unknownArgs + [text])
  }

  /** A value that looks like a switch means the value is missing. */
  predicate FlagLike(v: string) {
    |v| > 1 && v[0] == '-'
  }

  datatype ValueKey = StatusFile | LogDir | TiWaitSeconds | LogFile | AbortEvent

  function KeySpelling(k: ValueKey): string {
    match k
    case StatusFile => "--status-file"
    case LogDir => "--log-dir"
    case TiWaitSeconds => "--ti-wait-seconds"
    case LogFile => "--log-file"
    case AbortEvent => "--abort-event"
  }

  function ValueKeyOf(low: string): Option<ValueKey> {
    if low == "--status-file" then Some(StatusFile)
    else if low == "--log-dir" then Some(LogDir)
    else if low == "--ti-wait-seconds" then Some(TiWaitSeconds)
    else if low == "--log-file" then Some(LogFile)
    else if low == "--abort-event" then Some(AbortEvent)
    else None
  }

  function Assign(k: ValueKey, v: string, o: Opts): Opts {
    match k
    case StatusFile => o.(statusFile := v)
    case LogDir => o.(logDirOverride := v)
    case TiWaitSeconds => ApplyTiWait(v, o)
    case LogFile => o.(logFileOverride := v)
    case AbortEvent => o.(abortEvent := v)
  }

  /** The argument that follows a switch `a` taking a value. */
  function AssignNext(a: string, k: ValueKey, v: string, o: Opts): Opts {
    if FlagLike(v)
    then Problem(o, a + " is missing its value (found flag-like '" + v + "' instead)")
    else Assign(k, v, o)
  }

  function IndexOf(s: string, c: char): (i: nat)
    ensures i <= |s| && c !in s[..i] && (i < |s| ==> s[i] == c)
  {
    if s == "" || s[0] == c then 0
    else
      var i := 1 + IndexOf(s[1..], c);
      assert s[..i] == [s[0]] + s[1..][..i - 1];
      i
  }

  const COMPONENT_PREFIX := "--component="
  const WAIT_PREFIX := "--ti-wait-seconds="
  const PRESERVE := "--preserve-nvcontainers"

  /** One argument that neither stands for a flag nor takes the next argument. */
  function ApplyOther(a: string, o: Opts): Opts {
    var low := Lower(a);
    match ParseBoolAssignment(a, PRESERVE)
    case Assigned(v) => Set(o, PreservesNvContainers, v)
    case Malformed(_) => Problem(o, a)
    case NotMine =>
      if low == PRESERVE then Set(o, PreservesNvContainers, true)
      else if WAIT_PREFIX <= low then ApplyTiWait(low[|WAIT_PREFIX|..], o)
      else ApplyAssignment(a, o)
  }

  /** `--key=value` forms, component choices (read later), and anything unknown. */
  function ApplyAssignment(a: string, o: Opts): Opts {
    var eq := IndexOf(a, '=');
    var key := if eq < |a| then Lower(a[..eq]) else "";
    if key == "--status-file" then o.(statusFile := a[eq + 1..])
    else if key == "--log-file" then o.(logFileOverride := a[eq + 1..])
    else if key == "--log-dir" then o.(logDirOverride := a[eq + 1..])
    else if key == "--abort-event" then o.(abortEvent := a[eq + 1..])
    else if COMPONENT_PREFIX <= Lower(a) then o
    else Problem(o, a)
  }

  /** What the remaining arguments make of `o`. */
  function ParseFrom(args: seq<string>, o: Opts): Opts {
    if args == [] then o
    else
      var a, low := args[0], Lower(args[0]);
      var flag, key := FlagOf(low), ValueKeyOf(low);
      if flag.Some? then ParseFrom(args[1..], Apply(flag.value, o))
      else if key.Some? then
        if |args| > 1 then ParseFrom(args[2..], AssignNext(a, key.value, args[1], o))
        else Problem(o, a + " is missing its value")
      else ParseFrom(args[1..], ApplyOther(a, o))
  }

  /** What no argument at all stands for. */
  const BARE_LAUNCH := DEFAULTS.(on := DEFAULTS.on + {
    ShowMenu, Executing, KillsLockers, DisablesServices, DeletesScheduledTasks, SchedulesLockedForReboot,
    WizardDefaults})

  /** parse_args. */
  method ParseArgs(args: seq<string>) returns (o: Opts)
    ensures o == ParseFrom(args, if args == [] then BARE_LAUNCH else DEFAULTS)
  {
    hide Lower, FlagOf, ValueKeyOf, Apply, AssignNext, ApplyOther;
    o := DEFAULTS;
    if args == [] {
      o := BARE_LAUNCH;
    }
    var i := 0;
    ghost var start := o;
    assert args[0..] == args;
    while i < |args|
      invariant i <= |args| && ParseFrom(args[i..], o) == ParseFrom(args, start)
    {
      var a := args[i];
      ghost var rest := args[i..];
      assert rest[0] == a && rest[1..] == args[i + 1..];
      var low := Lower(a);
      var flag, key := FlagOf(low), ValueKeyOf(low);
      if flag.Some? {
        o := Apply(flag.value, o);
      } else if key.Some? {
        if i + 1 < |args| {
          i := i + 1;
          assert rest[1] == args[i] && rest[2..] == args[i + 1..];
          o := AssignNext(a, key.value, args[i], o);
        } else {
          o := Problem(o, a + " is missing its value");
          assert args[i + 1..] == [];
        }
      } else {
        o := ApplyOther(a, o);
      }
      i := i + 1;
    }
    assert args[|args|..] == [];
  }
}
