/** The switches a parent spells out for its child, and what parsing makes of each. */
module Switches {
  import opened Basics
  import opened Text
  import opened Options

  datatype Switch = Plain(flag: Flag) | PreserveOff | Wait(seconds: int) | Component(key: string, on: bool)

  function Decimal(n: nat): string {
    if n < 10 then ['0' + n as char] else Decimal(n / 10) + ['0' + (n % 10) as char]
  }

  function IntText(n: int): string {
    if n < 0 then "-" + Decimal(0 - n) else Decimal(n)
  }

  function SwitchText(s: Switch): string {
    match s
    case Plain(f) => Spelling(f)
    case PreserveOff => PRESERVE + "=" + "off"
    case Wait(n) => "--ti-wait-seconds=" + IntText(n)
    case Component(key, on) => "--component=" + key + ":" + (if on then "on" else "off")
  }

  function Effect(s: Switch, o: Opts): Opts {
    match s
    case Plain(f) => Apply(f, o)
    case PreserveOff => Set(o, PreservesNvContainers, false)
    case Wait(n) => o.(tiWaitSeconds := Clamp(n, TI_WAIT_MIN_SECS, TI_WAIT_MAX_SECS))
    case Component(_, _) => o
  }

  lemma {:induction false} DecimalDigits(n: nat)
    ensures Digits(Decimal(n)) == Some(n)
    ensures Decimal(n) != "" && forall i | 0 <= i < |Decimal(n)| :: IsDigit(Decimal(n)[i])
  {
    if n < 10 {
      assert Digits("") == Some(0);
      assert Decimal(n)[..0] == "";
    } else {
      DecimalDigits(n / 10);
      assert Decimal(n)[..|Decimal(n)| - 1] == Decimal(n / 10);
    }
  }

  lemma LowerKeepsNumbers(s: string)
    requires forall i | 0 <= i < |s| :: IsDigit(s[i]) || s[i] == '-'
    ensures Lower(s) == s
  {
  }

  lemma SignedNegative(digits: string, n: nat)
    requires digits != "" && Digits(digits) == Some(n) && 0 < n <= I64_MAX + 1
    ensures ParseI64("-" + digits) == Some(0 - n)
  {
    hide Digits;
    var text := "-" + digits;
    assert text[0] == '-' && text[1..] == digits;
  }

  lemma SignedPlain(digits: string, n: nat)
    requires digits != "" && IsDigit(digits[0]) && Digits(digits) == Some(n) && n <= I64_MAX
    ensures ParseI64(digits) == Some(n)
  {
    hide Digits;
  }

  /** Formatting an i64 and parsing it back. */
  lemma ParseFormatted(n: int)
    requires -I64_MAX - 1 <= n <= I64_MAX
    ensures ParseI64(IntText(n)) == Some(n) && Lower(IntText(n)) == IntText(n)
  {
    hide Decimal, Digits, ParseI64, Lower;
    if n < 0 {
      DecimalDigits(0 - n);
      SignedNegative(Decimal(0 - n), 0 - n);
    } else {
      DecimalDigits(n);
      SignedPlain(Decimal(n), n);
    }
    LowerKeepsNumbers(IntText(n));
  }

  lemma PreserveLower()
    ensures Lower(PRESERVE) == PRESERVE && Lower("=") == "=" && Lower("off") == "off"
    ensures |PRESERVE| == 23 && PRESERVE[2] == 'p'
  {
  }

  lemma {:induction false} DigitsAre(s: string)
    ensures Digits(s).Some? <==> forall i | 0 <= i < |s| :: IsDigit(s[i])
  {
    if s == "" {
    } else {
      DigitsAre(s[..|s| - 1]);
      assert forall i | 0 <= i < |s| - 1 :: s[i] == s[..|s| - 1][i];
    }
  }

  /** An optional sign and digits, nothing else. */
  predicate WrittenAs(s: string, negative: bool, digits: string) {
    && digits != "" && (forall i | 0 <= i < |digits| :: IsDigit(digits[i]))
    && if negative then s == "-" + digits else s == digits || s == "+" + digits
  }

  function ValueOf(negative: bool, digits: string): int
    requires forall i | 0 <= i < |digits| :: IsDigit(digits[i])
  {
    DigitsAre(digits);
    if negative then 0 - Digits(digits).value as int else Digits(digits).value
  }

  predicate IsI64(n: int) {
    -0x8000_0000_0000_0000 <= n < 0x8000_0000_0000_0000
  }

  /** Exactly the texts of 64-bit integers are parsed, each to its value. */
  lemma ParsedIntegers(s: string, n: int)
    ensures ParseI64(s) == Some(n) <==>
      IsI64(n) && exists negative, digits :: WrittenAs(s, negative, digits) && ValueOf(negative, digits) == n
  {
    hide Digits;
    if ParseI64(s) == Some(n) {
      var negative := s[0] == '-';
      var digits := if s[0] == '-' || s[0] == '+' then s[1..] else s;
      DigitsAre(digits);
      assert s[0] == '-' ==> s == "-" + digits;
      assert s[0] == '+' ==> s == "+" + digits;
      assert WrittenAs(s, negative, digits) && ValueOf(negative, digits) == n;
    }
    if negative, digits :| WrittenAs(s, negative, digits) && ValueOf(negative, digits) == n && IsI64(n) {
      DigitsAre(digits);
      assert IsDigit(digits[0]);
      assert negative ==> s[0] == '-' && s[1..] == digits;
      assert !negative && s != digits ==> s[0] == '+' && s[1..] == digits;
    }
  }

  predicate IsMode(f: Flag) {
    f.Help? || f.Version? || f.ListComponents? || f.Menu? || f.NoMenu? || f.Execute? || f.DryRun?
    || f.AllowAdminFallback? || f.NoTiRelaunch? || f.TiChild?
  }

  predicate IsAction(f: Flag) {
    f.KillLockers? || f.DisableServices? || f.DeleteServices? || f.DisableTasks? || f.NoDisableTasks?
    || f.DeleteTasks? || f.ScheduleRebootDelete? || f.TakeOwnership?
  }

  predicate IsInclude(f: Flag) {
    f.IncludeNgx? || f.IncludeHdAudio? || f.IncludePhysx? || f.IncludeNotebookOptimus?
    || f.IncludeVirtualAudio? || f.IncludeNvwmi? || f.IncludeCaptureSdk? || f.IncludeAnsel?
  }

  lemma ModeSpelled(f: Flag)
    requires IsMode(f)
    ensures ModeFlag(Spelling(f)) == Some(f)
  {
  }

  lemma ModeLower(f: Flag)
    requires IsMode(f)
    ensures Lower(Spelling(f)) == Spelling(f)
  {
  }

  predicate IsServiceFlag(f: Flag) {
    f.DisableServices? || f.DeleteServices?
  }

  predicate IsTaskFlag(f: Flag) {
    f.DisableTasks? || f.NoDisableTasks? || f.DeleteTasks?
  }

  predicate IsFileFlag(f: Flag) {
    f.KillLockers? || f.ScheduleRebootDelete? || f.TakeOwnership?
  }

  /** Most switches are told from the mode switches by their length alone. */
  lemma LengthIsNoMode(low: string)
    requires |low| > 10 && |low| !in {16, 17, 22}
    ensures ModeFlag(low) == None
  {
  }

  lemma ThirdIsNoMode(low: string)
    requires |low| > 8 && low[2] != 'v' && low[2] != 'l' && low[2] != 'n' && low[2] != 'e' && low[2] != 'd'
    requires low[2] != 'a' && low[2] != 't'
    ensures ModeFlag(low) == None
  {
  }

  lemma LongIsNoMode(low: string)
    requires |low| in {16, 17} && low[2] in {'d', 't'}
    ensures ModeFlag(low) == None
  {
  }

  lemma ThirdIsNoAction(low: string)
    requires |low| > 2 && low[2] != 'k' && low[2] != 'd' && low[2] != 'n' && low[2] != 's' && low[2] != 't'
    ensures ActionFlag(low) == None
  {
  }

  lemma ShortIsNoAction(low: string)
    requires |low| < 14
    ensures ActionFlag(low) == None
  {
  }

  lemma NotIncluded(low: string)
    requires |low| > 2 && low[2] != 'i'
    ensures IncludeFlag(low) == None
  {
  }

  lemma ServiceSpelled(f: Flag)
    requires IsServiceFlag(f)
    ensures ActionFlag(Spelling(f)) == Some(f)
  {
  }

  lemma TaskSpelled(f: Flag)
    requires IsTaskFlag(f)
    ensures ActionFlag(Spelling(f)) == Some(f)
  {
  }

  lemma FileSpelled(f: Flag)
    requires IsFileFlag(f)
    ensures ActionFlag(Spelling(f)) == Some(f)
  {
  }

  lemma ActionLengths(f: Flag)
    requires IsAction(f)
    ensures |Spelling(f)| > 10
    ensures |Spelling(f)| !in {16, 17, 22} || (|Spelling(f)| in {16, 17} && Spelling(f)[2] in {'d', 't'})
  {
  }

  lemma ActionIsNoMode(f: Flag)
    requires IsAction(f)
    ensures ModeFlag(Spelling(f)) == None
  {
    hide Spelling, ModeFlag;
    ActionLengths(f);
    if |Spelling(f)| in {16, 17} {
      LongIsNoMode(Spelling(f));
    } else {
      LengthIsNoMode(Spelling(f));
    }
  }

  lemma ActionSpelled(f: Flag)
    requires IsAction(f)
    ensures ModeFlag(Spelling(f)) == None && ActionFlag(Spelling(f)) == Some(f)
  {
    hide Spelling, ModeFlag, ActionFlag;
    ActionIsNoMode(f);
    if IsServiceFlag(f) {
      ServiceSpelled(f);
    } else if IsTaskFlag(f) {
      TaskSpelled(f);
    } else {
      FileSpelled(f);
    }
  }

  lemma ServiceLower(f: Flag)
    requires IsServiceFlag(f)
    ensures Lower(Spelling(f)) == Spelling(f)
  {
  }

  lemma TaskLower(f: Flag)
    requires IsTaskFlag(f)
    ensures Lower(Spelling(f)) == Spelling(f)
  {
  }

  lemma FileLower(f: Flag)
    requires IsFileFlag(f)
    ensures Lower(Spelling(f)) == Spelling(f)
  {
  }

  lemma ActionLower(f: Flag)
    requires IsAction(f)
    ensures Lower(Spelling(f)) == Spelling(f)
  {
    hide Spelling, Lower;
    if IsServiceFlag(f) {
      ServiceLower(f);
    } else if IsTaskFlag(f) {
      TaskLower(f);
    } else {
      FileLower(f);
    }
  }

  predicate IsAudioFlag(f: Flag) {
    f.IncludeHdAudio? || f.IncludeVirtualAudio?
  }

  predicate IsCaptureFlag(f: Flag) {
    f.IncludeCaptureSdk? || f.IncludeAnsel?
  }

  predicate IsGraphicsFlag(f: Flag) {
    f.IncludeNgx? || f.IncludePhysx?
  }

  predicate IsSystemFlag(f: Flag) {
    f.IncludeNotebookOptimus? || f.IncludeNvwmi?
  }

  lemma AudioSpelled(f: Flag)
    requires IsAudioFlag(f)
    ensures IncludeFlag(Spelling(f)) == Some(f) && |Spelling(f)| > 8 && Spelling(f)[2] == 'i'
  {
  }

  lemma CaptureSpelled(f: Flag)
    requires IsCaptureFlag(f)
    ensures IncludeFlag(Spelling(f)) == Some(f) && |Spelling(f)| > 8 && Spelling(f)[2] == 'i'
  {
  }

  lemma GraphicsSpelled(f: Flag)
    requires IsGraphicsFlag(f)
    ensures IncludeFlag(Spelling(f)) == Some(f) && |Spelling(f)| > 8 && Spelling(f)[2] == 'i'
  {
  }

  lemma SystemSpelled(f: Flag)
    requires IsSystemFlag(f)
    ensures IncludeFlag(Spelling(f)) == Some(f) && |Spelling(f)| > 8 && Spelling(f)[2] == 'i'
  {
  }

  lemma IncludeSpelled(f: Flag)
    requires IsInclude(f)
    ensures IncludeFlag(Spelling(f)) == Some(f) && |Spelling(f)| > 8 && Spelling(f)[2] == 'i'
  {
    hide Spelling, IncludeFlag;
    if IsAudioFlag(f) {
      AudioSpelled(f);
    } else if IsCaptureFlag(f) {
      CaptureSpelled(f);
    } else if IsGraphicsFlag(f) {
      GraphicsSpelled(f);
    } else {
      SystemSpelled(f);
    }
  }

  lemma AudioLower(f: Flag)
    requires IsAudioFlag(f)
    ensures Lower(Spelling(f)) == Spelling(f)
  {
  }

  lemma CaptureLower(f: Flag)
    requires IsCaptureFlag(f)
    ensures Lower(Spelling(f)) == Spelling(f)
  {
  }

  lemma GraphicsLower(f: Flag)
    requires IsGraphicsFlag(f)
    ensures Lower(Spelling(f)) == Spelling(f)
  {
  }

  lemma SystemLower(f: Flag)
    requires IsSystemFlag(f)
    ensures Lower(Spelling(f)) == Spelling(f)
  {
  }

  lemma IncludeLower(f: Flag)
    requires IsInclude(f)
    ensures Lower(Spelling(f)) == Spelling(f)
  {
    hide Spelling, Lower;
    if IsAudioFlag(f) {
      AudioLower(f);
    } else if IsCaptureFlag(f) {
      CaptureLower(f);
    } else if IsGraphicsFlag(f) {
      GraphicsLower(f);
    } else {
      SystemLower(f);
    }
  }

  predicate IsConsole(f: Flag) {
    f.NoPause? || f.Pause? || f.NoColor?
  }

  lemma ConsoleLower(f: Flag)
    requires IsConsole(f)
    ensures Lower(Spelling(f)) == Spelling(f)
  {
  }

  lemma ConsoleIs(f: Flag)
    requires IsConsole(f)
    ensures ConsoleFlag(Spelling(f)) == Some(f)
  {
  }

  lemma ConsoleShape(f: Flag)
    requires IsConsole(f)
    ensures |Spelling(f)| in {7, 10} && Spelling(f)[2] in {'n', 'p'}
  {
  }

  lemma ShapeIsNoMode(low: string)
    requires |low| in {7, 10} && low[2] in {'n', 'p'}
    ensures ModeFlag(low) == None
  {
  }

  lemma ConsoleSpelled(f: Flag)
    requires IsConsole(f)
    ensures FlagOf(Lower(Spelling(f))) == Some(f)
  {
    hide Spelling, Lower, ModeFlag, ActionFlag, IncludeFlag, ConsoleFlag;
    ConsoleLower(f);
    ConsoleIs(f);
    ConsoleShape(f);
    ShapeIsNoMode(Spelling(f));
    ShortIsNoAction(Spelling(f));
    NotIncluded(Spelling(f));
  }

  /** Every flag is read back from its spelling. */
  lemma FlagSpelled(f: Flag)
    ensures FlagOf(Lower(Spelling(f))) == Some(f)
  {
    hide Spelling, Lower, ModeFlag, ActionFlag, IncludeFlag, ConsoleFlag;
    if IsMode(f) {
      ModeSpelled(f);
      ModeLower(f);
    } else if IsAction(f) {
      ActionSpelled(f);
      ActionLower(f);
    } else if IsInclude(f) {
      IncludeSpelled(f);
      IncludeLower(f);
      ThirdIsNoMode(Spelling(f));
      ThirdIsNoAction(Spelling(f));
    } else {
      ConsoleSpelled(f);
    }
  }
}
