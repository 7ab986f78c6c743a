/** The name of the event over which a launcher relays an abort request, and the
    check the elevated child makes before it looks at an event of that name. */
module Relay {
  import opened Text

  const PREFIX := "Local\\RustyButterKnife_Abort_"

  /** Lowercase hexadecimal, without leading zeros. */
  function Hex(n: nat): string {
    if n < 16 then [HexDigit(n)] else Hex(n / 16) + [HexDigit(n % 16)]
  }

  /** now_unique_suffix behind the fixed prefix. */
  function RelayName(pid: nat, mixed: nat): string {
    PREFIX + (Hex(pid) + ("-" + Hex(mixed)))
  }

  /** validated_abort_event. */
  predicate Validated(raw: string) {
    && PREFIX <= raw && |raw| > |PREFIX|
    && forall i | |PREFIX| <= i < |raw| :: IsHexDigit(raw[i]) || raw[i] == '-'
  }

  lemma {:induction false} HexIsHex(n: nat)
    ensures Hex(n) != "" && forall i | 0 <= i < |Hex(n)| :: IsHexDigit(Hex(n)[i])
  {
    if n < 16 {
    } else {
      HexIsHex(n / 16);
    }
  }

  /** Every name a launcher generates passes the child's check. */
  lemma RelayNameIsValid(pid: nat, mixed: nat)
    ensures Validated(RelayName(pid, mixed))
  {
    HexIsHex(pid);
    HexIsHex(mixed);
    var suffix := Hex(pid) + ("-" + Hex(mixed));
    assert forall i | 0 <= i < |suffix| :: IsHexDigit(suffix[i]) || suffix[i] == '-';
    assert forall i | |PREFIX| <= i < |RelayName(pid, mixed)| :: RelayName(pid, mixed)[i] == suffix[i - |PREFIX|];
  }

  /** What passes names an event of this session and of this program: nothing behind the
      prefix could lead into another namespace. */
  lemma ValidatedIsOurs(raw: string)
    requires Validated(raw)
    ensures exists suffix :: raw == PREFIX + suffix && suffix != "" && IsOurs(suffix)
  {
    var suffix := raw[|PREFIX|..];
    assert raw == PREFIX + suffix;
    forall i | 0 <= i < |suffix|
      ensures IsHexDigit(suffix[i]) || suffix[i] == '-'
    {
      assert suffix[i] == raw[|PREFIX| + i];
    }
    assert IsOurs(suffix);
  }

  /** No separator and no other character that means something in an object's name. */
  predicate IsOurs(suffix: string) {
    '\\' !in suffix && '/' !in suffix && ':' !in suffix && forall c | c in suffix :: c == '-' || IsHexDigit(c)
  }

  /** And everything of that form passes. */
  lemma OursIsValidated(suffix: string)
    requires suffix != "" && IsOurs(suffix)
    ensures Validated(PREFIX + suffix)
  {
    var raw := PREFIX + suffix;
    assert forall i | |PREFIX| <= i < |raw| :: raw[i] == suffix[i - |PREFIX|] && raw[i] in suffix;
  }

  lemma DigitsDiffer(a: nat, b: nat)
    requires a < 16 && b < 16 && HexDigit(a) == HexDigit(b)
    ensures a == b
  {
  }

  lemma SameLength(a: nat, b: nat)
    requires Hex(a) == Hex(b)
    ensures a < 16 <==> b < 16
    ensures HexDigit(a % 16) == HexDigit(b % 16)
    ensures a >= 16 ==> Hex(a / 16) == Hex(b / 16)
  {
    HexIsHex(a / 16);
    HexIsHex(b / 16);
    var x, y := Hex(a), Hex(b);
    assert x[|x| - 1] == HexDigit(a % 16) && y[|y| - 1] == HexDigit(b % 16);
    if a >= 16 && b >= 16 {
      assert Hex(a / 16) == x[..|x| - 1] && Hex(b / 16) == y[..|y| - 1];
    }
  }

  lemma {:induction false} HexDiffer(a: nat, b: nat)
    requires Hex(a) == Hex(b)
    ensures a == b
  {
    SameLength(a, b);
    assert a % 16 == b % 16 by {
      DigitsDiffer(a % 16, b % 16);
    }
    if a >= 16 {
      HexDiffer(a / 16, b / 16);
    }
  }

  lemma SameHead(a: string, b: string, c: string, d: string)
    requires a + ("-" + b) == c + ("-" + d) && '-' !in a && '-' !in c
    ensures a == c
  {
    var s := a + ("-" + b);
    assert s[|a|] == '-' && s[|c|] == '-';
    assert forall k | 0 <= k < |a| :: a[k] != '-' && s[k] == a[k];
    assert forall k | 0 <= k < |c| :: c[k] != '-' && s[k] == c[k];
    assert |a| == |c|;
    assert s[..|a|] == a && s[..|c|] == c;
  }

  /** Launchers that exist at the same time never share a name. */
  lemma RelayNamesDiffer(pid: nat, mixed: nat, pid': nat, mixed': nat)
    requires RelayName(pid, mixed) == RelayName(pid', mixed')
    ensures pid == pid'
  {
    var a, b := Hex(pid) + ("-" + Hex(mixed)), Hex(pid') + ("-" + Hex(mixed'));
    assert RelayName(pid, mixed)[|PREFIX|..] == a && RelayName(pid', mixed')[|PREFIX|..] == b;
    HexIsHex(pid);
    HexIsHex(pid');
    SameHead(Hex(pid), Hex(mixed), Hex(pid'), Hex(mixed'));
    HexDiffer(pid, pid');
  }
}
