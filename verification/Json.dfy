/** JSON strings as the program writes them, and its reader for the status
    document, which looks for a quoted key anywhere in the text. */
module Json {
  import opened Basics
  import opened Text

  // ---- escaping ----

  function EscapeChar(c: char): string {
    if c == '\\' then "\\\\"
    else if c == '"' then "\\\""
    else if c == 8 as char then "\\b"
    else if c == 12 as char then "\\f"
    else if c == '\n' then "\\n"
    else if c == '\r' then "\\r"
    else if c == '\t' then "\\t"
    else if c as int < 0x20 then ['\\', 'u', '0', '0', HexDigit(c as int / 16), HexDigit(c as int % 16)]
    else [c]
  }

  function Escape(s: string): string {
    if s == "" then "" else EscapeChar(s[0]) + Escape(s[1..])
  }

  /** json_escape. */
  method JsonEscape(input: string) returns (out: string)
    ensures out == Escape(input)
  {
    out := "";
    assert input[0..] == input;
    for i := 0 to |input|
      invariant out + Escape(input[i..]) == Escape(input)
    {
      EscapeNext(input, i, out);
      out := out + EscapeChar(input[i]);
    }
    assert input[|input|..] == "";
  }

  lemma EscapeNext(s: string, i: nat, out: string)
    requires i < |s|
    ensures out + Escape(s[i..]) == (out + EscapeChar(s[i])) + Escape(s[i + 1..])
  {
    assert s[i..][1..] == s[i + 1..];
  }

  /** The characters of a string in section 7 of RFC 8259: unescaped ones and
      two- or six-character escapes. */
  predicate JsonChars(s: string)
    decreases |s|
  {
    if s == "" then true
    else if s[0] != '\\' then s[0] as int >= 0x20 && s[0] != '"' && JsonChars(s[1..])
    else if |s| < 2 then false
    else if s[1] in "\"\\/bfnrt" then JsonChars(s[2..])
    else s[1] == 'u' && |s| >= 6 && (forall i | 2 <= i < 6 :: IsHexDigit(s[i])) && JsonChars(s[6..])
  }

  lemma HexDigits(c: char)
    requires c as int < 0x20
    ensures IsHexDigit(HexDigit(c as int / 16)) && IsHexDigit(HexDigit(c as int % 16))
  {
  }

  lemma EscapedCharIsJson(c: char, rest: string)
    requires JsonChars(rest)
    ensures JsonChars(EscapeChar(c) + rest)
  {
    var e := EscapeChar(c);
    if c as int < 0x20 && |e| == 6 {
      HexDigits(c);
      assert (e + rest)[6..] == rest;
    } else if |e| == 2 {
      assert (e + rest)[2..] == rest;
    } else {
      assert (e + rest)[1..] == rest;
    }
  }

  /** Every escaped text is a sequence of JSON string characters: no bare quote,
      no control character, no unfinished escape. */
  lemma {:induction false} EscapedIsJson(s: string)
    ensures JsonChars(Escape(s))
  {
    if s == "" {
    } else {
      EscapedIsJson(s[1..]);
      EscapedCharIsJson(s[0], Escape(s[1..]));
    }
  }

  // ---- reading a string ----

  function HexValue(c: char): Option<nat> {
    if '0' <= c <= '9' then Some(c as int - '0' as int)
    else if 'a' <= c <= 'f' then Some(c as int - 'a' as int + 10)
    else if 'A' <= c <= 'F' then Some(c as int - 'A' as int + 10)
    else None
  }

  function Digits(s: string): Option<nat> {
    if s == "" then Some(0)
    else
      var high, low := Digits(s[..|s| - 1]), HexValue(s[|s| - 1]);
      if high.None? || low.None? then None else Some(high.value * 16 + low.value)
  }

  /** u32::from_str_radix(s, 16) for at most four characters: one sign is allowed. */
  function ParseHex(s: string): Option<nat> {
    var digits := if s != "" && s[0] == '+' then s[1..] else s;
    if digits == "" then None else Digits(digits)
  }

  /** char::from_u32. */
  function CharOf(n: nat): string {
    if n < 0xD800 || 0xE000 <= n < 0x11_0000 then [n as char] else ""
  }

  function Unicode(hex: string): string {
    var v := ParseHex(hex);
    if v.None? then "" else CharOf(v.value)
  }

  /** What the character after a backslash stands for, `u` aside. */
  function Unescaped(c: char): char {
    if c == 'b' then 8 as char
    else if c == 'f' then 12 as char
    else if c == 'n' then '\n'
    else if c == 'r' then '\r'
    else if c == 't' then '\t'
    else c
  }

  /** One step inside a string: what it adds and how many characters it takes. */
  function Step(s: string): (r: (string, nat))
    requires s != ""
    ensures 0 < r.1 <= |s|
  {
    if s[0] == '\\' && |s| > 1 then
      if s[1] != 'u' then ([Unescaped(s[1])], 2)
      else if |s| > 5 then (Unicode(s[2..6]), 6)
      else ("", 2)
    else ([s[0]], 1)
  }

  /** The string that ends at the first quote no backslash escapes. */
  function Unescape(s: string): string
    decreases |s|
  {
    if s == "" || s[0] == '"' then "" else Step(s).0 + Unescape(s[Step(s).1..])
  }

  lemma UnescapeOne(s: string, piece: string, n: nat, tail: string)
    requires s != "" && s[0] != '"' && Step(s) == (piece, n) && s[n..] == tail
    ensures Unescape(s) == piece + Unescape(tail)
  {
  }

  lemma UnicodeOfControl(c: char)
    requires c as int < 0x20
    ensures Unicode(['0', '0', HexDigit(c as int / 16), HexDigit(c as int % 16)]) == [c]
  {
    var h, l := HexDigit(c as int / 16), HexDigit(c as int % 16);
    assert HexValue(h) == Some(c as int / 16) && HexValue(l) == Some(c as int % 16);
    assert Digits(['0']) == Some(0) by {
      assert ['0'][..0] == "";
    }
    assert Digits(['0', '0']) == Some(0) by {
      assert ['0', '0'][..1] == ['0'];
    }
    assert Digits(['0', '0', h]) == Some(c as int / 16) by {
      assert ['0', '0', h][..2] == ['0', '0'];
    }
    assert Digits(['0', '0', h, l]) == Some(c as int) by {
      assert ['0', '0', h, l][..3] == ['0', '0', h];
    }
  }

  lemma UnescapeEscapedChar(c: char, tail: string)
    ensures Unescape(EscapeChar(c) + tail) == [c] + Unescape(tail)
  {
    var e := EscapeChar(c);
    var s := e + tail;
    assert s[|e|..] == tail;
    if |e| == 6 {
      UnicodeOfControl(c);
      assert s[2..6] == ['0', '0', HexDigit(c as int / 16), HexDigit(c as int % 16)];
    }
    UnescapeOne(s, [c], |e|, tail);
  }

  /** Reading an escaped string up to its closing quote gives it back. */
  lemma {:induction false} UnescapeEscape(v: string, rest: string)
    ensures Unescape(Escape(v) + ("\"" + rest)) == v
  {
    if v == "" {
    } else {
      var tail := Escape(v[1..]) + ("\"" + rest);
      assert Escape(v) + ("\"" + rest) == EscapeChar(v[0]) + tail;
      UnescapeEscapedChar(v[0], tail);
      UnescapeEscape(v[1..], rest);
    }
  }
}
