/** The status document a run leaves behind, and the reader that looks in it for
    a quoted key: what the reader returns for every document, and for which
    documents that is what was written. */
module StatusFile {
  import opened Basics
  import opened Text
  import opened Json

  // ---- the reader ----

  /** char::is_whitespace. */
  predicate IsWhitespace(c: char) {
    var n := c as int;
    || 9 <= n <= 13 || n == 0x20 || n == 0x85 || n == 0xA0 || n == 0x1680 || 0x2000 <= n <= 0x200A
    || n == 0x2028 || n == 0x2029 || n == 0x202F || n == 0x205F || n == 0x3000
  }

  function SkipWhitespace(s: string): string {
    if s != "" && IsWhitespace(s[0]) then SkipWhitespace(s[1..]) else s
  }

  /** What stands behind the opening quote of the string the reader settles on: the
      one behind the first colon behind the first occurrence of the needle; when
      no string stands there, it looks on. */
  function Opened(s: string, needle: string): Option<string>
    requires needle != ""
    decreases |s|
  {
    var a := After(s, needle);
    if a.None? then None
    else
      var b := After(a.value, [':']);
      if b.None? then None
      else
        var rest := SkipWhitespace(b.value);
        if rest != "" && rest[0] == '"' then Some(rest[1..]) else Opened(b.value, needle)
  }

  function Read(s: string, needle: string): string
    requires needle != ""
  {
    var text := Opened(s, needle);
    if text.None? then "" else Unescape(text.value)
  }

  function Needle(key: string): string {
    "\"" + (key + "\"")
  }

  // ---- documents ----

  datatype Value = Quoted(text: string) | Number(digits: string)
  datatype Field = Field(key: string, value: Value)

  function ValueText(v: Value, rest: string): string {
    if v.Quoted? then "\"" + (Escape(v.text) + ("\"" + rest)) else v.digits + rest
  }

  function Rest(fields: seq<Field>): string
    decreases |fields|, 1
  {
    if fields == [] then "\n}\n" else ",\n" + FieldsText(fields)
  }

  function FieldsText(fields: seq<Field>): string
    requires fields != []
    decreases |fields|, 0
  {
    "  " + ("\"" + (fields[0].key + ("\"" + (": " + ValueText(fields[0].value, Rest(fields[1..]))))))
  }

  function Document(fields: seq<Field>): string
    requires fields != []
  {
    "{\n" + FieldsText(fields)
  }

  predicate Letter(c: char) {
    'a' <= c <= 'z' || 'A' <= c <= 'Z'
  }

  predicate Letters(s: string) {
    forall c | c in s :: Letter(c)
  }

  predicate IsNumber(s: string) {
    s != "" && forall c | c in s :: c == '-' || '0' <= c <= '9'
  }

  predicate PlainField(f: Field) {
    f.key != "" && Letters(f.key) && (f.value.Number? ==> IsNumber(f.value.digits))
  }

  predicate Plain(fields: seq<Field>) {
    forall f | f in fields :: PlainField(f)
  }

  /** Values in whose quoted text the quoted key occurs. */
  predicate Echoes(v: Value, key: string) {
    v.Quoted? && (v.text == key || EndsWith(v.text, "\"" + key))
  }

  /** What stands at the first field's colon; past a number the search goes on. */
  function AtValue(fields: seq<Field>, key: string): string
    requires fields != []
    decreases |fields|, 0
  {
    if fields[0].value.Quoted? then fields[0].value.text else Lookup(fields[1..], key)
  }

  /** What reading a key returns: the value of its field, unless an earlier value
      echoes the key, which stands for the key of the field behind it. */
  function Lookup(fields: seq<Field>, key: string): string
    decreases |fields|, 1
  {
    if fields == [] then ""
    else if fields[0].key == key then AtValue(fields, key)
    else if !Echoes(fields[0].value, key) then Lookup(fields[1..], key)
    else if |fields| == 1 then ""
    else AtValue(fields[1..], key)
  }

  // ---- where the needle occurs ----

  lemma {:induction false} AfterPlain(a: string, b: string, sub: string)
    requires sub != "" && sub[0] !in a
    ensures After(a + b, sub) == After(b, sub)
  {
    if a == "" {
      assert a + b == b;
    } else {
      assert a[0] in a;
      assert (a + b)[1..] == a[1..] + b;
      AfterPlain(a[1..], b, sub);
    }
  }

  lemma NeedleIs(key: string)
    ensures Needle(key)[0] == '"' && Needle(key)[1..] == key + "\""
  {
  }

  /** At a quote, the needle occurs or not; if not, the search goes on behind it. */
  lemma AtQuote(key: string, t: string)
    ensures key + "\"" <= t ==> After("\"" + t, Needle(key)) == Some(t[|key| + 1..])
    ensures !(key + "\"" <= t) ==> After("\"" + t, Needle(key)) == After(t, Needle(key))
  {
    var s := "\"" + t;
    assert s[1..] == t;
    if Needle(key) <= s {
      assert s[..|key| + 2][1..] == t[..|key| + 1];
      NeedleIs(key);
    }
    if key + "\"" <= t {
      assert s == Needle(key) + t[|key| + 1..];
    }
  }

  lemma {:induction false} SameKey(key: string, other: string, t: string)
    requires Letters(key) && Letters(other)
    ensures key + "\"" <= other + ("\"" + t) <==> key == other
    ensures (other + ("\"" + t))[|other| + 1..] == t
  {
    PlainIsItsEscape(other);
    SameText(key, other, t);
  }

  lemma SameHead(c: char, a: string, b: string)
    ensures [c] + a <= [c] + b <==> a <= b
  {
    assert ([c] + a)[1..] == a && ([c] + b)[1..] == b;
    if [c] + a <= [c] + b {
      assert ([c] + b)[..|a| + 1][1..] == b[..|a|];
    }
  }

  // ---- the needle in escaped text ----

  lemma EscapeStarts(v: string, k: char)
    requires v != "" && Letter(k)
    ensures Escape(v) != "" && Escape(v)[0] != '"' && (Escape(v)[0] == k <==> v[0] == k)
    ensures v[0] == k ==> Escape(v) == [k] + Escape(v[1..])
  {
  }

  /** Escaped text begins with a key and a quote only when the text is the key. */
  lemma {:induction false} SameText(key: string, v: string, t: string)
    requires Letters(key)
    ensures key + "\"" <= Escape(v) + ("\"" + t) <==> key == v
    decreases |key|
  {
    if v == "" || key == "" {
      SameTextEmpty(key, v, t);
    } else {
      assert key[0] in key;
      EscapeStarts(v, key[0]);
      if key[0] == v[0] {
        SameText(key[1..], v[1..], t);
        SameHeads(key, key[1..] + "\"", v, Escape(v), Escape(v[1..]), "\"" + t);
      } else {
        assert (key + "\"")[0] != (Escape(v) + ("\"" + t))[0];
      }
    }
  }

  lemma SameTextEmpty(key: string, v: string, t: string)
    requires Letters(key) && (v == "" || key == "")
    ensures key + "\"" <= Escape(v) + ("\"" + t) <==> key == v
  {
    if key != "" {
      assert key[0] in key;
      assert (key + "\"")[0] != (Escape(v) + ("\"" + t))[0];
    } else if v != "" {
      EscapeStarts(v, 'a');
      assert (key + "\"")[0] != (Escape(v) + ("\"" + t))[0];
    }
  }

  lemma SameHeads(key: string, a: string, v: string, e: string, e': string, t: string)
    requires key != "" && v != "" && key[0] == v[0] && a == key[1..] + "\"" && e == [key[0]] + e'
    ensures key + "\"" <= e + t <==> a <= e' + t
    ensures key == v <==> key[1..] == v[1..]
  {
    SameHead(key[0], a, e' + t);
    Assoc([key[0]], key[1..], "\"");
    Assoc([key[0]], e', t);
    assert key == [key[0]] + key[1..] && v == [v[0]] + v[1..];
  }

  lemma {:induction false} PlainIsItsEscape(v: string)
    requires Letters(v)
    ensures Escape(v) == v
  {
    if v == "" {
    } else {
      assert v[0] in v;
      EscapeStarts(v, v[0]);
      PlainIsItsEscape(v[1..]);
      assert v == [v[0]] + v[1..];
    }
  }

  lemma EndsWithStep(v: string, suffix: string)
    requires suffix != "" && v != ""
    ensures EndsWith(v, suffix) <==> v == suffix || EndsWith(v[1..], suffix)
  {
    if |suffix| <= |v| - 1 {
      assert v[1..][|v| - 1 - |suffix|..] == v[|v| - |suffix|..];
    }
  }

  lemma AfterOther(c: char, key: string, tail: string)
    requires c != '"'
    ensures After(EscapeChar(c) + tail, Needle(key)) == After(tail, Needle(key))
  {
    NeedleIs(key);
    AfterPlain(EscapeChar(c), tail, Needle(key));
  }

  lemma AfterQuote(v: string, key: string, t: string)
    requires Letters(key)
    ensures var tail := Escape(v) + ("\"" + t);
      After("\\\"" + tail, Needle(key)) == if v == key then Some(t) else After(tail, Needle(key))
  {
    var tail := Escape(v) + ("\"" + t);
    assert "\\\"" + tail == "\\" + ("\"" + tail);
    NeedleIs(key);
    AfterPlain("\\", "\"" + tail, Needle(key));
    AtQuote(key, tail);
    SameText(key, v, t);
    if v == key {
      PlainIsItsEscape(key);
      SameKey(key, key, t);
    }
  }

  lemma EndsQuoted(v: string, key: string)
    requires v != ""
    ensures EndsWith(v, "\"" + key) <==> (v[0] == '"' && v[1..] == key) || EndsWith(v[1..], "\"" + key)
  {
    EndsWithStep(v, "\"" + key);
    assert v == [v[0]] + v[1..];
  }

  lemma EscapeSplits(v: string, t: string)
    requires v != ""
    ensures Escape(v) + ("\"" + t) == EscapeChar(v[0]) + (Escape(v[1..]) + ("\"" + t))
  {
    Assoc(EscapeChar(v[0]), Escape(v[1..]), "\"" + t);
  }

  /** The search through a quoted text: it stops behind the text's closing quote
      when the text ends like the key, and else goes on there. */
  lemma {:induction false} AfterEscaped(v: string, key: string, t: string)
    requires key != "" && Letters(key) && t != "" && !Letter(t[0])
    ensures After(Escape(v) + ("\"" + t), Needle(key))
         == if EndsWith(v, "\"" + key) then Some(t) else After(t, Needle(key))
  {
    if v == "" {
      assert key[0] in key;
      assert Escape(v) + ("\"" + t) == "\"" + t;
      AtQuote(key, t);
    } else {
      EscapeSplits(v, t);
      EndsQuoted(v, key);
      AfterEscaped(v[1..], key, t);
      if v[0] == '"' {
        AfterQuote(v[1..], key, t);
      } else {
        AfterOther(v[0], key, Escape(v[1..]) + ("\"" + t));
      }
    }
  }

  // ---- reading a document ----

  /** The reader depends only on what stands behind the needle. */
  lemma SameAfter(s: string, t: string, needle: string)
    requires needle != "" && After(s, needle) == After(t, needle)
    ensures Read(s, needle) == Read(t, needle)
  {
  }

  lemma ReadIs(s: string, needle: string, a: string, b: string)
    requires needle != "" && After(s, needle) == Some(a) && After(a, [':']) == Some(b)
    ensures var rest := SkipWhitespace(b);
      Read(s, needle) == if rest != "" && rest[0] == '"' then Unescape(rest[1..]) else Read(b, needle)
  {
  }

  lemma ReadNothing(s: string, needle: string)
    requires needle != ""
    requires After(s, needle) == None || After(After(s, needle).value, [':']) == None
    ensures Read(s, needle) == ""
  {
  }

  lemma AtColon(rest: string)
    ensures After(": " + rest, [':']) == Some(" " + rest)
  {
    assert (": " + rest)[1..] == " " + rest;
    assert [':'] <= ": " + rest;
  }

  lemma RestStarts(fields: seq<Field>)
    ensures Rest(fields) != "" && !Letter(Rest(fields)[0])
  {
  }

  /** Past one field's value the search goes on with the next field. */
  lemma AfterRest(fields: seq<Field>, key: string)
    requires key != "" && Letters(key)
    ensures After(Rest(fields), Needle(key))
         == if fields == [] then None else After(FieldsText(fields), Needle(key))
  {
    NeedleIs(key);
    if fields == [] {
      AfterPlain("\n}\n", "", Needle(key));
      assert "\n}\n" + "" == "\n}\n";
    } else {
      AfterPlain(",\n", FieldsText(fields), Needle(key));
    }
  }

  /** The search through a value. */
  lemma AfterValue(v: Value, key: string, t: string)
    requires key != "" && Letters(key) && t != "" && !Letter(t[0]) && (v.Number? ==> IsNumber(v.digits))
    ensures After(ValueText(v, t), Needle(key)) == if Echoes(v, key) then Some(t) else After(t, Needle(key))
  {
    if v.Number? {
      NeedleIs(key);
      AfterPlain(v.digits, t, Needle(key));
    } else {
      AtQuote(key, Escape(v.text) + ("\"" + t));
      SameText(key, v.text, t);
      AfterEscaped(v.text, key, t);
      if v.text == key {
        PlainIsItsEscape(key);
        SameKey(key, key, t);
      }
    }
  }

  lemma AfterKey(key: string, other: string, t: string)
    requires key != "" && Letters(key) && Letters(other) && other != ""
    ensures After("  " + ("\"" + (other + ("\"" + (": " + t)))), Needle(key))
         == if key == other then Some(": " + t) else After(t, Needle(key))
  {
    NeedleIs(key);
    var colon := ": " + t;
    var a := other + ("\"" + colon);
    AfterPlain("  ", "\"" + a, Needle(key));
    SameKey(key, other, colon);
    AtQuote(key, a);
    if key != other {
      AfterPlain(other, "\"" + colon, Needle(key));
      assert key[0] in key;
      assert (key + "\"")[0] != colon[0];
      AtQuote(key, colon);
      AfterPlain(": ", t, Needle(key));
    }
  }

  /** Where the search for a key in a document stops. */
  lemma AfterFields(fields: seq<Field>, key: string)
    requires fields != [] && Plain(fields) && key != "" && Letters(key)
    ensures var f, rest := fields[0], fields[1..];
      After(FieldsText(fields), Needle(key))
      == if f.key == key then Some(": " + ValueText(f.value, Rest(rest)))
         else if Echoes(f.value, key) then Some(Rest(rest))
         else if rest == [] then None
         else After(FieldsText(rest), Needle(key))
  {
    var f, rest := fields[0], fields[1..];
    assert PlainField(f) by {
      assert f in fields;
    }
    AfterKey(key, f.key, ValueText(f.value, Rest(rest)));
    RestStarts(rest);
    AfterValue(f.value, key, Rest(rest));
    AfterRest(rest, key);
  }

  /** From the colon of the first field on, the next string is its value, unless
      that is a number. */
  lemma SkipToValue(v: Value, t: string)
    requires v.Number? ==> IsNumber(v.digits)
    ensures SkipWhitespace(" " + ValueText(v, t)) == ValueText(v, t)
    ensures ValueText(v, t) != "" && (ValueText(v, t)[0] == '"' <==> v.Quoted?)
    ensures v.Quoted? ==> Unescape(ValueText(v, t)[1..]) == v.text
  {
    assert (" " + ValueText(v, t))[1..] == ValueText(v, t);
    if v.Quoted? {
      UnescapeEscape(v.text, t);
      assert ValueText(v, t)[1..] == Escape(v.text) + ("\"" + t);
    } else {
      assert v.digits[0] in v.digits;
    }
  }

  lemma ReadAtColon(s: string, a: string, fields: seq<Field>, key: string)
    requires fields != [] && Plain(fields) && key != "" && Letters(key)
    requires After(s, Needle(key)) == Some(a)
    requires After(a, [':']) == Some(" " + ValueText(fields[0].value, Rest(fields[1..])))
    ensures Read(s, Needle(key)) == ReadValue(fields, key)
  {
    var f, t := fields[0], Rest(fields[1..]);
    assert PlainField(f) by {
      assert f in fields;
    }
    SkipToValue(f.value, t);
    ReadIs(s, Needle(key), a, " " + ValueText(f.value, t));
    if f.value.Number? {
      NeedleIs(key);
      AfterPlain(" ", ValueText(f.value, t), Needle(key));
      RestStarts(fields[1..]);
      AfterValue(f.value, key, t);
      SameAfter(" " + ValueText(f.value, t), t, Needle(key));
    }
  }

  lemma ReadRest(fields: seq<Field>, key: string)
    requires key != "" && Letters(key)
    ensures Read(Rest(fields), Needle(key)) == if fields == [] then "" else Read(FieldsText(fields), Needle(key))
  {
    AfterRest(fields, key);
    if fields == [] {
      ReadNothing(Rest(fields), Needle(key));
    } else {
      SameAfter(Rest(fields), FieldsText(fields), Needle(key));
    }
  }

  /** The colon behind an echo is the next field's. */
  lemma ColonOfNext(fields: seq<Field>)
    requires Plain(fields)
    ensures fields == [] ==> After(Rest(fields), [':']) == None
    ensures fields != [] ==>
      After(Rest(fields), [':']) == Some(" " + ValueText(fields[0].value, Rest(fields[1..])))
  {
    if fields == [] {
      AfterPlain("\n}\n", "", [':']);
      assert "\n}\n" + "" == "\n}\n";
    } else {
      assert PlainField(fields[0]) by {
        assert fields[0] in fields;
      }
      var v := ValueText(fields[0].value, Rest(fields[1..]));
      NoColonBefore(fields[0].key, ": " + v);
      AtColon(v);
    }
  }

  lemma NoColonBefore(key: string, t: string)
    requires Letters(key)
    ensures After(",\n" + ("  " + ("\"" + (key + ("\"" + t)))), [':']) == After(t, [':'])
  {
    AfterPlain(",\n", "  " + ("\"" + (key + ("\"" + t))), [':']);
    AfterPlain("  ", "\"" + (key + ("\"" + t)), [':']);
    AfterPlain("\"", key + ("\"" + t), [':']);
    AfterPlain(key, "\"" + t, [':']);
    AfterPlain("\"", t, [':']);
  }

  /** Reading a key goes on behind the colon of its own field, behind the colon of
      the field after an echo, or in the fields behind this one. */
  lemma ReadFirst(fields: seq<Field>, key: string)
    requires fields != [] && Plain(fields) && key != "" && Letters(key)
    ensures var f, rest, r := fields[0], fields[1..], Read(FieldsText(fields), Needle(key));
      && (f.key == key ==> r == ReadValue(fields, key))
      && (f.key != key && Echoes(f.value, key) ==> r == if rest == [] then "" else ReadValue(rest, key))
      && (f.key != key && !Echoes(f.value, key) ==> r == Read(Rest(rest), Needle(key)))
  {
    var f, rest := fields[0], fields[1..];
    var s := FieldsText(fields);
    AfterFields(fields, key);
    AfterRest(rest, key);
    if f.key == key {
      AtColon(ValueText(f.value, Rest(rest)));
      ReadAtColon(s, ": " + ValueText(f.value, Rest(rest)), fields, key);
    } else if Echoes(f.value, key) {
      ColonOfNext(rest);
      if rest == [] {
        ReadNothing(s, Needle(key));
      } else {
        ReadAtColon(s, Rest(rest), rest, key);
      }
    } else {
      SameAfter(s, Rest(rest), Needle(key));
    }
  }

  /** What stands at the first field's colon, past a number what is read behind it. */
  function ReadValue(fields: seq<Field>, key: string): string
    requires fields != []
  {
    if fields[0].value.Quoted? then fields[0].value.text else Read(Rest(fields[1..]), Needle(key))
  }

  /** The reader on any document: it returns what Lookup says. */
  lemma {:induction false} ReadFields(fields: seq<Field>, key: string)
    requires Plain(fields) && key != "" && Letters(key)
    ensures Read(Rest(fields), Needle(key)) == Lookup(fields, key)
    decreases |fields|
  {
    ReadRest(fields, key);
    if fields == [] {
    } else {
      ReadFirst(fields, key);
      ReadFields(fields[1..], key);
      if |fields| > 1 {
        assert fields[1..][1..] == fields[2..];
        ReadFields(fields[2..], key);
      }
    }
  }

  lemma ReadDocument(fields: seq<Field>, key: string)
    requires fields != [] && Plain(fields) && key != "" && Letters(key)
    ensures Read(Document(fields), Needle(key)) == Lookup(fields, key)
  {
    NeedleIs(key);
    AfterPlain("{\n", FieldsText(fields), Needle(key));
    SameAfter(Document(fields), FieldsText(fields), Needle(key));
    ReadRest(fields, key);
    ReadFields(fields, key);
  }

  /** A field whose quoted key is the first occurrence is read back, however the
      colon is spaced and whatever follows. */
  lemma FirstOccurrenceIsRead(s: string, key: string, mid: string, space: string, v: string, rest: string)
    requires ':' !in mid && (forall c | c in space :: IsWhitespace(c))
    requires After(s, Needle(key)) == Some(mid + ([':'] + (space + ValueText(Quoted(v), rest))))
    ensures Read(s, Needle(key)) == v
  {
    var value := ValueText(Quoted(v), rest);
    var tail := [':'] + (space + value);
    AfterPlain(mid, tail, [':']);
    assert tail[1..] == space + value;
    SkipSpace(space, value);
    ReadIs(s, Needle(key), mid + tail, space + value);
    SkipToValue(Quoted(v), rest);
  }

  lemma {:induction false} SkipSpace(space: string, rest: string)
    requires (forall c | c in space :: IsWhitespace(c)) && rest != "" && !IsWhitespace(rest[0])
    ensures SkipWhitespace(space + rest) == rest
  {
    if space == "" {
      assert space + rest == rest;
    } else {
      assert space[0] in space;
      assert (space + rest)[1..] == space[1..] + rest;
      SkipSpace(space[1..], rest);
    }
  }

  // ---- the status document ----

  /** What write_status_json writes, field by field from the last one. */
  datatype Status = Status(version: string, runId: string, exitCode: string, status: string, detail: string,
                           logPath: string)
  {
    function Path(): seq<Field> {
      [Field("logPath", Quoted(logPath))]
    }

    function FromDetail(): seq<Field> {
      [Field("detail", Quoted(detail))] + Path()
    }

    function FromStatus(): seq<Field> {
      [Field("status", Quoted(status))] + FromDetail()
    }

    function FromCode(): seq<Field> {
      [Field("exitCode", Number(exitCode))] + FromStatus()
    }

    function FromRun(): seq<Field> {
      [Field("runId", Quoted(runId))] + FromCode()
    }

    function Fields(): seq<Field> {
      [Field("version", Quoted(version))] + FromRun()
    }

    predicate Valid() {
      IsNumber(exitCode) && forall c | c in version :: c == '.' || '0' <= c <= '9'
    }
  }

  lemma PlainCons(f: Field, rest: seq<Field>)
    requires PlainField(f) && Plain(rest)
    ensures Plain([f] + rest)
  {
  }

  lemma KeysArePlain()
    ensures Letters("version") && Letters("runId") && Letters("exitCode")
    ensures Letters("status") && Letters("detail") && Letters("logPath")
  {
  }

  lemma StatusIsPlain(s: Status)
    requires s.Valid()
    ensures Plain(s.Fields())
  {
    KeysArePlain();
    PlainCons(Field("logPath", Quoted(s.logPath)), []);
    assert s.Path() == s.Path() + [];
    PlainCons(Field("detail", Quoted(s.detail)), s.Path());
    PlainCons(Field("status", Quoted(s.status)), s.FromDetail());
    PlainCons(Field("exitCode", Number(s.exitCode)), s.FromStatus());
    PlainCons(Field("runId", Quoted(s.runId)), s.FromCode());
    PlainCons(Field("version", Quoted(s.version)), s.FromRun());
  }

  lemma LookupCons(f: Field, rest: seq<Field>, key: string)
    ensures f.key == key ==>
      Lookup([f] + rest, key) == if f.value.Quoted? then f.value.text else Lookup(rest, key)
    ensures f.key != key && !Echoes(f.value, key) ==> Lookup([f] + rest, key) == Lookup(rest, key)
    ensures f.key != key && Echoes(f.value, key) ==>
      Lookup([f] + rest, key) == if rest == [] then "" else AtValue(rest, key)
  {
    assert ([f] + rest)[1..] == rest;
  }

  lemma AtValueCons(f: Field, rest: seq<Field>, key: string)
    ensures AtValue([f] + rest, key) == if f.value.Quoted? then f.value.text else Lookup(rest, key)
  {
    assert ([f] + rest)[1..] == rest;
  }

  lemma EndsQuotedHasQuote(v: string, key: string)
    ensures EndsWith(v, "\"" + key) ==> '"' in v
  {
    if EndsWith(v, "\"" + key) {
      assert v[|v| - |key| - 1..][0] == '"';
    }
  }

  lemma VersionIsNoEcho(version: string, key: string)
    requires forall c | c in version :: c == '.' || '0' <= c <= '9'
    requires key != "" && Letters(key)
    ensures !Echoes(Quoted(version), key)
  {
    assert key[0] in key;
    EndsQuotedHasQuote(version, key);
  }

  lemma LookupStatus(s: Status)
    ensures Lookup(s.FromStatus(), "status") == s.status && Lookup(s.FromRun(), "status") == s.status
  {
    LookupCons(Field("status", Quoted(s.status)), s.FromDetail(), "status");
    LookupCons(Field("exitCode", Number(s.exitCode)), s.FromStatus(), "status");
    LookupCons(Field("runId", Quoted(s.runId)), s.FromCode(), "status");
    AtValueCons(Field("exitCode", Number(s.exitCode)), s.FromStatus(), "status");
  }

  lemma LookupDetail(s: Status)
    ensures Lookup(s.FromStatus(), "detail") == s.detail && Lookup(s.FromRun(), "detail") == s.detail
  {
    LookupCons(Field("detail", Quoted(s.detail)), s.Path(), "detail");
    AtValueCons(Field("detail", Quoted(s.detail)), s.Path(), "detail");
    LookupCons(Field("status", Quoted(s.status)), s.FromDetail(), "detail");
    LookupCons(Field("exitCode", Number(s.exitCode)), s.FromStatus(), "detail");
    LookupCons(Field("runId", Quoted(s.runId)), s.FromCode(), "detail");
    AtValueCons(Field("exitCode", Number(s.exitCode)), s.FromStatus(), "detail");
  }

  lemma LookupLogPath(s: Status)
    ensures Lookup(s.FromRun(), "logPath") == if Echoes(Quoted(s.status), "logPath") then s.detail else s.logPath
  {
    var path := Field("logPath", Quoted(s.logPath));
    assert s.Path() == [path] + [];
    LookupCons(path, [], "logPath");
    AtValueCons(path, [], "logPath");
    LookupCons(Field("detail", Quoted(s.detail)), s.Path(), "logPath");
    AtValueCons(Field("detail", Quoted(s.detail)), s.Path(), "logPath");
    LookupCons(Field("status", Quoted(s.status)), s.FromDetail(), "logPath");
    LookupCons(Field("exitCode", Number(s.exitCode)), s.FromStatus(), "logPath");
    LookupCons(Field("runId", Quoted(s.runId)), s.FromCode(), "logPath");
    AtValueCons(Field("exitCode", Number(s.exitCode)), s.FromStatus(), "logPath");
  }

  lemma ReadStatus(s: Status, key: string)
    requires s.Valid() && key != "" && Letters(key) && key != "version"
    ensures Read(Document(s.Fields()), Needle(key)) == Lookup(s.FromRun(), key)
  {
    StatusIsPlain(s);
    ReadDocument(s.Fields(), key);
    VersionIsNoEcho(s.version, key);
    LookupCons(Field("version", Quoted(s.version)), s.FromRun(), key);
  }

  lemma ReadVersion(s: Status)
    requires s.Valid()
    ensures Read(Document(s.Fields()), Needle("version")) == s.version
  {
    StatusIsPlain(s);
    KeysArePlain();
    ReadDocument(s.Fields(), "version");
    LookupCons(Field("version", Quoted(s.version)), s.FromRun(), "version");
  }

  /** Of a status document, every text field but the last is read back whatever
      the texts are. The log path is read back exactly when the status does not
      end the way a field with that key would begin, or the detail happens to be
      the same text. */
  lemma StatusReadBack(s: Status)
    requires s.Valid()
    ensures Read(Document(s.Fields()), Needle("version")) == s.version
    ensures Read(Document(s.Fields()), Needle("runId")) == s.runId
    ensures Read(Document(s.Fields()), Needle("status")) == s.status
    ensures Read(Document(s.Fields()), Needle("detail")) == s.detail
    ensures Read(Document(s.Fields()), Needle("logPath")) == s.logPath
            <==> !Echoes(Quoted(s.status), "logPath") || s.detail == s.logPath
  {
    KeysArePlain();
    ReadVersion(s);
    ReadStatus(s, "runId");
    LookupCons(Field("runId", Quoted(s.runId)), s.FromCode(), "runId");
    ReadStatus(s, "status");
    LookupStatus(s);
    ReadStatus(s, "detail");
    LookupDetail(s);
    ReadStatus(s, "logPath");
    LookupLogPath(s);
  }

  /** The status texts the program writes. */
  const WRITTEN_STATUSES: set<string> := {"ok", "failed", "aborted", "fatal"}

  /** Of the documents the program writes, every text field is read back. */
  lemma WrittenStatusReadBack(s: Status)
    requires s.Valid() && s.status in WRITTEN_STATUSES
    ensures Read(Document(s.Fields()), Needle("version")) == s.version
    ensures Read(Document(s.Fields()), Needle("runId")) == s.runId
    ensures Read(Document(s.Fields()), Needle("status")) == s.status
    ensures Read(Document(s.Fields()), Needle("detail")) == s.detail
    ensures Read(Document(s.Fields()), Needle("logPath")) == s.logPath
  {
    StatusReadBack(s);
  }

  /** A status text, not one of these, with which the detail is read back as the log
      path. */
  lemma StatusEchoMisleads()
    ensures var s := Status("1.0", "r", "0", "logPath", "d", "p");
      s.Valid() && Read(Document(s.Fields()), Needle("logPath")) == "d"
  {
    var s := Status("1.0", "r", "0", "logPath", "d", "p");
    KeysArePlain();
    ReadStatus(s, "logPath");
    LookupLogPath(s);
  }

  // ---- the reader as it is written ----

  lemma {:induction false} TooShort(s: string, sub: string)
    requires |s| < |sub|
    ensures After(s, sub) == None
  {
    if s == "" {
    } else {
      TooShort(s[1..], sub);
    }
  }

  /** Whether the search ends at `i` or moves on by one character. */
  lemma AfterAt(s: string, i: nat, sub: string)
    requires i + |sub| <= |s| && sub != ""
    ensures s[i..i + |sub|] == sub ==> After(s[i..], sub) == Some(s[i + |sub|..])
    ensures s[i..i + |sub|] != sub ==> After(s[i..], sub) == After(s[i + 1..], sub)
  {
    var t := s[i..];
    assert t[..|sub|] == s[i..i + |sub|] && t[|sub|..] == s[i + |sub|..] && t[1..] == s[i + 1..];
  }

  /** `pos` is where `sub` first occurs at or behind `from`. */
  predicate FoundFrom(s: string, from: nat, sub: string, pos: Option<nat>)
    requires from <= |s|
  {
    var behind := After(s[from..], sub);
    if pos.None? then behind == None
    else from <= pos.value && pos.value + |sub| <= |s| && behind == Some(s[pos.value + |sub|..])
  }

  method FindSub(haystack: string, from: nat, needle: string) returns (pos: Option<nat>)
    requires from <= |haystack|
    ensures FoundFrom(haystack, from, needle, pos)
  {
    if needle == "" {
      return Some(from);
    }
    hide After;
    var i := from;
    while i + |needle| <= |haystack|
      invariant from <= i <= |haystack|
      invariant After(haystack[from..], needle) == After(haystack[i..], needle)
    {
      AfterAt(haystack, i, needle);
      if haystack[i..i + |needle|] == needle {
        return Some(i);
      }
      i := i + 1;
    }
    TooShort(haystack[i..], needle);
    return None;
  }

  method FindCh(chars: string, from: nat, ch: char) returns (pos: Option<nat>)
    requires from <= |chars|
    ensures FoundFrom(chars, from, [ch], pos) && (pos.Some? ==> chars[pos.value] == ch)
  {
    var i := from;
    while i < |chars|
      invariant from <= i <= |chars|
      invariant After(chars[from..], [ch]) == After(chars[i..], [ch])
    {
      AfterAt(chars, i, [ch]);
      assert chars[i..i + 1] == [chars[i]];
      if chars[i] == ch {
        return Some(i);
      }
      i := i + 1;
    }
    TooShort(chars[i..], [ch]);
    return None;
  }

  method SkipWs(json: string, from: nat) returns (i: nat)
    requires from <= |json|
    ensures from <= i <= |json| && json[i..] == SkipWhitespace(json[from..])
  {
    i := from;
    while i < |json| && IsWhitespace(json[i])
      invariant from <= i <= |json|
      invariant SkipWhitespace(json[i..]) == SkipWhitespace(json[from..])
    {
      assert json[i..][1..] == json[i + 1..];
      i := i + 1;
    }
  }

  /** One character or escape: what it stands for and where the next one begins. */
  method DecodeAt(chars: string, at: nat) returns (piece: string, next: nat)
    requires at < |chars|
    ensures at < next <= |chars| && (piece, next - at) == Step(chars[at..])
  {
    var j := at;
    ghost var t := chars[at..];
    if chars[j] == '\\' && j + 1 < |chars| {
      j := j + 1;
      assert t[1] == chars[j];
      if chars[j] != 'u' {
        piece := [Unescaped(chars[j])];
      } else {
        piece := "";
        if j + 4 < |chars| {
          assert t[2..6] == chars[j + 1..j + 5];
          piece := Unicode(chars[j + 1..j + 5]);
          j := j + 4;
        }
      }
    } else {
      piece := [chars[j]];
    }
    next := j + 1;
  }

  lemma StringStep(s: string, j: nat, out: string, piece: string, next: nat)
    requires j < next <= |s| && s[j] != '"' && Step(s[j..]) == (piece, next - j)
    ensures out + Unescape(s[j..]) == (out + piece) + Unescape(s[next..])
  {
    assert s[j..][next - j..] == s[next..];
    UnescapeOne(s[j..], piece, next - j, s[next..]);
    Assoc(out, piece, Unescape(s[next..]));
  }

  lemma StringEnds(s: string, j: nat, out: string)
    requires j <= |s| && (j == |s| || s[j] == '"')
    ensures out + Unescape(s[j..]) == out
  {
  }

  /** The text between quotes, from the character after the opening one. */
  method ReadString(chars: string, start: nat) returns (out: string)
    requires start <= |chars|
    ensures out == Unescape(chars[start..])
  {
    out := "";
    var j := start;
    ghost var goal := Unescape(chars[start..]);
    while j < |chars| && chars[j] != '"'
      invariant start <= j <= |chars|
      invariant out + Unescape(chars[j..]) == goal
    {
      var piece, next := DecodeAt(chars, j);
      StringStep(chars, j, out, piece, next);
      out, j := out + piece, next;
    }
    StringEnds(chars, j, out);
  }

  /** json_find_string_field. */
  method JsonFindStringField(json: string, key: string) returns (out: string)
    ensures out == Read(json, Needle(key))
  {
    var start := Search(json, Needle(key));
    if start.None? {
      return "";
    }
    out := ReadString(json, start.value);
  }

  /** The search goes on from the colon itself, which begins no needle. */
  lemma FromColon(s: string, colon: nat, needle: string)
    requires colon < |s| && s[colon] == ':' && needle != "" && needle[0] == '"'
    ensures Opened(s[colon..], needle) == Opened(s[colon + 1..], needle)
  {
    assert s[colon..] == [':'] + s[colon + 1..];
    AfterPlain([':'], s[colon + 1..], needle);
  }

  lemma OpenedIs(s: string, needle: string, a: string, b: string)
    requires needle != "" && After(s, needle) == Some(a) && After(a, [':']) == Some(b)
    ensures var rest := SkipWhitespace(b);
      Opened(s, needle) == if rest != "" && rest[0] == '"' then Some(rest[1..]) else Opened(b, needle)
  {
  }

  lemma NothingBehind(s: string, needle: string, a: string)
    requires needle != "" && After(s, needle) == Some(a) && After(a, [':']) == None
    ensures Opened(s, needle) == None
  {
  }

  function QuoteAt(rest: string, onward: Option<string>): Option<string> {
    if rest != "" && rest[0] == '"' then Some(rest[1..]) else onward
  }

  lemma RestAt(s: string, i: nat, onward: Option<string>)
    requires i <= |s|
    ensures QuoteAt(s[i..], onward) == if i < |s| && s[i] == '"' then Some(s[i + 1..]) else onward
  {
    if i < |s| {
      assert s[i..][1..] == s[i + 1..];
    }
  }

  /** The search settles on the quote at `i`, or goes on from the colon. */
  predicate RoundEnds(s: string, from: nat, needle: string, colon: nat, i: nat)
    requires from <= |s| && colon <= |s| && needle != ""
  {
    Opened(s[from..], needle) == if i < |s| && s[i] == '"' then Some(s[i + 1..]) else Opened(s[colon..], needle)
  }

  /** One round of the search: needle, colon, and what stands at `i` behind it. */
  lemma OneRound(s: string, from: nat, needle: string, pos: Option<nat>, next: Option<nat>, colon: nat, i: nat)
    requires from <= |s| && needle != "" && needle[0] == '"' && pos.Some? && next == Some(colon)
    requires FoundFrom(s, from, needle, pos) && FoundFrom(s, pos.value + |needle|, [':'], next) && s[colon] == ':'
    requires i <= |s| && s[i..] == SkipWhitespace(s[colon + 1..])
    ensures RoundEnds(s, from, needle, colon, i)
  {
    var onward := Opened(s[colon + 1..], needle);
    assert Opened(s[from..], needle) == QuoteAt(s[i..], onward) by {
      OpenedIs(s[from..], needle, s[pos.value + |needle|..], s[colon + 1..]);
    }
    assert Opened(s[colon..], needle) == onward by {
      FromColon(s, colon, needle);
    }
    RestAt(s, i, onward);
  }

  /** The colon behind a needle that was found, and the next character behind it that
      is no whitespace. */
  method ColonAndValue(json: string, ghost from: nat, needle: string, pos: Option<nat>)
    returns (colon: Option<nat>, i: nat)
    requires from <= |json| && needle != "" && needle[0] == '"' && pos.Some? && FoundFrom(json, from, needle, pos)
    ensures colon.None? ==> Opened(json[from..], needle) == None
    ensures colon.Some? ==> from < colon.value < |json| && i <= |json| && RoundEnds(json, from, needle, colon.value, i)
  {
    hide After, Opened;
    i := |json|;
    colon := FindCh(json, pos.value + |needle|, ':');
    if colon.None? {
      assert Opened(json[from..], needle) == None by {
        NothingBehind(json[from..], needle, json[pos.value + |needle|..]);
      }
    } else {
      i := SkipWs(json, colon.value + 1);
      assert RoundEnds(json, from, needle, colon.value, i) by {
        OneRound(json, from, needle, pos, colon, colon.value, i);
      }
    }
  }

  method Search(json: string, needle: string) returns (start: Option<nat>)
    requires needle != "" && needle[0] == '"'
    ensures start.None? ==> Opened(json, needle) == None
    ensures start.Some? ==> start.value <= |json| && Opened(json, needle) == Some(json[start.value..])
  {
    ghost var from, goal := 0, Opened(json, needle);
    assert json[0..] == json;
    var pos := FindSub(json, 0, needle);
    while pos.Some?
      invariant from <= |json| && Opened(json[from..], needle) == goal && FoundFrom(json, from, needle, pos)
      decreases |json| - from
    {
      var colon, i := ColonAndValue(json, from, needle, pos);
      if colon.None? {
        return None;
      }
      if i < |json| && json[i] == '"' {
        return Some(i + 1);
      }
      from := colon.value;
      pos := FindSub(json, colon.value, needle);
    }
    return None;
  }
}
