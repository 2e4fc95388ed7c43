/** The hand-written JSON Lines exporter, and a reader that undoes it. */
module Jsonl {
  import opened Bytes
  import opened Wrappers
  import opened LogModel
  import opened Ordering

  // ----- writing strings ----------------------------------------------------

  /** What one character becomes inside a JSON string. */
  function EscapeChar(c: char): string
  {
    if c == '"' then "\\\""
    else if c == '\\' then "\\\\"
    else if c == '\n' then "\\n"
    else if c == '\r' then "\\r"
    else if c == '\t' then "\\t"
    else if (c as int) < 0x20 then "\\u00" + [HexDigit(c as int / 16), HexDigit(c as int % 16)]
    else [c]
  }

  function Escape(s: string): string
  {
    if s == "" then "" else EscapeChar(s[0]) + Escape(s[1..])
  }

  lemma {:induction false} EscapeSnoc(s: string, i: nat)
    requires i < |s|
    ensures Escape(s[..i + 1]) == Escape(s[..i]) + EscapeChar(s[i])
    decreases i
  {
    hide EscapeChar;
    if i > 0 {
      EscapeSnoc(s[1..], i - 1);
      assert s[..i + 1][1..] == s[1..][..i] && s[..i][1..] == s[1..][..i - 1];
    } else {
      assert s[..1] == [s[0]] && s[..1][1..] == "";
    }
  }

  method JsonEscape(s: string) returns (out: string)
    ensures out == Escape(s)
  {
    hide Escape;
    out := "";
    EscapeNothing(s);
    for i := 0 to |s|
      invariant out == Escape(s[..i])
    {
      var c := s[i];
      EscapeSnoc(s, i);
      if c == '"' {
        out := out + "\\\"";
      } else if c == '\\' {
        out := out + "\\\\";
      } else if c == '\n' {
        out := out + "\\n";
      } else if c == '\r' {
        out := out + "\\r";
      } else if c == '\t' {
        out := out + "\\t";
      } else if (c as int) < 0x20 {
        out := out + ("\\u00" + [HexDigit(c as int / 16), HexDigit(c as int % 16)]);
      } else {
        out := out + [c];
      }
    }
    assert s[..|s|] == s;
  }

  lemma {:induction false} EscapeNothing(s: string)
    ensures Escape(s[..0]) == ""
  {
  }

  // ----- reading strings: section 7 of RFC 8259 -----------------------------

  /** Four hex digits. */
  function Hex4(s: string): (r: Option<nat>)
    ensures r.Some? ==> |s| >= 4 && r.value < 0x1_0000
  {
    if |s| < 4 then None
    else
      var a, b, c, d := HexValue(s[0]), HexValue(s[1]), HexValue(s[2]), HexValue(s[3]);
      if a.None? || b.None? || c.None? || d.None? then None
      else Some(((a.value * 16 + b.value) * 16 + c.value) * 16 + d.value)
  }

  /** One escape sequence after its backslash: the character and what follows.
      Characters beyond the basic plane arrive as surrogate pairs. */
  function ReadEscape(s: string): (r: Option<(char, string)>)
    ensures r.Some? ==> |r.value.1| < |s|
  {
    if s == "" then None
    else if s[0] == '"' then Some(('"', s[1..]))
    else if s[0] == '\\' then Some(('\\', s[1..]))
    else if s[0] == '/' then Some(('/', s[1..]))
    else if s[0] == 'b' then Some((8 as char, s[1..]))
    else if s[0] == 'f' then Some((12 as char, s[1..]))
    else if s[0] == 'n' then Some(('\n', s[1..]))
    else if s[0] == 'r' then Some(('\r', s[1..]))
    else if s[0] == 't' then Some(('\t', s[1..]))
    else if s[0] == 'u' then
      var h := Hex4(s[1..]);
      if h.None? then None
      else if h.value < 0xD800 || h.value >= 0xE000 then Some((h.value as char, s[5..]))
      else if h.value < 0xDC00 && |s| >= 7 && s[5] == '\\' && s[6] == 'u' then
        var l := Hex4(s[7..]);
        if l.Some? && 0xDC00 <= l.value < 0xE000
        then Some(((0x1_0000 + (h.value - 0xD800) * 0x400 + (l.value - 0xDC00)) as char, s[11..]))
        else None
      else None
    else None
  }

  /** The characters of a string up to its closing quote.  Unescaped control
      characters are not allowed. */
  function ReadChars(s: string): (r: Option<(string, string)>)
    ensures r.Some? ==> |r.value.1| < |s|
    decreases |s|
  {
    if s == "" then None
    else if s[0] == '"' then Some(("", s[1..]))
    else if (s[0] as int) < 0x20 then None
    else
      var first := if s[0] == '\\' then ReadEscape(s[1..]) else Some((s[0], s[1..]));
      if first.None? then None
      else
        match ReadChars(first.value.1)
        case None => None
        case Some((more, rest)) => Some(([first.value.0] + more, rest))
  }

  /** Reading what one character was escaped to gives the character back. */
  lemma {:induction false} ReadsOneChar(c: char, rest: string)
    ensures ReadChars(EscapeChar(c) + rest) ==
            match ReadChars(rest) case None => None case Some((more, end)) => Some(([c] + more, end))
  {
    hide HexDigit, HexValue;
    var text := EscapeChar(c) + rest;
    if EscapeChar(c) == [c] {
      assert text[1..] == rest;
    } else if |EscapeChar(c)| == 2 {
      var tail := text[1..];
      assert tail[0] == EscapeChar(c)[1] && tail[1..] == rest;
    } else {
      var n := c as int;
      var tail := text[1..];
      var digits := tail[1..];
      HexDigitValue(n / 16);
      HexDigitValue(n % 16);
      HexDigitValue(0);
      ZeroIsHex();
      assert digits[0] == '0' && digits[1] == '0' && digits[2] == HexDigit(n / 16) && digits[3] == HexDigit(n % 16);
      assert tail[5..] == rest;
      assert Hex4(digits) == Some(n);
    }
  }

  lemma {:induction false} ZeroIsHex()
    ensures HexValue('0') == Some(0)
  {
  }

  /** Strings survive: whatever characters s holds, reading the escaped text
      up to its closing quote gives s back and leaves the rest untouched. */
  lemma {:induction false} ReadsEscaped(s: string, rest: string)
    ensures ReadChars(Escape(s) + "\"" + rest) == Some((s, rest))
    decreases |s|
  {
    hide EscapeChar, ReadChars;
    if s == "" {
      assert Escape(s) + "\"" + rest == "\"" + rest;
      ReadsClosingQuote(rest);
    } else {
      var tail := Escape(s[1..]) + "\"" + rest;
      assert Escape(s) + "\"" + rest == EscapeChar(s[0]) + tail;
      ReadsOneChar(s[0], tail);
      ReadsEscaped(s[1..], rest);
      assert s == [s[0]] + s[1..];
    }
  }

  lemma {:induction false} ReadsClosingQuote(rest: string)
    ensures ReadChars("\"" + rest) == Some(("", rest))
  {
    assert ("\"" + rest)[1..] == rest;
  }

  // ----- values -------------------------------------------------------------

  datatype Json = JNum(n: nat) | JStr(s: string) | JObj(fields: seq<Field>)

  datatype Field = Field(key: string, value: Json)

  function Digit(n: nat): char
    requires n < 10
  {
    ('0' as int + n) as char
  }

  predicate IsDigit(c: char) { '0' <= c <= '9' }

  function Decimal(n: nat): (s: string)
    ensures s != "" && forall i | 0 <= i < |s| :: IsDigit(s[i])
  {
    if n < 10 then [Digit(n)] else Decimal(n / 10) + [Digit(n % 10)]
  }

  function Quoted(s: string): string { "\"" + Escape(s) + "\"" }

  function Render(j: Json): string
    decreases j
  {
    match j
    case JNum(n) => Decimal(n)
    case JStr(s) => Quoted(s)
    case JObj(fields) => "{" + RenderFields(fields) + "}"
  }

  function RenderField(f: Field): string
    decreases f
  {
    Quoted(f.key) + ":" + Render(f.value)
  }

  function RenderFields(fs: seq<Field>): string
    decreases fs
  {
    if fs == [] then ""
    else RenderField(fs[0]) + if |fs| == 1 then "" else "," + RenderFields(fs[1..])
  }

  /** Decimal digits from the front. */
  function ReadDigits(s: string, acc: nat): (r: (nat, string))
    ensures |r.1| <= |s|
    decreases |s|
  {
    if s == "" || !IsDigit(s[0]) then (acc, s)
    else ReadDigits(s[1..], acc * 10 + (s[0] as int - '0' as int))
  }

  function ReadValue(s: string): (r: Option<(Json, string)>)
    ensures r.Some? ==> |r.value.1| < |s|
    decreases |s|, 1
  {
    if s == "" then None
    else if s[0] == '"' then
      match ReadChars(s[1..])
      case None => None
      case Some((t, rest)) => Some((JStr(t), rest))
    else if IsDigit(s[0]) then
      var (n, rest) := ReadDigits(s[1..], s[0] as int - '0' as int);
      Some((JNum(n), rest))
    else if s[0] == '{' then
      if |s| > 1 && s[1] == '}' then Some((JObj([]), s[2..]))
      else
        match ReadFields(s[1..])
        case None => None
        case Some((fs, rest)) => Some((JObj(fs), rest))
    else None
  }

  /** Fields up to and including the closing brace. */
  function ReadFields(s: string): (r: Option<(seq<Field>, string)>)
    ensures r.Some? ==> |r.value.1| < |s|
    decreases |s|, 0
  {
    if s == "" || s[0] != '"' then None
    else
      match ReadChars(s[1..])
      case None => None
      case Some((key, afterKey)) =>
        if afterKey == "" || afterKey[0] != ':' then None
        else
          match ReadValue(afterKey[1..])
          case None => None
          case Some((value, rest)) =>
            if rest == "" then None
            else if rest[0] == '}' then Some(([Field(key, value)], rest[1..]))
            else if rest[0] == ',' then
              (match ReadFields(rest[1..])
               case None => None
               case Some((more, end)) => Some(([Field(key, value)] + more, end)))
            else None
  }

  // ----- the reader undoes the writer ---------------------------------------

  predicate NoDigitNext(rest: string) { rest == "" || !IsDigit(rest[0]) }

  lemma {:induction false} ReadsDecimal(n: nat, rest: string)
    requires NoDigitNext(rest)
    ensures ReadDigits(Decimal(n) + rest, 0) == (n, rest)
  {
    DigitsThen(n, rest);
    assert ReadDigits(rest, n) == (n, rest);
  }

  /** Reading the digits of n leads to n with the rest still to come. */
  lemma {:induction false} DigitsThen(n: nat, rest: string)
    ensures ReadDigits(Decimal(n) + rest, 0) == ReadDigits(rest, n)
    decreases n
  {
    if n < 10 {
      assert ([Digit(n)] + rest)[1..] == rest;
    } else {
      var tail := [Digit(n % 10)] + rest;
      assert Decimal(n) + rest == Decimal(n / 10) + tail;
      DigitsThen(n / 10, tail);
      assert tail[1..] == rest;
    }
  }

  lemma {:induction false} ReadsValue(j: Json, rest: string)
    requires NoDigitNext(rest)
    ensures ReadValue(Render(j) + rest) == Some((j, rest))
    decreases j
  {
    hide ReadValue, RenderFields, Escape, Decimal;
    match j
    case JStr(s) =>
      ReadsString(s, rest);
    case JNum(n) =>
      ReadsNumber(n, rest);
    case JObj(fields) =>
      if fields != [] {
        ReadsFields(fields, rest);
      }
      ReadsObject(fields, rest);
  }

  lemma {:induction false} ReadsString(s: string, rest: string)
    ensures ReadValue(Quoted(s) + rest) == Some((JStr(s), rest))
  {
    hide ReadChars, Escape, ReadDigits, ReadFields;
    var text := Quoted(s) + rest;
    assert text[1..] == Escape(s) + "\"" + rest;
    ReadsEscaped(s, rest);
  }

  lemma {:induction false} ReadsNumber(n: nat, rest: string)
    requires NoDigitNext(rest)
    ensures ReadValue(Decimal(n) + rest) == Some((JNum(n), rest))
  {
    hide ReadChars, ReadDigits, ReadFields, Decimal;
    var text := Decimal(n) + rest;
    ReadsDecimal(n, rest);
    assert text[0] == Decimal(n)[0];
    FirstDigit(text);
  }

  lemma {:induction false} ReadsObject(fields: seq<Field>, rest: string)
    requires fields != [] ==> ReadFields(RenderFields(fields) + "}" + rest) == Some((fields, rest))
    ensures ReadValue("{" + RenderFields(fields) + "}" + rest) == Some((JObj(fields), rest))
  {
    hide ReadChars, ReadDigits, ReadFields, RenderFields;
    var text := "{" + RenderFields(fields) + "}" + rest;
    assert text[1..] == RenderFields(fields) + "}" + rest;
    if fields == [] {
      NoFields();
      assert text[1] == '}' && text[2..] == rest;
    } else {
      FieldsStartQuoted(fields);
      assert text[1] == '"';
    }
  }

  lemma {:induction false} FirstDigit(text: string)
    requires text != "" && IsDigit(text[0])
    ensures ReadDigits(text, 0) == ReadDigits(text[1..], text[0] as int - '0' as int)
  {
  }

  lemma {:induction false} FieldsStartQuoted(fs: seq<Field>)
    requires fs != []
    ensures RenderFields(fs) != "" && RenderFields(fs)[0] == '"'
  {
    hide Escape, Render;
  }

  lemma {:induction false} ReadsFields(fs: seq<Field>, rest: string)
    requires fs != []
    ensures ReadFields(RenderFields(fs) + "}" + rest) == Some((fs, rest))
    decreases fs
  {
    hide RenderField, ReadFields;
    var f := fs[0];
    var tail := "}" + rest;
    assert RenderFields(fs) + "}" + rest == RenderFields(fs) + tail;
    if |fs| == 1 {
      assert fs == [f];
      assert RenderFields(fs) + tail == RenderField(f) + tail;
      ReadsOneField(f, tail);
      assert tail[1..] == rest;
    } else {
      var more := RenderFields(fs[1..]) + "}" + rest;
      FieldsThen(f, RenderFields(fs[1..]), rest);
      ReadsOneField(f, "," + more);
      assert ("," + more)[1..] == more;
      ReadsFields(fs[1..], rest);
      assert fs == [f] + fs[1..];
    }
  }

  lemma {:induction false} FieldsThen(f: Field, more: string, rest: string)
    ensures RenderField(f) + ("," + more) + "}" + rest == RenderField(f) + ("," + (more + "}" + rest))
  {
    hide RenderField;
  }

  /** One field followed by its separator or the closing brace. */
  lemma {:induction false} ReadsOneField(f: Field, end: string)
    requires end != "" && (end[0] == '}' || end[0] == ',')
    ensures ReadFields(RenderField(f) + end) ==
            if end[0] == '}' then Some(([f], end[1..]))
            else match ReadFields(end[1..]) case None => None case Some((more, rest)) => Some(([f] + more, rest))
    decreases f
  {
    hide ReadChars, Escape, ReadValue, Render;
    var text := RenderField(f) + end;
    var value := Render(f.value) + end;
    var afterKey := ":" + value;
    assert text == "\"" + (Escape(f.key) + "\"" + afterKey);
    assert text[1..] == Escape(f.key) + "\"" + afterKey;
    ReadsEscaped(f.key, afterKey);
    assert afterKey[1..] == value;
    ReadsValue(f.value, end);
  }

  // ----- exporting a log ----------------------------------------------------

  /** The clock reading as RFC 3339 text with milliseconds; uninterpreted. */
  const Rfc3339Millis: Time -> string

  function MetadataFields(m: map<string, string>, keys: seq<string>): (f: seq<Field>)
    requires forall k | k in keys :: k in m
    ensures |f| == |keys|
    ensures forall i | 0 <= i < |keys| :: f[i] == Field(keys[i], JStr(m[keys[i]]))
  {
    if keys == [] then [] else [Field(keys[0], JStr(m[keys[0]]))] + MetadataFields(m, keys[1..])
  }

  /** The object one entry is exported as, given its metadata keys in order. */
  function EntryJson(e: LogEntry, keys: seq<string>): Json
    requires forall k | k in keys :: k in e.event.metadata
  {
    JObj([
      Field("index", JNum(e.index)),
      Field("appended_at", JStr(Rfc3339Millis(e.appendedAt))),
      Field("actor", JStr(e.event.actor)),
      Field("action", JStr(e.event.action)),
      Field("resource", JStr(e.event.resource)),
      Field("outcome", JStr(e.event.outcome)),
      Field("metadata", JObj(MetadataFields(e.event.metadata, keys))),
      Field("prev_root", JStr(HexEncode(e.prevRoot.bytes))),
      Field("new_root", JStr(HexEncode(e.newRoot.bytes))),
      Field("signature", JStr(HexEncode(e.signature)))])
  }

  /** The line of one entry, without its newline. */
  ghost predicate IsLineOf(line: string, e: LogEntry)
  {
    exists keys: seq<string> ::
      && Ascending(keys) && (forall k :: k in keys <==> k in e.event.metadata)
      && line == Render(EntryJson(e, keys))
  }

  /** Characters the escaper leaves alone. */
  predicate Plain(s: string)
  {
    forall i | 0 <= i < |s| :: (s[i] as int) >= 0x20 && s[i] != '"' && s[i] != '\\'
  }

  lemma {:induction false} PlainUnescaped(s: string)
    requires Plain(s)
    ensures Escape(s) == s
    decreases |s|
  {
    hide EscapeChar;
    if s != "" {
      PlainChar(s[0]);
      PlainUnescaped(s[1..]);
      assert s == [s[0]] + s[1..];
    }
  }

  lemma {:induction false} PlainChar(c: char)
    requires (c as int) >= 0x20 && c != '"' && c != '\\'
    ensures EscapeChar(c) == [c]
  {
  }

  lemma {:induction false} HexPlain(b: Bytes)
    ensures Plain(HexEncode(b))
    decreases |b|
  {
    hide HexDigit;
    if b != [] {
      HexPlain(b[1..]);
    }
  }

  method JsonField(out: string, key: string, raw: string, quoted: bool) returns (r: string)
    ensures r == out + "\"" + key + "\":" + if quoted then "\"" + raw + "\"" else raw
  {
    r := out + "\"";
    r := r + key;
    r := r + "\":";
    if quoted {
      r := r + "\"";
    }
    r := r + raw;
    if quoted {
      r := r + "\"";
    }
  }

  lemma {:induction false} RenderFieldsSnoc(fs: seq<Field>, f: Field)
    ensures RenderFields(fs + [f]) == RenderFields(fs) + (if fs == [] then "" else ",") + RenderField(f)
    decreases |fs|
  {
    hide RenderField;
    if fs == [] {
      assert fs + [f] == [f];
    } else {
      var all, head := fs + [f], RenderField(fs[0]);
      assert all[0] == fs[0] && all[1..] == fs[1..] + [f];
      RenderFieldsSnoc(fs[1..], f);
      if |fs| == 1 {
        assert fs[1..] == [];
      } else {
        Regroup(head, RenderFields(fs[1..]), RenderField(f));
      }
    }
  }

  lemma {:induction false} Regroup(a: string, b: string, c: string)
    ensures a + ("," + (b + "," + c)) == a + ("," + b) + "," + c
  {
  }

  /** Push one more field of the object under construction. */
  method PushField(s: string, key: string, raw: string, quoted: bool, first: bool, ghost fs: seq<Field>, ghost value: Json)
    returns (r: string)
    requires s == "{" + RenderFields(fs) && (first <==> fs == []) && Plain(key)
    requires Render(value) == if quoted then "\"" + raw + "\"" else raw
    ensures r == "{" + RenderFields(fs + [Field(key, value)])
  {
    hide Render, Escape, RenderFields;
    r := s;
    if !first {
      r := r + ",";
    }
    PlainUnescaped(key);
    RenderFieldsSnoc(fs, Field(key, value));
    ghost var before := r;
    r := JsonField(r, key, raw, quoted);
    assert r == before + RenderField(Field(key, value));
  }

  /** The metadata object, keys in the map's order. */
  method MetadataObject(m: map<string, string>, keys: seq<string>) returns (s: string)
    requires forall k | k in keys :: k in m
    ensures s == Render(JObj(MetadataFields(m, keys)))
  {
    hide Escape, RenderFields, MetadataFields;
    s := "{";
    ghost var all := MetadataFields(m, keys);
    NoFields();
    var first := true;
    for i := 0 to |keys|
      invariant first <==> i == 0
      invariant s == "{" + RenderFields(all[..i])
    {
      if !first {
        s := s + ",";
      }
      RenderFieldsSnoc(all[..i], all[i]);
      assert all[..i + 1] == all[..i] + [all[i]];
      assert keys[i] in keys;
      var k := JsonEscape(keys[i]);
      var v := JsonEscape(m[keys[i]]);
      ghost var before := s;
      s := s + "\"";
      s := s + k;
      s := s + "\":\"";
      s := s + v;
      s := s + "\"";
      MetadataFieldText(before, s, keys[i], m[keys[i]]);
      first := false;
    }
    assert all[..|keys|] == all;
    s := s + "}";
  }

  lemma {:induction false} NoFields()
    ensures RenderFields([]) == ""
  {
  }

  lemma {:induction false} MetadataFieldText(before: string, s: string, key: string, value: string)
    requires s == before + "\"" + Escape(key) + "\":\"" + Escape(value) + "\""
    ensures s == before + RenderField(Field(key, JStr(value)))
  {
    hide Escape;
    assert "\":\"" == "\"" + ":" + "\"";
  }

  /** One entry as one line of JSON. */
  method ExportLine(e: LogEntry) returns (s: string)
    ensures IsLineOf(s, e)
  {
    hide Escape, RenderFields, MetadataFields, Decimal, HexEncode, Plain, Less;
    var keys := SortedKeys(e.event.metadata.Keys);
    ghost var f := EntryJson(e, keys).fields;
    s := "{";
    NoFields();
    KeysPlain();
    s := PushField(s, "index", Decimal(e.index), false, true, [], f[0].value);
    assert f[..1] == [] + [f[0]];
    var raw := JsonEscape(Rfc3339Millis(e.appendedAt));
    s := PushField(s, "appended_at", raw, true, false, f[..1], f[1].value);
    assert f[..2] == f[..1] + [f[1]];
    raw := JsonEscape(e.event.actor);
    s := PushField(s, "actor", raw, true, false, f[..2], f[2].value);
    assert f[..3] == f[..2] + [f[2]];
    raw := JsonEscape(e.event.action);
    s := PushField(s, "action", raw, true, false, f[..3], f[3].value);
    assert f[..4] == f[..3] + [f[3]];
    s := ExportTail(e, keys, s);
  }

  /** The remaining fields of the line. */
  method ExportTail(e: LogEntry, keys: seq<string>, start: string) returns (s: string)
    requires forall k | k in keys :: k in e.event.metadata
    requires start == "{" + RenderFields(EntryJson(e, keys).fields[..4])
    ensures s == Render(EntryJson(e, keys))
  {
    hide Escape, RenderFields, MetadataFields, Decimal, HexEncode, Plain;
    ghost var f := EntryJson(e, keys).fields;
    s := start;
    KeysPlain();
    var raw := JsonEscape(e.event.resource);
    s := PushField(s, "resource", raw, true, false, f[..4], f[4].value);
    assert f[..5] == f[..4] + [f[4]];
    raw := JsonEscape(e.event.outcome);
    s := PushField(s, "outcome", raw, true, false, f[..5], f[5].value);
    assert f[..6] == f[..5] + [f[5]];
    raw := MetadataObject(e.event.metadata, keys);
    s := PushField(s, "metadata", raw, false, false, f[..6], f[6].value);
    assert f[..7] == f[..6] + [f[6]];
    HexUnescaped(e.prevRoot.bytes);
    s := PushField(s, "prev_root", HexEncode(e.prevRoot.bytes), true, false, f[..7], f[7].value);
    assert f[..8] == f[..7] + [f[7]];
    HexUnescaped(e.newRoot.bytes);
    s := PushField(s, "new_root", HexEncode(e.newRoot.bytes), true, false, f[..8], f[8].value);
    assert f[..9] == f[..8] + [f[8]];
    HexUnescaped(e.signature);
    s := PushField(s, "signature", HexEncode(e.signature), true, false, f[..9], f[9].value);
    assert f == f[..9] + [f[9]];
    s := s + "}";
  }

  lemma {:induction false} HexUnescaped(b: Bytes)
    ensures Escape(HexEncode(b)) == HexEncode(b)
  {
    HexPlain(b);
    PlainUnescaped(HexEncode(b));
  }

  lemma {:induction false} KeysPlain()
    ensures Plain("index") && Plain("appended_at") && Plain("actor") && Plain("action") && Plain("resource")
    ensures Plain("outcome") && Plain("metadata") && Plain("prev_root") && Plain("new_root") && Plain("signature")
  {
  }

  function JoinLines(lines: seq<string>): string
  {
    if lines == [] then "" else lines[0] + "\n" + JoinLines(lines[1..])
  }

  /** One line per entry, in order. */
  ghost predicate IsExportOf(out: string, entries: seq<LogEntry>)
  {
    exists lines: seq<string> ::
      |lines| == |entries| && out == JoinLines(lines) && forall i | 0 <= i < |entries| :: IsLineOf(lines[i], entries[i])
  }

  /** The whole export. */
  method ExportJsonl(entries: seq<LogEntry>) returns (out: string)
    ensures IsExportOf(out, entries)
  {
    hide IsLineOf;
    out := "";
    ghost var lines: seq<string> := [];
    for i := 0 to |entries|
      invariant |lines| == i && forall k | 0 <= k < i :: IsLineOf(lines[k], entries[k])
      invariant out == JoinLines(lines)
    {
      var s := ExportLine(entries[i]);
      JoinSnoc(lines, s);
      lines := lines + [s];
      out := out + (s + "\n");
    }
  }

  lemma {:induction false} JoinSnoc(lines: seq<string>, s: string)
    ensures JoinLines(lines + [s]) == JoinLines(lines) + (s + "\n")
    decreases |lines|
  {
    if lines == [] {
      assert lines + [s] == [s] && [s][1..] == [];
    } else {
      assert (lines + [s])[1..] == lines[1..] + [s];
      JoinSnoc(lines[1..], s);
    }
  }

  // ----- reading an export --------------------------------------------------

  /** The text before the first newline and the text after it. */
  function CutLine(s: string): (string, string)
  {
    if s == "" then ("", "")
    else if s[0] == '\n' then ("", s[1..])
    else var (a, b) := CutLine(s[1..]); ([s[0]] + a, b)
  }

  function SplitLines(s: string): seq<string>
    decreases |s|
  {
    if s == "" then []
    else
      var (a, b) := CutLine(s);
      if |b| < |s| then [a] + SplitLines(b) else [a]
  }

  predicate NoControls(s: string) { forall i | 0 <= i < |s| :: (s[i] as int) >= 0x20 }

  lemma {:induction false} EscapeNoControls(s: string)
    ensures NoControls(Escape(s))
    decreases |s|
  {
    hide HexDigit;
    if s != "" {
      EscapeNoControls(s[1..]);
    }
  }

  lemma {:induction false} RenderNoControls(j: Json)
    ensures NoControls(Render(j))
    decreases j
  {
    hide Escape, RenderFields;
    match j
    case JNum(n) =>
    case JStr(s) => EscapeNoControls(s);
    case JObj(fields) => FieldsNoControls(fields);
  }

  lemma {:induction false} FieldsNoControls(fs: seq<Field>)
    ensures NoControls(RenderFields(fs))
    decreases fs
  {
    hide Escape, Render;
    if fs != [] {
      EscapeNoControls(fs[0].key);
      RenderNoControls(fs[0].value);
      FieldsNoControls(fs[1..]);
      assert NoControls(RenderField(fs[0]));
    }
  }

  lemma {:induction false} CutsAtNewline(line: string, rest: string)
    requires NoControls(line)
    ensures CutLine(line + "\n" + rest) == (line, rest)
    decreases |line|
  {
    if line == "" {
      assert line + "\n" + rest == "\n" + rest;
      assert ("\n" + rest)[1..] == rest;
    } else {
      assert (line + "\n" + rest)[1..] == line[1..] + "\n" + rest;
      CutsAtNewline(line[1..], rest);
      assert line == [line[0]] + line[1..];
    }
  }

  lemma {:induction false} SplitsJoined(lines: seq<string>)
    requires forall i | 0 <= i < |lines| :: NoControls(lines[i])
    ensures SplitLines(JoinLines(lines)) == lines
    decreases |lines|
  {
    hide NoControls;
    if lines != [] {
      CutsAtNewline(lines[0], JoinLines(lines[1..]));
      SplitsJoined(lines[1..]);
    }
  }

  /** The value under a key: that of the first field so named. */
  function Get(fs: seq<Field>, key: string): Option<Json>
  {
    if fs == [] then None else if fs[0].key == key then Some(fs[0].value) else Get(fs[1..], key)
  }

  lemma {:induction false} GetAt(fs: seq<Field>, i: nat)
    requires i < |fs| && forall j | 0 <= j < i :: fs[j].key != fs[i].key
    ensures Get(fs, fs[i].key) == Some(fs[i].value)
    decreases i
  {
    if i > 0 {
      GetAt(fs[1..], i - 1);
    }
  }

  ghost predicate DistinctKeys(fs: seq<Field>)
  {
    forall i, j | 0 <= i < j < |fs| :: fs[i].key != fs[j].key
  }

  ghost predicate TextUnder(fs: seq<Field>, key: string, text: string) { Get(fs, key) == Some(JStr(text)) }

  /** The value under the key is hex text for these bytes. */
  ghost predicate BytesUnder(fs: seq<Field>, key: string, bytes: Bytes)
  {
    && Get(fs, key).Some? && Get(fs, key).value.JStr?
    && HexDecode(Get(fs, key).value.s) == Some(bytes)
  }

  /** The object is the map: its keys ascend, each appearing once, and under
      every key is the map's value. */
  ghost predicate IsMap(fs: seq<Field>, m: map<string, string>)
  {
    && DistinctKeys(fs) && (forall i, j | 0 <= i < j < |fs| :: Less(fs[i].key, fs[j].key))
    && (forall k :: k in m <==> exists i | 0 <= i < |fs| :: fs[i].key == k)
    && (forall k | k in m :: TextUnder(fs, k, m[k]))
  }

  /** What a reader finds in the line of an entry, key by key. */
  ghost predicate HoldsEntry(fs: seq<Field>, e: LogEntry)
  {
    && |fs| == 10 && DistinctKeys(fs)
    && Get(fs, "index") == Some(JNum(e.index))
    && TextUnder(fs, "appended_at", Rfc3339Millis(e.appendedAt))
    && TextUnder(fs, "actor", e.event.actor) && TextUnder(fs, "action", e.event.action)
    && TextUnder(fs, "resource", e.event.resource) && TextUnder(fs, "outcome", e.event.outcome)
    && Get(fs, "metadata").Some? && Get(fs, "metadata").value.JObj?
    && IsMap(Get(fs, "metadata").value.fields, e.event.metadata)
    && BytesUnder(fs, "prev_root", e.prevRoot.bytes) && BytesUnder(fs, "new_root", e.newRoot.bytes)
    && BytesUnder(fs, "signature", e.signature)
  }

  /** The whole line reads as one object that holds the entry. */
  ghost predicate ReadsAs(line: string, e: LogEntry)
  {
    exists fs :: ReadValue(line) == Some((JObj(fs), "")) && HoldsEntry(fs, e)
  }

  /** The ten keys differ in length or in their first letter. */
  predicate Apart(a: string, b: string)
  {
    |a| != |b| || (|a| > 0 && a[0] != b[0])
  }

  lemma {:induction false} EntryKeysApart(e: LogEntry, keys: seq<string>, i: nat, j: nat)
    requires forall k | k in keys :: k in e.event.metadata
    requires i < j < 10
    ensures var fs := EntryJson(e, keys).fields;
            |fs| == 10 && Apart(fs[i].key, fs[j].key)
  {
    hide MetadataFields, HexEncode;
  }

  lemma {:induction false} EntryDistinct(e: LogEntry, keys: seq<string>)
    requires forall k | k in keys :: k in e.event.metadata
    ensures |EntryJson(e, keys).fields| == 10 && DistinctKeys(EntryJson(e, keys).fields)
  {
    hide EntryJson;
    EntryIsObject(e, keys);
    EntryKeysApart(e, keys, 0, 1);
    var fs := EntryJson(e, keys).fields;
    forall i, j | 0 <= i < j < |fs| ensures fs[i].key != fs[j].key {
      EntryKeysApart(e, keys, i, j);
    }
  }

  lemma {:induction false} MetadataIsMap(m: map<string, string>, keys: seq<string>)
    requires Ascending(keys) && forall k :: k in keys <==> k in m
    ensures IsMap(MetadataFields(m, keys), m)
  {
    hide Less, MetadataFields;
    var fs := MetadataFields(m, keys);
    forall i, j | 0 <= i < j < |fs| ensures fs[i].key != fs[j].key {
      if keys[i] == keys[j] {
        AscendingDistinct(keys, i, j);
      }
    }
    forall k | k in m ensures (exists i | 0 <= i < |fs| :: fs[i].key == k) && TextUnder(fs, k, m[k]) {
      var i :| 0 <= i < |keys| && keys[i] == k;
      assert fs[i] == Field(k, JStr(m[k]));
      GetAt(fs, i);
    }
    forall i | 0 <= i < |fs| ensures fs[i].key in m {
      assert keys[i] in keys;
    }
  }

  lemma {:induction false} EntryHeld(e: LogEntry, keys: seq<string>)
    requires Ascending(keys) && forall k :: k in keys <==> k in e.event.metadata
    ensures HoldsEntry(EntryJson(e, keys).fields, e)
  {
    hide MetadataFields, HexEncode, HexDecode, Get, IsMap, DistinctKeys, Less;
    var fs := EntryJson(e, keys).fields;
    EntryDistinct(e, keys);
    forall i | 0 <= i < 10 ensures Get(fs, fs[i].key) == Some(fs[i].value) {
      GetAtDistinct(fs, i);
    }
    assert Get(fs, fs[0].key) == Some(fs[0].value) && Get(fs, fs[1].key) == Some(fs[1].value);
    assert Get(fs, fs[2].key) == Some(fs[2].value) && Get(fs, fs[3].key) == Some(fs[3].value);
    assert Get(fs, fs[4].key) == Some(fs[4].value) && Get(fs, fs[5].key) == Some(fs[5].value);
    assert Get(fs, fs[6].key) == Some(fs[6].value) && Get(fs, fs[7].key) == Some(fs[7].value);
    assert Get(fs, fs[8].key) == Some(fs[8].value) && Get(fs, fs[9].key) == Some(fs[9].value);
    MetadataIsMap(e.event.metadata, keys);
    HexRoundTrip(e.prevRoot.bytes);
    HexRoundTrip(e.newRoot.bytes);
    HexRoundTrip(e.signature);
  }

  lemma {:induction false} GetAtDistinct(fs: seq<Field>, i: nat)
    requires DistinctKeys(fs) && i < |fs|
    ensures Get(fs, fs[i].key) == Some(fs[i].value)
  {
    hide Get;
    GetAt(fs, i);
  }

  lemma {:induction false} LineReadsAs(line: string, e: LogEntry)
    requires IsLineOf(line, e)
    ensures ReadsAs(line, e) && NoControls(line)
  {
    hide ReadValue, Render, MetadataFields, HoldsEntry, Less, EntryJson, NoControls;
    var keys: seq<string> :| Ascending(keys) && (forall k :: k in keys <==> k in e.event.metadata)
                             && line == Render(EntryJson(e, keys));
    EntryIsObject(e, keys);
    ReadsValue(EntryJson(e, keys), "");
    assert line + "" == line;
    EntryHeld(e, keys);
    RenderNoControls(EntryJson(e, keys));
  }

  lemma {:induction false} EntryIsObject(e: LogEntry, keys: seq<string>)
    requires forall k | k in keys :: k in e.event.metadata
    ensures EntryJson(e, keys).JObj?
  {
    hide MetadataFields, HexEncode;
  }

  /** The export of any log has exactly one line per entry, and line i reads
      back as entry i: index, strings, metadata and hex fields. */
  lemma {:induction false} ExportReadsBack(entries: seq<LogEntry>, out: string)
    requires IsExportOf(out, entries)
    ensures |SplitLines(out)| == |entries|
    ensures forall i | 0 <= i < |entries| :: ReadsAs(SplitLines(out)[i], entries[i])
  {
    hide IsLineOf, SplitLines, JoinLines, NoControls, ReadsAs;
    var lines: seq<string> :|
      |lines| == |entries| && out == JoinLines(lines) && forall i | 0 <= i < |entries| :: IsLineOf(lines[i], entries[i]);
    forall i | 0 <= i < |entries| ensures ReadsAs(lines[i], entries[i]) && NoControls(lines[i]) {
      LineReadsAs(lines[i], entries[i]);
    }
    SplitsJoined(lines);
  }
}
