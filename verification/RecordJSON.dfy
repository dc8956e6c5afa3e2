/** Reading the record back: what a JSON reader finds in an output message. */
module RecordJSON {
  import opened GoText
  import opened ContentPart
  import opened Text
  import opened Wrappers

  // ----- Text -----

  /** What a reader has found, and where it goes on. */
  datatype Read<+T> = Read(value: T, rest: Bytes) | Bad

  /** The UTF-8 of a code point below U+10000 (section 3 of RFC 3629). */
  function Utf8(code: nat): Bytes
    requires code < 0x10000
  {
    if code < 0x80 then [code as char]
    else if code < 0x800 then [(0xC0 + code / 0x40) as char, (0x80 + code % 0x40) as char]
    else [(0xE0 + code / 0x1000) as char, (0x80 + code / 0x40 % 0x40) as char, (0x80 + code % 0x40) as char]
  }

  function HexValue(c: char): (n: nat)
    ensures n < 16
  {
    if '0' <= c <= '9' then c as int - '0' as int
    else if 'a' <= c <= 'f' then c as int - 'a' as int + 10
    else if 'A' <= c <= 'F' then c as int - 'A' as int + 10 else 0
  }

  /** One escape, its backslash left out (section 7 of RFC 8259). */
  function ReadEscape(s: Bytes): (r: Read<Bytes>)
    ensures r.Read? ==> |r.rest| < |s|
  {
    if s == "" then Bad
    else if s[0] in {'"', '\\', '/'} then Read([s[0]], s[1..])
    else if s[0] == 'b' then Read([8 as char], s[1..])
    else if s[0] == 'f' then Read([12 as char], s[1..])
    else if s[0] == 'n' then Read("\n", s[1..])
    else if s[0] == 'r' then Read("\r", s[1..])
    else if s[0] == 't' then Read("\t", s[1..])
    else if s[0] == 'u' && |s| >= 5 then
      Read(Utf8(0x1000 * HexValue(s[1]) + 0x100 * HexValue(s[2]) + 0x10 * HexValue(s[3]) + HexValue(s[4])), s[5..])
    else Bad
  }

  function Prepend(text: Bytes, r: Read<Bytes>): Read<Bytes> {
    if r.Read? then Read(text + r.value, r.rest) else Bad
  }

  /** A string's text up to its closing quote. */
  function ReadText(s: Bytes): (r: Read<Bytes>)
    ensures r.Read? ==> |r.rest| < |s|
    decreases |s|
  {
    if s == "" then Bad
    else if s[0] == '"' then Read("", s[1..])
    else if s[0] != '\\' then Prepend([s[0]], ReadText(s[1..]))
    else
      var e := ReadEscape(s[1..]);
      if e.Read? then Prepend(e.value, ReadText(e.rest)) else Bad
  }

  /** The first rune when it is read back; U+FFFD for a byte that starts none. */
  function RuneText(s: Bytes): Bytes
    requires s != ""
  {
    if s[0] as int >= 0x80 && MultiByte(s) == 0 then [0xEF as char, 0xBF as char, 0xBD as char]
    else s[..RuneSize(s)]
  }

  function AsText(s: Bytes): Bytes {
    if s == "" then "" else RuneText(s) + AsText(s[RuneSize(s)..])
  }

  lemma ReadPlain(c: char, rest: Bytes)
    requires c != '"' && c != '\\'
    ensures ReadText([c] + rest) == Prepend([c], ReadText(rest))
  {
    assert ([c] + rest)[1..] == rest;
  }

  lemma PrependTwice(a: Bytes, b: Bytes, r: Read<Bytes>)
    ensures Prepend(a, Prepend(b, r)) == Prepend(a + b, r)
  {
    if r.Read? {
      assert a + (b + r.value) == a + b + r.value;
    }
  }

  lemma PrependNothing(r: Read<Bytes>)
    ensures Prepend("", r) == r
  {
    if r.Read? {
      assert "" + r.value == r.value;
    }
  }

  lemma {:induction false} ReadAllPlain(text: Bytes, rest: Bytes)
    requires forall k :: 0 <= k < |text| ==> text[k] != '"' && text[k] != '\\'
    ensures ReadText(text + rest) == Prepend(text, ReadText(rest))
    decreases |text|
  {
    if text == "" {
      assert text + rest == rest;
      PrependNothing(ReadText(rest));
    } else {
      ReadAllPlain(text[1..], rest);
      ReadPlain(text[0], text[1..] + rest);
      assert [text[0]] + (text[1..] + rest) == text + rest;
      assert [text[0]] + text[1..] == text;
      PrependTwice([text[0]], text[1..], ReadText(rest));
    }
  }

  lemma ReadEscaped(e: Bytes, text: Bytes, rest: Bytes)
    requires ReadEscape(e + rest) == Read(text, rest)
    ensures ReadText("\\" + e + rest) == Prepend(text, ReadText(rest))
  {
    assert ("\\" + e + rest)[1..] == e + rest;
  }

  lemma ReadShort(c: char, text: Bytes, rest: Bytes)
    requires ReadEscape([c]) == Read(text, "")
    ensures ReadText("\\" + [c] + rest) == Prepend(text, ReadText(rest))
  {
    assert ([c] + rest)[1..] == rest;
    ReadEscaped([c], text, rest);
  }

  lemma ReadUnicode(digits: Bytes, text: Bytes, rest: Bytes)
    requires |digits| == 4
    requires text == Utf8(0x1000 * HexValue(digits[0]) + 0x100 * HexValue(digits[1]) + 0x10 * HexValue(digits[2])
                          + HexValue(digits[3]))
    ensures ReadText("\\u" + digits + rest) == Prepend(text, ReadText(rest))
  {
    var e := "u" + digits;
    assert (e + rest)[5..] == rest;
    assert e[1] == digits[0] && e[2] == digits[1] && e[3] == digits[2] && e[4] == digits[3];
    ReadEscaped(e, text, rest);
    assert "\\" + e + rest == "\\u" + digits + rest;
  }

  lemma HexReadsBack(n: nat)
    requires n < 16
    ensures HexValue(HexDigit(n)) == n
  {
  }

  lemma ReadAscii(c: char, rest: Bytes)
    requires c as int < 0x80
    ensures ReadText(EncodeAscii(c) + rest) == Prepend([c], ReadText(rest))
  {
    var e := EncodeAscii(c);
    if e == [c] {
      ReadPlain(c, rest);
    } else if |e| == 2 {
      ReadShort(e[1], [c], rest);
      assert "\\" + [e[1]] == e;
    } else {
      var high, low := c as int / 16, c as int % 16;
      HexReadsBack(high);
      HexReadsBack(low);
      var digits := "00" + [HexDigit(high), HexDigit(low)];
      ReadUnicode(digits, [c], rest);
      assert "\\u" + digits == e;
    }
  }

  /** A multi-byte rune has no byte that a reader stops at. */
  lemma RuneIsPlain(s: Bytes)
    requires s != "" && s[0] as int >= 0x80
    ensures forall k :: 0 <= k < MultiByte(s) ==> s[k] != '"' && s[k] != '\\'
  {
  }

  lemma ReadSeparator(s: Bytes, rest: Bytes)
    requires |s| >= 3 && s[0] as int == 0xE2 && s[1] as int == 0x80 && In(s[2], 0xA8, 0xA9)
    ensures ReadText("\\u202" + [HexDigit(s[2] as int - 0xA0)] + rest) == Prepend(s[..3], ReadText(rest))
  {
    var digits := "202" + [HexDigit(s[2] as int - 0xA0)];
    HexReadsBack(s[2] as int - 0xA0);
    assert s[..3] == [s[0], s[1], s[2]];
    ReadUnicode(digits, s[..3], rest);
    assert "\\u" + digits == "\\u202" + [HexDigit(s[2] as int - 0xA0)];
  }

  lemma ReadReplacement(rest: Bytes)
    ensures ReadText("\\ufffd" + rest) == Prepend([0xEF as char, 0xBF as char, 0xBD as char], ReadText(rest))
  {
    ReadUnicode("fffd", [0xEF as char, 0xBF as char, 0xBD as char], rest);
    assert "\\u" + "fffd" == "\\ufffd";
  }

  lemma ReadRune(s: Bytes, rest: Bytes)
    requires s != ""
    ensures ReadText(EncodeRune(s) + rest) == Prepend(RuneText(s), ReadText(rest))
  {
    var n := MultiByte(s);
    if s[0] as int < 0x80 {
      ReadAscii(s[0], rest);
      assert s[..1] == [s[0]];
    } else if n == 0 {
      ReadReplacement(rest);
    } else if n == 3 && s[0] as int == 0xE2 && s[1] as int == 0x80 && In(s[2], 0xA8, 0xA9) {
      ReadSeparator(s, rest);
    } else {
      RuneIsPlain(s);
      ReadAllPlain(s[..n], rest);
    }
  }

  lemma Closed(a: Bytes, b: Bytes, rest: Bytes)
    ensures a + (b + "\"" + rest) == a + b + "\"" + rest
  {
  }

  /** Escaping loses nothing of a text but what is no UTF-8. */
  lemma {:induction false} ReadsText(s: Bytes, rest: Bytes)
    ensures ReadText(EncodeBody(s) + "\"" + rest) == Read(AsText(s), rest)
    decreases |s|
  {
    if s == "" {
      assert (EncodeBody(s) + "\"" + rest)[1..] == rest;
    } else {
      var more := s[RuneSize(s)..];
      ReadsText(more, rest);
      ReadRune(s, EncodeBody(more) + "\"" + rest);
      Closed(EncodeRune(s), EncodeBody(more), rest);
    }
  }

  /** Every rune is well formed. */
  predicate WellEncoded(s: Bytes) {
    s == "" || ((s[0] as int < 0x80 || MultiByte(s) > 0) && WellEncoded(s[RuneSize(s)..]))
  }

  /** A text is read back as it was exactly when it is UTF-8. */
  lemma {:induction false} SameTextExactly(s: Bytes)
    ensures |AsText(s)| >= |s|
    ensures AsText(s) == s <==> WellEncoded(s)
    decreases |s|
  {
    if s != "" {
      var n := RuneSize(s);
      SameTextExactly(s[n..]);
      assert s == s[..n] + s[n..];
      if RuneText(s) == s[..n] {
        assert AsText(s)[n..] == AsText(s[n..]);
      }
    }
  }

  // ----- Members -----

  /** A member's value: a text, `true`, or an object as it stands. */
  datatype Val = Chars(text: Bytes) | Yes | Raw(json: Bytes)

  datatype Field = Field(key: Bytes, val: Val)

  /** Where the object ends that a text opens with. */
  type Ends = Bytes -> nat

  ghost predicate EndsObject(ends: Ends, json: Bytes) {
    && json != "" && json[0] == '{'
    && forall rest: Bytes :: rest != "" && (rest[0] == ',' || rest[0] == '}') ==> ends(json + rest) == |json|
  }

  function ReadValue(ends: Ends, s: Bytes): (r: Read<Val>)
    ensures r.Read? ==> |r.rest| < |s|
  {
    if s == "" then Bad
    else if s[0] == '"' then
      var t := ReadText(s[1..]);
      if t.Read? then Read(Chars(t.value), t.rest) else Bad
    else if HasPrefix(s, "true") then Read(Yes, s[4..])
    else if s[0] == '{' && 0 < ends(s) <= |s| then Read(Raw(s[..ends(s)]), s[ends(s)..])
    else Bad
  }

  /** One member, from the opening quote of its key. */
  function ReadField(ends: Ends, s: Bytes): (r: Read<Field>)
    ensures r.Read? ==> |r.rest| < |s|
  {
    if s == "" || s[0] != '"' then Bad
    else
      var k := ReadText(s[1..]);
      if k.Bad? || k.rest == "" || k.rest[0] != ':' then Bad
      else
        var v := ReadValue(ends, k.rest[1..]);
        if v.Read? then Read(Field(k.value, v.value), v.rest) else Bad
  }

  /** The members of an object, in order, up to its closing brace. */
  function ReadFields(ends: Ends, s: Bytes): (r: Read<seq<Field>>)
    ensures r.Read? ==> |r.rest| < |s|
    decreases |s|
  {
    var f := ReadField(ends, s);
    if f.Bad? || f.rest == "" then Bad
    else if f.rest[0] == '}' then Read([f.value], f.rest[1..])
    else if f.rest[0] == ',' then
      var more := ReadFields(ends, f.rest[1..]);
      if more.Read? then Read([f.value] + more.value, more.rest) else Bad
    else Bad
  }

  predicate PlainKey(key: Bytes) {
    forall k :: 0 <= k < |key| ==> key[k] != '"' && key[k] != '\\'
  }

  function PrintValue(v: Val): Bytes {
    match v
    case Chars(text) => "\"" + EncodeBody(text) + "\""
    case Yes => "true"
    case Raw(json) => json
  }

  function PrintField(f: Field): Bytes {
    "\"" + f.key + "\":" + PrintValue(f.val)
  }

  /** Members behind others. */
  function PrintMore(fs: seq<Field>): Bytes {
    if fs == [] then "" else "," + PrintField(fs[0]) + PrintMore(fs[1..])
  }

  function SeenValue(v: Val): Val {
    if v.Chars? then Chars(AsText(v.text)) else v
  }

  function SeenField(f: Field): Field {
    f.(val := SeenValue(f.val))
  }

  function SeenFields(fs: seq<Field>): seq<Field> {
    seq(|fs|, i requires 0 <= i < |fs| => SeenField(fs[i]))
  }

  ghost predicate Readable(ends: Ends, f: Field) {
    PlainKey(f.key) && (f.val.Raw? ==> EndsObject(ends, f.val.json))
  }

  lemma ReadsChars(ends: Ends, text: Bytes, rest: Bytes)
    ensures ReadValue(ends, "\"" + EncodeBody(text) + "\"" + rest) == Read(Chars(AsText(text)), rest)
  {
    ReadsText(text, rest);
    BehindQuote(EncodeBody(text), rest);
  }

  lemma BehindQuote(e: Bytes, rest: Bytes)
    ensures var s := "\"" + e + "\"" + rest; s[0] == '"' && s[1..] == e + "\"" + rest
  {
  }

  lemma ReadsYes(ends: Ends, rest: Bytes)
    ensures ReadValue(ends, "true" + rest) == Read(Yes, rest)
  {
    assert ("true" + rest)[4..] == rest;
  }

  lemma ReadsObject(ends: Ends, json: Bytes, rest: Bytes)
    requires EndsObject(ends, json) && rest != "" && (rest[0] == ',' || rest[0] == '}')
    ensures ReadValue(ends, json + rest) == Read(Raw(json), rest)
  {
    assert (json + rest)[..|json|] == json && (json + rest)[|json|..] == rest;
  }

  lemma ReadsValue(ends: Ends, v: Val, rest: Bytes)
    requires (v.Raw? ==> EndsObject(ends, v.json)) && rest != "" && (rest[0] == ',' || rest[0] == '}')
    ensures ReadValue(ends, PrintValue(v) + rest) == Read(SeenValue(v), rest)
  {
    match v
    case Chars(text) => ReadsChars(ends, text, rest);
    case Yes => ReadsYes(ends, rest);
    case Raw(json) => ReadsObject(ends, json, rest);
  }

  lemma ReadsKey(key: Bytes, rest: Bytes)
    requires PlainKey(key)
    ensures ReadText(key + "\"" + rest) == Read(key, rest)
  {
    ReadAllPlain(key, "\"" + rest);
    assert key + ("\"" + rest) == key + "\"" + rest && ("\"" + rest)[1..] == rest;
    assert ReadText("\"" + rest) == Read("", rest) && key + "" == key;
  }

  lemma ReadsField(ends: Ends, f: Field, rest: Bytes)
    requires Readable(ends, f) && rest != "" && (rest[0] == ',' || rest[0] == '}')
    ensures ReadField(ends, PrintField(f) + rest) == Read(SeenField(f), rest)
  {
    var s := PrintField(f) + rest;
    var behind := ":" + PrintValue(f.val) + rest;
    assert s[1..] == f.key + "\"" + behind;
    ReadsKey(f.key, behind);
    assert behind[1..] == PrintValue(f.val) + rest;
    ReadsValue(ends, f.val, rest);
  }

  lemma ReadsLast(ends: Ends, f: Field, rest: Bytes)
    requires Readable(ends, f)
    ensures ReadFields(ends, PrintField(f) + ("}" + rest)) == Read([SeenField(f)], rest)
  {
    ReadsField(ends, f, "}" + rest);
    assert ("}" + rest)[1..] == rest;
  }

  lemma ReadsFirst(ends: Ends, f: Field, behind: Bytes, more: seq<Field>, rest: Bytes)
    requires Readable(ends, f) && ReadFields(ends, behind) == Read(more, rest)
    ensures ReadFields(ends, PrintField(f) + ("," + behind)) == Read([SeenField(f)] + more, rest)
  {
    ReadsField(ends, f, "," + behind);
    assert ("," + behind)[1..] == behind;
  }

  lemma Regroup(a: Bytes, b: Bytes, rest: Bytes)
    ensures "," + a + b + rest == "," + (a + (b + rest))
  {
  }

  lemma PrintMoreSteps(fs: seq<Field>, rest: Bytes)
    requires fs != []
    ensures PrintMore(fs) + rest == "," + (PrintField(fs[0]) + (PrintMore(fs[1..]) + rest))
  {
    Regroup(PrintField(fs[0]), PrintMore(fs[1..]), rest);
  }

  lemma SeenSteps(fs: seq<Field>)
    requires fs != []
    ensures SeenFields(fs) == [SeenField(fs[0])] + SeenFields(fs[1..])
  {
  }

  lemma {:induction false} ReadsFields(ends: Ends, fs: seq<Field>, rest: Bytes)
    requires fs != [] && forall f :: f in fs ==> Readable(ends, f)
    ensures ReadFields(ends, PrintField(fs[0]) + (PrintMore(fs[1..]) + ("}" + rest))) == Read(SeenFields(fs), rest)
    decreases |fs|
  {
    var more := fs[1..];
    SeenSteps(fs);
    if more == [] {
      ReadsLast(ends, fs[0], rest);
      assert PrintMore(more) + ("}" + rest) == "}" + rest;
      assert SeenFields(fs) == [SeenField(fs[0])];
    } else {
      var behind := PrintField(more[0]) + (PrintMore(more[1..]) + ("}" + rest));
      ReadsFields(ends, more, rest);
      ReadsFirst(ends, fs[0], behind, SeenFields(more), rest);
      PrintMoreSteps(more, "}" + rest);
    }
  }

  // ----- Parts -----

  function Optional(key: Bytes, text: Bytes): seq<Field> {
    if text == "" then [] else [Field(key, Chars(text))]
  }

  function When(on: bool, f: Field): seq<Field> {
    if on then [f] else []
  }

  function TypeField(p: Part): Field {
    Field("type", Chars(match p.kind
                        case Text => "text"
                        case Reasoning => "reasoning"
                        case ToolCall => "tool_call"
                        case ToolResponse => "tool_call_response"))
  }

  function TextFields(p: Part): seq<Field> {
    Optional("content", p.content) + Optional("id", p.id) + Optional("name", p.name) + Optional("summary", p.summary)
    + (if p.kind == ToolResponse then [] else Optional("response", p.response))
  }

  /** The members behind the type, in the order of the record. */
  function OtherFields(p: Part): seq<Field> {
    TextFields(p) + When(p.arguments != "", Field("arguments", Raw(p.arguments)))
    + When(p.isError, Field("is_error", Yes)) + When(p.truncated, Field("fullsend.truncated", Yes))
    + When(p.kind == ToolResponse, Field("response", Chars(p.response)))
  }

  lemma {:induction false} PrintMoreOfSum(a: seq<Field>, b: seq<Field>)
    ensures PrintMore(a + b) == PrintMore(a) + PrintMore(b)
    decreases |a|
  {
    if a == [] {
      assert a + b == b;
    } else {
      PrintMoreOfSum(a[1..], b);
      assert (a + b)[1..] == a[1..] + b;
      AddUp("," + PrintField(a[0]), PrintMore(a[1..]), PrintMore(b));
    }
  }

  lemma AddUp(a: Bytes, b: Bytes, c: Bytes)
    ensures a + (b + c) == a + b + c
  {
  }

  lemma PrintOne(f: Field)
    ensures PrintMore([f]) == "," + PrintField(f)
  {
    assert [f][1..] == [] && PrintMore([]) == "";
  }

  lemma Spelled(key: Bytes, v: Bytes)
    ensures "," + ("\"" + key + "\":" + v) == ",\"" + key + "\":" + v
  {
  }

  lemma PrintsMember(key: Bytes, text: Bytes)
    ensures PrintMore([Field(key, Chars(text))]) == Quoted(key, text)
    ensures PrintMore(Optional(key, text)) == Member(key, text)
  {
    PrintOne(Field(key, Chars(text)));
    Spelled(key, "\"" + EncodeBody(text) + "\"");
    QuotedIs(",\"" + key + "\":", EncodeBody(text));
  }

  lemma QuotedIs(front: Bytes, e: Bytes)
    ensures front + ("\"" + e + "\"") == front + "\"" + e + "\""
  {
  }

  lemma PrintsArguments(json: Bytes)
    ensures PrintMore([Field("arguments", Raw(json))]) == ",\"arguments\":" + json
  {
    PrintOne(Field("arguments", Raw(json)));
    Spelled("arguments", json);
    assert ",\"" + "arguments" + "\":" == ",\"arguments\":";
  }

  lemma PrintsFlags()
    ensures PrintMore([Field("is_error", Yes)]) == ",\"is_error\":true"
    ensures PrintMore([Field("fullsend.truncated", Yes)]) == ",\"fullsend.truncated\":true"
  {
    PrintOne(Field("is_error", Yes));
    Spelled("is_error", "true");
    PrintOne(Field("fullsend.truncated", Yes));
    Spelled("fullsend.truncated", "true");
  }

  lemma PrintBehind(front: Bytes, a: seq<Field>, b: seq<Field>)
    ensures front + PrintMore(a + b) == front + PrintMore(a) + PrintMore(b)
  {
    PrintMoreOfSum(a, b);
    AddUp(front, PrintMore(a), PrintMore(b));
  }

  lemma PrintsTexts(front: Bytes, p: Part)
    ensures front + PrintMore(TextFields(p))
            == front + Member("content", p.content) + Member("id", p.id) + Member("name", p.name)
               + Member("summary", p.summary) + (if p.kind == ToolResponse then "" else Member("response", p.response))
  {
    var content, id, name := Optional("content", p.content), Optional("id", p.id), Optional("name", p.name);
    var summary := Optional("summary", p.summary);
    var response := if p.kind == ToolResponse then [] else Optional("response", p.response);
    PrintsMember("content", p.content);
    PrintsMember("id", p.id);
    PrintsMember("name", p.name);
    PrintsMember("summary", p.summary);
    PrintsMember("response", p.response);
    PrintBehind(front, content, id);
    PrintBehind(front, content + id, name);
    PrintBehind(front, content + id + name, summary);
    PrintBehind(front, content + id + name + summary, response);
  }

  lemma PrintsOthers(front: Bytes, p: Part)
    ensures front + PrintMore(OtherFields(p))
            == front + PrintMore(TextFields(p)) + (if p.arguments == "" then "" else ",\"arguments\":" + p.arguments)
               + Flag(",\"is_error\":true", p.isError) + Flag(",\"fullsend.truncated\":true", p.truncated)
               + (if p.kind == ToolResponse then Quoted("response", p.response) else "")
  {
    var texts, arguments := TextFields(p), When(p.arguments != "", Field("arguments", Raw(p.arguments)));
    var isError := When(p.isError, Field("is_error", Yes));
    var truncated := When(p.truncated, Field("fullsend.truncated", Yes));
    var response := When(p.kind == ToolResponse, Field("response", Chars(p.response)));
    PrintsArguments(p.arguments);
    PrintsFlags();
    PrintsMember("response", p.response);
    PrintBehind(front, texts, arguments);
    PrintBehind(front, texts + arguments, isError);
    PrintBehind(front, texts + arguments + isError, truncated);
    PrintBehind(front, texts + arguments + isError + truncated, response);
  }

  /** A part's JSON is its members, in that order. */
  lemma PrintsPart(p: Part)
    ensures EncodePart(p) == "{" + PrintField(TypeField(p)) + PrintMore(OtherFields(p)) + "}"
  {
    var front := "{" + PrintField(TypeField(p));
    PrintsOthers(front, p);
    PrintsTexts(front, p);
    TypeIsPlain(p);
  }

  lemma NameIsPlain(k: Kind)
    ensures PlainKey(KindName(k)) && forall i :: 0 <= i < |KindName(k)| ==> PlainChar(KindName(k)[i])
  {
  }

  lemma TypeIsPlain(p: Part)
    ensures "{" + PrintField(TypeField(p)) == "{\"type\":\"" + KindName(p.kind) + "\""
  {
    var name := KindName(p.kind);
    NameIsPlain(p.kind);
    EncodesPlain(name);
    assert TypeField(p) == Field("type", Chars(name));
    TypeSpelled(name);
  }

  lemma TypeSpelled(name: Bytes)
    ensures "{" + ("\"" + "type" + "\":" + ("\"" + name + "\"")) == "{\"type\":\"" + name + "\""
  {
  }

  predicate PlainChar(c: char) {
    'a' <= c <= 'z' || c == '_'
  }

  lemma FirstIsPlain(s: Bytes)
    requires s != "" && PlainChar(s[0])
    ensures EncodeRune(s) == RuneText(s) == [s[0]] && RuneSize(s) == 1
  {
  }

  lemma {:induction false} EncodesPlain(s: Bytes)
    requires forall k :: 0 <= k < |s| ==> PlainChar(s[k])
    ensures EncodeBody(s) == s && AsText(s) == s
  {
    if s != "" {
      EncodesPlain(s[1..]);
      FirstIsPlain(s);
      assert s == [s[0]] + s[1..];
    }
  }

  // ----- Parts, read back -----

  function TextAt(fs: seq<Field>, key: Bytes): Bytes {
    if fs == [] then ""
    else if fs[0].key == key && fs[0].val.Chars? then fs[0].val.text else TextAt(fs[1..], key)
  }

  function ObjectAt(fs: seq<Field>, key: Bytes): Bytes {
    if fs == [] then ""
    else if fs[0].key == key && fs[0].val.Raw? then fs[0].val.json else ObjectAt(fs[1..], key)
  }

  function KindOf(name: Bytes): Kind {
    if name == "tool_call" then ToolCall
    else if name == "tool_call_response" then ToolResponse
    else if name == "reasoning" then Reasoning else Kind.Text
  }

  function PartOf(fs: seq<Field>): Part {
    Part(KindOf(TextAt(fs, "type")), TextAt(fs, "content"), TextAt(fs, "id"), TextAt(fs, "name"),
         TextAt(fs, "summary"), TextAt(fs, "response"), ObjectAt(fs, "arguments"),
         Field("is_error", Yes) in fs, Field("fullsend.truncated", Yes) in fs, false, false)
  }

  /** What a reader sees of a part: all of it but the two flags the record leaves out. */
  function Seen(p: Part): Part {
    Part(p.kind, AsText(p.content), AsText(p.id), AsText(p.name), AsText(p.summary), AsText(p.response), p.arguments,
         p.isError, p.truncated, false, false)
  }

  function AllFields(p: Part): seq<Field> {
    [TypeField(p)] + OtherFields(p)
  }

  lemma TextFieldsAre(p: Part, f: Field)
    ensures f in TextFields(p) <==>
              || (p.content != "" && f == Field("content", Chars(p.content)))
              || (p.id != "" && f == Field("id", Chars(p.id)))
              || (p.name != "" && f == Field("name", Chars(p.name)))
              || (p.summary != "" && f == Field("summary", Chars(p.summary)))
              || (p.kind != ToolResponse && p.response != "" && f == Field("response", Chars(p.response)))
  {
    var content, id, name := Optional("content", p.content), Optional("id", p.id), Optional("name", p.name);
    var summary := Optional("summary", p.summary);
    var response := if p.kind == ToolResponse then [] else Optional("response", p.response);
    assert f in TextFields(p) <==> f in content || f in id || f in name || f in summary || f in response;
  }

  lemma OtherFieldsAre(p: Part, f: Field)
    ensures f in OtherFields(p) <==>
              || f in TextFields(p)
              || (p.arguments != "" && f == Field("arguments", Raw(p.arguments)))
              || (p.isError && f == Field("is_error", Yes))
              || (p.truncated && f == Field("fullsend.truncated", Yes))
              || (p.kind == ToolResponse && f == Field("response", Chars(p.response)))
  {
    var arguments := When(p.arguments != "", Field("arguments", Raw(p.arguments)));
    var isError := When(p.isError, Field("is_error", Yes));
    var truncated := When(p.truncated, Field("fullsend.truncated", Yes));
    var response := When(p.kind == ToolResponse, Field("response", Chars(p.response)));
    assert f in OtherFields(p) <==>
        f in TextFields(p) || f in arguments || f in isError || f in truncated || f in response;
  }

  lemma FieldsAre(p: Part, f: Field)
    ensures f in AllFields(p) <==>
              || f == Field("type", Chars(KindName(p.kind)))
              || (p.content != "" && f == Field("content", Chars(p.content)))
              || (p.id != "" && f == Field("id", Chars(p.id)))
              || (p.name != "" && f == Field("name", Chars(p.name)))
              || (p.summary != "" && f == Field("summary", Chars(p.summary)))
              || ((p.response != "" || p.kind == ToolResponse) && f == Field("response", Chars(p.response)))
              || (p.arguments != "" && f == Field("arguments", Raw(p.arguments)))
              || (p.isError && f == Field("is_error", Yes))
              || (p.truncated && f == Field("fullsend.truncated", Yes))
  {
    TextFieldsAre(p, f);
    OtherFieldsAre(p, f);
    TypeFieldIs(p);
  }

  lemma TypeFieldIs(p: Part)
    ensures TypeField(p) == Field("type", Chars(KindName(p.kind)))
  {
  }

  lemma SeenFieldsAre(fs: seq<Field>, f: Field)
    ensures f in SeenFields(fs) <==> exists g :: g in fs && f == SeenField(g)
  {
    if g :| g in fs && f == SeenField(g) {
      var i :| 0 <= i < |fs| && fs[i] == g;
      assert SeenFields(fs)[i] == f;
    }
  }

  lemma {:induction false} TextIsAt(fs: seq<Field>, key: Bytes, text: Bytes)
    requires forall f :: f in fs && f.key == key ==> f.val == Chars(text)
    requires text == "" || exists f :: f in fs && f.key == key
    ensures TextAt(fs, key) == text
  {
    if fs != [] && fs[0].key != key {
      assert forall f :: f in fs <==> f == fs[0] || f in fs[1..];
      TextIsAt(fs[1..], key, text);
    } else if fs != [] {
      assert fs[0] in fs;
    }
  }

  lemma {:induction false} ObjectIsAt(fs: seq<Field>, key: Bytes, json: Bytes)
    requires forall f :: f in fs && f.key == key ==> f.val == Raw(json)
    requires json == "" || exists f :: f in fs && f.key == key
    ensures ObjectAt(fs, key) == json
  {
    if fs != [] && fs[0].key != key {
      assert forall f :: f in fs <==> f == fs[0] || f in fs[1..];
      ObjectIsAt(fs[1..], key, json);
    } else if fs != [] {
      assert fs[0] in fs;
    }
  }

  /** What is there under a key, once it is read back. */
  lemma SeenTextIs(p: Part, key: Bytes, text: Bytes)
    requires forall f :: f in AllFields(p) && f.key == key ==> f.val == Chars(text)
    requires text != "" ==> Field(key, Chars(text)) in AllFields(p)
    ensures TextAt(SeenFields(AllFields(p)), key) == AsText(text)
  {
    var seen := SeenFields(AllFields(p));
    forall f | f in seen && f.key == key ensures f.val == Chars(AsText(text)) {
      SeenFieldsAre(AllFields(p), f);
    }
    if text != "" {
      SeenFieldsAre(AllFields(p), SeenField(Field(key, Chars(text))));
    }
    TextIsAt(seen, key, AsText(text));
  }

  lemma SeenArgumentsAre(p: Part)
    ensures ObjectAt(SeenFields(AllFields(p)), "arguments") == p.arguments
  {
    var seen := SeenFields(AllFields(p));
    forall f | f in seen && f.key == "arguments"
      ensures p.arguments != "" && f == Field("arguments", Raw(p.arguments))
    {
      SeenFieldsAre(AllFields(p), f);
      var g :| g in AllFields(p) && f == SeenField(g);
      FieldsAre(p, g);
    }
    if p.arguments != "" {
      var f := Field("arguments", Raw(p.arguments));
      FieldsAre(p, f);
      SeenFieldsAre(AllFields(p), f);
    }
    ObjectIsAt(seen, "arguments", p.arguments);
  }

  lemma SeenFlagIs(p: Part, key: Bytes)
    ensures Field(key, Yes) in SeenFields(AllFields(p)) <==> Field(key, Yes) in AllFields(p)
  {
    SeenFieldsAre(AllFields(p), Field(key, Yes));
    assert SeenField(Field(key, Yes)) == Field(key, Yes);
  }

  function TextUnder(p: Part, key: Bytes): Bytes {
    if key == "type" then KindName(p.kind)
    else if key == "content" then p.content
    else if key == "id" then p.id
    else if key == "name" then p.name
    else if key == "summary" then p.summary
    else if key == "response" then p.response else ""
  }

  predicate TextKey(key: Bytes) {
    key == "type" || key == "content" || key == "id" || key == "name" || key == "summary" || key == "response"
  }

  lemma UnderKey(p: Part, key: Bytes, f: Field)
    requires TextKey(key)
    ensures f in AllFields(p) && f.key == key ==> f.val == Chars(TextUnder(p, key))
    ensures f == Field(key, Chars(TextUnder(p, key))) && TextUnder(p, key) != "" ==> f in AllFields(p)
  {
    FieldsAre(p, f);
  }

  lemma SeenText(p: Part, key: Bytes)
    requires TextKey(key)
    ensures TextAt(SeenFields(AllFields(p)), key) == AsText(TextUnder(p, key))
  {
    forall f | f in AllFields(p) && f.key == key ensures f.val == Chars(TextUnder(p, key)) {
      UnderKey(p, key, f);
    }
    UnderKey(p, key, Field(key, Chars(TextUnder(p, key))));
    SeenTextIs(p, key, TextUnder(p, key));
  }

  lemma SeenKind(p: Part)
    ensures KindOf(TextAt(SeenFields(AllFields(p)), "type")) == p.kind
  {
    SeenText(p, "type");
    NameIsPlain(p.kind);
    EncodesPlain(KindName(p.kind));
  }

  lemma SeenFlags(p: Part)
    ensures Field("is_error", Yes) in SeenFields(AllFields(p)) <==> p.isError
    ensures Field("fullsend.truncated", Yes) in SeenFields(AllFields(p)) <==> p.truncated
  {
    SeenFlagIs(p, "is_error");
    SeenFlagIs(p, "fullsend.truncated");
    FieldsAre(p, Field("is_error", Yes));
    FieldsAre(p, Field("fullsend.truncated", Yes));
  }

  /** A part's members give the part back. */
  lemma PartReadsBack(p: Part)
    ensures PartOf(SeenFields(AllFields(p))) == Seen(p)
  {
    SeenKind(p);
    SeenText(p, "content");
    SeenText(p, "id");
    SeenText(p, "name");
    SeenText(p, "summary");
    SeenText(p, "response");
    SeenArgumentsAre(p);
    SeenFlags(p);
  }

  // ----- The record -----

  function ReadPart(ends: Ends, s: Bytes): (r: Read<Part>)
    ensures r.Read? ==> |r.rest| < |s|
  {
    if s == "" || s[0] != '{' then Bad
    else
      var fs := ReadFields(ends, s[1..]);
      if fs.Read? then Read(PartOf(fs.value), fs.rest) else Bad
  }

  /** Parts up to the closing bracket of their list. */
  function ReadParts(ends: Ends, s: Bytes): Read<seq<Part>>
    decreases |s|
  {
    var p := ReadPart(ends, s);
    if p.Bad? || p.rest == "" then Bad
    else if p.rest[0] == ']' then Read([p.value], p.rest[1..])
    else if p.rest[0] == ',' then
      var more := ReadParts(ends, p.rest[1..]);
      if more.Read? then Read([p.value] + more.value, more.rest) else Bad
    else Bad
  }

  function After(s: Bytes, front: Bytes): Option<Bytes> {
    if HasPrefix(s, front) then Some(s[|front|..]) else None
  }

  /** One message of the assistant: its parts and why it finished. */
  function ReadRecord(ends: Ends, s: Bytes): Option<(seq<Part>, Bytes)> {
    match After(s, "[{\"role\":\"assistant\",\"parts\":[")
    case None => None
    case Some(list) =>
      match ReadParts(ends, list)
      case Bad => None
      case Read(parts, more) =>
        match After(more, ",\"finish_reason\":\"")
        case None => None
        case Some(reason) =>
          match ReadText(reason)
          case Bad => None
          case Read(text, rest) => if rest == "}]" then Some((parts, text)) else None
  }

  ghost predicate ReadableArguments(ends: Ends, p: Part) {
    p.arguments != "" ==> EndsObject(ends, p.arguments)
  }

  lemma KeysArePlain()
    ensures PlainKey("type") && PlainKey("content") && PlainKey("id") && PlainKey("name") && PlainKey("summary")
    ensures PlainKey("response") && PlainKey("arguments") && PlainKey("is_error") && PlainKey("fullsend.truncated")
  {
  }

  lemma FieldsAreReadable(ends: Ends, p: Part, f: Field)
    requires ReadableArguments(ends, p) && f in AllFields(p)
    ensures Readable(ends, f)
  {
    KeysArePlain();
    FieldsAre(p, f);
    if f.val.Raw? {
      assert f.key == "arguments" && f.val.json == p.arguments != "";
    }
  }

  lemma WholePart(typ: Bytes, more: Bytes, rest: Bytes)
    ensures var s := "{" + typ + more + "}" + rest; s[0] == '{' && s[1..] == typ + (more + ("}" + rest))
  {
  }

  lemma ReadsPart(ends: Ends, p: Part, rest: Bytes)
    requires ReadableArguments(ends, p)
    ensures ReadPart(ends, EncodePart(p) + rest) == Read(Seen(p), rest)
  {
    PrintsPart(p);
    WholePart(PrintField(TypeField(p)), PrintMore(OtherFields(p)), rest);
    forall f | f in AllFields(p) ensures Readable(ends, f) {
      FieldsAreReadable(ends, p, f);
    }
    assert AllFields(p)[1..] == OtherFields(p);
    ReadsFields(ends, AllFields(p), rest);
    PartReadsBack(p);
  }

  function SeenParts(ps: seq<Part>): seq<Part> {
    seq(|ps|, i requires 0 <= i < |ps| => Seen(ps[i]))
  }

  lemma ReadsLastPart(ends: Ends, s: Bytes, p: Part, rest: Bytes)
    requires ReadPart(ends, s) == Read(p, "]" + rest)
    ensures ReadParts(ends, s) == Read([p], rest)
  {
    assert ("]" + rest)[1..] == rest;
  }

  lemma ReadsFirstPart(ends: Ends, s: Bytes, p: Part, behind: Bytes, more: seq<Part>, rest: Bytes)
    requires ReadPart(ends, s) == Read(p, "," + behind) && ReadParts(ends, behind) == Read(more, rest)
    ensures ReadParts(ends, s) == Read([p] + more, rest)
  {
    assert ("," + behind)[1..] == behind;
  }

  lemma CommaBetween(a: Bytes, b: Bytes, rest: Bytes)
    ensures a + "," + b + rest == a + ("," + (b + rest))
  {
  }

  lemma JoinSteps(ps: seq<Part>, rest: Bytes)
    requires |ps| > 1
    ensures Join(ps) + rest == EncodePart(ps[0]) + ("," + (Join(ps[1..]) + rest))
  {
    CommaBetween(EncodePart(ps[0]), Join(ps[1..]), rest);
  }

  lemma ReadsOnly(ends: Ends, p: Part, rest: Bytes)
    requires ReadableArguments(ends, p)
    ensures ReadParts(ends, Join([p]) + ("]" + rest)) == Read(SeenParts([p]), rest)
  {
    ReadsPart(ends, p, "]" + rest);
    ReadsLastPart(ends, Join([p]) + ("]" + rest), Seen(p), rest);
    assert SeenParts([p]) == [Seen(p)];
  }

  lemma ReadsMore(ends: Ends, p: Part, behind: Bytes, more: seq<Part>, rest: Bytes)
    requires ReadableArguments(ends, p) && ReadParts(ends, behind) == Read(more, rest)
    ensures ReadParts(ends, EncodePart(p) + ("," + behind)) == Read([Seen(p)] + more, rest)
  {
    ReadsPart(ends, p, "," + behind);
    ReadsFirstPart(ends, EncodePart(p) + ("," + behind), Seen(p), behind, more, rest);
  }

  lemma SeenPartsSteps(ps: seq<Part>)
    requires ps != []
    ensures SeenParts(ps) == [Seen(ps[0])] + SeenParts(ps[1..])
  {
  }

  lemma {:induction false} ReadsParts(ends: Ends, ps: seq<Part>, rest: Bytes)
    requires ps != [] && forall p :: p in ps ==> ReadableArguments(ends, p)
    ensures ReadParts(ends, Join(ps) + ("]" + rest)) == Read(SeenParts(ps), rest)
    decreases |ps|
  {
    if |ps| == 1 {
      ReadsOnly(ends, ps[0], rest);
      assert ps == [ps[0]];
    } else {
      ReadsParts(ends, ps[1..], rest);
      ReadsMore(ends, ps[0], Join(ps[1..]) + ("]" + rest), SeenParts(ps[1..]), rest);
      JoinSteps(ps, "]" + rest);
      SeenPartsSteps(ps);
    }
  }

  lemma AfterFront(front: Bytes, rest: Bytes)
    ensures After(front + rest, front) == Some(rest)
  {
    assert (front + rest)[..|front|] == front && (front + rest)[|front|..] == rest;
  }

  lemma RecordSpelled(join: Bytes, e: Bytes)
    ensures "[{\"role\":\"assistant\",\"parts\":[" + join + "],\"finish_reason\":\"" + e + "\"}]"
            == "[{\"role\":\"assistant\",\"parts\":["
               + (join + ("]" + (",\"finish_reason\":\"" + (e + "\"" + "}]"))))
  {
    var front, reason, end := "[{\"role\":\"assistant\",\"parts\":[", ",\"finish_reason\":\"", "}]";
    assert "],\"finish_reason\":\"" == "]" + reason && "\"}]" == "\"" + end;
    Unnest(front, join, reason, e, end);
  }

  lemma Unnest(front: Bytes, join: Bytes, reason: Bytes, e: Bytes, end: Bytes)
    ensures front + join + ("]" + reason) + e + ("\"" + end)
            == front + (join + ("]" + (reason + (e + "\"" + end))))
  {
  }

  /** A reader finds in the record exactly the parts it was made of, in order, and the
      reason it finished; only text that is no UTF-8 differs. */
  lemma RecordReadsBack(ends: Ends, ps: seq<Part>, finishReason: Bytes)
    requires ps != [] && forall p :: p in ps ==> ReadableArguments(ends, p)
    ensures ReadRecord(ends, MarshalOutput(ps, finishReason)) == Some((SeenParts(ps), AsText(finishReason)))
  {
    var reason := EncodeBody(finishReason) + "\"" + "}]";
    var more := ",\"finish_reason\":\"" + reason;
    RecordSpelled(Join(ps), EncodeBody(finishReason));
    AfterFront("[{\"role\":\"assistant\",\"parts\":[", Join(ps) + ("]" + more));
    ReadsParts(ends, ps, more);
    AfterFront(",\"finish_reason\":\"", reason);
    ReadsText(finishReason, "}]");
  }

  /** One message of the user: its parts. */
  function ReadInput(ends: Ends, s: Bytes): Option<seq<Part>> {
    match After(s, "[{\"role\":\"user\",\"parts\":[")
    case None => None
    case Some(list) =>
      match ReadParts(ends, list)
      case Bad => None
      case Read(parts, rest) => if rest == "}]" then Some(parts) else None
  }

  lemma InputSpelled(join: Bytes)
    ensures "[{\"role\":\"user\",\"parts\":[" + join + "]}]"
            == "[{\"role\":\"user\",\"parts\":[" + (join + ("]" + "}]"))
  {
  }

  /** A recorded prompt is read back as its one text. */
  lemma InputReadsBack(ends: Ends, text: Bytes)
    ensures ReadInput(ends, MarshalInput(text)) == Some([TextPart(Kind.Text, AsText(text))])
  {
    var p := TextPart(Kind.Text, text);
    InputSpelled(Join([p]));
    AfterFront("[{\"role\":\"user\",\"parts\":[", Join([p]) + ("]" + "}]"));
    ReadsOnly(ends, p, "}]");
    assert SeenParts([p]) == [TextPart(Kind.Text, AsText(text))];
  }
}
