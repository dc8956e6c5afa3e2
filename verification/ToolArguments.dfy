/** The arguments of a tool call: which members of its input are scanned, which of them
    the record keeps, and as what.

    The redactor is any function: it may lengthen, shorten or empty a text, and nothing
    says that redacting twice is redacting once. Only its first branch is fixed: an
    empty text stays empty and raises nothing. Decoding an input and the table of the
    members to record are any functions too. */
module ToolArguments {
  import opened GoText
  import opened Wrappers

  const MAX_TOOL_ARGUMENTS_BYTES := 8 * 1024

  datatype Finding = Finding(scanner: Bytes, name: Bytes)

  datatype Redacted = Redacted(text: Bytes, findings: seq<Finding>)

  /** A member's value: a string, a number's digits, an object or an array as it
      encodes, or a boolean or null. */
  datatype Value = Str(text: Bytes) | Num(digits: Bytes) | Nested(encoded: Bytes) | Literal(encoded: Bytes)

  datatype Member = Member(key: Bytes, value: Value)

  /** What an input is: nothing, or null; no single JSON object, or one with bytes that
      are not text; or an object, its members by key. */
  datatype Input = NoInput | Unreadable | Object(members: seq<Member>)

  datatype Rules = Rules(
    redactor: Bytes -> Redacted, decode: Bytes -> Input, listed: Bytes -> Option<set<Bytes>>)

  function Redact(rules: Rules, text: Bytes): Redacted {
    if text == "" then Redacted("", []) else rules.redactor(text)
  }

  // ----- One member -----

  /** What a member gives the redactor to scan. */
  function Texts(m: Member): seq<Bytes> {
    match m.value
    case Str(text) => [text]
    case Num(digits) => [digits]
    case Nested(encoded) => [encoded]
    case Literal(_) => []
  }

  /** The table lists the member for the tool, and its value is a scalar. */
  predicate Kept(rules: Rules, tool: Bytes, m: Member) {
    rules.listed(tool).Some? && m.key in rules.listed(tool).value && !m.value.Nested?
  }

  /** As what a member is recorded: a number that was masked becomes the mask. */
  function Recorded(rules: Rules, m: Member): Member {
    match m.value
    case Str(text) => m.(value := Str(Redact(rules, text).text))
    case Num(digits) =>
      var text := Redact(rules, digits).text;
      m.(value := if text == digits then Num(digits) else Str(text))
    case _ => m
  }

  // ----- All members -----

  function AllTexts(ms: seq<Member>): seq<Bytes> {
    if ms == [] then [] else AllTexts(ms[..|ms| - 1]) + Texts(ms[|ms| - 1])
  }

  function RecordedMembers(rules: Rules, tool: Bytes, ms: seq<Member>): seq<Member> {
    if ms == [] then []
    else
      var m := ms[|ms| - 1];
      RecordedMembers(rules, tool, ms[..|ms| - 1]) + if Kept(rules, tool, m) then [Recorded(rules, m)] else []
  }

  // ----- JSON -----

  function EncodeValue(v: Value): Bytes {
    match v
    case Str(text) => "\"" + EncodeBody(text) + "\""
    case Num(digits) => digits
    case Nested(encoded) => encoded
    case Literal(encoded) => encoded
  }

  function EncodeMembers(ms: seq<Member>): Bytes {
    if ms == [] then ""
    else
      var m := ms[|ms| - 1];
      EncodeMembers(ms[..|ms| - 1]) + (if |ms| == 1 then "" else ",") + "\"" + EncodeBody(m.key) + "\":"
      + EncodeValue(m.value)
  }

  function EncodeObject(ms: seq<Member>): Bytes {
    "{" + EncodeMembers(ms) + "}"
  }

  /** The JSON of what is recorded; none when the tool is not listed or nothing is left
      of its members. */
  function ObjectJSON(rules: Rules, tool: Bytes, ms: seq<Member>): Bytes {
    var kept := RecordedMembers(rules, tool, ms);
    if rules.listed(tool).None? || (kept == [] && ms != []) then "" else EncodeObject(kept)
  }

  /** The arguments a call keeps. */
  function KeptArguments(rules: Rules, tool: Bytes, args: Bytes): (json: Bytes)
    ensures |json| <= MAX_TOOL_ARGUMENTS_BYTES
  {
    match rules.decode(args)
    case Object(ms) =>
      var json := ObjectJSON(rules, tool, ms);
      if |json| > MAX_TOOL_ARGUMENTS_BYTES then "" else json
    case _ => ""
  }

  /** Whether they are dropped whole, and how many bytes that costs. */
  predicate ArgumentsDropped(rules: Rules, tool: Bytes, args: Bytes) {
    match rules.decode(args)
    case NoInput => false
    case Unreadable => true
    case Object(ms) => |ObjectJSON(rules, tool, ms)| > MAX_TOOL_ARGUMENTS_BYTES
  }

  function DroppedBytes(rules: Rules, tool: Bytes, args: Bytes): nat {
    match rules.decode(args)
    case NoInput => 0
    case Unreadable => |Redact(rules, args).text|
    case Object(ms) => |ObjectJSON(rules, tool, ms)|
  }

  /** The texts that are scanned: every string, number and nested value of an object,
      listed or not, and the whole input when it is no object. */
  function ScannedTexts(rules: Rules, args: Bytes): seq<Bytes> {
    match rules.decode(args)
    case NoInput => []
    case Unreadable => [args]
    case Object(ms) => AllTexts(ms)
  }

  lemma {:induction false} AllTextsMembers(ms: seq<Member>)
    ensures forall x :: x in AllTexts(ms) <==> exists m :: m in ms && x in Texts(m)
  {
    if ms != [] {
      var n := |ms| - 1;
      AllTextsMembers(ms[..n]);
      assert forall m :: m in ms <==> m in ms[..n] || m == ms[n];
    }
  }

  /** The record holds the listed scalar members of a listed tool, each redacted, and
      nothing else. */
  lemma {:induction false} RecordsExactlyListed(rules: Rules, tool: Bytes, ms: seq<Member>)
    ensures forall q :: q in RecordedMembers(rules, tool, ms) <==>
              exists m :: m in ms && Kept(rules, tool, m) && q == Recorded(rules, m)
  {
    if ms != [] {
      var n := |ms| - 1;
      RecordsExactlyListed(rules, tool, ms[..n]);
      assert forall m :: m in ms <==> m in ms[..n] || m == ms[n];
    }
  }

  /** So every text in it is a redaction, or digits that redaction left alone; and each
      of these texts was scanned. */
  lemma RecordedIsRedacted(rules: Rules, tool: Bytes, ms: seq<Member>, q: Member)
    requires q in RecordedMembers(rules, tool, ms)
    ensures rules.listed(tool).Some? && q.key in rules.listed(tool).value
    ensures match q.value
            case Str(text) => exists x :: x in AllTexts(ms) && text == Redact(rules, x).text
            case Num(digits) => digits in AllTexts(ms) && Redact(rules, digits).text == digits
            case Nested(_) => false
            case Literal(_) => true
  {
    RecordsExactlyListed(rules, tool, ms);
    AllTextsMembers(ms);
    var m :| m in ms && Kept(rules, tool, m) && q == Recorded(rules, m);
    match m.value
    case Str(text) => assert text in Texts(m);
    case Num(digits) => assert digits in Texts(m);
    case _ =>
  }
}
