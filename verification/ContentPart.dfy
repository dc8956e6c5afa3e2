/** The parts of the assistant output message: their footprints, their JSON, and
    what it means for one list of parts to be a cut of another. */
module ContentPart {
  import opened GoText

  datatype Kind = Text | Reasoning | ToolCall | ToolResponse

  /** One part. The flags say: the call failed, the part reads as a fragment, its
      bulk field was redacted when it was cut, the parser skipped its line. */
  datatype Part = Part(
    kind: Kind,
    content: Bytes,
    id: Bytes,
    name: Bytes,
    summary: Bytes,
    response: Bytes,
    arguments: Bytes,
    isError: bool,
    truncated: bool,
    bulkScanned: bool,
    oversized: bool)

  const IS_ERROR_FOOTPRINT := 16
  const TRUNCATED_FOOTPRINT := 26

  function TextPart(kind: Kind, text: Bytes): Part {
    Part(kind, text, "", "", "", "", "", false, false, false, false)
  }

  /** Content-bearing bytes; a part with none contributes nothing. */
  function ContentBytes(p: Part): nat {
    |p.content| + |p.name| + |p.summary| + |p.response| + |p.arguments|
    + (if p.isError then IS_ERROR_FOOTPRINT else 0)
    + (if p.oversized then TRUNCATED_FOOTPRINT else 0)
  }

  /** The budget footprint. */
  function PartSize(p: Part): nat {
    ContentBytes(p) + |p.id|
  }

  function SumSize(ps: seq<Part>): nat {
    if ps == [] then 0 else PartSize(ps[0]) + SumSize(ps[1..])
  }

  lemma {:induction false} SumSizeConcat(a: seq<Part>, b: seq<Part>)
    ensures SumSize(a + b) == SumSize(a) + SumSize(b)
  {
    if a == [] {
      assert a + b == b;
    } else {
      assert (a + b)[1..] == a[1..] + b;
      SumSizeConcat(a[1..], b);
    }
  }

  /** The one field size cuts operate on. */
  function Bulk(p: Part): Bytes {
    if p.kind == ToolResponse then p.response else p.content
  }

  function WithBulk(p: Part, b: Bytes): (q: Part)
    ensures Bulk(q) == b
  {
    if p.kind == ToolResponse then p.(response := b) else p.(content := b)
  }

  /** The fields a part of each kind carries, as the event handler builds them. */
  predicate WellFormed(p: Part) {
    match p.kind
    case Text => p == TextPart(Text, p.content).(truncated := p.truncated, bulkScanned := p.bulkScanned)
    case Reasoning => p == TextPart(Reasoning, p.content).(truncated := p.truncated, bulkScanned := p.bulkScanned)
    case ToolCall => p.content == "" && p.response == "" && !p.isError && !p.oversized
    case ToolResponse => p.content == "" && p.name == "" && p.summary == "" && p.arguments == ""
  }

  // ----- Cuts -----

  /** `p` with its bulk field cut to `t` and marked. */
  function Cut(p: Part, t: Bytes): Part {
    WithBulk(p, t).(truncated := true)
  }

  lemma CutSize(p: Part, t: Bytes)
    ensures PartSize(Cut(p, t)) == PartSize(p) - |Bulk(p)| + |t|
    ensures PartSize(WithBulk(p, t)) == PartSize(p) - |Bulk(p)| + |t|
  {
  }

  /** `q` is `p` with its bulk field cut to a proper, non-empty tail. A tool call
      is never cut. */
  predicate CutOf(q: Part, p: Part) {
    && p.kind != ToolCall
    && q == Cut(p, Bulk(q))
    && Bulk(q) != ""
    && |Bulk(q)| < |Bulk(p)|
    && RuneTail(Bulk(q), Bulk(p))
  }

  /** `kept` is an ordered suffix of `ps` of which at most the oldest part is cut. */
  predicate CutSuffix(kept: seq<Part>, ps: seq<Part>) {
    && |kept| <= |ps|
    && (kept != [] ==>
          var i := |ps| - |kept|;
          kept[1..] == ps[i + 1..] && (kept[0] == ps[i] || CutOf(kept[0], ps[i])))
  }

  lemma CutSuffixTransitive(a: seq<Part>, b: seq<Part>, c: seq<Part>)
    requires CutSuffix(a, b) && CutSuffix(b, c)
    ensures CutSuffix(a, c)
  {
    if a != [] {
      var i, j := |b| - |a|, |c| - |b|;
      assert b[1..][i..] == b[i + 1..];
      assert c[j + 1..][i..] == c[i + j + 1..];
      if i > 0 {
        assert b[i] == b[1..][i - 1];
      } else if a[0] != b[0] && b[0] != c[j] {
        CutOfTransitive(a[0], b[0], c[j]);
      }
    }
  }

  lemma CutOfTransitive(r: Part, q: Part, p: Part)
    requires CutOf(r, q) && CutOf(q, p)
    ensures CutOf(r, p)
  {
    RuneTailTransitive(Bulk(r), Bulk(q), Bulk(p));
    CutTwice(p, Bulk(q), Bulk(r));
  }

  lemma CutTwice(p: Part, t: Bytes, u: Bytes)
    ensures Cut(Cut(p, t), u) == Cut(p, u)
  {
  }

  // ----- JSON -----

  function KindName(k: Kind): Bytes {
    match k
    case Text => "text"
    case Reasoning => "reasoning"
    case ToolCall => "tool_call"
    case ToolResponse => "tool_call_response"
  }

  function Quoted(key: Bytes, s: Bytes): Bytes {
    ",\"" + key + "\":\"" + EncodeBody(s) + "\""
  }

  /** A string member that is left out when empty. */
  function Member(key: Bytes, s: Bytes): Bytes {
    if s == "" then "" else Quoted(key, s)
  }

  function Flag(text: Bytes, on: bool): Bytes {
    if on then text else ""
  }

  /** One part's JSON. The response key of a tool response is always there and
      comes last. */
  function EncodePart(p: Part): Bytes {
    "{\"type\":\"" + KindName(p.kind) + "\""
    + Member("content", p.content) + Member("id", p.id) + Member("name", p.name) + Member("summary", p.summary)
    + (if p.kind == ToolResponse then "" else Member("response", p.response))
    + (if p.arguments == "" then "" else ",\"arguments\":" + p.arguments)
    + Flag(",\"is_error\":true", p.isError) + Flag(",\"fullsend.truncated\":true", p.truncated)
    + (if p.kind == ToolResponse then Quoted("response", p.response) else "")
    + "}"
  }

  function Join(ps: seq<Part>): Bytes {
    if ps == [] then "" else if |ps| == 1 then EncodePart(ps[0]) else EncodePart(ps[0]) + "," + Join(ps[1..])
  }

  /** The `gen_ai.output.messages` attribute. */
  function MarshalOutput(ps: seq<Part>, finishReason: Bytes): Bytes {
    "[{\"role\":\"assistant\",\"parts\":[" + Join(ps) + "],\"finish_reason\":\"" + EncodeBody(finishReason) + "\"}]"
  }

  /** The `gen_ai.input.messages` attribute. */
  function MarshalInput(text: Bytes): Bytes {
    "[{\"role\":\"user\",\"parts\":[" + Join([TextPart(Text, text)]) + "]}]"
  }

  /** The two footprints are the exact lengths of the two JSON flags. */
  lemma FootprintsAreExact()
    ensures IS_ERROR_FOOTPRINT == |"\"is_error\":true,"| == |",\"is_error\":true"|
    ensures TRUNCATED_FOOTPRINT == |"\"fullsend.truncated\":true,"| == |",\"fullsend.truncated\":true"|
  {
  }

  /** The exact number of bytes a cut takes off a part's JSON: what the bulk field
      loses, less the marker when the part did not carry one yet. */
  lemma CutSavesExactly(p: Part, t: Bytes)
    requires p.kind != ToolCall && Bulk(p) != "" && t != ""
    ensures |EncodePart(Cut(p, t))|
            == |EncodePart(p)| - EncodedLen(Bulk(p)) + EncodedLen(t) + (if p.truncated then 0 else TRUNCATED_FOOTPRINT)
  {
  }

  /** Dropping the oldest of several parts saves its JSON and one comma. */
  lemma DropSavesExactly(ps: seq<Part>)
    requires |ps| >= 2
    ensures |Join(ps[1..])| == |Join(ps)| - |EncodePart(ps[0])| - 1
  {
  }

  lemma JoinHead(p: Part, q: Part, rest: seq<Part>)
    ensures |Join([p] + rest)| - |EncodePart(p)| == |Join([q] + rest)| - |EncodePart(q)|
  {
    assert ([p] + rest)[1..] == rest == ([q] + rest)[1..];
  }
}
