/** The content collector: a size-bounded recorder of the agent's event stream. */
module Collector {
  import opened GoText
  import opened ContentPart
  import opened Redaction
  import opened SizeCuts
  import opened ToolArguments

  const MAX_ENCODED_CONTENT_BYTES := 255_000
  const MAX_TOOL_ID_BYTES := 256
  const MAX_TOOL_RESULT_BYTES := 8 * 1024

  /** The most a tool response can carry besides its bulk field. */
  const MAX_RESPONSE_OVERHEAD := MAX_TOOL_ID_BYTES + IS_ERROR_FOOTPRINT + TRUNCATED_FOOTPRINT

  datatype Event =
    | TextEvent(text: Bytes)
    | ThinkingEvent(text: Bytes)
    | ToolUse(id: Bytes, name: Bytes, summary: Bytes, arguments: Bytes)
    | ToolResult(id: Bytes, result: Bytes, isError: bool, partial: bool, oversized: bool)
    | OtherEvent

  datatype ContentResult = ContentResult(
    outputMessages: Bytes, droppedBytes: nat, truncated: bool, findings: seq<Finding>)

  function BoundedId(id: Bytes): (r: Bytes)
    ensures |r| <= MAX_TOOL_ID_BYTES
  {
    if |id| > MAX_TOOL_ID_BYTES then "" else id
  }

  // ----- What eviction leaves -----

  /** The newest parts: the shortest suffix behind which at least `maxBytes` of
      content already follows, never empty. */
  function Survivors(ps: seq<Part>, maxBytes: nat): seq<Part> {
    if |ps| > 1 && SumSize(ps[1..]) >= maxBytes then Survivors(ps[1..], maxBytes) else ps
  }

  lemma {:induction false} SurvivorsAreNewest(ps: seq<Part>, maxBytes: nat)
    ensures var r := Survivors(ps, maxBytes);
            && |r| <= |ps| && r == ps[|ps| - |r|..] && (ps != [] ==> r != [])
            && (|r| <= 1 || SumSize(r[1..]) < maxBytes)
  {
    if |ps| > 1 && SumSize(ps[1..]) >= maxBytes {
      SurvivorsAreNewest(ps[1..], maxBytes);
    }
  }

  /** Eviction is not greedy: whatever it takes has at least `maxBytes` behind it. */
  lemma {:induction false} EvictedHasBudgetBehind(ps: seq<Part>, maxBytes: nat, i: nat)
    requires i < |ps| - |Survivors(ps, maxBytes)|
    ensures SumSize(ps[i + 1..]) >= maxBytes
    decreases |ps|
  {
    SurvivorsAreNewest(ps, maxBytes);
    if i > 0 {
      EvictedHasBudgetBehind(ps[1..], maxBytes, i - 1);
      assert ps[1..][i..] == ps[i + 1..];
    }
  }

  /** A part whose bulk field was redacted to `scanned` and cut to `kept`. */
  function Trimmed(p: Part, scanned: Bytes, kept: Bytes): Part {
    WithBulk(p, kept).(bulkScanned := true, truncated := p.truncated || |kept| < |scanned|)
  }

  /** A lone part whose head is cut: redacted whole first, then cut to the budget. */
  function PreTrimmed(rules: Rules, p: Part, maxBytes: nat): Part {
    var scanned := Redact(rules, Bulk(p)).text;
    Trimmed(p, scanned, Tail(scanned, maxBytes))
  }

  predicate NeedsPreTrim(ps: seq<Part>, maxBytes: nat) {
    |ps| == 1 && ps[0].kind != ToolCall && PartSize(ps[0]) > 2 * maxBytes
  }

  function Settled(rules: Rules, ps: seq<Part>, maxBytes: nat): seq<Part> {
    var r := Survivors(ps, maxBytes);
    if NeedsPreTrim(r, maxBytes) then [PreTrimmed(rules, r[0], maxBytes)] else r
  }

  /** At most twice the budget: what every held part but a tool call stays under. */
  predicate Small(p: Part, maxBytes: nat) {
    p.kind != ToolCall ==> PartSize(p) <= 2 * maxBytes
  }

  predicate AllSmall(ps: seq<Part>, maxBytes: nat) {
    forall p :: p in ps ==> Small(p, maxBytes)
  }

  lemma PreTrimmedFits(rules: Rules, p: Part, maxBytes: nat)
    requires WellFormed(p) && p.kind != ToolCall && |p.id| <= MAX_TOOL_ID_BYTES
    ensures PartSize(PreTrimmed(rules, p, maxBytes)) <= maxBytes + MAX_RESPONSE_OVERHEAD
    ensures WellFormed(PreTrimmed(rules, p, maxBytes))
  {
    CutSize(p, Tail(Redact(rules, Bulk(p)).text, maxBytes));
  }

  lemma {:induction false} MemberIsNotLarger(ps: seq<Part>, p: Part)
    requires p in ps
    ensures PartSize(p) <= SumSize(ps)
  {
    if p != ps[0] {
      MemberIsNotLarger(ps[1..], p);
    }
  }

  /** If only the newest part may be large, none is once the list has settled. */
  lemma SettledIsSmall(rules: Rules, ps: seq<Part>, maxBytes: nat)
    requires maxBytes >= MAX_RESPONSE_OVERHEAD && ps != []
    requires forall i :: 0 <= i < |ps| - 1 ==> Small(ps[i], maxBytes)
    requires forall p :: p in ps ==> WellFormed(p) && |p.id| <= MAX_TOOL_ID_BYTES
    ensures AllSmall(Settled(rules, ps, maxBytes), maxBytes)
  {
    var r := Survivors(ps, maxBytes);
    SurvivorsAreNewest(ps, maxBytes);
    if NeedsPreTrim(r, maxBytes) {
      assert r[0] in ps;
      PreTrimmedFits(rules, r[0], maxBytes);
    } else if |r| > 1 {
      forall p | p in r ensures Small(p, maxBytes) {
        if p in r[1..] {
          MemberIsNotLarger(r[1..], p);
        } else {
          assert p == r[0] == ps[|ps| - |r|];
        }
      }
    }
  }

  /** A part the collector may hold. */
  ghost predicate GoodPart(rules: Rules, log: Log, p: Part) {
    WellFormed(p) && |p.id| <= MAX_TOOL_ID_BYTES && FlagIsTrue(rules, log, p) && CallIsClean(rules, log, p)
  }

  ghost predicate AllGood(rules: Rules, log: Log, ps: seq<Part>) {
    forall p :: p in ps ==> GoodPart(rules, log, p)
  }

  /** The flags of held parts outlive any growth of the log. */
  lemma StayGood(rules: Rules, log: Log, later: Log, ps: seq<Part>, kept: seq<Part>)
    requires Grows(log, later) && AllGood(rules, log, ps) && forall p :: p in kept ==> p in ps
    ensures AllGood(rules, later, kept)
  {
    forall p | p in kept ensures GoodPart(rules, later, p) {
      FlagStaysTrue(rules, log, later, p);
      CallStaysClean(rules, log, later, p);
    }
  }

  lemma SingleSize(p: Part)
    ensures SumSize([p]) == PartSize(p)
  {
  }

  method MarkTrimmed(p: Part, scanned: Bytes, kept: Bytes) returns (q: Part)
    ensures q == Trimmed(p, scanned, kept)
  {
    q := p.(bulkScanned := true);
    if |kept| < |scanned| {
      q := q.(truncated := true);
    }
    q := WithBulk(q, kept);
  }

  lemma PreTrimmedIsGood(rules: Rules, log: Log, p: Part, maxBytes: nat)
    requires GoodPart(rules, log, p) && p.kind != ToolCall && Scanned(Bulk(p)) in log
    ensures GoodPart(rules, log, PreTrimmed(rules, p, maxBytes))
  {
    PreTrimmedFits(rules, p, maxBytes);
    assert RuneTail(Bulk(PreTrimmed(rules, p, maxBytes)), Redact(rules, Bulk(p)).text);
  }

  lemma PreTrimmedSize(rules: Rules, p: Part, maxBytes: nat)
    ensures var q := PreTrimmed(rules, p, maxBytes);
            && Bulk(q) == Tail(Redact(rules, Bulk(p)).text, maxBytes)
            && SumSize([q]) == SumSize([p]) - |Bulk(p)| + |Bulk(q)|
  {
    var kept := Tail(Redact(rules, Bulk(p)).text, maxBytes);
    var q := PreTrimmed(rules, p, maxBytes);
    SingleSize(p);
    SingleSize(q);
    CutSize(p, kept);
    FlagsDoNotCount(WithBulk(p, kept), q.bulkScanned, q.truncated);
  }

  lemma FlagsDoNotCount(p: Part, bulkScanned: bool, truncated: bool)
    ensures PartSize(p.(bulkScanned := bulkScanned, truncated := truncated)) == PartSize(p)
    ensures Bulk(p.(bulkScanned := bulkScanned, truncated := truncated)) == Bulk(p)
  {
  }

  // ----- What an event becomes -----

  /** Text joins the newest part when that is of its kind; the joined field was not
      scanned as it now is. */
  function Coalesced(ps: seq<Part>, kind: Kind, text: Bytes): seq<Part> {
    var n := |ps|;
    if n > 0 && ps[n - 1].kind == kind then
      ps[n - 1 := ps[n - 1].(content := ps[n - 1].content + text, bulkScanned := false)]
    else
      ps + [TextPart(kind, text)]
  }

  lemma CoalescedSize(ps: seq<Part>, kind: Kind, text: Bytes)
    ensures SumSize(Coalesced(ps, kind, text)) == SumSize(ps) + |text|
  {
    var n := |ps|;
    if n > 0 && ps[n - 1].kind == kind {
      var last := ps[n - 1];
      var joined := last.(content := last.content + text, bulkScanned := false);
      assert ps == ps[..n - 1] + [last];
      assert Coalesced(ps, kind, text) == ps[..n - 1] + [joined];
      SumSizeConcat(ps[..n - 1], [last]);
      SumSizeConcat(ps[..n - 1], [joined]);
    } else {
      SumSizeConcat(ps, [TextPart(kind, text)]);
    }
  }

  lemma CoalescedIsGood(rules: Rules, log: Log, ps: seq<Part>, kind: Kind, text: Bytes)
    requires AllGood(rules, log, ps) && (kind == Text || kind == Reasoning)
    ensures AllGood(rules, log, Coalesced(ps, kind, text))
  {
    var n := |ps|;
    if n > 0 && ps[n - 1].kind == kind {
      assert GoodPart(rules, log, ps[n - 1]);
      var joined := ps[n - 1].(content := ps[n - 1].content + text, bulkScanned := false);
      assert GoodPart(rules, log, joined);
      forall p | p in ps[n - 1 := joined] ensures GoodPart(rules, log, p) {
        assert p == joined || p in ps;
      }
    }
  }

  /** Text only ever makes the newest part grow. */
  lemma CoalescedSettles(rules: Rules, log: Log, ps: seq<Part>, maxBytes: nat, kind: Kind, text: Bytes)
    requires maxBytes >= MAX_RESPONSE_OVERHEAD && AllSmall(ps, maxBytes)
    requires AllGood(rules, log, ps) && (kind == Text || kind == Reasoning)
    ensures AllSmall(Settled(rules, Coalesced(ps, kind, text), maxBytes), maxBytes)
  {
    var qs := Coalesced(ps, kind, text);
    CoalescedIsGood(rules, log, ps, kind, text);
    forall p | p in qs ensures WellFormed(p) && |p.id| <= MAX_TOOL_ID_BYTES {
      assert GoodPart(rules, log, p);
    }
    forall i | 0 <= i < |qs| - 1 ensures Small(qs[i], maxBytes) {
      assert qs[i] == ps[i];
    }
    SettledIsSmall(rules, qs, maxBytes);
  }

  lemma AppendedSettles(rules: Rules, log: Log, ps: seq<Part>, maxBytes: nat, p: Part)
    requires maxBytes >= MAX_RESPONSE_OVERHEAD && AllSmall(ps, maxBytes)
    requires AllGood(rules, log, ps) && GoodPart(rules, log, p)
    ensures AllSmall(Settled(rules, ps + [p], maxBytes), maxBytes)
  {
    forall q | q in ps + [p] ensures WellFormed(q) && |q.id| <= MAX_TOOL_ID_BYTES {
      assert GoodPart(rules, log, q);
    }
    forall i | 0 <= i < |ps + [p]| - 1 ensures Small((ps + [p])[i], maxBytes) {
      assert (ps + [p])[i] == ps[i];
    }
    SettledIsSmall(rules, ps + [p], maxBytes);
  }

  function FindingsOfAll(rules: Rules, texts: seq<Bytes>): seq<Finding> {
    if texts == [] then [] else FindingsOfAll(rules, texts[..|texts| - 1]) + Redact(rules, texts[|texts| - 1]).findings
  }

  ghost predicate AllScanned(texts: seq<Bytes>, log: Log) {
    forall x :: x in texts ==> Scanned(x) in log
  }

  /** What scanning `texts` made of the log and the findings. */
  ghost predicate ScanProgress(rules: Rules, texts: seq<Bytes>, start: Log, log: Log, found: seq<Finding>,
                               findings: seq<Finding>)
  {
    Grows(start, log) && AllScanned(texts, log) && findings == found + FindingsOfAll(rules, texts)
  }

  lemma {:induction false} FindingsOfSum(rules: Rules, a: seq<Bytes>, b: seq<Bytes>)
    ensures FindingsOfAll(rules, a + b) == FindingsOfAll(rules, a) + FindingsOfAll(rules, b)
  {
    if b == [] {
      assert a + b == a;
    } else {
      var n := |b| - 1;
      FindingsOfSum(rules, a, b[..n]);
      assert (a + b)[..|a + b| - 1] == a + b[..n];
    }
  }

  lemma OneText(rules: Rules, text: Bytes)
    ensures FindingsOfAll(rules, [text]) == Redact(rules, text).findings
  {
    assert [text][..0] == [];
  }

  /** More texts are scanned: `logs` are the log at the start, before them and after. */
  lemma {:induction false} ScannedMore(rules: Rules, texts: seq<Bytes>, more: seq<Bytes>, logs: (Log, Log, Log),
                                       found: seq<Finding>, findings: seq<Finding>)
    requires ScanProgress(rules, texts, logs.0, logs.1, found, findings)
    requires Grows(logs.1, logs.2) && AllScanned(more, logs.2)
    ensures ScanProgress(rules, texts + more, logs.0, logs.2, found, findings + FindingsOfAll(rules, more))
  {
    GrowsOn(logs.0, logs.1, logs.2);
    FindingsOfSum(rules, texts, more);
  }

  lemma TextsNext(ms: seq<Member>, i: nat)
    requires i < |ms|
    ensures AllTexts(ms[..i + 1]) == AllTexts(ms[..i]) + Texts(ms[i])
  {
    assert ms[..i + 1][..i] == ms[..i];
  }

  lemma RecordedNext(rules: Rules, tool: Bytes, ms: seq<Member>, i: nat)
    requires i < |ms|
    ensures RecordedMembers(rules, tool, ms[..i + 1])
            == RecordedMembers(rules, tool, ms[..i]) + if Kept(rules, tool, ms[i]) then [Recorded(rules, ms[i])] else []
  {
    assert ms[..i + 1][..i] == ms[..i];
  }

  function ArgumentFindings(rules: Rules, args: Bytes): seq<Finding> {
    FindingsOfAll(rules, ScannedTexts(rules, args))
  }

  predicate Reveals(found: seq<Finding>) {
    exists f :: f in found && Revealing(f)
  }

  lemma {:induction false} FindingsMembers(rules: Rules, texts: seq<Bytes>)
    ensures forall f :: f in FindingsOfAll(rules, texts) <==> exists x :: x in texts && f in Redact(rules, x).findings
  {
    if texts != [] {
      var n := |texts| - 1;
      FindingsMembers(rules, texts[..n]);
      assert forall x :: x in texts <==> x in texts[..n] || x == texts[n];
    }
  }

  /** A summary is kept exactly when the scan of the input revealed nothing. */
  lemma RevealsExactly(rules: Rules, args: Bytes)
    ensures Reveals(ArgumentFindings(rules, args)) <==> !NothingRevealed(rules, args)
  {
    var texts, found := ScannedTexts(rules, args), ArgumentFindings(rules, args);
    FindingsMembers(rules, texts);
    if Reveals(found) {
      var f :| f in found && Revealing(f);
      var x :| x in texts && f in Redact(rules, x).findings;
      HarmlessExactly(f);
    }
    if !NothingRevealed(rules, args) {
      var x, f :| x in texts && f in Redact(rules, x).findings && !Harmless(f);
      HarmlessExactly(f);
      assert f in found;
    }
  }

  lemma CallPartIsClean(rules: Rules, log: Log, id: Bytes, name: Bytes, summary: Bytes, args: Bytes)
    requires name != "" ==> ArgumentsScanned(rules, log, args)
    ensures CallIsClean(rules, log, CallPart(rules, id, name, summary, args))
  {
    if name != "" {
      RevealsExactly(rules, args);
      assert CleanFor(rules, log, CallPart(rules, id, name, summary, args), args);
    }
  }

  /** The tool call an event becomes. Its summary was cut out of its arguments before
      anything scanned it, so it goes when the arguments reveal something. */
  function CallPart(rules: Rules, id: Bytes, name: Bytes, summary: Bytes, args: Bytes): Part {
    var bare := Part(ToolCall, "", BoundedId(id), name, summary, "", "", false, false, false, false);
    if name == "" then bare
    else
      bare.(arguments := KeptArguments(rules, name, args),
            truncated := ArgumentsDropped(rules, name, args),
            summary := if Reveals(ArgumentFindings(rules, args)) then "" else summary)
  }

  /** The tool response an event becomes: over the per-result cap, it is redacted
      whole and then cut. */
  function ResponsePart(rules: Rules, id: Bytes, result: Bytes, isError: bool, fragment: bool, oversized: bool): Part {
    var p := Part(ToolResponse, "", BoundedId(id), "", "", result, "", isError, fragment, false, oversized);
    if |result| <= MAX_TOOL_RESULT_BYTES then p
    else
      var scanned := Redact(rules, result).text;
      var kept := Tail(scanned, MAX_TOOL_RESULT_BYTES);
      p.(response := kept, bulkScanned := true, truncated := fragment || |kept| < |scanned|)
  }

  lemma ResponsePartIsGood(rules: Rules, log: Log, id: Bytes, result: Bytes, isError: bool, fragment: bool,
                           oversized: bool)
    requires |result| > MAX_TOOL_RESULT_BYTES ==> Scanned(result) in log
    ensures GoodPart(rules, log, ResponsePart(rules, id, result, isError, fragment, oversized))
  {
    if |result| > MAX_TOOL_RESULT_BYTES {
      assert RuneTail(Tail(Redact(rules, result).text, MAX_TOOL_RESULT_BYTES), Redact(rules, result).text);
    }
  }

  /** The parts after an event. */
  function AfterEvent(rules: Rules, ps: seq<Part>, maxBytes: nat, e: Event): seq<Part> {
    match e
    case TextEvent(text) => if text == "" then ps else Settled(rules, Coalesced(ps, Text, text), maxBytes)
    case ThinkingEvent(text) => if text == "" then ps else Settled(rules, Coalesced(ps, Reasoning, text), maxBytes)
    case ToolUse(id, name, summary, args) => AfterPart(rules, ps, maxBytes, CallPart(rules, id, name, summary, args))
    case ToolResult(id, result, isError, partial, oversized) =>
      AfterPart(rules, ps, maxBytes, ResponsePart(rules, id, result, isError, partial || oversized, oversized))
    case OtherEvent => ps
  }

  function AfterPart(rules: Rules, ps: seq<Part>, maxBytes: nat, p: Part): seq<Part> {
    if ContentBytes(p) == 0 then ps else Settled(rules, ps + [p], maxBytes)
  }

  function AfterStream(rules: Rules, ps: seq<Part>, maxBytes: nat, events: seq<Event>): seq<Part> {
    if events == [] then ps
    else
      var n := |events| - 1;
      AfterEvent(rules, AfterStream(rules, ps, maxBytes, events[..n]), maxBytes, events[n])
  }

  // ----- The assembled output -----

  lemma AssembledIsGood(rules: Rules, log: Log, ps: seq<Part>)
    requires AllGood(rules, log, ps)
    ensures AllWellFormed(AssembleAll(rules, ps))
    ensures forall q :: q in AssembleAll(rules, ps) ==> ExportOfHeld(rules, log, ps, q)
  {
    forall q | q in AssembleAll(rules, ps)
      ensures WellFormed(q) && ContentBytes(q) > 0 && ExportOfHeld(rules, log, ps, q)
    {
      var p := AssembledFrom(rules, ps, q);
      assert GoodPart(rules, log, p);
      AssembledIsWellFormed(rules, p);
      AssembledIsExportable(rules, log, p);
    }
  }

  /** What the two cuts leave is one ordered suffix of the redacted parts, of which at
      most the oldest is cut; it is within the raw budget, and each part of it comes from
      a held one, every field redacted whole before anything was cut off it. */
  lemma RecordIsSafe(rules: Rules, log: Log, held: seq<Part>, raw: seq<Part>, kept: seq<Part>, maxBytes: nat,
                     maxJoined: int)
    requires AllGood(rules, log, held)
    requires LargestInBudget(raw, AssembleAll(rules, held), maxBytes) && LargestEncoded(kept, raw, maxJoined)
    ensures CutSuffix(kept, AssembleAll(rules, held)) && SumSize(kept) <= maxBytes
    ensures forall q :: q in kept ==> ExportOfHeld(rules, log, held, q)
  {
    AssembledIsGood(rules, log, held);
    CutSuffixTransitive(kept, raw, AssembleAll(rules, held));
    CutSuffixNotLarger(kept, raw);
    CutSuffixIsExportable(rules, log, held, kept, AssembleAll(rules, held));
  }

  lemma CutIsExport(rules: Rules, log: Log, held: seq<Part>, whole: Part, q: Part)
    requires ExportOfHeld(rules, log, held, whole) && CutOf(q, whole)
    ensures ExportOfHeld(rules, log, held, q)
  {
    var p :| p in held && Exportable(rules, log, p, whole) && CallIsClean(rules, log, p);
    CutIsExportable(rules, log, p, whole, q);
  }

  lemma CutSuffixIsExportable(rules: Rules, log: Log, held: seq<Part>, kept: seq<Part>, ps: seq<Part>)
    requires CutSuffix(kept, ps) && forall q :: q in ps ==> ExportOfHeld(rules, log, held, q)
    ensures forall q :: q in kept ==> ExportOfHeld(rules, log, held, q)
  {
    if kept != [] {
      var i := |ps| - |kept|;
      assert ps[i] in ps;
      if kept[0] != ps[i] {
        CutIsExport(rules, log, held, ps[i], kept[0]);
      }
      forall q | q in kept ensures ExportOfHeld(rules, log, held, q) {
        assert q == kept[0] || q in kept[1..];
        assert q in kept[1..] ==> q in ps;
      }
    }
  }

  lemma NoPartsFit(n: int)
    ensures LargestEncoded([], [], n)
  {
  }

  method AnyMarked(ps: seq<Part>) returns (marked: bool)
    ensures marked == AnyTruncated(ps)
  {
    for i := 0 to |ps|
      invariant forall k :: 0 <= k < i ==> !ps[k].truncated
    {
      if ps[i].truncated {
        return true;
      }
    }
    return false;
  }

  // ----- The collector -----

  class ContentCollector {
    const rules: Rules
    const maxBytes: nat
    var maxEncoded: int
    var parts: seq<Part>
    var total: int
    var evicted: nat
    var findings: seq<Finding>
    ghost var log: Log
    ghost var inputBytes: nat

    ghost predicate Logged()
      reads this
    {
      LogAccounts(rules, log, findings, evicted)
    }

    ghost predicate Holding()
      reads this
    {
      total == SumSize(parts) && AllGood(rules, log, parts)
    }

    /** What holds between events. */
    ghost predicate Valid()
      reads this
    {
      && Logged() && Holding()
      && maxEncoded == MAX_ENCODED_CONTENT_BYTES - inputBytes
      && (|parts| <= 1 || total - PartSize(parts[0]) < maxBytes)
      && (maxBytes >= MAX_RESPONSE_OVERHEAD ==> AllSmall(parts, maxBytes))
    }

    constructor (rules: Rules, maxBytes: nat)
      ensures Valid() && this.rules == rules && this.maxBytes == maxBytes
      ensures parts == [] && findings == [] && evicted == 0 && inputBytes == 0
    {
      this.rules, this.maxBytes := rules, maxBytes;
      maxEncoded := MAX_ENCODED_CONTENT_BYTES;
      parts, total, evicted, findings := [], 0, 0, [];
      log, inputBytes := [], 0;
    }

    /** Redacts a text and keeps the findings. */
    method Scan(text: Bytes) returns (r: Bytes)
      requires Logged()
      modifies this`findings, this`log
      ensures Logged() && Grows(old(log), log) && Scanned(text) in log
      ensures r == Redact(rules, text).text && findings == old(findings) + Redact(rules, text).findings
    {
      AccountFor(rules, log, findings, evicted, Scanned(text));
      var redacted := Redact(rules, text);
      findings := findings + redacted.findings;
      log := log + [Scanned(text)];
      r := redacted.text;
    }

    /** Adds a finding of the collector's own. */
    method Note(f: Finding)
      requires Logged()
      modifies this`findings, this`log
      ensures Logged() && Grows(old(log), log) && findings == old(findings) + [f]
    {
      AccountFor(rules, log, findings, evicted, Noted(f));
      findings := findings + [f];
      log := log + [Noted(f)];
    }

    /** Charges the bytes a step lost. */
    method Charge(n: nat, ghost s: Step)
      requires Logged() && SafeStep(rules, log, s) && StepLoss(rules, s) == n && StepFindings(rules, s) == []
      modifies this`evicted, this`log
      ensures Logged() && Grows(old(log), log) && s in log
      ensures evicted == old(evicted) + n
    {
      AccountFor(rules, log, findings, evicted, s);
      evicted := evicted + n;
      log := log + [s];
    }

    /** Redacts a field whole, cuts the redaction to `n` bytes and charges the cut. */
    method RedactThenCut(raw: Bytes, n: nat) returns (scanned: Bytes, kept: Bytes)
      requires Logged()
      modifies this`evicted, this`findings, this`log
      ensures Logged() && Grows(old(log), log) && Scanned(raw) in log
      ensures scanned == Redact(rules, raw).text && kept == Tail(scanned, n)
      ensures evicted == old(evicted) + |scanned| - |kept|
    {
      scanned := Scan(raw);
      kept := TailToRuneBoundary(scanned, n);
      Charge(|scanned| - |kept|, CutField(raw, scanned, kept));
    }

    /** Scans the fields of a part but its bulk field. */
    method ScanFields(p: Part)
      requires Logged()
      modifies this`findings, this`log
      ensures Logged() && Grows(old(log), log)
      ensures Scanned(if p.kind == ToolResponse then p.content else p.response) in log
      ensures Scanned(p.name) in log && Scanned(p.summary) in log && Scanned(p.id) in log
    {
      if p.kind == ToolResponse {
        var _ := Scan(p.content);
      } else {
        var _ := Scan(p.response);
      }
      var _ := Scan(p.name);
      var _ := Scan(p.summary);
      var _ := Scan(p.id);
    }

    /** Scans what a part still holds unscanned. */
    method ScanPart(p: Part)
      requires Logged() && FlagIsTrue(rules, log, p)
      modifies this`findings, this`log
      ensures Logged() && Grows(old(log), log) && SafeStep(rules, log, Discarded(p))
    {
      if !p.bulkScanned {
        var _ := Scan(Bulk(p));
      }
      ScanFields(p);
      FlagStaysTrue(rules, old(log), log, p);
    }

    /** Discards the oldest part. */
    method EvictOldest()
      requires Logged() && Holding() && |parts| > 1
      modifies this`parts, this`total, this`evicted, this`findings, this`log
      ensures Logged() && Holding() && Grows(old(log), log)
      ensures parts == old(parts)[1..]
      ensures evicted == old(evicted) + PartSize(old(parts)[0])
    {
      var p := parts[0];
      assert p in parts;
      var head := PartSize(p);
      ScanPart(p);
      Charge(head, Discarded(p));
      total := total - head;
      StayGood(rules, old(log), log, parts, parts[1..]);
      parts := parts[1..];
    }

    /** Redacts the bulk field of a part whole and cuts it to the budget. */
    method TrimPart(p: Part) returns (q: Part, bulk: Bytes)
      requires Logged()
      modifies this`evicted, this`findings, this`log
      ensures Logged() && Grows(old(log), log) && Scanned(Bulk(p)) in log
      ensures q == PreTrimmed(rules, p, maxBytes) && bulk == Redact(rules, Bulk(p)).text
      ensures evicted == old(evicted) + |bulk| - |Tail(bulk, maxBytes)|
    {
      var kept;
      bulk, kept := RedactThenCut(Bulk(p), maxBytes);
      q := MarkTrimmed(p, bulk, kept);
    }

    /** Cuts a lone part to the budget. */
    method PreTrim()
      requires Logged() && Holding() && |parts| == 1 && parts[0].kind != ToolCall
      modifies this`parts, this`total, this`evicted, this`findings, this`log
      ensures Logged() && Holding() && Grows(old(log), log)
      ensures parts == [PreTrimmed(rules, old(parts)[0], maxBytes)]
      ensures evicted == old(evicted) + |Redact(rules, Bulk(old(parts)[0])).text| - |Bulk(parts[0])|
    {
      var p := parts[0];
      assert p in parts && parts == [p];
      var q, bulk := TrimPart(p);
      PreTrimmedSize(rules, p, maxBytes);
      StayGood(rules, old(log), log, parts, parts);
      PreTrimmedIsGood(rules, log, p, maxBytes);
      total := total - (|Bulk(p)| - |bulk|);
      total := total - (|bulk| - |Bulk(q)|);
      parts := [q];
    }

    /** Discards what the suffix budget would drop anyway. */
    method EvictOverflow()
      requires Logged() && Holding()
      modifies this`parts, this`total, this`evicted, this`findings, this`log
      ensures Logged() && Holding() && Grows(old(log), log)
      ensures parts == Settled(rules, old(parts), maxBytes)
      ensures |parts| <= 1 || total - PartSize(parts[0]) < maxBytes
      ensures var r := Survivors(old(parts), maxBytes);
              evicted - old(evicted) == SumSize(old(parts)) - SumSize(r)
                + if NeedsPreTrim(r, maxBytes) then |Redact(rules, Bulk(r[0])).text| - |Bulk(parts[0])| else 0
    {
      while |parts| > 1
        invariant Logged() && Holding() && Grows(old(log), log)
        invariant Survivors(parts, maxBytes) == Survivors(old(parts), maxBytes)
        invariant evicted + SumSize(parts) == old(evicted) + SumSize(old(parts))
        decreases |parts|
      {
        var head := PartSize(parts[0]);
        if total - head < maxBytes {
          break;
        }
        EvictOldest();
      }
      if |parts| == 1 && parts[0].kind != ToolCall && total > 2 * maxBytes {
        PreTrim();
      }
    }

    /** Admits one discrete part; one with no content is refused. */
    method AppendPart(p: Part)
      requires Valid() && GoodPart(rules, log, p)
      modifies this`parts, this`total, this`evicted, this`findings, this`log
      ensures Valid() && Grows(old(log), log)
      ensures parts == AfterPart(rules, old(parts), maxBytes, p)
    {
      if ContentBytes(p) == 0 {
        return;
      }
      SumSizeConcat(parts, [p]);
      SingleSize(p);
      if maxBytes >= MAX_RESPONSE_OVERHEAD {
        AppendedSettles(rules, log, parts, maxBytes, p);
      }
      parts := parts + [p];
      total := total + PartSize(p);
      EvictOverflow();
    }

    /** Appends a text or reasoning delta. */
    method AppendText(kind: Kind, text: Bytes)
      requires Valid() && (kind == Text || kind == Reasoning)
      modifies this`parts, this`total, this`evicted, this`findings, this`log
      ensures Valid() && Grows(old(log), log)
      ensures parts == if text == "" then old(parts) else Settled(rules, Coalesced(old(parts), kind, text), maxBytes)
    {
      if text == "" {
        return;
      }
      var n := |parts|;
      CoalescedSize(parts, kind, text);
      CoalescedIsGood(rules, log, parts, kind, text);
      if maxBytes >= MAX_RESPONSE_OVERHEAD {
        CoalescedSettles(rules, log, parts, maxBytes, kind, text);
      }
      if n > 0 && parts[n - 1].kind == kind {
        var last := parts[n - 1];
        last := last.(content := last.content + text);
        last := last.(bulkScanned := false);
        parts := parts[n - 1 := last];
      } else {
        parts := parts + [TextPart(kind, text)];
      }
      assert parts == Coalesced(old(parts), kind, text);
      total := total + |text|;
      EvictOverflow();
    }

    /** Scans one member and returns as what it is recorded, if at all. */
    method RecordMember(tool: Bytes, m: Member) returns (out: seq<Member>)
      requires Logged()
      modifies this`findings, this`log
      ensures Logged() && Grows(old(log), log) && AllScanned(Texts(m), log)
      ensures findings == old(findings) + FindingsOfAll(rules, Texts(m))
      ensures out == if Kept(rules, tool, m) then [Recorded(rules, m)] else []
    {
      var listed := rules.listed(tool);
      var keep := listed.Some? && m.key in listed.value;
      out := [];
      match m.value
      case Str(t) =>
        var r := Scan(t);
        if keep {
          out := [m.(value := Str(r))];
        }
      case Num(digits) =>
        var r := Scan(digits);
        if keep {
          out := [if r != digits then m.(value := Str(r)) else m];
        }
      case Nested(encoded) =>
        var _ := Scan(encoded);
      case Literal(_) =>
        if keep {
          out := [m];
        }
    }

    /** The walk over the members of an object. */
    method RecordMembers(tool: Bytes, ms: seq<Member>) returns (out: seq<Member>)
      requires Logged()
      modifies this`findings, this`log
      ensures Logged() && Grows(old(log), log) && AllScanned(AllTexts(ms), log)
      ensures findings == old(findings) + FindingsOfAll(rules, AllTexts(ms))
      ensures out == RecordedMembers(rules, tool, ms)
    {
      out := [];
      ghost var start, found := log, findings;
      for i := 0 to |ms|
        invariant Logged() && ScanProgress(rules, AllTexts(ms[..i]), start, log, found, findings)
        invariant out == RecordedMembers(rules, tool, ms[..i])
      {
        ghost var before, known := log, findings;
        var one := RecordMember(tool, ms[i]);
        ScannedMore(rules, AllTexts(ms[..i]), Texts(ms[i]), (start, before, log), found, known);
        TextsNext(ms, i);
        RecordedNext(rules, tool, ms, i);
        out := out + one;
      }
      assert ms[..|ms|] == ms;
    }

    /** Scans a call's arguments and returns the JSON to record, if any. */
    method ScanArguments(tool: Bytes, args: Bytes) returns (json: Bytes, dropped: bool)
      requires Logged()
      modifies this`evicted, this`findings, this`log
      ensures Logged() && Grows(old(log), log) && ArgumentsScanned(rules, log, args)
      ensures json == KeptArguments(rules, tool, args) && dropped == ArgumentsDropped(rules, tool, args)
      ensures findings == old(findings) + ArgumentFindings(rules, args)
    {
      match rules.decode(args)
      case NoInput => return "", false;
      case Unreadable =>
        var text := Scan(args);
        OneText(rules, args);
        Charge(|text|, DroppedArguments(tool, args));
        return "", true;
      case Object(ms) =>
        var out := RecordMembers(tool, ms);
        if rules.listed(tool).None? || (out == [] && ms != []) {
          return "", false;
        }
        var encoded := EncodeObject(out);
        if |encoded| > MAX_TOOL_ARGUMENTS_BYTES {
          Charge(|encoded|, DroppedArguments(tool, args));
          return "", true;
        }
        return encoded, false;
    }

    /** The part a call becomes, its arguments scanned. */
    method MakeCall(id: Bytes, name: Bytes, summary: Bytes, args: Bytes) returns (p: Part)
      requires Logged()
      modifies this`evicted, this`findings, this`log
      ensures Logged() && Grows(old(log), log) && p == CallPart(rules, id, name, summary, args)
      ensures CallIsClean(rules, log, p)
    {
      p := Part(ToolCall, "", BoundedId(id), name, summary, "", "", false, false, false, false);
      if name != "" {
        var scanned := |findings|;
        var json, dropped := ScanArguments(name, args);
        p := p.(arguments := json, truncated := dropped);
        assert findings[scanned..] == ArgumentFindings(rules, args);
        if Reveals(findings[scanned..]) {
          p := p.(summary := "");
        }
      }
      CallPartIsClean(rules, log, id, name, summary, args);
    }

    method HandleToolUse(id: Bytes, name: Bytes, summary: Bytes, args: Bytes)
      requires Valid()
      modifies this`parts, this`total, this`evicted, this`findings, this`log
      ensures Valid() && Grows(old(log), log)
      ensures parts == AfterPart(rules, old(parts), maxBytes, CallPart(rules, id, name, summary, args))
    {
      var p := MakeCall(id, name, summary, args);
      StayGood(rules, old(log), log, parts, parts);
      AppendPart(p);
    }

    /** The part a result becomes, redacted and cut when it is over the cap. */
    method MakeResponse(id: Bytes, result: Bytes, isError: bool, fragment: bool, oversized: bool) returns (p: Part)
      requires Logged()
      modifies this`evicted, this`findings, this`log
      ensures Logged() && Grows(old(log), log) && p == ResponsePart(rules, id, result, isError, fragment, oversized)
      ensures GoodPart(rules, log, p)
    {
      p := Part(ToolResponse, "", BoundedId(id), "", "", result, "", isError, fragment, false, oversized);
      if |result| > MAX_TOOL_RESULT_BYTES {
        var scanned, kept := RedactThenCut(result, MAX_TOOL_RESULT_BYTES);
        p := p.(bulkScanned := true);
        if |kept| < |scanned| {
          p := p.(truncated := true);
        }
        p := p.(response := kept);
      }
      ResponsePartIsGood(rules, log, id, result, isError, fragment, oversized);
    }

    method HandleToolResult(id: Bytes, result: Bytes, isError: bool, partial: bool, oversized: bool)
      requires Valid()
      modifies this`parts, this`total, this`evicted, this`findings, this`log
      ensures Valid() && Grows(old(log), log)
      ensures parts
              == AfterPart(rules, old(parts), maxBytes,
                           ResponsePart(rules, id, result, isError, partial || oversized, oversized))
    {
      var p := MakeResponse(id, result, isError, partial || oversized, oversized);
      StayGood(rules, old(log), log, parts, parts);
      AppendPart(p);
    }

    /** Consumes one event. */
    method Handle(e: Event)
      requires Valid()
      modifies this`parts, this`total, this`evicted, this`findings, this`log
      ensures Valid() && Grows(old(log), log)
      ensures parts == AfterEvent(rules, old(parts), maxBytes, e)
    {
      match e
      case TextEvent(text) => AppendText(Text, text);
      case ThinkingEvent(text) => AppendText(Reasoning, text);
      case ToolUse(id, name, summary, args) => HandleToolUse(id, name, summary, args);
      case ToolResult(id, result, isError, partial, oversized) =>
        HandleToolResult(id, result, isError, partial, oversized);
      case OtherEvent =>
    }

    /** Memory stays bounded: while no held tool call is larger than twice the budget,
        fewer than three budgets are held. */
    lemma RetainedBytes()
      requires Valid() && maxBytes >= MAX_RESPONSE_OVERHEAD
      requires forall p :: p in parts && p.kind == ToolCall ==> PartSize(p) <= 2 * maxBytes
      ensures total < 3 * maxBytes
    {
      if parts != [] {
        assert parts[0] in parts;
        if |parts| == 1 {
          assert parts == [parts[0]];
          SingleSize(parts[0]);
        }
      }
    }

    /** Consumes a whole stream. */
    method HandleAll(events: seq<Event>)
      requires Valid()
      modifies this`parts, this`total, this`evicted, this`findings, this`log
      ensures Valid() && Grows(old(log), log)
      ensures parts == AfterStream(rules, old(parts), maxBytes, events)
    {
      for i := 0 to |events|
        invariant Valid() && Grows(old(log), log)
        invariant parts == AfterStream(rules, old(parts), maxBytes, events[..i])
      {
        assert events[..i + 1][..i] == events[..i];
        Handle(events[i]);
      }
      assert events[..|events|] == events;
    }

    /** The prompt as it may be recorded. */
    method ScanPrompt(prompt: Bytes, alteredUpstream: bool) returns (text: Bytes)
      requires Logged() && prompt != ""
      modifies this`findings, this`log
      ensures Logged() && Grows(old(log), log) && Scanned(prompt) in log
      ensures text == if alteredUpstream then "***" else Redact(rules, prompt).text
    {
      text := Scan(prompt);
      if alteredUpstream {
        Note(Finding("unicode_normalizer", "altered_upstream"));
        text := "***";
      }
    }

    /** Records the composed prompt; the attribute is charged to the output's bound. */
    method AttachInput(prompt: Bytes, alteredUpstream: bool) returns (attribute: Bytes)
      requires Valid()
      modifies this`maxEncoded, this`findings, this`log, this`inputBytes
      ensures Valid()
      ensures maxEncoded == old(maxEncoded) - |attribute| && inputBytes == old(inputBytes) + |attribute|
      ensures var text := if alteredUpstream && prompt != "" then "***" else Redact(rules, prompt).text;
              attribute == if text == "" then "" else MarshalInput(text)
    {
      if prompt == "" {
        return "";
      }
      var text := ScanPrompt(prompt, alteredUpstream);
      StayGood(rules, old(log), log, parts, parts);
      if text == "" {
        return "";
      }
      attribute := MarshalInput(text);
      maxEncoded := maxEncoded - |attribute|;
      inputBytes := inputBytes + |attribute|;
    }

    /** Redacts one held part, field by field. */
    method AssemblePart(p: Part) returns (left: seq<Part>, found: seq<Finding>)
      ensures left == Remains(rules, p) && found == AssembledFindings(rules, p)
    {
      var q := p;
      found := [];
      if !p.bulkScanned {
        var r := Redact(rules, Bulk(p));
        q, found := WithBulk(p, r.text), r.findings;
      }
      var other := Redact(rules, if p.kind == ToolResponse then p.content else p.response);
      q := if p.kind == ToolResponse then q.(content := other.text) else q.(response := other.text);
      var name, summary, id := Redact(rules, p.name), Redact(rules, p.summary), Redact(rules, p.id);
      q := q.(name := name.text, summary := summary.text, id := RedactId(rules, p.id));
      found := found + other.findings + name.findings + summary.findings + id.findings;
      left := if ContentBytes(q) == 0 then [] else [q];
    }

    /** The redaction pass over the held parts. */
    method Assemble() returns (redacted: seq<Part>, found: seq<Finding>)
      requires Valid()
      ensures redacted == AssembleAll(rules, parts) && found == findings + AllFindings(rules, parts)
    {
      redacted, found := [], [];
      for i := 0 to |parts|
        invariant redacted == AssembleAll(rules, parts[..i])
        invariant found == AllFindings(rules, parts[..i])
      {
        var left, more := AssemblePart(parts[i]);
        AssembleNext(rules, parts, i);
        redacted, found := redacted + left, found + more;
      }
      assert parts[..|parts|] == parts;
      found := findings + found;
    }

    /** The redaction pass and the raw budget. */
    method AssembleInBudget() returns (kept: seq<Part>, dropped: nat, truncated: bool, found: seq<Finding>)
      requires Valid()
      ensures AllWellFormed(kept) && LargestInBudget(kept, AssembleAll(rules, parts), maxBytes)
      ensures SumSize(kept) + dropped == evicted + SumSize(AssembleAll(rules, parts))
      ensures truncated <==> dropped > 0 || AnyTruncated(kept)
      ensures found == findings + AllFindings(rules, parts)
    {
      var redacted;
      redacted, found := Assemble();
      AssembledIsGood(rules, log, parts);
      kept, dropped, truncated := SuffixCut(redacted, maxBytes);
      CutSuffixIsWellFormed(kept, redacted);
      dropped, truncated := evicted + dropped, evicted > 0 || truncated;
      var marked := AnyMarked(kept);
      truncated := truncated || marked;
    }

    /** The second cut, when the encoded record is over its bound. */
    method FitEncoded(raw: seq<Part>, dropped0: nat, truncated0: bool, finishReason: Bytes)
      returns (kept: seq<Part>, dropped: nat, truncated: bool)
      requires AllWellFormed(raw) && raw != [] && (truncated0 <==> dropped0 > 0 || AnyTruncated(raw))
      ensures LargestEncoded(kept, raw, maxEncoded - |MarshalOutput([], finishReason)|)
      ensures kept != [] ==> |MarshalOutput(kept, finishReason)| <= maxEncoded
      ensures SumSize(kept) + dropped == SumSize(raw) + dropped0
      ensures truncated <==> dropped > 0 || AnyTruncated(kept)
    {
      kept, dropped, truncated := raw, dropped0, truncated0;
      var over := |MarshalOutput(raw, finishReason)| - maxEncoded;
      MarshalLength(raw, finishReason);
      if over > 0 {
        var more;
        kept, more := ShrinkEncoded(raw, over);
        dropped, truncated := dropped + more, true;
        MarshalLength(kept, finishReason);
      } else {
        WholeIsLargestEncoded(raw, maxEncoded - |MarshalOutput([], finishReason)|);
      }
    }

    /** Assembles the redacted, size-bounded output messages. `kept` are the parts the
        record encodes, `raw` what the raw budget had left. */
    method Result(finishReason: Bytes) returns (res: ContentResult, kept: seq<Part>, ghost raw: seq<Part>)
      requires Valid()
      ensures res.outputMessages == if kept == [] then "" else MarshalOutput(kept, finishReason)
      ensures kept != [] ==> |res.outputMessages| + inputBytes <= MAX_ENCODED_CONTENT_BYTES
      ensures SumSize(kept) + res.droppedBytes == evicted + SumSize(AssembleAll(rules, parts))
      ensures LargestInBudget(raw, AssembleAll(rules, parts), maxBytes)
      ensures LargestEncoded(kept, raw, maxEncoded - |MarshalOutput([], finishReason)|)
      ensures res.truncated <==> res.droppedBytes > 0 || AnyTruncated(kept)
      ensures res.findings == findings + AllFindings(rules, parts)
    {
      var dropped, truncated, found;
      kept, dropped, truncated, found := AssembleInBudget();
      raw := kept;
      if kept == [] {
        NoPartsFit(maxEncoded - |MarshalOutput([], finishReason)|);
        return ContentResult("", dropped, truncated, found), kept, raw;
      }
      kept, dropped, truncated := FitEncoded(kept, dropped, truncated, finishReason);
      if kept == [] {
        return ContentResult("", dropped, truncated, found), kept, raw;
      }
      res := ContentResult(MarshalOutput(kept, finishReason), dropped, truncated, found);
    }
  }
}
