/** Redaction as the collector uses it, and the log of what was scanned and cut. */
module Redaction {
  import opened GoText
  import opened ContentPart
  import opened ToolArguments

  /** The normalizer's stripping of content. */
  predicate Stripped(f: Finding) {
    f.scanner == "unicode_normalizer" && (f.name == "ansi_escape" || f.name == "osc_escape" || f.name == "tag_char")
  }

  /** A finding that costs a call its summary. */
  predicate Revealing(f: Finding) {
    f.scanner != "unicode_normalizer" || Stripped(f) || f.name == "invalid_utf8"
  }

  // ----- The log -----

  /** What the collector did to a text: scanned it whole; cut a field that held
      `raw`, from its redaction `before` to `after`; discarded a part; dropped a
      call's arguments; noted a finding of its own. */
  datatype Step =
    | Scanned(text: Bytes)
    | CutField(raw: Bytes, before: Bytes, after: Bytes)
    | Discarded(part: Part)
    | DroppedArguments(tool: Bytes, args: Bytes)
    | Noted(finding: Finding)

  type Log = seq<Step>

  /** Nothing recorded is forgotten. */
  ghost predicate Grows(log: Log, later: Log) {
    log <= later && forall s :: s in log ==> s in later
  }

  lemma GrowsOn(a: Log, b: Log, c: Log)
    requires Grows(a, b) && Grows(b, c)
    ensures Grows(a, c)
  {
  }

  /** `b` is what redacting some text scanned so far came to, or a tail of it. */
  ghost predicate ScannedTail(rules: Rules, log: Log, b: Bytes) {
    exists x :: Scanned(x) in log && RuneTail(b, Redact(rules, x).text)
  }

  /** A part whose flag says its bulk field needs no scan. */
  ghost predicate FlagIsTrue(rules: Rules, log: Log, p: Part) {
    p.bulkScanned ==> ScannedTail(rules, log, Bulk(p))
  }

  ghost predicate ArgumentsScanned(rules: Rules, log: Log, args: Bytes) {
    forall x :: x in ScannedTexts(rules, args) ==> Scanned(x) in log
  }

  /** Scanning the input raised nothing but harmless normalizations. */
  ghost predicate NothingRevealed(rules: Rules, args: Bytes) {
    forall x, f :: x in ScannedTexts(rules, args) && f in Redact(rules, x).findings ==> Harmless(f)
  }

  predicate Harmless(f: Finding) {
    && f.scanner == "unicode_normalizer"
    && f.name != "ansi_escape" && f.name != "osc_escape" && f.name != "tag_char" && f.name != "invalid_utf8"
  }

  lemma HarmlessExactly(f: Finding)
    ensures Harmless(f) <==> !Revealing(f)
  {
  }

  /** A held call with a name has the arguments that its input leaves, all of it scanned,
      and a summary only when the scan revealed nothing. Nothing else has arguments. */
  ghost predicate CallIsClean(rules: Rules, log: Log, p: Part) {
    if p.kind == ToolCall && p.name != "" then exists args :: CleanFor(rules, log, p, args) else p.arguments == ""
  }

  ghost predicate CleanFor(rules: Rules, log: Log, p: Part, args: Bytes) {
    && p.arguments == KeptArguments(rules, p.name, args) && ArgumentsScanned(rules, log, args)
    && (p.summary == "" || NothingRevealed(rules, args))
  }

  /** Nothing is cut or dropped that was not scanned whole, as it is held, before. */
  ghost predicate SafeStep(rules: Rules, log: Log, s: Step) {
    match s
    case Scanned(_) => true
    case Noted(_) => true
    case CutField(raw, before, after) =>
      Scanned(raw) in log && before == Redact(rules, raw).text && RuneTail(after, before)
    case Discarded(p) =>
      && (Scanned(Bulk(p)) in log || (p.bulkScanned && ScannedTail(rules, log, Bulk(p))))
      && (p.kind == ToolResponse ==> Scanned(p.content) in log)
      && (p.kind != ToolResponse ==> Scanned(p.response) in log)
      && Scanned(p.name) in log && Scanned(p.summary) in log && Scanned(p.id) in log
    case DroppedArguments(tool, args) =>
      ArgumentsDropped(rules, tool, args) && ArgumentsScanned(rules, log, args)
  }

  ghost predicate SafeAt(rules: Rules, log: Log, i: nat)
    requires i < |log|
  {
    SafeStep(rules, log[..i], log[i])
  }

  /** Every step was safe when it was taken. */
  ghost predicate SafeLog(rules: Rules, log: Log) {
    forall i {:trigger SafeAt(rules, log, i)} :: 0 <= i < |log| ==> SafeAt(rules, log, i)
  }

  /** The findings a step raises. */
  function StepFindings(rules: Rules, s: Step): seq<Finding> {
    match s
    case Scanned(text) => Redact(rules, text).findings
    case Noted(f) => [f]
    case _ => []
  }

  /** The bytes a step takes out of the record. */
  function StepLoss(rules: Rules, s: Step): nat
  {
    match s
    case CutField(_, before, after) => if |after| <= |before| then |before| - |after| else 0
    case Discarded(p) => PartSize(p)
    case DroppedArguments(tool, args) => DroppedBytes(rules, tool, args)
    case _ => 0
  }

  ghost function FindingsOf(rules: Rules, log: Log): seq<Finding> {
    if log == [] then [] else FindingsOf(rules, log[..|log| - 1]) + StepFindings(rules, log[|log| - 1])
  }

  ghost function LossOf(rules: Rules, log: Log): nat {
    if log == [] then 0 else LossOf(rules, log[..|log| - 1]) + StepLoss(rules, log[|log| - 1])
  }

  lemma LogAppend(rules: Rules, log: Log, s: Step)
    ensures SafeLog(rules, log + [s]) <==> SafeLog(rules, log) && SafeStep(rules, log, s)
    ensures FindingsOf(rules, log + [s]) == FindingsOf(rules, log) + StepFindings(rules, s)
    ensures LossOf(rules, log + [s]) == LossOf(rules, log) + StepLoss(rules, s)
  {
    var later := log + [s];
    assert later[..|log|] == log;
    forall i | 0 <= i < |log| ensures SafeAt(rules, later, i) <==> SafeAt(rules, log, i) {
      assert later[..i] == log[..i];
    }
    assert SafeAt(rules, later, |log|) <==> SafeStep(rules, log, s);
    if SafeLog(rules, later) {
      assert forall i :: 0 <= i < |log| ==> SafeAt(rules, later, i) ==> SafeAt(rules, log, i);
    }
  }

  lemma FlagStaysTrue(rules: Rules, log: Log, later: Log, p: Part)
    requires Grows(log, later) && FlagIsTrue(rules, log, p)
    ensures FlagIsTrue(rules, later, p)
  {
  }

  lemma CallStaysClean(rules: Rules, log: Log, later: Log, p: Part)
    requires Grows(log, later) && CallIsClean(rules, log, p)
    ensures CallIsClean(rules, later, p)
  {
    if p.kind == ToolCall && p.name != "" {
      var args :| CleanFor(rules, log, p, args);
      assert CleanFor(rules, later, p, args);
    }
  }

  /** Every scan is counted, every lost byte is charged, and nothing was cut or
      dropped before it was scanned whole. */
  ghost predicate LogAccounts(rules: Rules, log: Log, findings: seq<Finding>, lost: nat) {
    SafeLog(rules, log) && findings == FindingsOf(rules, log) && lost == LossOf(rules, log)
  }

  lemma AccountFor(rules: Rules, log: Log, findings: seq<Finding>, lost: nat, s: Step)
    requires LogAccounts(rules, log, findings, lost) && SafeStep(rules, log, s)
    ensures LogAccounts(rules, log + [s], findings + StepFindings(rules, s), lost + StepLoss(rules, s))
    ensures Grows(log, log + [s])
  {
    LogAppend(rules, log, s);
  }

  // ----- The pass that runs when the output is assembled -----

  /** An id with a finding is dropped whole. */
  function RedactId(rules: Rules, id: Bytes): Bytes {
    if Redact(rules, id).findings != [] then "" else id
  }

  /** A held part as the record may carry it. */
  function Assembled(rules: Rules, p: Part): (q: Part)
    ensures q.kind == p.kind && q.truncated == p.truncated
  {
    var bulk := if p.bulkScanned then Bulk(p) else Redact(rules, Bulk(p)).text;
    var q := WithBulk(p, bulk);
    q.(content := if p.kind == ToolResponse then Redact(rules, p.content).text else q.content,
       response := if p.kind != ToolResponse then Redact(rules, p.response).text else q.response,
       name := Redact(rules, p.name).text,
       summary := Redact(rules, p.summary).text,
       id := RedactId(rules, p.id))
  }

  function AssembledFindings(rules: Rules, p: Part): seq<Finding> {
    (if p.bulkScanned then [] else Redact(rules, Bulk(p)).findings)
    + Redact(rules, if p.kind == ToolResponse then p.content else p.response).findings
    + Redact(rules, p.name).findings + Redact(rules, p.summary).findings + Redact(rules, p.id).findings
  }

  /** What is left of a part: one with no content is dropped. */
  function Remains(rules: Rules, p: Part): seq<Part> {
    var q := Assembled(rules, p);
    if ContentBytes(q) == 0 then [] else [q]
  }

  /** The redacted parts. */
  function AssembleAll(rules: Rules, ps: seq<Part>): seq<Part> {
    if ps == [] then [] else AssembleAll(rules, ps[..|ps| - 1]) + Remains(rules, ps[|ps| - 1])
  }

  function AllFindings(rules: Rules, ps: seq<Part>): seq<Finding> {
    if ps == [] then [] else AllFindings(rules, ps[..|ps| - 1]) + AssembledFindings(rules, ps[|ps| - 1])
  }

  /** The bulk field of `q` was redacted whole before anything was cut off it: it is the
      redaction, or a tail of it, of a text scanned so far when the held part `p` says so,
      and of the field that `p` itself holds otherwise. */
  ghost predicate BulkFrom(rules: Rules, log: Log, p: Part, q: Part) {
    if p.bulkScanned then ScannedTail(rules, log, Bulk(q)) else RuneTail(Bulk(q), Redact(rules, Bulk(p)).text)
  }

  /** `q` is what may be exported of the held part `p`: its other fields are the redactions
      of those of `p`, and an id with a finding is gone. */
  ghost predicate Exportable(rules: Rules, log: Log, p: Part, q: Part) {
    && q.kind == p.kind && q.arguments == p.arguments && q.isError == p.isError && q.oversized == p.oversized
    && BulkFrom(rules, log, p, q)
    && (if p.kind == ToolResponse then q.content == Redact(rules, p.content).text
        else q.response == Redact(rules, p.response).text)
    && q.name == Redact(rules, p.name).text && q.summary == Redact(rules, p.summary).text
    && q.id == (if Redact(rules, p.id).findings == [] then p.id else "")
  }

  /** `q` is what may be exported of one of the held parts, which is a clean call if it is
      a call. */
  ghost predicate ExportOfHeld(rules: Rules, log: Log, held: seq<Part>, q: Part) {
    exists p :: p in held && Exportable(rules, log, p, q) && CallIsClean(rules, log, p)
  }

  lemma AssembledIsWellFormed(rules: Rules, p: Part)
    requires WellFormed(p)
    ensures WellFormed(Assembled(rules, p))
  {
  }

  lemma AssembledIsExportable(rules: Rules, log: Log, p: Part)
    requires FlagIsTrue(rules, log, p)
    ensures Exportable(rules, log, p, Assembled(rules, p))
  {
    assert RuneTail(Redact(rules, Bulk(p)).text, Redact(rules, Bulk(p)).text);
  }

  lemma CutIsExportable(rules: Rules, log: Log, p: Part, whole: Part, q: Part)
    requires Exportable(rules, log, p, whole) && CutOf(q, whole)
    ensures Exportable(rules, log, p, q)
  {
    if p.bulkScanned {
      var x :| Scanned(x) in log && RuneTail(Bulk(whole), Redact(rules, x).text);
      RuneTailTransitive(Bulk(q), Bulk(whole), Redact(rules, x).text);
    } else {
      RuneTailTransitive(Bulk(q), Bulk(whole), Redact(rules, Bulk(p)).text);
    }
  }

  lemma AssembleNext(rules: Rules, ps: seq<Part>, i: nat)
    requires i < |ps|
    ensures AssembleAll(rules, ps[..i + 1]) == AssembleAll(rules, ps[..i]) + Remains(rules, ps[i])
    ensures AllFindings(rules, ps[..i + 1]) == AllFindings(rules, ps[..i]) + AssembledFindings(rules, ps[i])
  {
    assert ps[..i + 1][..i] == ps[..i];
  }

  /** Whatever survives the pass has content and came from a held part. */
  lemma {:induction false} AssembledFrom(rules: Rules, ps: seq<Part>, q: Part) returns (p: Part)
    requires q in AssembleAll(rules, ps)
    ensures p in ps && q == Assembled(rules, p) && ContentBytes(q) > 0
  {
    var last := ps[|ps| - 1];
    if q in Remains(rules, last) {
      p := last;
    } else {
      p := AssembledFrom(rules, ps[..|ps| - 1], q);
    }
  }
}
