/** What each event of the stream puts into the newest part the collector holds. */
module StreamEvents {
  import opened GoText
  import opened ContentPart
  import opened ToolArguments
  import opened Redaction
  import opened Collector

  /** `after` ends with `q`, behind the newest of the parts `before`. */
  ghost predicate EndsWith(after: seq<Part>, before: seq<Part>, q: Part) {
    && after != [] && after[|after| - 1] == q && |after| - 1 <= |before|
    && after[..|after| - 1] == before[|before| - (|after| - 1)..]
  }

  /** `q` is `p`, or what the pre-trim makes of `p` when it is the only part left and more
      than twice the budget: its bulk field redacted whole, then cut to the budget. */
  ghost predicate HeldAs(rules: Rules, maxBytes: nat, alone: bool, p: Part, q: Part) {
    if alone && p.kind != ToolCall && PartSize(p) > 2 * maxBytes then
      var raw := if p.kind == ToolResponse then p.response else p.content;
      var scanned := Redact(rules, raw).text;
      var tail := if p.kind == ToolResponse then q.response else q.content;
      && tail == Tail(scanned, maxBytes)
      && q == (if p.kind == ToolResponse then p.(response := tail) else p.(content := tail))
                .(bulkScanned := true, truncated := p.truncated || |tail| < |scanned|)
    else q == p
  }

  lemma SettledKeepsNewest(rules: Rules, before: seq<Part>, p: Part, maxBytes: nat) returns (q: Part)
    ensures var after := Settled(rules, before + [p], maxBytes);
            EndsWith(after, before, q) && HeldAs(rules, maxBytes, |after| == 1, p, q)
  {
    var ps := before + [p];
    var r, after := Survivors(ps, maxBytes), Settled(rules, ps, maxBytes);
    SurvivorsAreNewest(ps, maxBytes);
    assert r[|r| - 1] == ps[|ps| - 1] == p;
    q := after[|after| - 1];
    assert r[..|r| - 1] == before[|before| - (|r| - 1)..];
  }

  /** A text or a reasoning delta goes to the end of the newest part when that is of its
      kind, which must be scanned again as a whole; or else becomes a part. */
  lemma TextIsNewest(rules: Rules, ps: seq<Part>, maxBytes: nat, kind: Kind, text: Bytes) returns (q: Part)
    requires kind == Text || kind == Reasoning
    ensures var after := AfterEvent(rules, ps, maxBytes, if kind == Text then TextEvent(text) else ThinkingEvent(text));
            if text == "" then after == ps
            else if ps != [] && ps[|ps| - 1].kind == kind then
              var last := ps[|ps| - 1];
              EndsWith(after, ps[..|ps| - 1], q)
              && HeldAs(rules, maxBytes, |after| == 1, last.(content := last.content + text, bulkScanned := false), q)
            else
              EndsWith(after, ps, q)
              && HeldAs(rules, maxBytes, |after| == 1,
                        Part(kind, text, "", "", "", "", "", false, false, false, false), q)
  {
    q := TextPart(kind, text);
    if text != "" {
      var n := |ps|;
      if n > 0 && ps[n - 1].kind == kind {
        var joined := ps[n - 1].(content := ps[n - 1].content + text, bulkScanned := false);
        assert Coalesced(ps, kind, text) == ps[..n - 1] + [joined];
        q := SettledKeepsNewest(rules, ps[..n - 1], joined, maxBytes);
      } else {
        q := SettledKeepsNewest(rules, ps, q, maxBytes);
      }
    }
  }

  lemma RevealedExactly(rules: Rules, args: Bytes)
    ensures !NothingRevealed(rules, args)
            <==> exists x, f :: x in ScannedTexts(rules, args) && f in Redact(rules, x).findings
                                && (f.scanner != "unicode_normalizer" || f.name == "ansi_escape"
                                    || f.name == "osc_escape" || f.name == "tag_char" || f.name == "invalid_utf8")
  {
    if !NothingRevealed(rules, args) {
      var x, f :| x in ScannedTexts(rules, args) && f in Redact(rules, x).findings && !Harmless(f);
      assert f.scanner != "unicode_normalizer" || f.name == "ansi_escape"
             || f.name == "osc_escape" || f.name == "tag_char" || f.name == "invalid_utf8";
    }
    if x, f :| x in ScannedTexts(rules, args) && f in Redact(rules, x).findings
               && (f.scanner != "unicode_normalizer" || f.name == "ansi_escape"
                   || f.name == "osc_escape" || f.name == "tag_char" || f.name == "invalid_utf8") {
      assert !Harmless(f);
    }
  }

  /** A tool call keeps its name, its id when that is not too long, the arguments that are
      recorded of its input, and its summary; that only when the scan of the input raised
      nothing that could reveal a beginning of something masked. */
  lemma ToolUseIsNewest(
      rules: Rules, ps: seq<Part>, maxBytes: nat, id: Bytes, name: Bytes, summary: Bytes, args: Bytes) returns (q: Part)
    ensures var after := AfterEvent(rules, ps, maxBytes, ToolUse(id, name, summary, args));
            if name == "" && summary == "" then after == ps
            else
              && EndsWith(after, ps, q)
              && q.kind == ToolCall && q.name == name && q.content == "" && q.response == ""
              && q.id == (if |id| > 256 then "" else id)
              && !q.isError && !q.oversized && !q.bulkScanned
              && q.arguments == (if name == "" then "" else KeptArguments(rules, name, args))
              && (q.truncated <==> name != "" && ArgumentsDropped(rules, name, args))
              && (q.summary == "" || q.summary == summary)
              && (q.summary == "" <==>
                  || summary == ""
                  || (name != ""
                      && exists x, f :: x in ScannedTexts(rules, args) && f in Redact(rules, x).findings
                                        && (f.scanner != "unicode_normalizer" || f.name == "ansi_escape"
                                            || f.name == "osc_escape" || f.name == "tag_char"
                                            || f.name == "invalid_utf8")))
  {
    var p := CallPart(rules, id, name, summary, args);
    RevealsExactly(rules, args);
    RevealedExactly(rules, args);
    q := p;
    if name != "" || summary != "" {
      q := SettledKeepsNewest(rules, ps, p, maxBytes);
    }
  }

  /** A result keeps its flags and its text, redacted whole and cut to its tail when that
      is over the cap; one with nothing to record leaves the parts alone. */
  lemma ToolResultIsNewest(
      rules: Rules, ps: seq<Part>, maxBytes: nat, id: Bytes, result: Bytes, isError: bool, partial: bool,
      oversized: bool) returns (q: Part)
    ensures var after := AfterEvent(rules, ps, maxBytes, ToolResult(id, result, isError, partial, oversized));
            var scanned := Redact(rules, result).text;
            var text := if |result| <= 8192 then result else Tail(scanned, 8192);
            var cut := |result| > 8192 && |text| < |scanned|;
            if text == "" && !isError && !oversized then after == ps
            else
              EndsWith(after, ps, q)
              && HeldAs(rules, maxBytes, |after| == 1,
                        Part(ToolResponse, "", if |id| > 256 then "" else id, "", "", text, "", isError,
                             partial || oversized || cut, |result| > 8192, oversized), q)
  {
    var p := ResponsePart(rules, id, result, isError, partial || oversized, oversized);
    q := p;
    if ContentBytes(p) != 0 {
      q := SettledKeepsNewest(rules, ps, p, maxBytes);
    }
  }
}
