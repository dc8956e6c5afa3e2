/** The body of an updated sticky comment when history is kept: the new body, the old
    contents folded away, the newest first and as many as fit, and the old footer. */
module StickyHistory {
  import opened Markers
  import opened Sticky
  import opened StickyBody
  import opened Text

  const HISTORY_START := "<!-- sticky:history-start -->"
  const HISTORY_END := "<!-- sticky:history-end -->"

  /** How old content is read: the blocks folded away earlier, what is left without them,
      and the trimming of white space. */
  datatype Reader = Reader(blocks: string -> seq<string>, rest: string -> string, trim: string -> string)

  /** Trimming takes a part out of a text. */
  ghost predicate Trims(reader: Reader) {
    forall s :: Contains(s, reader.trim(s))
  }

  datatype Entry = Entry(summary: string, content: string)

  function TrimNewlines(s: string): string {
    if s != "" && s[|s| - 1] == '\n' then TrimNewlines(s[..|s| - 1]) else s
  }

  /** The old body without its marker and its footer. */
  function OldContent(was: string, marker: string, footerMarker: string): string {
    var stripped := Stripped(was, marker);
    var i := LastIndex(stripped, footerMarker);
    if footerMarker == "" || i < 0 then stripped else TrimNewlines(stripped[..i])
  }

  function Decimal(n: nat): string {
    if n < 10 then [('0' as int + n) as char] else Decimal(n / 10) + [('0' as int + n % 10) as char]
  }

  function BlockEntry(reader: Reader, blocks: seq<string>, i: nat): Entry
    requires i < |blocks|
  {
    Entry("Previous run (" + Decimal(i + 2) + ")", reader.trim(Neutralize(blocks[i])))
  }

  /** What moves into history, the newest first, with every marker opener escaped. */
  function Entries(reader: Reader, text: string): seq<Entry> {
    var current, blocks := Neutralize(reader.rest(text)), reader.blocks(text);
    (if current == "" then [] else [Entry("Previous run", current)])
    + seq(|blocks|, i requires 0 <= i < |blocks| => BlockEntry(reader, blocks, i))
  }

  /** Texts one to a line. */
  function Lines(parts: seq<string>): string
    requires parts != []
  {
    if |parts| == 1 then parts[0] else parts[0] + "\n" + Lines(parts[1..])
  }

  /** The lines of an entry behind a body. */
  function EntryLines(body: string, e: Entry): seq<string> {
    [ body, "", "<details>", "<summary>" + e.summary + "</summary>", "",
      HISTORY_START, e.content, HISTORY_END, "", "</details>" ]
  }

  function WithEntries(body: string, es: seq<Entry>): string {
    if es == [] then body
    else Lines(EntryLines(WithEntries(body, es[..|es| - 1]), es[|es| - 1]))
  }

  function Combined(now: string, es: seq<Entry>, footer: string): string {
    WithFooter(WithEntries(now, es), footer)
  }

  /** The oldest entries go first; what is still too long is cut. */
  function Fitted(now: string, es: seq<Entry>, footer: string, maxSize: nat): string {
    if es != [] && |Combined(now, es, footer)| > maxSize then Fitted(now, es[..|es| - 1], footer, maxSize)
    else TruncateBody(Combined(now, es, footer), maxSize)
  }

  /** `BuildUpdatedBody`. */
  function Build(
      reader: Reader, keep: bool, marker: string, footerMarker: string, maxSize: nat, was: string, now: string): string
  {
    if keep then
      Fitted(now, Entries(reader, OldContent(was, marker, footerMarker)), Footer(was, marker, footerMarker), maxSize)
    else BuildInPlace(marker, footerMarker, maxSize, was, now)
  }

  // ----- The loops -----

  method MakeEntries(reader: Reader, text: string) returns (es: seq<Entry>)
    ensures es == Entries(reader, text)
  {
    var blocks := reader.blocks(text);
    var neutralized: seq<string> := [];
    for i := 0 to |blocks|
      invariant |neutralized| == i && forall k :: 0 <= k < i ==> neutralized[k] == Neutralize(blocks[k])
    {
      neutralized := neutralized + [Neutralize(blocks[i])];
    }
    var current := Neutralize(reader.rest(text));
    var folded: seq<Entry> := [];
    for i := 0 to |blocks|
      invariant |folded| == i && forall k :: 0 <= k < i ==> folded[k] == BlockEntry(reader, blocks, k)
    {
      folded := folded + [Entry("Previous run (" + Decimal(i + 2) + ")", reader.trim(neutralized[i]))];
    }
    es := (if current == "" then [] else [Entry("Previous run", current)]) + folded;
  }

  method FormatHistory(now: string, es: seq<Entry>) returns (r: string)
    ensures r == WithEntries(now, es)
  {
    r := now;
    for i := 0 to |es|
      invariant r == WithEntries(now, es[..i])
    {
      assert es[..i + 1][..i] == es[..i];
      r := Lines(EntryLines(r, es[i]));
    }
    assert es[..|es|] == es;
  }

  method BuildUpdatedBody(
      reader: Reader, keep: bool, marker: string, footerMarker: string, maxSize: nat, was: string, now: string)
    returns (r: string)
    ensures r == Build(reader, keep, marker, footerMarker, maxSize, was, now)
  {
    var footer := Footer(was, marker, footerMarker);
    if !keep {
      r := CutBody(WithFooter(now, footer), maxSize);
      return;
    }
    var es := MakeEntries(reader, OldContent(was, marker, footerMarker));
    ghost var all := es;
    var body := FormatHistory(now, es);
    r := WithFooter(body, footer);
    while |r| > maxSize && es != []
      invariant r == Combined(now, es, footer)
      invariant Fitted(now, es, footer, maxSize) == Fitted(now, all, footer, maxSize)
      decreases |es|
    {
      es := es[..|es| - 1];
      body := FormatHistory(now, es);
      r := WithFooter(body, footer);
    }
    r := CutBody(r, maxSize);
  }

  /** As many of the newest entries as fit are kept; the body is cut only when it does
      not fit without any. */
  lemma {:induction false} KeepsAsManyAsFit(now: string, es: seq<Entry>, footer: string, maxSize: nat) returns (k: nat)
    ensures k <= |es| && Fitted(now, es, footer, maxSize) == TruncateBody(Combined(now, es[..k], footer), maxSize)
    ensures k < |es| ==> |Combined(now, es[..k + 1], footer)| > maxSize
    ensures k > 0 ==> |Combined(now, es[..k], footer)| <= maxSize
  {
    k := |es|;
    assert es[..k] == es;
    if es != [] && |Combined(now, es, footer)| > maxSize {
      var shorter := es[..|es| - 1];
      k := KeepsAsManyAsFit(now, shorter, footer, maxSize);
      assert shorter[..k] == es[..k];
      assert k < |shorter| ==> shorter[..k + 1] == es[..k + 1];
      assert k == |shorter| ==> es[..k + 1] == es;
    }
  }

  // ----- No marker is made up -----

  lemma {:induction false} LinesMakeNone(parts: seq<string>, other: string)
    requires parts != [] && Marker(other) && Contains(Lines(parts), other)
    ensures exists i :: 0 <= i < |parts| && Contains(parts[i], other)
  {
    if |parts| > 1 {
      SplitMakesNone(parts[0], Lines(parts[1..]), other);
      if !Contains(parts[0], other) {
        LinesMakeNone(parts[1..], other);
        var i :| 0 <= i < |parts| - 1 && Contains(parts[1..][i], other);
        assert parts[1..][i] == parts[i + 1];
      }
    }
  }

  /** A marker is on one line. */
  lemma SplitMakesNone(a: string, b: string, other: string)
    requires Marker(other) && Contains(a + "\n" + b, other)
    ensures Contains(a, other) || Contains(b, other)
  {
    var s := a + "\n" + b;
    var i :| 0 <= i <= |s| && OccursAt(s, other, i);
    OccurrenceIs(s, other, i);
    assert s[|a|] == '\n';
    if i < |a| {
      ContainsIn(s, a, other, 0, i);
    } else {
      ContainsIn(s, b, other, |a| + 1, i);
    }
  }

  lemma NoOpenerHoldsNone(s: string, other: string)
    requires NoOpener(s) && Marker(other)
    ensures !Contains(s, other)
  {
    if i :| 0 <= i <= |s| && OccursAt(s, other, i) {
      assert other <= s[i..];
      OpenerExtends(other, s[i..]);
    }
  }

  /** A part of a text holds only what the text holds. */
  lemma PartHolds(s: string, part: string, other: string)
    requires Contains(s, part) && Contains(part, other)
    ensures Contains(s, other)
  {
    var i :| 0 <= i <= |s| && OccursAt(s, part, i);
    var j :| 0 <= j <= |part| && OccursAt(part, other, j);
    forall k | 0 <= k < |other| ensures s[i + j + k] == other[k] {
      assert s[i..i + |part|][j + k] == part[j + k] && part[j..j + |other|][k] == other[k];
    }
    assert s[i + j..i + j + |other|] == other;
    assert OccursAt(s, other, i + j);
  }

  lemma NoBangNoOpener(s: string)
    requires '!' !in s
    ensures NoOpener(s)
  {
    forall i | 0 <= i <= |s| ensures !Opener(s[i..]) {
      assert i + 1 < |s| ==> s[i..][1] == s[i + 1] && s[i + 1] in s;
    }
  }

  /** The sentinels of a history block are comments, but no marker's. */
  lemma SentinelNoOpener(s: string)
    requires "<!-- s" <= s && forall i :: 0 < i < |s| ==> s[i] != '<'
    ensures NoOpener(s)
  {
    forall i | 0 <= i <= |s| ensures !Opener(s[i..]) {
      if i == 0 {
        assert s[0..] == s && s[4..][0] == ' ' && s[4..][1..] == s[5..] && s[5..][0] == 's';
        assert !Folds(s[5..][0], "fullsend"[0]) && !Folds(s[5..][0], "full"[0]);
        assert NameLen(s[5..]) == 0 && !NameNext(s[5..]);
      } else if i < |s| {
        assert s[i..][0] == s[i];
      }
    }
  }

  lemma {:induction false} DecimalHasNoBang(n: nat)
    ensures '!' !in Decimal(n)
  {
    if n >= 10 {
      DecimalHasNoBang(n / 10);
    }
  }

  /** An entry whose content holds no marker and whose summary no "!". */
  ghost predicate Harmless(e: Entry, other: string) {
    '!' !in e.summary && !Contains(e.content, other)
  }

  lemma SentinelsHoldNone(other: string)
    requires Marker(other)
    ensures !Contains(HISTORY_START, other) && !Contains(HISTORY_END, other)
  {
    SentinelNoOpener(HISTORY_START);
    SentinelNoOpener(HISTORY_END);
    NoOpenerHoldsNone(HISTORY_START, other);
    NoOpenerHoldsNone(HISTORY_END, other);
  }

  lemma TagsHoldNone(summary: string, other: string)
    requires Marker(other) && '!' !in summary
    ensures !Contains("<details>", other) && !Contains("</details>", other) && !Contains("", other)
    ensures !Contains("<summary>" + summary + "</summary>", other)
  {
    NoBangNoOpener("<details>");
    NoBangNoOpener("</details>");
    NoBangNoOpener("");
    NoBangNoOpener("<summary>" + summary + "</summary>");
    NoOpenerHoldsNone("<details>", other);
    NoOpenerHoldsNone("</details>", other);
    NoOpenerHoldsNone("", other);
    NoOpenerHoldsNone("<summary>" + summary + "</summary>", other);
  }

  lemma EntryMakesNone(body: string, e: Entry, other: string)
    requires Marker(other) && Harmless(e, other) && Contains(Lines(EntryLines(body, e)), other)
    ensures Contains(body, other)
  {
    var parts := EntryLines(body, e);
    LinesMakeNone(parts, other);
    SentinelsHoldNone(other);
    TagsHoldNone(e.summary, other);
    var i :| 0 <= i < |parts| && Contains(parts[i], other);
    assert i == 0;
  }

  lemma {:induction false} HistoryMakesNone(now: string, es: seq<Entry>, other: string)
    requires Marker(other) && (forall e :: e in es ==> Harmless(e, other)) && Contains(WithEntries(now, es), other)
    ensures Contains(now, other)
  {
    if es != [] {
      var n := |es| - 1;
      EntryMakesNone(WithEntries(now, es[..n]), es[n], other);
      HistoryMakesNone(now, es[..n], other);
    }
  }

  /** Whatever the old body was, what moves into history holds no marker. */
  lemma EntriesAreHarmless(reader: Reader, text: string, other: string)
    requires Trims(reader) && Marker(other)
    ensures forall e :: e in Entries(reader, text) ==> Harmless(e, other)
  {
    var current, blocks := Neutralize(reader.rest(text)), reader.blocks(text);
    NeutralizedHasNoOpener(reader.rest(text));
    NoOpenerHoldsNone(current, other);
    forall i | 0 <= i < |blocks| ensures Harmless(BlockEntry(reader, blocks, i), other) {
      BlockIsHarmless(reader, blocks, i, other);
    }
  }

  lemma BlockIsHarmless(reader: Reader, blocks: seq<string>, i: nat, other: string)
    requires Trims(reader) && Marker(other) && i < |blocks|
    ensures Harmless(BlockEntry(reader, blocks, i), other)
  {
    var text := Neutralize(blocks[i]);
    DecimalHasNoBang(i + 2);
    NeutralizedHasNoOpener(blocks[i]);
    NoOpenerHoldsNone(text, other);
    if Contains(reader.trim(text), other) {
      PartHolds(text, reader.trim(text), other);
    }
  }

  lemma FittedMakesNone(now: string, es: seq<Entry>, footer: string, maxSize: nat, other: string)
    requires Marker(other) && (forall e :: e in es ==> Harmless(e, other))
    requires Contains(Fitted(now, es, footer, maxSize), other)
    ensures Contains(now, other) || Contains(footer, other)
  {
    var k := KeepsAsManyAsFit(now, es, footer, maxSize);
    CutMakesNone(Combined(now, es[..k], footer), maxSize, other);
    FooterMakesNone(WithEntries(now, es[..k]), footer, other);
    if !Contains(footer, other) {
      HistoryMakesNone(now, es[..k], other);
    }
  }

  /** An updated body holds no marker that neither the old nor the new body held. */
  lemma BuildMakesNoMarker(
      reader: Reader, keep: bool, marker: string, footerMarker: string, maxSize: nat, was: string, now: string,
      other: string)
    requires Trims(reader) && Marker(other)
    requires Contains(Build(reader, keep, marker, footerMarker, maxSize, was, now), other)
    ensures Contains(was, other) || Contains(now, other)
  {
    if keep {
      var footer, text := Footer(was, marker, footerMarker), OldContent(was, marker, footerMarker);
      EntriesAreHarmless(reader, text, other);
      FittedMakesNone(now, Entries(reader, text), footer, maxSize, other);
      if Contains(footer, other) {
        FooterIsOld(was, marker, footerMarker, other);
      }
    } else {
      BuildMakesNone(marker, footerMarker, maxSize, was, now, other);
    }
  }

  // ----- The marker in front stays, if it fits -----

  lemma {:induction false} NowInFront(now: string, es: seq<Entry>)
    ensures now <= WithEntries(now, es)
  {
    if es != [] {
      NowInFront(now, es[..|es| - 1]);
    }
  }

  /** With room for the note and the marker, the marker stays. */
  lemma FittedKeepsFront(m: string, body: string, es: seq<Entry>, footer: string, maxSize: nat)
    requires Marker(m) && |m| + |NOTE| <= maxSize
    ensures Contains(Fitted(Marked(m, body), es, footer, maxSize), m)
  {
    var now := Marked(m, body);
    var k := KeepsAsManyAsFit(now, es, footer, maxSize);
    NowInFront(now, es[..k]);
    assert m + "\n" <= now <= Combined(now, es[..k], footer);
    CutKeepsFront(m, Combined(now, es[..k], footer), maxSize);
  }

  /** A new body too long by itself drops all history and is cut. */
  lemma LongBodyDropsHistory(now: string, es: seq<Entry>, footer: string, maxSize: nat)
    requires |now| > maxSize
    ensures Fitted(now, es, footer, maxSize) == TruncateBody(WithFooter(now, footer), maxSize)
  {
    var k := KeepsAsManyAsFit(now, es, footer, maxSize);
    NowInFront(now, es[..k]);
    assert es[..0] == [];
  }

  /** Updating keeps the comment's marker, whatever was there and whatever is posted,
      exactly when the marker and the note of a cut fit the size limit. */
  lemma MarkerStaysExactly(reader: Reader, keep: bool, footerMarker: string, maxSize: nat, m: string)
    requires Marker(m)
    ensures (forall was, body :: Contains(Build(reader, keep, m, footerMarker, maxSize, was, Marked(m, body)), m))
            <==> |m| + |NOTE| <= maxSize
  {
    forall was, body | |m| + |NOTE| <= maxSize
      ensures Contains(Build(reader, keep, m, footerMarker, maxSize, was, Marked(m, body)), m)
    {
      RoomKeepsOwn(reader, keep, footerMarker, maxSize, m, was, body);
    }
    if |m| + |NOTE| > maxSize {
      LongBodyLosesMarker(reader, keep, footerMarker, maxSize, m);
    }
  }

  lemma RoomKeepsOwn(
      reader: Reader, keep: bool, footerMarker: string, maxSize: nat, m: string, was: string, body: string)
    requires Marker(m) && |m| + |NOTE| <= maxSize
    ensures Contains(Build(reader, keep, m, footerMarker, maxSize, was, Marked(m, body)), m)
  {
    var footer := Footer(was, m, footerMarker);
    if keep {
      FittedKeepsFront(m, body, Entries(reader, OldContent(was, m, footerMarker)), footer, maxSize);
    } else {
      CutKeepsFront(m, WithFooter(Marked(m, body), footer), maxSize);
    }
  }

  /** Otherwise a long body loses it, over a comment that was found by its marker. */
  lemma LongBodyLosesMarker(reader: Reader, keep: bool, footerMarker: string, maxSize: nat, m: string)
    requires Marker(m) && maxSize < |m| + |NOTE|
    ensures exists was, body ::
              Contains(was, m) && !Contains(Build(reader, keep, m, footerMarker, maxSize, was, Marked(m, body)), m)
  {
    var body := seq(maxSize, _ => 'x');
    NeutralizeIsNotShorter(body);
    NoFooterIn(m, footerMarker);
    assert OccursAt(m, m, 0);
    CutLosesFront(m, Marked(m, body), maxSize);
    LongBodyDropsHistory(Marked(m, body), Entries(reader, OldContent(m, m, footerMarker)), "", maxSize);
    assert !Contains(Build(reader, keep, m, footerMarker, maxSize, m, Marked(m, body)), m);
  }

  /** So the builder, with history and without, is one that keeps one comment per marker
      forever, exactly when the note of a cut and each marker fit the size limit. */
  lemma BuilderKeepsExactly(
      env: Env, reader: Reader, keep: bool, footerMarker: string, maxSize: nat, markers: set<string>)
    requires Trims(reader) && MarkersApart(markers)
    requires env.build == ((m, was, now) => Build(reader, keep, m, footerMarker, maxSize, was, now))
    ensures BuilderKeepsMarkers(env, markers) <==> forall m :: m in markers ==> |m| + |NOTE| <= maxSize
  {
    forall m, other | m in markers && other in markers ensures MakesNoOther(env, m, other) {
      BuildMakesNoOther(env, reader, keep, footerMarker, maxSize, m, other);
    }
    forall m | m in markers ensures KeepsOwn(env, m) <==> |m| + |NOTE| <= maxSize {
      BuildKeepsOwn(env, reader, keep, footerMarker, maxSize, m);
    }
  }

  lemma BuildKeepsOwn(env: Env, reader: Reader, keep: bool, footerMarker: string, maxSize: nat, m: string)
    requires Marker(m)
    requires env.build == ((m, was, now) => Build(reader, keep, m, footerMarker, maxSize, was, now))
    ensures KeepsOwn(env, m) <==> |m| + |NOTE| <= maxSize
  {
    MarkerStaysExactly(reader, keep, footerMarker, maxSize, m);
    if |m| + |NOTE| > maxSize {
      var was, body :| !Contains(Build(reader, keep, m, footerMarker, maxSize, was, Marked(m, body)), m);
      assert !Contains(env.build(m, was, Marked(m, body)), m);
    } else {
      forall was, body ensures Contains(env.build(m, was, Marked(m, body)), m) {
        assert Contains(Build(reader, keep, m, footerMarker, maxSize, was, Marked(m, body)), m);
      }
    }
  }

  lemma BuildMakesNoOther(
      env: Env, reader: Reader, keep: bool, footerMarker: string, maxSize: nat, m: string, other: string)
    requires Trims(reader) && Marker(other)
    requires env.build == ((m, was, now) => Build(reader, keep, m, footerMarker, maxSize, was, now))
    ensures MakesNoOther(env, m, other)
  {
    forall was, now | Contains(env.build(m, was, now), other) ensures Contains(was, other) || Contains(now, other) {
      BuildMakesNoMarker(reader, keep, m, footerMarker, maxSize, was, now, other);
    }
  }
}
