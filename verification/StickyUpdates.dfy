/** What an updated comment reads as: the new text first, the history behind it, the newest
    run first, and the footer last. */
module StickyUpdates {
  import opened GoText
  import opened Markers
  import opened Sticky
  import opened StickyBody
  import opened StickyHistory
  import opened StickyPosts
  import opened Text

  // ----- The new text is in front -----

  /** A newline starts a rune, so a cut behind it keeps what is in front. */
  lemma CutKeepsPrefix(body: string, now: string, maxSize: nat)
    requires now <= body && |now| + |NOTE| <= maxSize && (|body| > |now| ==> body[|now|] == '\n')
    ensures now <= TruncateBody(body, maxSize)
  {
    if |body| > maxSize {
      var k := CutAt(body, Budget(maxSize));
      assert RuneStart(body[|now|]);
      assert |now| <= k;
    }
  }

  /** A comment starts with the new text when that fits with the footer, or with the note
      of a cut. */
  lemma NewTextInFront(
      reader: Reader, keep: bool, marker: string, footerMarker: string, maxSize: nat, was: string, now: string)
    requires |WithFooter(now, Footer(was, marker, footerMarker))| <= maxSize || |now| + |NOTE| <= maxSize
    ensures now <= Build(reader, keep, marker, footerMarker, maxSize, was, now)
  {
    var footer := Footer(was, marker, footerMarker);
    var es := if keep then Entries(reader, OldContent(was, marker, footerMarker)) else [];
    var k := KeepsAsManyAsFit(now, es, footer, maxSize);
    NowInFront(now, es[..k]);
    assert Build(reader, keep, marker, footerMarker, maxSize, was, now)
        == TruncateBody(Combined(now, es[..k], footer), maxSize);
    if |Combined(now, es[..k], footer)| > maxSize {
      assert es[..0] == [];
      CutKeepsPrefix(WithFooter(now, footer), now, maxSize);
    }
  }

  /** So a run that reports an update has put the neutralized text, behind the marker, at
      the front of the first own comment with that marker. */
  lemma UpdateShowsNewText(
      env: Env, reader: Reader, keep: bool, footerMarker: string, maxSize: nat, cs: seq<Comment>, r: Run)
    returns (i: nat)
    requires env.build == ((m, was, now) => Build(reader, keep, m, footerMarker, maxSize, was, now))
    requires PostForge(env, cs, r).0 == Updated && |r.marker + "\n" + Neutralize(r.body)| + |NOTE| <= maxSize
    ensures i < |cs| && FirstOnForge(cs, Self(r).value, r.marker, i)
    ensures var after := PostForge(env, cs, r).1;
            && |after| == |cs| && after[i].author == cs[i].author
            && r.marker + "\n" + Neutralize(r.body) <= after[i].body
            && forall j :: 0 <= j < |cs| && j != i ==> after[j] == cs[j]
  {
    ForgeRunExactly(env, cs, r);
    i :| FirstOnForge(cs, Self(r).value, r.marker, i)
         && Rewritten(cs, PostForge(env, cs, r).1, i, env.build(r.marker, cs[i].body, Marked(r.marker, r.body)));
    NewTextInFront(reader, keep, r.marker, footerMarker, maxSize, cs[i].body, Marked(r.marker, r.body));
  }

  // ----- The footer stays -----

  /** The body ends with that footer: it opens with the last footer marker, behind the
      comment's own marker and some text. */
  ghost predicate EndsWithFooter(was: string, m: string, footerMarker: string, footer: string) {
    && footerMarker != "" && footerMarker <= footer
    && (forall i :: 0 < i <= |footer| ==> !OccursAt(footer, footerMarker, i))
    && exists before :: was == m + "\n" + before + footer && !HasPrefix(before + footer, m)
  }

  lemma StripsMarker(m: string, rest: string)
    requires !HasPrefix(rest, m)
    ensures Stripped(m + "\n" + rest, m) == rest
  {
    assert (m + "\n" + rest)[|m + "\n"|..] == rest;
    assert HasPrefix(m + "\n" + rest, m + "\n");
  }

  lemma LastIsAt(before: string, footer: string, footerMarker: string)
    requires footerMarker <= footer
    requires forall i :: 0 < i <= |footer| ==> !OccursAt(footer, footerMarker, i)
    ensures LastIndex(before + footer, footerMarker) == |before|
  {
    var s := before + footer;
    assert s[|before|..|before| + |footerMarker|] == footer[..|footerMarker|];
    assert OccursAt(s, footerMarker, |before|);
    var i := LastIndex(s, footerMarker);
    if i > |before| {
      assert s[i..i + |footerMarker|] == footer[i - |before|..i - |before| + |footerMarker|];
      assert OccursAt(footer, footerMarker, i - |before|);
    }
  }

  lemma FooterIsFound(was: string, m: string, footerMarker: string, footer: string)
    requires EndsWithFooter(was, m, footerMarker, footer)
    ensures Footer(was, m, footerMarker) == footer
  {
    var before :| was == m + "\n" + before + footer && !HasPrefix(before + footer, m);
    assert was == m + "\n" + (before + footer);
    StripsMarker(m, before + footer);
    LastIsAt(before, footer, footerMarker);
    assert (before + footer)[|before|..] == footer;
  }

  lemma WithinLine(m: string, n: string, rest: string)
    requires m <= n + rest && (rest == "" || rest[0] == '\n')
    ensures m <= n || '\n' in m
  {
    if |m| > |n| {
      assert m[|n|] == (n + rest)[|n|] == '\n';
    }
  }

  /** A marker is on one line, so neutralized text with a newline behind it does not open
      with one. */
  lemma NeutralizedOpensWithNone(m: string, body: string, rest: string)
    requires Marker(m) && (rest == "" || rest[0] == '\n')
    ensures !HasPrefix(Neutralize(body) + rest, m)
  {
    var n := Neutralize(body);
    if HasPrefix(n + rest, m) {
      WithinLine(m, n, rest);
      assert n[0..] == n;
      OpenerExtends(m, n);
      NeutralizedHasNoOpener(body);
    }
  }

  lemma {:induction false} HistoryBehind(now: string, es: seq<Entry>)
    ensures now <= WithEntries(now, es)
    ensures |WithEntries(now, es)| > |now| ==> WithEntries(now, es)[|now|] == '\n'
  {
    if es != [] {
      var shorter := WithEntries(now, es[..|es| - 1]);
      HistoryBehind(now, es[..|es| - 1]);
      assert shorter + "\n" <= WithEntries(now, es);
    }
  }

  /** An update that fits keeps the footer, history or not. */
  lemma FooterStays(
      reader: Reader, keep: bool, m: string, footerMarker: string, maxSize: nat, was: string, body: string,
      footer: string)
    requires Marker(m) && EndsWithFooter(was, m, footerMarker, footer)
    requires |m + "\n" + Neutralize(body)| + 2 + |footer| <= maxSize
    ensures var r := Build(reader, keep, m, footerMarker, maxSize, was, m + "\n" + Neutralize(body));
            EndsWithFooter(r, m, footerMarker, footer) && |r| <= maxSize
  {
    var now := Marked(m, body);
    FooterIsFound(was, m, footerMarker, footer);
    var es := if keep then Entries(reader, OldContent(was, m, footerMarker)) else [];
    var k := KeepsAsManyAsFit(now, es, footer, maxSize);
    var text := WithEntries(now, es[..k]);
    assert es[..0] == [];
    HistoryBehind(now, es[..k]);
    KeepsFooter(m, body, text, footerMarker, footer);
  }

  lemma KeepsFooter(m: string, body: string, text: string, footerMarker: string, footer: string)
    requires Marker(m) && footerMarker != "" && footerMarker <= footer
    requires forall i :: 0 < i <= |footer| ==> !OccursAt(footer, footerMarker, i)
    requires Marked(m, body) <= text && (|text| > |Marked(m, body)| ==> text[|Marked(m, body)|] == '\n')
    ensures EndsWithFooter(text + "\n\n" + footer, m, footerMarker, footer)
  {
    var now := Marked(m, body);
    var behind := text[|now|..];
    var rest := behind + "\n\n" + footer;
    NeutralizedOpensWithNone(m, body, rest);
    var before := Neutralize(body) + behind + "\n\n";
    assert before + footer == Neutralize(body) + rest;
    assert text == now + behind;
    assert text + "\n\n" + footer == m + "\n" + before + footer;
  }

  /** The comment after updates with these texts, one after the other. */
  function Updates(
      reader: Reader, keep: bool, m: string, footerMarker: string, maxSize: nat, was: string, bodies: seq<string>)
    : string
  {
    if bodies == [] then was
    else
      Build(reader, keep, m, footerMarker, maxSize,
            Updates(reader, keep, m, footerMarker, maxSize, was, bodies[..|bodies| - 1]),
            m + "\n" + Neutralize(bodies[|bodies| - 1]))
  }

  /** However often it is updated, a comment keeps its footer, as long as each new text
      fits with it. */
  lemma {:induction false} FooterStaysForever(
      reader: Reader, keep: bool, m: string, footerMarker: string, maxSize: nat, was: string, bodies: seq<string>,
      footer: string)
    requires Marker(m) && EndsWithFooter(was, m, footerMarker, footer)
    requires forall body :: body in bodies ==> |m + "\n" + Neutralize(body)| + 2 + |footer| <= maxSize
    ensures EndsWithFooter(Updates(reader, keep, m, footerMarker, maxSize, was, bodies), m, footerMarker, footer)
  {
    if bodies != [] {
      var n := |bodies| - 1;
      FooterStaysForever(reader, keep, m, footerMarker, maxSize, was, bodies[..n], footer);
      FooterStays(
        reader, keep, m, footerMarker, maxSize,
        Updates(reader, keep, m, footerMarker, maxSize, was, bodies[..n]), bodies[n], footer);
    }
  }

  // ----- The history grows -----

  /** One earlier run, folded away, behind what comes before it. */
  function Block(summary: string, content: string): string {
    "\n\n<details>\n<summary>" + summary + "</summary>\n\n" + "<!-- sticky:history-start -->\n" + content
    + "\n<!-- sticky:history-end -->\n\n</details>"
  }

  function Blocks(es: seq<Entry>): string {
    if es == [] then "" else Blocks(es[..|es| - 1]) + Block(es[|es| - 1].summary, es[|es| - 1].content)
  }

  /** Lines behind a front. */
  function Behind(front: string, parts: seq<string>): string
    decreases |parts|
  {
    if parts == [] then front else Behind(front + "\n" + parts[0], parts[1..])
  }

  lemma {:induction false} LinesAreBehind(front: string, parts: seq<string>)
    requires parts != []
    ensures Behind(front, parts) == front + "\n" + Lines(parts)
    decreases |parts|
  {
    if |parts| > 1 {
      LinesAreBehind(front + "\n" + parts[0], parts[1..]);
      Regroup(front + "\n", parts[0], Lines(parts[1..]));
    }
  }

  lemma Regroup(a: string, b: string, c: string)
    ensures a + b + "\n" + c == a + (b + "\n" + c)
  {
  }

  lemma BehindTwo(front: string, a: string, b: string, more: seq<string>)
    ensures Behind(front, [a, b] + more) == Behind(front + "\n" + a + "\n" + b, more)
  {
    assert ([a, b] + more)[1..] == [b] + more && ([b] + more)[1..] == more;
  }

  lemma BehindNine(
      front: string, a: string, b: string, c: string, d: string, e: string, f: string, g: string, h: string, i: string)
    ensures Behind(front, [a, b, c, d, e, f, g, h, i])
            == front + "\n" + a + "\n" + b + "\n" + c + "\n" + d + "\n" + e + "\n" + f + "\n" + g + "\n" + h + "\n" + i
  {
    BehindTwo(front, a, b, [c, d, e, f, g, h, i]);
    var two := front + "\n" + a + "\n" + b;
    BehindTwo(two, c, d, [e, f, g, h, i]);
    var four := two + "\n" + c + "\n" + d;
    BehindTwo(four, e, f, [g, h, i]);
    var six := four + "\n" + e + "\n" + f;
    BehindTwo(six, g, h, [i]);
    assert [i][1..] == [];
    assert [a, b] + [c, d, e, f, g, h, i] == [a, b, c, d, e, f, g, h, i];
    assert [c, d] + [e, f, g, h, i] == [c, d, e, f, g, h, i];
    assert [e, f] + [g, h, i] == [e, f, g, h, i] && [g, h] + [i] == [g, h, i];
  }

  lemma TenLines(
      front: string, a: string, b: string, c: string, d: string, e: string, f: string, g: string, h: string, i: string)
    ensures Lines([front, a, b, c, d, e, f, g, h, i])
            == front + "\n" + a + "\n" + b + "\n" + c + "\n" + d + "\n" + e + "\n" + f + "\n" + g + "\n" + h + "\n" + i
  {
    var parts := [a, b, c, d, e, f, g, h, i];
    assert [front, a, b, c, d, e, f, g, h, i] == [front] + parts && ([front] + parts)[1..] == parts;
    LinesAreBehind(front, parts);
    BehindNine(front, a, b, c, d, e, f, g, h, i);
  }

  lemma BlockIs(front: string, e: Entry)
    ensures Lines(EntryLines(front, e)) == front + Block(e.summary, e.content)
  {
    var title := "<summary>" + e.summary + "</summary>";
    TenLines(front, "", "<details>", title, "", HISTORY_START, e.content, HISTORY_END, "", "</details>");
    TitleSpelled(front, e.summary);
    BlockSpelled(front, "\n\n<details>\n<summary>" + e.summary + "</summary>", e.content);
    BlockOpens(e.summary, e.content);
  }

  lemma BlockOpens(summary: string, content: string)
    ensures Block(summary, content)
            == "\n\n<details>\n<summary>" + summary + "</summary>" + "\n\n" + "<!-- sticky:history-start -->\n"
               + content + "\n<!-- sticky:history-end -->\n\n</details>"
  {
    assert "</summary>\n\n" == "</summary>" + "\n\n";
    Regrouped("\n\n<details>\n<summary>" + summary, "</summary>", "\n\n");
  }

  lemma Regrouped(a: string, b: string, c: string)
    ensures a + (b + c) == a + b + c
  {
  }

  lemma TitleSpelled(front: string, summary: string)
    ensures front + "\n" + "" + "\n" + "<details>" + "\n" + ("<summary>" + summary + "</summary>")
            == front + ("\n\n<details>\n<summary>" + summary + "</summary>")
  {
    var open, close := "<summary>", "</summary>";
    assert "\n\n" + "<details>" == "\n\n<details>" && "\n\n<details>" + "\n" == "\n\n<details>\n";
    Gap(front, "<details>", "\n");
    assert "\n\n<details>\n" + open == "\n\n<details>\n<summary>";
    Around(front, "\n\n<details>\n", open, summary, close);
  }

  /** An empty line between two. */
  lemma Gap(front: string, a: string, b: string)
    ensures front + "\n" + "" + "\n" + a + b == front + ("\n\n" + a + b)
  {
  }

  lemma Around(front: string, a: string, open: string, summary: string, close: string)
    ensures front + a + (open + summary + close) == front + (a + open + summary + close)
  {
  }

  lemma BlockSpelled(front: string, title: string, content: string)
    ensures front + title + "\n" + "" + "\n" + HISTORY_START + "\n" + content + "\n" + HISTORY_END + "\n" + "" + "\n"
            + "</details>"
            == front + (title + "\n\n" + "<!-- sticky:history-start -->\n" + content
                        + "\n<!-- sticky:history-end -->\n\n</details>")
  {
    Gap(front + title, HISTORY_START, "\n");
    assert "\n\n" + HISTORY_START + "\n" == "\n\n" + "<!-- sticky:history-start -->\n";
    var body := front + title + ("\n\n" + HISTORY_START + "\n") + content;
    BlockEnds(body);
    Enclose(front, title, "\n\n", "<!-- sticky:history-start -->\n", content,
            "\n<!-- sticky:history-end -->\n\n</details>");
  }

  lemma BlockEnds(body: string)
    ensures body + "\n" + HISTORY_END + "\n" + "" + "\n" + "</details>"
            == body + "\n<!-- sticky:history-end -->\n\n</details>"
  {
    Gap(body + "\n" + HISTORY_END, "</details>", "");
    assert "\n" + HISTORY_END == "\n<!-- sticky:history-end -->";
    assert "\n\n" + "</details>" + "" == "\n\n</details>";
    assert "\n<!-- sticky:history-end -->" + "\n\n</details>" == "\n<!-- sticky:history-end -->\n\n</details>";
    EndsIn(body, "\n", HISTORY_END, "\n\n</details>");
  }

  lemma EndsIn(a: string, b: string, c: string, d: string)
    ensures a + b + c + d == a + (b + c + d)
  {
  }

  lemma Enclose(front: string, a: string, b: string, start: string, content: string, end: string)
    ensures front + a + (b + start) + content + end == front + (a + b + start + content + end)
  {
  }

  /** A body with history is the new text and the blocks, in order. */
  lemma {:induction false} BlocksBehind(now: string, es: seq<Entry>)
    ensures WithEntries(now, es) == now + Blocks(es)
  {
    if es != [] {
      var n := |es| - 1;
      BlocksBehind(now, es[..n]);
      BlockIs(now + Blocks(es[..n]), es[n]);
      Regrouped(now, Blocks(es[..n]), Block(es[n].summary, es[n].content));
    }
  }

  function Contents(es: seq<Entry>): seq<string> {
    seq(|es|, i requires 0 <= i < |es| => es[i].content)
  }

  /** A text and entries that the patterns read back: no block opens in the text, and no
      block ends within an entry. */
  ghost predicate Plain(reader: Reader, text: string, es: seq<Entry>) {
    && !Contains(text, "<details>")
    && forall e :: e in es ==> PlainEntry(reader, e)
  }

  ghost predicate PlainEntry(reader: Reader, e: Entry) {
    && "Previous " <= e.summary && '<' !in e.summary
    && !Contains(e.content, "<!-- sticky:history-end -->") && reader.trim(e.content) == e.content
  }

  /** The patterns find the blocks that were written, and the text in front of them. */
  ghost predicate ReadsOwn(reader: Reader) {
    && (forall s :: reader.trim(reader.trim(s)) == reader.trim(s))
    && forall text, es :: Plain(reader, text, es) ==>
         && reader.blocks(text + Blocks(es)) == Contents(es) && reader.rest(text + Blocks(es)) == reader.trim(text)
  }

  /** One run more: the newest comes first, and all others move down by one. */
  function Grown(current: string, es: seq<Entry>): seq<Entry> {
    (if current == "" then [] else [Entry("Previous run", current)])
    + seq(|es|, i requires 0 <= i < |es| => Entry("Previous run (" + Decimal(i + 2) + ")", es[i].content))
  }

  ghost predicate AllNeutral(es: seq<Entry>) {
    forall e :: e in es ==> Neutralize(e.content) == e.content
  }

  function Value(digits: string): nat
    requires forall i :: 0 <= i < |digits| ==> '0' <= digits[i] <= '9'
  {
    if digits == "" then 0 else 10 * Value(digits[..|digits| - 1]) + (digits[|digits| - 1] as int - '0' as int)
  }

  /** A run's number is printed in digits. */
  lemma {:induction false} NumberReadsBack(n: nat)
    ensures Decimal(n) != "" && (forall i :: 0 <= i < |Decimal(n)| ==> '0' <= Decimal(n)[i] <= '9')
    ensures Value(Decimal(n)) == n
  {
    if n >= 10 {
      NumberReadsBack(n / 10);
      assert Decimal(n)[..|Decimal(n)| - 1] == Decimal(n / 10);
    } else {
      assert Decimal(n)[..0] == "";
    }
  }

  /** An update moves the last text behind the new one, and the earlier runs down, word
      for word. */
  lemma HistoryGrows(reader: Reader, m: string, maxSize: nat, body: string, es: seq<Entry>, now: string)
    requires ReadsOwn(reader) && Marker(m) && Plain(reader, Neutralize(body), es) && AllNeutral(es)
    ensures var grown := Grown(Neutralize(reader.trim(Neutralize(body))), es);
            |now + Blocks(grown)| <= maxSize ==>
              Build(reader, true, m, "", maxSize, m + "\n" + Neutralize(body) + Blocks(es), now) == now + Blocks(grown)
  {
    var text := Neutralize(body) + Blocks(es);
    var was := m + "\n" + Neutralize(body) + Blocks(es);
    var grown := Grown(Neutralize(reader.trim(Neutralize(body))), es);
    assert was == m + "\n" + text;
    BlocksOpen(es);
    NeutralizedOpensWithNone(m, body, Blocks(es));
    StripsMarker(m, text);
    EntriesGrow(reader, Neutralize(body), es);
    BlocksBehind(now, grown);
    assert WithFooter(now, "") == now;
  }

  lemma {:induction false} BlocksOpen(es: seq<Entry>)
    ensures Blocks(es) == "" || Blocks(es)[0] == '\n'
  {
    if es != [] {
      BlocksOpen(es[..|es| - 1]);
    }
  }

  lemma EntriesGrow(reader: Reader, text: string, es: seq<Entry>)
    requires ReadsOwn(reader) && Plain(reader, text, es) && AllNeutral(es)
    ensures Entries(reader, text + Blocks(es)) == Grown(Neutralize(reader.trim(text)), es)
  {
    var blocks := reader.blocks(text + Blocks(es));
    assert blocks == Contents(es);
    forall i | 0 <= i < |es|
      ensures BlockEntry(reader, blocks, i) == Entry("Previous run (" + Decimal(i + 2) + ")", es[i].content)
    {
      assert es[i] in es && blocks[i] == es[i].content;
    }
  }

  // ----- Forever -----

  /** What is folded away once these texts were posted, the newest last. */
  function Folded(reader: Reader, bodies: seq<string>): seq<Entry> {
    if bodies == [] then []
    else Grown(reader.trim(Neutralize(bodies[|bodies| - 1])), Folded(reader, bodies[..|bodies| - 1]))
  }

  /** The texts that are kept, the newest first; nothing is kept of an empty one. */
  function KeptTexts(reader: Reader, bodies: seq<string>): seq<string> {
    if bodies == [] then []
    else
      var text := reader.trim(Neutralize(bodies[|bodies| - 1]));
      (if text == "" then [] else [text]) + KeptTexts(reader, bodies[..|bodies| - 1])
  }

  lemma {:induction false} FoldedAreKept(reader: Reader, bodies: seq<string>)
    ensures Contents(Folded(reader, bodies)) == KeptTexts(reader, bodies)
  {
    if bodies != [] {
      FoldedAreKept(reader, bodies[..|bodies| - 1]);
    }
  }

  /** A text that opens no block and ends none. */
  ghost predicate PlainText(reader: Reader, body: string) {
    && !Contains(Neutralize(body), "<details>") && !Contains(Neutralize(body), "<!-- sticky:history-end -->")
  }

  lemma {:induction false} DigitsOnly(n: nat)
    ensures '<' !in Decimal(n)
  {
    if n >= 10 {
      DigitsOnly(n / 10);
    }
  }

  lemma Numbered(reader: Reader, e: Entry, k: nat)
    requires PlainEntry(reader, e)
    ensures PlainEntry(reader, Entry("Previous run (" + Decimal(k) + ")", e.content))
  {
    DigitsOnly(k);
    assert "Previous " <= "Previous run (" <= "Previous run (" + Decimal(k) + ")";
  }

  lemma GrownHas(text: string, es: seq<Entry>, e: Entry)
    requires e in Grown(text, es)
    ensures (text != "" && e == Entry("Previous run", text))
            || exists i :: 0 <= i < |es| && e == Entry("Previous run (" + Decimal(i + 2) + ")", es[i].content)
  {
  }

  lemma GrownIsPlain(reader: Reader, body: string, es: seq<Entry>)
    requires ReadsOwn(reader) && Trims(reader) && PlainText(reader, body)
    requires Plain(reader, "", es) && AllNeutral(es)
    ensures var grown := Grown(reader.trim(Neutralize(body)), es); Plain(reader, "", grown) && AllNeutral(grown)
  {
    var text := reader.trim(Neutralize(body));
    var grown := Grown(text, es);
    TrimmedIsPlain(reader, body);
    forall e | e in grown ensures PlainEntry(reader, e) && Neutralize(e.content) == e.content {
      GrownHas(text, es, e);
      if i :| 0 <= i < |es| && e == Entry("Previous run (" + Decimal(i + 2) + ")", es[i].content) {
        Numbered(reader, es[i], i + 2);
      } else {
        FirstIsPlain(reader, text);
      }
    }
  }

  lemma FirstIsPlain(reader: Reader, text: string)
    requires reader.trim(text) == text && !Contains(text, "<!-- sticky:history-end -->")
    ensures PlainEntry(reader, Entry("Previous run", text))
  {
  }

  lemma TrimmedIsPlain(reader: Reader, body: string)
    requires ReadsOwn(reader) && Trims(reader) && PlainText(reader, body)
    ensures var text := reader.trim(Neutralize(body));
            && Neutralize(text) == text && reader.trim(text) == text
            && !Contains(text, "<!-- sticky:history-end -->")
  {
    var text := reader.trim(Neutralize(body));
    assert Contains(Neutralize(body), text);
    PlantedHoldsNoOpener(body, text);
    NoOpenerIsFixed(text);
    if Contains(text, "<!-- sticky:history-end -->") {
      PartHolds(Neutralize(body), text, "<!-- sticky:history-end -->");
    }
  }

  lemma {:induction false} FoldedIsPlain(reader: Reader, bodies: seq<string>)
    requires ReadsOwn(reader) && Trims(reader) && forall body :: body in bodies ==> PlainText(reader, body)
    ensures Plain(reader, "", Folded(reader, bodies)) && AllNeutral(Folded(reader, bodies))
  {
    if bodies == [] {
      NothingIn("<details>");
    } else {
      var n := |bodies| - 1;
      FoldedIsPlain(reader, bodies[..n]);
      GrownIsPlain(reader, bodies[n], Folded(reader, bodies[..n]));
    }
  }

  lemma NothingIn(t: string)
    requires t != ""
    ensures !Contains("", t)
  {
  }

  /** The comment once these texts were posted: the last one, and those before it. */
  function PostedAll(reader: Reader, m: string, bodies: seq<string>): string
    requires bodies != []
  {
    var n := |bodies| - 1;
    m + "\n" + Neutralize(bodies[n]) + Blocks(Folded(reader, bodies[..n]))
  }

  /** No update had to cut or drop anything. */
  predicate AllFit(reader: Reader, m: string, maxSize: nat, bodies: seq<string>) {
    |bodies| <= 1
    || (|PostedAll(reader, m, bodies)| <= maxSize && AllFit(reader, m, maxSize, bodies[..|bodies| - 1]))
  }

  /** However often a comment is updated, it holds every text that was posted, the newest
      in front and the others folded away behind it in order, as long as they fit. */
  lemma {:induction false} HistoryForever(reader: Reader, m: string, maxSize: nat, bodies: seq<string>)
    requires ReadsOwn(reader) && Trims(reader) && Marker(m) && bodies != []
    requires forall body :: body in bodies ==> PlainText(reader, body)
    requires AllFit(reader, m, maxSize, bodies)
    ensures Updates(reader, true, m, "", maxSize, m + "\n" + Neutralize(bodies[0]), bodies[1..])
            == PostedAll(reader, m, bodies)
    ensures Contents(Folded(reader, bodies[..|bodies| - 1])) == KeptTexts(reader, bodies[..|bodies| - 1])
    decreases |bodies|
  {
    var n := |bodies| - 1;
    FoldedAreKept(reader, bodies[..n]);
    if n > 0 {
      var before := bodies[..n];
      HistoryForever(reader, m, maxSize, before);
      assert before[1..] == bodies[1..][..n - 1];
      FoldedIsPlain(reader, before[..n - 1]);
      TrimmedIsPlain(reader, before[n - 1]);
      HistoryGrows(reader, m, maxSize, before[n - 1], Folded(reader, before[..n - 1]), Marked(m, bodies[n]));
    }
  }
}
