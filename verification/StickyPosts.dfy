/** What one run of the sticky command leaves: which comment it writes, with which body,
    and what it reports. */
module StickyPosts {
  import opened Markers
  import opened Sticky
  import opened StickyBody
  import opened StickyHistory
  import opened Text
  import opened Wrappers

  // ----- On a forge -----

  predicate HoldsMarker(c: Comment, self: string, marker: string) {
    c.author == self && Contains(c.body, marker)
  }

  /** The first own comment that holds the marker. */
  ghost predicate FirstOnForge(cs: seq<Comment>, self: string, marker: string, i: nat) {
    i < |cs| && HoldsMarker(cs[i], self, marker) && forall j :: 0 <= j < i ==> !HoldsMarker(cs[j], self, marker)
  }

  ghost predicate SomeOnForge(cs: seq<Comment>, self: string, marker: string) {
    exists i :: 0 <= i < |cs| && HoldsMarker(cs[i], self, marker)
  }

  lemma FindsOnForge(cs: seq<Comment>, self: string, marker: string)
    ensures match FindForge(cs, self, marker)
            case Some(i) => FirstOnForge(cs, self, marker, i) && SomeOnForge(cs, self, marker)
            case None => !SomeOnForge(cs, self, marker)
  {
    var p := (c: Comment) => OnForge(c, self, marker);
    assert forall i :: 0 <= i < |cs| ==> p(cs[i]) == HoldsMarker(cs[i], self, marker);
  }

  /** One comment has a new body, and all else is as it was. */
  ghost predicate Rewritten(cs: seq<Comment>, after: seq<Comment>, i: nat, body: string) {
    && i < |cs| == |after| && after[i] == cs[i].(body := body)
    && forall j :: 0 <= j < |cs| && j != i ==> after[j] == cs[j]
  }

  /** One comment more, at the end. */
  ghost predicate Posted(cs: seq<Comment>, after: seq<Comment>, c: Comment) {
    after == cs + [c]
  }

  /** What a write may leave: what it was to write, unless it failed. */
  ghost predicate MayHave(fate: Fate, written: bool, nothing: bool) {
    if fate.Fails? then nothing else written
  }

  /** How far a run gets before it looks for a comment. */
  function Stopped(env: Env, r: Run): Option<Outcome> {
    if env.blank(r.body) || env.blank(r.marker) then Some(BadInput)
    else if Self(r).None? then Some(Unverified)
    else if r.listFails then Some(ListFailed)
    else None
  }

  /** A run that is not stopped before rewrites the first own comment with its marker, or
      posts one when there is none; the body is the builder's, or the marker with the
      neutralized text; and it reports success exactly when the write is seen to land. */
  lemma ForgeRunExactly(env: Env, cs: seq<Comment>, r: Run)
    ensures var (o, after) := PostForge(env, cs, r);
            var marked := r.marker + "\n" + Neutralize(r.body);
            if Stopped(env, r).Some? then o == Stopped(env, r).value && after == cs
            else
              var self := Self(r).value;
              if SomeOnForge(cs, self, r.marker) then
                if r.dryRun then o == DryRun && after == cs
                else
                  && o == (if r.fate.Lands? then Updated else WriteFailed)
                  && exists i: nat :: FirstOnForge(cs, self, r.marker, i)
                                 && MayHave(r.fate, Rewritten(cs, after, i, env.build(r.marker, cs[i].body, marked)),
                                            after == cs)
              else if r.onlyIfExists then o == Nothing && after == cs
              else if r.dryRun then o == DryRun && after == cs
              else
                && o == (if r.fate.Lands? then Created else WriteFailed)
                && MayHave(r.fate, Posted(cs, after, Comment(r.id, self, marked, None, false)), after == cs)
  {
    if Stopped(env, r).None? {
      FindsOnForge(cs, Self(r).value, r.marker);
      var at := FindForge(cs, Self(r).value, r.marker);
      if at.Some? && !r.dryRun {
        var body := env.build(r.marker, cs[at.value].body, Marked(r.marker, r.body));
        assert r.fate.Fails? || Rewritten(cs, PostForge(env, cs, r).1, at.value, body);
        assert FirstOnForge(cs, Self(r).value, r.marker, at.value);
      }
    }
  }

  // ----- On Jira -----

  predicate HasProperty(c: Comment, self: string, marker: string) {
    c.author == self && c.sticky == Some(marker)
  }

  predicate IsLegacy(env: Env, c: Comment, self: string, marker: string) {
    && c.author == self && c.sticky.None? && !c.otherProperty && marker != "" && HasPrefix(env.trimLeft(c.body), marker)
  }

  /** The first own comment with the property, or else the first legacy one. */
  ghost predicate FirstOnJira(env: Env, cs: seq<Comment>, self: string, marker: string, i: nat) {
    && i < |cs|
    && if HasProperty(cs[i], self, marker) then forall j :: 0 <= j < i ==> !HasProperty(cs[j], self, marker)
       else
         && IsLegacy(env, cs[i], self, marker) && (forall j :: 0 <= j < |cs| ==> !HasProperty(cs[j], self, marker))
         && forall j :: 0 <= j < i ==> !IsLegacy(env, cs[j], self, marker)
  }

  ghost predicate SomeOnJira(env: Env, cs: seq<Comment>, self: string, marker: string) {
    exists i :: 0 <= i < |cs| && (HasProperty(cs[i], self, marker) || IsLegacy(env, cs[i], self, marker))
  }

  lemma FindsOnJira(env: Env, cs: seq<Comment>, self: string, marker: string)
    ensures match FindJira(env, cs, self, marker)
            case Some(i) => FirstOnJira(env, cs, self, marker, i) && SomeOnJira(env, cs, self, marker)
            case None => !SomeOnJira(env, cs, self, marker)
  {
    var p := (c: Comment) => ByProperty(c, self, marker);
    var q := (c: Comment) => ByLegacy(env, c, self, marker);
    assert forall i :: 0 <= i < |cs| ==> p(cs[i]) == HasProperty(cs[i], self, marker);
    assert forall i :: 0 <= i < |cs| ==> q(cs[i]) == IsLegacy(env, cs[i], self, marker);
  }

  /** An update on Jira: the property first, when it is not there, and then the body; each
      may fail, or land unseen, and a failure of the first keeps the second from running. */
  ghost predicate Migrated(c: Comment, d: Comment, o: Outcome, r: Run, body: string) {
    var tagged := c.(sticky := Some(r.marker));
    if c.sticky != Some(r.marker) && !r.propertyFate.Lands? then
      o == WriteFailed && d == (if r.propertyFate.Fails? then c else tagged)
    else
      && o == (if r.fate.Lands? then Updated else WriteFailed)
      && d == (if r.fate.Fails? then tagged else tagged.(body := body))
  }

  /** The same on Jira, where the property tells comments apart and bodies are escaped. */
  lemma JiraRunExactly(env: Env, cs: seq<Comment>, r: Run)
    ensures var (o, after) := PostJira(env, cs, r);
            var escaped := env.escape(r.body);
            if Stopped(env, r).Some? then o == Stopped(env, r).value && after == cs
            else
              var self := Self(r).value;
              if SomeOnJira(env, cs, self, r.marker) then
                if r.dryRun then o == DryRun && after == cs
                else
                  exists i: nat :: FirstOnJira(env, cs, self, r.marker, i) && |after| == |cs|
                              && Migrated(cs[i], after[i], o, r, JiraBody(env, r, cs[i].body))
                              && forall j :: 0 <= j < |cs| && j != i ==> after[j] == cs[j]
              else if r.onlyIfExists then o == Nothing && after == cs
              else if r.dryRun then o == DryRun && after == cs
              else
                && o == (if r.fate.Lands? then Created else WriteFailed)
                && MayHave(r.fate, Posted(cs, after, Comment(r.id, self, escaped, Some(r.marker), false)), after == cs)
  {
    if Stopped(env, r).None? {
      FindsOnJira(env, cs, Self(r).value, r.marker);
      var at := FindJira(env, cs, Self(r).value, r.marker);
      if at.Some? && !r.dryRun {
        var i, after := at.value, PostJira(env, cs, r).1;
        assert FirstOnJira(env, cs, Self(r).value, r.marker, i);
        assert Migrated(cs[i], after[i], PostJira(env, cs, r).0, r, JiraBody(env, r, cs[i].body));
      }
    }
  }

  /** The builder's body over what an old one holds behind its legacy marker, escaped
      before and after. */
  function JiraBody(env: Env, r: Run, was: string): string {
    var content := if HasPrefix(was, r.marker) then was[|r.marker|..] else was;
    env.escape(env.build(r.marker, env.escape(content), env.escape(r.body)))
  }
}
