/** Sticky comments: one comment per marker, found again and updated in place, on
    forges (marker in the body) and on Jira (marker in a comment property). */
module Sticky {
  import opened Markers
  import opened Text
  import opened Wrappers

  /** `sticky` is the decoded sticky property; `otherProperty` says that the comment has
      some other property of the program's. */
  datatype Comment = Comment(id: nat, author: string, body: string, sticky: Option<string>, otherProperty: bool)

  datatype Lookup = Login(name: string) | LookupFails

  /** What becomes of a write: it may land and still be reported as failed. */
  datatype Fate = Lands | Fails | LandsUnseen

  /** One run of the command, with everything the outside decides during it. */
  datatype Run = Run(
    marker: string, body: string, dryRun: bool, onlyIfExists: bool,
    lookups: nat -> Lookup, cancelled: nat -> bool, listFails: bool, id: nat, fate: Fate, propertyFate: Fate)

  /** Text functions: blank text, the body builder (marker, old body, new body), and
      escaping for Jira bodies. */
  datatype Env = Env(
    blank: string -> bool,
    build: (string, string, string) -> string,
    escape: string -> string,
    trimLeft: string -> string)

  datatype Outcome = BadInput | Unverified | ListFailed | Nothing | DryRun | WriteFailed | Updated | Created

  // ----- Who posts -----

  const RETRIES: nat := 2

  function SelfFrom(r: Run, attempt: nat): Option<string>
    decreases RETRIES - attempt
  {
    match r.lookups(attempt)
    case Login(name) => if name != "" then Some(name) else Retry(r, attempt)
    case LookupFails => Retry(r, attempt)
  }

  function Retry(r: Run, attempt: nat): Option<string>
    decreases RETRIES - attempt, 0
  {
    if attempt >= RETRIES || r.cancelled(attempt) then None else SelfFrom(r, attempt + 1)
  }

  function Self(r: Run): Option<string> {
    SelfFrom(r, 0)
  }

  /** The identity is the first non-empty answer, within three attempts and before any
      cancellation; there is none exactly when no attempt answers in time. */
  lemma SelfIsFirstAnswer(r: Run)
    ensures Self(r).Some? <==> exists k: nat :: AnswersAt(r, k)
    ensures forall k: nat :: AnswersAt(r, k) ==> Self(r) == Some(r.lookups(k).name) && Self(r).value != ""
  {
    if SelfFrom(r, 0).Some? {
      var k := if Answers(r, 0) then 0 else if Answers(r, 1) then 1 else 2;
      assert AnswersAt(r, k);
    }
  }

  predicate Answers(r: Run, k: nat) {
    r.lookups(k).Login? && r.lookups(k).name != ""
  }

  predicate AnswersAt(r: Run, k: nat) {
    k <= RETRIES && Answers(r, k) && forall j: nat :: j < k ==> !Answers(r, j) && !r.cancelled(j)
  }

  method ResolveSelf(r: Run) returns (self: Option<string>)
    ensures self == Self(r)
  {
    var attempt: nat := 0;
    while true
      invariant attempt <= RETRIES && SelfFrom(r, attempt) == Self(r)
      decreases RETRIES - attempt
    {
      var l := r.lookups(attempt);
      if l.Login? && l.name != "" {
        return Some(l.name);
      }
      if attempt >= RETRIES || r.cancelled(attempt) {
        return None;
      }
      attempt := attempt + 1;
    }
  }

  // ----- Which comment is updated -----

  function FirstFrom(cs: seq<Comment>, p: Comment -> bool, from: nat): (r: Option<nat>)
    ensures r.Some? ==> from <= r.value < |cs| && p(cs[r.value])
    ensures r.Some? ==> forall i :: from <= i < r.value ==> !p(cs[i])
    ensures r.None? ==> forall i :: from <= i < |cs| ==> !p(cs[i])
    decreases |cs| - from
  {
    if from >= |cs| then None else if p(cs[from]) then Some(from) else FirstFrom(cs, p, from + 1)
  }

  function First(cs: seq<Comment>, p: Comment -> bool): Option<nat> {
    FirstFrom(cs, p, 0)
  }

  predicate OnForge(c: Comment, self: string, marker: string) {
    c.author == self && Contains(c.body, marker)
  }

  predicate ByProperty(c: Comment, self: string, marker: string) {
    c.author == self && c.sticky == Some(marker)
  }

  /** A comment from before properties: none of the program's, and the marker in front. */
  predicate ByLegacy(env: Env, c: Comment, self: string, marker: string) {
    && c.author == self && c.sticky.None? && !c.otherProperty
    && marker != "" && marker <= env.trimLeft(c.body)
  }

  predicate OnJira(env: Env, c: Comment, self: string, marker: string) {
    ByProperty(c, self, marker) || ByLegacy(env, c, self, marker)
  }

  function FindForge(cs: seq<Comment>, self: string, marker: string): Option<nat> {
    First(cs, (c: Comment) => OnForge(c, self, marker))
  }

  function FindJira(env: Env, cs: seq<Comment>, self: string, marker: string): Option<nat> {
    var byProperty := First(cs, (c: Comment) => ByProperty(c, self, marker));
    if byProperty.Some? then byProperty else First(cs, (c: Comment) => ByLegacy(env, c, self, marker))
  }

  // ----- A run -----

  function Settled(fate: Fate, was: seq<Comment>, now: seq<Comment>, o: Outcome): (Outcome, seq<Comment>) {
    match fate
    case Lands => (o, now)
    case Fails => (WriteFailed, was)
    case LandsUnseen => (WriteFailed, now)
  }

  function PostForge(env: Env, cs: seq<Comment>, r: Run): (Outcome, seq<Comment>) {
    if env.blank(r.body) || env.blank(r.marker) then (BadInput, cs)
    else
      match Self(r)
      case None => (Unverified, cs)
      case Some(self) =>
        if r.listFails then (ListFailed, cs)
        else
          match FindForge(cs, self, r.marker)
          case Some(i) =>
            if r.dryRun then (DryRun, cs)
            else
              var body := env.build(r.marker, cs[i].body, Marked(r.marker, r.body));
              Settled(r.fate, cs, cs[i := cs[i].(body := body)], Updated)
          case None =>
            if r.onlyIfExists then (Nothing, cs)
            else if r.dryRun then (DryRun, cs)
            else Settled(r.fate, cs, cs + [Comment(r.id, self, Marked(r.marker, r.body), None, false)], Created)
  }

  function WithoutMarker(body: string, marker: string): string {
    if marker <= body then body[|marker|..] else body
  }

  /** The property is set before the body, and only when it is not there. */
  function MigrateAndUpdate(c: Comment, body: string, r: Run): (Outcome, Comment) {
    if c.sticky == Some(r.marker) then
      if r.fate.Fails? then (WriteFailed, c) else (if r.fate.Lands? then Updated else WriteFailed, c.(body := body))
    else if r.propertyFate.Fails? then (WriteFailed, c)
    else
      var d := c.(sticky := Some(r.marker));
      if r.propertyFate.LandsUnseen? || r.fate.Fails? then (WriteFailed, d)
      else (if r.fate.Lands? then Updated else WriteFailed, d.(body := body))
  }

  function PostJira(env: Env, cs: seq<Comment>, r: Run): (Outcome, seq<Comment>) {
    if env.blank(r.body) || env.blank(r.marker) then (BadInput, cs)
    else
      match Self(r)
      case None => (Unverified, cs)
      case Some(self) =>
        if r.listFails then (ListFailed, cs)
        else
          var body := env.escape(r.body);
          match FindJira(env, cs, self, r.marker)
          case Some(i) =>
            if r.dryRun then (DryRun, cs)
            else
              var was := env.escape(WithoutMarker(cs[i].body, r.marker));
              var (o, c) := MigrateAndUpdate(cs[i], env.escape(env.build(r.marker, was, body)), r);
              (o, cs[i := c])
          case None =>
            if r.onlyIfExists then (Nothing, cs)
            else if r.dryRun then (DryRun, cs)
            else Settled(r.fate, cs, cs + [Comment(r.id, self, body, Some(r.marker), false)], Created)
  }

  // ----- The remote store and the command -----

  class Issue {
    var comments: seq<Comment>

    constructor ()
      ensures comments == []
    {
      comments := [];
    }

    /** A remote write of one comment's body; `ok` is what the caller is told. */
    method Update(i: nat, body: string, fate: Fate) returns (ok: bool)
      requires i < |comments|
      modifies this
      ensures comments == if fate.Fails? then old(comments) else old(comments)[i := old(comments)[i].(body := body)]
      ensures ok <==> fate.Lands?
    {
      if !fate.Fails? {
        comments := comments[i := comments[i].(body := body)];
      }
      ok := fate.Lands?;
    }

    method SetProperty(i: nat, marker: string, fate: Fate) returns (ok: bool)
      requires i < |comments|
      modifies this
      ensures comments == if fate.Fails? then old(comments)
              else old(comments)[i := old(comments)[i].(sticky := Some(marker))]
      ensures ok <==> fate.Lands?
    {
      if !fate.Fails? {
        comments := comments[i := comments[i].(sticky := Some(marker))];
      }
      ok := fate.Lands?;
    }

    method Create(c: Comment, fate: Fate) returns (ok: bool)
      modifies this
      ensures comments == if fate.Fails? then old(comments) else old(comments) + [c]
      ensures ok <==> fate.Lands?
    {
      if !fate.Fails? {
        comments := comments + [c];
      }
      ok := fate.Lands?;
    }
  }

  /** `findMarkedTrackerComment`. */
  method FindMarked(cs: seq<Comment>, marker: string, self: string) returns (r: Option<nat>)
    requires self != ""
    ensures r == FindForge(cs, self, marker)
  {
    ghost var p := (c: Comment) => OnForge(c, self, marker);
    for i := 0 to |cs|
      invariant FindForge(cs, self, marker) == FirstFrom(cs, p, i)
    {
      if cs[i].author == self && Contains(cs[i].body, marker) {
        return Some(i);
      }
    }
    return None;
  }

  /** The two lookups on the comments `ownJiraComments` leaves. */
  method FindByMarkerProperty(env: Env, cs: seq<Comment>, marker: string, self: string) returns (r: Option<nat>)
    requires self != ""
    ensures r == FindJira(env, cs, self, marker)
  {
    ghost var p := (c: Comment) => ByProperty(c, self, marker);
    for i := 0 to |cs|
      invariant First(cs, p) == FirstFrom(cs, p, i)
    {
      if cs[i].author == self && cs[i].sticky == Some(marker) {
        return Some(i);
      }
    }
    ghost var q := (c: Comment) => ByLegacy(env, c, self, marker);
    for i := 0 to |cs|
      invariant First(cs, q) == FirstFrom(cs, q, i)
    {
      if ByLegacy(env, cs[i], self, marker) {
        return Some(i);
      }
    }
    return None;
  }

  method PostTrackerSticky(issue: Issue, env: Env, r: Run) returns (o: Outcome)
    modifies issue
    ensures (o, issue.comments) == PostForge(env, old(issue.comments), r)
  {
    if env.blank(r.body) || env.blank(r.marker) {
      return BadInput;
    }
    var self := ResolveSelf(r);
    SelfIsFirstAnswer(r);
    if self.None? {
      return Unverified;
    }
    if r.listFails {
      return ListFailed;
    }
    var existing := FindMarked(issue.comments, r.marker, self.value);
    var marked := r.marker + "\n" + Neutralize(r.body);
    if existing.Some? {
      var body := env.build(r.marker, issue.comments[existing.value].body, marked);
      if r.dryRun {
        return DryRun;
      }
      var ok := issue.Update(existing.value, body, r.fate);
      return if ok then Updated else WriteFailed;
    }
    if r.onlyIfExists {
      return Nothing;
    }
    if r.dryRun {
      return DryRun;
    }
    var ok := issue.Create(Comment(r.id, self.value, marked, None, false), r.fate);
    return if ok then Created else WriteFailed;
  }

  method MigrateAndUpdateComment(issue: Issue, i: nat, body: string, r: Run) returns (o: Outcome)
    requires i < |issue.comments|
    modifies issue
    ensures var (o', c) := MigrateAndUpdate(old(issue.comments[i]), body, r);
            o == o' && issue.comments == old(issue.comments)[i := c]
  {
    ghost var was := issue.comments;
    assert was[i := was[i]] == was;
    if issue.comments[i].sticky != Some(r.marker) {
      var ok := issue.SetProperty(i, r.marker, r.propertyFate);
      if !ok {
        return WriteFailed;
      }
    }
    ghost var d := was[i].(sticky := Some(r.marker));
    assert was[i := d][i := d.(body := body)] == was[i := d.(body := body)];
    var ok := issue.Update(i, body, r.fate);
    return if ok then Updated else WriteFailed;
  }

  method PostJiraSticky(issue: Issue, env: Env, r: Run) returns (o: Outcome)
    modifies issue
    ensures (o, issue.comments) == PostJira(env, old(issue.comments), r)
  {
    if env.blank(r.body) || env.blank(r.marker) {
      return BadInput;
    }
    var body := env.escape(r.body);
    var self := ResolveSelf(r);
    SelfIsFirstAnswer(r);
    if self.None? {
      return Unverified;
    }
    if r.listFails {
      return ListFailed;
    }
    var existing := FindByMarkerProperty(env, issue.comments, r.marker, self.value);
    if existing.Some? {
      var i := existing.value;
      var oldBody := env.escape(WithoutMarker(issue.comments[i].body, r.marker));
      var newBody := env.escape(env.build(r.marker, oldBody, body));
      if r.dryRun {
        return DryRun;
      }
      o := MigrateAndUpdateComment(issue, i, newBody, r);
      return;
    }
    if r.onlyIfExists {
      return Nothing;
    }
    if r.dryRun {
      return DryRun;
    }
    var ok := issue.Create(Comment(r.id, self.value, body, Some(r.marker), false), r.fate);
    return if ok then Created else WriteFailed;
  }

  // ----- What a run may touch -----

  /** Every comment is still where it was; one of another author is unchanged; at most
      one comment is new, and the run's own. */
  ghost predicate TouchesOnlyOwn(cs: seq<Comment>, after: seq<Comment>, self: Option<string>) {
    && |cs| <= |after| <= |cs| + 1
    && (forall i :: 0 <= i < |cs| && Some(cs[i].author) != self ==> after[i] == cs[i])
    && (forall i :: 0 <= i < |cs| ==> after[i].author == cs[i].author && after[i].id == cs[i].id)
    && (forall i :: |cs| <= i < |after| ==> Some(after[i].author) == self)
    && (self.None? ==> after == cs)
  }

  lemma ForgeTouchesOnlyOwn(env: Env, cs: seq<Comment>, r: Run)
    ensures TouchesOnlyOwn(cs, PostForge(env, cs, r).1, Self(r))
    ensures r.dryRun ==> PostForge(env, cs, r).1 == cs
    ensures r.onlyIfExists ==> |PostForge(env, cs, r).1| == |cs|
  {
  }

  lemma JiraTouchesOnlyOwn(env: Env, cs: seq<Comment>, r: Run)
    ensures TouchesOnlyOwn(cs, PostJira(env, cs, r).1, Self(r))
    ensures r.dryRun ==> PostJira(env, cs, r).1 == cs
    ensures r.onlyIfExists ==> |PostJira(env, cs, r).1| == |cs|
  {
    if Self(r).Some? {
      var at := FindJira(env, cs, Self(r).value, r.marker);
      if at.Some? {
        assert OnJira(env, cs[at.value], Self(r).value, r.marker);
      }
    }
  }

  /** A run edits only comments of the identity it posts as and creates at most one; it
      changes nothing when that identity is not known, or on a dry run, and creates none
      when it may only update. */
  lemma RunTouchesOnlyOwn(env: Env, cs: seq<Comment>, r: Run)
    ensures TouchesOnlyOwn(cs, PostForge(env, cs, r).1, Self(r))
    ensures TouchesOnlyOwn(cs, PostJira(env, cs, r).1, Self(r))
    ensures r.dryRun ==> PostForge(env, cs, r).1 == cs && PostJira(env, cs, r).1 == cs
    ensures r.onlyIfExists ==> |PostForge(env, cs, r).1| == |PostJira(env, cs, r).1| == |cs|
  {
    ForgeTouchesOnlyOwn(env, cs, r);
    JiraTouchesOnlyOwn(env, cs, r);
  }

  // ----- One comment per marker -----

  ghost predicate AtMostOne(cs: seq<Comment>, p: Comment -> bool) {
    forall i, j :: 0 <= i < j < |cs| ==> !(p(cs[i]) && p(cs[j]))
  }

  /** The body builder keeps the marker that leads the new body. */
  ghost predicate KeepsOwn(env: Env, m: string) {
    forall was, body :: Contains(env.build(m, was, Marked(m, body)), m)
  }

  /** It makes up no other. */
  ghost predicate MakesNoOther(env: Env, m: string, other: string) {
    forall was, now :: Contains(env.build(m, was, now), other) ==> Contains(was, other) || Contains(now, other)
  }

  ghost predicate BuilderKeepsMarkers(env: Env, markers: set<string>) {
    && (forall m :: m in markers ==> KeepsOwn(env, m))
    && (forall m, other :: m in markers && other in markers ==> MakesNoOther(env, m, other))
  }

  /** Runner markers, none of which starts with another. */
  ghost predicate MarkersApart(markers: set<string>) {
    && (forall m :: m in markers ==> Marker(m))
    && (forall m, other :: m in markers && other in markers && other <= m ==> other == m)
  }

  lemma MarkedIsExact(markers: set<string>, m: string, other: string, body: string)
    requires MarkersApart(markers) && m in markers && other in markers
    ensures Contains(Marked(m, body), other) <==> other == m
  {
    if Contains(Marked(m, body), other) {
      MarkedHoldsOnlyItsOwn(m, other, body);
    }
    MarkedContains(m, body);
  }

  ghost predicate OnePerMarkerOnForge(cs: seq<Comment>, self: string, markers: set<string>) {
    forall m :: m in markers ==> AtMostOne(cs, (c: Comment) => OnForge(c, self, m))
  }

  lemma ForgeRunKeepsOne(env: Env, cs: seq<Comment>, r: Run, self: string, markers: set<string>)
    requires BuilderKeepsMarkers(env, markers) && MarkersApart(markers) && r.marker in markers
    requires OnePerMarkerOnForge(cs, self, markers)
    ensures OnePerMarkerOnForge(PostForge(env, cs, r).1, self, markers)
  {
    var after := PostForge(env, cs, r).1;
    forall m | m in markers ensures AtMostOne(after, (c: Comment) => OnForge(c, self, m)) {
      ForgeRunKeepsOneOf(env, cs, r, self, markers, m);
    }
  }

  lemma UpdateKeepsOne(cs: seq<Comment>, i: nat, c: Comment, p: Comment -> bool)
    requires i < |cs| && AtMostOne(cs, p) && (p(c) ==> p(cs[i]))
    ensures AtMostOne(cs[i := c], p)
  {
  }

  lemma AppendKeepsOne(cs: seq<Comment>, c: Comment, p: Comment -> bool)
    requires AtMostOne(cs, p) && (p(c) ==> forall i :: 0 <= i < |cs| ==> !p(cs[i]))
    ensures AtMostOne(cs + [c], p)
  {
  }

  /** What a run leaves: the comments as they are, one rewritten, or one more. */
  lemma ForgeRunShape(env: Env, cs: seq<Comment>, r: Run)
    ensures var after := PostForge(env, cs, r).1;
            || after == cs
            || (Self(r).Some? &&
                match FindForge(cs, Self(r).value, r.marker)
                case Some(i) =>
                  after == cs[i := cs[i].(body := env.build(r.marker, cs[i].body, Marked(r.marker, r.body)))]
                case None => after == cs + [Comment(r.id, Self(r).value, Marked(r.marker, r.body), None, false)])
  {
  }

  /** An updated comment gains no marker it did not have, and a new one is made only
      when there is none with its marker. */
  lemma ForgeRunKeepsOneOf(
      env: Env, cs: seq<Comment>, r: Run, self: string, markers: set<string>, m: string)
    requires BuilderKeepsMarkers(env, markers) && MarkersApart(markers) && r.marker in markers && m in markers
    requires AtMostOne(cs, (c: Comment) => OnForge(c, self, m))
    ensures AtMostOne(PostForge(env, cs, r).1, (c: Comment) => OnForge(c, self, m))
  {
    var p := (c: Comment) => OnForge(c, self, m);
    ForgeRunShape(env, cs, r);
    MarkedIsExact(markers, r.marker, m, r.body);
    assert MakesNoOther(env, r.marker, m);
    if PostForge(env, cs, r).1 != cs {
      var at := FindForge(cs, Self(r).value, r.marker);
      if at.Some? {
        var i := at.value;
        assert OnForge(cs[i], Self(r).value, r.marker);
        UpdateKeepsOne(cs, i, cs[i].(body := env.build(r.marker, cs[i].body, Marked(r.marker, r.body))), p);
      } else {
        var c := Comment(r.id, Self(r).value, Marked(r.marker, r.body), None, false);
        assert forall i :: 0 <= i < |cs| ==> !OnForge(cs[i], Self(r).value, r.marker);
        AppendKeepsOne(cs, c, p);
      }
    }
  }

  /** On Jira the property decides, so nothing is asked of markers or bodies. */
  lemma JiraRunKeepsOneOf(env: Env, cs: seq<Comment>, r: Run, self: string, m: string)
    requires AtMostOne(cs, (c: Comment) => OnJira(env, c, self, m))
    ensures AtMostOne(PostJira(env, cs, r).1, (c: Comment) => OnJira(env, c, self, m))
  {
    var p := (c: Comment) => OnJira(env, c, self, m);
    var after := PostJira(env, cs, r).1;
    if after != cs {
      var self' := Self(r).value;
      var at := FindJira(env, cs, self', r.marker);
      if at.Some? {
        var i := at.value;
        assert OnJira(env, cs[i], self', r.marker);
        assert p(after[i]) ==> p(cs[i]);
        UpdateKeepsOne(cs, i, after[i], p);
        assert after == cs[i := after[i]];
      } else {
        var c := Comment(r.id, self', env.escape(r.body), Some(r.marker), false);
        assert forall i :: 0 <= i < |cs| ==>
                 !ByProperty(cs[i], self', r.marker) && !ByLegacy(env, cs[i], self', r.marker);
        AppendKeepsOne(cs, c, p);
        assert after == cs + [c];
      }
    }
  }

  /** A run that reports success leaves a comment of its own with its marker. */
  lemma SuccessLeavesOne(env: Env, cs: seq<Comment>, r: Run, markers: set<string>)
    requires BuilderKeepsMarkers(env, markers) && r.marker in markers
    ensures var (o, after) := PostForge(env, cs, r);
            o.Updated? || o.Created? ==>
              Self(r).Some? && exists i :: 0 <= i < |after| && OnForge(after[i], Self(r).value, r.marker)
    ensures var (o, after) := PostJira(env, cs, r);
            o.Updated? || o.Created? ==>
              Self(r).Some? && exists i :: 0 <= i < |after| && ByProperty(after[i], Self(r).value, r.marker)
  {
    ForgeSuccess(env, cs, r, markers);
    JiraSuccess(env, cs, r);
  }

  lemma ForgeSuccess(env: Env, cs: seq<Comment>, r: Run, markers: set<string>)
    requires BuilderKeepsMarkers(env, markers) && r.marker in markers
    ensures var (o, after) := PostForge(env, cs, r);
            o.Updated? || o.Created? ==>
              Self(r).Some? && exists i :: 0 <= i < |after| && OnForge(after[i], Self(r).value, r.marker)
  {
    var (o, after) := PostForge(env, cs, r);
    if o.Updated? || o.Created? {
      MarkedContains(r.marker, r.body);
      assert KeepsOwn(env, r.marker);
      var at := FindForge(cs, Self(r).value, r.marker);
      var i := if at.Some? then at.value else |cs|;
      assert OnForge(after[i], Self(r).value, r.marker);
    }
  }

  lemma JiraSuccess(env: Env, cs: seq<Comment>, r: Run)
    ensures var (o, after) := PostJira(env, cs, r);
            o.Updated? || o.Created? ==>
              Self(r).Some? && exists i :: 0 <= i < |after| && ByProperty(after[i], Self(r).value, r.marker)
  {
    var (o, after) := PostJira(env, cs, r);
    if o.Updated? || o.Created? {
      var at := FindJira(env, cs, Self(r).value, r.marker);
      var i := if at.Some? then at.value else |cs|;
      assert ByProperty(after[i], Self(r).value, r.marker);
    }
  }

  // ----- Any sequence of runs and of what others do -----

  /** A run, or anything others do to the issue: `from` says which comment was which. */
  datatype Event = Posts(env: Env, r: Run) | Others(next: seq<Comment>, from: seq<nat>)

  /** Others may do anything but post as `self` or edit its comments. */
  ghost predicate LeavesOwn(self: string, cs: seq<Comment>, next: seq<Comment>, from: seq<nat>) {
    && |from| == |next|
    && (forall k :: 0 <= k < |next| && next[k].author == self ==> from[k] < |cs| && cs[from[k]] == next[k])
    && (forall k, l :: 0 <= k < l < |next| && next[k].author == self && next[l].author == self ==> from[k] < from[l])
  }

  function ForgeStep(cs: seq<Comment>, e: Event): seq<Comment> {
    match e
    case Posts(env, r) => PostForge(env, cs, r).1
    case Others(next, _) => next
  }

  function JiraStep(cs: seq<Comment>, e: Event): seq<Comment> {
    match e
    case Posts(env, r) => PostJira(env, cs, r).1
    case Others(next, _) => next
  }

  function OnForgeAfter(cs: seq<Comment>, es: seq<Event>): seq<Comment> {
    if es == [] then cs else ForgeStep(OnForgeAfter(cs, es[..|es| - 1]), es[|es| - 1])
  }

  function OnJiraAfter(cs: seq<Comment>, es: seq<Event>): seq<Comment> {
    if es == [] then cs else JiraStep(OnJiraAfter(cs, es[..|es| - 1]), es[|es| - 1])
  }

  lemma OthersKeepOne(self: string, cs: seq<Comment>, next: seq<Comment>, from: seq<nat>, p: Comment -> bool)
    requires LeavesOwn(self, cs, next, from) && AtMostOne(cs, p) && forall c :: p(c) ==> c.author == self
    ensures AtMostOne(next, p)
  {
    forall i, j | 0 <= i < j < |next| ensures !(p(next[i]) && p(next[j])) {
      if next[i].author == self && next[j].author == self {
        assert !(p(cs[from[i]]) && p(cs[from[j]]));
      }
    }
  }

  ghost predicate ForgeEventOk(self: string, markers: set<string>, cs: seq<Comment>, e: Event) {
    match e
    case Posts(env, r) => BuilderKeepsMarkers(env, markers) && r.marker in markers
    case Others(next, from) => LeavesOwn(self, cs, next, from)
  }

  ghost predicate ForgeEventsOk(self: string, markers: set<string>, cs: seq<Comment>, es: seq<Event>) {
    forall n {:trigger es[n]} :: 0 <= n < |es| ==> ForgeEventOk(self, markers, OnForgeAfter(cs, es[..n]), es[n])
  }

  lemma ForgeEventsPrefix(self: string, markers: set<string>, cs: seq<Comment>, es: seq<Event>)
    requires es != [] && ForgeEventsOk(self, markers, cs, es)
    ensures ForgeEventsOk(self, markers, cs, es[..|es| - 1])
    ensures ForgeEventOk(self, markers, OnForgeAfter(cs, es[..|es| - 1]), es[|es| - 1])
  {
    var before := es[..|es| - 1];
    forall n | 0 <= n < |before| ensures ForgeEventOk(self, markers, OnForgeAfter(cs, before[..n]), before[n]) {
      assert before[..n] == es[..n] && before[n] == es[n];
    }
  }

  lemma ForgeStepKeepsOne(self: string, markers: set<string>, cs: seq<Comment>, e: Event)
    requires MarkersApart(markers) && OnePerMarkerOnForge(cs, self, markers) && ForgeEventOk(self, markers, cs, e)
    ensures OnePerMarkerOnForge(ForgeStep(cs, e), self, markers)
  {
    match e
    case Posts(env, r) => ForgeRunKeepsOne(env, cs, r, self, markers);
    case Others(next, from) =>
      forall m | m in markers ensures AtMostOne(next, (c: Comment) => OnForge(c, self, m)) {
        OthersKeepOne(self, cs, next, from, (c: Comment) => OnForge(c, self, m));
      }
  }

  /** From at most one own comment per marker there is never more than one. */
  lemma {:induction false} ForgeKeepsOneForever(self: string, markers: set<string>, cs: seq<Comment>, es: seq<Event>)
    requires MarkersApart(markers) && OnePerMarkerOnForge(cs, self, markers) && ForgeEventsOk(self, markers, cs, es)
    ensures OnePerMarkerOnForge(OnForgeAfter(cs, es), self, markers)
  {
    if es != [] {
      ForgeEventsPrefix(self, markers, cs, es);
      ForgeKeepsOneForever(self, markers, cs, es[..|es| - 1]);
      ForgeStepKeepsOne(self, markers, OnForgeAfter(cs, es[..|es| - 1]), es[|es| - 1]);
    }
  }

  // ----- One marker by itself -----

  /** With one marker in play nothing is asked of it or of the builder: the run rewrites
      the comment it found, and posts one only when there is none. */
  lemma ForgeRunKeepsTheOne(env: Env, cs: seq<Comment>, r: Run, self: string)
    requires AtMostOne(cs, (c: Comment) => OnForge(c, self, r.marker))
    ensures AtMostOne(PostForge(env, cs, r).1, (c: Comment) => OnForge(c, self, r.marker))
  {
    var p := (c: Comment) => OnForge(c, self, r.marker);
    ForgeRunShape(env, cs, r);
    if PostForge(env, cs, r).1 != cs {
      var at := FindForge(cs, Self(r).value, r.marker);
      if at.Some? {
        var i := at.value;
        assert OnForge(cs[i], Self(r).value, r.marker);
        UpdateKeepsOne(cs, i, cs[i].(body := env.build(r.marker, cs[i].body, Marked(r.marker, r.body))), p);
      } else {
        var c := Comment(r.id, Self(r).value, Marked(r.marker, r.body), None, false);
        assert forall i :: 0 <= i < |cs| ==> !OnForge(cs[i], Self(r).value, r.marker);
        AppendKeepsOne(cs, c, p);
      }
    }
  }

  ghost predicate OneMarkerEventOk(self: string, marker: string, cs: seq<Comment>, e: Event) {
    match e
    case Posts(_, r) => r.marker == marker
    case Others(next, from) => LeavesOwn(self, cs, next, from)
  }

  /** Any non-blank marker, of any form, with any builder: from at most one own comment
      with it there is never more than one, as long as runs with other markers stay away. */
  lemma {:induction false} ForgeKeepsTheOneForever(self: string, marker: string, cs: seq<Comment>, es: seq<Event>)
    requires AtMostOne(cs, (c: Comment) => OnForge(c, self, marker))
    requires forall n {:trigger es[n]} :: 0 <= n < |es| ==>
               OneMarkerEventOk(self, marker, OnForgeAfter(cs, es[..n]), es[n])
    ensures AtMostOne(OnForgeAfter(cs, es), (c: Comment) => OnForge(c, self, marker))
  {
    if es != [] {
      var before, last := es[..|es| - 1], es[|es| - 1];
      assert forall n :: 0 <= n < |before| ==> before[..n] == es[..n] && before[n] == es[n];
      ForgeKeepsTheOneForever(self, marker, cs, before);
      assert OneMarkerEventOk(self, marker, OnForgeAfter(cs, before), last);
      match last
      case Posts(env, r) => ForgeRunKeepsTheOne(env, OnForgeAfter(cs, before), r, self);
      case Others(next, from) =>
        OthersKeepOne(self, OnForgeAfter(cs, before), next, from, (c: Comment) => OnForge(c, self, marker));
    }
  }

  // ----- On Jira -----

  ghost predicate JiraEventOk(self: string, trimLeft: string -> string, cs: seq<Comment>, e: Event) {
    match e
    case Posts(env, _) => env.trimLeft == trimLeft
    case Others(next, from) => LeavesOwn(self, cs, next, from)
  }

  ghost predicate JiraEventsOk(self: string, trimLeft: string -> string, cs: seq<Comment>, es: seq<Event>) {
    forall n {:trigger es[n]} :: 0 <= n < |es| ==> JiraEventOk(self, trimLeft, OnJiraAfter(cs, es[..n]), es[n])
  }

  lemma JiraEventsPrefix(self: string, trimLeft: string -> string, cs: seq<Comment>, es: seq<Event>)
    requires es != [] && JiraEventsOk(self, trimLeft, cs, es)
    ensures JiraEventsOk(self, trimLeft, cs, es[..|es| - 1])
    ensures JiraEventOk(self, trimLeft, OnJiraAfter(cs, es[..|es| - 1]), es[|es| - 1])
  {
    var before := es[..|es| - 1];
    forall n | 0 <= n < |before| ensures JiraEventOk(self, trimLeft, OnJiraAfter(cs, before[..n]), before[n]) {
      assert before[..n] == es[..n] && before[n] == es[n];
    }
  }

  lemma JiraStepKeepsOne(self: string, env: Env, m: string, cs: seq<Comment>, e: Event)
    requires AtMostOne(cs, (c: Comment) => OnJira(env, c, self, m)) && JiraEventOk(self, env.trimLeft, cs, e)
    ensures AtMostOne(JiraStep(cs, e), (c: Comment) => OnJira(env, c, self, m))
  {
    match e
    case Posts(other, r) =>
      SameOnJira(env, other, cs, self, m);
      JiraRunKeepsOneOf(other, cs, r, self, m);
      SameOnJira(other, env, PostJira(other, cs, r).1, self, m);
    case Others(next, from) => OthersKeepOne(self, cs, next, from, (c: Comment) => OnJira(env, c, self, m));
  }

  lemma {:induction false} JiraKeepsOneForever(self: string, env: Env, m: string, cs: seq<Comment>, es: seq<Event>)
    requires AtMostOne(cs, (c: Comment) => OnJira(env, c, self, m)) && JiraEventsOk(self, env.trimLeft, cs, es)
    ensures AtMostOne(OnJiraAfter(cs, es), (c: Comment) => OnJira(env, c, self, m))
  {
    if es != [] {
      JiraEventsPrefix(self, env.trimLeft, cs, es);
      JiraKeepsOneForever(self, env, m, cs, es[..|es| - 1]);
      JiraStepKeepsOne(self, env, m, OnJiraAfter(cs, es[..|es| - 1]), es[|es| - 1]);
    }
  }

  lemma SameOnJira(e: Env, f: Env, cs: seq<Comment>, self: string, m: string)
    requires e.trimLeft == f.trimLeft && AtMostOne(cs, (c: Comment) => OnJira(e, c, self, m))
    ensures AtMostOne(cs, (c: Comment) => OnJira(f, c, self, m))
  {
    var p := (c: Comment) => OnJira(e, c, self, m);
    forall i, j | 0 <= i < j < |cs| ensures !(OnJira(f, cs[i], self, m) && OnJira(f, cs[j], self, m)) {
      assert !(p(cs[i]) && p(cs[j]));
    }
  }

  /** No sequence of runs ever edits or removes a comment of another author. */
  lemma {:induction false} OthersAreNeverEdited(cs: seq<Comment>, es: seq<Event>, i: nat)
    requires i < |cs| && forall n :: 0 <= n < |es| ==> es[n].Posts? && Self(es[n].r) != Some(cs[i].author)
    ensures i < |OnForgeAfter(cs, es)| && OnForgeAfter(cs, es)[i] == cs[i]
    ensures i < |OnJiraAfter(cs, es)| && OnJiraAfter(cs, es)[i] == cs[i]
  {
    if es != [] {
      var before, e := es[..|es| - 1], es[|es| - 1];
      OthersAreNeverEdited(cs, before, i);
      RunTouchesOnlyOwn(e.env, OnForgeAfter(cs, before), e.r);
      RunTouchesOnlyOwn(e.env, OnJiraAfter(cs, before), e.r);
    }
  }

  // ----- Cutting a body -----

  /** What is left of a body that is too long: cut after `k` characters, then a note. */
  function CutAfter(body: string, k: nat, note: string): string
    requires k <= |body|
  {
    body[..k] + note
  }

  /** Cutting a body makes no marker up and keeps a marker in front of the cut, as the
      note starts a line and holds no `<`. */
  lemma CutKeepsMarkers(body: string, k: nat, note: string, m: string)
    requires k <= |body| && Marker(m) && "\n" <= note && '<' !in note
    ensures Contains(CutAfter(body, k, note), m) ==> Contains(body, m)
    ensures m <= body && |m| <= k ==> Contains(CutAfter(body, k, note), m)
  {
    var s := CutAfter(body, k, note);
    if m <= body && |m| <= k {
      assert OccursAt(s, m, 0);
    }
    if Contains(s, m) {
      var i :| 0 <= i <= |s| && OccursAt(s, m, i);
      assert forall j :: 0 <= j < |m| ==> m[j] == s[i..i + |m|][j] == s[i + j];
      assert s[i] == m[0] == '<';
      assert i < k;
      assert s[k] == '\n';
      assert i + |m| <= k;
      assert OccursAt(body, m, i);
    }
  }
}
