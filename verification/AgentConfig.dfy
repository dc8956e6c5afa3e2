/** Registering and removing agents in a configuration: entries, and the repository
    prefixes that may be fetched from. */
module AgentConfig {
  import opened Text
  import opened Wrappers

  // ----- URLs -----

  predicate IsHexDigit(c: char) {
    '0' <= c <= '9' || 'a' <= c <= 'f' || 'A' <= c <= 'F'
  }

  const HASH := "sha256="

  /** The part of `ParseIntegrityHash` that strips a valid `#sha256=` fragment. */
  function Clean(raw: string): (clean: string)
    ensures clean <= raw
  {
    var i := LastIndex(raw, "#");
    if i < 0 then raw
    else
      var fragment := raw[i + 1..];
      if HASH <= fragment && |fragment| == |HASH| + 64
         && forall k :: |HASH| <= k < |fragment| ==> IsHexDigit(fragment[k])
      then raw[..i] else raw
  }

  datatype Repo = Repo(owner: string, name: string)

  // ----- Configuration -----

  datatype Entry = Entry(name: string, source: string, ref: string, rest: string)

  datatype Config = Config(agents: seq<Entry>, resources: seq<string>)

  /** Text functions the commands use, what pinning a URL yields (its network access
      included), and the checks of local paths and of a whole configuration. */
  datatype Env = Env(
    lower: string -> string,
    fileName: string -> string,
    isURL: string -> bool,
    repo: string -> Option<Repo>,
    pin: string -> Option<(string, string)>,
    localOk: string -> bool,
    valid: Config -> bool)

  function DerivedName(env: Env, e: Entry): string {
    if e.name != "" then e.name else env.fileName(e.source)
  }

  function Key(env: Env, e: Entry): string {
    env.lower(DerivedName(env, e))
  }

  function Middle(r: Repo): string {
    "/" + r.owner + "/" + r.name + "/"
  }

  /** `allowlistPrefixForURL`: up to and including the repository, or nothing. */
  function AllowlistPrefix(env: Env, raw: string): string {
    var clean := Clean(raw);
    match env.repo(clean)
    case None => ""
    case Some(r) =>
      var i := Index(clean, Middle(r));
      if i < 0 then "" else clean[..i] + Middle(r)
  }

  /** The prefix is a prefix of the source as it is stored, ends with the repository, and
      is the shortest that does. */
  lemma AllowlistPrefixIsPrefix(env: Env, raw: string)
    ensures AllowlistPrefix(env, raw) <= raw
    ensures AllowlistPrefix(env, raw) != "" ==>
              && env.repo(Clean(raw)).Some?
              && var middle := Middle(env.repo(Clean(raw)).value);
                 && HasSuffix(AllowlistPrefix(env, raw), middle)
                 && forall p :: p <= Clean(raw) && HasSuffix(p, middle) ==> AllowlistPrefix(env, raw) <= p
  {
    var clean := Clean(raw);
    if env.repo(clean).Some? {
      var middle := Middle(env.repo(clean).value);
      var i := Index(clean, middle);
      if i >= 0 {
        assert OccursAt(clean, middle, i);
        var prefix := clean[..i] + middle;
        assert prefix == clean[..i + |middle|];
        forall p | p <= clean && HasSuffix(p, middle) ensures prefix <= p {
          assert OccursAt(clean, middle, |p| - |middle|);
        }
      }
    }
  }

  predicate HasAllowlistPrefix(resources: seq<string>, prefix: string) {
    prefix in resources
  }

  predicate AnyUses(env: Env, agents: seq<Entry>, prefix: string) {
    exists a :: a in agents && env.isURL(a.source) && prefix <= a.source
  }

  function Find(env: Env, agents: seq<Entry>, name: string): Option<nat> {
    FindFrom(env, agents, name, 0)
  }

  function FindFrom(env: Env, agents: seq<Entry>, name: string, from: nat): (r: Option<nat>)
    ensures r.Some? ==> from <= r.value < |agents| && Key(env, agents[r.value]) == env.lower(name)
    ensures r.Some? ==> forall i :: from <= i < r.value ==> Key(env, agents[i]) != env.lower(name)
    ensures r.None? ==> forall i :: from <= i < |agents| ==> Key(env, agents[i]) != env.lower(name)
    decreases |agents| - from
  {
    if from >= |agents| then None
    else if Key(env, agents[from]) == env.lower(name) then Some(from)
    else FindFrom(env, agents, name, from + 1)
  }

  // ----- The commands on values -----

  /** The entry `agent add` would register; nothing when the source is refused. */
  function NewEntry(env: Env, source: string, name: string): Option<Entry> {
    if env.isURL(source) then
      match env.pin(source)
      case None => None
      case Some((pinned, ref)) => Some(Entry(name, pinned, ref, ""))
    else if env.localOk(source) then Some(Entry(name, source, "", ""))
    else None
  }

  function Added(env: Env, c: Config, source: string, name: string): Option<Config> {
    match NewEntry(env, source, name)
    case None => None
    case Some(e) =>
      var prefix := if env.isURL(source) then AllowlistPrefix(env, e.source) else "";
      var resources :=
        if prefix != "" && !HasAllowlistPrefix(c.resources, prefix) then c.resources + [prefix] else c.resources;
      if Find(env, c.agents, DerivedName(env, e)).Some? then None
      else
        var next := Config(c.agents + [e], resources);
        if env.valid(next) then Some(next) else None
  }

  function Without(s: seq<string>, x: string): (r: seq<string>)
    ensures forall y :: y in r <==> y in s && y != x
    ensures |r| <= |s| && (|r| == |s| <==> x !in s) && (x !in s ==> r == s)
  {
    if s == [] then []
    else
      var before := Without(s[..|s| - 1], x);
      assert s == s[..|s| - 1] + [s[|s| - 1]];
      if s[|s| - 1] == x then before else before + [s[|s| - 1]]
  }

  function Removed(env: Env, c: Config, name: string): Option<Config> {
    match Find(env, c.agents, name)
    case None => None
    case Some(i) =>
      var gone := c.agents[i];
      var agents := c.agents[..i] + c.agents[i + 1..];
      var prefix := if env.isURL(gone.source) then AllowlistPrefix(env, gone.source) else "";
      var resources :=
        if prefix != "" && !AnyUses(env, agents, prefix) then Without(c.resources, prefix) else c.resources;
      var next := Config(agents, resources);
      if env.valid(next) then Some(next) else None
  }

  // ----- The commands -----

  /** The configuration file. A command works on what it loaded and writes at the end. */
  class ConfigFile {
    var c: Config

    constructor (c: Config)
      ensures this.c == c
    {
      this.c := c;
    }

    method AgentAdd(env: Env, source: string, name: string) returns (ok: bool)
      modifies this
      ensures match Added(env, old(c), source, name)
              case None => !ok && c == old(c)
              case Some(next) => ok && c == next
    {
      var agents, resources := c.agents, c.resources;
      var entry: Entry;
      if env.isURL(source) {
        var pinned := env.pin(source);
        if pinned.None? {
          return false;
        }
        entry := Entry(name, pinned.value.0, pinned.value.1, "");
        var prefix := AllowlistPrefix(env, entry.source);
        if prefix != "" {
          var has := HasPrefixIn(resources, prefix);
          if !has {
            resources := resources + [prefix];
          }
        }
      } else {
        if !env.localOk(source) {
          return false;
        }
        entry := Entry(name, source, "", "");
      }
      var at := FindAgentByName(env, agents, DerivedName(env, entry));
      if at.Some? {
        return false;
      }
      var next := Config(agents + [entry], resources);
      if !env.valid(next) {
        return false;
      }
      c := next;
      return true;
    }

    method AgentRemove(env: Env, name: string) returns (ok: bool)
      modifies this
      ensures match Removed(env, old(c), name)
              case None => !ok && c == old(c)
              case Some(next) => ok && c == next
    {
      var agents, resources := c.agents, c.resources;
      var at := FindAgentByName(env, agents, name);
      if at.None? {
        return false;
      }
      var removed := agents[at.value];
      agents := agents[..at.value] + agents[at.value + 1..];
      if env.isURL(removed.source) {
        var prefix := AllowlistPrefix(env, removed.source);
        if prefix != "" {
          var used := AnyAgentUsesPrefix(env, agents, prefix);
          if !used {
            var cleaned := Cleaned(resources, prefix);
            if |cleaned| < |resources| {
              resources := cleaned;
            }
          }
        }
      }
      var next := Config(agents, resources);
      if !env.valid(next) {
        return false;
      }
      c := next;
      return true;
    }
  }

  method FindAgentByName(env: Env, agents: seq<Entry>, name: string) returns (r: Option<nat>)
    ensures r == Find(env, agents, name)
  {
    var lower := env.lower(name);
    for i := 0 to |agents|
      invariant Find(env, agents, name) == FindFrom(env, agents, name, i)
    {
      if Key(env, agents[i]) == lower {
        return Some(i);
      }
    }
    return None;
  }

  method HasPrefixIn(resources: seq<string>, prefix: string) returns (has: bool)
    ensures has == HasAllowlistPrefix(resources, prefix)
  {
    for i := 0 to |resources|
      invariant prefix !in resources[..i]
    {
      if resources[i] == prefix {
        return true;
      }
    }
    return false;
  }

  method AnyAgentUsesPrefix(env: Env, agents: seq<Entry>, prefix: string) returns (used: bool)
    ensures used == AnyUses(env, agents, prefix)
  {
    for i := 0 to |agents|
      invariant !AnyUses(env, agents[..i], prefix)
    {
      if env.isURL(agents[i].source) && prefix <= agents[i].source {
        assert agents[i] in agents;
        return true;
      }
    }
    assert agents[..|agents|] == agents;
    return false;
  }

  method Cleaned(resources: seq<string>, prefix: string) returns (cleaned: seq<string>)
    ensures cleaned == Without(resources, prefix)
  {
    cleaned := [];
    for i := 0 to |resources|
      invariant cleaned == Without(resources[..i], prefix)
    {
      assert resources[..i + 1][..i] == resources[..i];
      if resources[i] != prefix {
        cleaned := cleaned + [resources[i]];
      }
    }
    assert resources[..|resources|] == resources;
  }

  // ----- What the commands keep -----

  /** Every registered URL agent's repository may be fetched from, and no two agents
      have the same name but for case. */
  ghost predicate Good(env: Env, c: Config) {
    && (forall a :: a in c.agents && env.isURL(a.source) && AllowlistPrefix(env, a.source) != "" ==>
          AllowlistPrefix(env, a.source) in c.resources)
    && (forall i, j :: 0 <= i < j < |c.agents| ==> Key(env, c.agents[i]) != Key(env, c.agents[j]))
  }

  /** What is pinned or local keeps its kind. */
  ghost predicate PinsURLs(env: Env) {
    forall s :: env.isURL(s) && env.pin(s).Some? ==> env.isURL(env.pin(s).value.0)
  }

  lemma AddKeepsGood(env: Env, c: Config, source: string, name: string)
    requires Good(env, c) && Added(env, c, source, name).Some?
    ensures Good(env, Added(env, c, source, name).value)
  {
    var next := Added(env, c, source, name).value;
    var e := NewEntry(env, source, name).value;
    forall a | a in next.agents && env.isURL(a.source) && AllowlistPrefix(env, a.source) != ""
      ensures AllowlistPrefix(env, a.source) in next.resources
    {
      if a !in c.agents {
        assert a == e;
      }
    }
    forall i, j | 0 <= i < j < |next.agents| ensures Key(env, next.agents[i]) != Key(env, next.agents[j]) {
      if j == |c.agents| {
        assert next.agents[j] == e && next.agents[i] == c.agents[i];
      } else {
        assert next.agents[i] == c.agents[i] && next.agents[j] == c.agents[j];
      }
    }
  }

  /** Removal takes no prefix away that an agent left needs: its own prefix is a prefix
      of its source, so the use test finds it. */
  lemma RemoveKeepsGood(env: Env, c: Config, name: string)
    requires Good(env, c) && Removed(env, c, name).Some?
    ensures Good(env, Removed(env, c, name).value)
  {
    var next := Removed(env, c, name).value;
    var i := Find(env, c.agents, name).value;
    forall a | a in next.agents && env.isURL(a.source) && AllowlistPrefix(env, a.source) != ""
      ensures AllowlistPrefix(env, a.source) in next.resources
    {
      assert a in c.agents;
      AllowlistPrefixIsPrefix(env, a.source);
    }
    forall j, k | 0 <= j < k < |next.agents| ensures Key(env, next.agents[j]) != Key(env, next.agents[k]) {
      assert next.agents[j] == c.agents[if j < i then j else j + 1];
      assert next.agents[k] == c.agents[if k < i then k else k + 1];
    }
  }

  /** The position of the agent that goes: the first by that name, but for case. */
  ghost predicate FirstNamed(env: Env, agents: seq<Entry>, name: string, i: nat) {
    && i < |agents| && Key(env, agents[i]) == env.lower(name)
    && forall j :: 0 <= j < i ==> Key(env, agents[j]) != env.lower(name)
  }

  /** The prefix that goes with an agent: its repository's, when no agent left is from there. */
  ghost predicate GoesWith(env: Env, gone: Entry, left: seq<Entry>, prefix: string) {
    && env.isURL(gone.source) && prefix != "" && prefix == AllowlistPrefix(env, gone.source)
    && forall a :: a in left && env.isURL(a.source) ==> !HasPrefix(a.source, prefix)
  }

  lemma {:induction false} WithoutPicks(s: seq<string>, x: string) returns (f: seq<nat>)
    ensures Picks(Without(s, x), s, f)
    ensures forall j :: 0 <= j < |s| ==> (j in f <==> s[j] != x)
  {
    f := [];
    if s != [] {
      var n := |s| - 1;
      var g := WithoutPicks(s[..n], x);
      assert forall j :: 0 <= j < n ==> s[..n][j] == s[j];
      f := if s[n] == x then g else g + [n];
      PicksOneMore(Without(s[..n], x), s, g);
    }
  }

  /** What removal makes of a configuration. */
  ghost predicate Leaves(env: Env, c: Config, name: string, left: Config) {
    exists i: nat :: FirstNamed(env, c.agents, name, i) && LeavesAt(env, c, i, left)
  }

  ghost predicate LeavesAt(env: Env, c: Config, i: nat, left: Config)
    requires i < |c.agents|
  {
    && |left.agents| == |c.agents| - 1
    && (forall j :: 0 <= j < i ==> left.agents[j] == c.agents[j])
    && (forall j :: i <= j < |left.agents| ==> left.agents[j] == c.agents[j + 1])
    && (exists f: seq<nat> :: StayAt(env, c, i, left, f))
  }

  /** All prefixes stay but the one that goes with the agent, in order. */
  ghost predicate StayAt(env: Env, c: Config, i: nat, left: Config, f: seq<nat>)
    requires i < |c.agents|
  {
    && Picks(left.resources, c.resources, f)
    && forall j :: 0 <= j < |c.resources| ==>
         (j in f <==> !GoesWith(env, c.agents[i], left.agents, c.resources[j]))
  }

  ghost predicate IsNamed(env: Env, agents: seq<Entry>, name: string) {
    exists a :: a in agents && Key(env, a) == env.lower(name)
  }

  lemma FoundExactly(env: Env, agents: seq<Entry>, name: string)
    ensures match Find(env, agents, name)
            case None => !IsNamed(env, agents, name)
            case Some(i) => FirstNamed(env, agents, name, i) && IsNamed(env, agents, name)
  {
    if Find(env, agents, name).Some? {
      assert agents[Find(env, agents, name).value] in agents;
    }
  }

  /** The positions of the prefixes that stay. */
  lemma StaysAt(resources: seq<string>, prefix: string, gone: bool) returns (f: seq<nat>)
    ensures Picks(if gone then Without(resources, prefix) else resources, resources, f)
    ensures forall j :: 0 <= j < |resources| ==> (j in f <==> !gone || resources[j] != prefix)
  {
    if gone {
      f := WithoutPicks(resources, prefix);
    } else {
      f := seq(|resources|, k requires 0 <= k < |resources| => k as nat);
      forall j | 0 <= j < |resources| ensures j in f {
        assert f[j] == j;
      }
    }
  }

  lemma RemovedAt(env: Env, c: Config, i: nat) returns (left: Config)
    requires i < |c.agents|
    ensures LeavesAt(env, c, i, left) && left.agents == c.agents[..i] + c.agents[i + 1..]
    ensures var prefix := if env.isURL(c.agents[i].source) then AllowlistPrefix(env, c.agents[i].source) else "";
            left.resources == if prefix != "" && !AnyUses(env, left.agents, prefix) then Without(c.resources, prefix)
                              else c.resources
  {
    var agents := c.agents[..i] + c.agents[i + 1..];
    var prefix := if env.isURL(c.agents[i].source) then AllowlistPrefix(env, c.agents[i].source) else "";
    var gone := prefix != "" && !AnyUses(env, agents, prefix);
    left := Config(agents, if gone then Without(c.resources, prefix) else c.resources);
    var f := StaysAt(c.resources, prefix, gone);
    forall j | 0 <= j < |c.resources|
      ensures j in f <==> !GoesWith(env, c.agents[i], left.agents, c.resources[j])
    {
      assert GoesWith(env, c.agents[i], agents, c.resources[j]) <==> gone && c.resources[j] == prefix;
    }
    assert StayAt(env, c, i, left, f);
  }

  /** Removal takes the first agent by that name and leaves all others as they are, in
      order; of the prefixes it takes the one that goes with the agent, and no other. It
      fails exactly when there is no such agent, or what would be left is refused. */
  lemma RemovesExactly(env: Env, c: Config, name: string) returns (left: Config)
    ensures if IsNamed(env, c.agents, name) then
              && Leaves(env, c, name, left)
              && Removed(env, c, name) == if env.valid(left) then Some(left) else None
            else Removed(env, c, name).None?
  {
    left := c;
    FoundExactly(env, c.agents, name);
    if Find(env, c.agents, name).Some? {
      var i := Find(env, c.agents, name).value;
      left := RemovedAt(env, c, i);
      assert Leaves(env, c, name, left);
      assert left == Config(left.agents, left.resources);
    }
  }

  /** Adding puts the agent last, under the name and the reference that were given, and its
      repository behind the prefixes when it was not listed. It fails exactly when the
      source is refused, the name is taken, or the result is. */
  lemma AddsExactly(env: Env, c: Config, source: string, name: string)
    ensures var pinned := if env.isURL(source) then env.pin(source) else Some((source, ""));
            var r := Added(env, c, source, name);
            if pinned.None? || (!env.isURL(source) && !env.localOk(source)) then r.None?
            else
              var e := Entry(name, pinned.value.0, pinned.value.1, "");
              var prefix := AllowlistPrefix(env, e.source);
              var listed := !env.isURL(source) || prefix == "" || prefix in c.resources;
              var next := Config(c.agents + [e], if listed then c.resources else c.resources + [prefix]);
              var taken := exists a :: a in c.agents
                                       && Key(env, a) == env.lower(if name != "" then name else env.fileName(e.source));
              r == if taken || !env.valid(next) then None else Some(next)
  {
    if NewEntry(env, source, name).Some? {
      var e := NewEntry(env, source, name).value;
      var wanted := DerivedName(env, e);
      match Find(env, c.agents, wanted)
      case Some(i) => assert c.agents[i] in c.agents;
      case None =>
        forall a | a in c.agents ensures Key(env, a) != env.lower(wanted) {
          var i :| 0 <= i < |c.agents| && c.agents[i] == a;
        }
    }
  }

  datatype Command = Add(source: string, name: string) | Remove(name: string)

  /** A failed command leaves the file as it is. */
  function Ran(env: Env, c: Config, cmd: Command): Config {
    var r := match cmd case Add(source, name) => Added(env, c, source, name) case Remove(name) => Removed(env, c, name);
    if r.Some? then r.value else c
  }

  /** Commands run one after the other, each in the world of its time. */
  function RunAll(envs: nat -> Env, c: Config, cmds: seq<Command>): Config {
    if cmds == [] then c
    else Ran(envs(|cmds| - 1), RunAll(envs, c, cmds[..|cmds| - 1]), cmds[|cmds| - 1])
  }

  /** Worlds that differ only in what is fetched, refused or valid. */
  ghost predicate SameText(e: Env, f: Env) {
    e.lower == f.lower && e.fileName == f.fileName && e.isURL == f.isURL && e.repo == f.repo
  }

  lemma {:induction false} EveryRunKeepsGood(envs: nat -> Env, c: Config, cmds: seq<Command>)
    requires forall i: nat :: SameText(envs(i), envs(0))
    requires Good(envs(0), c)
    ensures Good(envs(0), RunAll(envs, c, cmds))
  {
    if cmds != [] {
      var n := |cmds| - 1;
      EveryRunKeepsGood(envs, c, cmds[..n]);
      var before := RunAll(envs, c, cmds[..n]);
      assert SameText(envs(n), envs(0));
      GoodIsAboutText(envs(0), envs(n), before);
      match cmds[n]
      case Add(source, name) =>
        if Added(envs(n), before, source, name).Some? {
          AddKeepsGood(envs(n), before, source, name);
        }
      case Remove(name) =>
        if Removed(envs(n), before, name).Some? {
          RemoveKeepsGood(envs(n), before, name);
        }
      GoodIsAboutText(envs(n), envs(0), RunAll(envs, c, cmds));
    }
  }

  lemma GoodIsAboutText(e: Env, f: Env, c: Config)
    requires SameText(e, f) && Good(e, c)
    ensures Good(f, c)
  {
    assert forall raw :: AllowlistPrefix(e, raw) == AllowlistPrefix(f, raw);
    assert forall a :: Key(e, a) == Key(f, a);
  }

  // ----- Adding and then removing -----

  /** Adding an agent and removing it by name gives the same agents back, and the same
      prefixes exactly when its repository was listed if and only if another agent uses
      it: removal takes a prefix away even when adding did not put it there. */
  lemma RemoveUndoesAdd(env: Env, c: Config, source: string, name: string)
    requires PinsURLs(env) && Added(env, c, source, name).Some?
    requires var e := NewEntry(env, source, name).value;
             Removed(env, Added(env, c, source, name).value, DerivedName(env, e)).Some?
    ensures var e := NewEntry(env, source, name).value;
            var back := Removed(env, Added(env, c, source, name).value, DerivedName(env, e)).value;
            var prefix := AllowlistPrefix(env, e.source);
            && back.agents == c.agents
            && (back.resources == c.resources <==>
                !env.isURL(source) || prefix == "" || (prefix in c.resources <==> AnyUses(env, c.agents, prefix)))
  {
    var e := NewEntry(env, source, name).value;
    var added := Added(env, c, source, name).value;
    var n := |c.agents|;
    assert added.agents[n] == e;
    var i := Find(env, added.agents, DerivedName(env, e)).value;
    assert forall k :: 0 <= k < n ==> added.agents[k] == c.agents[k];
    assert i == n;
    assert added.agents[..n] + added.agents[n + 1..] == c.agents;
    var prefix := AllowlistPrefix(env, e.source);
    if prefix != "" && prefix !in c.resources {
      WithoutLast(c.resources, prefix);
    }
  }

  /** A listed repository that no agent uses goes with the agent added from it. */
  lemma ListedIsDropped(env: Env, source: string, prefix: string, name: string)
    requires env.isURL(source) && env.pin(source) == Some((source, "")) && name != ""
    requires AllowlistPrefix(env, source) == prefix != ""
    requires env.valid(Config([Entry(name, source, "", "")], [prefix])) && env.valid(Config([], []))
    ensures var c, e := Config([], [prefix]), Entry(name, source, "", "");
            Added(env, c, source, name) == Some(Config([e], [prefix]))
            && Removed(env, Config([e], [prefix]), name) == Some(Config([], []))
  {
    var e := Entry(name, source, "", "");
    assert [] + [e] == [e] && [e][..0] + [e][1..] == [];
    assert Added(env, Config([], [prefix]), source, name) == Some(Config([e], [prefix]));
    assert Without([prefix], prefix) == [];
    assert !AnyUses(env, [], prefix) && Find(env, [e], name) == Some(0);
  }

  /** A source as pinning stores it: a file of a commit, with the hash of its content. */
  function PinnedURL(sha: string, hash: string): string {
    "https://h/o/r/" + sha + "/f" + "#" + HASH + hash
  }

  predicate AllHex(s: string) {
    forall k :: 0 <= k < |s| ==> IsHexDigit(s[k])
  }

  /** Such an input. */
  lemma ListedPrefixIsDropped(env: Env, sha: string, hash: string)
    requires |sha| == 40 && AllHex(sha) && |hash| == 64 && AllHex(hash)
    requires var source := PinnedURL(sha, hash); env.isURL(source) && env.pin(source) == Some((source, ""))
    requires env.repo("https://h/o/r/" + sha + "/f") == Some(Repo("o", "r"))
    requires env.valid(Config([Entry("a", PinnedURL(sha, hash), "", "")], ["https://h/o/r/"]))
    requires env.valid(Config([], []))
    ensures var c, source := Config([], ["https://h/o/r/"]), PinnedURL(sha, hash);
            && Added(env, c, source, "a").Some?
            && Removed(env, Added(env, c, source, "a").value, "a") == Some(Config([], []))
  {
    PinnedPrefix(env, sha, hash);
    ListedIsDropped(env, PinnedURL(sha, hash), "https://h/o/r/", "a");
  }

  lemma PinnedPrefix(env: Env, sha: string, hash: string)
    requires AllHex(sha) && |hash| == 64 && AllHex(hash)
    requires env.repo("https://h/o/r/" + sha + "/f") == Some(Repo("o", "r"))
    ensures AllowlistPrefix(env, PinnedURL(sha, hash)) == "https://h/o/r/"
  {
    var clean := "https://h/o/r/" + sha + "/f";
    CleanIs(clean, hash);
    RepositoryIndex(sha);
    assert Middle(Repo("o", "r")) == "/o/r/";
  }

  /** The last "#" is the one before the hash. */
  lemma CleanIs(clean: string, hash: string)
    requires |hash| == 64 && AllHex(hash)
    ensures Clean(clean + "#" + HASH + hash) == clean
  {
    var fragment := HASH + hash;
    assert forall k :: 0 <= k < |HASH| ==> HASH[k] != '#';
    assert clean + "#" + HASH + hash == clean + "#" + fragment;
    LastHashAt(clean, fragment);
    assert (clean + "#" + fragment)[|clean| + 1..] == fragment;
  }

  lemma LastHashAt(clean: string, fragment: string)
    requires forall k :: 0 <= k < |fragment| ==> fragment[k] != '#'
    ensures LastIndex(clean + "#" + fragment, "#") == |clean|
  {
    var raw := clean + "#" + fragment;
    assert OccursAt(raw, "#", |clean|);
    forall k | |clean| < k < |raw| ensures !OccursAt(raw, "#", k) {
      assert raw[k..k + 1][0] == fragment[k - |clean| - 1];
    }
  }

  lemma RepositoryIndex(sha: string)
    ensures var clean := "https://h/o/r/" + sha + "/f";
            Index(clean, "/o/r/") == 9 && clean[..9] + "/o/r/" == "https://h/o/r/"
  {
    var head := "https://h/o/r/";
    var clean := head + sha + "/f";
    assert forall k :: 0 <= k < 14 ==> clean[k] == head[k];
    assert clean[9..14] == "/o/r/";
    assert OccursAt(clean, "/o/r/", 9);
    forall k | OccursAt(clean, "/o/r/", k) ensures k >= 9 {
      assert clean[k..k + 5][0] == '/' && clean[k..k + 5][1] == 'o';
      assert clean[k] == '/' && clean[k + 1] == 'o';
    }
    assert clean[..9] == head[..9];
  }

  lemma WithoutLast(s: seq<string>, x: string)
    ensures Without(s + [x], x) == Without(s, x)
  {
    assert (s + [x])[..|s|] == s;
  }

  // ----- Branch names with slashes -----

  function Join(segments: seq<string>): string {
    if segments == [] then ""
    else if |segments| == 1 then segments[0]
    else segments[0] + "/" + Join(segments[1..])
  }

  datatype Probe = Found(sha: string) | NotFound | Broken

  lemma {:induction false} JoinAppend(a: seq<string>, b: seq<string>)
    requires a != [] && b != []
    ensures Join(a + b) == Join(a) + "/" + Join(b)
  {
    if |a| > 1 {
      JoinAppend(a[1..], b);
      assert (a + b)[1..] == a[1..] + b;
    } else {
      assert (a + b)[1..] == b;
    }
  }

  /** The branch that takes the first `i` path segments. */
  function Candidate(ref: string, segments: seq<string>, i: nat): string
    requires i <= |segments|
  {
    Join([ref] + segments[..i])
  }

  /** Probes the ref, then the ref with one more path segment each time, always leaving a
      segment for the file. The branch found and the path left make up the URL's ref and
      path again, and no shorter branch exists. */
  method ResolveBranchAndPath(probe: string -> Probe, ref: string, segments: seq<string>)
    returns (branch: string, path: string, result: Probe, taken: nat)
    ensures taken <= |segments| && branch == Candidate(ref, segments, taken) && result == probe(branch)
    ensures forall i :: 0 <= i < taken ==> probe(Candidate(ref, segments, i)) == NotFound
    ensures result.Found? && segments != [] ==> Join([ref] + segments) == branch + "/" + path
    ensures result.Found? && segments == [] ==> branch == ref && path == ""
    ensures result.NotFound? ==> forall i :: 0 <= i < |segments| ==> probe(Candidate(ref, segments, i)) == NotFound
  {
    branch, path, taken := ref, "", 0;
    result := probe(branch);
    assert [ref] + segments[..0] == [ref];
    while result.NotFound? && taken < |segments| - 1
      invariant taken == 0 || taken < |segments|
      invariant branch == Candidate(ref, segments, taken) && result == probe(branch)
      invariant forall i :: 0 <= i < taken ==> probe(Candidate(ref, segments, i)) == NotFound
    {
      var segment := segments[taken];
      JoinAppend([ref] + segments[..taken], [segment]);
      assert [ref] + segments[..taken] + [segment] == [ref] + segments[..taken + 1];
      branch := branch + "/" + segment;
      taken := taken + 1;
      result := probe(branch);
    }
    if result.Found? {
      path := Join(segments[taken..]);
      if segments != [] {
        JoinAppend([ref] + segments[..taken], segments[taken..]);
        assert [ref] + segments[..taken] + segments[taken..] == [ref] + segments;
      }
    }
  }
}
