/** Adding a forge host to the endpoints of a provider profile: an edit of a YAML node
    graph, in which aliases share nodes. */
module ProfileGraph {
  import opened Wrappers

  datatype Kind = Document | Sequence | Mapping | Scalar | Alias

  class Node {
    var kind: Kind
    var tag: string
    var value: string
    var anchor: string
    var comment: string
    var alias: Node?
    var content: seq<Node>

    constructor (kind: Kind, tag: string, value: string, alias: Node?, content: seq<Node>)
      ensures this.kind == kind && this.tag == tag && this.value == value
      ensures this.alias == alias && this.content == content && anchor == "" && comment == ""
    {
      this.kind, this.tag, this.value, this.alias, this.content := kind, tag, value, alias, content;
      this.anchor, this.comment := "", "";
    }
  }

  // ----- Graphs and trees -----

  /** All that is reached from the nodes is among them. */
  ghost predicate Closed(ns: set<Node>)
    reads ns
  {
    && (forall n {:trigger n.alias} :: n in ns && n.alias != null ==> n.alias in ns)
    && (forall n, k {:trigger n.content[k]} :: n in ns && 0 <= k < |n.content| ==> n.content[k] in ns)
  }

  /** Content nests finitely: children have smaller ranks. Aliases may point anywhere. */
  ghost predicate Ranked(rank: map<Node, nat>)
    reads rank.Keys
  {
    forall n, k {:trigger n.content[k]} :: n in rank && 0 <= k < |n.content| ==>
        n.content[k] in rank && rank[n.content[k]] < rank[n]
  }

  /** Keys and values come in pairs. */
  ghost predicate Paired(ns: set<Node>)
    reads ns
  {
    forall n :: n in ns && n.kind == Mapping ==> |n.content| % 2 == 0
  }

  /** A node with all it contains, without anchors and comments. */
  datatype Tree = Tree(kind: Kind, tag: string, value: string, alias: Node?, content: seq<Tree>)

  ghost function TreeOf(n: Node, rank: map<Node, nat>): (t: Tree)
    requires n in rank && Ranked(rank)
    reads rank.Keys
    ensures |t.content| == |n.content|
    decreases rank[n], |n.content| + 1
  {
    Tree(n.kind, n.tag, n.value, n.alias, TreesOf(n.content, rank[n], rank))
  }

  ghost function TreesOf(content: seq<Node>, bound: nat, rank: map<Node, nat>): (ts: seq<Tree>)
    requires Ranked(rank) && forall k :: 0 <= k < |content| ==> content[k] in rank && rank[content[k]] < bound
    reads rank.Keys
    ensures |ts| == |content|
    ensures forall k :: 0 <= k < |content| ==> ts[k] == TreeOf(content[k], rank)
    decreases bound, |content|
  {
    if content == [] then []
    else
      var n := |content| - 1;
      TreesOf(content[..n], bound, rank) + [TreeOf(content[n], rank)]
  }

  lemma TreesAre(content: seq<Node>, bound: nat, rank: map<Node, nat>, ts: seq<Tree>)
    requires Ranked(rank) && forall k :: 0 <= k < |content| ==> content[k] in rank && rank[content[k]] < bound
    requires |ts| == |content| && forall k :: 0 <= k < |content| ==> ts[k] == TreeOf(content[k], rank)
    ensures TreesOf(content, bound, rank) == ts
  {
  }

  /** A tree does not depend on how the rest is ranked. */
  lemma {:induction false} TreeKeeps(n: Node, rank: map<Node, nat>, more: map<Node, nat>)
    requires Ranked(rank) && Ranked(more) && n in rank
    requires forall m :: m in rank ==> m in more
    ensures TreeOf(n, rank) == TreeOf(n, more)
    decreases rank[n]
  {
    forall k | 0 <= k < |n.content| ensures TreeOf(n.content[k], rank) == TreeOf(n.content[k], more) {
      TreeKeeps(n.content[k], rank, more);
    }
    TreesAre(n.content, rank[n], rank, TreesOf(n.content, more[n], more));
  }

  // ----- Aliases and mapping values -----

  /** How long a chain of aliases is followed; equality of host names up to case, as
      equality of folded names; and which scalars are null. */
  datatype Env = Env(maxAliasDepth: nat, fold: string -> string, isNull: (string, string) -> bool)

  ghost function Resolve(n: Node?, depth: nat, ns: set<Node>): (r: Node?)
    requires Closed(ns) && (n != null ==> n in ns)
    reads ns
    ensures r != null ==> r in ns
  {
    if n == null || n.kind != Alias || n.alias == null || depth == 0 then n else Resolve(n.alias, depth - 1, ns)
  }

  method ResolveAlias(env: Env, n: Node?, ghost ns: set<Node>) returns (r: Node?)
    requires Closed(ns) && (n != null ==> n in ns)
    ensures r == Resolve(n, env.maxAliasDepth, ns)
  {
    r := n;
    var i: nat := 0;
    while r != null && r.kind == Alias && r.alias != null && i < env.maxAliasDepth
      invariant i <= env.maxAliasDepth && (r != null ==> r in ns)
      invariant Resolve(r, env.maxAliasDepth - i, ns) == Resolve(n, env.maxAliasDepth, ns)
      decreases env.maxAliasDepth - i
    {
      r := r.alias;
      i := i + 1;
    }
  }

  /** Where the first pair with the key starts. */
  function KeyFrom(values: seq<string>, key: string, from: nat): (r: Option<nat>)
    ensures r.Some? ==> from <= r.value && r.value + 1 < |values| && values[r.value] == key
    decreases |values| - from
  {
    if from + 1 >= |values| then None
    else if values[from] == key then Some(from)
    else KeyFrom(values, key, from + 2)
  }

  ghost function Values(content: seq<Node>): (vs: seq<string>)
    reads set n | n in content
    ensures |vs| == |content| && forall k :: 0 <= k < |vs| ==> vs[k] == content[k].value
  {
    if content == [] then []
    else Values(content[..|content| - 1]) + [content[|content| - 1].value]
  }

  ghost function ValueOf(m: Node, key: string, ns: set<Node>): (r: Node?)
    requires Closed(ns) && m in ns
    reads ns
    ensures r != null ==> r in ns
  {
    var at := KeyFrom(Values(m.content), key, 0);
    if at.Some? then m.content[at.value + 1] else null
  }

  method FindKey(m: Node, key: string) returns (r: Option<nat>)
    ensures r == KeyFrom(Values(m.content), key, 0)
  {
    var i := 0;
    while i + 1 < |m.content|
      invariant KeyFrom(Values(m.content), key, i) == KeyFrom(Values(m.content), key, 0)
      decreases |m.content| - i
    {
      if m.content[i].value == key {
        return Some(i);
      }
      i := i + 2;
    }
    return None;
  }

  method MappingValue(m: Node, key: string, ghost ns: set<Node>) returns (r: Node?)
    requires Closed(ns) && m in ns
    ensures r == ValueOf(m, key, ns)
  {
    var at := FindKey(m, key);
    r := if at.Some? then m.content[at.value + 1] else null;
  }

  /** The value of a key behind its alias. */
  ghost function Target(env: Env, m: Node, key: string, ns: set<Node>): (r: Node?)
    requires Closed(ns) && m in ns
    reads ns
    ensures r != null ==> r in ns
  {
    Resolve(ValueOf(m, key, ns), env.maxAliasDepth, ns)
  }

  method FindTarget(env: Env, m: Node, key: string, ghost ns: set<Node>) returns (raw: Node?, r: Node?)
    requires Closed(ns) && m in ns
    ensures raw == ValueOf(m, key, ns) && r == Target(env, m, key, ns)
  {
    raw := MappingValue(m, key, ns);
    r := ResolveAlias(env, raw, ns);
  }

  // ----- Cloning -----

  ghost predicate Bare(made: map<Node, nat>, ns: set<Node>)
    reads made.Keys
  {
    forall m {:trigger m.alias} {:trigger m.anchor} {:trigger m.comment} :: m in made ==>
      m.anchor == "" && m.comment == "" && (m.alias != null ==> m.alias in ns)
  }

  /** The nodes of a copy: made by it, bare, below the copy's root, and aliasing only
      what was aliased before. */
  ghost predicate CopyOf(c: Node, made: map<Node, nat>, ns: set<Node>)
    reads made.Keys
  {
    && c in made && Ranked(made)
    && (forall m :: m in made && m != c ==> made[m] < made[c])
    && Bare(made, ns) && Paired(made.Keys)
  }

  ghost predicate Copies(made: map<Node, nat>, bound: nat, ns: set<Node>)
    reads made.Keys
  {
    && Ranked(made)
    && (forall m :: m in made ==> made[m] < bound)
    && Bare(made, ns) && Paired(made.Keys)
  }

  /** The nodes are copies whose trees are `trees`. */
  ghost predicate Hold(nodes: seq<Node>, made: map<Node, nat>, bound: nat, ns: set<Node>, trees: seq<Tree>)
    reads made.Keys
  {
    && Copies(made, bound, ns) && |nodes| <= |trees|
    && forall k :: 0 <= k < |nodes| ==> nodes[k] in made && TreeOf(nodes[k], made) == trees[k]
  }

  lemma HoldNext(
      nodes: seq<Node>, a: map<Node, nat>, child: Node, b: map<Node, nat>, bound: nat, ns: set<Node>, trees: seq<Tree>)
    requires Hold(nodes, a, bound, ns, trees) && Copies(b, bound, ns) && a.Keys !! b.Keys
    requires |nodes| < |trees| && child in b && TreeOf(child, b) == trees[|nodes|]
    ensures Hold(nodes + [child], a + b, bound, ns, trees)
  {
    assert Copies(a + b, bound, ns);
    TreeKeeps(child, b, a + b);
    forall k | 0 <= k < |nodes| ensures nodes[k] in a && TreeOf(nodes[k], a + b) == trees[k] {
      TreeKeeps(nodes[k], a, a + b);
    }
  }

  method CloneChildren(content: seq<Node>, ghost bound: nat, ghost rank: map<Node, nat>, ghost ns: set<Node>)
    returns (children: seq<Node>, ghost made: map<Node, nat>)
    requires Ranked(rank) && rank.Keys <= ns && Closed(ns) && Paired(ns)
    requires forall k :: 0 <= k < |content| ==> content[k] in rank && rank[content[k]] < bound
    ensures fresh(made.Keys) && |children| == |content|
            && Hold(children, made, bound, ns, old(TreesOf(content, bound, rank)))
    decreases bound, 0
  {
    ghost var trees := TreesOf(content, bound, rank);
    children, made := [], map[];
    for i := 0 to |content|
      invariant |children| == i && fresh(made.Keys) && Hold(children, made, bound, ns, trees)
    {
      assert TreeOf(content[i], rank) == trees[i];
      var child, grown := CloneNode(content[i], rank, ns);
      HoldNext(children, made, child, grown, bound, ns, trees);
      made := made + grown;
      children := children + [child];
    }
  }

  method CloneNode(n: Node, ghost rank: map<Node, nat>, ghost ns: set<Node>)
    returns (c: Node, ghost made: map<Node, nat>)
    requires Ranked(rank) && n in rank && rank.Keys <= ns && Closed(ns) && Paired(ns)
    ensures fresh(made.Keys) && CopyOf(c, made, ns) && Copies(made, rank[n] + 1, ns) && made[c] == rank[n]
    ensures TreeOf(c, made) == old(TreeOf(n, rank))
    decreases rank[n], 1
  {
    var children, below := CloneChildren(n.content, rank[n], rank, ns);
    c := new Node(n.kind, n.tag, n.value, n.alias, children);
    made := below[c := rank[n]];
    Rooted(c, below, rank[n], made);
    TreesAre(c.content, made[c], made, old(TreesOf(n.content, rank[n], rank)));
  }

  /** A new root over ranked nodes. */
  lemma Rooted(c: Node, below: map<Node, nat>, bound: nat, made: map<Node, nat>)
    requires Ranked(below) && c !in below && made == below[c := bound]
    requires forall m :: m in below ==> below[m] < bound
    requires forall k :: 0 <= k < |c.content| ==> c.content[k] in below
    ensures Ranked(made)
    ensures forall n :: n in below ==> TreeOf(n, below) == TreeOf(n, made)
  {
    assert Ranked(made);
    forall n | n in below ensures TreeOf(n, below) == TreeOf(n, made) {
      TreeKeeps(n, below, made);
    }
  }

  // ----- Setting a scalar -----

  function TreeValues(ts: seq<Tree>): (vs: seq<string>)
    ensures |vs| == |ts| && forall k :: 0 <= k < |ts| ==> vs[k] == ts[k].value
  {
    seq(|ts|, i requires 0 <= i < |ts| => ts[i].value)
  }

  function Leaf(tag: string, value: string): Tree {
    Tree(Scalar, tag, value, null, [])
  }

  /** A value in place of the one at a key, or a new pair at the end. */
  function Placed<T>(s: seq<T>, at: Option<nat>, k: T, v: T): seq<T>
    requires at.Some? ==> at.value + 1 < |s|
  {
    if at.Some? then s[at.value + 1 := v] else s + [k, v]
  }

  /** A mapping with a key set to a scalar. */
  function WithScalar(t: Tree, key: string, value: string, tag: string): Tree {
    t.(content := Placed(t.content, KeyFrom(TreeValues(t.content), key, 0), Leaf("!!str", key), Leaf(tag, value)))
  }

  function Lookup(t: Tree, key: string): Option<Tree> {
    match KeyFrom(TreeValues(t.content), key, 0)
    case Some(i) => Some(t.content[i + 1])
    case None => None
  }

  /** Everything under a copy's root by itself. */
  lemma Unrooted(c: Node, made: map<Node, nat>, ns: set<Node>)
    requires CopyOf(c, made, ns)
    ensures Ranked(made - {c})
    ensures forall k :: 0 <= k < |c.content| ==>
              c.content[k] in made - {c} && TreeOf(c.content[k], made - {c}) == TreeOf(c.content[k], made)
  {
    assert Ranked(made - {c});
    forall k | 0 <= k < |c.content|
      ensures c.content[k] in made - {c} && TreeOf(c.content[k], made - {c}) == TreeOf(c.content[k], made)
    {
      TreeKeeps(c.content[k], made - {c}, made);
    }
  }

  /** The tree of a root put over nodes with known trees. */
  lemma TreeOver(c: Node, below: map<Node, nat>, bound: nat, ts: seq<Tree>)
    requires Ranked(below) && c !in below && forall m :: m in below ==> below[m] < bound
    requires |ts| == |c.content|
    requires forall k :: 0 <= k < |ts| ==> c.content[k] in below && TreeOf(c.content[k], below) == ts[k]
    ensures Ranked(below[c := bound]) && TreeOf(c, below[c := bound]) == Tree(c.kind, c.tag, c.value, c.alias, ts)
  {
    Rooted(c, below, bound, below[c := bound]);
    TreesAre(c.content, bound, below[c := bound], ts);
  }

  lemma SameValues(content: seq<Node>, ts: seq<Tree>)
    requires |content| == |ts| && forall k :: 0 <= k < |ts| ==> content[k].value == ts[k].value
    ensures Values(content) == TreeValues(ts)
  {
  }

  ghost predicate Known(nodes: seq<Node>, rank: map<Node, nat>, ts: seq<Tree>)
    reads rank.Keys
  {
    && Ranked(rank) && |nodes| == |ts|
    && forall k :: 0 <= k < |ts| ==> nodes[k] in rank && TreeOf(nodes[k], rank) == ts[k]
  }

  lemma KnownWithLeaves(nodes: seq<Node>, below: map<Node, nat>, ts: seq<Tree>, k: Node, v: Node)
    requires Known(nodes, below, ts) && k !in below && v !in below && k.content == [] && v.content == []
    ensures Known(nodes + [k, v], below[v := 0][k := 0],
                  ts + [Tree(k.kind, k.tag, k.value, k.alias, []), Tree(v.kind, v.tag, v.value, v.alias, [])])
    ensures Known(nodes, below[v := 0][k := 0], ts)
  {
    var leaves := below[v := 0][k := 0];
    assert Ranked(leaves);
    forall i | 0 <= i < |nodes| ensures nodes[i] in below && TreeOf(nodes[i], leaves) == ts[i] {
      TreeKeeps(nodes[i], below, leaves);
    }
    assert TreeOf(v, leaves) == Tree(v.kind, v.tag, v.value, v.alias, []);
    assert TreeOf(k, leaves) == Tree(k.kind, k.tag, k.value, k.alias, []);
  }

  lemma KnownPlaced(
      nodes: seq<Node>, rank: map<Node, nat>, ts: seq<Tree>, at: Option<nat>, k: Node, v: Node, tk: Tree, tv: Tree)
    requires Known(nodes + [k, v], rank, ts + [tk, tv]) && (at.Some? ==> at.value + 1 < |nodes|)
    ensures |nodes| == |ts| && Known(Placed(nodes, at, k, v), rank, Placed(ts, at, tk, tv))
  {
    var all, trees := nodes + [k, v], ts + [tk, tv];
    assert all[|ts| + 1] == v && trees[|ts| + 1] == tv;
    forall i | 0 <= i < |nodes| ensures nodes[i] in rank && TreeOf(nodes[i], rank) == ts[i] {
      assert all[i] == nodes[i] && trees[i] == ts[i];
    }
  }

  method NewPair(key: string, value: string, tag: string, ghost nodes: seq<Node>, ghost below: map<Node, nat>,
      ghost ts: seq<Tree>)
    returns (k: Node, v: Node, ghost leaves: map<Node, nat>)
    requires Known(nodes, below, ts)
    ensures fresh(k) && fresh(v) && k != v && leaves == below[v := 0][k := 0]
    ensures k.anchor == "" && k.comment == "" && k.alias == null && v.anchor == "" && v.comment == "" && v.alias == null
    ensures k.kind == Scalar && v.kind == Scalar
    ensures Known(nodes + [k, v], leaves, ts + [Leaf("!!str", key), Leaf(tag, value)])
  {
    v := new Node(Scalar, tag, value, null, []);
    k := new Node(Scalar, "!!str", key, null, []);
    assert Known(nodes, below, ts);
    KnownWithLeaves(nodes, below, ts, k, v);
    leaves := below[v := 0][k := 0];
  }

  /** Gives a node content whose trees are known. */
  method SetContent(m: Node, content: seq<Node>, ghost bound: nat, ghost leaves: map<Node, nat>, ghost ts: seq<Tree>)
    requires m !in leaves && Known(content, leaves, ts)
    requires forall n :: n in leaves ==> leaves[n] < bound
    modifies m`content
    ensures m.content == content && Ranked(leaves[m := bound])
    ensures TreeOf(m, leaves[m := bound]) == Tree(m.kind, m.tag, m.value, m.alias, ts)
  {
    m.content := content;
    assert Known(content, leaves, ts);
    TreeOver(m, leaves, bound, ts);
  }

  lemma PairPlaced(m: Node, t: Tree, leaves: map<Node, nat>, k: Node, v: Node,
                   key: string, value: string, tag: string)
    requires |m.content| == |t.content| && forall i :: 0 <= i < |t.content| ==> m.content[i].value == t.content[i].value
    requires Known(m.content + [k, v], leaves, t.content + [Leaf("!!str", key), Leaf(tag, value)])
    ensures Known(Placed(m.content, KeyFrom(Values(m.content), key, 0), k, v), leaves,
                  WithScalar(t, key, value, tag).content)
  {
    SameValues(m.content, t.content);
    KnownPlaced(m.content, leaves, t.content, KeyFrom(Values(m.content), key, 0), k, v,
                Leaf("!!str", key), Leaf(tag, value));
  }

  method Prepare(m: Node, key: string, value: string, tag: string, ghost made: map<Node, nat>, ghost ns: set<Node>)
    returns (content: seq<Node>, k: Node, v: Node, ghost leaves: map<Node, nat>, ghost added: set<Node>)
    requires CopyOf(m, made, ns)
    ensures fresh(added) && added == {k, v} && k != v && k != m && v != m && leaves == (made - {m})[v := 0][k := 0]
    ensures k.anchor == "" && k.comment == "" && k.alias == null && v.anchor == "" && v.comment == "" && v.alias == null
    ensures k.kind == Scalar && v.kind == Scalar
    ensures Known(content, leaves, WithScalar(old(TreeOf(m, made)), key, value, tag).content)
  {
    ghost var t := TreeOf(m, made);
    Unrooted(m, made, ns);
    k, v, leaves := NewPair(key, value, tag, m.content, made - {m}, t.content);
    var at := FindKey(m, key);
    PairPlaced(m, t, leaves, k, v, key, value, tag);
    content := Placed(m.content, at, k, v);
    added := {k, v};
  }

  method Install(m: Node, content: seq<Node>, ghost k: Node, ghost v: Node, ghost made: map<Node, nat>,
                 ghost leaves: map<Node, nat>, ghost ns: set<Node>, ghost ts: seq<Tree>)
    returns (ghost grown: map<Node, nat>)
    requires CopyOf(m, made, ns) && leaves == (made - {m})[v := 0][k := 0] && k != v && k != m && v != m
    requires forall n :: n in {k, v} ==> n.anchor == "" && n.comment == "" && n.alias == null && n.kind == Scalar
    requires Known(content, leaves, ts) && |content| % 2 == |m.content| % 2
    modifies m`content
    ensures CopyOf(m, grown, ns) && grown.Keys == made.Keys + {k, v}
    ensures TreeOf(m, grown) == Tree(m.kind, m.tag, m.value, m.alias, ts)
  {
    grown := leaves[m := made[m] + 1];
    SetContent(m, content, made[m] + 1, leaves, ts);
    CopyRegrown(m, made, leaves, grown, k, v, ns);
  }

  lemma PlacedParity(t: Tree, key: string, value: string, tag: string)
    ensures |WithScalar(t, key, value, tag).content| % 2 == |t.content| % 2
  {
  }

  method SetScalar(m: Node, key: string, value: string, tag: string, ghost made: map<Node, nat>, ghost ns: set<Node>)
    returns (ghost grown: map<Node, nat>, ghost added: set<Node>)
    requires CopyOf(m, made, ns)
    modifies m`content
    ensures CopyOf(m, grown, ns) && fresh(added) && grown.Keys == made.Keys + added
    ensures TreeOf(m, grown) == WithScalar(old(TreeOf(m, made)), key, value, tag)
  {
    ghost var ts := WithScalar(TreeOf(m, made), key, value, tag).content;
    PlacedParity(TreeOf(m, made), key, value, tag);
    var content, k, v, leaves, more := Prepare(m, key, value, tag, made, ns);
    added := more;
    grown := Install(m, content, k, v, made, leaves, ns, ts);
  }

  lemma CopyRegrown(m: Node, made: map<Node, nat>, leaves: map<Node, nat>, grown: map<Node, nat>,
                    k: Node, v: Node, ns: set<Node>)
    requires m in made && leaves == (made - {m})[v := 0][k := 0] && grown == leaves[m := made[m] + 1] && k != m
             && v != m
    requires forall n :: n in made && n != m ==> made[n] < made[m]
    requires Bare(made, ns) && Paired(made.Keys)
    requires forall n :: n in {k, v} ==> n.anchor == "" && n.comment == "" && n.alias == null && n.kind == Scalar
    requires Ranked(grown)
    ensures CopyOf(m, grown, ns) && grown.Keys == made.Keys + {k, v}
  {
  }

  /** Setting a key makes it the scalar and leaves every other key's value alone. */
  lemma WithScalarLooksUp(t: Tree, key: string, value: string, tag: string, other: string)
    requires |t.content| % 2 == 0
    ensures Lookup(WithScalar(t, key, value, tag), key) == Some(Leaf(tag, value))
    ensures other != key ==> Lookup(WithScalar(t, key, value, tag), other) == Lookup(t, other)
    ensures |WithScalar(t, key, value, tag).content| % 2 == 0
  {
    var u := WithScalar(t, key, value, tag);
    var vs, ws := TreeValues(t.content), TreeValues(u.content);
    KeyAgrees(vs, vs, key, key, 0);
    assert forall i :: 0 <= i < |vs| && i % 2 == 0 ==> ws[i] == vs[i];
    KeyAgrees(vs, ws, key, key, 0);
    if other != key {
      KeyAgrees(vs, ws, other, key, 0);
      KeyAgrees(vs, vs, other, key, 0);
    }
  }

  /** The search sees keys only; after the common part it meets `key` at once. */
  lemma {:induction false} KeyAgrees(vs: seq<string>, ws: seq<string>, wanted: string, key: string, from: nat)
    requires |vs| % 2 == 0 && from % 2 == 0 && |vs| <= |ws|
    requires forall i :: 0 <= i < |vs| && i % 2 == 0 ==> ws[i] == vs[i]
    requires |ws| == |vs| || (|ws| == |vs| + 2 && ws[|vs|] == key)
    ensures KeyFrom(vs, wanted, from).Some? ==> KeyFrom(ws, wanted, from) == KeyFrom(vs, wanted, from)
    ensures KeyFrom(vs, wanted, from).Some? ==> KeyFrom(vs, wanted, from).value % 2 == 0
    ensures KeyFrom(vs, wanted, from).None? && (wanted != key || |ws| == |vs|) ==> KeyFrom(ws, wanted, from).None?
    ensures KeyFrom(vs, wanted, from).None? && wanted == key && |ws| > |vs| && from <= |vs| ==>
              KeyFrom(ws, wanted, from) == Some(|vs|)
    decreases |ws| - from
  {
    if from + 1 < |ws| {
      KeyAgrees(vs, ws, wanted, key, from + 2);
    }
  }

  // ----- What is decided -----

  const TOKEN := "GITLAB_TOKEN"

  ghost predicate Names(env: Env, n: Node, envVar: string, ns: set<Node>)
    requires Closed(ns) && n in ns
    reads ns
  {
    var v := Resolve(n, env.maxAliasDepth, ns);
    v != null && v.kind == Scalar && v.value == envVar
  }

  ghost predicate AnyNames(env: Env, vars: Node, envVar: string, ns: set<Node>)
    requires Closed(ns) && vars in ns
    reads ns
  {
    exists k {:trigger Names(env, vars.content[k], envVar, ns)} ::
      0 <= k < |vars.content| && Names(env, vars.content[k], envVar, ns)
  }

  method AnyVar(env: Env, vars: Node, envVar: string, ghost ns: set<Node>) returns (any: bool)
    requires Closed(ns) && vars in ns
    ensures any == AnyNames(env, vars, envVar, ns)
  {
    for i := 0 to |vars.content|
      invariant forall k {:trigger Names(env, vars.content[k], envVar, ns)} :: 0 <= k < i ==>
                !Names(env, vars.content[k], envVar, ns)
    {
      var v := ResolveAlias(env, vars.content[i], ns);
      if v != null && v.kind == Scalar && v.value == envVar {
        assert Names(env, vars.content[i], envVar, ns);
        return true;
      }
    }
    return false;
  }

  /** A credential: a mapping whose `env_vars` list the variable. */
  ghost predicate Issues(env: Env, n: Node, envVar: string, ns: set<Node>)
    requires Closed(ns) && n in ns
    reads ns
  {
    var c := Resolve(n, env.maxAliasDepth, ns);
    && c != null && c.kind == Mapping
    && var vars := Target(env, c, "env_vars", ns);
       vars != null && vars.kind == Sequence && AnyNames(env, vars, envVar, ns)
  }

  method MappingIssues(env: Env, c: Node, envVar: string, ghost ns: set<Node>) returns (issues: bool)
    requires Closed(ns) && c in ns
    ensures var vars := Target(env, c, "env_vars", ns);
            issues <==> vars != null && vars.kind == Sequence && AnyNames(env, vars, envVar, ns)
  {
    var _, vars := FindTarget(env, c, "env_vars", ns);
    if vars == null || vars.kind != Sequence {
      return false;
    }
    issues := AnyVar(env, vars, envVar, ns);
  }

  method CredentialIssues(env: Env, n: Node, envVar: string, ghost ns: set<Node>) returns (issues: bool)
    requires Closed(ns) && n in ns
    ensures issues == Issues(env, n, envVar, ns)
  {
    var c := ResolveAlias(env, n, ns);
    if c == null || c.kind != Mapping {
      return false;
    }
    issues := MappingIssues(env, c, envVar, ns);
  }

  ghost predicate AnyIssues(env: Env, creds: Node, envVar: string, ns: set<Node>)
    requires Closed(ns) && creds in ns
    reads ns
  {
    exists k {:trigger Issues(env, creds.content[k], envVar, ns)} ::
      0 <= k < |creds.content| && Issues(env, creds.content[k], envVar, ns)
  }

  method AnyCredential(env: Env, creds: Node, envVar: string, ghost ns: set<Node>) returns (any: bool)
    requires Closed(ns) && creds in ns
    ensures any == AnyIssues(env, creds, envVar, ns)
  {
    for i := 0 to |creds.content|
      invariant forall k {:trigger Issues(env, creds.content[k], envVar, ns)} :: 0 <= k < i ==>
                !Issues(env, creds.content[k], envVar, ns)
    {
      var one := CredentialIssues(env, creds.content[i], envVar, ns);
      if one {
        return true;
      }
    }
    return false;
  }

  ghost predicate ProfileIssues(env: Env, root: Node, envVar: string, ns: set<Node>)
    requires Closed(ns) && root in ns
    reads ns
  {
    var creds := Target(env, root, "credentials", ns);
    creds != null && creds.kind == Sequence && AnyIssues(env, creds, envVar, ns)
  }

  method ProfileIssuesCredential(env: Env, root: Node, envVar: string, ghost ns: set<Node>) returns (issues: bool)
    requires Closed(ns) && root in ns
    ensures issues == ProfileIssues(env, root, envVar, ns)
  {
    var _, creds := FindTarget(env, root, "credentials", ns);
    if creds == null || creds.kind != Sequence {
      return false;
    }
    issues := AnyCredential(env, creds, envVar, ns);
  }

  /** A mapping for the host and port. */
  ghost predicate IsFor(env: Env, ep: Node, host: string, port: string, ns: set<Node>)
    requires Closed(ns) && ep in ns
    reads ns
  {
    var h, p := ValueOf(ep, "host", ns), ValueOf(ep, "port", ns);
    h != null && p != null && env.fold(h.value) == env.fold(host) && p.value == port
  }

  ghost predicate EndpointIs(env: Env, n: Node, host: string, port: string, ns: set<Node>)
    requires Closed(ns) && n in ns
    reads ns
  {
    var ep := Resolve(n, env.maxAliasDepth, ns);
    ep != null && ep.kind == Mapping && IsFor(env, ep, host, port, ns)
  }

  method CheckEndpoint(env: Env, ep: Node, host: string, port: string, ghost ns: set<Node>) returns (same: bool)
    requires Closed(ns) && ep in ns
    ensures same == IsFor(env, ep, host, port, ns)
  {
    var h := MappingValue(ep, "host", ns);
    var p := MappingValue(ep, "port", ns);
    same := h != null && p != null && env.fold(h.value) == env.fold(host) && p.value == port;
  }

  ghost predicate Listed(env: Env, list: Node, host: string, port: string, ns: set<Node>)
    requires Closed(ns) && list in ns
    reads ns
  {
    exists k {:trigger EndpointIs(env, list.content[k], host, port, ns)} ::
      0 <= k < |list.content| && EndpointIs(env, list.content[k], host, port, ns)
  }

  /** The first element that is a mapping, behind its alias if it is one. */
  ghost function FirstMapping(env: Env, content: seq<Node>, ns: set<Node>): (r: Node?)
    requires Closed(ns) && forall k :: 0 <= k < |content| ==> content[k] in ns
    reads ns
    ensures r != null ==> r in ns && r.kind == Mapping
  {
    if content == [] then null
    else
      var before := FirstMapping(env, content[..|content| - 1], ns);
      var last := Resolve(content[|content| - 1], env.maxAliasDepth, ns);
      if before != null then before else if last != null && last.kind == Mapping then last else null
  }

  /** One turn of the scan. */
  method ScanOne(env: Env, n: Node, host: string, port: string, ghost ns: set<Node>)
    returns (mapping: Node?, same: bool)
    requires Closed(ns) && n in ns
    ensures var ep := Resolve(n, env.maxAliasDepth, ns);
            mapping == if ep != null && ep.kind == Mapping then ep else null
    ensures same == EndpointIs(env, n, host, port, ns)
  {
    var ep := ResolveAlias(env, n, ns);
    if ep == null || ep.kind != Mapping {
      return null, false;
    }
    mapping := ep;
    same := CheckEndpoint(env, ep, host, port, ns);
  }

  method ScanEndpoints(env: Env, list: Node, host: string, port: string, ghost ns: set<Node>)
    returns (template: Node?, listed: bool)
    requires Closed(ns) && list in ns
    ensures listed <==> Listed(env, list, host, port, ns)
    ensures !listed ==> template == FirstMapping(env, list.content, ns)
  {
    template, listed := null, false;
    for i := 0 to |list.content|
      invariant template == FirstMapping(env, list.content[..i], ns)
      invariant forall k {:trigger EndpointIs(env, list.content[k], host, port, ns)} ::
        0 <= k < i ==> !EndpointIs(env, list.content[k], host, port, ns)
    {
      assert list.content[..i + 1][..i] == list.content[..i];
      var mapping, same := ScanOne(env, list.content[i], host, port, ns);
      if same {
        return template, true;
      }
      if template == null {
        template := mapping;
      }
    }
    assert list.content[..|list.content|] == list.content;
  }

  /** Leave the document alone, refuse it, or add an endpoint like `template` to the
      list that `root` has under "endpoints", as `raw`. */
  datatype Decision = Skip | NotAList | Add(root: Node, raw: Node, list: Node, template: Node)

  ghost function DecideList(env: Env, root: Node, host: string, port: string, ns: set<Node>): (d: Decision)
    requires Closed(ns) && root in ns
    reads ns
    ensures d.Add? ==> d.root == root && d.raw in ns && d.list in ns && d.template in ns
    ensures d.Add? ==> d.raw == ValueOf(root, "endpoints", ns) && d.list == Target(env, root, "endpoints", ns)
    ensures d.Add? ==> d.list.kind == Sequence && d.template == FirstMapping(env, d.list.content, ns)
  {
    var raw, list := ValueOf(root, "endpoints", ns), Target(env, root, "endpoints", ns);
    if list == null || (list.kind == Scalar && env.isNull(list.tag, list.value)) then Skip
    else if list.kind != Sequence then NotAList
    else if Listed(env, list, host, port, ns) then Skip
    else
      var template := FirstMapping(env, list.content, ns);
      if template == null then Skip else Add(root, raw, list, template)
  }

  ghost predicate MappingAt(env: Env, content: seq<Node>, k: nat, ns: set<Node>)
    requires Closed(ns) && k < |content| && content[k] in ns
    reads ns
  {
    var n := Resolve(content[k], env.maxAliasDepth, ns);
    n != null && n.kind == Mapping
  }

  /** The template is the first element that is a mapping, behind its alias if it is one;
      there is none exactly when no element is. */
  lemma {:induction false} TemplateIsFirst(env: Env, content: seq<Node>, ns: set<Node>) returns (k: nat)
    requires Closed(ns) && forall i :: 0 <= i < |content| ==> content[i] in ns
    ensures k <= |content| && forall i: nat :: i < k ==> !MappingAt(env, content, i, ns)
    ensures FirstMapping(env, content, ns)
            == if k < |content| then Resolve(content[k], env.maxAliasDepth, ns) else null
    ensures k < |content| ==> MappingAt(env, content, k, ns)
  {
    k := 0;
    if content != [] {
      var n := |content| - 1;
      k := TemplateIsFirst(env, content[..n], ns);
      forall i: nat | i < n ensures MappingAt(env, content, i, ns) == MappingAt(env, content[..n], i, ns) {
        assert content[..n][i] == content[i];
      }
      if k == n && !MappingAt(env, content, n, ns) {
        k := n + 1;
      }
    }
  }

  ghost function Decide(env: Env, doc: Node, host: string, port: string, ns: set<Node>): (d: Decision)
    requires Closed(ns) && doc in ns
    reads ns
  {
    if doc.kind != Document || doc.content == [] || doc.content[0].kind != Mapping then Skip
    else if !ProfileIssues(env, doc.content[0], TOKEN, ns) then Skip
    else DecideList(env, doc.content[0], host, port, ns)
  }

  /** An endpoint is added exactly to a profile with a credential that issues the token,
      whose list of endpoints holds a mapping to follow and none for the host and port. */
  lemma DecidesExactly(env: Env, doc: Node, host: string, port: string, ns: set<Node>) returns (k: nat)
    requires Closed(ns) && doc in ns
    ensures var d := Decide(env, doc, host, port, ns);
            var profile := doc.kind == Document && doc.content != [] && doc.content[0].kind == Mapping
                           && ProfileIssues(env, doc.content[0], "GITLAB_TOKEN", ns);
            var list := if profile then Target(env, doc.content[0], "endpoints", ns) else null;
            && (d.NotAList? <==> list != null && list.kind != Sequence
                                 && !(list.kind == Scalar && env.isNull(list.tag, list.value)))
            && (d.Add? <==> list != null && list.kind == Sequence && !Listed(env, list, host, port, ns)
                            && exists i :: 0 <= i < |list.content| && MappingAt(env, list.content, i, ns))
            && (d.Add? ==>
                  && d.list == list && k < |list.content| && MappingAt(env, list.content, k, ns)
                  && (forall i: nat :: i < k ==> !MappingAt(env, list.content, i, ns))
                  && d.template == Resolve(list.content[k], env.maxAliasDepth, ns))
  {
    k := 0;
    if doc.kind == Document && doc.content != [] && doc.content[0].kind == Mapping {
      var list := Target(env, doc.content[0], "endpoints", ns);
      if list != null {
        k := TemplateIsFirst(env, list.content, ns);
      }
    }
  }

  method ExamineList(env: Env, root: Node, host: string, port: string, ghost ns: set<Node>) returns (d: Decision)
    requires Closed(ns) && root in ns
    ensures d == DecideList(env, root, host, port, ns)
  {
    var raw, list := FindTarget(env, root, "endpoints", ns);
    if list == null || (list.kind == Scalar && env.isNull(list.tag, list.value)) {
      return Skip;
    }
    if list.kind != Sequence {
      return NotAList;
    }
    var template, listed := ScanEndpoints(env, list, host, port, ns);
    if listed || template == null {
      return Skip;
    }
    return Add(root, raw, list, template);
  }

  method Examine(env: Env, doc: Node, host: string, port: string, ghost ns: set<Node>) returns (d: Decision)
    requires Closed(ns) && doc in ns
    ensures d == Decide(env, doc, host, port, ns)
  {
    if doc.kind != Document || doc.content == [] || doc.content[0].kind != Mapping {
      return Skip;
    }
    var issues := ProfileIssuesCredential(env, doc.content[0], TOKEN, ns);
    if !issues {
      return Skip;
    }
    d := ExamineList(env, doc.content[0], host, port, ns);
  }

  // ----- The edit -----

  /** An endpoint like the template, for the host and port. */
  function Endpoint(template: Tree, host: string, port: string): Tree {
    WithScalar(WithScalar(template, "host", host, "!!str"), "port", port, "!!int")
  }

  method CloneForHost(template: Node, host: string, ghost rank: map<Node, nat>, ghost ns: set<Node>)
    returns (ep: Node, ghost made: map<Node, nat>)
    requires Ranked(rank) && template in rank && rank.Keys <= ns && Closed(ns) && Paired(ns)
    ensures fresh(made.Keys) && CopyOf(ep, made, ns)
    ensures TreeOf(ep, made) == WithScalar(old(TreeOf(template, rank)), "host", host, "!!str")
  {
    ghost var added;
    ep, made := CloneNode(template, rank, ns);
    made, added := SetScalar(ep, "host", host, "!!str", made, ns);
  }

  method MakeEndpoint(template: Node, host: string, port: string, ghost rank: map<Node, nat>, ghost ns: set<Node>)
    returns (ep: Node, ghost made: map<Node, nat>)
    requires Ranked(rank) && template in rank && rank.Keys <= ns && Closed(ns) && Paired(ns)
    ensures fresh(made.Keys) && CopyOf(ep, made, ns)
    ensures TreeOf(ep, made) == Endpoint(old(TreeOf(template, rank)), host, port)
  {
    ghost var added;
    ep, made := CloneForHost(template, host, rank, ns);
    made, added := SetScalar(ep, "port", port, "!!int", made, ns);
  }

  /** A copy of a list, with the trees of its elements. */
  method CopyList(list: Node, ghost rank: map<Node, nat>, ghost ns: set<Node>)
    returns (l: Node, ghost copies: map<Node, nat>)
    requires Ranked(rank) && list in rank && rank.Keys <= ns && Closed(ns) && Paired(ns)
    ensures fresh(l) && fresh(copies.Keys) && l !in copies && l.kind == list.kind && (l.alias != null ==> l.alias in ns)
    ensures Known(l.content, copies, old(TreeOf(list, rank)).content) && Bare(copies, ns) && Paired(copies.Keys)
  {
    ghost var made;
    l, made := CloneNode(list, rank, ns);
    Unrooted(l, made, ns);
    copies := made - {l};
    assert l in made.Keys;
    assert copies.Keys <= made.Keys;
    assert Known(l.content, copies, TreeOf(l, made).content);
  }

  method Append(list: Node, ep: Node)
    modifies list`content
    ensures list.content == old(list.content) + [ep]
  {
    list.content := list.content + [ep];
  }

  /** `setYAMLMappingNode`. */
  method SetMappingNode(m: Node, key: string, value: Node)
    modifies m`content
    ensures var at := old(KeyFrom(Values(m.content), key, 0));
            m.content == if at.Some? then old(m.content)[at.value + 1 := value] else old(m.content)
  {
    var at := FindKey(m, key);
    if at.Some? {
      m.content := m.content[at.value + 1 := value];
    }
  }

  /** What may be written: the list that the root holds itself, or else the root. */
  ghost function Writable(d: Decision): set<Node> {
    if !d.Add? then {} else if d.raw == d.list then {d.list} else {d.root}
  }

  /** A list with the given trees and one more element. */
  ghost predicate ListMade(l: Node, copies: map<Node, nat>, ns: set<Node>, ts: seq<Tree>, ep: Node)
    reads l, copies.Keys
  {
    && l !in copies && l.kind == Sequence && (l.alias != null ==> l.alias in ns) && Bare(copies, ns)
    && Paired(copies.Keys)
    && l.content != [] && l.content[|l.content| - 1] == ep && Known(l.content[..|l.content| - 1], copies, ts)
  }

  ghost predicate EndpointMade(ep: Node, made: map<Node, nat>, ns: set<Node>, t: Tree)
    reads made.Keys
  {
    CopyOf(ep, made, ns) && TreeOf(ep, made) == t
  }

  /** Where the root has its endpoints. */
  ghost function EndpointsAt(root: Node): (r: Option<nat>)
    reads root, set n | n in root.content
    ensures r.Some? ==> r.value + 1 < |root.content|
  {
    KeyFrom(Values(root.content), "endpoints", 0)
  }

  ghost predicate Plausible(d: Decision, rank: map<Node, nat>, ns: set<Node>)
    reads ns
  {
    && Closed(ns) && Paired(ns) && d.Add? && d.root in ns && d.raw in ns && d.list in ns && d.template in ns
    && rank.Keys == ns && Ranked(rank) && d.list.kind == Sequence
    && EndpointsAt(d.root).Some?
  }

  /** How an edit changes the graph: one node has new content. */
  twostate predicate OnlyContent(n: Node, ns: set<Node>, new content: seq<Node>)
    reads ns
  {
    && n in ns && n.content == content
    && (forall m :: m in ns ==> m.kind == old(m.kind) && m.value == old(m.value) && m.alias == old(m.alias))
    && (forall m :: m in ns && m != n ==> m.content == old(m.content))
  }

  method GrowList(list: Node, ep: Node, ghost rank: map<Node, nat>, ghost ns: set<Node>, ghost ts: seq<Tree>)
    returns (l: Node, ghost copies: map<Node, nat>)
    requires Ranked(rank) && list in rank && rank.Keys <= ns && Closed(ns) && Paired(ns) && list.kind == Sequence
    requires ts == TreeOf(list, rank).content
    ensures fresh(l) && fresh(copies.Keys) && ListMade(l, copies, ns, ts, ep)
  {
    l, copies := CopyList(list, rank, ns);
    ghost var elements := l.content;
    Append(l, ep);
    assert l.content[..|l.content| - 1] == elements;
    assert Known(elements, copies, ts);
  }

  method SetEndpoints(root: Node, l: Node, ghost at: nat, ghost ns: set<Node>)
    requires EndpointsAt(root) == Some(at) && root in ns
    modifies root`content
    ensures OnlyContent(root, ns, old(root.content)[at + 1 := l])
  {
    SetMappingNode(root, "endpoints", l);
  }

  method AppendEndpoint(list: Node, ep: Node, ghost ns: set<Node>)
    requires list in ns
    modifies list`content
    ensures OnlyContent(list, ns, old(list.content) + [ep])
  {
    Append(list, ep);
  }

  /** The new endpoint, and a copy of the list that ends with it. */
  method MakeCopy(d: Decision, host: string, port: string, ghost rank: map<Node, nat>, ghost ns: set<Node>,
                  ghost t: Tree, ghost ts: seq<Tree>)
    returns (ep: Node, ghost made: map<Node, nat>, l: Node, ghost copies: map<Node, nat>)
    requires Plausible(d, rank, ns) && t == TreeOf(d.template, rank) && ts == TreeOf(d.list, rank).content
    ensures fresh(made.Keys) && EndpointMade(ep, made, ns, Endpoint(t, host, port))
    ensures fresh(l) && fresh(copies.Keys) && ListMade(l, copies, ns, ts, ep)
    ensures copies.Keys !! made.Keys && l !in made
  {
    ep, made := MakeEndpoint(d.template, host, port, rank, ns);
    l, copies := GrowList(d.list, ep, rank, ns, ts);
    assert EndpointMade(ep, made, ns, Endpoint(t, host, port));
  }

  // ----- Adding again -----

  lemma LookupIsValue(n: Node, rank: map<Node, nat>, key: string, ns: set<Node>)
    requires n in rank && Ranked(rank) && Closed(ns) && n in ns && Lookup(TreeOf(n, rank), key).Some?
    ensures ValueOf(n, key, ns) != null && ValueOf(n, key, ns).value == Lookup(TreeOf(n, rank), key).value.value
  {
    SameValues(n.content, TreeOf(n, rank).content);
  }

  /** The endpoint that was made is found as one for the host and port. */
  lemma MadeIsFound(
      env: Env, ep: Node, made: map<Node, nat>, ns: set<Node>, t: Tree, host: string, port: string, after: set<Node>)
    requires EndpointMade(ep, made, ns, Endpoint(t, host, port)) && t.kind == Mapping && |t.content| % 2 == 0
    requires Closed(after) && ep in after
    ensures EndpointIs(env, ep, host, port, after)
  {
    var u := WithScalar(t, "host", host, "!!str");
    WithScalarLooksUp(t, "host", host, "!!str", "host");
    WithScalarLooksUp(u, "port", port, "!!int", "host");
    LookupIsValue(ep, made, "host", after);
    LookupIsValue(ep, made, "port", after);
  }

  lemma {:induction false} KeyStays(vs: seq<string>, key: string, from: nat, at: nat, x: string)
    requires KeyFrom(vs, key, from) == Some(at)
    ensures KeyFrom(vs[at + 1 := x], key, from) == Some(at)
    decreases |vs| - from
  {
    if vs[from] != key {
      KeyStays(vs, key, from + 2, at, x);
    }
  }

  /** A list with an endpoint for the host and port stops another run. */
  lemma ListedIsSkipped(env: Env, doc: Node, host: string, port: string, list: Node, k: nat, ns: set<Node>)
    requires Closed(ns) && doc in ns && list in ns && list.kind == Sequence
    requires doc.content != [] && Target(env, doc.content[0], "endpoints", ns) == list
    requires k < |list.content| && EndpointIs(env, list.content[k], host, port, ns)
    ensures Decide(env, doc, host, port, ns) == Skip
  {
    assert Listed(env, list, host, port, ns);
  }

  twostate lemma ClosedAfter(
      edit: (Node, set<Node>), new content: seq<Node>, new made: map<Node, nat>, new ep: Node, new more: set<Node>)
    requires var (n, ns) := edit; old(Closed(ns)) && OnlyContent(n, ns, content) && CopyOf(ep, made, ns)
    requires var ns := edit.1; forall k :: 0 <= k < |content| ==> content[k] in ns + made.Keys + more
    requires forall m :: m in more ==> m.alias != null ==> m.alias in edit.1
    requires forall m, k {:trigger m.content[k]} :: m in more && 0 <= k < |m.content| ==>
             m.content[k] in more + made.Keys
    ensures Closed(edit.1 + made.Keys + more)
  {
    var (n, ns) := edit;
    var all := ns + made.Keys + more;
    forall m | m in all && m.alias != null ensures m.alias in all {
      if m in ns {
        assert old(m.alias) in ns;
      }
    }
    forall m, k | m in all && 0 <= k < |m.content| ensures m.content[k] in all {
      if m in ns && m != n {
        assert old(m.content[k]) in ns;
      }
    }
  }

  /** What an edit starts from. */
  datatype Job = Job(env: Env, doc: Node, host: string, port: string, root: Node, raw: Node, list: Node, template: Node,
                     rank: map<Node, nat>, ns: set<Node>)

  ghost predicate OnGraph(j: Job)
    reads j.ns
  {
    Closed(j.ns) && Paired(j.ns) && j.rank.Keys == j.ns && Ranked(j.rank) && j.root in j.ns && j.list in j.ns
  }

  ghost predicate Starts(j: Job)
    reads j.ns
  {
    && OnGraph(j) && j.doc in j.ns && j.raw in j.ns && j.template in j.ns
    && j.doc.kind == Document && j.doc.content != [] && j.doc.content[0] == j.root && j.root.kind == Mapping
    && ValueOf(j.root, "endpoints", j.ns) == j.raw && Target(j.env, j.root, "endpoints", j.ns) == j.list
    && j.list.kind == Sequence && j.template.kind == Mapping
  }

  /** A list that ends with the endpoint that was made stops another run. */
  lemma LastIsListed(j: Job, list: Node, ep: Node, made: map<Node, nat>, t: Tree, after: set<Node>)
    requires EndpointMade(ep, made, j.ns, Endpoint(t, j.host, j.port)) && t.kind == Mapping && |t.content| % 2 == 0
    requires Closed(after) && j.doc in after && list in after && list.kind == Sequence
    requires j.doc.content != [] && Target(j.env, j.doc.content[0], "endpoints", after) == list
    requires list.content != [] && list.content[|list.content| - 1] == ep
    ensures Decide(j.env, j.doc, j.host, j.port, after) == Skip
  {
    MadeIsFound(j.env, ep, made, j.ns, t, j.host, j.port, after);
    ListedIsSkipped(j.env, j.doc, j.host, j.port, list, |list.content| - 1, after);
  }

  twostate lemma OwnListFound(j: Job, new content: seq<Node>, new after: set<Node>)
    requires old(Starts(j)) && j.raw == j.list && OnlyContent(j.list, j.ns, content) && Closed(after) && j.ns <= after
    ensures Target(j.env, j.root, "endpoints", after) == j.list && j.list.kind == Sequence
  {
    assert j.root.content == old(j.root.content);
    SameNodeValues(j.root.content);
  }

  twostate lemma SameNodeValues(content: seq<Node>)
    requires forall k :: 0 <= k < |content| ==> content[k].value == old(content[k].value)
    ensures Values(content) == old(Values(content))
  {
  }

  twostate lemma RootValuesStay(j: Job, new was: seq<Node>, new content: seq<Node>)
    requires old(Starts(j)) && was == old(j.root.content) && OnlyContent(j.root, j.ns, content)
    ensures Values(was) == old(Values(j.root.content))
  {
    forall k | 0 <= k < |was| ensures was[k].value == old(was[k].value) {
      assert old(j.root.content[k]) in j.ns;
    }
    SameNodeValues(was);
  }

  twostate lemma CopiedListFound(j: Job, new at: nat, new l: Node, new after: set<Node>)
    requires old(Starts(j)) && old(EndpointsAt(j.root)) == Some(at) && l.kind == Sequence
    requires OnlyContent(j.root, j.ns, old(j.root.content)[at + 1 := l]) && Closed(after) && j.ns <= after && l in after
    ensures Target(j.env, j.root, "endpoints", after) == l
  {
    var was := old(j.root.content);
    RootValuesStay(j, was, was[at + 1 := l]);
    PlacedIsFound(j.env, j.root, was, at, l, after);
  }

  /** The node put behind the key is the one it leads to. */
  lemma PlacedIsFound(env: Env, root: Node, was: seq<Node>, at: nat, l: Node, ns: set<Node>)
    requires Closed(ns) && root in ns && l in ns && l.kind == Sequence
    requires at + 1 < |was| && root.content == was[at + 1 := l] && KeyFrom(Values(was), "endpoints", 0) == Some(at)
    ensures Target(env, root, "endpoints", ns) == l
  {
    KeyStays(Values(was), "endpoints", 0, at, l.value);
    ValuesUpdate(was, at + 1, l);
    assert ValueOf(root, "endpoints", ns) == l;
  }

  lemma ValuesUpdate(content: seq<Node>, i: nat, n: Node)
    requires i < |content|
    ensures Values(content[i := n]) == Values(content)[i := n.value]
  {
  }

  twostate lemma OwnIsClosed(j: Job, new ep: Node, new made: map<Node, nat>)
    requires old(Starts(j)) && CopyOf(ep, made, j.ns) && OnlyContent(j.list, j.ns, old(j.list.content) + [ep])
    ensures Closed(j.ns + made.Keys)
  {
    var content := old(j.list.content) + [ep];
    forall k | 0 <= k < |content| ensures content[k] in j.ns + made.Keys + {} {
      assert k < |content| - 1 ==> old(j.list.content[k]) in j.ns;
    }
    ClosedAfter((j.list, j.ns), content, made, ep, {});
    assert j.ns + made.Keys + {} == j.ns + made.Keys;
  }

  twostate lemma OwnIsDone(j: Job, new ep: Node, new made: map<Node, nat>)
    requires old(Starts(j)) && j.raw == j.list
    requires EndpointMade(ep, made, j.ns, Endpoint(old(TreeOf(j.template, j.rank)), j.host, j.port))
    requires OnlyContent(j.list, j.ns, old(j.list.content) + [ep])
    ensures Closed(j.ns + made.Keys) && Decide(j.env, j.doc, j.host, j.port, j.ns + made.Keys) == Skip
  {
    var after := j.ns + made.Keys;
    OwnIsClosed(j, ep, made);
    OwnListFound(j, old(j.list.content) + [ep], after);
    LastIsListed(j, j.list, ep, made, old(TreeOf(j.template, j.rank)), after);
  }

  lemma ListIsClosed(l: Node, copies: map<Node, nat>, ns: set<Node>, ts: seq<Tree>, ep: Node, made: map<Node, nat>)
    requires ListMade(l, copies, ns, ts, ep) && CopyOf(ep, made, ns)
    ensures var more := copies.Keys + {l};
            forall m, k {:trigger m.content[k]} :: m in more && 0 <= k < |m.content| ==>
              m.content[k] in more + made.Keys
  {
    var more := copies.Keys + {l};
    forall m, k {:trigger m.content[k]} | m in more && 0 <= k < |m.content| ensures m.content[k] in more + made.Keys {
      if m == l && k < |l.content| - 1 {
        assert l.content[..|l.content| - 1][k] == l.content[k];
      }
    }
  }

  twostate lemma CopyIsClosed(
      j: Job, new at: nat, new ep: Node, new made: map<Node, nat>, new l: Node, new copies: map<Node, nat>,
      new ts: seq<Tree>)
    requires old(Starts(j)) && old(EndpointsAt(j.root)) == Some(at)
    requires CopyOf(ep, made, j.ns) && ListMade(l, copies, j.ns, ts, ep)
    requires OnlyContent(j.root, j.ns, old(j.root.content)[at + 1 := l])
    ensures Closed(j.ns + made.Keys + (copies.Keys + {l}))
  {
    var more := copies.Keys + {l};
    var content := old(j.root.content)[at + 1 := l];
    forall k | 0 <= k < |content| ensures content[k] in j.ns + made.Keys + more {
      assert old(j.root.content[k]) in j.ns;
    }
    ListIsClosed(l, copies, j.ns, ts, ep, made);
    ClosedAfter((j.root, j.ns), content, made, ep, more);
  }

  twostate lemma CopyIsDone(
      j: Job, new at: nat, new ep: Node, new made: map<Node, nat>, new l: Node, new copies: map<Node, nat>,
      new ts: seq<Tree>)
    requires old(Starts(j)) && old(EndpointsAt(j.root)) == Some(at)
    requires EndpointMade(ep, made, j.ns, Endpoint(old(TreeOf(j.template, j.rank)), j.host, j.port))
    requires ListMade(l, copies, j.ns, ts, ep) && OnlyContent(j.root, j.ns, old(j.root.content)[at + 1 := l])
    ensures var after := j.ns + made.Keys + (copies.Keys + {l});
            Closed(after) && Decide(j.env, j.doc, j.host, j.port, after) == Skip
  {
    var after := j.ns + made.Keys + (copies.Keys + {l});
    CopyIsClosed(j, at, ep, made, l, copies, ts);
    CopiedListFound(j, at, l, after);
    LastIsListed(j, l, ep, made, old(TreeOf(j.template, j.rank)), after);
  }

  // ----- The graph afterwards -----

  lemma {:induction false} BoundOf(rank: map<Node, nat>) returns (bound: nat)
    ensures forall n :: n in rank ==> rank[n] < bound
    decreases |rank|
  {
    if rank == map[] {
      bound := 0;
    } else {
      var n :| n in rank;
      var rest := rank - {n};
      var b := BoundOf(rest);
      bound := if rank[n] < b then b else rank[n] + 1;
      assert forall m :: m in rank ==> m == n || (m in rest && rest[m] == rank[m]);
    }
  }

  /** The old nodes ranked above all new ones. */
  ghost function Above(rank: map<Node, nat>, made: map<Node, nat>, bound: nat): map<Node, nat> {
    made + (map n | n in rank :: rank[n] + bound)
  }

  /** An edit that puts only new nodes under an old one leaves the graph ranked and paired. */
  twostate lemma StaysRanked(
      edit: (Node, map<Node, nat>), new content: seq<Node>, new made: map<Node, nat>, new bound: nat)
    requires var (n, rank) := edit; old(Ranked(rank)) && old(Paired(rank.Keys)) && OnlyContent(n, rank.Keys, content)
    requires var (n, rank) := edit; n.kind == Mapping ==> |content| == |old(n.content)|
    requires edit.1.Keys !! made.Keys && Ranked(made) && Paired(made.Keys) && forall m :: m in made ==> made[m] < bound
    requires var (n, rank) := edit;
             forall k :: 0 <= k < |content| ==>
               content[k] in made || (content[k] in rank && rank[content[k]] < rank[n])
    ensures Ranked(Above(edit.1, made, bound)) && Paired(edit.1.Keys + made.Keys)
    ensures Above(edit.1, made, bound).Keys == edit.1.Keys + made.Keys
  {
    var (n, rank) := edit;
    var above := Above(rank, made, bound);
    forall m, k | m in above && 0 <= k < |m.content| ensures m.content[k] in above && above[m.content[k]] < above[m] {
      if m in rank && m != n {
        assert old(m.content[k]) in rank;
      }
    }
  }

  twostate lemma OwnIsRanked(j: Job, new ep: Node, new made: map<Node, nat>)
    requires old(OnGraph(j)) && CopyOf(ep, made, j.ns) && OnlyContent(j.list, j.ns, old(j.list.content) + [ep])
    requires made.Keys !! j.ns && j.list.kind == Sequence
    ensures var again := Above(j.rank, made, made[ep] + 1);
            again.Keys == j.ns + made.Keys && Ranked(again) && Paired(again.Keys)
  {
    var content := old(j.list.content) + [ep];
    forall k | 0 <= k < |content|
      ensures content[k] in made || (content[k] in j.rank && j.rank[content[k]] < j.rank[j.list])
    {
      assert k < |content| - 1 ==> content[k] == old(j.list.content[k]);
    }
    StaysRanked((j.list, j.rank), content, made, made[ep] + 1);
  }

  /** The new nodes of a copied list, that itself on top, are ranked and paired. */
  lemma RankList(l: Node, copies: map<Node, nat>, ns: set<Node>, ts: seq<Tree>, ep: Node, made: map<Node, nat>)
    returns (all: map<Node, nat>)
    requires ListMade(l, copies, ns, ts, ep) && CopyOf(ep, made, ns) && copies.Keys !! made.Keys && l !in made
    ensures all.Keys == made.Keys + (copies.Keys + {l}) && forall m :: m in all ==> all[m] <= all[l]
    ensures Ranked(all) && Paired(all.Keys)
  {
    var bound := BoundOf(copies + made);
    all := (copies + made)[l := bound];
    forall m, k | m in all && 0 <= k < |m.content| ensures m.content[k] in all && all[m.content[k]] < all[m] {
      if m == l && k < |l.content| - 1 {
        assert l.content[..|l.content| - 1][k] == l.content[k];
      }
    }
  }

  twostate lemma CopyIsRanked(j: Job, new at: nat, new l: Node, new all: map<Node, nat>)
    requires old(OnGraph(j)) && old(EndpointsAt(j.root)) == Some(at) && l in all
    requires all.Keys !! j.ns && Ranked(all) && Paired(all.Keys) && forall m :: m in all ==> all[m] <= all[l]
    requires OnlyContent(j.root, j.ns, old(j.root.content)[at + 1 := l])
    ensures var again := Above(j.rank, all, all[l] + 1);
            again.Keys == j.ns + all.Keys && Ranked(again) && Paired(again.Keys)
  {
    var content := old(j.root.content)[at + 1 := l];
    forall k | 0 <= k < |content|
      ensures content[k] in all || (content[k] in j.rank && j.rank[content[k]] < j.rank[j.root])
    {
      assert k != at + 1 ==> content[k] == old(j.root.content[k]);
    }
    StaysRanked((j.root, j.rank), content, all, all[l] + 1);
  }

  /** Another run may start on the graph as it is now, and leaves the document alone. */
  ghost predicate RunsAgain(env: Env, doc: Node, host: string, port: string, ns: set<Node>, again: map<Node, nat>)
    reads again.Keys
  {
    && ns <= again.Keys && Closed(again.Keys) && Paired(again.Keys) && Ranked(again) && doc in again
    && Decide(env, doc, host, port, again.Keys) == Skip
  }

  ghost predicate IsDone(j: Job, again: map<Node, nat>)
    reads again.Keys
  {
    RunsAgain(j.env, j.doc, j.host, j.port, j.ns, again)
  }

  twostate lemma CopyRanks(
      j: Job, new at: nat, new ep: Node, new made: map<Node, nat>, new l: Node, new copies: map<Node, nat>,
      new ts: seq<Tree>) returns (again: map<Node, nat>)
    requires old(OnGraph(j)) && old(EndpointsAt(j.root)) == Some(at)
    requires CopyOf(ep, made, j.ns) && ListMade(l, copies, j.ns, ts, ep)
    requires OnlyContent(j.root, j.ns, old(j.root.content)[at + 1 := l])
    requires made.Keys !! j.ns && copies.Keys !! j.ns && l !in j.ns && copies.Keys !! made.Keys && l !in made
    ensures again.Keys == j.ns + made.Keys + (copies.Keys + {l}) && Ranked(again) && Paired(again.Keys)
  {
    var all := RankList(l, copies, j.ns, ts, ep, made);
    CopyIsRanked(j, at, l, all);
    again := Above(j.rank, all, all[l] + 1);
    assert again.Keys == j.ns + made.Keys + (copies.Keys + {l});
  }

  twostate lemma CopyLeavesDone(
      j: Job, new at: nat, new ep: Node, new made: map<Node, nat>, new l: Node, new copies: map<Node, nat>,
      new ts: seq<Tree>) returns (again: map<Node, nat>)
    requires old(Starts(j)) && old(EndpointsAt(j.root)) == Some(at)
    requires EndpointMade(ep, made, j.ns, Endpoint(old(TreeOf(j.template, j.rank)), j.host, j.port))
    requires ListMade(l, copies, j.ns, ts, ep) && OnlyContent(j.root, j.ns, old(j.root.content)[at + 1 := l])
    requires made.Keys !! j.ns && copies.Keys !! j.ns && l !in j.ns && copies.Keys !! made.Keys && l !in made
    ensures IsDone(j, again)
  {
    CopyIsDone(j, at, ep, made, l, copies, ts);
    again := CopyRanks(j, at, ep, made, l, copies, ts);
  }

  twostate lemma OwnLeavesDone(j: Job, new ep: Node, new made: map<Node, nat>)
    requires old(Starts(j)) && j.raw == j.list && made.Keys !! j.ns
    requires EndpointMade(ep, made, j.ns, Endpoint(old(TreeOf(j.template, j.rank)), j.host, j.port))
    requires OnlyContent(j.list, j.ns, old(j.list.content) + [ep])
    ensures IsDone(j, Above(j.rank, made, made[ep] + 1))
  {
    OwnIsDone(j, ep, made);
    OwnIsRanked(j, ep, made);
  }

  method AddToOwnList(d: Decision, host: string, port: string, ghost j: Job, ghost t: Tree)
    returns (ep: Node, ghost made: map<Node, nat>, ghost again: map<Node, nat>)
    requires Starts(j) && d == Add(j.root, j.list, j.list, j.template) && j.raw == j.list && host == j.host
             && port == j.port
    requires Plausible(d, j.rank, j.ns) && t == TreeOf(d.template, j.rank)
    modifies d.list`content
    ensures fresh(made.Keys) && EndpointMade(ep, made, j.ns, Endpoint(t, host, port))
    ensures d.list.content == old(d.list.content) + [ep]
    ensures IsDone(j, again)
  {
    ep, made := MakeEndpoint(d.template, host, port, j.rank, j.ns);
    label Made:
    AppendEndpoint(d.list, ep, j.ns);
    OwnLeavesDone@Made(j, ep, made);
    again := Above(j.rank, made, made[ep] + 1);
  }

  /** The copied list takes the place of the alias. */
  method PlaceCopy(root: Node, ghost at: nat, ghost ep: Node, ghost made: map<Node, nat>, l: Node,
                   ghost copies: map<Node, nat>, ghost j: Job, ghost ts: seq<Tree>)
    returns (ghost again: map<Node, nat>)
    requires Starts(j) && root == j.root && EndpointsAt(j.root) == Some(at)
    requires EndpointMade(ep, made, j.ns, Endpoint(TreeOf(j.template, j.rank), j.host, j.port))
    requires ListMade(l, copies, j.ns, ts, ep)
    requires made.Keys !! j.ns && copies.Keys !! j.ns && l !in j.ns && copies.Keys !! made.Keys && l !in made
    modifies root`content
    ensures EndpointMade(ep, made, j.ns, Endpoint(old(TreeOf(j.template, j.rank)), j.host, j.port))
    ensures ListMade(l, copies, j.ns, ts, ep)
    ensures root.content == old(root.content)[at + 1 := l] && IsDone(j, again)
  {
    SetEndpoints(root, l, at, j.ns);
    again := CopyLeavesDone(j, at, ep, made, l, copies, ts);
  }

  method AddToCopy(d: Decision, host: string, port: string, ghost j: Job, ghost t: Tree, ghost ts: seq<Tree>,
      ghost at: nat)
    returns (ep: Node, ghost made: map<Node, nat>, l: Node, ghost copies: map<Node, nat>, ghost again: map<Node, nat>)
    requires Starts(j) && d == Add(j.root, j.raw, j.list, j.template) && host == j.host && port == j.port
    requires Plausible(d, j.rank, j.ns) && EndpointsAt(d.root) == Some(at)
    requires t == TreeOf(d.template, j.rank) && ts == TreeOf(d.list, j.rank).content
    modifies d.root`content
    ensures fresh(made.Keys) && EndpointMade(ep, made, j.ns, Endpoint(t, host, port))
    ensures fresh(l) && fresh(copies.Keys) && ListMade(l, copies, j.ns, ts, ep)
    ensures d.root.content == old(d.root.content)[at + 1 := l]
    ensures IsDone(j, again)
  {
    ep, made, l, copies := MakeCopy(d, host, port, j.rank, j.ns, t, ts);
    assert Starts(j) && EndpointsAt(j.root) == Some(at);
    assert EndpointMade(ep, made, j.ns, Endpoint(TreeOf(j.template, j.rank), j.host, j.port));
    again := PlaceCopy(d.root, at, ep, made, l, copies, j, ts);
  }

  /** Appends to the list the root holds itself; a list behind an alias is anchored
      elsewhere, so the root gets a copy. */
  method Edit(d: Decision, host: string, port: string, ghost j: Job, ghost t: Tree, ghost ts: seq<Tree>, ghost at: nat)
    returns (ghost ep: Node, ghost made: map<Node, nat>, ghost l: Node, ghost copies: map<Node, nat>,
             ghost again: map<Node, nat>)
    requires Starts(j) && d == Add(j.root, j.raw, j.list, j.template) && host == j.host && port == j.port
    requires Plausible(d, j.rank, j.ns) && EndpointsAt(d.root) == Some(at)
    requires t == TreeOf(d.template, j.rank) && ts == TreeOf(d.list, j.rank).content
    modifies Writable(d)`content
    ensures fresh(made.Keys) && EndpointMade(ep, made, j.ns, Endpoint(t, host, port))
    ensures d.raw == d.list ==> d.list.content == old(d.list.content) + [ep]
    ensures d.raw != d.list ==> fresh(l) && fresh(copies.Keys) && ListMade(l, copies, j.ns, ts, ep)
    ensures d.raw != d.list ==> d.root.content == old(d.root.content)[at + 1 := l]
    ensures IsDone(j, again)
  {
    l, copies := d.list, map[];
    if d.raw == d.list {
      var e;
      e, made, again := AddToOwnList(d, host, port, j, t);
      ep := e;
    } else {
      var e, l';
      e, made, l', copies, again := AddToCopy(d, host, port, j, t, ts, at);
      ep, l := e, l';
    }
  }

  lemma DecidedStarts(j: Job, d: Decision)
    requires Closed(j.ns) && Paired(j.ns) && j.doc in j.ns && Ranked(j.rank) && j.rank.Keys == j.ns
    requires d == Decide(j.env, j.doc, j.host, j.port, j.ns) == Add(j.root, j.raw, j.list, j.template)
    ensures Starts(j) && Plausible(d, j.rank, j.ns)
  {
    assert EndpointsAt(j.root).Some?;
  }

  /** Decides, and takes down what the edit starts from. */
  method Begin(env: Env, doc: Node, host: string, port: string, ghost rank: map<Node, nat>, ghost ns: set<Node>)
    returns (d: Decision, ghost j: Job, ghost t: Tree, ghost ts: seq<Tree>, ghost at: nat)
    requires Closed(ns) && Paired(ns) && doc in ns && Ranked(rank) && rank.Keys == ns
    ensures d == old(Decide(env, doc, host, port, ns))
    ensures d.Add? ==> j == Job(env, doc, host, port, d.root, d.raw, d.list, d.template, rank, ns)
    ensures d.Add? ==> Starts(j) && Plausible(d, rank, ns)
    ensures d.Add? ==> t == old(TreeOf(d.template, rank)) == TreeOf(d.template, rank)
    ensures d.Add? ==> ts == old(TreeOf(d.list, rank).content) == TreeOf(d.list, rank).content
    ensures d.Add? ==> old(EndpointsAt(d.root)) == Some(at) == EndpointsAt(d.root)
    ensures d.Add? ==> d.root.content == old(d.root.content) && d.list.content == old(d.list.content)
  {
    d := Examine(env, doc, host, port, ns);
    j := Job(env, doc, host, port, doc, doc, doc, doc, rank, ns);
    t, ts, at := Leaf("", ""), [], 0;
    if d.Add? {
      j := Job(env, doc, host, port, d.root, d.raw, d.list, d.template, rank, ns);
      DecidedStarts(j, d);
      t, ts, at := TreeOf(d.template, rank), TreeOf(d.list, rank).content, EndpointsAt(d.root).value;
    }
  }

  /** `addGitLabForgeEndpoint` on the node graph. It writes at most one node: the list if
      the root holds it itself, or else the root, which gets its own copy of the list; so
      a list reached through an alias stays as it is. The one endpoint added is the first
      mapping endpoint but for host and port, all of its nodes new. Afterwards another
      run leaves the document alone. */
  method AddEndpoint(env: Env, doc: Node, host: string, port: string, ghost rank: map<Node, nat>, ghost ns: set<Node>)
    returns (d: Decision, ghost ep: Node, ghost made: map<Node, nat>, ghost l: Node, ghost copies: map<Node, nat>,
             ghost again: map<Node, nat>, ghost at: nat)
    requires Closed(ns) && Paired(ns) && doc in ns && Ranked(rank) && rank.Keys == ns
    modifies Writable(Decide(env, doc, host, port, ns))`content
    ensures d == old(Decide(env, doc, host, port, ns))
    ensures d.Add? ==>
              fresh(made.Keys) && EndpointMade(ep, made, ns, Endpoint(old(TreeOf(d.template, rank)), host, port))
    ensures d.Add? && d.raw == d.list ==> d.list.content == old(d.list.content) + [ep]
    ensures d.Add? && d.raw != d.list ==>
      fresh(l) && fresh(copies.Keys) && ListMade(l, copies, ns, old(TreeOf(d.list, rank)).content, ep)
    ensures d.Add? && d.raw != d.list ==>
      old(EndpointsAt(d.root)) == Some(at) && d.root.content == old(d.root.content)[at + 1 := l]
    ensures d.Add? ==> RunsAgain(env, doc, host, port, ns, again)
  {
    ghost var j, t, ts;
    d, j, t, ts, at := Begin(env, doc, host, port, rank, ns);
    ep, made, l, copies, again := doc, map[], doc, map[], rank;
    if d.Add? {
      ep, made, l, copies, again := Edit(d, host, port, j, t, ts, at);
    }
  }

  /** The new endpoint has the host and port, and for every other key what the template
      has. */
  lemma EndpointDiffersInHostAndPort(t: Tree, host: string, port: string, other: string)
    requires |t.content| % 2 == 0 && other != "host" && other != "port"
    ensures var e := Endpoint(t, host, port);
            && Lookup(e, "host") == Some(Leaf("!!str", host)) && Lookup(e, "port") == Some(Leaf("!!int", port))
            && Lookup(e, other) == Lookup(t, other) && e.kind == t.kind && e.tag == t.tag
  {
    var u := WithScalar(t, "host", host, "!!str");
    WithScalarLooksUp(t, "host", host, "!!str", other);
    WithScalarLooksUp(u, "port", port, "!!int", other);
    WithScalarLooksUp(u, "port", port, "!!int", "host");
  }
}
