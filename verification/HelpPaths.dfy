/** Where an entry of the help list comes from: the children on the way to its argp make its cluster, and the options
    before it its group. */
module HelpPaths {
  import opened Options
  import opened ArgpTree
  import opened HelpEntries
  import opened HelpOrder
  import opened HelpList
  import opened HelpListBuild

  // ----- argps by the way to them -----

  /** A way down the tree, as the places of the children taken. */
  predicate IsPath(t: Argp, path: seq<nat>)
    decreases |path|
  {
    path == [] || (path[0] < |t.children| && IsPath(t.children[path[0]].argp, path[1..]))
  }

  function ArgpAt(t: Argp, path: seq<nat>): Argp
    requires IsPath(t, path)
    decreases |path|
  {
    if path == [] then t else ArgpAt(t.children[path[0]].argp, path[1..])
  }

  /** Its place in preorder: behind its parent and all that hangs on earlier children. */
  function PlaceOf(t: Argp, path: seq<nat>): nat
    requires IsPath(t, path)
    decreases |path|
  {
    if path == [] then 0 else 1 + |NodesOf(t.children[..path[0]])| + PlaceOf(t.children[path[0]].argp, path[1..])
  }

  /** A child that has a group or a header, with its place among its siblings and that of its argp in preorder. */
  datatype Link = Link(id: nat, header: Option<string>, group: int, index: nat)

  /** The children with a group or a header on the way; `node` is the place of the tree itself. */
  function Links(t: Argp, path: seq<nat>, node: nat): seq<Link>
    requires IsPath(t, path)
    decreases |path|
  {
    if path == [] then [] else
    var c, id := t.children[path[0]], node + 1 + |NodesOf(t.children[..path[0]])|;
    (if c.group != 0 || c.header.Some? then [Link(id, c.header, c.group, path[0])] else []) + Links(c.argp, path[1..], id)
  }

  /** A cluster, from the outermost one around it, as the children it stands for. */
  function Chain(o: Option<Cluster>): seq<Link>
    decreases o
  {
    if o.None? then [] else
    var c := o.value;
    Chain(c.parent) + [Link(c.id, c.header, c.group, if c.index >= 0 then c.index else 0)]
  }

  lemma {:induction false} NodesThrough(cs: seq<ArgpChild>, cluster: Option<Cluster>, node: nat, k: nat)
    requires k < |cs|
    ensures var front, c := cs[..k], cs[k];
            var id := node + |NodesOf(front)|;
            && NodesOf(front) + Nodes(c.argp) <= NodesOf(cs)
            && NodeClustersOf(front, cluster, node) + NodeClusters(c.argp, ChildCluster(c, k, cluster, id), id) <= NodeClustersOf(cs, cluster, node)
    decreases |cs|
  {
    hide Nodes, NodeClusters, ChildCluster;
    var last := |cs| - 1;
    if k < last {
      NodesThrough(cs[..last], cluster, node, k);
      assert cs[..last][..k] == cs[..k];
    }
  }

  /** The argp at the end of a path has that place in preorder, and its cluster is made of the children with a group or
      a header on the way. */
  lemma {:induction false} PathCluster(t: Argp, cluster: Option<Cluster>, node: nat, path: seq<nat>)
    requires IsPath(t, path)
    ensures var p := PlaceOf(t, path);
            && p < |Nodes(t)| && Nodes(t)[p] == ArgpAt(t, path)
            && Chain(NodeClusters(t, cluster, node)[p]) == Chain(cluster) + Links(t, path, node)
    decreases |path|
  {
    hide NodesOf, NodeClustersOf, Chain;
    if path != [] {
      var k, c := path[0], t.children[path[0]];
      var id := node + 1 + |NodesOf(t.children[..k])|;
      var cl := ChildCluster(c, k, cluster, id);
      PathCluster(c.argp, cl, id, path[1..]);
      NodesThrough(t.children, cluster, node + 1, k);
      ChainStep(c, k, cluster, id);
      var p := PlaceOf(c.argp, path[1..]);
      Behind(NodesOf(t.children[..k]), Nodes(c.argp), NodesOf(t.children), p);
      Behind(NodeClustersOf(t.children[..k], cluster, node + 1), NodeClusters(c.argp, cl, id), NodeClustersOf(t.children, cluster, node + 1), p);
    }
  }

  lemma {:induction false} Behind<T>(a: seq<T>, b: seq<T>, s: seq<T>, p: nat)
    requires a + b <= s && p < |b|
    ensures |a| + p < |s| && s[|a| + p] == b[p]
  {
    assert (a + b)[|a| + p] == b[p];
  }

  lemma {:induction false} ChainStep(c: ArgpChild, k: nat, cluster: Option<Cluster>, id: nat)
    ensures Chain(ChildCluster(c, k, cluster, id)) == Chain(cluster) + if c.group != 0 || c.header.Some? then [Link(id, c.header, c.group, k)] else []
  {
  }

  /** Every argp of a tree is at the end of some path. */
  lemma {:induction false} EveryPlace(t: Argp, p: nat) returns (path: seq<nat>)
    requires p < |Nodes(t)|
    ensures IsPath(t, path) && PlaceOf(t, path) == p
    decreases t, 1
  {
    hide NodesOf;
    if p == 0 {
      path := [];
    } else {
      var k, rest := EveryChildPlace(t.children, p - 1);
      path := [k] + rest;
      assert path[1..] == rest;
    }
  }

  lemma {:induction false} EveryChildPlace(cs: seq<ArgpChild>, p: nat) returns (k: nat, path: seq<nat>)
    requires p < |NodesOf(cs)|
    ensures k < |cs| && IsPath(cs[k].argp, path) && |NodesOf(cs[..k])| + PlaceOf(cs[k].argp, path) == p
    decreases cs, 0
  {
    hide Nodes, PlaceOf, IsPath;
    var last := |cs| - 1;
    assert cs decreases to cs[last];
    if p < |NodesOf(cs[..last])| {
      k, path := EveryChildPlace(cs[..last], p);
      assert cs[..last][..k] == cs[..k];
    } else {
      k := last;
      path := EveryPlace(cs[last].argp, p - |NodesOf(cs[..last])|);
    }
  }

  lemma {:induction false} EntryComesFrom(nodes: seq<Argp>, clusters: seq<Option<Cluster>>)
    requires |nodes| == |clusters|
    ensures forall e :: e in EntryList(nodes, clusters, 0) ==>
              e.node < |nodes| && e.cluster == clusters[e.node] && e in NodeEntries(Opts(nodes[e.node]), e.node, e.cluster)
  {
    hide NodeEntries;
    if nodes != [] {
      var last := |nodes| - 1;
      EntryComesFrom(nodes[..last], clusters[..last]);
      NodeEntriesOf(Opts(nodes[last]), last, clusters[last]);
    }
  }

  lemma {:induction false} NodeEntriesOf(opts: seq<ArgpOption>, node: nat, cluster: Option<Cluster>)
    ensures forall e :: e in NodeEntries(opts, node, cluster) ==> e.cluster == cluster && e.node == node
  {
    if opts != [] { NodeEntriesOf(opts[..|opts| - 1], node, cluster); }
  }

  /** The entries of the list of a tree: each belongs to the cluster made of the children with a group or a header on the
      way to its argp, and sorts first by the group of the outermost of them. */
  lemma {:induction false} EntryCluster(loc: Locale, t: Argp, e: Entry) returns (path: seq<nat>)
    requires NoLeadingAlias(Nodes(t)) && e in TreeHol(loc, t, None, 0).entries
    ensures IsPath(t, path) && PlaceOf(t, path) == e.node
    ensures Chain(e.cluster) == Links(t, path, 0)
    ensures BaseGroup(e) == var links := Links(t, path, 0); if links == [] then e.group else links[0].group
  {
    hide EntryList, TreeHol, NodeClusters, Nodes, Links, PlaceOf, IsPath, Chain, Represents, FindsFirsts, AsciiShorts, TaggedOpts;
    var nodes, clusters := Nodes(t), NodeClusters(t, None, 0);
    TreeHolFinds(loc, t);
    EntryComesFrom(nodes, clusters);
    var es, spec := TreeHol(loc, t, None, 0).entries, EntryList(nodes, clusters, 0);
    var i :| 0 <= i < |es| && es[i] == e;
    assert spec[i] in spec;
    path := EveryPlace(t, e.node);
    PathCluster(t, None, 0, path);
    ChainBase(e);
    NoChain();
    assert [] + Links(t, path, 0) == Links(t, path, 0);
  }

  lemma {:induction false} NoChain()
    ensures Chain(None) == []
  {
  }

  lemma {:induction false} ChainBase(e: Entry)
    ensures BaseGroup(e) == var links := Chain(e.cluster); if links == [] then e.group else links[0].group
  {
    if e.cluster.Some? { OutermostFirst(e.cluster.value); }
  }

  lemma {:induction false} OutermostFirst(c: Cluster)
    ensures Chain(Some(c)) != [] && Chain(Some(c))[0].group == ClusterBase(c).group
    decreases c
  {
    if c.parent.Some? { OutermostFirst(c.parent.value); }
  }

  /** Entries below children of different groups come in the order of those groups, 0 and upwards first and negative
      groups last, whatever else they are. */
  lemma {:induction false} GroupsFirst(loc: Locale, t: Argp, e: Entry, f: Entry, pe: seq<nat>, pf: seq<nat>)
    requires NoLeadingAlias(Nodes(t)) && ValidEntry(e) && ValidEntry(f)
    requires IsPath(t, pe) && IsPath(t, pf) && Chain(e.cluster) == Links(t, pe, 0) != [] && Chain(f.cluster) == Links(t, pf, 0) != []
    requires var g, h := Links(t, pe, 0)[0].group, Links(t, pf, 0)[0].group; (0 <= g < h) || (g >= 0 > h) || (g < h < 0)
    ensures EntryCmp(loc, TreeHol(loc, t, None, 0).shorts, e, f) < 0
  {
    hide TreeHol, Links, NoLeadingAlias;
    ChainBase(e);
    ChainBase(f);
  }

  // ----- the group of an entry within its argp -----

  /** An option that starts a group of its own: a title, with neither name nor key. */
  predicate IsTitle(o: ArgpOption) { !o.alias && o.group == 0 && o.name.None? && o.key == 0 }

  /** The last option up to i that sets its group, if any. */
  function LastSet(opts: seq<ArgpOption>, i: nat): Option<nat>
    requires i < |opts|
  {
    if !opts[i].alias && opts[i].group != 0 then Some(i) else if i == 0 then None else LastSet(opts, i - 1)
  }

  /** The titles from option a up to, and without, option b. */
  function Titles(opts: seq<ArgpOption>, a: nat, b: nat): nat
    requires a <= b <= |opts|
  {
    if a == b then 0 else Titles(opts, a, b - 1) + if IsTitle(opts[b - 1]) then 1 else 0
  }

  /** The group in force at option i: the one last set, or 0, and one more for every title since. */
  function GroupAt(opts: seq<ArgpOption>, i: nat): int
    requires i < |opts|
  {
    match LastSet(opts, i)
    case None => Titles(opts, 0, i + 1)
    case Some(q) => if q <= i then opts[q].group + Titles(opts, q + 1, i + 1) else 0
  }

  lemma {:induction false} LastSetBelow(opts: seq<ArgpOption>, i: nat)
    requires i < |opts|
    ensures LastSet(opts, i).Some? ==> LastSet(opts, i).value <= i && opts[LastSet(opts, i).value].group != 0
  {
    if i > 0 { LastSetBelow(opts, i - 1); }
  }

  lemma {:induction false} GroupNext(opts: seq<ArgpOption>, i: nat)
    requires 0 < i < |opts|
    ensures GroupAt(opts, i) == if opts[i].alias then GroupAt(opts, i - 1) else EntryGroup(GroupAt(opts, i - 1), opts[i])
  {
    LastSetBelow(opts, i - 1);
  }

  lemma {:induction false} GroupFirst(opts: seq<ArgpOption>)
    requires opts != [] && !opts[0].alias
    ensures GroupAt(opts, 0) == EntryGroup(0, opts[0])
  {
    assert Titles(opts, 0, 0) == 0 && Titles(opts, 1, 1) == 0;
  }

  lemma {:induction false} GroupOfFront(opts: seq<ArgpOption>, n: nat, i: nat)
    requires i < n <= |opts|
    ensures GroupAt(opts[..n], i) == GroupAt(opts, i)
  {
    LastSetFront(opts, n, i);
    LastSetBelow(opts, i);
    TitlesFront(opts, n, 0, i + 1);
    if LastSet(opts, i).Some? { TitlesFront(opts, n, LastSet(opts, i).value + 1, i + 1); }
  }

  lemma {:induction false} LastSetFront(opts: seq<ArgpOption>, n: nat, i: nat)
    requires i < n <= |opts|
    ensures LastSet(opts[..n], i) == LastSet(opts, i)
  {
    if i > 0 { LastSetFront(opts, n, i - 1); }
  }

  lemma {:induction false} TitlesFront(opts: seq<ArgpOption>, n: nat, a: nat, b: nat)
    requires a <= b <= n <= |opts|
    ensures Titles(opts[..n], a, b) == Titles(opts, a, b)
  {
    if a < b { TitlesFront(opts, n, a, b - 1); }
  }

  /** The entries of an argp: the group of each is the one in force at its options. */
  ghost predicate GroupsRight(opts: seq<ArgpOption>, es: seq<Entry>) {
    forall q {:trigger es[q]} :: 0 <= q < |es| ==>
      var i := |Flat(es[..q])|;
      es[q].opts != [] && i < |opts| && es[q].opts[0] == opts[i] && es[q].group == GroupAt(opts, i)
  }

  lemma {:induction false} NodeGroups(opts: seq<ArgpOption>, node: nat, cluster: Option<Cluster>)
    requires opts != [] ==> !opts[0].alias
    ensures GroupsRight(opts, NodeEntries(opts, node, cluster))
    ensures var es := NodeEntries(opts, node, cluster); (opts != [] <==> es != []) && (opts != [] ==> es[|es| - 1].group == GroupAt(opts, |opts| - 1))
  {
    hide NodeEntries, Flat, GroupAt, EntryGroup;
    if opts == [] {
      NoNodeEntries(node, cluster);
    } else {
      var n := |opts| - 1;
      var front, o := opts[..n], opts[n];
      assert opts == front + [o];
      NodeGroups(front, node, cluster);
      NodeEntriesSnoc(front, o, node, cluster);
      NodeEntriesFlat(front, node, cluster);
      var fs, es := NodeEntries(front, node, cluster), NodeEntries(opts, node, cluster);
      if n > 0 {
        GroupNext(opts, n);
        GroupOfFront(opts, n, n - 1);
      } else {
        GroupFirst(opts);
      }
      if o.alias && fs != [] {
        GrowLast(opts, fs, es, n);
      } else {
        AddLast(opts, fs, es, n);
      }
    }
  }

  /** The entries of the list of a tree: the group of each is the one in force at its option in its argp. */
  lemma {:induction false} EntryGroupInForce(loc: Locale, t: Argp, e: Entry) returns (i: nat)
    requires NoLeadingAlias(Nodes(t)) && e in TreeHol(loc, t, None, 0).entries
    ensures e.node < |Nodes(t)| && e.opts != []
    ensures var opts := Opts(Nodes(t)[e.node]); i < |opts| && opts[i] == e.opts[0] && e.group == GroupAt(opts, i)
  {
    hide EntryList, TreeHol, NodeClusters, Nodes, NodeEntries, GroupAt, Flat, Represents, FindsFirsts, AsciiShorts, TaggedOpts;
    var nodes, clusters := Nodes(t), NodeClusters(t, None, 0);
    TreeHolFinds(loc, t);
    EntryComesFrom(nodes, clusters);
    var es, spec := TreeHol(loc, t, None, 0).entries, EntryList(nodes, clusters, 0);
    var k :| 0 <= k < |es| && es[k] == e;
    assert spec[k] in spec;
    var own := NodeEntries(Opts(nodes[e.node]), e.node, e.cluster);
    NodeGroups(Opts(nodes[e.node]), e.node, e.cluster);
    var q :| 0 <= q < |own| && own[q] == spec[k];
    i := |Flat(own[..q])|;
  }

  lemma {:induction false} GrowLast(opts: seq<ArgpOption>, fs: seq<Entry>, es: seq<Entry>, n: nat)
    requires n < |opts| && GroupsRight(opts[..n], fs) && fs != []
    requires var last := fs[|fs| - 1]; es == fs[|fs| - 1 := last.(opts := last.opts + [opts[n]])]
    ensures GroupsRight(opts, es)
  {
    hide Flat, GroupAt;
    forall q | 0 <= q < |es| ensures var i := |Flat(es[..q])|; es[q].opts != [] && i < |opts| && es[q].opts[0] == opts[i] && es[q].group == GroupAt(opts, i) {
      assert es[..q] == fs[..q] && fs[q].opts != [];
      GroupOfFront(opts, n, |Flat(fs[..q])|);
    }
  }

  lemma {:induction false} AddLast(opts: seq<ArgpOption>, fs: seq<Entry>, es: seq<Entry>, n: nat)
    requires n < |opts| && GroupsRight(opts[..n], fs) && |Flat(fs)| == n
    requires |es| == |fs| + 1 && es[..|fs|] == fs && es[|fs|].opts == [opts[n]] && es[|fs|].group == GroupAt(opts, n)
    ensures GroupsRight(opts, es)
  {
    hide Flat, GroupAt;
    forall q | 0 <= q < |es| ensures var i := |Flat(es[..q])|; es[q].opts != [] && i < |opts| && es[q].opts[0] == opts[i] && es[q].group == GroupAt(opts, i) {
      if q < |fs| {
        assert es[..q] == fs[..q] && es[q] == fs[q];
        GroupOfFront(opts, n, |Flat(fs[..q])|);
      }
    }
  }
}
