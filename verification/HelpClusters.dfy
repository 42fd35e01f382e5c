/** The clusters of a tree of argps, and what its sorted listing therefore looks like. */
module HelpClusters {
  import opened Options
  import opened ArgpTree
  import opened HelpEntries
  import opened HelpOrder
  import opened HelpBlocks
  import opened HelpHeaders
  import opened HelpList
  import opened HelpListBuild

  ghost function ClustersIn(cs: seq<Option<Cluster>>): set<Cluster> { set o | o in cs && o.Some? :: o.value }

  ghost function ClustersOf(t: Argp): set<Cluster> { ClustersIn(NodeClusters(t, None, 0)) }

  /** A child that has neither group nor header, and so shares the cluster of its parent, has no children itself. */
  predicate MergedAreLeaves(cs: seq<ArgpChild>) {
    forall c :: c in cs ==> c.group != 0 || c.header.Some? || c.argp.children == []
  }

  predicate TameTree(t: Argp) { forall a :: a in Nodes(t) ==> MergedAreLeaves(a.children) }

  predicate ValidOption(cluster: Option<Cluster>) { cluster.Some? ==> ValidCluster(cluster.value) }

  // ----- the clusters of a tree are closed under taking parents -----

  predicate Closed(cs: seq<Option<Cluster>>, cluster: Option<Cluster>) {
    forall o :: o in cs && o.Some? ==> ValidCluster(o.value) && (o == cluster || o.value.parent == cluster || o.value.parent in cs)
  }

  lemma {:induction false} ChildValid(c: ArgpChild, index: nat, cluster: Option<Cluster>, id: nat)
    requires ValidOption(cluster)
    ensures ValidOption(ChildCluster(c, index, cluster, id))
  {
  }

  lemma {:induction false} TreeClosed(t: Argp, cluster: Option<Cluster>, node: nat)
    requires ValidOption(cluster)
    ensures Closed(NodeClusters(t, cluster, node), cluster)
    decreases t, 1
  {
    hide ValidCluster, NodeClustersOf;
    ChildrenClosed(t.children, cluster, node + 1);
    var all, rest := NodeClusters(t, cluster, node), NodeClustersOf(t.children, cluster, node + 1);
    assert all == [cluster] + rest;
    assert forall o :: o in all <==> o == cluster || o in rest;
  }

  lemma {:induction false} ChildrenClosed(cs: seq<ArgpChild>, cluster: Option<Cluster>, node: nat)
    requires ValidOption(cluster)
    ensures Closed(NodeClustersOf(cs, cluster, node), cluster)
    decreases cs, 0
  {
    hide ValidCluster, NodeClusters;
    if cs != [] {
      var last := |cs| - 1;
      assert cs decreases to cs[last];
      var id := node + |NodesOf(cs[..last])|;
      var cl := ChildCluster(cs[last], last, cluster, id);
      ChildrenClosed(cs[..last], cluster, node);
      ChildValid(cs[last], last, cluster, id);
      TreeClosed(cs[last].argp, cl, id);
      StartsWithOwn(cs[last].argp, cl, id);
    }
  }

  lemma {:induction false} StartsWithOwn(t: Argp, cluster: Option<Cluster>, node: nat)
    ensures cluster in NodeClusters(t, cluster, node)
  {
    assert NodeClusters(t, cluster, node)[0] == cluster;
  }

  // ----- distinct siblings -----

  function Level(cluster: Option<Cluster>): nat { if cluster.Some? then cluster.value.depth + 1 else 0 }

  /** x is at or below a child of the given cluster with an index in the range. */
  predicate InSlot(x: Cluster, cluster: Option<Cluster>, lo: nat, hi: nat) {
    && ValidCluster(x) && x.depth >= Level(cluster)
    && var a := AncestorAt(x, Level(cluster)); a.parent == cluster && lo <= a.index < hi
  }

  predicate SameSlot(x: Cluster, y: Cluster) { x.parent == y.parent && x.group == y.group && x.index == y.index }

  predicate DistinctIn(cs: seq<Option<Cluster>>) {
    forall o, p :: o in cs && p in cs && o.Some? && p.Some? && SameSlot(o.value, p.value) ==> o == p
  }

  predicate Slotted(cs: seq<Option<Cluster>>, cluster: Option<Cluster>, lo: nat, hi: nat) {
    forall o :: o in cs && o.Some? ==> o == cluster || InSlot(o.value, cluster, lo, hi)
  }

  lemma {:induction false} SlotsApart(x: Cluster, y: Cluster, cluster: Option<Cluster>, mid: nat, hi: nat)
    requires InSlot(x, cluster, 0, mid) && InSlot(y, cluster, mid, hi)
    ensures !SameSlot(x, y)
  {
  }

  lemma {:induction false} OwnApart(x: Cluster, y: Cluster, cluster: Option<Cluster>, lo: nat, hi: nat)
    requires ValidCluster(x) && cluster == Some(x) && InSlot(y, cluster, lo, hi)
    ensures !SameSlot(x, y) && !SameSlot(y, x)
  {
  }

  /** Below a new cluster is below its parent, in its slot. */
  lemma {:induction false} SlotUp(x: Cluster, c: Cluster, lo: nat, hi: nat, mid: nat)
    requires ValidCluster(c) && c.index == mid && ValidCluster(x) && (x == c || InSlot(x, Some(c), lo, hi))
    ensures InSlot(x, c.parent, mid, mid + 1)
    decreases x
  {
    if x != c {
      var a := AncestorAt(x, c.depth + 1);
      AncestorChain(x, c.depth + 1, c.depth);
    }
  }

  lemma {:induction false} AncestorChain(x: Cluster, d: nat, e: nat)
    requires ValidCluster(x) && e <= d <= x.depth
    ensures AncestorAt(x, e) == AncestorAt(AncestorAt(x, d), e)
    decreases x
  {
    if x.depth > d { AncestorChain(x.parent.value, d, e); }
  }

  lemma {:induction false} TreeSlots(t: Argp, cluster: Option<Cluster>, node: nat)
    requires ValidOption(cluster) && TameTree(t)
    ensures Slotted(NodeClusters(t, cluster, node), cluster, 0, |t.children|) && DistinctIn(NodeClusters(t, cluster, node))
    decreases t, 1
  {
    hide ValidCluster, NodeClustersOf, InSlot, SameSlot, TameTree;
    RootTame(t);
    ChildrenSlots(t.children, cluster, node + 1);
    var all, rest := NodeClusters(t, cluster, node), NodeClustersOf(t.children, cluster, node + 1);
    assert all == [cluster] + rest;
    forall o, p | o in all && p in all && o.Some? && p.Some? && SameSlot(o.value, p.value) ensures o == p {
      if o == cluster && p != cluster { OwnApart(o.value, p.value, cluster, 0, |t.children|); }
      if p == cluster && o != cluster { OwnApart(p.value, o.value, cluster, 0, |t.children|); }
    }
  }

  lemma {:induction false} RootTame(t: Argp)
    requires TameTree(t)
    ensures MergedAreLeaves(t.children) && ChildrenTame(t.children)
  {
    assert Nodes(t)[0] == t && t in Nodes(t);
    forall k | 0 <= k < |t.children| ensures TameTree(t.children[k].argp) {
      ChildNodes(t.children, k);
      assert forall a :: a in NodesOf(t.children) ==> a in Nodes(t);
    }
  }

  predicate ChildrenTame(cs: seq<ArgpChild>) { forall k :: 0 <= k < |cs| ==> TameTree(cs[k].argp) }

  lemma {:induction false} ChildrenSlots(cs: seq<ArgpChild>, cluster: Option<Cluster>, node: nat)
    requires ValidOption(cluster) && MergedAreLeaves(cs) && ChildrenTame(cs)
    ensures Slotted(NodeClustersOf(cs, cluster, node), cluster, 0, |cs|) && DistinctIn(NodeClustersOf(cs, cluster, node))
    decreases cs, 0
  {
    hide ValidCluster, NodeClusters, InSlot, SameSlot, TameTree;
    if cs != [] {
      var last := |cs| - 1;
      assert cs decreases to cs[last];
      var id := node + |NodesOf(cs[..last])|;
      assert cs[last] in cs;
      ChildrenSlots(cs[..last], cluster, node);
      var front, back := NodeClustersOf(cs[..last], cluster, node), NodeClusters(cs[last].argp, ChildCluster(cs[last], last, cluster, id), id);
      LastSlot(cs[last], last, cluster, id);
      SlotsGrow(front, cluster, last);
      SlotsLow(back, cluster, last);
      SlotsJoin(front, back, cluster, last);
    }
  }

  /** The clusters of one child: distinct, and in the child's slot. */
  lemma {:induction false} LastSlot(c: ArgpChild, k: nat, cluster: Option<Cluster>, id: nat)
    requires ValidOption(cluster) && TameTree(c.argp) && (c.group != 0 || c.header.Some? || c.argp.children == [])
    ensures var back := NodeClusters(c.argp, ChildCluster(c, k, cluster, id), id);
            Slotted(back, cluster, k, k + 1) && DistinctIn(back)
    decreases c, 2
  {
    hide ValidCluster, NodeClusters, InSlot, SameSlot, TameTree;
    var cl := ChildCluster(c, k, cluster, id);
    var back := NodeClusters(c.argp, cl, id);
    ChildValid(c, k, cluster, id);
    if c.group != 0 || c.header.Some? {
      TreeSlots(c.argp, cl, id);
      TreeClosed(c.argp, cl, id);
      forall o | o in back && o.Some? ensures InSlot(o.value, cluster, k, k + 1) {
        SlotUp(o.value, cl.value, 0, |c.argp.children|, k);
      }
    } else {
      LeafClusters(c.argp, cluster, id);
    }
  }

  lemma {:induction false} LeafClusters(t: Argp, cluster: Option<Cluster>, node: nat)
    requires t.children == []
    ensures NodeClusters(t, cluster, node) == [cluster]
  {
    assert NodeClustersOf([], cluster, node + 1) == [];
  }

  lemma {:induction false} SlotsGrow(cs: seq<Option<Cluster>>, cluster: Option<Cluster>, k: nat)
    requires Slotted(cs, cluster, 0, k)
    ensures Slotted(cs, cluster, 0, k + 1)
  {
  }

  lemma {:induction false} SlotsLow(cs: seq<Option<Cluster>>, cluster: Option<Cluster>, k: nat)
    requires Slotted(cs, cluster, k, k + 1)
    ensures Slotted(cs, cluster, 0, k + 1)
  {
  }

  lemma {:induction false} SlotsJoin(front: seq<Option<Cluster>>, back: seq<Option<Cluster>>, cluster: Option<Cluster>, k: nat)
    requires ValidOption(cluster) && Slotted(front, cluster, 0, k) && Slotted(back, cluster, k, k + 1) && DistinctIn(front) && DistinctIn(back)
    ensures DistinctIn(front + back)
  {
    hide InSlot, SameSlot, ValidCluster;
    forall o, p | o in front + back && p in front + back && o.Some? && p.Some? && SameSlot(o.value, p.value) ensures o == p {
      if o in front && p in back { ApartAcross(o, p, cluster, k); }
      if p in front && o in back { SlotSymmetric(o.value, p.value); ApartAcross(p, o, cluster, k); }
    }
  }

  lemma {:induction false} SlotSymmetric(x: Cluster, y: Cluster)
    requires SameSlot(x, y)
    ensures SameSlot(y, x)
  {
  }

  lemma {:induction false} ApartAcross(o: Option<Cluster>, p: Option<Cluster>, cluster: Option<Cluster>, k: nat)
    requires ValidOption(cluster) && o.Some? && p.Some? && SameSlot(o.value, p.value)
    requires (o == cluster || InSlot(o.value, cluster, 0, k)) && (p == cluster || InSlot(p.value, cluster, k, k + 1))
    ensures o == p
  {
    hide InSlot, SameSlot, ValidCluster;
    if o == cluster {
      if p != cluster { OwnApart(o.value, p.value, cluster, k, k + 1); }
    } else if p == cluster {
      OwnApart(p.value, o.value, cluster, 0, k);
    } else {
      SlotsApart(o.value, p.value, cluster, k, k + 1);
    }
  }

  /** The clusters of every tree are a forest; no two siblings share group and index, if merged children are leaves. */
  lemma {:induction false} TreeForest(t: Argp)
    ensures ClusterForest(ClustersOf(t)) && (TameTree(t) ==> DistinctSiblings(ClustersOf(t)))
  {
    hide ValidCluster, NodeClusters, InSlot, TameTree;
    TreeClosed(t, None, 0);
    var cs, S := NodeClusters(t, None, 0), ClustersOf(t);
    forall c | c in S ensures ValidCluster(c) && (c.parent.Some? ==> c.parent.value in S) {
      assert Some(c) in cs;
    }
    if TameTree(t) {
      TreeSlots(t, None, 0);
      forall c, d | c in S && d in S && SameSlot(c, d) ensures c == d { assert Some(c) in cs && Some(d) in cs; }
    }
  }

  // ----- the sorted listing of a tree -----

  lemma {:induction false} EntryClusters(nodes: seq<Argp>, clusters: seq<Option<Cluster>>, node: nat)
    requires |nodes| == |clusters|
    ensures forall e :: e in EntryList(nodes, clusters, node) ==> e.cluster in clusters
  {
    if nodes != [] {
      var last := |nodes| - 1;
      EntryClusters(nodes[..last], clusters[..last], node);
      NodeEntryClusters(Opts(nodes[last]), node + last, clusters[last]);
      assert clusters[last] in clusters;
    }
  }

  lemma {:induction false} NodeEntryClusters(opts: seq<ArgpOption>, node: nat, cluster: Option<Cluster>)
    ensures forall e :: e in NodeEntries(opts, node, cluster) ==> e.cluster == cluster
  {
    if opts != [] { NodeEntryClusters(opts[..|opts| - 1], node, cluster); }
  }

  lemma {:induction false} ListEntries(loc: Locale, t: Argp)
    requires NoLeadingAlias(Nodes(t))
    ensures forall e :: e in TreeHol(loc, t, None, 0).entries ==> ValidEntry(e) && (e.cluster.Some? ==> e.cluster.value in ClustersOf(t))
  {
    hide NodeClusters, EntryList, ValidCluster, TreeHol, TaggedOpts, Represents, AsciiShorts, FindsFirsts, Nodes;
    TreeForest(t);
    TreeHolFinds(loc, t);
    var es, spec := TreeHol(loc, t, None, 0).entries, EntryList(Nodes(t), NodeClusters(t, None, 0), 0);
    EntryClusters(Nodes(t), NodeClusters(t, None, 0), 0);
    forall i | 0 <= i < |es| ensures ValidEntry(es[i]) && (es[i].cluster.Some? ==> es[i].cluster.value in ClustersOf(t)) {
      assert es[i] in es && spec[i] in spec;
    }
  }

  /** An entry of the list, in whatever group it has been put since. */
  predicate FromList(hol: Hol, e: Entry) { exists x :: x in hol.entries && e == x.(group := e.group) }

  /** Entries of a tree's list, as the sort leaves them. */
  ghost predicate SortedTree(loc: Locale, t: Argp, sorted: seq<Entry>) {
    var hol := TreeHol(loc, t, None, 0);
    && (forall e :: e in sorted ==> FromList(hol, e))
    && forall i, j :: 0 <= i < j < |sorted| && ValidEntry(sorted[i]) && ValidEntry(sorted[j]) ==> EntryCmp(loc, hol.shorts, sorted[i], sorted[j]) <= 0
  }

  lemma {:induction false} TreeListing(loc: Locale, t: Argp, sorted: seq<Entry>)
    requires NoLeadingAlias(Nodes(t)) && SortedTree(loc, t, sorted)
    ensures SortedListing(loc, TreeHol(loc, t, None, 0).shorts, ClustersOf(t), sorted)
  {
    hide EntryCmp, TreeHol, ClustersOf, NoLeadingAlias, Nodes, ValidCluster;
    ListEntries(loc, t);
    var hol := TreeHol(loc, t, None, 0);
    forall i | 0 <= i < |sorted| ensures ValidEntry(sorted[i]) && (sorted[i].cluster.Some? ==> sorted[i].cluster.value in ClustersOf(t)) {
      assert sorted[i] in sorted;
      var x :| x in hol.entries && sorted[i] == x.(group := sorted[i].group);
    }
  }

  /** The sorted listing of a tree in which merged children are leaves: the entries of every cluster stay together,
      and its header is printed once if the first of its own entries that prints anything prints a switch, and
      otherwise never. */
  lemma {:induction false} TreeHeaders(loc: Locale, t: Argp, sorted: seq<Entry>, c: Cluster)
    requires NoLeadingAlias(Nodes(t)) && TameTree(t) && SortedTree(loc, t, sorted) && c in ClustersOf(t)
    ensures Contiguous(sorted, c)
    ensures var str := TreeHol(loc, t, None, 0).shorts;
            multiset(Headers(loc, str, sorted, |sorted|))[c] == if c.header.Some? && c.header.value != [] && OpensWithSwitches(loc, str, sorted, c) then 1 else 0
  {
    hide TreeHol, ClustersOf, NoLeadingAlias, Nodes, SortedListing, SortedTree, ClusterForest, DistinctSiblings, NoTwin, TameTree, Headers, OpensWithSwitches;
    var str, S := TreeHol(loc, t, None, 0).shorts, ClustersOf(t);
    TreeForest(t);
    TreeListing(loc, t, sorted);
    SiblingsNoTwin(S, c);
    ClusterBlock(loc, str, S, sorted, c);
    if HasHeader(c) {
      HeaderOnce(loc, str, S, sorted, c);
    } else {
      NoHeaderNone(loc, str, sorted, c, |sorted|);
    }
  }

  lemma {:induction false} NoHeaderNone(loc: Locale, str: seq<int>, s: seq<Entry>, c: Cluster, n: nat)
    requires n <= |s| && !HasHeader(c)
    ensures multiset(Headers(loc, str, s, n))[c] == 0
  {
    hide OutcomeOf;
    if n > 0 { NoHeaderNone(loc, str, s, c, n - 1); }
  }
}
