/** Clusters in a sorted help listing: when the entries of a cluster stay together. */
module HelpBlocks {
  import opened Options
  import opened ArgpTree
  import opened HelpEntries
  import opened HelpOrder

  /** hol_cluster_is_child: c is `top` or has it among its ancestors. */
  predicate IsChild(c: Cluster, top: Cluster)
    decreases c
  {
    c == top || (c.parent.Some? && IsChild(c.parent.value, top))
  }

  predicate Under(e: Entry, top: Cluster) {
    e.cluster.Some? && IsChild(e.cluster.value, top)
  }

  /** The clusters of one listing: valid, and closed under taking parents. */
  ghost predicate ClusterForest(S: set<Cluster>) {
    forall c :: c in S ==> ValidCluster(c) && (c.parent.Some? ==> c.parent.value in S)
  }

  /** A listing over the clusters S, in the order the sort leaves it. */
  ghost predicate SortedListing(loc: Locale, str: seq<int>, S: set<Cluster>, s: seq<Entry>) {
    && (forall i :: 0 <= i < |s| ==> ValidEntry(s[i]) && (s[i].cluster.Some? ==> s[i].cluster.value in S))
    && (forall i, j :: 0 <= i < j < |s| ==> EntryCmp(loc, str, s[i], s[j]) <= 0)
  }

  /** No other cluster of the listing has the same groups and indices from the root down. */
  ghost predicate NoTwin(S: set<Cluster>, top: Cluster) {
    forall d :: d in S && PathKey(d) == PathKey(top) ==> d == top
  }

  /** No two siblings share both group and index. */
  ghost predicate DistinctSiblings(S: set<Cluster>) {
    forall c, d :: c in S && d in S && c.parent == d.parent && c.group == d.group && c.index == d.index ==> c == d
  }

  lemma {:induction false} PathMarkers(c: Cluster, k: nat)
    requires ValidCluster(c) && k <= c.depth
    ensures |PathKey(c)| == 4 * (c.depth + 1) && PathKey(c)[4 * k] == 1
    decreases c
  {
    PathKeyLength(c);
    if k < c.depth {
      PathMarkers(c.parent.value, k);
    } else if c.parent.Some? {
      PathKeyLength(c.parent.value);
    }
  }

  lemma {:induction false} PathInjective(S: set<Cluster>, c: Cluster, d: Cluster)
    requires ClusterForest(S) && DistinctSiblings(S) && c in S && d in S
    requires PathKey(c) == PathKey(d)
    ensures c == d
    decreases c
  {
    PathKeyLength(c);
    PathKeyLength(d);
    var n := |PathKey(c)| - 4;
    assert PathKey(c)[n..] == [1] + GroupKey(c.group) + [-c.index];
    assert PathKey(d)[n..] == [1] + GroupKey(d.group) + [-d.index];
    assert PathKey(c)[n + 2] == c.group && PathKey(d)[n + 2] == d.group;
    assert PathKey(c)[n + 3] == -c.index && PathKey(d)[n + 3] == -d.index;
    if c.parent.Some? {
      assert PathKey(c)[..n] == PathKey(c.parent.value) && PathKey(d)[..n] == PathKey(d.parent.value);
      PathInjective(S, c.parent.value, d.parent.value);
    }
  }

  lemma {:induction false} AncestorInForest(S: set<Cluster>, c: Cluster, d: nat)
    requires ClusterForest(S) && c in S && d <= c.depth
    ensures AncestorAt(c, d) in S && IsChild(c, AncestorAt(c, d))
    decreases c
  {
    if c.depth > d { AncestorInForest(S, c.parent.value, d); }
  }

  lemma {:induction false} ChildPath(c: Cluster, top: Cluster)
    requires ValidCluster(c) && IsChild(c, top)
    ensures PathKey(top) <= PathKey(c) && ValidCluster(top) && ClusterBase(c) == ClusterBase(top)
    decreases c
  {
    if c != top { ChildPath(c.parent.value, top); }
  }

  /** Being at or below a cluster without a twin is a property of the paths alone. */
  lemma {:induction false} ChildIsPrefix(S: set<Cluster>, c: Cluster, top: Cluster)
    requires ClusterForest(S) && c in S && top in S && NoTwin(S, top)
    ensures IsChild(c, top) <==> PathKey(top) <= PathKey(c)
  {
    PathKeyLength(c);
    PathKeyLength(top);
    if IsChild(c, top) { ChildPath(c, top); }
    if PathKey(top) <= PathKey(c) {
      AncestorInForest(S, c, top.depth);
      AncestorPath(c, top.depth);
      PathKeyLength(AncestorAt(c, top.depth));
      assert PathKey(AncestorAt(c, top.depth)) == PathKey(c)[..|PathKey(top)|] == PathKey(top);
    }
  }

  /** What lies between two sequences with a common prefix has that prefix too. */
  lemma {:induction false} Squeeze(p: seq<int>, a: seq<int>, b: seq<int>, c: seq<int>)
    requires p <= a && p <= c && LexCmp(a, b) <= 0 && LexCmp(b, c) <= 0
    ensures p <= b
  {
    if p != [] {
      assert a[0] == p[0] == c[0];
      Squeeze(p[1..], a[1..], b[1..], c[1..]);
      assert b == [b[0]] + b[1..] && p == [p[0]] + p[1..];
    }
  }

  /** The part of the key shared by all entries at or below a cluster. */
  function BlockKey(top: Cluster): seq<int> {
    GroupKey(ClusterBase(top).group) + [1] + PathKey(top)
  }

  function AfterCluster(loc: Locale, str: seq<int>, e: Entry): seq<int>
    requires ValidEntry(e)
  {
    GroupKey(e.group) + NameKey(loc, SortName(loc, e), FirstShort(loc, str, e.opts, e.so))
  }

  lemma {:induction false} KeyShape(loc: Locale, str: seq<int>, e: Entry)
    requires ValidEntry(e)
    ensures Key(loc, str, e) == (GroupKey(BaseGroup(e)) + [B(e.cluster.Some?)]) + (ClusterKey(e.cluster) + AfterCluster(loc, str, e))
  {
    hide GroupKey, ClusterKey, NameKey, SortName, FirstShort, BaseGroup;
    var a, h, c, g := GroupKey(BaseGroup(e)), [B(e.cluster.Some?)], ClusterKey(e.cluster), GroupKey(e.group);
    var n := NameKey(loc, SortName(loc, e), FirstShort(loc, str, e.opts, e.so));
    assert a + h + c + g + n == (a + h) + (c + (g + n));
  }

  lemma {:induction false} PrefixAppend(a: seq<int>, b: seq<int>, x: seq<int>, y: seq<int>)
    requires |a| == |b|
    ensures a + x <= b + y <==> a == b && x <= y
  {
    assert (a + x)[..|a|] == a && (a + x)[|a|..] == x && (b + y)[..|b|] == b && (b + y)[|b|..] == y;
    if a + x <= b + y {
      assert forall i :: 0 <= i < |a| ==> a[i] == (a + x)[i] == (b + y)[i] == b[i];
      assert forall i :: 0 <= i < |x| ==> x[i] == (a + x)[|a| + i] == (b + y)[|a| + i] == y[i];
    }
  }

  /** The end marker of a path stops a longer path from matching what follows it. */
  lemma {:induction false} PathPrefix(c: Cluster, top: Cluster, rest: seq<int>)
    requires ValidCluster(c) && ValidCluster(top)
    ensures PathKey(top) <= PathKey(c) + [0] + rest <==> PathKey(top) <= PathKey(c)
  {
    PathKeyLength(c);
    PathKeyLength(top);
    var key := PathKey(c) + [0] + rest;
    if c.depth < top.depth {
      PathMarkers(top, c.depth + 1);
      assert key[|PathKey(c)|] == 0;
    } else {
      assert key[..|PathKey(top)|] == PathKey(c)[..|PathKey(top)|];
    }
  }

  lemma {:induction false} UnderIsPrefix(loc: Locale, str: seq<int>, S: set<Cluster>, e: Entry, top: Cluster)
    requires ClusterForest(S) && top in S && NoTwin(S, top)
    requires ValidEntry(e) && (e.cluster.Some? ==> e.cluster.value in S)
    ensures Under(e, top) <==> BlockKey(top) <= Key(loc, str, e)
  {
    KeyShape(loc, str, e);
    var rest := AfterCluster(loc, str, e);
    var a, b := GroupKey(ClusterBase(top).group) + [1], GroupKey(BaseGroup(e)) + [B(e.cluster.Some?)];
    assert BlockKey(top) == a + PathKey(top);
    PrefixAppend(a, b, PathKey(top), ClusterKey(e.cluster) + rest);
    assert a[2] == 1 && b[2] == B(e.cluster.Some?);
    if e.cluster.Some? {
      var c := e.cluster.value;
      ChildIsPrefix(S, c, top);
      PathPrefix(c, top, rest);
      if IsChild(c, top) { ChildPath(c, top); }
    }
  }

  ghost predicate Contiguous(s: seq<Entry>, top: Cluster) {
    forall i, j, k :: 0 <= i < j < k < |s| && Under(s[i], top) && Under(s[k], top) ==> Under(s[j], top)
  }

  /** In a sorted listing the entries at or below a cluster without a twin form one block. */
  lemma {:induction false} ClusterBlock(loc: Locale, str: seq<int>, S: set<Cluster>, s: seq<Entry>, top: Cluster)
    requires ClusterForest(S) && top in S && NoTwin(S, top) && SortedListing(loc, str, S, s)
    ensures Contiguous(s, top)
  {
    hide EntryCmp, Key, PathKey, LexCmp, IsChild, NoTwin, ClusterForest, BlockKey;
    forall i, j, k | 0 <= i < j < k < |s| && Under(s[i], top) && Under(s[k], top)
      ensures Under(s[j], top)
    {
      UnderIsPrefix(loc, str, S, s[i], top);
      UnderIsPrefix(loc, str, S, s[j], top);
      UnderIsPrefix(loc, str, S, s[k], top);
      EntryCmpIsKeyOrder(loc, str, s[i], s[j]);
      EntryCmpIsKeyOrder(loc, str, s[j], s[k]);
      Squeeze(BlockKey(top), Key(loc, str, s[i]), Key(loc, str, s[j]), Key(loc, str, s[k]));
    }
  }

  /** An entry properly below a cluster sorts after every direct entry of it. */
  lemma {:induction false} ProperlyBelowLater(loc: Locale, str: seq<int>, e: Entry, f: Entry, top: Cluster)
    requires ValidEntry(e) && ValidEntry(f) && Under(e, top) && f.cluster == Some(top)
    ensures e.cluster != Some(top) ==> EntryCmp(loc, str, e, f) > 0
  {
    if e.cluster == Some(top) { return; }
    hide EntryCmp, Key, AfterCluster, PathKey, ValidCluster, IsChild, LexCmp, ClusterKey, GroupKey;
    var c := e.cluster.value;
    ChildPath(c, top);
    ProperChildDeeper(c, top);
    KeyShape(loc, str, e);
    KeyShape(loc, str, f);
    EntryCmpIsKeyOrder(loc, str, e, f);
    var h := GroupKey(ClusterBase(top).group) + [1];
    GoesDeeper(c, top, AfterCluster(loc, str, e));
    EndsHere(top, AfterCluster(loc, str, f));
    MarkerDecides(h, PathKey(top), ClusterKey(e.cluster) + AfterCluster(loc, str, e), ClusterKey(f.cluster) + AfterCluster(loc, str, f));
  }

  lemma {:induction false} GoesDeeper(c: Cluster, top: Cluster, rest: seq<int>)
    requires ValidCluster(c) && ValidCluster(top) && PathKey(top) <= PathKey(c) && c.depth > top.depth
    ensures var x := ClusterKey(Some(c)) + rest; PathKey(top) <= x && |PathKey(top)| < |x| && x[|PathKey(top)|] == 1
  {
    hide PathKey, ValidCluster;
    PathMarkers(top, 0);
    PathMarkers(c, top.depth + 1);
  }

  lemma {:induction false} EndsHere(top: Cluster, rest: seq<int>)
    ensures var y := ClusterKey(Some(top)) + rest; PathKey(top) <= y && |PathKey(top)| < |y| && y[|PathKey(top)|] == 0
  {
    hide PathKey;
  }

  lemma {:induction false} MarkerDecides(h: seq<int>, p: seq<int>, x: seq<int>, y: seq<int>)
    requires p <= x && p <= y && |p| < |x| && |p| < |y| && x[|p|] > y[|p|]
    ensures LexCmp(h + x, h + y) == 1
  {
    LexAppend(h, h, x, y);
    assert x == p + x[|p|..] && y == p + y[|p|..];
    LexAppend(p, p, x[|p|..], y[|p|..]);
  }

  lemma {:induction false} ProperChildDeeper(c: Cluster, top: Cluster)
    requires ValidCluster(c) && IsChild(c, top) && c != top
    ensures c.depth > top.depth
    decreases c
  {
    if c.parent.value != top { ProperChildDeeper(c.parent.value, top); }
  }

  /** The direct entries of a cluster come before those of its sub-clusters. */
  lemma {:induction false} DirectEntriesFirst(loc: Locale, str: seq<int>, S: set<Cluster>, s: seq<Entry>, top: Cluster)
    requires SortedListing(loc, str, S, s)
    ensures forall i, j :: 0 <= i < j < |s| && Under(s[i], top) && s[j].cluster == Some(top) ==> s[i].cluster == Some(top)
  {
    forall i, j | 0 <= i < j < |s| && Under(s[i], top) && s[j].cluster == Some(top)
      ensures s[i].cluster == Some(top)
    {
      ProperlyBelowLater(loc, str, s[i], s[j], top);
    }
  }

  /** Two clusters with the same path put three entries in sorted order that interleave. */
  lemma {:induction false} TwinsInterleave(loc: Locale, str: seq<int>, S: set<Cluster>, top: Cluster, d: Cluster)
    returns (s: seq<Entry>)
    requires ClusterForest(S) && top in S && d in S && PathKey(d) == PathKey(top) && d != top
    ensures SortedListing(loc, str, S, s) && !Contiguous(s, top)
  {
    var o := ArgpOption(None, 0, None, None, 0, false, false, false, false, false);
    var x, y := Entry([o], 0, 0, Some(top), 0), Entry([o], 0, 0, Some(d), 0);
    s := [x, y, x];
    BaseFromPath(d);
    BaseFromPath(top);
    assert Key(loc, str, x) == Key(loc, str, y) by {
      KeyShape(loc, str, x);
      KeyShape(loc, str, y);
    }
    EntryCmpTotalOrder(loc, str, x, y, x);
    EntryCmpTotalOrder(loc, str, y, x, x);
    EntryCmpTotalOrder(loc, str, x, x, x);
    PathKeyLength(d);
    PathKeyLength(top);
    assert !IsChild(d, top) by { if IsChild(d, top) { ProperChildDeeper(d, top); } }
    assert Under(s[0], top) && Under(s[2], top) && !Under(s[1], top);
  }

  /** A cluster's entries stay together in every sorted listing exactly when it has no twin. */
  lemma {:induction false} BlockIffNoTwin(loc: Locale, str: seq<int>, S: set<Cluster>, top: Cluster)
    requires ClusterForest(S) && top in S
    ensures (forall s :: SortedListing(loc, str, S, s) ==> Contiguous(s, top)) <==> NoTwin(S, top)
  {
    if NoTwin(S, top) {
      forall s | SortedListing(loc, str, S, s) ensures Contiguous(s, top) { ClusterBlock(loc, str, S, s, top); }
    } else {
      var d :| d in S && PathKey(d) == PathKey(top) && d != top;
      var s := TwinsInterleave(loc, str, S, top, d);
    }
  }

  lemma {:induction false} BaseFromPath(c: Cluster)
    requires ValidCluster(c)
    ensures |PathKey(c)| >= 4 && PathKey(c)[2] == ClusterBase(c).group
    decreases c
  {
    if c.parent.Some? { BaseFromPath(c.parent.value); }
  }
}
