/** What hol_help prints for the sorted entries: switches, headers of option groups, and the headers of clusters. */
module HelpHeaders {
  import opened Options
  import opened ArgpTree
  import opened HelpEntries
  import opened HelpOrder
  import opened HelpBlocks

  /** An entry prints its switches; or, with none, the header of an option group; or nothing at all. */
  datatype Outcome = Switches | GroupHeader | Silent

  function OutcomeOf(loc: Locale, str: seq<int>, e: Entry): Outcome {
    if FirstShort(loc, str, e.opts, e.so) != 0 || FirstLong(e.opts).Some? then Switches
    else if e.opts != [] && !OptionIsShort(loc, e.opts[0]) && e.opts[0].name.None? then GroupHeader
    else Silent
  }

  predicate HasHeader(c: Cluster) { c.header.Some? && c.header.value != [] }

  /** The header of the entry's cluster is due, `prev` being the entry printed before: that one was neither in the
      cluster nor in one below it. */
  predicate Due(e: Entry, prev: Option<Entry>) {
    e.cluster.Some? && HasHeader(e.cluster.value) && (prev.None? || !Under(prev.value, e.cluster.value))
  }

  // ----- comma, hol_entry_help and hol_help -----

  /** comma: before the first switch of an entry, the header of its cluster if it is due. */
  method Comma(e: Entry, prev: Option<Entry>, first: bool, header: Option<Cluster>) returns (r: Option<Cluster>)
    ensures r == if first && Due(e, prev) then e.cluster else header
  {
    r := header;
    if first {
      if e.cluster.Some? && e.cluster.value.header.Some? && e.cluster.value.header.value != [] {
        var below := false;
        if prev.Some? { below := IsBelow(prev.value.cluster, e.cluster.value); }
        if !below { r := e.cluster; }
      }
    }
  }

  /** hol_cluster_is_child: up the parents, until the cluster or the root is met. */
  method IsBelow(c: Option<Cluster>, top: Cluster) returns (r: bool)
    ensures r <==> c.Some? && IsChild(c.value, top)
  {
    var cl := c;
    while cl.Some? && cl.value != top
      invariant c.Some? && IsChild(c.value, top) <==> cl.Some? && IsChild(cl.value, top)
      decreases cl
    {
      cl := cl.value.parent;
    }
    r := cl.Some?;
  }

  /** hol_entry_help: the switches of one entry, with the header printed before them. */
  method EntryHelp(loc: Locale, str: seq<int>, e: Entry, prev: Option<Entry>) returns (outcome: Outcome, header: Option<Cluster>)
    requires e.opts != []
    ensures outcome == OutcomeOf(loc, str, e)
    ensures header == if outcome == Switches && Due(e, prev) then e.cluster else None
  {
    hide Due;
    var first, so := true, e.so;
    header := None;
    for k := 0 to |e.opts|
      invariant first ==> header == None && FirstShort(loc, str, e.opts, e.so) == FirstShort(loc, str, e.opts[k..], so)
      invariant !first ==> header == (if Due(e, prev) then e.cluster else None) && FirstShort(loc, str, e.opts, e.so) != 0
    {
      var opt := e.opts[k];
      ShortStep(loc, str, e.opts, k, so);
      if OptionIsShort(loc, opt) && CharAt(str, so) == opt.key {
        if !opt.hidden {
          header := Comma(e, prev, first, header);
          first := false;
        }
        so := so + 1;
      }
    }
    ghost var shorts := !first;
    for k := 0 to |e.opts|
      invariant first ==> header == None && !shorts && FirstLong(e.opts) == FirstLong(e.opts[k..])
      invariant !first ==> header == (if Due(e, prev) then e.cluster else None) && (shorts || FirstLong(e.opts).Some?)
    {
      LongStep(e.opts, k);
      if e.opts[k].name.Some? && !e.opts[k].hidden {
        header := Comma(e, prev, first, header);
        first := false;
      }
    }
    outcome := if !first then Switches else if !OptionIsShort(loc, e.opts[0]) && e.opts[0].name.None? then GroupHeader else Silent;
  }

  lemma {:induction false} ShortStep(loc: Locale, str: seq<int>, opts: seq<ArgpOption>, k: nat, so: nat)
    requires k < |opts|
    ensures FirstShort(loc, str, opts[k..], so) ==
              if OptionIsShort(loc, opts[k]) && CharAt(str, so) == opts[k].key then
                (if opts[k].hidden then FirstShort(loc, str, opts[k + 1..], so + 1) else opts[k].key)
              else FirstShort(loc, str, opts[k + 1..], so)
    ensures FirstShort(loc, str, opts[|opts|..], so) == 0
  {
    assert opts[k..][1..] == opts[k + 1..];
  }

  lemma {:induction false} LongStep(opts: seq<ArgpOption>, k: nat)
    requires k < |opts|
    ensures FirstLong(opts[k..]) == if opts[k].name.Some? && !opts[k].hidden then opts[k].name else FirstLong(opts[k + 1..])
    ensures FirstLong(opts[|opts|..]) == None
  {
    assert opts[k..][1..] == opts[k + 1..];
  }

  /** The last of the first n entries that printed anything. */
  function PrevEntry(loc: Locale, str: seq<int>, s: seq<Entry>, n: nat): (r: Option<Entry>)
    requires n <= |s|
  {
    if n == 0 then None else if OutcomeOf(loc, str, s[n - 1]) != Silent then Some(s[n - 1]) else PrevEntry(loc, str, s, n - 1)
  }

  /** A cluster header is printed before entry i. */
  predicate HeaderAt(loc: Locale, str: seq<int>, s: seq<Entry>, i: nat)
    requires i < |s|
  {
    OutcomeOf(loc, str, s[i]) == Switches && Due(s[i], PrevEntry(loc, str, s, i))
  }

  /** The clusters whose headers the first n entries print, in order. */
  function Headers(loc: Locale, str: seq<int>, s: seq<Entry>, n: nat): seq<Cluster>
    requires n <= |s|
  {
    if n == 0 then [] else
    Headers(loc, str, s, n - 1) + if HeaderAt(loc, str, s, n - 1) then [s[n - 1].cluster.value] else []
  }

  /** hol_help: all entries in turn, remembering the last one that printed anything. */
  method HolHelp(loc: Locale, str: seq<int>, s: seq<Entry>) returns (headers: seq<Cluster>)
    requires forall e :: e in s ==> e.opts != []
    ensures headers == Headers(loc, str, s, |s|)
  {
    hide OutcomeOf, Due;
    var prev: Option<Entry> := None;
    headers := [];
    for i := 0 to |s|
      invariant prev == PrevEntry(loc, str, s, i) && headers == Headers(loc, str, s, i)
    {
      var outcome, header := EntryHelp(loc, str, s[i], prev);
      DueHasCluster(s[i], prev);
      if header.Some? { headers := headers + [header.value]; }
      if outcome != Silent { prev := Some(s[i]); }
    }
  }

  lemma {:induction false} DueHasCluster(e: Entry, prev: Option<Entry>)
    ensures Due(e, prev) ==> e.cluster.Some?
  {
  }

  // ----- how often a header is printed -----

  /** Entry i is the first one directly in c that prints anything. */
  predicate OpensCluster(loc: Locale, str: seq<int>, s: seq<Entry>, c: Cluster, i: nat) {
    && i < |s| && s[i].cluster == Some(c) && OutcomeOf(loc, str, s[i]) != Silent
    && forall j :: 0 <= j < i && s[j].cluster == Some(c) ==> OutcomeOf(loc, str, s[j]) == Silent
  }

  /** The first entry directly in c that prints anything prints a switch, and not the header of an option group. */
  ghost predicate OpensWithSwitches(loc: Locale, str: seq<int>, s: seq<Entry>, c: Cluster) {
    exists i: nat :: OpensCluster(loc, str, s, c, i) && OutcomeOf(loc, str, s[i]) == Switches
  }

  lemma {:induction false} PrevIs(loc: Locale, str: seq<int>, s: seq<Entry>, n: nat) returns (k: nat)
    requires n <= |s| && PrevEntry(loc, str, s, n).Some?
    ensures k < n && PrevEntry(loc, str, s, n) == Some(s[k]) && OutcomeOf(loc, str, s[k]) != Silent
    ensures forall j :: k < j < n ==> OutcomeOf(loc, str, s[j]) == Silent
  {
    hide OutcomeOf;
    if OutcomeOf(loc, str, s[n - 1]) != Silent { k := n - 1; } else { k := PrevIs(loc, str, s, n - 1); }
  }

  lemma {:induction false} NoPrev(loc: Locale, str: seq<int>, s: seq<Entry>, n: nat)
    requires n <= |s| && PrevEntry(loc, str, s, n).None?
    ensures forall j :: 0 <= j < n ==> OutcomeOf(loc, str, s[j]) == Silent
  {
    hide OutcomeOf;
    if n > 0 { NoPrev(loc, str, s, n - 1); }
  }

  lemma {:induction false} SiblingsNoTwin(S: set<Cluster>, c: Cluster)
    requires ClusterForest(S) && DistinctSiblings(S) && c in S
    ensures NoTwin(S, c)
  {
    forall d | d in S && PathKey(d) == PathKey(c) ensures d == c { PathInjective(S, d, c); }
  }

  lemma {:induction false} Outside(s: seq<Entry>, c: Cluster, j: nat, k: nat, i: nat)
    requires Contiguous(s, c) && j < i < |s| && k < i && Under(s[j], c) && Under(s[i], c) && !Under(s[k], c)
    ensures k < j
  {
    hide IsChild;
  }

  /** A header is only printed where its cluster opens. */
  lemma {:induction false} HeaderOpens(loc: Locale, str: seq<int>, S: set<Cluster>, s: seq<Entry>, c: Cluster, i: nat)
    requires ClusterForest(S) && NoTwin(S, c) && c in S && SortedListing(loc, str, S, s)
    requires i < |s| && s[i].cluster == Some(c) && HeaderAt(loc, str, s, i)
    ensures OpensCluster(loc, str, s, c, i)
  {
    hide SortedListing, ClusterForest, NoTwin, OutcomeOf;
    ClusterBlock(loc, str, S, s, c);
    forall j | 0 <= j < i && s[j].cluster == Some(c) ensures OutcomeOf(loc, str, s[j]) == Silent {
      if PrevEntry(loc, str, s, i).None? {
        NoPrev(loc, str, s, i);
      } else {
        var k := PrevIs(loc, str, s, i);
        Outside(s, c, j, k, i);
      }
    }
  }

  /** Where a cluster with a header opens with a switch, the header is printed. */
  lemma {:induction false} OpeningHasHeader(loc: Locale, str: seq<int>, S: set<Cluster>, s: seq<Entry>, c: Cluster, i: nat)
    requires SortedListing(loc, str, S, s) && HasHeader(c)
    requires OpensCluster(loc, str, s, c, i) && OutcomeOf(loc, str, s[i]) == Switches
    ensures HeaderAt(loc, str, s, i)
  {
    hide SortedListing, OutcomeOf, IsChild;
    DirectEntriesFirst(loc, str, S, s, c);
    var prev := PrevEntry(loc, str, s, i);
    if prev.Some? {
      var k := PrevIs(loc, str, s, i);
      assert s[k].cluster != Some(c);
      assert !Under(s[k], c);
    }
  }

  lemma {:induction false} CountHeaders(loc: Locale, str: seq<int>, s: seq<Entry>, c: Cluster, at: nat, n: nat)
    requires n <= |s| && forall j :: 0 <= j < n && j != at && HeaderAt(loc, str, s, j) ==> s[j].cluster != Some(c)
    ensures multiset(Headers(loc, str, s, n))[c]
         == if at < n && HeaderAt(loc, str, s, at) && s[at].cluster == Some(c) then 1 else 0
  {
    hide HeaderAt, Headers;
    if n == 0 {
      NoHeaders(loc, str, s);
    } else {
      CountHeaders(loc, str, s, c, at, n - 1);
      OneMoreHeader(loc, str, s, c, n - 1);
    }
  }

  lemma {:induction false} NoHeaders(loc: Locale, str: seq<int>, s: seq<Entry>)
    ensures Headers(loc, str, s, 0) == []
  {
  }

  lemma {:induction false} OneMoreHeader(loc: Locale, str: seq<int>, s: seq<Entry>, c: Cluster, n: nat)
    requires n < |s|
    ensures multiset(Headers(loc, str, s, n + 1))[c]
         == multiset(Headers(loc, str, s, n))[c] + if HeaderAt(loc, str, s, n) && s[n].cluster == Some(c) then 1 else 0
  {
    hide HeaderAt;
    HeaderHasCluster(loc, str, s, n);
    var front := Headers(loc, str, s, n);
    if HeaderAt(loc, str, s, n) {
      assert multiset(front + [s[n].cluster.value]) == multiset(front) + multiset{s[n].cluster.value};
    } else {
      assert front + [] == front;
    }
  }

  lemma {:induction false} HeaderHasCluster(loc: Locale, str: seq<int>, s: seq<Entry>, i: nat)
    requires i < |s|
    ensures HeaderAt(loc, str, s, i) ==> s[i].cluster.Some?
  {
    hide OutcomeOf;
  }

  lemma {:induction false} OneOpening(loc: Locale, str: seq<int>, s: seq<Entry>, c: Cluster, i: nat, j: nat)
    requires OpensCluster(loc, str, s, c, i) && OpensCluster(loc, str, s, c, j)
    ensures i == j
  {
    hide OutcomeOf;
  }

  /** Over a sorted listing with distinct siblings, the header of a cluster is printed once if the first entry directly
      in the cluster that prints anything prints a switch, and otherwise never. */
  lemma {:induction false} HeaderOnce(loc: Locale, str: seq<int>, S: set<Cluster>, s: seq<Entry>, c: Cluster)
    requires ClusterForest(S) && DistinctSiblings(S) && c in S && SortedListing(loc, str, S, s)
    requires c.header.Some? && c.header.value != []
    ensures multiset(Headers(loc, str, s, |s|))[c] == if OpensWithSwitches(loc, str, s, c) then 1 else 0
  {
    hide SortedListing, ClusterForest, DistinctSiblings, OutcomeOf, OpensCluster, Due, Headers, NoTwin;
    SiblingsNoTwin(S, c);
    forall j | 0 <= j < |s| && s[j].cluster == Some(c) && HeaderAt(loc, str, s, j) ensures OpensCluster(loc, str, s, c, j) {
      HeaderOpens(loc, str, S, s, c, j);
    }
    if i :| 0 <= i < |s| && OpensCluster(loc, str, s, c, i) && OutcomeOf(loc, str, s[i]) == Switches {
      OpeningHasHeader(loc, str, S, s, c, i);
      OpensDirectly(loc, str, s, c, i);
      forall j | 0 <= j < |s| && j != i && HeaderAt(loc, str, s, j) ensures s[j].cluster != Some(c) {
        if s[j].cluster == Some(c) { OneOpening(loc, str, s, c, i, j); }
      }
      CountHeaders(loc, str, s, c, i, |s|);
    } else {
      OpensInside(loc, str, s, c);
      forall j: nat | j < |s| && HeaderAt(loc, str, s, j) ensures s[j].cluster != Some(c) {
      }
      CountHeaders(loc, str, s, c, |s|, |s|);
    }
  }

  lemma {:induction false} OpensDirectly(loc: Locale, str: seq<int>, s: seq<Entry>, c: Cluster, i: nat)
    requires OpensCluster(loc, str, s, c, i)
    ensures i < |s| && s[i].cluster == Some(c)
  {
  }

  lemma {:induction false} OpensInside(loc: Locale, str: seq<int>, s: seq<Entry>, c: Cluster)
    ensures forall i: nat :: OpensCluster(loc, str, s, c, i) ==> i < |s|
  {
  }
}
