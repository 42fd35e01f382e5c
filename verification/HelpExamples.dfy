/** Trees on which a promise of the help listing fails. */
module HelpExamples {
  import opened Options
  import opened ArgpTree
  import opened HelpEntries
  import opened HelpOrder
  import opened HelpBlocks
  import opened HelpHeaders
  import opened HelpList
  import opened HelpListBuild
  import opened HelpOwners
  import opened HelpUsage

  const PLAIN := ArgpOption(None, 0, None, None, 0, false, false, false, false, false)

  function Letter1(key: int): ArgpOption { PLAIN.(key := key) }

  /** One argp with the given options. */
  function Leaf(opts: seq<ArgpOption>): Argp { Argp(Some(opts), true, None, []) }

  // ----- the lists of small trees -----

  lemma {:induction false} OneOption(loc: Locale, o: ArgpOption, node: nat, cluster: Option<Cluster>)
    ensures OneHol(loc, [o], node, cluster)
         == Hol([Entry([o], 0, EntryGroup(0, o), cluster, node)], if OptionIsShort(loc, o) then [ToChar(o.key)] else [])
  {
    hide EntryGroup;
    NoNodeEntries(node, cluster);
    NodeEntriesSnoc([], o, node, cluster);
    assert [] + [o] == [o];
    var es := [Entry([o], 0, EntryGroup(0, o), cluster, node)];
    assert NodeEntries([o], node, cluster) == es;
    NoLetters(loc);
    assert es[..0] == [];
    assert WithOffsets(loc, es) == es;
    assert TagAll(node, [o]) == [] + [Tagged(node, o)];
    LettersSnoc(loc, [], Tagged(node, o));
    FirstsSnoc([], ToChar(o.key));
  }

  lemma {:induction false} NoLetters(loc: Locale)
    ensures Letters(loc, []) == [] && Firsts([]) == [] && Flat([]) == []
  {
  }

  lemma {:induction false} TwoLetters(loc: Locale, o1: ArgpOption, o2: ArgpOption, node: nat, cluster: Option<Cluster>)
    requires OptionIsShort(loc, o1) && OptionIsShort(loc, o2) && ToChar(o1.key) != ToChar(o2.key) && !o2.alias
    ensures var g := EntryGroup(0, o1);
            OneHol(loc, [o1, o2], node, cluster)
              == Hol([Entry([o1], 0, g, cluster, node), Entry([o2], 1, EntryGroup(g, o2), cluster, node)], [ToChar(o1.key), ToChar(o2.key)])
  {
    hide EntryGroup, Letters, Firsts, Flat, NodeEntries, OptionIsShort;
    var g := EntryGroup(0, o1);
    NoNodeEntries(node, cluster);
    NodeEntriesSnoc([], o1, node, cluster);
    NodeEntriesSnoc([o1], o2, node, cluster);
    assert [] + [o1] == [o1] && [o1] + [o2] == [o1, o2];
    var es := [Entry([o1], 0, g, cluster, node), Entry([o2], 0, EntryGroup(g, o2), cluster, node)];
    assert NodeEntries([o1, o2], node, cluster) == es;
    NoLetters(loc);
    var t1, t2 := Tagged(node, o1), Tagged(node, o2);
    LettersSnoc(loc, [], t1);
    LettersSnoc(loc, [t1], t2);
    assert [] + [t1] == [t1] && [t1] + [t2] == [t1, t2];
    FirstsSnoc([], ToChar(o1.key));
    FirstsSnoc([ToChar(o1.key)], ToChar(o2.key));
    assert [] + [ToChar(o1.key)] == [ToChar(o1.key)];
    assert es[..0] == [] && es[..1] == [] + [es[0]];
    FlatSnoc([], es[0]);
    assert TagAll(node, [o1]) == [t1] && TagAll(node, [o1, o2]) == [t1, t2];
    assert [] + [t1] == [t1];
    assert WithOffsets(loc, es) == [es[0], es[1].(so := 1)];
  }

  lemma {:induction false} LeafHol(loc: Locale, t: Argp, cluster: Option<Cluster>, node: nat)
    requires t.children == []
    ensures TreeHol(loc, t, cluster, node) == OneHol(loc, Opts(t), node, cluster) && Nodes(t) == [t]
  {
    hide OneHol;
    ChildrenHolSteps(loc, t, cluster, node);
    assert NodesOf([]) == [];
    assert Nodes(t) == [t] + [];
  }

  lemma {:induction false} OneChildHol(loc: Locale, t: Argp, cluster: Option<Cluster>, node: nat)
    requires |t.children| == 1
    ensures var c := t.children[0];
            && TreeHol(loc, t, cluster, node)
            == Appended(loc, OneHol(loc, Opts(t), node, cluster), TreeHol(loc, c.argp, ChildCluster(c, 0, cluster, node + 1), node + 1))
            && Nodes(t) == [t] + Nodes(c.argp)
  {
    hide OneHol, Appended, TreeHol, ChildrenHol, ChildCluster;
    ChildrenHolSteps(loc, t, cluster, node);
    ChildHolStep(loc, t, 0, cluster, node);
    OneChildNodes(t.children);
  }

  lemma {:induction false} OneChildNodes(cs: seq<ArgpChild>)
    requires |cs| == 1
    ensures NodesOf(cs) == Nodes(cs[0].argp)
  {
    assert cs[..0] == [];
    assert NodesOf(cs) == [] + Nodes(cs[0].argp);
  }

  lemma {:induction false} TwoChildrenHol(loc: Locale, t: Argp, cluster: Option<Cluster>, node: nat)
    requires |t.children| == 2
    ensures var c, d := t.children[0], t.children[1];
            var id := node + 1 + |Nodes(c.argp)|;
            && TreeHol(loc, t, cluster, node)
            == Appended(loc, Appended(loc, OneHol(loc, Opts(t), node, cluster), TreeHol(loc, c.argp, ChildCluster(c, 0, cluster, node + 1), node + 1)),
                             TreeHol(loc, d.argp, ChildCluster(d, 1, cluster, id), id))
            && Nodes(t) == [t] + Nodes(c.argp) + Nodes(d.argp)
  {
    hide OneHol, Appended, TreeHol, ChildrenHol, ChildCluster;
    ChildrenHolSteps(loc, t, cluster, node);
    ChildHolStep(loc, t, 0, cluster, node);
    ChildHolStep(loc, t, 1, cluster, node);
    OneChildNodes(t.children[..1]);
    TwoChildNodes(t.children);
  }

  lemma {:induction false} TwoChildNodes(cs: seq<ArgpChild>)
    requires |cs| == 2
    ensures NodesOf(cs) == Nodes(cs[0].argp) + Nodes(cs[1].argp)
  {
    OneChildNodes(cs[..1]);
    assert NodesOf(cs) == NodesOf(cs[..1]) + Nodes(cs[1].argp);
  }

  /** Appending the list of a single option. */
  lemma {:induction false} AppendOne(loc: Locale, hol: Hol, e: Entry, o: ArgpOption, str: seq<int>)
    requires hol.entries != [] && e.opts == [o]
    ensures Appended(loc, hol, Hol([e], str))
         == var hit := OptionIsShort(loc, o) && CharAt(str, 0) == o.key;
            Hol(hol.entries + [e.(so := |hol.shorts|)], if hit && o.key !in hol.shorts then hol.shorts + [o.key] else hol.shorts)
  {
    hide OptionIsShort;
    FlatSnoc([], e);
    NoLetters(loc);
    assert [] + [e] == [e];
    assert Flat([e]) == [Tagged(e.node, o)];
    assert [e][..0] == [];
    assert MergeTo(loc, hol.shorts, Flat([e]), str, 0) == (0, hol.shorts, []);
    assert Placed(loc, hol.shorts, [e], str, 0) == [];
    assert Placed(loc, hol.shorts, [e], str, 1) == [] + [e.(so := |hol.shorts|)];
  }

  /** Appending the list of two options. */
  lemma {:induction false} AppendTwo(loc: Locale, hol: Hol, e: Entry, f: Entry, o1: ArgpOption, o2: ArgpOption, str: seq<int>)
    requires hol.entries != [] && e.opts == [o1] && f.opts == [o2]
    ensures var m := [Tagged(e.node, o1), Tagged(f.node, o2)];
            var mid, end := MergeTo(loc, hol.shorts, m, str, 1), MergeTo(loc, hol.shorts, m, str, 2);
            Appended(loc, hol, Hol([e, f], str)) == Hol(hol.entries + [e.(so := |hol.shorts|), f.(so := |mid.1|)], end.1)
  {
    hide OptionIsShort, MergeTo, Flat;
    FlatSnoc([], e);
    FlatSnoc([e], f);
    NoLetters(loc);
    var es := [e, f];
    assert [] + [e] == [e] == es[..1] && [e] + [f] == es && es[..0] == [];
    var m := [Tagged(e.node, o1), Tagged(f.node, o2)];
    assert Flat(es[..1]) == m[..1] && Flat(es) == m;
    MergeZero(loc, hol.shorts, m, str);
    assert Placed(loc, hol.shorts, es, str, 0) == [];
    assert Placed(loc, hol.shorts, es, str, 1) == [] + [e.(so := |hol.shorts|)];
  }

  // ----- letters that do not fit the usage buffer -----

  /** A long option, then two argps that both declare 'b', the first one behind a key above 127. */
  function OverflowTree(): Argp {
    Argp(Some([PLAIN.(name := Some("verbose"))]), true, None,
         [ArgpChild(Leaf([Letter1(233), Letter1('b' as int)]), None, 0), ArgpChild(Leaf([Letter1('b' as int)]), None, 0)])
  }

  lemma {:induction false} OverflowList(loc: Locale)
    requires loc.isPrint(233) && loc.isPrint('b' as int)
    ensures var v, w, b := PLAIN.(name := Some("verbose")), Letter1(233), Letter1('b' as int);
            TreeHol(loc, OverflowTree(), None, 0)
              == Hol([Entry([v], 0, 0, None, 0), Entry([w], 0, 0, None, 1), Entry([b], 0, 0, None, 1), Entry([b], 0, 0, None, 2)], ['b' as int])
  {
    hide TreeHol, OneHol, Appended;
    var t := OverflowTree();
    var v, w, b := PLAIN.(name := Some("verbose")), Letter1(233), Letter1('b' as int);
    var c, d := t.children[0].argp, t.children[1].argp;
    TwoChildrenHol(loc, t, None, 0);
    LeafHol(loc, c, None, 1);
    LeafHol(loc, d, None, 2);
    OneOption(loc, v, 0, None);
    TwoLetters(loc, w, b, 1, None);
    OneOption(loc, b, 2, None);
    var root := Hol([Entry([v], 0, 0, None, 0)], []);
    AppendTwo(loc, root, Entry([w], 0, 0, None, 1), Entry([b], 1, 0, None, 1), w, b, [-23, 98]);
    var m := [Tagged(1, w), Tagged(1, b)];
    MergeZero(loc, [], m, [-23, 98]);
    assert MergeTo(loc, [], m, [-23, 98], 1) == (0, [], []);
    assert MergeTo(loc, [], m, [-23, 98], 2) == (0, [], []);
    var mid := Hol([Entry([v], 0, 0, None, 0), Entry([w], 0, 0, None, 1), Entry([b], 0, 0, None, 1)], []);
    assert root.entries + [Entry([w], 0, 0, None, 1), Entry([b], 0, 0, None, 1)] == mid.entries;
    AppendOne(loc, mid, Entry([b], 0, 0, None, 2), b, [98]);
  }

  lemma {:induction false} TwoOfTheList(loc: Locale, str: seq<int>, es: seq<Entry>, i: nat, j: nat)
    requires i < j < |es|
    ensures |ListUsage(loc, str, es)| >= |EntryUsage(loc, str, es[i])| + |EntryUsage(loc, str, es[j])|
    decreases |es|
  {
    hide EntryUsage;
    var front := es[..|es| - 1];
    if j < |front| {
      TwoOfTheList(loc, str, front, i, j);
    } else {
      OneOfTheList(loc, str, front, i);
    }
  }

  lemma {:induction false} OneOfTheList(loc: Locale, str: seq<int>, es: seq<Entry>, i: nat)
    requires i < |es|
    ensures |ListUsage(loc, str, es)| >= |EntryUsage(loc, str, es[i])|
    decreases |es|
  {
    hide EntryUsage;
    if i < |es| - 1 { OneOfTheList(loc, str, es[..|es| - 1], i); }
  }

  /** On that tree, in whatever order its entries are sorted, hol_usage collects more letters than its buffer has
      room for: 'b' twice, with one letter in the shared string. */
  lemma {:induction false} UsageOverflows(loc: Locale, sorted: seq<Entry>, order: seq<nat>)
    requires loc.isPrint(233) && loc.isPrint('b' as int)
    requires Rearranged(sorted, TreeHol(loc, OverflowTree(), None, 0).entries, order)
    ensures var hol := TreeHol(loc, OverflowTree(), None, 0);
            |hol.shorts| == 1 && |ListUsage(loc, hol.shorts, sorted)| >= 2
  {
    hide TreeHol, ListUsage, EntryUsage;
    OverflowList(loc);
    var hol := TreeHol(loc, OverflowTree(), None, 0);
    assert 2 in order && 3 in order;
    var i :| 0 <= i < |order| && order[i] == 2;
    var j :| 0 <= j < |order| && order[j] == 3;
    LetterB(loc, sorted[i]);
    LetterB(loc, sorted[j]);
    if i < j { TwoOfTheList(loc, hol.shorts, sorted, i, j); } else { TwoOfTheList(loc, hol.shorts, sorted, j, i); }
  }

  lemma {:induction false} LetterB(loc: Locale, e: Entry)
    requires loc.isPrint('b' as int) && e.opts == [Letter1('b' as int)] && e.so == 0
    ensures EntryUsage(loc, ['b' as int], e) == ['b' as int]
  {
    assert e.opts[1..] == [];
    assert UsageFrom(loc, ['b' as int], [], 1, e.opts[0]) == [];
  }

  // ----- sorted lists of single-letter entries -----

  /** The list in another order, sorted. */
  ghost predicate SortedList(loc: Locale, hol: Hol, S: set<Cluster>, sorted: seq<Entry>, order: seq<nat>) {
    && Rearranged(sorted, hol.entries, order) && (forall i :: 0 <= i < |sorted| ==> sorted[i] == hol.entries[order[i]])
    && SortedListing(loc, hol.shorts, S, sorted)
  }

  lemma {:induction false} NoOptions(loc: Locale, node: nat, cluster: Option<Cluster>)
    ensures OneHol(loc, [], node, cluster) == Hol([], [])
  {
    NoLetters(loc);
    NoNodeEntries(node, cluster);
    assert TagAll(node, []) == [];
  }

  /** The short option an entry with one nameless option sorts by. */
  lemma {:induction false} LetterSorts(loc: Locale, str: seq<int>, e: Entry, o: ArgpOption)
    requires e.opts == [o] && o.name.None? && !o.hidden
    ensures FirstShort(loc, str, e.opts, e.so) == (if OptionIsShort(loc, o) && CharAt(str, e.so) == o.key then o.key else 0)
    ensures SortName(loc, e) == (false, None)
  {
    assert e.opts[1..] == [];
    assert FirstShort(loc, str, [], e.so) == 0 && FirstLong([]) == None;
  }

  lemma {:induction false} NameOrder(loc: Locale, x: int, y: int)
    requires loc.toLower(x) < loc.toLower(y)
    ensures LexCmp(NameKey(loc, (false, None), x), NameKey(loc, (false, None), y)) == -1
  {
    var a, b := NameKey(loc, (false, None), x), NameKey(loc, (false, None), y);
    assert a[0] == b[0] == 0;
    assert a[1..][0] == loc.toLower(x) && b[1..][0] == loc.toLower(y);
  }

  /** Entries that differ in their letters only are sorted by them. */
  lemma {:induction false} LettersDecide(loc: Locale, str: seq<int>, e: Entry, f: Entry, x: int, y: int)
    requires ValidEntry(e) && ValidEntry(f) && BaseGroup(e) == BaseGroup(f) && e.group == f.group
    requires e.cluster.Some? && f.cluster.Some? && PathKey(e.cluster.value) == PathKey(f.cluster.value)
    requires SortName(loc, e) == (false, None) == SortName(loc, f)
    requires FirstShort(loc, str, e.opts, e.so) == x && FirstShort(loc, str, f.opts, f.so) == y && loc.toLower(x) < loc.toLower(y)
    ensures EntryCmp(loc, str, e, f) < 0 && EntryCmp(loc, str, f, e) > 0
  {
    hide EntryCmp, NameKey, SortName, FirstShort, LexCmp, PathKey, ClusterBase, ValidCluster;
    NameOrder(loc, x, y);
    KeyShape(loc, str, e);
    KeyShape(loc, str, f);
    var h, k := GroupKey(BaseGroup(e)) + [1], ClusterKey(e.cluster);
    var g := GroupKey(e.group);
    var a, b := NameKey(loc, (false, None), x), NameKey(loc, (false, None), y);
    assert Key(loc, str, e) == h + (k + (g + a)) && Key(loc, str, f) == h + (k + (g + b));
    LexAppend(g, g, a, b);
    LexAppend(k, k, g + a, g + b);
    LexAppend(h, h, k + (g + a), k + (g + b));
    EntryCmpIsKeyOrder(loc, str, e, f);
    EntryCmpTotalOrder(loc, str, e, f, e);
  }

  // ----- siblings that share group and index -----

  /** Two children with the same group and index, one of the root and one of an argp merged into the root. */
  function TwinTree(): Argp {
    var merged := Argp(None, false, None, [ArgpChild(Leaf([Letter1('m' as int)]), None, 1)]);
    Argp(None, false, None, [ArgpChild(Leaf([Letter1('a' as int), Letter1('z' as int)]), Some("First"), 1), ArgpChild(merged, None, 0)])
  }

  const FIRST := Cluster(1, Some("First"), 0, 1, None, 0)
  const TWIN := Cluster(3, None, 0, 1, None, 0)

  /** A locale that can print the three letters, and folds them to the order of the alphabet. */
  predicate Alphabetic(loc: Locale) {
    var a, m, z := 'a' as int, 'm' as int, 'z' as int;
    loc.isPrint(a) && loc.isPrint(m) && loc.isPrint(z) && loc.toLower(0) < loc.toLower(a) < loc.toLower(m) < loc.toLower(z)
  }

  lemma {:induction false} TwinList(loc: Locale)
    requires Alphabetic(loc)
    ensures var a, m, z := 'a' as int, 'm' as int, 'z' as int;
            TreeHol(loc, TwinTree(), None, 0)
              == Hol([Entry([Letter1(a)], 0, 0, Some(FIRST), 1), Entry([Letter1(z)], 1, 0, Some(FIRST), 1), Entry([Letter1(m)], 2, 0, Some(TWIN), 3)],
                     [a, z, m])
  {
    hide TreeHol, OneHol, Appended;
    var t := TwinTree();
    var a, m, z := 'a' as int, 'm' as int, 'z' as int;
    var leaf, merged := t.children[0].argp, t.children[1].argp;
    TwoChildrenHol(loc, t, None, 0);
    LeafHol(loc, leaf, Some(FIRST), 1);
    NoOptions(loc, 0, None);
    TwoLetters(loc, Letter1(a), Letter1(z), 1, Some(FIRST));
    var front := Hol([Entry([Letter1(a)], 0, 0, Some(FIRST), 1), Entry([Letter1(z)], 1, 0, Some(FIRST), 1)], [a, z]);
    AppendToNone(loc, front);
    OneChildHol(loc, merged, None, 2);
    NoOptions(loc, 2, None);
    LeafHol(loc, merged.children[0].argp, Some(TWIN), 3);
    OneOption(loc, Letter1(m), 3, Some(TWIN));
    var last := Entry([Letter1(m)], 0, 0, Some(TWIN), 3);
    AppendToNone(loc, Hol([last], [m]));
    AppendOne(loc, front, last, Letter1(m), [m]);
  }

  lemma {:induction false} AppendToNone(loc: Locale, more: Hol)
    requires more.entries != []
    ensures Appended(loc, Hol([], []), more) == more
  {
  }

  lemma {:induction false} TwinPaths()
    ensures PathKey(FIRST) == PathKey(TWIN) && ClusterBase(FIRST) == FIRST && ClusterBase(TWIN) == TWIN
    ensures ValidCluster(FIRST) && ValidCluster(TWIN)
  {
    hide PathKey, ClusterBase, ValidCluster;
    RootPath(FIRST);
    RootPath(TWIN);
  }

  lemma {:induction false} RootPath(c: Cluster)
    requires c.parent.None? && c.depth == 0
    ensures PathKey(c) == [] + [1] + GroupKey(c.group) + [-c.index] && ClusterBase(c) == c && ValidCluster(c)
  {
  }

  lemma {:induction false} TwinPair(loc: Locale, str: seq<int>, e: Entry, f: Entry, x: int, y: int)
    requires e.opts == [Letter1(x)] && f.opts == [Letter1(y)] && OptionIsShort(loc, Letter1(x)) && OptionIsShort(loc, Letter1(y))
    requires CharAt(str, e.so) == x && CharAt(str, f.so) == y && loc.toLower(x) < loc.toLower(y) && e.group == f.group
    requires e.cluster in {Some(FIRST), Some(TWIN)} && f.cluster in {Some(FIRST), Some(TWIN)}
    ensures ValidEntry(e) && ValidEntry(f) && EntryCmp(loc, str, f, e) > 0
  {
    hide EntryCmp, SortName, FirstShort, PathKey, ClusterBase, ValidCluster, OptionIsShort;
    TwinPaths();
    LetterSorts(loc, str, e, Letter1(x));
    LetterSorts(loc, str, f, Letter1(y));
    LettersDecide(loc, str, e, f, x, y);
  }

  lemma {:induction false} TwinOrder(loc: Locale)
    requires Alphabetic(loc)
    ensures var hol := TreeHol(loc, TwinTree(), None, 0);
            var es, str := hol.entries, hol.shorts;
            && |es| == 3 && ValidEntry(es[0]) && ValidEntry(es[1]) && ValidEntry(es[2])
            && EntryCmp(loc, str, es[1], es[0]) > 0 && EntryCmp(loc, str, es[2], es[0]) > 0 && EntryCmp(loc, str, es[1], es[2]) > 0
  {
    hide TreeHol, EntryCmp, ValidEntry;
    TwinList(loc);
    var hol := TreeHol(loc, TwinTree(), None, 0);
    var es, str := hol.entries, hol.shorts;
    var a, m, z := 'a' as int, 'm' as int, 'z' as int;
    TwinPair(loc, str, es[0], es[1], a, z);
    TwinPair(loc, str, es[0], es[2], a, m);
    TwinPair(loc, str, es[2], es[1], m, z);
  }

  /** However the entries of that tree are sorted, the twin's entry comes between the two of the first child. */
  lemma {:induction false} TwinSorted(loc: Locale, S: set<Cluster>, sorted: seq<Entry>, order: seq<nat>)
    requires Alphabetic(loc) && SortedList(loc, TreeHol(loc, TwinTree(), None, 0), S, sorted, order)
    ensures var es := TreeHol(loc, TwinTree(), None, 0).entries;
            |es| == 3 && sorted == [es[0], es[2], es[1]]
  {
    hide TreeHol, EntryCmp;
    TwinOrder(loc);
    var hol := TreeHol(loc, TwinTree(), None, 0);
    var rank := [0, 2, 1];
    forall i, j | 0 <= i < j < 3 ensures rank[order[i]] < rank[order[j]] {
      assert EntryCmp(loc, hol.shorts, sorted[i], sorted[j]) <= 0;
    }
    assert order[0] == 0 && order[1] == 2 && order[2] == 1;
  }

  /** So the first child's entries do not stay together, and its header is printed twice. */
  lemma {:induction false} TwinsSplit(loc: Locale, S: set<Cluster>, sorted: seq<Entry>, order: seq<nat>)
    requires Alphabetic(loc) && SortedList(loc, TreeHol(loc, TwinTree(), None, 0), S, sorted, order)
    ensures !Contiguous(sorted, FIRST)
    ensures Headers(loc, TreeHol(loc, TwinTree(), None, 0).shorts, sorted, |sorted|) == [FIRST, FIRST]
  {
    hide TreeHol, EntryCmp, SortedListing, FirstShort, FirstLong;
    TwinSorted(loc, S, sorted, order);
    TwinList(loc);
    var str := TreeHol(loc, TwinTree(), None, 0).shorts;
    assert Under(sorted[0], FIRST) && !Under(sorted[1], FIRST) && Under(sorted[2], FIRST);
    LetterSorts(loc, str, sorted[0], Letter1('a' as int));
    LetterSorts(loc, str, sorted[1], Letter1('m' as int));
    LetterSorts(loc, str, sorted[2], Letter1('z' as int));
    assert Headers(loc, str, sorted, 1) == [FIRST];
    assert Headers(loc, str, sorted, 2) == [FIRST] + [];
    assert Headers(loc, str, sorted, 3) == [FIRST] + [FIRST];
  }

  // ----- a header that is never printed -----

  /** A child with a header, whose options start with the header of an option group. */
  function GroupTree(): Argp {
    var options := Leaf([PLAIN.(text := Some("Group:")), Letter1('a' as int)]);
    Argp(None, false, None, [ArgpChild(options, Some("Options"), 0)])
  }

  const OPTIONS := Cluster(1, Some("Options"), 0, 0, None, 0)

  lemma {:induction false} GroupList(loc: Locale)
    requires Alphabetic(loc)
    ensures var title, a := PLAIN.(text := Some("Group:")), 'a' as int;
            TreeHol(loc, GroupTree(), None, 0)
              == Hol([Entry([title], 0, 1, Some(OPTIONS), 1), Entry([Letter1(a)], 0, 1, Some(OPTIONS), 1)], [a])
  {
    hide TreeHol, OneHol, Appended;
    var t := GroupTree();
    var title, a := PLAIN.(text := Some("Group:")), Letter1('a' as int);
    OneChildHol(loc, t, None, 0);
    NoOptions(loc, 0, None);
    LeafHol(loc, t.children[0].argp, Some(OPTIONS), 1);
    TitleAndLetter(loc, title, a, 1, Some(OPTIONS));
    AppendToNone(loc, OneHol(loc, [title, a], 1, Some(OPTIONS)));
  }

  lemma {:induction false} TitleAndLetter(loc: Locale, o1: ArgpOption, o2: ArgpOption, node: nat, cluster: Option<Cluster>)
    requires !OptionIsShort(loc, o1) && OptionIsShort(loc, o2) && !o2.alias
    ensures var g := EntryGroup(0, o1);
            OneHol(loc, [o1, o2], node, cluster)
              == Hol([Entry([o1], 0, g, cluster, node), Entry([o2], 0, EntryGroup(g, o2), cluster, node)], [ToChar(o2.key)])
  {
    hide EntryGroup, Letters, Firsts, Flat, NodeEntries, OptionIsShort;
    var g := EntryGroup(0, o1);
    NoNodeEntries(node, cluster);
    NodeEntriesSnoc([], o1, node, cluster);
    NodeEntriesSnoc([o1], o2, node, cluster);
    assert [] + [o1] == [o1] && [o1] + [o2] == [o1, o2];
    var es := [Entry([o1], 0, g, cluster, node), Entry([o2], 0, EntryGroup(g, o2), cluster, node)];
    assert NodeEntries([o1, o2], node, cluster) == es;
    NoLetters(loc);
    var t1, t2 := Tagged(node, o1), Tagged(node, o2);
    LettersSnoc(loc, [], t1);
    LettersSnoc(loc, [t1], t2);
    assert [] + [t1] == [t1] && [t1] + [t2] == [t1, t2];
    FirstsSnoc([], ToChar(o2.key));
    assert [] + [ToChar(o2.key)] == [ToChar(o2.key)];
    assert es[..0] == [] && es[..1] == [] + [es[0]];
    FlatSnoc([], es[0]);
    assert TagAll(node, [o1]) == [t1] && TagAll(node, [o1, o2]) == [t1, t2];
    assert WithOffsets(loc, es) == es;
  }

  /** However the entries of that tree are sorted, the title comes first and takes the place of the cluster's header,
      which is never printed although the cluster has a switch. */
  lemma {:induction false} HeaderLost(loc: Locale, S: set<Cluster>, sorted: seq<Entry>, order: seq<nat>)
    requires Alphabetic(loc) && SortedList(loc, TreeHol(loc, GroupTree(), None, 0), S, sorted, order)
    ensures var hol := TreeHol(loc, GroupTree(), None, 0);
            && |sorted| == 2 && sorted[1].cluster == Some(OPTIONS) && OutcomeOf(loc, hol.shorts, sorted[1]) == Switches
            && Headers(loc, hol.shorts, sorted, |sorted|) == []
  {
    hide TreeHol, EntryCmp, FirstShort, SortName;
    GroupList(loc);
    var hol := TreeHol(loc, GroupTree(), None, 0);
    var es, str, title, a := hol.entries, hol.shorts, PLAIN.(text := Some("Group:")), 'a' as int;
    LetterSorts(loc, str, es[0], title);
    LetterSorts(loc, str, es[1], Letter1(a));
    LettersDecide(loc, str, es[0], es[1], 0, a);
    assert EntryCmp(loc, str, sorted[0], sorted[1]) <= 0;
    assert order[0] == 0 && order[1] == 1;
    NoName(title);
    assert Headers(loc, str, sorted, 1) == [];
    assert Under(sorted[0], OPTIONS);
    assert Headers(loc, str, sorted, 2) == [];
  }

  lemma {:induction false} NoName(o: ArgpOption)
    requires o.name.None?
    ensures FirstLong([o]) == None
  {
    assert [o][1..] == [] && FirstLong([]) == None;
  }
}
