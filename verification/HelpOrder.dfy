/** The entries of a help listing, the clusters they live in, and the order argp sorts them by. */
module HelpEntries {
  import opened Options
  import opened ArgpTree

  /** A `struct hol_cluster`; `id` stands for its address, so equality is pointer equality. */
  datatype Cluster = Cluster(id: nat, header: Option<string>, index: int, group: int, parent: Option<Cluster>, depth: nat)

  /** The depth field is the distance from the root, as hol_add_cluster sets it. */
  predicate ValidCluster(c: Cluster)
    decreases c
  {
    match c.parent
    case None => c.depth == 0
    case Some(p) => c.depth == p.depth + 1 && ValidCluster(p)
  }

  /** A `struct hol_entry`: an option with its aliases; `so` is the offset of its first letter in the
      short-option string of the listing, `node` the preorder position of the argp it came from. */
  datatype Entry = Entry(opts: seq<ArgpOption>, so: nat, group: int, cluster: Option<Cluster>, node: nat)

  /** The character a `char` pointer at offset i reads; the string is followed by its terminator. */
  function CharAt(str: seq<int>, i: nat): int {
    if i < |str| then str[i] else 0
  }

  /** The positions in `opts` at which the letter under the moving pointer `so` is the option's own:
      the options hol_entry_short_iterate visits. */
  function ShortMatches(loc: Locale, str: seq<int>, opts: seq<ArgpOption>, so: nat, base: nat): seq<nat>
    decreases |opts|
  {
    if opts == [] then []
    else if OptionIsShort(loc, opts[0]) && CharAt(str, so) == opts[0].key then
      [base] + ShortMatches(loc, str, opts[1..], so + 1, base + 1)
    else
      ShortMatches(loc, str, opts[1..], so, base + 1)
  }

  /** The first short option of an entry that is visible and not shadowed, or 0. */
  function FirstShort(loc: Locale, str: seq<int>, opts: seq<ArgpOption>, so: nat): int
    decreases |opts|
  {
    if opts == [] then 0
    else if OptionIsShort(loc, opts[0]) && CharAt(str, so) == opts[0].key then
      if opts[0].hidden then FirstShort(loc, str, opts[1..], so + 1) else opts[0].key
    else
      FirstShort(loc, str, opts[1..], so)
  }

  /** The first visible long name of an entry. */
  function FirstLong(opts: seq<ArgpOption>): Option<string> {
    if opts == [] then None
    else if opts[0].name.Some? && !opts[0].hidden then opts[0].name
    else FirstLong(opts[1..])
  }
}

/** hol_entry_cmp and the lexicographic order it implements. */
module HelpOrder {
  import opened Options
  import opened ArgpTree
  import opened HelpEntries

  // ----- the comparators of argp-help.c -----

  /** Groups from 0 upwards come first, and negative ones after them with -1 last. */
  function GroupCmp(g1: int, g2: int): int {
    if (g1 < 0 && g2 < 0) || (g1 >= 0 && g2 >= 0) then g1 - g2 else g2 - g1
  }

  function SiblingCmp(c1: Cluster, c2: Cluster): int {
    var cmp := GroupCmp(c1.group, c2.group);
    if cmp != 0 then cmp else c2.index - c1.index
  }

  function CousinCmp(c1: Cluster, c2: Cluster): int
    requires ValidCluster(c1) && ValidCluster(c2) && c1.depth == c2.depth
    decreases c1
  {
    if c1.parent == c2.parent then SiblingCmp(c1, c2)
    else
      var cmp := CousinCmp(c1.parent.value, c2.parent.value);
      if cmp != 0 then cmp
      else
        var cmp := GroupCmp(c1.group, c2.group);
        if cmp != 0 then cmp else c2.index - c1.index
  }

  /** The ancestor of c at depth d (c itself when it is no deeper). */
  function AncestorAt(c: Cluster, d: nat): (a: Cluster)
    requires ValidCluster(c)
    ensures ValidCluster(a) && (d <= c.depth ==> a.depth == d)
    decreases c
  {
    if c.depth > d then AncestorAt(c.parent.value, d) else c
  }

  function ClusterCmp(c1: Cluster, c2: Cluster): int
    requires ValidCluster(c1) && ValidCluster(c2)
  {
    if c1.depth > c2.depth then
      var cmp := CousinCmp(AncestorAt(c1, c2.depth), c2);
      if cmp != 0 then cmp else 1
    else if c1.depth < c2.depth then
      var cmp := CousinCmp(c1, AncestorAt(c2, c1.depth));
      if cmp != 0 then cmp else -1
    else CousinCmp(c1, c2)
  }

  /** The ancestor of c that is just below the root. */
  function ClusterBase(c: Cluster): Cluster
    decreases c
  {
    if c.parent.Some? then ClusterBase(c.parent.value) else c
  }

  function SkipSpace(loc: Locale, s: string): string {
    if s != [] && loc.isSpace(s[0] as int) then SkipSpace(loc, s[1..]) else s
  }

  function SkipToAlnum(loc: Locale, s: string): string {
    if s != [] && !loc.isAlnum(s[0] as int) then SkipToAlnum(loc, s[1..]) else s
  }

  /** Whether a documentation option is a non-option, and the tail of its name used for sorting. */
  function CanonDocOption(loc: Locale, name: string): (bool, string) {
    var s := SkipSpace(loc, name);
    (s == [] || s[0] != '-', SkipToAlnum(loc, s))
  }

  /** The case-insensitive string comparison of the C library, on terminated strings. */
  function StrCaseCmp(loc: Locale, s: string, t: string): int {
    if s == [] && t == [] then 0
    else if s == [] then -1
    else if t == [] then 1
    else
      var cmp := loc.toLower(s[0] as int) - loc.toLower(t[0] as int);
      if cmp != 0 then cmp else StrCaseCmp(loc, s[1..], t[1..])
  }

  function B(b: bool): int { if b then 1 else 0 }

  /** The group a clustered entry sorts by first: that of its outermost cluster. */
  function BaseGroup(e: Entry): int {
    if e.cluster.Some? then ClusterBase(e.cluster.value).group else e.group
  }

  /** The long name an entry sorts by, and whether it is a documentation non-option. */
  function SortName(loc: Locale, e: Entry): (bool, Option<string>)
    requires e.opts != []
  {
    var long := FirstLong(e.opts);
    if e.opts[0].doc && long.Some? then
      var (nonOpt, tail) := CanonDocOption(loc, long.value); (nonOpt, Some(tail))
    else (false, long)
  }

  function FirstChar(short: int, long: Option<string>): int {
    if short != 0 then short else if long.Some? && long.value != [] then long.value[0] as int else 0
  }

  predicate ValidEntry(e: Entry) {
    e.opts != [] && (e.cluster.Some? ==> ValidCluster(e.cluster.value))
  }

  /** hol_entry_cmp over the entries of one listing, whose short-option string is `str`. */
  function EntryCmp(loc: Locale, str: seq<int>, e1: Entry, e2: Entry): int
    requires ValidEntry(e1) && ValidEntry(e2)
  {
    var cmp := GroupCmp(BaseGroup(e1), BaseGroup(e2));
    if cmp != 0 then cmp else
    var cmp := B(e1.cluster.Some?) - B(e2.cluster.Some?);
    if cmp != 0 then cmp else
    var cmp := if e1.cluster.Some? then ClusterCmp(e1.cluster.value, e2.cluster.value) else 0;
    if cmp != 0 then cmp else
    var cmp := GroupCmp(e1.group, e2.group);
    if cmp != 0 then cmp else
    NameCmp(loc, SortName(loc, e1), FirstShort(loc, str, e1.opts, e1.so),
            SortName(loc, e2), FirstShort(loc, str, e2.opts, e2.so))
  }

  /** The alphabetical part of hol_entry_cmp. */
  function NameCmp(loc: Locale, n1: (bool, Option<string>), short1: int, n2: (bool, Option<string>), short2: int): int {
    var (doc1, long1) := n1;
    var (doc2, long2) := n2;
    var cmp := B(doc1) - B(doc2);
    if cmp != 0 then cmp else
    var first1, first2 := FirstChar(short1, long1), FirstChar(short2, long2);
    var cmp := loc.toLower(first1) - loc.toLower(first2);
    if cmp != 0 then cmp else
    var cmp := first2 - first1;
    if cmp != 0 then cmp else
    TailCmp(loc, long1, short1, long2, short2)
  }

  /** Entries without a short option first, by their long names. */
  function TailCmp(loc: Locale, long1: Option<string>, short1: int, long2: Option<string>, short2: int): int {
    var cmp := B(short1 != 0) - B(short2 != 0);
    if cmp != 0 then cmp else
    if short1 != 0 then 0 else
    var cmp := B(long1.Some?) - B(long2.Some?);
    if cmp != 0 then cmp else
    if long1.None? then 0 else StrCaseCmp(loc, long1.value, long2.value)
  }

  // ----- the reference order: integer sequences, compared lexicographically, a prefix first -----

  function LexCmp(a: seq<int>, b: seq<int>): (r: int)
    ensures -1 <= r <= 1
  {
    if a == [] then (if b == [] then 0 else -1)
    else if b == [] then 1
    else if a[0] < b[0] then -1
    else if a[0] > b[0] then 1
    else LexCmp(a[1..], b[1..])
  }

  function Sign(x: int): int { if x < 0 then -1 else if x > 0 then 1 else 0 }

  /** A group as two digits: negative groups come last. */
  function GroupKey(g: int): seq<int> { [B(g < 0), g] }

  /** The clusters from the root down to c, four digits each: a marker, the group, the index reversed. */
  function PathKey(c: Cluster): seq<int>
    decreases c
  {
    (if c.parent.Some? then PathKey(c.parent.value) else []) + [1] + GroupKey(c.group) + [-c.index]
  }

  function ClusterKey(c: Option<Cluster>): seq<int> {
    (if c.Some? then PathKey(c.value) else []) + [0]
  }

  function Folded(loc: Locale, s: string): seq<int> {
    seq(|s|, i requires 0 <= i < |s| => loc.toLower(s[i] as int))
  }

  function LongKey(loc: Locale, long: Option<string>): seq<int> {
    if long.None? then [] else Folded(loc, long.value)
  }

  function TailKey(loc: Locale, long: Option<string>, short: int): seq<int> {
    [B(short != 0)] + if short != 0 then [] else [B(long.Some?)] + LongKey(loc, long)
  }

  function NameKey(loc: Locale, n: (bool, Option<string>), short: int): seq<int> {
    var first := FirstChar(short, n.1);
    [B(n.0)] + ([loc.toLower(first)] + ([-first] + TailKey(loc, n.1, short)))
  }

  /** The sort key of an entry. */
  function Key(loc: Locale, str: seq<int>, e: Entry): seq<int>
    requires ValidEntry(e)
  {
    GroupKey(BaseGroup(e)) + [B(e.cluster.Some?)] + ClusterKey(e.cluster) + GroupKey(e.group)
    + NameKey(loc, SortName(loc, e), FirstShort(loc, str, e.opts, e.so))
  }

  // ----- lexicographic comparison is a total order -----

  lemma {:induction false} LexSymmetric(a: seq<int>, b: seq<int>)
    ensures LexCmp(a, b) == -LexCmp(b, a)
  {
    if a != [] && b != [] && a[0] == b[0] { LexSymmetric(a[1..], b[1..]); }
  }

  lemma {:induction false} LexZero(a: seq<int>, b: seq<int>)
    ensures LexCmp(a, b) == 0 <==> a == b
  {
    if a != [] && b != [] {
      LexZero(a[1..], b[1..]);
      assert a == [a[0]] + a[1..] && b == [b[0]] + b[1..];
    }
  }

  lemma {:induction false} LexTransitive(a: seq<int>, b: seq<int>, c: seq<int>)
    requires LexCmp(a, b) <= 0 && LexCmp(b, c) <= 0
    ensures LexCmp(a, c) <= 0
    ensures LexCmp(a, c) == 0 ==> LexCmp(a, b) == 0 && LexCmp(b, c) == 0
  {
    if a != [] && b != [] && c != [] && a[0] == b[0] == c[0] { LexTransitive(a[1..], b[1..], c[1..]); }
  }

  /** Equal-length fronts decide first. */
  lemma {:induction false} LexAppend(a: seq<int>, b: seq<int>, x: seq<int>, y: seq<int>)
    requires |a| == |b|
    ensures LexCmp(a + x, b + y) == if a == b then LexCmp(x, y) else LexCmp(a, b)
  {
    if a == [] {
      assert a + x == x && b + y == y;
    } else {
      LexAppend(a[1..], b[1..], x, y);
      assert (a + x)[1..] == a[1..] + x && (b + y)[1..] == b[1..] + y;
      assert a == [a[0]] + a[1..] && b == [b[0]] + b[1..];
    }
  }

  lemma {:induction false} LexCons(x: int, y: int, a: seq<int>, b: seq<int>)
    ensures LexCmp([x] + a, [y] + b) == if x == y then LexCmp(a, b) else Sign(x - y)
  {
    assert ([x] + a)[1..] == a && ([y] + b)[1..] == b;
  }

  // ----- the comparators agree with the keys -----

  lemma {:induction false} GroupCmpIsKeyOrder(g1: int, g2: int)
    ensures Sign(GroupCmp(g1, g2)) == LexCmp(GroupKey(g1), GroupKey(g2))
    ensures GroupCmp(g1, g2) == 0 <==> g1 == g2
  {
    LexCons(B(g1 < 0), B(g2 < 0), [g1], [g2]);
    LexCons(g1, g2, [], []);
    assert forall g :: GroupKey(g) == [B(g < 0)] + [g] && [g] == [g] + [];
  }

  const INT_MAX := 0x7fff_ffff

  /** On C ints the subtraction of group_cmp stays in range exactly when the groups have the same sign
      or lie at most INT_MAX apart. */
  lemma {:induction false} GroupCmpFits(g1: int, g2: int)
    requires -INT_MAX - 1 <= g1 <= INT_MAX && -INT_MAX - 1 <= g2 <= INT_MAX
    ensures -INT_MAX - 1 <= GroupCmp(g1, g2) <= INT_MAX
       <==> (g1 < 0 <==> g2 < 0) || (g1 < 0 && g2 - g1 <= INT_MAX) || (g2 < 0 && g1 - g2 <= INT_MAX + 1)
  {
  }

  lemma {:induction false} LevelCmp(c1: Cluster, c2: Cluster)
    ensures Sign(SiblingCmp(c1, c2)) == LexCmp([1] + GroupKey(c1.group) + [-c1.index], [1] + GroupKey(c2.group) + [-c2.index])
    ensures SiblingCmp(c1, c2) == 0 <==> c1.group == c2.group && c1.index == c2.index
  {
    GroupCmpIsKeyOrder(c1.group, c2.group);
    var k1, k2 := GroupKey(c1.group), GroupKey(c2.group);
    LexAppend([1] + k1, [1] + k2, [-c1.index], [-c2.index]);
    LexAppend([1], [1], k1, k2);
    assert [-c1.index][1..] == [] && [-c2.index][1..] == [];
    assert k1 == k2 <==> c1.group == c2.group by { assert k1[1] == c1.group && k2[1] == c2.group; }
    assert [1] + k1 == [1] + k2 <==> k1 == k2 by { assert ([1] + k1)[1..] == k1 && ([1] + k2)[1..] == k2; }
  }

  lemma {:induction false} PathKeyLength(c: Cluster)
    requires ValidCluster(c)
    ensures |PathKey(c)| == 4 * (c.depth + 1)
    decreases c
  {
    if c.parent.Some? { PathKeyLength(c.parent.value); }
  }

  lemma {:induction false} CousinCmpIsKeyOrder(c1: Cluster, c2: Cluster)
    requires ValidCluster(c1) && ValidCluster(c2) && c1.depth == c2.depth
    ensures Sign(CousinCmp(c1, c2)) == LexCmp(PathKey(c1), PathKey(c2))
    decreases c1
  {
    hide PathKey, LexCmp, GroupKey, GroupCmp;
    LevelCmp(c1, c2);
    PathUnfolds(c1);
    PathUnfolds(c2);
    var l1, l2 := [1] + GroupKey(c1.group) + [-c1.index], [1] + GroupKey(c2.group) + [-c2.index];
    if c1.parent.Some? {
      var p1, p2 := c1.parent.value, c2.parent.value;
      CousinCmpIsKeyOrder(p1, p2);
      PathKeyLength(p1);
      PathKeyLength(p2);
      LexZero(PathKey(p1), PathKey(p2));
      LexAppend(PathKey(p1), PathKey(p2), l1, l2);
    }
  }

  lemma {:induction false} PathUnfolds(c: Cluster)
    ensures var l := [1] + GroupKey(c.group) + [-c.index];
            PathKey(c) == if c.parent.Some? then PathKey(c.parent.value) + l else l
  {
    hide GroupKey;
    var g := GroupKey(c.group);
    if c.parent.Some? {
      var p := PathKey(c.parent.value);
      assert p + [1] + g + [-c.index] == p + ([1] + g + [-c.index]);
    } else {
      assert [] + [1] + g + [-c.index] == [1] + g + [-c.index];
    }
  }

  /** A deeper cluster's path continues that of its ancestor, with another level. */
  lemma {:induction false} AncestorPath(c: Cluster, d: nat)
    requires ValidCluster(c) && d <= c.depth
    ensures PathKey(AncestorAt(c, d)) <= PathKey(c)
    ensures d < c.depth ==> |PathKey(AncestorAt(c, d))| < |PathKey(c)| && PathKey(c)[|PathKey(AncestorAt(c, d))|] == 1
    decreases c
  {
    if d < c.depth {
      AncestorPath(c.parent.value, d);
      assert PathKey(c.parent.value) <= PathKey(c);
    }
  }

  lemma {:induction false} DeeperComesLater(deep: Cluster, c: Cluster)
    requires ValidCluster(deep) && ValidCluster(c) && deep.depth > c.depth
    ensures var cmp := CousinCmp(AncestorAt(deep, c.depth), c);
            LexCmp(PathKey(deep) + [0], PathKey(c) + [0]) == Sign(if cmp != 0 then cmp else 1)
    ensures var cmp := CousinCmp(c, AncestorAt(deep, c.depth));
            LexCmp(PathKey(c) + [0], PathKey(deep) + [0]) == Sign(if cmp != 0 then cmp else -1)
  {
    var a := AncestorAt(deep, c.depth);
    AncestorPath(deep, c.depth);
    CousinCmpIsKeyOrder(a, c);
    CousinCmpIsKeyOrder(c, a);
    PathKeyLength(a);
    PathKeyLength(c);
    LexZero(PathKey(a), PathKey(c));
    var rest := PathKey(deep)[|PathKey(a)|..] + [0];
    assert PathKey(deep) + [0] == PathKey(a) + rest;
    LexAppend(PathKey(a), PathKey(c), rest, [0]);
    LexAppend(PathKey(c), PathKey(a), [0], rest);
    LexSymmetric(PathKey(a), PathKey(c));
  }

  lemma {:induction false} ClusterCmpIsKeyOrder(c1: Cluster, c2: Cluster)
    requires ValidCluster(c1) && ValidCluster(c2)
    ensures Sign(ClusterCmp(c1, c2)) == LexCmp(PathKey(c1) + [0], PathKey(c2) + [0])
  {
    if c1.depth > c2.depth {
      DeeperComesLater(c1, c2);
    } else if c1.depth < c2.depth {
      DeeperComesLater(c2, c1);
    } else {
      CousinCmpIsKeyOrder(c1, c2);
      PathKeyLength(c1);
      PathKeyLength(c2);
      LexAppend(PathKey(c1), PathKey(c2), [0], [0]);
      LexZero(PathKey(c1), PathKey(c2));
      LexZero([0], [0]);
    }
  }

  lemma {:induction false} StrCaseCmpIsKeyOrder(loc: Locale, s: string, t: string)
    ensures Sign(StrCaseCmp(loc, s, t)) == LexCmp(Folded(loc, s), Folded(loc, t))
  {
    if s != [] && t != [] {
      StrCaseCmpIsKeyOrder(loc, s[1..], t[1..]);
      assert Folded(loc, s)[1..] == Folded(loc, s[1..]);
      assert Folded(loc, t)[1..] == Folded(loc, t[1..]);
    }
  }

  lemma {:induction false} TailCmpIsKeyOrder(loc: Locale, long1: Option<string>, short1: int, long2: Option<string>, short2: int)
    ensures Sign(TailCmp(loc, long1, short1, long2, short2)) == LexCmp(TailKey(loc, long1, short1), TailKey(loc, long2, short2))
  {
    var s1, s2 := LongKey(loc, long1), LongKey(loc, long2);
    var t1 := if short1 != 0 then [] else [B(long1.Some?)] + s1;
    var t2 := if short2 != 0 then [] else [B(long2.Some?)] + s2;
    LexCons(B(short1 != 0), B(short2 != 0), t1, t2);
    LexCons(B(long1.Some?), B(long2.Some?), s1, s2);
    if long1.Some? && long2.Some? { StrCaseCmpIsKeyOrder(loc, long1.value, long2.value); }
  }

  lemma {:induction false} NameCmpIsKeyOrder(loc: Locale, n1: (bool, Option<string>), short1: int, n2: (bool, Option<string>), short2: int)
    ensures Sign(NameCmp(loc, n1, short1, n2, short2)) == LexCmp(NameKey(loc, n1, short1), NameKey(loc, n2, short2))
  {
    var first1, first2 := FirstChar(short1, n1.1), FirstChar(short2, n2.1);
    var t1, t2 := TailKey(loc, n1.1, short1), TailKey(loc, n2.1, short2);
    var u1, u2 := [loc.toLower(first1)] + ([-first1] + t1), [loc.toLower(first2)] + ([-first2] + t2);
    LexCons(B(n1.0), B(n2.0), u1, u2);
    LexCons(loc.toLower(first1), loc.toLower(first2), [-first1] + t1, [-first2] + t2);
    LexCons(-first1, -first2, t1, t2);
    TailCmpIsKeyOrder(loc, n1.1, short1, n2.1, short2);
  }

  /** hol_entry_cmp is the lexicographic order of the entries' keys. */
  lemma {:induction false} EntryCmpIsKeyOrder(loc: Locale, str: seq<int>, e1: Entry, e2: Entry)
    requires ValidEntry(e1) && ValidEntry(e2)
    ensures Sign(EntryCmp(loc, str, e1, e2)) == LexCmp(Key(loc, str, e1), Key(loc, str, e2))
  {
    hide LexCmp, PathKey, NameKey, NameCmp, SortName, FirstShort, ClusterCmp, BaseGroup, ClusterKey;
    var b1, b2 := GroupKey(BaseGroup(e1)), GroupKey(BaseGroup(e2));
    var h1, h2 := B(e1.cluster.Some?), B(e2.cluster.Some?);
    var c1, c2 := ClusterKey(e1.cluster), ClusterKey(e2.cluster);
    var g1, g2 := GroupKey(e1.group), GroupKey(e2.group);
    var n1 := NameKey(loc, SortName(loc, e1), FirstShort(loc, str, e1.opts, e1.so));
    var n2 := NameKey(loc, SortName(loc, e2), FirstShort(loc, str, e2.opts, e2.so));
    assert Key(loc, str, e1) == b1 + ([h1] + (c1 + (g1 + n1)));
    assert Key(loc, str, e2) == b2 + ([h2] + (c2 + (g2 + n2)));
    GroupCmpIsKeyOrder(BaseGroup(e1), BaseGroup(e2));
    GroupCmpIsKeyOrder(e1.group, e2.group);
    LexAppend(b1, b2, [h1] + (c1 + (g1 + n1)), [h2] + (c2 + (g2 + n2)));
    LexCons(h1, h2, c1 + (g1 + n1), c2 + (g2 + n2));
    if h1 == h2 {
      ClusterKeysDecide(e1.cluster, e2.cluster, g1 + n1, g2 + n2);
      LexAppend(g1, g2, n1, n2);
      NameCmpIsKeyOrder(loc, SortName(loc, e1), FirstShort(loc, str, e1.opts, e1.so),
                        SortName(loc, e2), FirstShort(loc, str, e2.opts, e2.so));
    }
  }

  /** A terminated cluster path is never a proper prefix of another, so the paths decide before what follows. */
  lemma {:induction false} ClusterKeysDecide(c1: Option<Cluster>, c2: Option<Cluster>, x: seq<int>, y: seq<int>)
    requires c1.Some? <==> c2.Some?
    requires c1.Some? ==> ValidCluster(c1.value) && ValidCluster(c2.value)
    ensures LexCmp(ClusterKey(c1) + x, ClusterKey(c2) + y)
         == if c1.Some? && ClusterCmp(c1.value, c2.value) != 0 then Sign(ClusterCmp(c1.value, c2.value)) else LexCmp(x, y)
  {
    if c1.None? {
      LexCons(0, 0, x, y);
      assert ClusterKey(c1) == [0] == ClusterKey(c2);
    } else {
      ClusterCmpIsKeyOrder(c1.value, c2.value);
      PathKeyLength(c1.value);
      PathKeyLength(c2.value);
      LexZero(PathKey(c1.value) + [0], PathKey(c2.value) + [0]);
      if c1.value.depth == c2.value.depth {
        LexAppend(ClusterKey(c1), ClusterKey(c2), x, y);
      } else {
        FirstDifference(ClusterKey(c1), ClusterKey(c2), x, y, c1.value, c2.value);
      }
    }
  }

  lemma {:induction false} FirstDifference(a: seq<int>, b: seq<int>, x: seq<int>, y: seq<int>, c1: Cluster, c2: Cluster)
    requires ValidCluster(c1) && ValidCluster(c2) && c1.depth != c2.depth
    requires a == PathKey(c1) + [0] && b == PathKey(c2) + [0]
    ensures LexCmp(a + x, b + y) == LexCmp(a, b) != 0
    decreases c1.depth > c2.depth
  {
    hide PathKey, LexCmp, ValidCluster;
    PathKeyLength(c1);
    PathKeyLength(c2);
    if c1.depth < c2.depth {
      var d := AncestorAt(c2, c1.depth);
      AncestorPath(c2, c1.depth);
      PathKeyLength(d);
      var k := |PathKey(c1)|;
      assert b == b[..k + 1] + b[k + 1..];
      assert a == a + [] && (b + y) == b[..k + 1] + (b[k + 1..] + y);
      assert a[k] == 0 && b[k] == 1;
      LexAppend(a, b[..k + 1], x, b[k + 1..] + y);
      LexAppend(a, b[..k + 1], [], b[k + 1..]);
      LexZero(a, b[..k + 1]);
    } else {
      FirstDifference(b, a, y, x, c2, c1);
      LexSymmetric(a, b);
      LexSymmetric(a + x, b + y);
    }
  }

  /** The laws the comment on hol_entry_cmp claims, with antisymmetry: a total preorder on all entries. */
  lemma {:induction false} EntryCmpTotalOrder(loc: Locale, str: seq<int>, e1: Entry, e2: Entry, e3: Entry)
    requires ValidEntry(e1) && ValidEntry(e2) && ValidEntry(e3)
    ensures var c12, c23, c13 := EntryCmp(loc, str, e1, e2), EntryCmp(loc, str, e2, e3), EntryCmp(loc, str, e1, e3);
            && (c12 < 0 && c23 < 0 ==> c13 < 0)
            && (c12 < 0 && c23 == 0 ==> c13 < 0)
            && (c12 == 0 && c23 < 0 ==> c13 < 0)
            && (c12 == 0 && c23 == 0 ==> c13 == 0)
    ensures Sign(EntryCmp(loc, str, e1, e2)) == -Sign(EntryCmp(loc, str, e2, e1))
    ensures EntryCmp(loc, str, e1, e2) == 0 <==> Key(loc, str, e1) == Key(loc, str, e2)
  {
    var k1, k2, k3 := Key(loc, str, e1), Key(loc, str, e2), Key(loc, str, e3);
    EntryCmpIsKeyOrder(loc, str, e1, e2);
    EntryCmpIsKeyOrder(loc, str, e2, e3);
    EntryCmpIsKeyOrder(loc, str, e1, e3);
    EntryCmpIsKeyOrder(loc, str, e2, e1);
    LexSymmetric(k1, k2);
    LexZero(k1, k2);
    LexZero(k2, k3);
    if LexCmp(k1, k2) <= 0 && LexCmp(k2, k3) <= 0 { LexTransitive(k1, k2, k3); }
  }
}
