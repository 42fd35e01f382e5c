/** The option letters of the usage line. */
module HelpUsage {
  import opened Options
  import opened ArgpTree
  import opened HelpEntries
  import opened HelpOrder
  import opened HelpList
  import opened HelpListBuild
  import opened HelpOwners

  // ----- what hol_usage collects -----

  /** The option an option at position p stands for: itself, or the closest earlier one that is no alias. */
  function RealAt(s: seq<Tagged>, p: nat): ArgpOption
    requires p < |s|
  {
    if p == 0 || !s[p].opt.alias then s[p].opt else RealAt(s, p - 1)
  }

  /** A visible option that takes no argument and is meant for the usage line. */
  predicate ArglessUsage(opt: ArgpOption, head: ArgpOption) {
    !opt.hidden && opt.arg.None? && head.arg.None? && !opt.noUsage && !head.noUsage
  }

  /** Option x belongs in the usage line with the letter ch: it is visible, and neither it nor the option it stands for
      takes an argument or is kept out of the line. */
  predicate UsageAt(s: seq<Tagged>, x: nat, ch: int) {
    && x < |s| && s[x].opt.key == ch && !s[x].opt.hidden
    && (s[x].opt.arg.None? && !s[x].opt.noUsage) && (RealAt(s, x).arg.None? && !RealAt(s, x).noUsage)
  }

  /** Some unshadowed option belongs in the usage line with the letter ch. */
  predicate InUsageLine(loc: Locale, s: seq<Tagged>, ch: int) {
    exists x :: 0 <= x < |s| && IsFirst(loc, s, x) && UsageAt(s, x, ch)
  }

  /** Some option that its entry finds in the shared string belongs in the usage line with the letter ch. */
  predicate FoundForUsage(loc: Locale, hol: Hol, ch: int) {
    exists x :: x in AllMatches(loc, hol.shorts, hol.entries) && UsageAt(Flat(hol.entries), x, ch)
  }

  /** The letters some options of an entry add, the pointer moving past each letter that is the option's own. */
  function UsageFrom(loc: Locale, str: seq<int>, opts: seq<ArgpOption>, so: nat, head: ArgpOption): seq<int>
    decreases |opts|
  {
    if opts == [] then []
    else if OptionIsShort(loc, opts[0]) && CharAt(str, so) == opts[0].key then
      (if ArglessUsage(opts[0], head) then [opts[0].key] else []) + UsageFrom(loc, str, opts[1..], so + 1, head)
    else
      UsageFrom(loc, str, opts[1..], so, head)
  }

  function EntryUsage(loc: Locale, str: seq<int>, e: Entry): seq<int> {
    if e.opts == [] then [] else UsageFrom(loc, str, e.opts, e.so, e.opts[0])
  }

  /** The letters of the entries, in their order. */
  function ListUsage(loc: Locale, str: seq<int>, es: seq<Entry>): seq<int> {
    if es == [] then [] else ListUsage(loc, str, es[..|es| - 1]) + EntryUsage(loc, str, es[|es| - 1])
  }

  /** The sorted entries: those of the list in another order, with the same options and pointers; sorting and
      the groups set for help and version change nothing else. */
  predicate Rearranged(sorted: seq<Entry>, entries: seq<Entry>, order: seq<nat>) {
    && |sorted| == |order| == |entries|
    && (forall i :: 0 <= i < |order| ==> order[i] < |entries| && sorted[i].opts == entries[order[i]].opts && sorted[i].so == entries[order[i]].so)
    && (forall i, j :: 0 <= i < j < |order| ==> order[i] != order[j])
    && (forall n :: 0 <= n < |entries| ==> n in order)
  }

  /** Letter option r repeats letter option q, the first with its letter, which comes after a key above 127 outside
      the first argp with options. */
  predicate LateRepeat(loc: Locale, s: seq<Tagged>, q: nat, r: nat)
    requires q < r < |s|
  {
    IsFirst(loc, s, q) && Letter(loc, s[q].opt) && Letter(loc, s[r].opt) && s[q].opt.key == s[r].opt.key && WideBefore(loc, s, q)
  }

  /** No letter that is new past the first key above 127 outside the first argp with options is declared twice. */
  predicate NoLateRepeat(loc: Locale, s: seq<Tagged>) { forall q, r :: 0 <= q < r < |s| ==> !LateRepeat(loc, s, q, r) }

  /** So it is whenever no key above 127 is declared outside that argp. */
  lemma {:induction false} NoWideNoRepeat(loc: Locale, s: seq<Tagged>)
    requires forall p :: 0 <= p < |s| ==> !AwayWide(loc, s, p)
    ensures NoLateRepeat(loc, s)
  {
  }

  // ----- positions of entries -----

  /** The position in the flat list where entry n starts. */
  function StartOf(hol: Hol, n: nat): (p: nat)
    requires n <= |hol.entries|
    ensures p <= |Flat(hol.entries)|
  {
    StartBound(hol, n);
    |Flat(hol.entries[..n])|
  }

  lemma {:induction false} StartBound(hol: Hol, n: nat)
    requires n <= |hol.entries|
    ensures |Flat(hol.entries[..n])| <= |Flat(hol.entries)|
  {
    hide Flat;
    if n < |hol.entries| {
      EntrySegment(hol.entries, n, |Flat(hol.entries[..n])|);
    } else {
      assert hol.entries[..n] == hol.entries;
    }
  }

  /** The starts of the entries are in order, and the options of an entry lie between two of them. */
  lemma {:induction false} Starts(hol: Hol, n: nat)
    requires n < |hol.entries|
    ensures StartOf(hol, n + 1) == StartOf(hol, n) + |hol.entries[n].opts|
    ensures forall i :: 0 <= i < |hol.entries[n].opts| ==> Flat(hol.entries)[StartOf(hol, n) + i].opt == hol.entries[n].opts[i]
  {
    hide Flat;
    EntrySegment(hol.entries, n, |Flat(hol.entries[..n])|);
  }

  lemma {:induction false} StartsInOrder(hol: Hol, n: nat, k: nat)
    requires n <= k <= |hol.entries|
    ensures StartOf(hol, n) <= StartOf(hol, k)
    decreases k - n
  {
    hide StartOf;
    if n < k {
      Starts(hol, k - 1);
      StartsInOrder(hol, n, k - 1);
    }
  }

  /** Within an entry, every alias stands for the entry's first option. */
  lemma {:induction false} RealOfEntry(s: seq<Tagged>, e: Entry, p: nat, k: nat)
    requires IsEntry(e) && k < |e.opts| && p + |e.opts| <= |s|
    requires forall i :: 0 <= i < |e.opts| ==> s[p + i].opt == e.opts[i]
    ensures RealAt(s, p + k) == e.opts[0]
  {
    assert s[p + k].opt == e.opts[k];
    if k > 0 { RealOfEntry(s, e, p, k - 1); }
  }

  // ----- the letters of one entry -----

  predicate FoundFrom(str: seq<int>, so: nat, ch: int) { exists i :: so <= i < |str| && str[i] == ch }

  lemma {:induction false} UsageFound(loc: Locale, str: seq<int>, opts: seq<ArgpOption>, so: nat, head: ArgpOption)
    requires Distinct(str)
    ensures Distinct(UsageFrom(loc, str, opts, so, head)) && forall ch :: ch in UsageFrom(loc, str, opts, so, head) ==> FoundFrom(str, so, ch)
    decreases |opts|
  {
    if opts != [] {
      if OptionIsShort(loc, opts[0]) && CharAt(str, so) == opts[0].key {
        UsageFound(loc, str, opts[1..], so + 1, head);
        assert FoundFrom(str, so, opts[0].key) && !FoundFrom(str, so + 1, opts[0].key);
        assert forall ch :: FoundFrom(str, so + 1, ch) ==> FoundFrom(str, so, ch);
      } else {
        UsageFound(loc, str, opts[1..], so, head);
      }
    }
  }

  /** Option k is found, and belongs in the usage line with the letter ch. */
  predicate UsedAt(loc: Locale, str: seq<int>, opts: seq<ArgpOption>, so: nat, base: nat, head: ArgpOption, k: nat, ch: int) {
    k < |opts| && base + k in ShortMatches(loc, str, opts, so, base) && ArglessUsage(opts[k], head) && opts[k].key == ch
  }

  lemma {:induction false} MatchRange(loc: Locale, str: seq<int>, opts: seq<ArgpOption>, so: nat, base: nat)
    ensures forall q :: q in ShortMatches(loc, str, opts, so, base) ==> base <= q < base + |opts| && OptionIsShort(loc, opts[q - base])
    decreases |opts|
  {
    if opts != [] {
      var next := if OptionIsShort(loc, opts[0]) && CharAt(str, so) == opts[0].key then so + 1 else so;
      MatchRange(loc, str, opts[1..], next, base + 1);
      forall q | q in ShortMatches(loc, str, opts, so, base) ensures base <= q < base + |opts| && OptionIsShort(loc, opts[q - base]) {
        if q in ShortMatches(loc, str, opts[1..], next, base + 1) { assert opts[q - base] == opts[1..][q - (base + 1)]; }
      }
    }
  }

  /** A letter collected is that of an option found. */
  lemma {:induction false} UsageFor(loc: Locale, str: seq<int>, opts: seq<ArgpOption>, so: nat, base: nat, head: ArgpOption, ch: int)
    returns (k: nat)
    requires ch in UsageFrom(loc, str, opts, so, head)
    ensures UsedAt(loc, str, opts, so, base, head, k, ch)
    decreases |opts|
  {
    hide ArglessUsage, OptionIsShort;
    assert opts != [];
    var hit := OptionIsShort(loc, opts[0]) && CharAt(str, so) == opts[0].key;
    assert opts[0..] == opts;
    UsageStep(loc, str, opts, 0, so, head);
    hide UsageFrom;
    if hit && ArglessUsage(opts[0], head) && opts[0].key == ch {
      k := 0;
      MatchStep(loc, str, opts, so, base, base);
    } else {
      var here := UsageFrom(loc, str, opts, so, head);
      assert hit && ArglessUsage(opts[0], head) ==> here == [here[0]] + here[1..];
      var i := UsageFor(loc, str, opts[1..], if hit then so + 1 else so, base + 1, head, ch);
      k := i + 1;
      assert opts[k] == opts[1..][i] && base + k == base + 1 + i;
      MatchStep(loc, str, opts, so, base, base + k);
    }
  }

  /** The letter of an option found is collected. */
  lemma {:induction false} UsageOf(loc: Locale, str: seq<int>, opts: seq<ArgpOption>, so: nat, base: nat, head: ArgpOption, k: nat, ch: int)
    requires UsedAt(loc, str, opts, so, base, head, k, ch)
    ensures ch in UsageFrom(loc, str, opts, so, head)
    decreases |opts|
  {
    hide ArglessUsage, OptionIsShort;
    var hit := OptionIsShort(loc, opts[0]) && CharAt(str, so) == opts[0].key;
    var next := if hit then so + 1 else so;
    assert opts[0..] == opts;
    UsageStep(loc, str, opts, 0, so, head);
    MatchStep(loc, str, opts, so, base, base + k);
    var here := UsageFrom(loc, str, opts, so, head);
    if k > 0 {
      assert opts[k] == opts[1..][k - 1] && base + k == base + 1 + (k - 1);
      UsageOf(loc, str, opts[1..], next, base + 1, head, k - 1, ch);
      assert forall x :: here != [] && x in here[1..] ==> x in here;
    }
  }

  lemma {:induction false} MatchStep(loc: Locale, str: seq<int>, opts: seq<ArgpOption>, so: nat, base: nat, q: nat)
    requires opts != []
    ensures var hit := OptionIsShort(loc, opts[0]) && CharAt(str, so) == opts[0].key;
            q in ShortMatches(loc, str, opts, so, base) <==>
              (hit && q == base) || (q > base && q in ShortMatches(loc, str, opts[1..], if hit then so + 1 else so, base + 1))
  {
    hide OptionIsShort;
    var next := if OptionIsShort(loc, opts[0]) && CharAt(str, so) == opts[0].key then so + 1 else so;
    MatchRange(loc, str, opts[1..], next, base + 1);
  }

  // ----- entries of one list have no letter in common -----

  ghost predicate Sound(loc: Locale, hol: Hol, owners: seq<nat>) {
    Accounted(loc, hol, owners) && NoLateRepeat(loc, Flat(hol.entries)) && forall e :: e in hol.entries ==> IsEntry(e)
  }

  predicate NoCommon(a: seq<int>, b: seq<int>) { forall ch :: ch in a ==> ch !in b }

  /** A letter that a later entry may still find is owned there, so no earlier entry finds it. */
  lemma {:induction false} NotFoundTwice(loc: Locale, hol: Hol, owners: seq<nat>, q: nat, i: nat)
    requires Accounted(loc, hol, owners) && NoLateRepeat(loc, Flat(hol.entries))
    requires q < |Flat(hol.entries)| && i < |hol.shorts| && OptionIsShort(loc, Flat(hol.entries)[q].opt)
    requires |owners| == |hol.shorts| && hol.shorts[i] == Flat(hol.entries)[q].opt.key
    ensures owners[i] <= q
  {
    hide Flat;
    var s := Flat(hol.entries);
    var w := owners[i];
    assert Owns(loc, s, w, hol.shorts[i]);
    assert Letter(loc, s[q].opt) && Letter(loc, s[w].opt);
    var x := FirstOfLetter(loc, s, q);
    assert Letter(loc, s[x].opt);
    if OwnedBy(hol.shorts, owners, x, s[x].opt.key) {
      var j :| 0 <= j < |hol.shorts| && hol.shorts[j] == s[x].opt.key && owners[j] <= x;
      assert j == i;
    } else {
      assert WideBefore(loc, s, x);
      var late := x < w && LateRepeat(loc, s, x, w);
    }
  }

  lemma {:induction false} EarlierApart(loc: Locale, hol: Hol, owners: seq<nat>, n: nat, k: nat)
    requires Sound(loc, hol, owners) && n < k < |hol.entries|
    ensures NoCommon(EntryUsage(loc, hol.shorts, hol.entries[n]), EntryUsage(loc, hol.shorts, hol.entries[k]))
  {
    hide Flat, ShortMatches, UsageFrom, Kept, NoLateRepeat, AllOwn, Increasing, StartOf;
    var e, f := hol.entries[n], hol.entries[k];
    assert e in hol.entries && f in hol.entries;
    forall ch | ch in EntryUsage(loc, hol.shorts, e) ensures ch !in EntryUsage(loc, hol.shorts, f) {
      if ch in EntryUsage(loc, hol.shorts, f) {
        UsageFound(loc, hol.shorts, f.opts, f.so, f.opts[0]);
        var i :| f.so <= i < |hol.shorts| && hol.shorts[i] == ch;
        var x := UsageFor(loc, hol.shorts, e.opts, e.so, 0, e.opts[0], ch);
        MatchRange(loc, hol.shorts, e.opts, e.so, 0);
        Starts(hol, n);
        Starts(hol, k);
        StartsInOrder(hol, n + 1, k);
        assert Flat(hol.entries)[StartOf(hol, n) + x].opt == e.opts[x];
        OwnCount(loc, hol, owners);
        StartIs(hol, k);
        NotFoundTwice(loc, hol, owners, StartOf(hol, n) + x, i);
        assert false;
      }
    }
  }

  lemma {:induction false} StartIs(hol: Hol, n: nat)
    requires n <= |hol.entries|
    ensures StartOf(hol, n) == |Flat(hol.entries[..n])|
  {
  }

  lemma {:induction false} SortedApart(loc: Locale, hol: Hol, owners: seq<nat>, sorted: seq<Entry>, order: seq<nat>, i: nat, k: nat)
    requires Sound(loc, hol, owners) && Rearranged(sorted, hol.entries, order) && i <= k < |sorted|
    ensures NoCommon(ListUsage(loc, hol.shorts, sorted[..i]), EntryUsage(loc, hol.shorts, sorted[k]))
    decreases i
  {
    hide Sound, EntryUsage;
    if i > 0 {
      SortedApart(loc, hol, owners, sorted, order, i - 1, k);
      SameUsage(loc, hol.shorts, sorted[k], hol.entries[order[k]]);
      SameUsage(loc, hol.shorts, sorted[i - 1], hol.entries[order[i - 1]]);
      if order[i - 1] < order[k] {
        EarlierApart(loc, hol, owners, order[i - 1], order[k]);
      } else {
        EarlierApart(loc, hol, owners, order[k], order[i - 1]);
      }
      NextEntry(loc, hol.shorts, sorted, i - 1);
    }
  }

  lemma {:induction false} SameUsage(loc: Locale, str: seq<int>, e: Entry, f: Entry)
    requires e.opts == f.opts && e.so == f.so
    ensures EntryUsage(loc, str, e) == EntryUsage(loc, str, f)
  {
  }

  lemma {:induction false} NextEntry(loc: Locale, str: seq<int>, es: seq<Entry>, i: nat)
    requires i < |es|
    ensures ListUsage(loc, str, es[..i + 1]) == ListUsage(loc, str, es[..i]) + EntryUsage(loc, str, es[i])
  {
    assert es[..i + 1][..i] == es[..i];
  }

  lemma {:induction false} NoneDistinct(loc: Locale, str: seq<int>, es: seq<Entry>)
    ensures Distinct([]) && ListUsage(loc, str, es[..0]) == []
  {
  }

  lemma {:induction false} DistinctAppend(a: seq<int>, b: seq<int>)
    requires Distinct(a) && Distinct(b) && NoCommon(a, b)
    ensures Distinct(a + b)
  {
    var c := a + b;
    forall i, j | 0 <= i < j < |c| ensures c[i] != c[j] {
      assert i < |a| ==> c[i] in a;
      assert j >= |a| ==> c[j] in b;
    }
  }

  lemma {:induction false} EntryDistinct(loc: Locale, str: seq<int>, e: Entry)
    requires Distinct(str)
    ensures Distinct(EntryUsage(loc, str, e)) && forall ch :: ch in EntryUsage(loc, str, e) ==> ch in str
  {
    if e.opts != [] { UsageFound(loc, str, e.opts, e.so, e.opts[0]); }
  }

  lemma {:induction false} SoundDistinct(loc: Locale, hol: Hol, owners: seq<nat>)
    requires Sound(loc, hol, owners)
    ensures Distinct(hol.shorts)
  {
  }

  /** However the entries are ordered, no letter is collected twice, and every letter is in the shared string. */
  lemma {:induction false} SortedDistinct(loc: Locale, hol: Hol, owners: seq<nat>, sorted: seq<Entry>, order: seq<nat>, i: nat)
    requires Sound(loc, hol, owners) && Rearranged(sorted, hol.entries, order) && i <= |sorted|
    ensures var u := ListUsage(loc, hol.shorts, sorted[..i]);
            Distinct(u) && forall ch :: ch in u ==> ch in hol.shorts
    decreases i
  {
    hide EntryUsage, ListUsage, Distinct, NoCommon, Sound, Rearranged;
    if i == 0 {
      NoneDistinct(loc, hol.shorts, sorted);
    } else {
      SortedDistinct(loc, hol, owners, sorted, order, i - 1);
      SortedApart(loc, hol, owners, sorted, order, i - 1, i - 1);
      SoundDistinct(loc, hol, owners);
      EntryDistinct(loc, hol.shorts, sorted[i - 1]);
      NextEntry(loc, hol.shorts, sorted, i - 1);
      DistinctAppend(ListUsage(loc, hol.shorts, sorted[..i - 1]), EntryUsage(loc, hol.shorts, sorted[i - 1]));
    }
  }

  function Elements(a: seq<int>): (r: set<int>)
    ensures forall x :: x in r <==> x in a
    ensures |r| <= |a|
  {
    if a == [] then {} else Elements(a[..|a| - 1]) + {a[|a| - 1]}
  }

  lemma {:induction false} DistinctCount(a: seq<int>)
    requires Distinct(a)
    ensures |Elements(a)| == |a|
    decreases |a|
  {
    if a != [] {
      DistinctCount(a[..|a| - 1]);
    }
  }

  /** Distinct letters out of a string are no more than its length. */
  lemma {:induction false} Pigeonhole(a: seq<int>, b: seq<int>)
    requires Distinct(a) && forall x :: x in a ==> x in b
    ensures |a| <= |b|
  {
    DistinctCount(a);
    Within(Elements(a), Elements(b));
  }

  lemma {:induction false} Within(a: set<int>, b: set<int>)
    requires a <= b
    ensures |a| <= |b|
  {
    assert b == a + (b - a);
  }

  /** In any order, the letters fit a buffer as long as the shared string. */
  lemma {:induction false} SortedFits(loc: Locale, hol: Hol, owners: seq<nat>, sorted: seq<Entry>, order: seq<nat>, i: nat)
    requires Sound(loc, hol, owners) && Rearranged(sorted, hol.entries, order) && i <= |sorted|
    ensures |ListUsage(loc, hol.shorts, sorted[..i])| <= |hol.shorts|
  {
    hide Sound, ListUsage, Distinct, Rearranged;
    SortedDistinct(loc, hol, owners, sorted, order, i);
    Pigeonhole(ListUsage(loc, hol.shorts, sorted[..i]), hol.shorts);
  }

  // ----- which letters -----

  lemma {:induction false} MatchedIn(loc: Locale, str: seq<int>, es: seq<Entry>, n: nat, q: nat)
    requires n < |es| && q in ShortMatches(loc, str, es[n].opts, es[n].so, |Flat(es[..n])|)
    ensures q in AllMatches(loc, str, es)
    decreases |es|
  {
    hide Flat, ShortMatches;
    var front := es[..|es| - 1];
    if n < |front| {
      assert front[..n] == es[..n];
      MatchedIn(loc, str, front, n, q);
    }
  }

  lemma {:induction false} MatchedBy(loc: Locale, str: seq<int>, es: seq<Entry>, q: nat) returns (n: nat)
    requires q in AllMatches(loc, str, es)
    ensures n < |es| && q in ShortMatches(loc, str, es[n].opts, es[n].so, |Flat(es[..n])|)
    decreases |es|
  {
    hide Flat, ShortMatches;
    var front := es[..|es| - 1];
    if q in AllMatches(loc, str, front) {
      n := MatchedBy(loc, str, front, q);
      assert front[..n] == es[..n];
    } else {
      n := |es| - 1;
    }
  }

  lemma {:induction false} ListMember(loc: Locale, str: seq<int>, es: seq<Entry>, ch: int)
    ensures ch in ListUsage(loc, str, es) <==> exists i :: 0 <= i < |es| && ch in EntryUsage(loc, str, es[i])
    decreases |es|
  {
    hide EntryUsage;
    if es != [] {
      var last := |es| - 1;
      ListMember(loc, str, es[..last], ch);
      assert forall i :: 0 <= i < last ==> es[..last][i] == es[i];
    }
  }

  lemma {:induction false} EntryLetters(loc: Locale, hol: Hol, n: nat, ch: int)
    requires n < |hol.entries| && forall e :: e in hol.entries ==> IsEntry(e)
    ensures ch in EntryUsage(loc, hol.shorts, hol.entries[n]) <==>
            exists x :: x in ShortMatches(loc, hol.shorts, hol.entries[n].opts, hol.entries[n].so, StartOf(hol, n)) && UsageAt(Flat(hol.entries), x, ch)
  {
    hide Flat, ShortMatches, UsageFrom, StartOf, RealAt;
    var e, p, s := hol.entries[n], StartOf(hol, n), Flat(hol.entries);
    assert e in hol.entries;
    Starts(hol, n);
    MatchRange(loc, hol.shorts, e.opts, e.so, p);
    forall k: nat | k < |e.opts|
      ensures UsageAt(s, p + k, ch) <==> ArglessUsage(e.opts[k], e.opts[0]) && e.opts[k].key == ch
    {
      assert s[p + k].opt == e.opts[k];
      RealOfEntry(s, e, p, k);
    }
    if ch in EntryUsage(loc, hol.shorts, e) {
      var k := UsageFor(loc, hol.shorts, e.opts, e.so, p, e.opts[0], ch);
      assert UsageAt(s, p + k, ch);
      assert p + k in ShortMatches(loc, hol.shorts, hol.entries[n].opts, hol.entries[n].so, StartOf(hol, n));
    }
    if x :| x in ShortMatches(loc, hol.shorts, e.opts, e.so, p) && UsageAt(s, x, ch) {
      assert x == p + (x - p) && UsageAt(s, p + (x - p), ch);
      UsageOf(loc, hol.shorts, e.opts, e.so, p, e.opts[0], x - p, ch);
      assert ch in EntryUsage(loc, hol.shorts, e);
    }
  }

  /** The letters are those of the visible options without an argument that their entries find. */
  lemma {:induction false} SortedComplete(loc: Locale, hol: Hol, sorted: seq<Entry>, order: seq<nat>, ch: int)
    requires Rearranged(sorted, hol.entries, order) && forall e :: e in hol.entries ==> IsEntry(e)
    ensures ch in ListUsage(loc, hol.shorts, sorted) <==> FoundForUsage(loc, hol, ch)
  {
    hide Flat, ShortMatches, EntryUsage, ListUsage, AllMatches, StartOf, UsageAt;
    ListMember(loc, hol.shorts, sorted, ch);
    if i :| 0 <= i < |sorted| && ch in EntryUsage(loc, hol.shorts, sorted[i]) {
      var n := order[i];
      SameUsage(loc, hol.shorts, sorted[i], hol.entries[n]);
      EntryLetters(loc, hol, n, ch);
      var x :| x in ShortMatches(loc, hol.shorts, hol.entries[n].opts, hol.entries[n].so, StartOf(hol, n)) && UsageAt(Flat(hol.entries), x, ch);
      StartIs(hol, n);
      MatchedIn(loc, hol.shorts, hol.entries, n, x);
    }
    if x :| x in AllMatches(loc, hol.shorts, hol.entries) && UsageAt(Flat(hol.entries), x, ch) {
      var n := MatchedBy(loc, hol.shorts, hol.entries, x);
      StartIs(hol, n);
      EntryLetters(loc, hol, n, ch);
      assert n in order;
      var i :| 0 <= i < |order| && order[i] == n;
      SameUsage(loc, hol.shorts, sorted[i], hol.entries[n]);
    }
  }

  lemma {:induction false} FoundIsFirst(loc: Locale, hol: Hol, ch: int)
    requires FindsFirsts(loc, hol)
    ensures FoundForUsage(loc, hol, ch) <==> InUsageLine(loc, Flat(hol.entries), ch)
  {
    hide Flat, AllMatches, FirstPositions, IsFirst, UsageAt;
    var s := Flat(hol.entries);
    FirstPositionsMembers(loc, s, 0, |s|);
  }

  // ----- in which order -----

  /** The letters, among the options at these positions, that belong in the usage line, position after position. */
  function Picked(opts: seq<ArgpOption>, ks: seq<nat>, head: ArgpOption): seq<int> {
    if ks == [] then [] else
    (if ks[0] < |opts| && ArglessUsage(opts[ks[0]], head) then [opts[ks[0]].key] else []) + Picked(opts, ks[1..], head)
  }

  /** An entry adds the letters of the options it finds, in their order. */
  lemma {:induction false} UsageInOrder(loc: Locale, str: seq<int>, opts: seq<ArgpOption>, so: nat, n: nat, head: ArgpOption)
    requires n <= |opts|
    ensures UsageFrom(loc, str, opts[n..], so, head) == Picked(opts, ShortMatches(loc, str, opts[n..], so, n), head)
    decreases |opts| - n
  {
    hide ArglessUsage, OptionIsShort;
    if n < |opts| {
      assert opts[n..][1..] == opts[n + 1..];
      if OptionIsShort(loc, opts[n]) && CharAt(str, so) == opts[n].key {
        UsageInOrder(loc, str, opts, so + 1, n + 1, head);
        assert ([n] + ShortMatches(loc, str, opts[n + 1..], so + 1, n + 1))[1..] == ShortMatches(loc, str, opts[n + 1..], so + 1, n + 1);
      } else {
        UsageInOrder(loc, str, opts, so, n + 1, head);
      }
    }
  }

  /** The letters of an entry follow exactly those of the entries before it. */
  lemma {:induction false} EntriesInOrder(loc: Locale, str: seq<int>, es: seq<Entry>, n: nat)
    requires n < |es|
    ensures ListUsage(loc, str, es[..n]) + EntryUsage(loc, str, es[n]) <= ListUsage(loc, str, es)
    decreases |es|
  {
    hide EntryUsage;
    var last := |es| - 1;
    if n < last {
      EntriesInOrder(loc, str, es[..last], n);
      assert es[..last][..n] == es[..n];
    }
  }

  // ----- the loops -----

  /** The short options of one entry, in the usage buffer. */
  method UsageOfEntry(loc: Locale, str: seq<int>, e: Entry, buf: array<int>, end0: nat) returns (end: nat)
    requires e.opts != [] && end0 + |EntryUsage(loc, str, e)| < buf.Length
    modifies buf
    ensures end < buf.Length && buf[..end] == old(buf[..end0]) + EntryUsage(loc, str, e)
  {
    hide ArglessUsage, UsageFrom;
    var so := e.so;
    ghost var rest, whole := EntryUsage(loc, str, e), buf[..end0] + EntryUsage(loc, str, e);
    UsageEnds(loc, str, e.opts);
    end := end0;
    for k := 0 to |e.opts|
      invariant rest == UsageFrom(loc, str, e.opts[k..], so, e.opts[0]) && end + |rest| < buf.Length && buf[..end] + rest == whole
    {
      var opt := e.opts[k];
      UsageStep(loc, str, e.opts, k, so, e.opts[0]);
      if OptionIsShort(loc, opt) && CharAt(str, so) == opt.key {
        if ArglessUsage(opt, e.opts[0]) {
          ghost var done := buf[..end];
          end := Append(buf, end, opt.key);
          MoveOne(done, opt.key, rest);
          rest := rest[1..];
        }
        so := so + 1;
      }
    }
    assert e.opts[|e.opts|..] == [] && buf[..end] + [] == buf[..end];
  }

  lemma {:induction false} UsageEnds(loc: Locale, str: seq<int>, opts: seq<ArgpOption>)
    requires opts != []
    ensures opts[0..] == opts && forall so: nat :: UsageFrom(loc, str, [], so, opts[0]) == []
  {
  }

  lemma {:induction false} MoveOne(done: seq<int>, x: int, rest: seq<int>)
    requires rest != [] && rest[0] == x
    ensures (done + [x]) + rest[1..] == done + rest
  {
    assert rest == [x] + rest[1..];
  }

  lemma {:induction false} UsageStep(loc: Locale, str: seq<int>, opts: seq<ArgpOption>, k: nat, so: nat, head: ArgpOption)
    requires k < |opts|
    ensures var hit := OptionIsShort(loc, opts[k]) && CharAt(str, so) == opts[k].key;
            var here, rest := UsageFrom(loc, str, opts[k..], so, head), UsageFrom(loc, str, opts[k + 1..], if hit then so + 1 else so, head);
            if hit && ArglessUsage(opts[k], head) then here != [] && here[0] == opts[k].key && here[1..] == rest else here == rest
  {
    hide ArglessUsage, OptionIsShort;
    assert opts[k..][1..] == opts[k + 1..];
    assert [] + UsageFrom(loc, str, opts[k + 1..], so + 1, head) == UsageFrom(loc, str, opts[k + 1..], so + 1, head);
  }

  method Append(buf: array<int>, end: nat, ch: int) returns (next: nat)
    requires end < buf.Length
    modifies buf
    ensures next == end + 1 && buf[..next] == old(buf[..end]) + [ch]
  {
    buf[end] := ch;
    next := end + 1;
  }

  /** The letters of " [-...]" in the usage line, over the sorted entries of a tree's list. Unless a letter is
      declared twice past a key above 127, the buffer of one more than the shared string's length suffices,
      terminator included, each letter is there once, and they are those of the visible options without an argument
      that are found: of all the unshadowed ones, when no key is above 127. */
  method HolUsage(loc: Locale, t: Argp, hol: Hol, sorted: seq<Entry>, ghost order: seq<nat>) returns (letters: seq<int>)
    requires NoLeadingAlias(Nodes(t)) && hol == TreeHol(loc, t, None, 0) && Rearranged(sorted, hol.entries, order)
    requires NoLateRepeat(loc, TaggedOpts(Nodes(t), 0))
    ensures letters == ListUsage(loc, hol.shorts, sorted) && Distinct(letters)
    ensures forall ch :: ch in letters <==> FoundForUsage(loc, hol, ch)
    ensures AsciiShorts(loc, TaggedOpts(Nodes(t), 0)) ==>
              forall ch :: ch in letters <==> InUsageLine(loc, TaggedOpts(Nodes(t), 0), ch)
  {
    hide ListUsage, EntryUsage, Flat, TaggedOpts, TreeHol, Represents, FindsFirsts, AllMatches, InUsageLine, FoundForUsage, Accounted, Distinct, NoLateRepeat, AsciiShorts;
    TreeHolFinds(loc, t);
    ghost var owners := TreeAccounts(loc, t, None, 0);
    assert Sound(loc, hol, owners);
    var buf := new int[|hol.shorts| + 1];
    var end := 0;
    NoneDistinct(loc, hol.shorts, sorted);
    for i := 0 to |sorted|
      invariant 0 <= end < buf.Length && buf[..end] == ListUsage(loc, hol.shorts, sorted[..i])
    {
      NextEntry(loc, hol.shorts, sorted, i);
      SortedFits(loc, hol, owners, sorted, order, i + 1);
      SortedShape(hol, sorted, order, i);
      end := UsageOfEntry(loc, hol.shorts, sorted[i], buf, end);
    }
    assert sorted[..|sorted|] == sorted;
    letters := buf[..end];
    buf[end] := 0;
    SortedDistinct(loc, hol, owners, sorted, order, |sorted|);
    forall ch ensures ch in letters <==> FoundForUsage(loc, hol, ch) { SortedComplete(loc, hol, sorted, order, ch); }
    if AsciiShorts(loc, TaggedOpts(Nodes(t), 0)) {
      forall ch ensures ch in letters <==> InUsageLine(loc, TaggedOpts(Nodes(t), 0), ch) { FoundIsFirst(loc, hol, ch); }
    }
  }

  lemma {:induction false} SortedShape(hol: Hol, sorted: seq<Entry>, order: seq<nat>, i: nat)
    requires Rearranged(sorted, hol.entries, order) && i < |sorted| && forall e :: e in hol.entries ==> IsEntry(e)
    ensures sorted[i].opts != []
  {
    assert IsEntry(hol.entries[order[i]]);
  }
}
