/** The loops of argp-help.c that build the help option list and the short usage string from it. */
module HelpListBuild {
  import opened Options
  import opened ArgpTree
  import opened HelpEntries
  import opened HelpList

  /** Whether a character occurs between two positions of a buffer. */
  method FindChar(ch: int, buf: array<int>, beg: nat, end: nat) returns (found: bool)
    requires beg <= end <= buf.Length
    ensures found <==> ch in buf[beg..end]
  {
    var b := beg;
    while b < end
      invariant beg <= b <= end
      invariant ch !in buf[beg..b]
    {
      if buf[b] == ch { return true; }
      b := b + 1;
      assert buf[beg..b] == buf[beg..b - 1] + [buf[b - 1]];
    }
    found := false;
  }

  function Heads(opts: seq<ArgpOption>): nat {
    if opts == [] then 0 else Heads(opts[..|opts| - 1]) + if opts[|opts| - 1].alias then 0 else 1
  }

  lemma {:induction false} HeadsPrefix(opts: seq<ArgpOption>, n: nat)
    requires n <= |opts|
    ensures Heads(opts[..n]) <= Heads(opts)
    ensures n < |opts| && !opts[n].alias ==> Heads(opts[..n]) < Heads(opts)
  {
    if n == |opts| {
      assert opts[..n] == opts;
    } else {
      HeadsPrefix(opts[..|opts| - 1], n);
      assert opts[..|opts| - 1][..n] == opts[..n];
    }
  }

  lemma {:induction false} FirstsShorter(s: seq<int>)
    ensures |Firsts(s)| <= |s|
  {
    if s != [] { FirstsShorter(s[..|s| - 1]); }
  }

  /** One more option in the part of the vector that has been read. */
  lemma {:induction false} ReadOne(loc: Locale, node: nat, opts: seq<ArgpOption>, i: nat)
    requires i < |opts|
    ensures TagAll(node, opts[..i + 1]) == TagAll(node, opts[..i]) + [Tagged(node, opts[i])]
    ensures Letters(loc, TagAll(node, opts[..i + 1]))
         == var w := Letters(loc, TagAll(node, opts[..i])); if OptionIsShort(loc, opts[i]) then w + [ToChar(opts[i].key)] else w
    ensures Heads(opts[..i + 1]) == Heads(opts[..i]) + if opts[i].alias then 0 else 1
  {
    assert opts[..i + 1] == opts[..i] + [opts[i]];
    assert TagAll(node, opts[..i + 1]) == TagAll(node, opts[..i]) + [Tagged(node, opts[i])];
    LettersSnoc(loc, TagAll(node, opts[..i]), Tagged(node, opts[i]));
    assert opts[..i + 1][..i] == opts[..i];
  }

  /** Two lists of entries that differ at most in their offsets. */
  predicate SameEntries(a: seq<Entry>, b: seq<Entry>) {
    |a| == |b| && forall i :: 0 <= i < |a| ==> a[i] == b[i].(so := a[i].so)
  }

  /** The entries of one argp, offsets aside: an option that is no alias starts an entry. */
  function NodeEntries(opts: seq<ArgpOption>, node: nat, cluster: Option<Cluster>): seq<Entry> {
    if opts == [] then [] else
    var last := |opts| - 1;
    var es, o := NodeEntries(opts[..last], node, cluster), opts[last];
    if o.alias && es != [] then es[|es| - 1 := es[|es| - 1].(opts := es[|es| - 1].opts + [o])]
    else es + [Entry([o], 0, EntryGroup(if es == [] then 0 else es[|es| - 1].group, o), cluster, node)]
  }

  lemma {:induction false} NodeEntriesStep(opts: seq<ArgpOption>, first: nat, i: nat, node: nat, cluster: Option<Cluster>)
    requires first < i <= |opts| && !opts[first].alias && forall k :: first < k < i ==> opts[k].alias
    ensures var es := NodeEntries(opts[..first], node, cluster);
            NodeEntries(opts[..i], node, cluster)
            == es + [Entry(opts[first..i], 0, EntryGroup(if es == [] then 0 else es[|es| - 1].group, opts[first]), cluster, node)]
    decreases i
  {
    hide NodeEntries;
    assert opts[..i] == opts[..i - 1] + [opts[i - 1]];
    NodeEntriesSnoc(opts[..i - 1], opts[i - 1], node, cluster);
    if i == first + 1 {
      assert opts[first..i] == [opts[first]];
    } else {
      NodeEntriesStep(opts, first, i - 1, node, cluster);
      assert opts[first..i] == opts[first..i - 1] + [opts[i - 1]];
    }
  }

  lemma {:induction false} NodeEntriesSnoc(opts: seq<ArgpOption>, o: ArgpOption, node: nat, cluster: Option<Cluster>)
    ensures var es := NodeEntries(opts, node, cluster);
            NodeEntries(opts + [o], node, cluster) ==
              if o.alias && es != [] then es[|es| - 1 := es[|es| - 1].(opts := es[|es| - 1].opts + [o])]
              else es + [Entry([o], 0, EntryGroup(if es == [] then 0 else es[|es| - 1].group, o), cluster, node)]
  {
    assert (opts + [o])[..|opts|] == opts;
  }

  predicate OffsetsFrom(loc: Locale, es: seq<Entry>) {
    forall i {:trigger es[i].so} :: 0 <= i < |es| ==> es[i].so == |Firsts(Letters(loc, Flat(es[..i])))|
  }

  lemma {:induction false} AddEntry(loc: Locale, es: seq<Entry>, e: Entry)
    requires OffsetsFrom(loc, es) && e.so == |Firsts(Letters(loc, Flat(es)))|
    ensures OffsetsFrom(loc, es + [e])
    ensures Flat(es + [e]) == Flat(es) + TagAll(e.node, e.opts)
  {
    var t := es + [e];
    assert t[..|es|] == es;
    forall i | 0 <= i < |t| ensures t[i].so == |Firsts(Letters(loc, Flat(t[..i])))| {
      if i < |es| { assert t[..i] == es[..i] && t[i] == es[i]; }
    }
  }

  /** The entries, each pointing behind the first occurrences of the letters of those before it. */
  function WithOffsets(loc: Locale, es: seq<Entry>): seq<Entry> {
    seq(|es|, i requires 0 <= i < |es| => es[i].(so := |Firsts(Letters(loc, Flat(es[..i])))|))
  }

  /** The list of a single argp. */
  function OneHol(loc: Locale, opts: seq<ArgpOption>, node: nat, cluster: Option<Cluster>): Hol {
    Hol(WithOffsets(loc, NodeEntries(opts, node, cluster)), Firsts(Letters(loc, TagAll(node, opts))))
  }

  lemma {:induction false} OffsetsUnique(loc: Locale, es: seq<Entry>, spec: seq<Entry>)
    requires SameEntries(es, spec) && OffsetsFrom(loc, es)
    ensures es == WithOffsets(loc, spec)
  {
    hide Letters, Firsts, Flat;
    var w := WithOffsets(loc, spec);
    forall i | 0 <= i < |es| ensures es[i] == w[i] { SameFlat(es[..i], spec[..i]); }
  }

  /** make_hol: the first pass sizes the two buffers, the second fills them. The list represents its letters. */
  method MakeHol(loc: Locale, t: Argp, cluster: Option<Cluster>, node: nat) returns (hol: Hol)
    requires Opts(t) != [] ==> !Opts(t)[0].alias
    ensures hol == OneHol(loc, Opts(t), node, cluster)
    ensures Flat(hol.entries) == TagAll(node, Opts(t))
    ensures SameEntries(hol.entries, NodeEntries(Opts(t), node, cluster))
    ensures Represents(loc, hol)
  {
    var opts := Opts(t);
    hide Letters, Firsts, Flat, TagAll, Heads, NodeEntries, OffsetsFrom, Filled;
    var numEntries, numShort := CountOptions(loc, node, opts);
    var entries := new Entry[numEntries];
    var shorts := new int[numShort + 1];
    FillStart(loc, opts, node, cluster);
    var i: nat, n: nat, so: nat, curGroup := 0, 0, 0, 0;
    while i < |opts|
      invariant i <= |opts| && n == Heads(opts[..i]) && so < shorts.Length
      invariant n <= entries.Length && (i < |opts| ==> !opts[i].alias)
      invariant curGroup == if n == 0 then 0 else entries[n - 1].group
      invariant shorts[..so] == Firsts(Letters(loc, TagAll(node, opts[..i])))
      invariant Filled(loc, opts, i, entries[..n], node, cluster)
      decreases |opts| - i
    {
      curGroup := EntryGroup(curGroup, opts[i]);
      var first, firstSo := i, so;
      i, so := CopyEntry(loc, node, opts, i, shorts, so);
      HeadsPrefix(opts, first);
      FillOne(loc, opts, first, i, entries[..n], firstSo, node, cluster, curGroup);
      Store(entries, n, Entry(opts[first..i], firstSo, curGroup, cluster, node));
      n := n + 1;
      HeadsPrefix(opts, i);
    }
    shorts[so] := 0;
    assert opts[..i] == opts;
    hol := Hol(entries[..n], shorts[..so]);
    FillEnd(loc, opts, hol, node, cluster);
    OneHolIs(loc, opts, hol, node, cluster);
  }

  lemma {:induction false} OneHolIs(loc: Locale, opts: seq<ArgpOption>, hol: Hol, node: nat, cluster: Option<Cluster>)
    requires Flat(hol.entries) == TagAll(node, opts) && SameEntries(hol.entries, NodeEntries(opts, node, cluster)) && Represents(loc, hol)
    ensures hol == OneHol(loc, opts, node, cluster)
  {
    hide Letters, Firsts, Flat, NodeEntries, WithOffsets, TagAll;
    OffsetsUnique(loc, hol.entries, NodeEntries(opts, node, cluster));
  }

  method Store(entries: array<Entry>, n: nat, e: Entry)
    requires n < entries.Length
    modifies entries
    ensures entries[..n + 1] == old(entries[..n]) + [e]
  {
    entries[n] := e;
  }

  /** The sizing pass of make_hol. */
  method CountOptions(loc: Locale, node: nat, opts: seq<ArgpOption>) returns (numEntries: nat, numShort: nat)
    ensures numEntries == Heads(opts) && numShort == |Letters(loc, TagAll(node, opts))|
  {
    numEntries, numShort := 0, 0;
    for i := 0 to |opts|
      invariant numEntries == Heads(opts[..i])
      invariant numShort == |Letters(loc, TagAll(node, opts[..i]))|
    {
      ReadOne(loc, node, opts, i);
      if !opts[i].alias { numEntries := numEntries + 1; }
      if OptionIsShort(loc, opts[i]) { numShort := numShort + 1; }
    }
    assert opts[..|opts|] == opts;
  }

  /** The entries cover the first i options. */
  predicate Filled(loc: Locale, opts: seq<ArgpOption>, i: nat, es: seq<Entry>, node: nat, cluster: Option<Cluster>)
    requires i <= |opts|
  {
    Flat(es) == TagAll(node, opts[..i]) && OffsetsFrom(loc, es)
    && SameEntries(es, NodeEntries(opts[..i], node, cluster))
  }

  lemma {:induction false} FillStart(loc: Locale, opts: seq<ArgpOption>, node: nat, cluster: Option<Cluster>)
    ensures Filled(loc, opts, 0, [], node, cluster) && Heads(opts[..0]) == 0
    ensures Firsts(Letters(loc, TagAll(node, opts[..0]))) == []
  {
  }

  lemma {:induction false} FillEnd(loc: Locale, opts: seq<ArgpOption>, hol: Hol, node: nat, cluster: Option<Cluster>)
    requires Filled(loc, opts, |opts|, hol.entries, node, cluster)
    requires hol.shorts == Firsts(Letters(loc, TagAll(node, opts)))
    ensures Flat(hol.entries) == TagAll(node, opts) && Represents(loc, hol)
    ensures SameEntries(hol.entries, NodeEntries(opts, node, cluster))
  {
    hide Letters, Firsts, Flat, TagAll, NodeEntries;
    assert opts[..|opts|] == opts;
  }

  lemma {:induction false} FillOne(loc: Locale, opts: seq<ArgpOption>, first: nat, i: nat, es: seq<Entry>, so: nat,
                                   node: nat, cluster: Option<Cluster>, group: int)
    requires first < i <= |opts| && !opts[first].alias && forall k :: first < k < i ==> opts[k].alias
    requires Filled(loc, opts, first, es, node, cluster)
    requires so == |Firsts(Letters(loc, TagAll(node, opts[..first])))|
    requires group == EntryGroup(if es == [] then 0 else es[|es| - 1].group, opts[first])
    ensures Filled(loc, opts, i, es + [Entry(opts[first..i], so, group, cluster, node)], node, cluster)
  {
    hide Letters, Firsts, Flat, OffsetsFrom, NodeEntries;
    var e := Entry(opts[first..i], so, group, cluster, node);
    AddEntry(loc, es, e);
    assert TagAll(node, opts[..i]) == TagAll(node, opts[..first]) + TagAll(node, opts[first..i]);
    NodeEntriesStep(opts, first, i, node, cluster);
  }

  /** Append the letter of option i unless it is already in use. */
  method CopyLetter(loc: Locale, node: nat, opts: seq<ArgpOption>, i: nat, shorts: array<int>, so0: nat) returns (so: nat)
    requires i < |opts|
    requires shorts.Length == |Letters(loc, TagAll(node, opts))| + 1 && so0 < shorts.Length
    requires shorts[..so0] == Firsts(Letters(loc, TagAll(node, opts[..i])))
    modifies shorts
    ensures so < shorts.Length && shorts[..so] == Firsts(Letters(loc, TagAll(node, opts[..i + 1])))
  {
    so := so0;
    ReadOne(loc, node, opts, i);
    ghost var w := Letters(loc, TagAll(node, opts[..i]));
    if OptionIsShort(loc, opts[i]) {
      var ch := ToChar(opts[i].key);
      FirstsMembers(w);
      FirstsSnoc(w, ch);
      RoomForOne(loc, node, opts, i);
      var found := FindChar(ch, shorts, 0, so);
      assert shorts[0..so] == shorts[..so];
      if !found {
        shorts[so] := ch;
        so := so + 1;
        assert shorts[..so] == Firsts(w) + [ch];
      }
    }
  }

  /** The inner loop of make_hol: an option and the aliases that follow it. */
  method CopyEntry(loc: Locale, node: nat, opts: seq<ArgpOption>, first: nat, shorts: array<int>, so0: nat)
    returns (i: nat, so: nat)
    requires first < |opts| && !opts[first].alias
    requires shorts.Length == |Letters(loc, TagAll(node, opts))| + 1 && so0 < shorts.Length
    requires shorts[..so0] == Firsts(Letters(loc, TagAll(node, opts[..first])))
    modifies shorts
    ensures first < i <= |opts| && (i < |opts| ==> !opts[i].alias)
    ensures forall k :: first < k < i ==> opts[k].alias
    ensures Heads(opts[..i]) == Heads(opts[..first]) + 1
    ensures so < shorts.Length && shorts[..so] == Firsts(Letters(loc, TagAll(node, opts[..i])))
  {
    hide Letters, Firsts, TagAll, Heads;
    i, so := first, so0;
    while true
      invariant first <= i < |opts| && (first < i ==> opts[i].alias)
      invariant forall k :: first < k < i ==> opts[k].alias
      invariant Heads(opts[..i]) == Heads(opts[..first]) + if i == first then 0 else 1
      invariant so < shorts.Length
      invariant shorts[..so] == Firsts(Letters(loc, TagAll(node, opts[..i])))
      decreases |opts| - i
    {
      ReadOne(loc, node, opts, i);
      so := CopyLetter(loc, node, opts, i, shorts, so);
      i := i + 1;
      if i == |opts| || !opts[i].alias { break; }
    }
  }

  /** The letters copied so far, with one more, are no more than the letters counted. */
  lemma {:induction false} RoomForOne(loc: Locale, node: nat, opts: seq<ArgpOption>, i: nat)
    requires i < |opts| && OptionIsShort(loc, opts[i])
    ensures |Firsts(Letters(loc, TagAll(node, opts[..i])))| < |Letters(loc, TagAll(node, opts))|
  {
    ReadOne(loc, node, opts, i);
    FirstsShorter(Letters(loc, TagAll(node, opts[..i])));
    LettersPrefix(loc, TagAll(node, opts), i + 1);
    assert TagAll(node, opts)[..i + 1] == TagAll(node, opts[..i + 1]);
  }

  // ----- hol_append -----

  /** The state of the merge after p options of MORE: its letters read so far are accounted for. */
  ghost predicate Merging(loc: Locale, h: seq<Tagged>, m: seq<Tagged>, p: nat, moreSo: nat, str: seq<int>)
    requires p <= |m|
  {
    moreSo == |Firsts(Letters(loc, m[..p]))| && str == Firsts(Letters(loc, h) + Letters(loc, m[..p]))
  }

  /** Reading one more option: its letter is taken over when it is new to MORE and not in use in HOL. */
  lemma {:induction false} MergeStep(loc: Locale, h: seq<Tagged>, m: seq<Tagged>, p: nat, moreSo: nat, str: seq<int>)
    requires p < |m| && AsciiShorts(loc, m) && Merging(loc, h, m, p, moreSo, str)
    ensures var key := m[p].opt.key;
            var hit := OptionIsShort(loc, m[p].opt) && CharAt(Firsts(Letters(loc, m)), moreSo) == key;
            Merging(loc, h, m, p + 1, if hit then moreSo + 1 else moreSo,
                    if hit && key !in Firsts(Letters(loc, h)) then str + [key] else str)
  {
    assert m[..p + 1] == m[..p] + [m[p]];
    LettersSnoc(loc, m[..p], m[p]);
    if OptionIsShort(loc, m[p].opt) {
      LettersPrefix(loc, m, p + 1);
      MergeLetter(Letters(loc, h), Letters(loc, m[..p]), Letters(loc, m), m[p].opt.key);
    }
  }

  lemma {:induction false} MergeLetter(a: seq<int>, b: seq<int>, w: seq<int>, k: int)
    requires b + [k] <= w && k != 0
    ensures var hit := CharAt(Firsts(w), |Firsts(b)|) == k;
            && |Firsts(b + [k])| == (if hit then |Firsts(b)| + 1 else |Firsts(b)|)
            && Firsts(a + (b + [k])) == if hit && k !in Firsts(a) then Firsts(a + b) + [k] else Firsts(a + b)
  {
    assert w[..|b|] == b && w[|b|] == k;
    NextLetter(w, |b|);
    FirstsSnoc(b, k);
    assert a + (b + [k]) == (a + b) + [k];
    FirstsSnoc(a + b, k);
    FirstsMembers(a);
  }

  /** hol_append after p options of MORE: how far its string has been read, the merged string, and the options
      whose letters were taken over. An option is taken to own the next letter when that is its key. */
  function MergeTo(loc: Locale, hs: seq<int>, m: seq<Tagged>, more: seq<int>, p: nat): (r: (nat, seq<int>, seq<nat>))
    requires p <= |m|
    ensures r.0 <= |more| && hs <= r.1 && |r.1| == |hs| + |r.2| <= |hs| + r.0
    decreases p
  {
    if p == 0 then (0, hs, []) else
    var (n, str, from) := MergeTo(loc, hs, m, more, p - 1);
    var opt := m[p - 1].opt;
    if !(OptionIsShort(loc, opt) && CharAt(more, n) == opt.key) then (n, str, from)
    else if opt.key in hs then (n + 1, str, from)
    else (n + 1, str + [opt.key], from + [p - 1])
  }

  /** Where neither list is wide, the merge keeps the first occurrences. */
  lemma {:induction false} MergeKeeps(loc: Locale, h: seq<Tagged>, m: seq<Tagged>, p: nat)
    requires p <= |m| && AsciiShorts(loc, m)
    ensures var (n, str, _) := MergeTo(loc, Firsts(Letters(loc, h)), m, Firsts(Letters(loc, m)), p); Merging(loc, h, m, p, n, str)
    decreases p
  {
    hide Letters, Firsts, AsciiShorts, Merging, OptionIsShort, MergeTo;
    var hs, more := Firsts(Letters(loc, h)), Firsts(Letters(loc, m));
    if p == 0 {
      MergeNone(loc, h, m);
      MergeZero(loc, hs, m, more);
    } else {
      MergeKeeps(loc, h, m, p - 1);
      var (n, str, _) := MergeTo(loc, hs, m, more, p - 1);
      MergeStep(loc, h, m, p - 1, n, str);
      MergeNext(loc, hs, m, more, p - 1);
    }
  }

  lemma {:induction false} MergeZero(loc: Locale, hs: seq<int>, m: seq<Tagged>, more: seq<int>)
    ensures MergeTo(loc, hs, m, more, 0) == (0, hs, [])
  {
  }

  lemma {:induction false} MergeNone(loc: Locale, h: seq<Tagged>, m: seq<Tagged>)
    ensures Merging(loc, h, m, 0, 0, Firsts(Letters(loc, h)))
  {
    assert Letters(loc, h) + [] == Letters(loc, h);
  }

  /** The inner loop of hol_append, over the options of one entry of MORE. */
  method MergeEntry(loc: Locale, opts: seq<ArgpOption>, more: seq<int>, shorts: array<int>, hsl: nat, so0: nat, moreSo0: nat,
                    ghost hs: seq<int>, ghost m: seq<Tagged>, ghost p: nat)
    returns (so: nat, moreSo: nat)
    requires hsl == |hs| <= so0 < shorts.Length && shorts[..hsl] == hs && shorts.Length == hsl + |more| + 1
    requires p + |opts| <= |m| && forall k :: 0 <= k < |opts| ==> m[p + k].opt == opts[k]
    requires (moreSo0, shorts[..so0]) == (MergeTo(loc, hs, m, more, p).0, MergeTo(loc, hs, m, more, p).1)
    modifies shorts
    ensures hsl <= so < shorts.Length && shorts[..hsl] == hs
    ensures (moreSo, shorts[..so]) == (MergeTo(loc, hs, m, more, p + |opts|).0, MergeTo(loc, hs, m, more, p + |opts|).1)
  {
    hide MergeTo, OptionIsShort;
    so, moreSo := so0, moreSo0;
    for k := 0 to |opts|
      invariant hsl <= so < shorts.Length && shorts[..hsl] == hs
      invariant (moreSo, shorts[..so]) == (MergeTo(loc, hs, m, more, p + k).0, MergeTo(loc, hs, m, more, p + k).1)
    {
      assert m[p + k].opt == opts[k];
      MergeRoom(loc, hs, m, more, p + k);
      MergeNext(loc, hs, m, more, p + k);
      var ch := CharAt(more, moreSo);
      if OptionIsShort(loc, opts[k]) && ch == opts[k].key {
        var found := FindChar(ch, shorts, 0, hsl);
        assert shorts[0..hsl] == shorts[..hsl];
        if !found { so := Push(shorts, hsl, so, ch); }
        moreSo := moreSo + 1;
      }
    }
  }

  lemma {:induction false} MergeNext(loc: Locale, hs: seq<int>, m: seq<Tagged>, more: seq<int>, p: nat)
    requires p < |m|
    ensures var r, opt := MergeTo(loc, hs, m, more, p), m[p].opt;
            var hit := OptionIsShort(loc, opt) && CharAt(more, r.0) == opt.key;
            && MergeTo(loc, hs, m, more, p + 1).0 == (if hit then r.0 + 1 else r.0)
            && MergeTo(loc, hs, m, more, p + 1).1 == (if hit && opt.key !in hs then r.1 + [opt.key] else r.1)
  {
    hide OptionIsShort;
  }

  /** A letter that is taken over has room. */
  lemma {:induction false} MergeRoom(loc: Locale, hs: seq<int>, m: seq<Tagged>, more: seq<int>, p: nat)
    requires p < |m|
    ensures var r := MergeTo(loc, hs, m, more, p);
            OptionIsShort(loc, m[p].opt) && CharAt(more, r.0) == m[p].opt.key ==> r.0 < |more| && |r.1| < |hs| + |more|
  {
    hide MergeTo;
  }

  method Push(shorts: array<int>, hsl: nat, so: nat, ch: int) returns (next: nat)
    requires hsl <= so < shorts.Length
    modifies shorts
    ensures next == so + 1 && shorts[..next] == old(shorts[..so]) + [ch]
    ensures shorts[..hsl] == old(shorts[..hsl]) && shorts[hsl..next] == old(shorts[hsl..so]) + [ch]
  {
    shorts[so] := ch;
    next := so + 1;
  }

  lemma {:induction false} SameFlat(a: seq<Entry>, b: seq<Entry>)
    requires SameEntries(a, b)
    ensures Flat(a) == Flat(b)
  {
    if a != [] { SameFlat(a[..|a| - 1], b[..|b| - 1]); }
  }

  /** The first j entries of MORE, each pointing at the end of the string merged before it. */
  function Placed(loc: Locale, hs: seq<int>, ms: seq<Entry>, more: seq<int>, j: nat): (r: seq<Entry>)
    requires j <= |ms|
    ensures |r| == j
  {
    if j == 0 then [] else
    StartInside(ms, j - 1);
    Placed(loc, hs, ms, more, j - 1) + [ms[j - 1].(so := |MergeTo(loc, hs, Flat(ms), more, |Flat(ms[..j - 1])|).1|)]
  }

  lemma {:induction false} StartInside(es: seq<Entry>, j: nat)
    requires j <= |es|
    ensures |Flat(es[..j])| <= |Flat(es)|
  {
    FlatPrefix(es, j);
  }

  /** The list that hol_append leaves. */
  function Appended(loc: Locale, hol: Hol, more: Hol): Hol {
    if more.entries == [] then hol else if hol.entries == [] then more else
    Hol(hol.entries + Placed(loc, hol.shorts, more.entries, more.shorts, |more.entries|),
        MergeTo(loc, hol.shorts, Flat(more.entries), more.shorts, |Flat(more.entries)|).1)
  }

  /** hol_append: the entries of both, with the letters of MORE that HOL does not shadow. */
  method HolAppend(loc: Locale, hol: Hol, more: Hol) returns (r: Hol)
    ensures r == Appended(loc, hol, more)
  {
    hide Letters, Firsts, Flat, MergeTo;
    if |more.entries| == 0 { return hol; }
    if |hol.entries| == 0 { return more; }
    ghost var m := Flat(more.entries);
    var hsl := |hol.shorts|;
    var shorts := new int[hsl + |more.shorts| + 1];
    CopyInto(shorts, hol.shorts);
    var entries, so, moreSo := hol.entries, hsl, 0;
    MergeZero(loc, hol.shorts, m, more.shorts);
    assert Flat(more.entries[..0]) == [] by { NoFlat(); }
    for j := 0 to |more.entries|
      invariant hsl <= so < shorts.Length && shorts[..hsl] == hol.shorts
      invariant |Flat(more.entries[..j])| <= |m|
      invariant entries == hol.entries + Placed(loc, hol.shorts, more.entries, more.shorts, j)
      invariant var r := MergeTo(loc, hol.shorts, m, more.shorts, |Flat(more.entries[..j])|); (moreSo, shorts[..so]) == (r.0, r.1)
    {
      var e := more.entries[j];
      ghost var p := |Flat(more.entries[..j])|;
      EntrySegment(more.entries, j, p);
      ghost var before := entries;
      entries := entries + [e.(so := so)];
      assert entries == hol.entries + (Placed(loc, hol.shorts, more.entries, more.shorts, j) + [e.(so := so)]);
      so, moreSo := MergeEntry(loc, e.opts, more.shorts, shorts, hsl, so, moreSo, hol.shorts, m, p);
    }
    shorts[so] := 0;
    assert more.entries[..|more.entries|] == more.entries;
    r := Hol(entries, shorts[..so]);
  }

  lemma {:induction false} PlacedSame(loc: Locale, hs: seq<int>, ms: seq<Entry>, more: seq<int>, j: nat)
    requires j <= |ms|
    ensures SameEntries(Placed(loc, hs, ms, more, j), ms[..j])
  {
    hide MergeTo, Flat;
    if j > 0 { PlacedSame(loc, hs, ms, more, j - 1); }
  }

  lemma {:induction false} MergeChars(loc: Locale, hs: seq<int>, m: seq<Tagged>, more: seq<int>, p: nat)
    requires p <= |m|
    ensures forall x :: x in MergeTo(loc, hs, m, more, p).1 ==> x in hs || x in more
  {
    if p > 0 { MergeChars(loc, hs, m, more, p - 1); }
  }

  /** What appending keeps, whatever the keys; and that it keeps the first occurrences where MORE has no key
      above 127. */
  lemma {:induction false} AppendedIs(loc: Locale, hol: Hol, more: Hol)
    ensures var r := Appended(loc, hol, more);
            && SameEntries(r.entries, hol.entries + more.entries)
            && Flat(r.entries) == Flat(hol.entries) + Flat(more.entries)
            && (forall x :: x in r.shorts ==> x in hol.shorts || x in more.shorts)
            && (Represents(loc, hol) && Represents(loc, more) && AsciiShorts(loc, Flat(more.entries)) ==> Represents(loc, r))
  {
    hide Letters, Firsts, Flat, MergeTo, Represents, Placed;
    var r := Appended(loc, hol, more);
    FlatAppend(hol.entries, more.entries);
    if more.entries == [] {
      assert hol.entries + more.entries == hol.entries;
    } else if hol.entries == [] {
      assert hol.entries + more.entries == more.entries;
    } else {
      PlacedSame(loc, hol.shorts, more.entries, more.shorts, |more.entries|);
      SameFlat(r.entries, hol.entries + more.entries);
      MergeChars(loc, hol.shorts, Flat(more.entries), more.shorts, |Flat(more.entries)|);
      if Represents(loc, hol) && Represents(loc, more) && AsciiShorts(loc, Flat(more.entries)) { AppendedRepresents(loc, hol, more); }
    }
  }

  lemma {:induction false} AppendedRepresents(loc: Locale, hol: Hol, more: Hol)
    requires hol.entries != [] && more.entries != [] && Represents(loc, hol) && Represents(loc, more) && AsciiShorts(loc, Flat(more.entries))
    ensures Represents(loc, Appended(loc, hol, more))
  {
    hide Letters, Firsts, Flat, MergeTo, Placed, OffsetsFrom, AsciiShorts;
    var r := Appended(loc, hol, more);
    var h, m := Flat(hol.entries), Flat(more.entries);
    RepresentsParts(loc, hol);
    RepresentsParts(loc, more);
    MergeKeeps(loc, h, m, |m|);
    PlacedOffsets(loc, hol, more, |more.entries|);
    PlacedSame(loc, hol.shorts, more.entries, more.shorts, |more.entries|);
    FlatAppend(hol.entries, more.entries);
    SameFlat(r.entries, hol.entries + more.entries);
    MergeEnd(loc, h, m, MergeTo(loc, hol.shorts, m, more.shorts, |m|).0, r);
  }

  lemma {:induction false} RepresentsParts(loc: Locale, hol: Hol)
    requires Represents(loc, hol)
    ensures OffsetsFrom(loc, hol.entries) && hol.shorts == Firsts(Letters(loc, Flat(hol.entries)))
  {
  }

  lemma {:induction false} PlacedOffsets(loc: Locale, hol: Hol, more: Hol, j: nat)
    requires j <= |more.entries| && Represents(loc, hol) && Represents(loc, more) && AsciiShorts(loc, Flat(more.entries))
    ensures OffsetsFrom(loc, hol.entries + Placed(loc, hol.shorts, more.entries, more.shorts, j))
  {
    hide Letters, Firsts, Flat, MergeTo, OffsetsFrom, AsciiShorts, Merging;
    RepresentsParts(loc, hol);
    RepresentsParts(loc, more);
    if j == 0 {
      assert hol.entries + Placed(loc, hol.shorts, more.entries, more.shorts, 0) == hol.entries;
    } else {
      PlacedOffsets(loc, hol, more, j - 1);
      PlacedSame(loc, hol.shorts, more.entries, more.shorts, j - 1);
      var p := |Flat(more.entries[..j - 1])|;
      StartInside(more.entries, j - 1);
      MergeKeeps(loc, Flat(hol.entries), Flat(more.entries), p);
      var (n, str, _) := MergeTo(loc, hol.shorts, Flat(more.entries), more.shorts, p);
      var entries := hol.entries + Placed(loc, hol.shorts, more.entries, more.shorts, j - 1);
      AppendEntry(loc, hol.entries, more.entries, j - 1, entries, str, n);
      assert hol.entries + Placed(loc, hol.shorts, more.entries, more.shorts, j) == entries + [more.entries[j - 1].(so := |str|)];
    }
  }

  lemma {:induction false} MergeEnd(loc: Locale, h: seq<Tagged>, m: seq<Tagged>, moreSo: nat, r: Hol)
    requires Merging(loc, h, m, |m|, moreSo, r.shorts) && OffsetsFrom(loc, r.entries) && Flat(r.entries) == h + m
    ensures Represents(loc, r)
  {
    hide Letters, Firsts, Flat;
    assert m[..|m|] == m;
    LettersAppend(loc, h, m);
  }

  method CopyInto(shorts: array<int>, from: seq<int>)
    requires |from| <= shorts.Length
    modifies shorts
    ensures shorts[..|from|] == from
  {
    forall i | 0 <= i < |from| { shorts[i] := from[i]; }
  }

  /** The next entry of MORE starts at the current end of the merged string. */
  lemma {:induction false} AppendEntry(loc: Locale, hs: seq<Entry>, ms: seq<Entry>, j: nat, entries: seq<Entry>, str: seq<int>, moreSo: nat)
    requires j < |ms| && SameEntries(entries, hs + ms[..j]) && OffsetsFrom(loc, entries)
    requires |Flat(ms[..j])| <= |Flat(ms)| && Merging(loc, Flat(hs), Flat(ms), |Flat(ms[..j])|, moreSo, str)
    ensures OffsetsFrom(loc, entries + [ms[j].(so := |str|)])
  {
    hide Letters, Firsts, Flat, OffsetsFrom;
    SameFlat(entries, hs + ms[..j]);
    FlatAppend(hs, ms[..j]);
    FlatPrefix(ms, j);
    assert Flat(ms)[..|Flat(ms[..j])|] == Flat(ms[..j]);
    LettersAppend(loc, Flat(hs), Flat(ms[..j]));
    AddEntry(loc, entries, ms[j].(so := |str|));
  }

  // ----- argp_hol -----

  /** The cluster of a child: its own when it has a group or a header, else its parent's. */
  function ChildCluster(c: ArgpChild, index: nat, cluster: Option<Cluster>, id: nat): Option<Cluster> {
    if c.group != 0 || c.header.Some? then
      Some(Cluster(id, c.header, index, c.group, cluster, if cluster.Some? then cluster.value.depth + 1 else 0))
    else cluster
  }

  /** The cluster of every argp of a tree, in preorder; a new cluster is named by its argp's position. */
  function NodeClusters(t: Argp, cluster: Option<Cluster>, node: nat): (r: seq<Option<Cluster>>)
    ensures |r| == |Nodes(t)|
    decreases t, 1
  {
    [cluster] + NodeClustersOf(t.children, cluster, node + 1)
  }

  function NodeClustersOf(cs: seq<ArgpChild>, cluster: Option<Cluster>, node: nat): (r: seq<Option<Cluster>>)
    ensures |r| == |NodesOf(cs)|
    decreases cs, 0
  {
    if cs == [] then [] else
    var last := |cs| - 1;
    assert cs decreases to cs[last];
    var id := node + |NodesOf(cs[..last])|;
    NodeClustersOf(cs[..last], cluster, node) + NodeClusters(cs[last].argp, ChildCluster(cs[last], last, cluster, id), id)
  }

  /** The entries of all argps of a tree, in preorder, offsets aside. */
  function EntryList(nodes: seq<Argp>, clusters: seq<Option<Cluster>>, node: nat): seq<Entry>
    requires |nodes| == |clusters|
  {
    if nodes == [] then [] else
    var last := |nodes| - 1;
    EntryList(nodes[..last], clusters[..last], node) + NodeEntries(Opts(nodes[last]), node + last, clusters[last])
  }

  lemma {:induction false} EntryListAppend(a: seq<Argp>, b: seq<Argp>, ca: seq<Option<Cluster>>, cb: seq<Option<Cluster>>, node: nat)
    requires |a| == |ca| && |b| == |cb|
    ensures EntryList(a + b, ca + cb, node) == EntryList(a, ca, node) + EntryList(b, cb, node + |a|)
  {
    hide NodeEntries, EntryList;
    if b == [] {
      assert a + b == a && ca + cb == ca;
      EntryListEmpty(node + |a|);
    } else {
      var last := |b| - 1;
      var b', cb', x, c := b[..last], cb[..last], b[last], cb[last];
      assert b == b' + [x] && cb == cb' + [c];
      assert a + b == (a + b') + [x] && ca + cb == (ca + cb') + [c];
      EntryListAppend(a, b', ca, cb', node);
      EntryListSnoc(a + b', ca + cb', x, c, node);
      EntryListSnoc(b', cb', x, c, node + |a|);
    }
  }

  lemma {:induction false} EntryListEmpty(node: nat)
    ensures EntryList([], [], node) == []
  {
  }

  lemma {:induction false} EntryListSnoc(ns: seq<Argp>, cs: seq<Option<Cluster>>, x: Argp, c: Option<Cluster>, node: nat)
    requires |ns| == |cs|
    ensures EntryList(ns + [x], cs + [c], node) == EntryList(ns, cs, node) + NodeEntries(Opts(x), node + |ns|, c)
  {
    assert (ns + [x])[..|ns|] == ns && (cs + [c])[..|cs|] == cs;
  }

  predicate NoLeadingAlias(nodes: seq<Argp>) {
    forall a :: a in nodes && Opts(a) != [] ==> !Opts(a)[0].alias
  }

  /** The list built so far over the argps `nodes`. */
  predicate Covers(loc: Locale, hol: Hol, nodes: seq<Argp>, clusters: seq<Option<Cluster>>, node: nat)
    requires |nodes| == |clusters|
  {
    && SameEntries(hol.entries, EntryList(nodes, clusters, node))
    && Flat(hol.entries) == TaggedOpts(nodes, node)
    && (forall x :: x in hol.shorts ==> -128 <= x < 128)
    && (AsciiShorts(loc, TaggedOpts(nodes, node)) ==> Represents(loc, hol))
  }

  lemma {:induction false} CoversOne(loc: Locale, hol: Hol, t: Argp, cluster: Option<Cluster>, node: nat)
    requires Flat(hol.entries) == TagAll(node, Opts(t)) && Represents(loc, hol)
    requires SameEntries(hol.entries, NodeEntries(Opts(t), node, cluster))
    ensures Covers(loc, hol, [t], [cluster], node)
  {
    hide NodeEntries, SameEntries, TagAll, Letters;
    assert [t][..0] == [] && [cluster][..0] == [];
    var w := Letters(loc, Flat(hol.entries));
    LettersAreChars(loc, Flat(hol.entries));
    FirstsMembers(w);
    assert EntryList([t], [cluster], node) == [] + NodeEntries(Opts(t), node, cluster) == NodeEntries(Opts(t), node, cluster);
    assert TaggedOpts([t], node) == [] + TagAll(node, Opts(t)) == TagAll(node, Opts(t));
  }

  lemma {:induction false} CoversAppend(loc: Locale, hol: Hol, more: Hol, a: seq<Argp>, b: seq<Argp>,
                                        ca: seq<Option<Cluster>>, cb: seq<Option<Cluster>>, node: nat)
    requires |a| == |ca| && |b| == |cb|
    requires Covers(loc, hol, a, ca, node) && Covers(loc, more, b, cb, node + |a|)
    ensures Covers(loc, Appended(loc, hol, more), a + b, ca + cb, node)
  {
    hide EntryList, TaggedOpts, Represents, Flat, Appended;
    AppendedIs(loc, hol, more);
    EntryListAppend(a, b, ca, cb, node);
    TaggedOptsAppend(a, b, node);
    var ta, tb := TaggedOpts(a, node), TaggedOpts(b, node + |a|);
    AsciiParts(loc, ta, tb);
  }

  lemma {:induction false} AsciiParts(loc: Locale, a: seq<Tagged>, b: seq<Tagged>)
    ensures AsciiShorts(loc, a + b) <==> AsciiShorts(loc, a) && AsciiShorts(loc, b)
  {
    assert forall p :: 0 <= p < |a| ==> (a + b)[p] == a[p];
    assert forall p :: 0 <= p < |b| ==> (a + b)[|a| + p] == b[p];
  }

  /** The list of an argp and its first k children. */
  function ChildrenHol(loc: Locale, t: Argp, k: nat, cluster: Option<Cluster>, node: nat): Hol
    requires k <= |t.children|
    decreases t, k
  {
    if k == 0 then OneHol(loc, Opts(t), node, cluster) else
    var c, id := t.children[k - 1], node + 1 + |NodesOf(t.children[..k - 1])|;
    assert t.children decreases to c;
    Appended(loc, ChildrenHol(loc, t, k - 1, cluster, node), TreeHol(loc, c.argp, ChildCluster(c, k - 1, cluster, id), id))
  }

  /** The list of a whole tree. */
  function TreeHol(loc: Locale, t: Argp, cluster: Option<Cluster>, node: nat): Hol
    decreases t, |t.children| + 1
  {
    ChildrenHol(loc, t, |t.children|, cluster, node)
  }

  /** argp_hol: the list over the whole tree. */
  method ArgpHol(loc: Locale, t: Argp, cluster: Option<Cluster>, node: nat) returns (hol: Hol)
    requires NoLeadingAlias(Nodes(t))
    ensures hol == TreeHol(loc, t, cluster, node)
    decreases t
  {
    hide NoLeadingAlias, Appended, OneHol, ChildrenHol, TreeHol, NodesOf, Nodes, NodeClustersOf, ChildCluster;
    RootFirst(t);
    hol := MakeHol(loc, t, cluster, node);
    ChildrenHolSteps(loc, t, cluster, node);
    var k, id := 0, node + 1;
    while k < |t.children|
      invariant 0 <= k <= |t.children| && id == node + 1 + |NodesOf(t.children[..k])|
      invariant hol == ChildrenHol(loc, t, k, cluster, node)
    {
      var c := t.children[k];
      var cl := ChildCluster(c, k, cluster, id);
      ChildAliases(t, k);
      assert t.children decreases to c;
      ChildHolStep(loc, t, k, cluster, node);
      var more := ArgpHol(loc, c.argp, cl, id);
      hol := HolAppend(loc, hol, more);
      OneMoreChild(t, k, cluster, node);
      id := id + NodeCount(c.argp);
      k := k + 1;
    }
  }

  lemma {:induction false} ChildrenHolSteps(loc: Locale, t: Argp, cluster: Option<Cluster>, node: nat)
    ensures ChildrenHol(loc, t, 0, cluster, node) == OneHol(loc, Opts(t), node, cluster)
    ensures TreeHol(loc, t, cluster, node) == ChildrenHol(loc, t, |t.children|, cluster, node)
    ensures NodesOf(t.children[..0]) == []
  {
    hide OneHol, Appended;
  }

  lemma {:induction false} ChildHolStep(loc: Locale, t: Argp, k: nat, cluster: Option<Cluster>, node: nat)
    requires k < |t.children|
    ensures var c, id := t.children[k], node + 1 + |NodesOf(t.children[..k])|;
            ChildrenHol(loc, t, k + 1, cluster, node)
              == Appended(loc, ChildrenHol(loc, t, k, cluster, node), TreeHol(loc, c.argp, ChildCluster(c, k, cluster, id), id))
  {
    hide OneHol, Appended, NodesOf, TreeHol, ChildCluster;
  }

  lemma {:induction false} OneHolCovers(loc: Locale, t: Argp, cluster: Option<Cluster>, node: nat)
    requires Opts(t) != [] ==> !Opts(t)[0].alias
    ensures Covers(loc, OneHol(loc, Opts(t), node, cluster), [t], [cluster], node)
  {
    hide Letters, Firsts, NodeEntries, TagAll, OffsetsFrom, WithOffsets;
    var opts := Opts(t);
    var hol := OneHol(loc, opts, node, cluster);
    OffsetsHold(loc, NodeEntries(opts, node, cluster));
    SameFlat(hol.entries, NodeEntries(opts, node, cluster));
    NodeEntriesFlat(opts, node, cluster);
    FromOffsets(loc, hol);
    CoversOne(loc, hol, t, cluster, node);
  }

  lemma {:induction false} FromOffsets(loc: Locale, hol: Hol)
    requires OffsetsFrom(loc, hol.entries) && hol.shorts == Firsts(Letters(loc, Flat(hol.entries)))
    ensures Represents(loc, hol)
  {
  }

  lemma {:induction false} OffsetsHold(loc: Locale, es: seq<Entry>)
    ensures OffsetsFrom(loc, WithOffsets(loc, es)) && SameEntries(WithOffsets(loc, es), es)
  {
    hide Letters, Firsts, Flat;
    var w := WithOffsets(loc, es);
    forall i | 0 <= i < |w| ensures w[i].so == |Firsts(Letters(loc, Flat(w[..i])))| { SameFlat(w[..i], es[..i]); }
  }

  lemma {:induction false} NodeEntriesFlat(opts: seq<ArgpOption>, node: nat, cluster: Option<Cluster>)
    ensures Flat(NodeEntries(opts, node, cluster)) == TagAll(node, opts)
    ensures forall e :: e in NodeEntries(opts, node, cluster) ==> e.node == node
  {
    hide NodeEntries, Flat;
    if opts == [] {
      NoNodeEntries(node, cluster);
      assert Flat([]) == [] by { NoFlat(); }
    } else {
      var front, o := opts[..|opts| - 1], opts[|opts| - 1];
      assert opts == front + [o];
      NodeEntriesFlat(front, node, cluster);
      NodeEntriesSnoc(front, o, node, cluster);
      var es := NodeEntries(front, node, cluster);
      if o.alias && es != [] {
        LastLonger(es, o);
      } else {
        FlatSnoc(es, Entry([o], 0, EntryGroup(if es == [] then 0 else es[|es| - 1].group, o), cluster, node));
      }
      assert TagAll(node, opts) == TagAll(node, front) + [Tagged(node, o)];
    }
  }

  lemma {:induction false} NoFlat()
    ensures Flat([]) == []
  {
  }

  lemma {:induction false} FlatSnoc(es: seq<Entry>, e: Entry)
    ensures Flat(es + [e]) == Flat(es) + TagAll(e.node, e.opts)
  {
    assert (es + [e])[..|es|] == es;
  }

  lemma {:induction false} LastLonger(es: seq<Entry>, o: ArgpOption)
    requires es != []
    ensures var last := es[|es| - 1];
            Flat(es[|es| - 1 := last.(opts := last.opts + [o])]) == Flat(es) + [Tagged(last.node, o)]
  {
    hide Flat;
    var last, front := es[|es| - 1], es[..|es| - 1];
    assert es == front + [last];
    var long := last.(opts := last.opts + [o]);
    assert es[|es| - 1 := long] == front + [long];
    FlatSnoc(front, last);
    FlatSnoc(front, long);
    assert TagAll(last.node, last.opts + [o]) == TagAll(last.node, last.opts) + [Tagged(last.node, o)];
  }

  /** The list of every tree covers its argps in preorder. */
  lemma {:induction false} TreeCovers(loc: Locale, t: Argp, cluster: Option<Cluster>, node: nat)
    requires NoLeadingAlias(Nodes(t))
    ensures Covers(loc, TreeHol(loc, t, cluster, node), Nodes(t), NodeClusters(t, cluster, node), node)
    decreases t, |t.children| + 1
  {
    hide Covers, ChildrenHol, NoLeadingAlias, NodesOf, NodeClustersOf;
    ChildrenCover(loc, t, |t.children|, cluster, node);
    assert t.children[..|t.children|] == t.children;
  }

  lemma {:induction false} ChildrenCover(loc: Locale, t: Argp, k: nat, cluster: Option<Cluster>, node: nat)
    requires k <= |t.children| && NoLeadingAlias(Nodes(t))
    ensures Covers(loc, ChildrenHol(loc, t, k, cluster, node), [t] + NodesOf(t.children[..k]), [cluster] + NodeClustersOf(t.children[..k], cluster, node + 1), node)
    decreases t, k
  {
    hide Covers, NoLeadingAlias, Appended, OneHol, TreeHol, NodesOf, NodeClustersOf;
    if k == 0 {
      RootFirst(t);
      NoChildren(t, cluster, node);
      OneHolCovers(loc, t, cluster, node);
    } else {
      var c, front := t.children[k - 1], t.children[..k - 1];
      var id := node + 1 + |NodesOf(front)|;
      var cl := ChildCluster(c, k - 1, cluster, id);
      ChildAliases(t, k - 1);
      assert t.children decreases to c;
      ChildrenCover(loc, t, k - 1, cluster, node);
      TreeCovers(loc, c.argp, cl, id);
      CoversAppend(loc, ChildrenHol(loc, t, k - 1, cluster, node), TreeHol(loc, c.argp, cl, id), [t] + NodesOf(front), Nodes(c.argp),
                   [cluster] + NodeClustersOf(front, cluster, node + 1), NodeClusters(c.argp, cl, id), node);
      OneMoreChild(t, k - 1, cluster, node);
    }
  }

  function NodeCount(t: Argp): (n: nat)
    ensures n == |Nodes(t)|
  {
    |Nodes(t)|
  }

  lemma {:induction false} NoChildren(t: Argp, cluster: Option<Cluster>, node: nat)
    ensures [t] + NodesOf(t.children[..0]) == [t]
    ensures [cluster] + NodeClustersOf(t.children[..0], cluster, node + 1) == [cluster]
  {
  }

  lemma {:induction false} OneMoreChild(t: Argp, k: nat, cluster: Option<Cluster>, node: nat)
    requires k < |t.children|
    ensures var c, front := t.children[k], t.children[..k];
            var id := node + 1 + |NodesOf(front)|;
            && [t] + NodesOf(front) + Nodes(c.argp) == [t] + NodesOf(t.children[..k + 1])
            && [cluster] + NodeClustersOf(front, cluster, node + 1) + NodeClusters(c.argp, ChildCluster(c, k, cluster, id), id)
            == [cluster] + NodeClustersOf(t.children[..k + 1], cluster, node + 1)
  {
    hide Nodes, NodeClusters, ChildCluster;
    var cs, c := t.children[..k + 1], t.children[k];
    assert cs[..k] == t.children[..k] && cs[k] == c;
    var id := node + 1 + |NodesOf(t.children[..k])|;
    assert NodesOf(cs) == NodesOf(t.children[..k]) + Nodes(c.argp);
    assert NodeClustersOf(cs, cluster, node + 1)
        == NodeClustersOf(t.children[..k], cluster, node + 1) + NodeClusters(c.argp, ChildCluster(c, k, cluster, id), id);
  }

  lemma {:induction false} RootFirst(t: Argp)
    requires NoLeadingAlias(Nodes(t))
    ensures Opts(t) != [] ==> !Opts(t)[0].alias
  {
    assert Nodes(t)[0] == t;
  }

  lemma {:induction false} ChildAliases(t: Argp, k: nat)
    requires NoLeadingAlias(Nodes(t)) && k < |t.children|
    ensures NoLeadingAlias(Nodes(t.children[k].argp))
  {
    ChildNodes(t.children, k);
  }

  lemma {:induction false} ChildNodes(cs: seq<ArgpChild>, k: nat)
    requires k < |cs|
    ensures forall a :: a in Nodes(cs[k].argp) ==> a in NodesOf(cs)
    decreases cs
  {
    if k < |cs| - 1 { ChildNodes(cs[..|cs| - 1], k); }
  }

  lemma {:induction false} NodeEntriesShape(opts: seq<ArgpOption>, node: nat, cluster: Option<Cluster>)
    requires opts != [] ==> !opts[0].alias
    ensures opts != [] ==> NodeEntries(opts, node, cluster) != []
    ensures forall e :: e in NodeEntries(opts, node, cluster) ==> IsEntry(e)
  {
    hide NodeEntries, IsEntry;
    if opts == [] {
      NoNodeEntries(node, cluster);
    } else {
      var front, o := opts[..|opts| - 1], opts[|opts| - 1];
      assert opts == front + [o];
      NodeEntriesShape(front, node, cluster);
      NodeEntriesSnoc(front, o, node, cluster);
      var es := NodeEntries(front, node, cluster);
      if es != [] && o.alias {
        LongerEntry(es, o);
      } else {
        NewEntry(o, EntryGroup(if es == [] then 0 else es[|es| - 1].group, o), cluster, node);
      }
    }
  }

  lemma {:induction false} NoNodeEntries(node: nat, cluster: Option<Cluster>)
    ensures NodeEntries([], node, cluster) == []
  {
  }

  lemma {:induction false} LongerEntry(es: seq<Entry>, o: ArgpOption)
    requires es != [] && o.alias && forall e :: e in es ==> IsEntry(e)
    ensures forall e :: e in es[|es| - 1 := es[|es| - 1].(opts := es[|es| - 1].opts + [o])] ==> IsEntry(e)
  {
    var e := es[|es| - 1];
    assert e in es;
    assert IsEntry(e.(opts := e.opts + [o]));
  }

  lemma {:induction false} NewEntry(o: ArgpOption, group: int, cluster: Option<Cluster>, node: nat)
    requires !o.alias
    ensures IsEntry(Entry([o], 0, group, cluster, node))
  {
  }

  lemma {:induction false} EntryListShape(nodes: seq<Argp>, clusters: seq<Option<Cluster>>, node: nat)
    requires |nodes| == |clusters| && NoLeadingAlias(nodes)
    ensures forall e :: e in EntryList(nodes, clusters, node) ==> IsEntry(e)
  {
    if nodes != [] {
      var last := |nodes| - 1;
      EntryListShape(nodes[..last], clusters[..last], node);
      NodeEntriesShape(Opts(nodes[last]), node + last, clusters[last]);
    }
  }

  /** The list of a tree: its entries, in preorder, find exactly the options that no earlier option shadows if and
      only if no short option has a key above 127; then no letter is there twice, and there are as many matches as
      letters. */
  lemma {:induction false} TreeHolFinds(loc: Locale, t: Argp)
    requires NoLeadingAlias(Nodes(t))
    ensures var hol := TreeHol(loc, t, None, 0);
            && SameEntries(hol.entries, EntryList(Nodes(t), NodeClusters(t, None, 0), 0))
            && Flat(hol.entries) == TaggedOpts(Nodes(t), 0)
            && (forall e :: e in hol.entries ==> IsEntry(e))
            && (forall x :: x in hol.shorts ==> x < 128)
            && (FindsFirsts(loc, hol) <==> AsciiShorts(loc, TaggedOpts(Nodes(t), 0)))
            && (AsciiShorts(loc, TaggedOpts(Nodes(t), 0)) ==>
                  Represents(loc, hol) && Distinct(hol.shorts) && |AllMatches(loc, hol.shorts, hol.entries)| == |hol.shorts|)
  {
    hide FindsFirsts, Represents, AllMatches, EntryList, TaggedOpts, Flat, TreeHol;
    var hol := TreeHol(loc, t, None, 0);
    TreeCovers(loc, t, None, 0);
    EntryListShape(Nodes(t), NodeClusters(t, None, 0), 0);
    var spec := EntryList(Nodes(t), NodeClusters(t, None, 0), 0);
    assert forall i :: 0 <= i < |hol.entries| ==> spec[i] in spec && IsEntry(hol.entries[i]);
    if AsciiShorts(loc, TaggedOpts(Nodes(t), 0)) {
      RepresentedFindsFirsts(loc, hol);
    } else {
      WideKeyIsLost(loc, hol);
    }
  }

  /** The list _help builds: the entries find exactly the options that no earlier option shadows, whatever
      the tree, if and only if no short option has a key above 127. */
  method HelpOptionList(loc: Locale, t: Argp) returns (hol: Hol)
    requires NoLeadingAlias(Nodes(t))
    ensures hol == TreeHol(loc, t, None, 0)
    ensures SameEntries(hol.entries, EntryList(Nodes(t), NodeClusters(t, None, 0), 0))
    ensures Flat(hol.entries) == TaggedOpts(Nodes(t), 0)
    ensures forall e :: e in hol.entries ==> IsEntry(e)
    ensures FindsFirsts(loc, hol) <==> AsciiShorts(loc, TaggedOpts(Nodes(t), 0))
    ensures AsciiShorts(loc, TaggedOpts(Nodes(t), 0)) ==>
              && Represents(loc, hol) && Distinct(hol.shorts) && |AllMatches(loc, hol.shorts, hol.entries)| == |hol.shorts|
  {
    hide FindsFirsts, Represents, AllMatches, EntryList, TaggedOpts, Flat, TreeHol;
    hol := ArgpHol(loc, t, None, 0);
    TreeHolFinds(loc, t);
  }
}
