/** The help option list: the merged list of entries argp builds over a tree of argps, in which an entry
    finds its own short options through a pointer into one shared string. */
module HelpList {
  import opened Options
  import opened ArgpTree
  import opened HelpEntries

  /** An option with the preorder position of the argp that declares it. */
  datatype Tagged = Tagged(node: nat, opt: ArgpOption)

  /** The entries of a list, and its string of unshadowed short options (characters are signed). */
  datatype Hol = Hol(entries: seq<Entry>, shorts: seq<int>)

  // ----- the reference: options in preorder and their first occurrences -----

  function TagAll(node: nat, opts: seq<ArgpOption>): seq<Tagged> {
    seq(|opts|, i requires 0 <= i < |opts| => Tagged(node, opts[i]))
  }

  /** All options of the given argps, in order; the first argp has position `node`. */
  function TaggedOpts(nodes: seq<Argp>, node: nat): seq<Tagged> {
    if nodes == [] then [] else
    var last := |nodes| - 1;
    TaggedOpts(nodes[..last], node) + TagAll(node + last, Opts(nodes[last]))
  }

  /** All options of the given entries, in order. */
  function Flat(entries: seq<Entry>): seq<Tagged> {
    if entries == [] then [] else
    var last := |entries| - 1;
    Flat(entries[..last]) + TagAll(entries[last].node, entries[last].opts)
  }

  /** The value of a `char` holding this key. */
  function ToChar(key: int): int { if key >= 128 then key - 256 else key }

  /** The letters of the short options, in order, with repetitions. */
  function Letters(loc: Locale, s: seq<Tagged>): seq<int> {
    if s == [] then [] else
    var last := |s| - 1;
    Letters(loc, s[..last]) + if OptionIsShort(loc, s[last].opt) then [ToChar(s[last].opt.key)] else []
  }

  /** The distinct elements of s, in the order in which they first occur. */
  function Firsts(s: seq<int>): seq<int> {
    if s == [] then [] else
    var last := |s| - 1;
    Firsts(s[..last]) + if s[last] in s[..last] then [] else [s[last]]
  }

  /** Option p is a short option whose letter no earlier option has. */
  predicate IsFirst(loc: Locale, s: seq<Tagged>, p: nat)
    requires p < |s|
  {
    OptionIsShort(loc, s[p].opt) && ToChar(s[p].opt.key) !in Letters(loc, s[..p])
  }

  /** The positions from p up to q of first occurrences. */
  function FirstPositions(loc: Locale, s: seq<Tagged>, p: nat, q: nat): seq<nat>
    requires p <= q <= |s|
    decreases q - p
  {
    if p == q then [] else (if IsFirst(loc, s, p) then [p] else []) + FirstPositions(loc, s, p + 1, q)
  }

  /** The positions at which iterating over each entry in turn finds a valid short option. */
  function AllMatches(loc: Locale, shorts: seq<int>, entries: seq<Entry>): seq<nat> {
    if entries == [] then [] else
    var last := |entries| - 1;
    AllMatches(loc, shorts, entries[..last])
    + ShortMatches(loc, shorts, entries[last].opts, entries[last].so, |Flat(entries[..last])|)
  }

  predicate AsciiShorts(loc: Locale, s: seq<Tagged>) {
    forall p :: 0 <= p < |s| && OptionIsShort(loc, s[p].opt) ==> s[p].opt.key < 128
  }

  /** The shared string holds the first occurrences, and each entry points behind those of earlier entries. */
  predicate Represents(loc: Locale, hol: Hol) {
    && hol.shorts == Firsts(Letters(loc, Flat(hol.entries)))
    && forall i {:trigger hol.entries[i].so} :: 0 <= i < |hol.entries| ==> hol.entries[i].so == |Firsts(Letters(loc, Flat(hol.entries[..i])))|
  }

  /** An entry is an option followed by its aliases. */
  predicate IsEntry(e: Entry) {
    e.opts != [] && !e.opts[0].alias && forall k :: 1 <= k < |e.opts| ==> e.opts[k].alias
  }

  /** The group of an entry, given that of the entry before it. */
  function EntryGroup(prev: int, o: ArgpOption): int {
    if o.group != 0 then o.group
    else if o.name.None? && o.key == 0 then prev + 1
    else prev
  }

  // ----- first occurrences -----

  lemma {:induction false} FirstsMembers(s: seq<int>)
    ensures forall x :: x in Firsts(s) <==> x in s
  {
    if s != [] {
      FirstsMembers(s[..|s| - 1]);
      assert s == s[..|s| - 1] + [s[|s| - 1]];
    }
  }

  predicate Distinct(s: seq<int>) { forall i, j :: 0 <= i < j < |s| ==> s[i] != s[j] }

  lemma {:induction false} FirstsDistinct(s: seq<int>)
    ensures Distinct(Firsts(s))
  {
    if s != [] {
      FirstsDistinct(s[..|s| - 1]);
      FirstsMembers(s[..|s| - 1]);
    }
  }

  lemma {:induction false} FirstsPrefix(s: seq<int>, n: nat)
    requires n <= |s|
    ensures Firsts(s[..n]) <= Firsts(s)
  {
    if n == |s| {
      assert s[..n] == s;
    } else {
      FirstsPrefix(s[..|s| - 1], n);
      assert s[..|s| - 1][..n] == s[..n];
    }
  }

  lemma {:induction false} FirstsSnoc(s: seq<int>, x: int)
    ensures Firsts(s + [x]) == if x in s then Firsts(s) else Firsts(s) + [x]
  {
    assert (s + [x])[..|s|] == s;
  }

  lemma {:induction false} LettersSnoc(loc: Locale, s: seq<Tagged>, x: Tagged)
    ensures Letters(loc, s + [x]) == if OptionIsShort(loc, x.opt) then Letters(loc, s) + [ToChar(x.opt.key)] else Letters(loc, s)
  {
    assert (s + [x])[..|s|] == s;
  }

  lemma {:induction false} LettersPrefix(loc: Locale, s: seq<Tagged>, n: nat)
    requires n <= |s|
    ensures Letters(loc, s[..n]) <= Letters(loc, s)
  {
    if n == |s| {
      assert s[..n] == s;
    } else {
      LettersPrefix(loc, s[..|s| - 1], n);
      assert s[..|s| - 1][..n] == s[..n];
    }
  }

  lemma {:induction false} LettersAppend(loc: Locale, s: seq<Tagged>, t: seq<Tagged>)
    ensures Letters(loc, s + t) == Letters(loc, s) + Letters(loc, t)
  {
    if t == [] {
      assert s + t == s;
    } else {
      var l := |t| - 1;
      assert (s + t)[..|s + t| - 1] == s + t[..l];
      LettersAppend(loc, s, t[..l]);
    }
  }

  lemma {:induction false} LettersAreChars(loc: Locale, s: seq<Tagged>)
    ensures forall x :: x in Letters(loc, s) ==> -128 <= x < 128 && x != 0
  {
    if s != [] { LettersAreChars(loc, s[..|s| - 1]); }
  }

  /** The letter the pointer stands on is the next option's own exactly when that letter is new. */
  lemma {:induction false} NextLetter(w: seq<int>, n: nat)
    requires n < |w| && w[n] != 0
    ensures CharAt(Firsts(w), |Firsts(w[..n])|) == w[n] <==> w[n] !in w[..n]
  {
    FirstsPrefix(w, n + 1);
    assert w[..n + 1] == w[..n] + [w[n]];
    FirstsSnoc(w[..n], w[n]);
    if w[n] in w[..n] {
      FirstsPrefix(w, n);
      FirstsDistinct(w);
      FirstsMembers(w[..n]);
      var k :| 0 <= k < |Firsts(w[..n])| && Firsts(w[..n])[k] == w[n];
      assert Firsts(w)[k] == w[n];
    }
  }

  lemma {:induction false} NextOption(loc: Locale, s: seq<Tagged>, p: nat)
    requires p < |s|
    ensures OptionIsShort(loc, s[p].opt) ==>
              (CharAt(Firsts(Letters(loc, s)), |Firsts(Letters(loc, s[..p]))|) == ToChar(s[p].opt.key) <==> IsFirst(loc, s, p))
    ensures |Firsts(Letters(loc, s[..p + 1]))| == |Firsts(Letters(loc, s[..p]))| + if IsFirst(loc, s, p) then 1 else 0
  {
    assert s[..p + 1] == s[..p] + [s[p]];
    LettersSnoc(loc, s[..p], s[p]);
    if OptionIsShort(loc, s[p].opt) {
      var w, n := Letters(loc, s), |Letters(loc, s[..p])|;
      LettersPrefix(loc, s, p);
      LettersPrefix(loc, s, p + 1);
      assert w[..n] == Letters(loc, s[..p]) && w[n] == ToChar(s[p].opt.key);
      NextLetter(w, n);
      FirstsSnoc(w[..n], w[n]);
    } else {
      assert Letters(loc, s[..p + 1]) == Letters(loc, s[..p]);
    }
  }

  /** Iterating over an entry visits exactly its first occurrences. */
  lemma {:induction false} MatchSegment(loc: Locale, s: seq<Tagged>, p: nat, opts: seq<ArgpOption>)
    requires AsciiShorts(loc, s) && p + |opts| <= |s|
    requires forall i :: 0 <= i < |opts| ==> s[p + i].opt == opts[i]
    ensures ShortMatches(loc, Firsts(Letters(loc, s)), opts, |Firsts(Letters(loc, s[..p]))|, p) == FirstPositions(loc, s, p, p + |opts|)
    decreases |opts|
  {
    if opts != [] {
      assert s[p].opt == opts[0];
      NextOption(loc, s, p);
      MatchSegment(loc, s, p + 1, opts[1..]);
    }
  }

  lemma {:induction false} FirstPositionsAppend(loc: Locale, s: seq<Tagged>, p: nat, q: nat, r: nat)
    requires p <= q <= r <= |s|
    ensures FirstPositions(loc, s, p, q) + FirstPositions(loc, s, q, r) == FirstPositions(loc, s, p, r)
    decreases q - p
  {
    if p < q { FirstPositionsAppend(loc, s, p + 1, q, r); }
  }

  lemma {:induction false} FirstPositionsCount(loc: Locale, s: seq<Tagged>, q: nat)
    requires q <= |s|
    ensures |FirstPositions(loc, s, 0, q)| == |Firsts(Letters(loc, s[..q]))|
  {
    if q > 0 {
      FirstPositionsCount(loc, s, q - 1);
      FirstPositionsAppend(loc, s, 0, q - 1, q);
      NextOption(loc, s, q - 1);
      assert FirstPositions(loc, s, q, q) == [];
    }
  }

  lemma {:induction false} FirstPositionsMembers(loc: Locale, s: seq<Tagged>, p: nat, q: nat)
    requires p <= q <= |s|
    ensures forall i :: i in FirstPositions(loc, s, p, q) <==> p <= i < q && IsFirst(loc, s, i)
    decreases q - p
  {
    if p < q { FirstPositionsMembers(loc, s, p + 1, q); }
  }

  // ----- flat lists -----

  lemma {:induction false} FlatAppend(a: seq<Entry>, b: seq<Entry>)
    ensures Flat(a + b) == Flat(a) + Flat(b)
  {
    if b == [] {
      assert a + b == a;
    } else {
      var last := |b| - 1;
      assert (a + b)[..|a + b| - 1] == a + b[..last] && (a + b)[|a + b| - 1] == b[last];
      FlatAppend(a, b[..last]);
      var t := TagAll(b[last].node, b[last].opts);
      assert Flat(a + b) == Flat(a + b[..last]) + t && Flat(b) == Flat(b[..last]) + t;
    }
  }

  lemma {:induction false} FlatPrefix(es: seq<Entry>, n: nat)
    requires n <= |es|
    ensures Flat(es[..n]) <= Flat(es)
    ensures n < |es| ==> Flat(es[..n + 1]) == Flat(es[..n]) + TagAll(es[n].node, es[n].opts)
  {
    assert es == es[..n] + es[n..];
    FlatAppend(es[..n], es[n..]);
    if n < |es| { assert es[..n + 1][..n] == es[..n]; }
  }

  lemma {:induction false} TaggedOptsAppend(a: seq<Argp>, b: seq<Argp>, node: nat)
    ensures TaggedOpts(a + b, node) == TaggedOpts(a, node) + TaggedOpts(b, node + |a|)
  {
    if b == [] {
      assert a + b == a;
    } else {
      assert (a + b)[..|a + b| - 1] == a + b[..|b| - 1];
      TaggedOptsAppend(a, b[..|b| - 1], node);
    }
  }

  // ----- the whole list -----

  lemma {:induction false} Segment<T>(a: seq<T>, t: seq<T>, s: seq<T>)
    requires a + t <= s
    ensures s[..|a|] == a && forall i :: 0 <= i < |t| ==> s[|a| + i] == t[i]
  {
    assert forall i :: 0 <= i < |t| ==> (a + t)[|a| + i] == t[i];
  }

  /** The options of entry n lie in the flat list right after those of the entries before it. */
  lemma {:induction false} EntrySegment(es: seq<Entry>, n: nat, p: nat)
    requires n < |es| && p == |Flat(es[..n])|
    ensures p + |es[n].opts| == |Flat(es[..n + 1])| <= |Flat(es)|
    ensures Flat(es)[..p] == Flat(es[..n])
    ensures forall i :: 0 <= i < |es[n].opts| ==> Flat(es)[p + i].opt == es[n].opts[i]
  {
    hide Flat;
    FlatPrefix(es, n);
    FlatPrefix(es, n + 1);
    var s, t := Flat(es), TagAll(es[n].node, es[n].opts);
    Segment(Flat(es[..n]), t, s);
    forall i | 0 <= i < |es[n].opts| ensures s[p + i].opt == es[n].opts[i] { assert s[p + i] == t[i]; }
  }

  lemma {:induction false} MatchesFromEntries(loc: Locale, hol: Hol, n: nat)
    requires Represents(loc, hol) && AsciiShorts(loc, Flat(hol.entries)) && n <= |hol.entries|
    ensures |Flat(hol.entries[..n])| <= |Flat(hol.entries)|
    ensures AllMatches(loc, hol.shorts, hol.entries[..n])
         == FirstPositions(loc, Flat(hol.entries), 0, |Flat(hol.entries[..n])|)
  {
    if n > 0 {
      MatchesFromEntries(loc, hol, n - 1);
      EntryMatches(loc, hol, n - 1, |Flat(hol.entries[..n - 1])|);
      assert hol.entries[..n][..n - 1] == hol.entries[..n - 1];
    }
  }

  lemma {:induction false} EntryMatches(loc: Locale, hol: Hol, n: nat, p: nat)
    requires Represents(loc, hol) && AsciiShorts(loc, Flat(hol.entries)) && n < |hol.entries|
    requires p == |Flat(hol.entries[..n])|
    ensures p <= |Flat(hol.entries[..n + 1])| <= |Flat(hol.entries)|
    ensures FirstPositions(loc, Flat(hol.entries), 0, p) + ShortMatches(loc, hol.shorts, hol.entries[n].opts, hol.entries[n].so, p)
         == FirstPositions(loc, Flat(hol.entries), 0, |Flat(hol.entries[..n + 1])|)
  {
    hide Flat, Letters, Firsts, FirstPositions, ShortMatches, AsciiShorts;
    var s, e := Flat(hol.entries), hol.entries[n];
    EntrySegment(hol.entries, n, p);
    MatchSegment(loc, s, p, e.opts);
    FirstPositionsAppend(loc, s, 0, p, p + |e.opts|);
  }

  /** No letter of a `char` string equals a key above 127, so no such key is ever found. */
  lemma {:induction false} MatchesAreAscii(loc: Locale, str: seq<int>, opts: seq<ArgpOption>, so: nat, base: nat)
    requires forall x :: x in str ==> x < 128
    ensures forall q :: q in ShortMatches(loc, str, opts, so, base) ==> base <= q < base + |opts| && opts[q - base].key < 128
    decreases |opts|
  {
    if opts != [] {
      MatchesAreAscii(loc, str, opts[1..], so, base + 1);
      MatchesAreAscii(loc, str, opts[1..], so + 1, base + 1);
      forall q | q in ShortMatches(loc, str, opts, so, base)
        ensures base <= q < base + |opts| && opts[q - base].key < 128
      {
        if OptionIsShort(loc, opts[0]) && CharAt(str, so) == opts[0].key && q == base {
          assert so < |str| ==> str[so] in str;
        } else {
          assert q in ShortMatches(loc, str, opts[1..], so, base + 1) || q in ShortMatches(loc, str, opts[1..], so + 1, base + 1);
          assert opts[q - base] == opts[1..][q - (base + 1)];
        }
      }
    }
  }

  lemma {:induction false} AllMatchesAreAscii(loc: Locale, str: seq<int>, es: seq<Entry>)
    requires forall x :: x in str ==> x < 128
    ensures forall q :: q in AllMatches(loc, str, es) ==> q < |Flat(es)| && Flat(es)[q].opt.key < 128
  {
    if es != [] {
      var e, base := es[|es| - 1], |Flat(es[..|es| - 1])|;
      AllMatchesAreAscii(loc, str, es[..|es| - 1]);
      MatchesAreAscii(loc, str, e.opts, e.so, base);
    }
  }

  lemma {:induction false} FirstOfLetter(loc: Locale, s: seq<Tagged>, p: nat) returns (q: nat)
    requires p < |s| && OptionIsShort(loc, s[p].opt)
    ensures q <= p && IsFirst(loc, s, q) && s[q].opt.key == s[p].opt.key
  {
    q := p;
    while !IsFirst(loc, s, q)
      invariant q <= p && OptionIsShort(loc, s[q].opt) && s[q].opt.key == s[p].opt.key
      decreases q
    {
      q := LetterPosition(loc, s[..q], ToChar(s[q].opt.key));
    }
  }

  lemma {:induction false} LetterPosition(loc: Locale, s: seq<Tagged>, x: int) returns (q: nat)
    requires x in Letters(loc, s)
    ensures q < |s| && OptionIsShort(loc, s[q].opt) && ToChar(s[q].opt.key) == x
  {
    var last := |s| - 1;
    if OptionIsShort(loc, s[last].opt) && ToChar(s[last].opt.key) == x {
      q := last;
    } else {
      q := LetterPosition(loc, s[..last], x);
    }
  }

  /** What a list must be for its entries to find exactly the unshadowed options. */
  predicate FindsFirsts(loc: Locale, hol: Hol) {
    AllMatches(loc, hol.shorts, hol.entries) == FirstPositions(loc, Flat(hol.entries), 0, |Flat(hol.entries)|)
  }

  /** With a key above 127 among the short options, its first occurrence is never found. */
  lemma {:induction false} WideKeyIsLost(loc: Locale, hol: Hol)
    requires forall x :: x in hol.shorts ==> x < 128
    requires !AsciiShorts(loc, Flat(hol.entries))
    ensures !FindsFirsts(loc, hol)
  {
    var s := Flat(hol.entries);
    var p :| 0 <= p < |s| && OptionIsShort(loc, s[p].opt) && s[p].opt.key >= 128;
    var q := FirstOfLetter(loc, s, p);
    FirstPositionsMembers(loc, s, 0, |s|);
    AllMatchesAreAscii(loc, hol.shorts, hol.entries);
    assert q in FirstPositions(loc, s, 0, |s|) && q !in AllMatches(loc, hol.shorts, hol.entries);
  }

  lemma {:induction false} RepresentedFindsFirsts(loc: Locale, hol: Hol)
    requires Represents(loc, hol) && AsciiShorts(loc, Flat(hol.entries))
    ensures FindsFirsts(loc, hol)
    ensures |AllMatches(loc, hol.shorts, hol.entries)| == |hol.shorts|
    ensures Distinct(hol.shorts)
  {
    var s := Flat(hol.entries);
    MatchesFromEntries(loc, hol, |hol.entries|);
    assert hol.entries[..|hol.entries|] == hol.entries && s[..|s|] == s;
    FirstPositionsCount(loc, s, |s|);
    FirstsDistinct(Letters(loc, s));
  }
}
