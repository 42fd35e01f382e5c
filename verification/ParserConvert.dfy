/** convert_options and its callers: the recursive passes that size and then fill the parser's tables. */
module ParserConvert {
  import opened Options
  import opened ArgpTree
  import opened HelpList
  import opened ParserTables

  /** calc_sizes: add up what the argps of a tree may need. */
  method CalcSizes(t: Argp, szs: Sizes) returns (r: Sizes)
    ensures r == Sizes(szs.shortLen + 3 * OptCount(Nodes(t)), szs.longLen + OptCount(Nodes(t)),
                       szs.numGroups + GroupCount(Nodes(t)), szs.numChildInputs + ChildCount(Nodes(t)))
    decreases t
  {
    hide OptCount, GroupCount, ChildCount, NodesOf;
    r := szs;
    if HasGroup(t) {
      r := r.(numGroups := r.numGroups + 1);
      if t.options.Some? {
        var numOpts := |t.options.value|;
        r := r.(shortLen := r.shortLen + numOpts * 3, longLen := r.longLen + numOpts);
      }
    }
    CountRoot(t);
    for k := 0 to |t.children|
      invariant var ns := [t] + NodesOf(t.children[..k]);
                && r.shortLen == szs.shortLen + 3 * OptCount(ns) && r.longLen == szs.longLen + OptCount(ns)
                && r.numGroups == szs.numGroups + GroupCount(ns)
                && r.numChildInputs + |t.children| == szs.numChildInputs + ChildCount(ns) + k
    {
      var c := t.children[k].argp;
      assert t.children decreases to t.children[k];
      CountChild(t, k);
      r := CalcSizes(c, r);
      r := r.(numChildInputs := r.numChildInputs + 1);
    }
    assert t.children[..|t.children|] == t.children;
  }

  lemma {:induction false} CountRoot(t: Argp)
    ensures var ns := [t] + NodesOf(t.children[..0]);
            && OptCount(ns) == |Opts(t)| && GroupCount(ns) == (if HasGroup(t) then 1 else 0) && ChildCount(ns) == |t.children|
  {
    assert [t] + NodesOf(t.children[..0]) == [t];
    assert [t][..0] == [];
  }

  lemma {:induction false} CountChild(t: Argp, k: nat)
    requires k < |t.children|
    ensures var a, b := [t] + NodesOf(t.children[..k]), Nodes(t.children[k].argp);
            var c := [t] + NodesOf(t.children[..k + 1]);
            && c == a + b
            && OptCount(c) == OptCount(a) + OptCount(b) && GroupCount(c) == GroupCount(a) + GroupCount(b)
            && ChildCount(c) == ChildCount(a) + ChildCount(b)
  {
    hide Nodes, OptCount, GroupCount, ChildCount;
    var a, b := [t] + NodesOf(t.children[..k]), Nodes(t.children[k].argp);
    var cs := t.children[..k + 1];
    assert cs[..k] == t.children[..k] && cs[k] == t.children[k];
    assert NodesOf(cs) == NodesOf(t.children[..k]) + b;
    OptCountAppend(a, b);
    GroupCountAppend(a, b);
    ChildCountAppend(a, b);
  }

  /** The tables being filled: `struct parser_convert_state` with the storage it points into. */
  class Converter {
    const loc: Locale
    const prefix: seq<int>
    const shortOpts: array<int>
    const longOpts: array<LongOption>
    const groups: array<Group>
    var shortEnd: nat
    var longEnd: nat
    var childInputsEnd: nat

    /** The tables hold exactly what the argps `nodes`, with these parents, give rise to. */
    ghost predicate Holds(nodes: seq<Argp>, parents: seq<(Option<nat>, nat)>)
      reads this, shortOpts, longOpts, groups
    {
      && |nodes| == |parents|
      && shortEnd <= shortOpts.Length && shortOpts[..shortEnd] == prefix + ShortTable(loc, nodes)
      && longEnd <= longOpts.Length && longOpts[..longEnd] == FirstNamed(LongOffers(nodes))
      && childInputsEnd == SlotCount(nodes)
      && GroupCount(nodes) <= groups.Length
      && groups[..GroupCount(nodes)] == GroupTable(loc, nodes, parents, |nodes|, |prefix|)
    }

    /** There is room for the tables of these argps, terminators included. */
    ghost predicate Room(nodes: seq<Argp>) {
      && |prefix| + |ShortTable(loc, nodes)| < shortOpts.Length
      && |FirstNamed(LongOffers(nodes))| < longOpts.Length
      && GroupCount(nodes) <= groups.Length
    }

    /** parser_init's storage and the start of parser_convert: the flag prefix, empty tables. */
    constructor (loc: Locale, f: Flags, szs: Sizes)
      requires |PrefixChars(f)| <= szs.shortLen
      ensures fresh(shortOpts) && fresh(longOpts) && fresh(groups)
      ensures this.loc == loc && prefix == PrefixChars(f)
      ensures shortOpts.Length == szs.shortLen + 1 && longOpts.Length == szs.longLen + 1 && groups.Length == szs.numGroups + 1
      ensures Holds([], [])
    {
      this.loc := loc;
      prefix := PrefixChars(f);
      shortOpts := new int[szs.shortLen + 1];
      longOpts := new LongOption[szs.longLen + 1];
      groups := new Group[szs.numGroups + 1];
      shortEnd := |PrefixChars(f)|;
      longEnd := 0;
      childInputsEnd := 0;
      new;
      if f.inOrder {
        shortOpts[0] := '-' as int;
      } else if f.noArgs {
        shortOpts[0] := '+' as int;
      }
      shortOpts[shortEnd] := 0;
    }

    /** find_long_option: the position of a name in the vector, or -1. */
    method FindLongOption(name: string) returns (i: int)
      requires longEnd <= longOpts.Length
      ensures i < 0 ==> !HasName(longOpts[..longEnd], name)
      ensures 0 <= i ==> i < longEnd && longOpts[i].name == name
    {
      i := 0;
      while i < longEnd
        invariant 0 <= i <= longEnd
        invariant forall k :: 0 <= k < i ==> longOpts[k].name != name
      {
        if longOpts[i].name == name { return; }
        i := i + 1;
      }
      i := -1;
    }

    /** Write characters at the end of the short-option string and keep it terminated. */
    method PutShort(s: seq<int>)
      requires shortEnd + |s| < shortOpts.Length && |s| <= 3
      modifies this`shortEnd, shortOpts
      ensures shortEnd == old(shortEnd) + |s| && shortOpts[..shortEnd] == old(shortOpts[..shortEnd]) + s
    {
      ghost var before := shortOpts[..shortEnd];
      if |s| > 0 { shortOpts[shortEnd] := s[0]; shortEnd := shortEnd + 1; }
      if |s| > 1 { shortOpts[shortEnd] := s[1]; shortEnd := shortEnd + 1; }
      if |s| > 2 { shortOpts[shortEnd] := s[2]; shortEnd := shortEnd + 1; }
      shortOpts[shortEnd] := 0;
      assert shortOpts[..shortEnd] == before + s;
    }

    method PutLong(l: LongOption)
      requires longEnd < longOpts.Length
      modifies this`longEnd, longOpts
      ensures longEnd == old(longEnd) + 1 && longOpts[..longEnd] == old(longOpts[..longEnd]) + [l]
    {
      longOpts[longEnd] := l;
      longEnd := longEnd + 1;
    }

    /** The option loop of convert_options, for one argp. */
    method AddOptions(opts: seq<ArgpOption>, group: nat, ghost s: seq<int>, ghost l: seq<LongOption>)
      requires shortEnd <= shortOpts.Length && shortOpts[..shortEnd] == s
      requires longEnd <= longOpts.Length && longOpts[..longEnd] == FirstNamed(l)
      requires |s| + |Shorts(loc, opts, |opts|)| < shortOpts.Length
      requires |FirstNamed(l + Longs(opts, |opts|, group))| < longOpts.Length
      modifies this`shortEnd, this`longEnd, shortOpts, longOpts
      ensures shortEnd <= shortOpts.Length && shortOpts[..shortEnd] == s + Shorts(loc, opts, |opts|)
      ensures longEnd <= longOpts.Length && longOpts[..longEnd] == FirstNamed(l + Longs(opts, |opts|, group))
    {
      hide Shorts, Longs, ShortOf, LongOf, FirstNamed;
      NothingAdded(loc, opts, group, s, l);
      for i := 0 to |opts|
        invariant shortEnd <= shortOpts.Length && shortOpts[..shortEnd] == s + Shorts(loc, opts, i)
        invariant longEnd <= longOpts.Length && longOpts[..longEnd] == FirstNamed(l + Longs(opts, i, group))
      {
        OneAdded(loc, opts, i, group, s, l);
        PutShort(ShortOf(loc, opts, i));
        var offer := LongOf(opts, i, group);
        LongOfAtMostOne(opts, i, group);
        if |offer| == 1 {
          var k := FindLongOption(offer[0].name);
          FirstNamedNames(l + Longs(opts, i, group), offer[0].name);
          if k < 0 {
            PutLong(offer[0]);
          } else {
            assert HasName(longOpts[..longEnd], offer[0].name) by { assert longOpts[..longEnd][k].name == offer[0].name; }
          }
        }
      }
    }

    /** The group of one argp. */
    method AddGroup(t: Argp, node: nat, parent: Option<nat>, parentIndex: nat, group: nat)
      requires group < groups.Length
      modifies this`childInputsEnd, groups
      ensures groups[..group + 1] == old(groups[..group])
              + [Group(node, t.hasParser, shortEnd, parent, parentIndex, old(childInputsEnd), |t.children|)]
      ensures childInputsEnd == old(childInputsEnd) + |t.children|
    {
      groups[group] := Group(node, t.hasParser, shortEnd, parent, parentIndex, childInputsEnd, |t.children|);
      childInputsEnd := childInputsEnd + |t.children|;
    }

    /** convert_options, without the recursion: the tables of one more argp. */
    method AddArgp(t: Argp, parent: Option<nat>, parentIndex: nat, group: nat, node: nat,
                   ghost nodes: seq<Argp>, ghost parents: seq<(Option<nat>, nat)>)
      requires Holds(nodes, parents) && group == GroupCount(nodes) && node == |nodes| && Room(nodes + [t])
      modifies this, shortOpts, longOpts, groups
      ensures Holds(nodes + [t], parents + [(parent, parentIndex)])
    {
      hide ShortTable, LongOffers, SlotCount, GroupTable, GroupCount, FirstNamed, Shorts, Longs;
      OneMoreArgp(loc, nodes, parents, t, (parent, parentIndex), |prefix|);
      NothingFromBareArgp(loc, t, group, LongOffers(nodes));
      if HasGroup(t) {
        AddOptions(Opts(t), group, prefix + ShortTable(loc, nodes), LongOffers(nodes));
        assert (prefix + ShortTable(loc, nodes)) + Shorts(loc, Opts(t), |Opts(t)|) == prefix + ShortTable(loc, nodes + [t]);
        AddGroup(t, node, parent, parentIndex, group);
      }
    }

    /** convert_options: the tables of a whole tree, in preorder. */
    method ConvertOptions(t: Argp, parent: Option<nat>, parentIndex: nat, group: nat, node: nat,
                          ghost nodes: seq<Argp>, ghost parents: seq<(Option<nat>, nat)>)
      returns (next: nat, nextNode: nat)
      requires Holds(nodes, parents) && group == GroupCount(nodes) && node == |nodes| && Room(nodes + Nodes(t))
      modifies this, shortOpts, longOpts, groups
      ensures Holds(nodes + Nodes(t), parents + Parents(t, parent, parentIndex, group))
      ensures next == GroupCount(nodes + Nodes(t)) && nextNode == |nodes + Nodes(t)|
      decreases t
    {
      hide Holds, Room, ShortTable, LongOffers, SlotCount, GroupTable, GroupCount, NodesOf, ParentsOf;
      ghost var n1, p1 := nodes + [t], parents + [(parent, parentIndex)];
      RootStep(t, nodes, group);
      assert n1 + NodesOf(t.children) == nodes + Nodes(t);
      RoomPrefix(n1, NodesOf(t.children));
      AddArgp(t, parent, parentIndex, group, node, nodes, parents);
      next, nextNode := if HasGroup(t) then group + 1 else group, node + 1;
      var p := if HasGroup(t) then Some(group) else None;
      ghost var g1 := next;
      NoChildYet(t.children, p, g1);
      assert n1 + [] == n1 && p1 + [] == p1;
      for k := 0 to |t.children|
        invariant |ParentsOf(t.children[..k], p, g1)| == |NodesOf(t.children[..k])|
        invariant Holds(n1 + NodesOf(t.children[..k]), p1 + ParentsOf(t.children[..k], p, g1))
        invariant next == GroupCount(n1 + NodesOf(t.children[..k])) && nextNode == |n1 + NodesOf(t.children[..k])|
      {
        var c := t.children[k].argp;
        assert t.children decreases to t.children[k];
        ghost var a, b := n1 + NodesOf(t.children[..k]), p1 + ParentsOf(t.children[..k], p, g1);
        ChildConverted(t.children, k, p, g1, n1, p1);
        RoomChild(t.children, k, n1);
        next, nextNode := ConvertOptions(c, p, k, next, nextNode, a, b);
      }
      assert t.children[..|t.children|] == t.children;
      assert p1 + ParentsOf(t.children, p, g1) == parents + Parents(t, parent, parentIndex, group);
    }

    lemma RoomPrefix(a: seq<Argp>, b: seq<Argp>)
      requires Room(a + b)
      ensures Room(a)
    {
      hide FirstNamed, ShortTable, LongOffers, GroupCount;
      TablesGrow(loc, a, b);
    }

    lemma RoomChild(cs: seq<ArgpChild>, k: nat, n: seq<Argp>)
      requires k < |cs| && Room(n + NodesOf(cs))
      ensures Room(n + NodesOf(cs[..k]) + Nodes(cs[k].argp))
    {
      hide Room, Nodes, NodesOf;
      NodesSplit(cs, k + 1);
      var cs' := cs[..k + 1];
      assert cs'[..k] == cs[..k] && cs'[k] == cs[k];
      NodesLast(cs');
      var rest := NodesOf(cs)[|NodesOf(cs')|..];
      assert n + NodesOf(cs) == (n + NodesOf(cs')) + rest;
      RoomPrefix(n + NodesOf(cs'), rest);
      assert n + NodesOf(cs') == n + NodesOf(cs[..k]) + Nodes(cs[k].argp);
    }
  }

  // ----- what one more option, argp or child adds -----

  lemma {:induction false} NothingAdded(loc: Locale, opts: seq<ArgpOption>, group: nat, s: seq<int>, l: seq<LongOption>)
    ensures s + Shorts(loc, opts, 0) == s && l + Longs(opts, 0, group) == l
  {
  }

  lemma {:induction false} LongOfAtMostOne(opts: seq<ArgpOption>, i: nat, group: nat)
    requires i < |opts|
    ensures |LongOf(opts, i, group)| <= 1
  {
  }

  /** What option i adds, and that there is room for it when there is room for all. */
  lemma {:induction false} OneAdded(loc: Locale, opts: seq<ArgpOption>, i: nat, group: nat, s: seq<int>, l: seq<LongOption>)
    requires i < |opts|
    ensures s + Shorts(loc, opts, i + 1) == (s + Shorts(loc, opts, i)) + ShortOf(loc, opts, i)
    ensures var o := LongOf(opts, i, group);
            var l1 := l + Longs(opts, i, group);
            FirstNamed(l + Longs(opts, i + 1, group)) ==
              if |o| == 1 && !HasName(l1, o[0].name) then FirstNamed(l1) + [o[0]] else FirstNamed(l1)
    ensures |Shorts(loc, opts, i + 1)| <= |Shorts(loc, opts, |opts|)|
    ensures |FirstNamed(l + Longs(opts, i + 1, group))| <= |FirstNamed(l + Longs(opts, |opts|, group))|
  {
    hide ShortOf, LongOf, FirstNamed;
    var o := LongOf(opts, i, group);
    LongOfAtMostOne(opts, i, group);
    if |o| == 1 {
      assert o == [o[0]];
      assert l + Longs(opts, i + 1, group) == (l + Longs(opts, i, group)) + [o[0]];
      FirstNamedSnoc(l + Longs(opts, i, group), o[0]);
    } else {
      assert l + Longs(opts, i + 1, group) == l + Longs(opts, i, group);
    }
    Growing(loc, opts, i + 1, |opts|, group, l);
  }

  lemma {:induction false} FirstNamedSnoc(s: seq<LongOption>, x: LongOption)
    ensures FirstNamed(s + [x]) == if HasName(s, x.name) then FirstNamed(s) else FirstNamed(s) + [x]
  {
    assert (s + [x])[..|s|] == s;
  }

  lemma {:induction false} FirstNamedGrows(a: seq<LongOption>, b: seq<LongOption>)
    ensures |FirstNamed(a)| <= |FirstNamed(a + b)|
  {
    hide FirstNamed;
    if b == [] {
      assert a + b == a;
    } else {
      var b', x := b[..|b| - 1], b[|b| - 1];
      FirstNamedGrows(a, b');
      assert a + b == (a + b') + [x];
      FirstNamedSnoc(a + b', x);
    }
  }

  lemma {:induction false} Growing(loc: Locale, opts: seq<ArgpOption>, i: nat, n: nat, group: nat, l: seq<LongOption>)
    requires i <= n <= |opts|
    ensures |Shorts(loc, opts, i)| <= |Shorts(loc, opts, n)|
    ensures |FirstNamed(l + Longs(opts, i, group))| <= |FirstNamed(l + Longs(opts, n, group))|
    decreases n
  {
    hide FirstNamed, ShortOf, LongOf;
    if i < n {
      Growing(loc, opts, i, n - 1, group, l);
      assert l + Longs(opts, n, group) == (l + Longs(opts, n - 1, group)) + LongOf(opts, n - 1, group);
      FirstNamedGrows(l + Longs(opts, n - 1, group), LongOf(opts, n - 1, group));
    }
  }

  lemma {:induction false} ShortTableAppend(loc: Locale, a: seq<Argp>, b: seq<Argp>)
    ensures |ShortTable(loc, a)| <= |ShortTable(loc, a + b)| && ShortTable(loc, a) <= ShortTable(loc, a + b)
  {
    if b == [] { assert a + b == a; } else {
      assert (a + b)[..|a + b| - 1] == a + b[..|b| - 1];
      ShortTableAppend(loc, a, b[..|b| - 1]);
    }
  }

  lemma {:induction false} LongOffersAppend(a: seq<Argp>, b: seq<Argp>)
    ensures LongOffers(a) <= LongOffers(a + b)
  {
    if b == [] { assert a + b == a; } else {
      assert (a + b)[..|a + b| - 1] == a + b[..|b| - 1];
      LongOffersAppend(a, b[..|b| - 1]);
    }
  }

  lemma {:induction false} TablesGrow(loc: Locale, a: seq<Argp>, b: seq<Argp>)
    ensures |ShortTable(loc, a)| <= |ShortTable(loc, a + b)|
    ensures |FirstNamed(LongOffers(a))| <= |FirstNamed(LongOffers(a + b))|
    ensures GroupCount(a) <= GroupCount(a + b)
  {
    hide FirstNamed, ShortTable, LongOffers, GroupCount;
    ShortTableAppend(loc, a, b);
    LongOffersAppend(a, b);
    var rest := LongOffers(a + b)[|LongOffers(a)|..];
    assert LongOffers(a + b) == LongOffers(a) + rest;
    FirstNamedGrows(LongOffers(a), rest);
    GroupCountAppend(a, b);
  }

  /** The groups of the argps before position n do not depend on the argps after it. */
  lemma {:induction false} GroupTableStable(loc: Locale, a: seq<Argp>, p: seq<(Option<nat>, nat)>, t: Argp, q: (Option<nat>, nat), n: nat, prefix: nat)
    requires n <= |a| == |p|
    ensures GroupTable(loc, a + [t], p + [q], n, prefix) == GroupTable(loc, a, p, n, prefix)
  {
    if n > 0 {
      GroupTableStable(loc, a, p, t, q, n - 1, prefix);
      assert (a + [t])[..n] == a[..n] && (a + [t])[..n - 1] == a[..n - 1];
    }
  }

  lemma {:induction false} OneMoreArgp(loc: Locale, a: seq<Argp>, p: seq<(Option<nat>, nat)>, t: Argp, q: (Option<nat>, nat), prefix: nat)
    requires |a| == |p|
    ensures && ShortTable(loc, a + [t]) == ShortTable(loc, a) + Shorts(loc, Opts(t), |Opts(t)|)
            && LongOffers(a + [t]) == LongOffers(a) + Longs(Opts(t), |Opts(t)|, GroupCount(a))
            && GroupCount(a + [t]) == (if HasGroup(t) then GroupCount(a) + 1 else GroupCount(a))
            && SlotCount(a + [t]) == (if HasGroup(t) then SlotCount(a) + |t.children| else SlotCount(a))
            && GroupTable(loc, a + [t], p + [q], |a| + 1, prefix) == GroupTable(loc, a, p, |a|, prefix)
               + if HasGroup(t) then [Group(|a|, t.hasParser, prefix + |ShortTable(loc, a + [t])|, q.0, q.1, SlotCount(a), |t.children|)] else []
  {
    hide Shorts, Longs;
    var b := a + [t];
    assert b[..|a|] == a && b[..|b|] == b;
    GroupTableStable(loc, a, p, t, q, |a|, prefix);
  }

  /** An argp with neither options nor a parser adds nothing. */
  lemma {:induction false} NothingFromBareArgp(loc: Locale, t: Argp, group: nat, l: seq<LongOption>)
    ensures !HasGroup(t) ==> Shorts(loc, Opts(t), |Opts(t)|) == [] && l + Longs(Opts(t), |Opts(t)|, group) == l
  {
  }

  lemma {:induction false} RootStep(t: Argp, nodes: seq<Argp>, group: nat)
    requires group == GroupCount(nodes)
    ensures GroupCount(nodes + [t]) == if HasGroup(t) then group + 1 else group
  {
    assert (nodes + [t])[..|nodes|] == nodes;
  }

  lemma {:induction false} NoChildYet(cs: seq<ArgpChild>, p: Option<nat>, g: nat)
    ensures NodesOf(cs[..0]) == [] && ParentsOf(cs[..0], p, g) == []
  {
  }

  lemma {:induction false} ChildConverted(cs: seq<ArgpChild>, k: nat, p: Option<nat>, g: nat, n: seq<Argp>, q: seq<(Option<nat>, nat)>)
    requires k < |cs| && g == GroupCount(n)
    ensures var c := cs[k].argp; var a := n + NodesOf(cs[..k]);
            && GroupCount(a) == g + GroupCount(NodesOf(cs[..k]))
            && n + NodesOf(cs[..k + 1]) == a + Nodes(c)
            && q + ParentsOf(cs[..k + 1], p, g) == (q + ParentsOf(cs[..k], p, g)) + Parents(c, p, k, GroupCount(a))
            && |ParentsOf(cs[..k + 1], p, g)| == |NodesOf(cs[..k + 1])|
  {
    hide Nodes, Parents, GroupCount;
    var cs' := cs[..k + 1];
    assert cs'[..k] == cs[..k] && cs'[k] == cs[k];
    GroupCountAppend(n, NodesOf(cs[..k]));
    assert NodesOf(cs') == NodesOf(cs[..k]) + Nodes(cs[k].argp);
    assert ParentsOf(cs', p, g) == ParentsOf(cs[..k], p, g) + Parents(cs[k].argp, p, k, g + GroupCount(NodesOf(cs[..k])));
  }

  lemma {:induction false} NodesLast(cs: seq<ArgpChild>)
    requires cs != []
    ensures NodesOf(cs) == NodesOf(cs[..|cs| - 1]) + Nodes(cs[|cs| - 1].argp)
  {
  }

  lemma {:induction false} NodesSplit(cs: seq<ArgpChild>, k: nat)
    requires k <= |cs|
    ensures NodesOf(cs[..k]) <= NodesOf(cs)
  {
    if k == |cs| {
      assert cs[..k] == cs;
    } else {
      NodesSplit(cs[..|cs| - 1], k);
      assert cs[..|cs| - 1][..k] == cs[..k];
    }
  }

  /** parser_init up to the groups: size the tables, allocate them and fill them; no argp gives empty tables. */
  method BuildTables(loc: Locale, f: Flags, t: Option<Argp>) returns (c: Converter, egroup: nat)
    requires !(f.noArgs && AllThree(loc, if t.Some? then Nodes(t.value) else []))
    ensures fresh(c) && fresh(c.shortOpts) && fresh(c.longOpts) && fresh(c.groups)
    ensures c.loc == loc && c.prefix == PrefixChars(f)
    ensures t.None? ==> egroup == 0 && c.Holds([], [])
    ensures t.Some? ==> egroup == GroupCount(Nodes(t.value)) && c.Holds(Nodes(t.value), Parents(t.value, None, 0, 0))
    ensures t.Some? ==> c.childInputsEnd <= SizesOf(f, t.value).numChildInputs
  {
    hide AllThree, GroupCount, OptCount, ChildCount, SlotCount, Nodes, Parents, ShortTable, LongOffers, FirstNamed, GroupTable;
    var szs := Sizes(if f.noArgs then 0 else 1, 0, 0, 0);
    if t.None? {
      NoOptions(loc);
      c := new Converter(loc, f, szs);
      egroup := 0;
    } else {
      TablesFit(loc, f, t.value);
      szs := CalcSizes(t.value, szs);
      c := new Converter(loc, f, szs);
      NoOptions(loc);
      assert [] + Nodes(t.value) == Nodes(t.value) && [] + Parents(t.value, None, 0, 0) == Parents(t.value, None, 0, 0);
      var last;
      egroup, last := c.ConvertOptions(t.value, None, 0, 0, 0, [], []);
    }
  }

  lemma {:induction false} NoOptions(loc: Locale)
    ensures AllThree(loc, []) && GroupCount([]) == 0
  {
  }
}
