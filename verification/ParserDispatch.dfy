/** Which argp gets a short option: the parser finds out from the option's position in the merged string,
    help from the first occurrence of its letter. */
module ParserDispatch {
  import opened Options
  import opened ArgpTree
  import opened HelpList
  import opened ParserTables
  import opened ParserLayout

  /** strchr: the first position of a character. */
  function FirstIndex(s: seq<int>, c: int): (i: nat)
    ensures i <= |s| && (i < |s| ==> s[i] == c) && forall k :: 0 <= k < i ==> s[k] != c
    decreases |s|
  {
    if s == [] || s[0] == c then 0 else
    var i := FirstIndex(s[1..], c);
    assert forall k :: 1 <= k < i + 1 ==> s[k] == s[1..][k - 1];
    i + 1
  }

  /** The first group that ends behind position i. */
  function GroupAfter(gs: seq<Group>, i: nat, from: nat): Option<nat>
    requires from <= |gs|
    decreases |gs| - from
  {
    if from == |gs| then None else if gs[from].shortEnd > i then Some(from) else GroupAfter(gs, i, from + 1)
  }

  /** The group a short option goes to. */
  function Dispatch(s: seq<int>, gs: seq<Group>, c: int): Option<nat> {
    var i := FirstIndex(s, c);
    if i == |s| then None else GroupAfter(gs, i, 0)
  }

  /** The short-option branch of parser_parse_opt. */
  method FindShortGroup(s: seq<int>, gs: seq<Group>, opt: int) returns (g: Option<nat>)
    ensures g == Dispatch(s, gs, opt)
  {
    var i := 0;
    while i < |s| && s[i] != opt
      invariant 0 <= i <= |s| && forall k :: 0 <= k < i ==> s[k] != opt
    {
      i := i + 1;
    }
    FirstIndexUnique(s, opt, i);
    if i == |s| { return None; }
    var k := 0;
    while k < |gs|
      invariant 0 <= k <= |gs| && GroupAfter(gs, i, k) == GroupAfter(gs, i, 0)
    {
      if gs[k].shortEnd > i { return Some(k); }
      k := k + 1;
    }
    g := None;
  }

  lemma {:induction false} FirstIndexUnique(s: seq<int>, c: int, i: nat)
    requires i <= |s| && (forall k :: 0 <= k < i ==> s[k] != c) && (i < |s| ==> s[i] == c)
    ensures FirstIndex(s, c) == i
  {
  }

  // ----- who owns a letter -----

  /** Some option of an argp declares the letter and is a real option, no alias of a documentation option. */
  predicate Accepts(loc: Locale, opts: seq<ArgpOption>, n: nat, c: int)
    requires n <= |opts|
  {
    exists j :: 0 <= j < n && AcceptsAt(loc, opts, j, c)
  }

  lemma {:induction false} ShortsMembers(loc: Locale, opts: seq<ArgpOption>, n: nat, c: int)
    requires n <= |opts| && c != COLON
    ensures c in Shorts(loc, opts, n) <==> Accepts(loc, opts, n, c)
  {
    hide Accepts, ShortOf;
    if n == 0 {
      NoneAccept(loc, opts, c);
    } else {
      ShortsMembers(loc, opts, n - 1, c);
      ShortOfMember(loc, opts, n - 1, c);
      AcceptsSnoc(loc, opts, n, c);
    }
  }

  predicate AcceptsAt(loc: Locale, opts: seq<ArgpOption>, j: nat, c: int)
    requires j < |opts|
  {
    !Principal(opts, j).doc && OptionIsShort(loc, opts[j]) && ToChar(opts[j].key) == c
  }

  lemma {:induction false} NoneAccept(loc: Locale, opts: seq<ArgpOption>, c: int)
    ensures !Accepts(loc, opts, 0, c)
  {
  }

  lemma {:induction false} ShortOfMember(loc: Locale, opts: seq<ArgpOption>, j: nat, c: int)
    requires j < |opts| && c != COLON
    ensures c in ShortOf(loc, opts, j) <==> AcceptsAt(loc, opts, j, c)
  {
    hide Principal;
  }

  lemma {:induction false} AcceptsSnoc(loc: Locale, opts: seq<ArgpOption>, n: nat, c: int)
    requires 0 < n <= |opts|
    ensures Accepts(loc, opts, n, c) <==> Accepts(loc, opts, n - 1, c) || AcceptsAt(loc, opts, n - 1, c)
  {
    hide AcceptsAt;
  }

  predicate NodeAccepts(loc: Locale, a: Argp, c: int) { Accepts(loc, Opts(a), |Opts(a)|, c) }

  lemma {:induction false} ShortTableMembers(loc: Locale, nodes: seq<Argp>, c: int)
    requires c != COLON
    ensures c in ShortTable(loc, nodes) <==> exists i :: 0 <= i < |nodes| && NodeAccepts(loc, nodes[i], c)
  {
    hide Accepts, Shorts;
    if nodes != [] {
      var last := |nodes| - 1;
      ShortTableMembers(loc, nodes[..last], c);
      ShortsMembers(loc, Opts(nodes[last]), |Opts(nodes[last])|, c);
      assert forall i :: 0 <= i < last ==> nodes[..last][i] == nodes[i];
    }
  }

  lemma {:induction false} FirstIndexBounds(s: seq<int>, n: nat, m: nat, c: int)
    requires n <= m <= |s| && c !in s[..n] && c in s[..m]
    ensures n <= FirstIndex(s, c) < m
  {
    var k :| 0 <= k < m && s[..m][k] == c;
    assert s[k] == c;
    assert forall i :: 0 <= i < n ==> s[i] == s[..n][i] != c;
  }

  lemma {:induction false} GroupAfterIs(gs: seq<Group>, i: nat, from: nat, g: nat)
    requires from <= g < |gs| && gs[g].shortEnd > i && forall h :: from <= h < g ==> gs[h].shortEnd <= i
    ensures GroupAfter(gs, i, from) == Some(g)
    decreases g - from
  {
    if from < g { GroupAfterIs(gs, i, from + 1, g); }
  }

  /** The option string of a tree, with the flag prefix. */
  ghost function OptString(loc: Locale, f: Flags, t: Argp): seq<int> { PrefixChars(f) + ShortTable(loc, Nodes(t)) }

  ghost function OptGroups(loc: Locale, f: Flags, t: Argp): seq<Group> { GroupsOf(loc, t, |PrefixChars(f)|) }

  /** A letter goes to the first argp, in preorder, that accepts it. */
  lemma {:induction false} DispatchToFirst(loc: Locale, f: Flags, t: Argp, c: int, d: nat)
    requires c != COLON && c !in PrefixChars(f)
    requires d < |Nodes(t)| && NodeAccepts(loc, Nodes(t)[d], c)
    requires forall i :: 0 <= i < d ==> !NodeAccepts(loc, Nodes(t)[i], c)
    ensures var r := Dispatch(OptString(loc, f, t), OptGroups(loc, f, t), c);
            && r == Some(GroupCount(Nodes(t)[..d])) && r.value < |OptGroups(loc, f, t)| && OptGroups(loc, f, t)[r.value].node == d
  {
    hide ShortTable, GroupCount, SlotCount, GroupTable, Nodes, Parents, Accepts, FirstIndex;
    var nodes, parents, pre := Nodes(t), Parents(t, None, 0, 0), PrefixChars(f);
    var s, gs := OptString(loc, f, t), OptGroups(loc, f, t);
    var a, b := ShortTable(loc, nodes[..d]), ShortTable(loc, nodes[..d + 1]);
    AllGroups(t);
    ShortTableMembers(loc, nodes[..d], c);
    ShortTableMembers(loc, nodes[..d + 1], c);
    assert nodes[..d + 1][d] == nodes[d];
    ShortTableGrows(loc, nodes, d, d + 1);
    ShortTableGrows(loc, nodes, d + 1, |nodes|);
    assert s[..|pre| + |a|] == pre + a && s[..|pre| + |b|] == pre + b;
    FirstIndexBounds(s, |pre| + |a|, |pre| + |b|, c);
    OwnerHasGroup(loc, nodes[d], c);
    GroupTableAt(loc, nodes, parents, |nodes|, |pre|, d);
    var g, i := GroupCount(nodes[..d]), FirstIndex(s, c);
    forall h | 0 <= h < g ensures gs[h].shortEnd <= i { EarlierGroupEnds(loc, f, t, d, g, h); }
    GroupAfterIs(gs, i, 0, g);
  }

  lemma {:induction false} OwnerHasGroup(loc: Locale, a: Argp, c: int)
    requires NodeAccepts(loc, a, c)
    ensures HasGroup(a)
  {
  }

  lemma {:induction false} EarlierGroupEnds(loc: Locale, f: Flags, t: Argp, d: nat, g: nat, h: nat)
    requires d < |Nodes(t)| && g == GroupCount(Nodes(t)[..d]) && h < g <= GroupCount(Nodes(t))
    ensures OptGroups(loc, f, t)[h].shortEnd <= |PrefixChars(f)| + |ShortTable(loc, Nodes(t)[..d])|
  {
    hide ShortTable, GroupCount, SlotCount, GroupTable, Nodes, Parents;
    AllGroups(t);
    var nodes, parents := Nodes(t), Parents(t, None, 0, 0);
    var i := GroupNode(loc, nodes, parents, |nodes|, |PrefixChars(f)|, h);
    if d <= i { CountsGrow(nodes, d, i); }
    ShortTableGrows(loc, nodes, i + 1, d);
  }

  // ----- help and parser -----

  predicate Declares(loc: Locale, a: Argp, c: int) {
    exists j :: 0 <= j < |Opts(a)| && OptionIsShort(loc, Opts(a)[j]) && ToChar(Opts(a)[j].key) == c
  }

  /** Option p of the preorder list belongs to the argp it is tagged with. */
  lemma {:induction false} TaggedNode(nodes: seq<Argp>, p: nat)
    requires p < |TaggedOpts(nodes, 0)|
    ensures var h := TaggedOpts(nodes, 0)[p].node;
            && h < |nodes| && |TaggedOpts(nodes[..h], 0)| <= p && TaggedOpts(nodes[..h], 0) <= TaggedOpts(nodes, 0)
            && TaggedOpts(nodes, 0)[p].opt in Opts(nodes[h])
  {
    var last := |nodes| - 1;
    var front := TaggedOpts(nodes[..last], 0);
    if p < |front| {
      TaggedNode(nodes[..last], p);
      var h := front[p].node;
      assert nodes[..last][..h] == nodes[..h];
    } else {
      var k := p - |front|;
      assert TaggedOpts(nodes, 0)[p] == TagAll(last, Opts(nodes[last]))[k] == Tagged(last, Opts(nodes[last])[k]);
    }
  }

  lemma {:induction false} LettersOfNodes(loc: Locale, nodes: seq<Argp>, i: nat, c: int)
    requires i < |nodes| && Declares(loc, nodes[i], c)
    ensures c in Letters(loc, TaggedOpts(nodes, 0))
  {
    hide Letters;
    var last := |nodes| - 1;
    var front, back := TaggedOpts(nodes[..last], 0), TagAll(last, Opts(nodes[last]));
    assert TaggedOpts(nodes, 0) == front + back;
    LettersAppend(loc, front, back);
    if i < last {
      LettersOfNodes(loc, nodes[..last], i, c);
    } else {
      var j :| 0 <= j < |Opts(nodes[i])| && OptionIsShort(loc, Opts(nodes[i])[j]) && ToChar(Opts(nodes[i])[j].key) == c;
      LetterPresent(loc, back, j);
    }
  }

  lemma {:induction false} LetterPresent(loc: Locale, s: seq<Tagged>, j: nat)
    requires j < |s| && OptionIsShort(loc, s[j].opt)
    ensures ToChar(s[j].opt.key) in Letters(loc, s)
  {
    if j < |s| - 1 { LetterPresent(loc, s[..|s| - 1], j); }
  }

  /** The parser sends a letter to the argp that declares it first if and only if that argp also declares it as a
      real option, not only as an alias of a documentation option. */
  lemma {:induction false} FirstDeclarer(loc: Locale, f: Flags, t: Argp, p: nat)
    requires p < |TaggedOpts(Nodes(t), 0)| && IsFirst(loc, TaggedOpts(Nodes(t), 0), p)
    ensures var opt, h := TaggedOpts(Nodes(t), 0)[p].opt, TaggedOpts(Nodes(t), 0)[p].node;
            var c := ToChar(opt.key);
            h < |Nodes(t)| &&
            (c != COLON && c !in PrefixChars(f) ==>
              var r := Dispatch(OptString(loc, f, t), OptGroups(loc, f, t), c);
              NodeAccepts(loc, Nodes(t)[h], c) <==> r.Some? && r.value < |OptGroups(loc, f, t)| && OptGroups(loc, f, t)[r.value].node == h)
  {
    hide ShortTable, GroupTable, Parents, Letters, TaggedOpts, Accepts, Dispatch, GroupCount, Nodes;
    var nodes, s := Nodes(t), TaggedOpts(Nodes(t), 0);
    TaggedNode(nodes, p);
    var h, c := s[p].node, ToChar(s[p].opt.key);
    if c != COLON && c !in PrefixChars(f) {
      forall i | 0 <= i < h ensures !NodeAccepts(loc, nodes[i], c) { EarlierDoNotAccept(loc, nodes, p, i); }
      if exists d :: 0 <= d < |nodes| && NodeAccepts(loc, nodes[d], c) {
        var d := FirstAccepting(loc, nodes, c);
        DispatchToFirst(loc, f, t, c, d);
      } else {
        NobodyAccepts(loc, f, t, c);
      }
    }
  }

  lemma {:induction false} EarlierDoNotAccept(loc: Locale, nodes: seq<Argp>, p: nat, i: nat)
    requires p < |TaggedOpts(nodes, 0)| && IsFirst(loc, TaggedOpts(nodes, 0), p)
    requires i < TaggedOpts(nodes, 0)[p].node
    ensures i < |nodes| && !NodeAccepts(loc, nodes[i], ToChar(TaggedOpts(nodes, 0)[p].opt.key))
  {
    hide Letters, TaggedOpts;
    TaggedNode(nodes, p);
    var s := TaggedOpts(nodes, 0);
    var h, c := s[p].node, ToChar(s[p].opt.key);
    if Declares(loc, nodes[i], c) {
      assert nodes[..h][i] == nodes[i];
      LettersOfNodes(loc, nodes[..h], i, c);
      var n := |TaggedOpts(nodes[..h], 0)|;
      assert s[..p][..n] == TaggedOpts(nodes[..h], 0);
      LettersPrefix(loc, s[..p], n);
    }
    AcceptsDeclares(loc, nodes[i], c);
  }

  lemma {:induction false} AcceptsDeclares(loc: Locale, a: Argp, c: int)
    ensures NodeAccepts(loc, a, c) ==> Declares(loc, a, c)
  {
  }

  lemma {:induction false} FirstAccepting(loc: Locale, nodes: seq<Argp>, c: int) returns (d: nat)
    requires exists d :: 0 <= d < |nodes| && NodeAccepts(loc, nodes[d], c)
    ensures d < |nodes| && NodeAccepts(loc, nodes[d], c) && forall i :: 0 <= i < d ==> !NodeAccepts(loc, nodes[i], c)
  {
    d := 0;
    while !NodeAccepts(loc, nodes[d], c)
      invariant d < |nodes| && forall i :: 0 <= i < d ==> !NodeAccepts(loc, nodes[i], c)
      decreases |nodes| - d
    {
      d := d + 1;
    }
  }

  lemma {:induction false} NobodyAccepts(loc: Locale, f: Flags, t: Argp, c: int)
    requires c != COLON && c !in PrefixChars(f) && !exists d :: 0 <= d < |Nodes(t)| && NodeAccepts(loc, Nodes(t)[d], c)
    ensures Dispatch(OptString(loc, f, t), OptGroups(loc, f, t), c) == None
  {
    hide ShortTable, Nodes, Accepts;
    ShortTableMembers(loc, Nodes(t), c);
    var s := OptString(loc, f, t);
    assert c !in s;
  }
}
