/** Short options: the string as getopt reads it, and the parser that gets each letter. */
module ParserShort {
  import opened Options
  import opened ArgpTree
  import opened HelpList
  import opened ParserTables
  import opened ParserLayout
  import opened ParserDispatch
  import opened ParseRun
  import opened ParserLong

  // ----- which parser gets a letter -----

  /** The first argp in preorder that declares the letter for a real option. */
  ghost predicate FirstAccepts(loc: Locale, nodes: seq<Argp>, c: int, d: nat) {
    d < |nodes| && NodeAccepts(loc, nodes[d], c) && forall i :: 0 <= i < d ==> !NodeAccepts(loc, nodes[i], c)
  }

  lemma {:induction false} DispatchHears(loc: Locale, f: Flags, t: Argp, env: Env, hasEnd: bool, st: State, c: int, d: nat)
    requires c != COLON && c !in PrefixChars(f) && 0 <= c < 128 && FirstAccepts(loc, Nodes(t), c, d) && ValidState(Built(loc, f, t, env, hasEnd), st)
    ensures var cfg := Built(loc, f, t, env, hasEnd);
            DecodeGroup(c) == 0 && Hears(cfg, Nodes(t)[d].hasParser, st, ParseOpt(cfg, st, c), d, Opt(c))
  {
    hide Nodes, GroupCount, GroupTable, Parents, GroupParse, DecodeGroup, DecodeKey, Dispatch, NodeAccepts, OptGroups, OptString, Hears;
    var nodes, cfg := Nodes(t), Built(loc, f, t, env, hasEnd);
    SmallIsShort(c);
    DispatchToFirst(loc, f, t, c, d);
    var g := GroupCount(nodes[..d]);
    GroupHasParser(loc, f, t, d, c);
    OneHears(cfg, st, g, d, Opt(c));
  }

  lemma {:induction false} GroupHasParser(loc: Locale, f: Flags, t: Argp, d: nat, c: int)
    requires d < |Nodes(t)| && NodeAccepts(loc, Nodes(t)[d], c)
    ensures var g := GroupCount(Nodes(t)[..d]); g < |OptGroups(loc, f, t)| && OptGroups(loc, f, t)[g].hasParser == Nodes(t)[d].hasParser
  {
    hide Nodes, GroupCount, GroupTable, Parents, NodeAccepts;
    AllGroups(t);
    OwnerHasGroup(loc, Nodes(t)[d], c);
    GroupTableAt(loc, Nodes(t), Parents(t, None, 0, 0), |Nodes(t)|, |PrefixChars(f)|, d);
  }

  /** A short option reaches the parser of the first argp in preorder that declares the letter for a real option, with
      the letter as its key, and nobody else; a letter that no argp declares so is unknown. */
  lemma {:induction false} ShortOptionReaches(loc: Locale, f: Flags, t: Argp, env: Env, hasEnd: bool, st: State, c: int)
    requires c != COLON && c !in PrefixChars(f) && 0 <= c < 128 && ValidState(Built(loc, f, t, env, hasEnd), st)
    ensures DecodeGroup(c) == 0
    ensures var cfg, nodes := Built(loc, f, t, env, hasEnd), Nodes(t);
            && (forall d :: 0 <= d < |nodes| && FirstAccepts(loc, nodes, c, d) ==> Hears(cfg, nodes[d].hasParser, st, ParseOpt(cfg, st, c), d, Opt(c)))
            && ((forall d :: 0 <= d < |nodes| ==> !NodeAccepts(loc, nodes[d], c)) ==> ParseOpt(cfg, st, c) == (st, EBADKEY))
  {
    hide Nodes, DecodeGroup, NodeAccepts, OptGroups, OptString, Hears, FirstAccepts, Dispatch;
    var cfg, nodes := Built(loc, f, t, env, hasEnd), Nodes(t);
    SmallIsShort(c);
    forall d | 0 <= d < |nodes| && FirstAccepts(loc, nodes, c, d) ensures Hears(cfg, nodes[d].hasParser, st, ParseOpt(cfg, st, c), d, Opt(c)) {
      DispatchHears(loc, f, t, env, hasEnd, st, c, d);
    }
    if forall d :: 0 <= d < |nodes| ==> !NodeAccepts(loc, nodes[d], c) { NobodyAccepts(loc, f, t, c); }
  }

  // ----- the string as getopt reads it -----

  datatype Ordering = Permute | RequireOrder | ReturnInOrder

  const MINUS := '-' as int
  const PLUS := '+' as int

  /** What the first character says about arguments between options. */
  function OrderingOf(s: seq<int>): Ordering {
    if s != [] && s[0] == MINUS then ReturnInOrder else if s != [] && s[0] == PLUS then RequireOrder else Permute
  }

  /** The string behind that character. */
  function LettersOf(s: seq<int>): seq<int> { if OrderingOf(s) == Permute then s else s[1..] }

  /** Whether the letter at position i takes an argument: none, one or two colons behind it. */
  function ReadArg(s: seq<int>, i: nat): HasArg {
    if i + 1 < |s| && s[i + 1] == COLON then
      if i + 2 < |s| && s[i + 2] == COLON then OptionalArgument else RequiredArgument
    else NoArgument
  }

  /** The letter of the first real short option of an argp, from option j on. */
  function FirstRealIn(loc: Locale, opts: seq<ArgpOption>, j: nat): Option<int>
    decreases |opts| - j
  {
    if j >= |opts| then None
    else if OptionIsShort(loc, opts[j]) && !Principal(opts, j).doc then Some(ToChar(opts[j].key))
    else FirstRealIn(loc, opts, j + 1)
  }

  /** The letter of the first real short option in preorder, from option j of argp d on. */
  function FirstReal(loc: Locale, nodes: seq<Argp>, d: nat, j: nat): Option<int>
    decreases |nodes| - d
  {
    if d >= |nodes| then None else
    match FirstRealIn(loc, Opts(nodes[d]), j)
    case Some(c) => Some(c)
    case None => FirstReal(loc, nodes, d + 1, 0)
  }

  /** What the options of an argp from j on add to the string. */
  function ShortsFrom(loc: Locale, opts: seq<ArgpOption>, j: nat): seq<int>
    requires j <= |opts|
    decreases |opts| - j
  {
    if j == |opts| then [] else ShortOf(loc, opts, j) + ShortsFrom(loc, opts, j + 1)
  }

  function TableFrom(loc: Locale, nodes: seq<Argp>, d: nat): seq<int>
    requires d <= |nodes|
    decreases |nodes| - d
  {
    if d == |nodes| then [] else ShortsFrom(loc, Opts(nodes[d]), 0) + TableFrom(loc, nodes, d + 1)
  }

  lemma {:induction false} ShortsSplit(loc: Locale, opts: seq<ArgpOption>, j: nat)
    requires j <= |opts|
    ensures Shorts(loc, opts, |opts|) == Shorts(loc, opts, j) + ShortsFrom(loc, opts, j)
    decreases |opts| - j
  {
    hide ShortOf;
    if j < |opts| {
      ShortsSplit(loc, opts, j + 1);
      Regroup(Shorts(loc, opts, j), ShortOf(loc, opts, j), ShortsFrom(loc, opts, j + 1));
    }
  }

  lemma {:induction false} Regroup(a: seq<int>, b: seq<int>, c: seq<int>)
    ensures (a + b) + c == a + (b + c)
  {
  }

  lemma {:induction false} TableSplit(loc: Locale, nodes: seq<Argp>, d: nat)
    requires d <= |nodes|
    ensures ShortTable(loc, nodes) == ShortTable(loc, nodes[..d]) + TableFrom(loc, nodes, d)
    decreases |nodes| - d
  {
    hide ShortTable, Shorts, ShortsFrom;
    if d == |nodes| {
      assert nodes[..d] == nodes;
    } else {
      TableSplit(loc, nodes, d + 1);
      ShortTableNext(loc, nodes, d);
      ShortsSplit(loc, Opts(nodes[d]), 0);
      NoShorts(loc, Opts(nodes[d]));
      Regroup(ShortTable(loc, nodes[..d]), ShortsFrom(loc, Opts(nodes[d]), 0), TableFrom(loc, nodes, d + 1));
    }
  }

  lemma {:induction false} NoShorts(loc: Locale, opts: seq<ArgpOption>)
    ensures Shorts(loc, opts, 0) == [] && forall s: seq<int> :: [] + s == s
  {
  }

  /** The string around option j of argp d. */
  lemma {:induction false} StringAround(loc: Locale, nodes: seq<Argp>, d: nat, j: nat)
    requires d < |nodes| && j < |Opts(nodes[d])|
    ensures var opts := Opts(nodes[d]);
            ShortTable(loc, nodes) == (ShortTable(loc, nodes[..d]) + Shorts(loc, opts, j))
                                    + (ShortOf(loc, opts, j) + (ShortsFrom(loc, opts, j + 1) + TableFrom(loc, nodes, d + 1)))
  {
    hide ShortTable, Shorts, ShortsFrom, TableFrom, ShortOf;
    var opts := Opts(nodes[d]);
    TableSplit(loc, nodes, d + 1);
    ShortTableNext(loc, nodes, d);
    ShortsSplit(loc, opts, j);
    ShortsFromNext(loc, opts, j);
    var a, b, c, e, g := ShortTable(loc, nodes[..d]), Shorts(loc, opts, j), ShortOf(loc, opts, j), ShortsFrom(loc, opts, j + 1), TableFrom(loc, nodes, d + 1);
    assert a + (b + (c + e)) + g == (a + b) + (c + (e + g));
  }

  lemma {:induction false} ShortsFromNext(loc: Locale, opts: seq<ArgpOption>, j: nat)
    requires j < |opts|
    ensures ShortsFrom(loc, opts, j) == ShortOf(loc, opts, j) + ShortsFrom(loc, opts, j + 1)
  {
  }

  /** What a string starts with. */
  function Head(s: seq<int>): Option<int> { if s == [] then None else Some(s[0]) }

  lemma {:induction false} HeadOfRest(loc: Locale, opts: seq<ArgpOption>, j: nat)
    requires j <= |opts|
    ensures Head(ShortsFrom(loc, opts, j)) == FirstRealIn(loc, opts, j)
    decreases |opts| - j
  {
    hide Principal;
    if j < |opts| { HeadOfRest(loc, opts, j + 1); }
  }

  /** The string from some option on starts with the letter of the first real short option there. */
  lemma {:induction false} HeadOfTable(loc: Locale, nodes: seq<Argp>, d: nat, j: nat)
    requires d < |nodes| && j <= |Opts(nodes[d])|
    ensures Head(ShortsFrom(loc, Opts(nodes[d]), j) + TableFrom(loc, nodes, d + 1)) == FirstReal(loc, nodes, d, j)
    decreases |nodes| - d
  {
    hide ShortsFrom, FirstRealIn;
    HeadOfRest(loc, Opts(nodes[d]), j);
    if d + 1 < |nodes| { HeadOfTable(loc, nodes, d + 1, 0); }
  }

  /** The first real option with a letter: option j of argp d. */
  ghost predicate FirstDeclares(loc: Locale, nodes: seq<Argp>, c: int, d: nat, j: nat) {
    && d < |nodes| && j < |Opts(nodes[d])| && AcceptsAt(loc, Opts(nodes[d]), j, c)
    && (forall i :: 0 <= i < d ==> !NodeAccepts(loc, nodes[i], c)) && (forall i :: 0 <= i < j ==> !AcceptsAt(loc, Opts(nodes[d]), i, c))
  }

  lemma {:induction false} NotBefore(loc: Locale, nodes: seq<Argp>, c: int, d: nat, j: nat)
    requires c != COLON && FirstDeclares(loc, nodes, c, d, j)
    ensures c !in ShortTable(loc, nodes[..d]) + Shorts(loc, Opts(nodes[d]), j)
  {
    hide ShortTable, Shorts, AcceptsAt;
    ShortTableMembers(loc, nodes[..d], c);
    ShortsMembers(loc, Opts(nodes[d]), j, c);
  }

  lemma {:induction false} BlockIs(loc: Locale, opts: seq<ArgpOption>, j: nat, c: int) returns (h: HasArg)
    requires j < |opts| && AcceptsAt(loc, opts, j, c)
    ensures AsksFor(Principal(opts, j), h)
    ensures ShortOf(loc, opts, j) == [c] + match h case NoArgument => [] case RequiredArgument => [COLON] case OptionalArgument => [COLON, COLON]
  {
    hide Principal;
    var p := Principal(opts, j);
    h := if p.arg.None? then NoArgument else if p.argOptional then OptionalArgument else RequiredArgument;
  }

  lemma {:induction false} ReadBlock(a: seq<int>, c: int, h: HasArg, rest: seq<int>)
    requires c !in a && c != COLON
    ensures var block := [c] + match h case NoArgument => [] case RequiredArgument => [COLON] case OptionalArgument => [COLON, COLON];
            var s := a + (block + rest);
            && FirstIndex(s, c) == |a| < |s|
            && (ReadArg(s, |a|) == h <==> h == OptionalArgument || Head(rest) != Some(COLON))
  {
    var block := [c] + match h case NoArgument => [] case RequiredArgument => [COLON] case OptionalArgument => [COLON, COLON];
    var s := a + (block + rest);
    assert s[|a|] == c && forall i :: 0 <= i < |a| ==> s[i] == a[i];
    FirstIndexUnique(s, c, |a|);
    assert forall i :: 1 <= i < |block| ==> s[|a| + i] == block[i];
    assert forall i :: 0 <= i < |rest| ==> s[|a| + |block| + i] == rest[i];
  }

  lemma {:induction false} AsksForOne(p: ArgpOption, g: HasArg, h: HasArg)
    requires AsksFor(p, h)
    ensures AsksFor(p, g) <==> g == h
  {
  }

  /** Where getopt finds a letter in the string, it reads the argument that the first real option with the letter asks
      for, if and only if that argument is optional or the next real short option is not ':'. */
  lemma {:induction false} ShortArgument(loc: Locale, nodes: seq<Argp>, c: int, d: nat, j: nat)
    requires c != COLON && FirstDeclares(loc, nodes, c, d, j)
    ensures var s, p := ShortTable(loc, nodes), Principal(Opts(nodes[d]), j);
            var i := FirstIndex(s, c);
            i < |s| && (AsksFor(p, ReadArg(s, i)) <==> AsksFor(p, OptionalArgument) || FirstReal(loc, nodes, d, j + 1) != Some(COLON))
  {
    hide ShortTable, Shorts, ShortsFrom, TableFrom, ShortOf, Principal, FirstReal, FirstDeclares, AcceptsAt, FirstIndex, ReadArg, AsksFor;
    DeclaresAt(loc, nodes, c, d, j);
    var opts := Opts(nodes[d]);
    var a, rest := ShortTable(loc, nodes[..d]) + Shorts(loc, opts, j), ShortsFrom(loc, opts, j + 1) + TableFrom(loc, nodes, d + 1);
    StringAround(loc, nodes, d, j);
    NotBefore(loc, nodes, c, d, j);
    var h := BlockIs(loc, opts, j, c);
    HeadOfTable(loc, nodes, d, j + 1);
    ReadBlock(a, c, h, rest);
    AsksForOne(Principal(opts, j), OptionalArgument, h);
    AsksForOne(Principal(opts, j), ReadArg(ShortTable(loc, nodes), |a|), h);
  }

  lemma {:induction false} DeclaresAt(loc: Locale, nodes: seq<Argp>, c: int, d: nat, j: nat)
    requires FirstDeclares(loc, nodes, c, d, j)
    ensures d < |nodes| && j < |Opts(nodes[d])| && AcceptsAt(loc, Opts(nodes[d]), j, c)
  {
  }

  /** The order of options and arguments that the flags ask for. */
  function Asked(f: Flags): Ordering { if f.inOrder then ReturnInOrder else if f.noArgs then RequireOrder else Permute }

  /** getopt reads the order the flags ask for, and behind it exactly the letters of the tree, if and only if there is
      such a flag or the first real short option is neither '-' nor '+'. */
  lemma {:induction false} OrderRead(loc: Locale, f: Flags, t: Argp)
    ensures var s := OptString(loc, f, t);
            OrderingOf(s) == Asked(f) && LettersOf(s) == ShortTable(loc, Nodes(t)) <==>
            f.inOrder || f.noArgs || FirstReal(loc, Nodes(t), 0, 0) !in {Some(MINUS), Some(PLUS)}
  {
    hide ShortTable, Nodes, FirstReal, TableFrom, ShortsFrom;
    var nodes := Nodes(t);
    TableSplit(loc, nodes, 0);
    NoTable(loc, nodes);
    TableFromNext(loc, nodes, 0);
    HeadOfTable(loc, nodes, 0, 0);
    assert PrefixChars(f) != [] ==> OptString(loc, f, t)[1..] == ShortTable(loc, nodes);
    assert PrefixChars(f) == [] ==> OptString(loc, f, t) == ShortTable(loc, nodes);
  }

  lemma {:induction false} NoTable(loc: Locale, nodes: seq<Argp>)
    ensures ShortTable(loc, nodes[..0]) == [] && forall s: seq<int> :: [] + s == s
  {
  }

  lemma {:induction false} TableFromNext(loc: Locale, nodes: seq<Argp>, d: nat)
    requires d < |nodes|
    ensures TableFrom(loc, nodes, d) == ShortsFrom(loc, Opts(nodes[d]), 0) + TableFrom(loc, nodes, d + 1)
  {
  }
}
