/** Long options from the table to the parser that gets them, and the tables as getopt answers from them. */
module ParserLong {
  import opened Options
  import opened ArgpTree
  import opened HelpList
  import opened ParserTables
  import opened ParserLayout
  import opened ParserDispatch
  import opened ParseRun

  /** Option k of an argp can be given by this long name: a real option, not documentation. */
  predicate OffersAt(a: Argp, k: nat, name: string) {
    k < |Opts(a)| && Opts(a)[k].name == Some(name) && !Principal(Opts(a), k).doc
  }

  /** The key a parser is to see for option k: its own, or that of the option it is an alias of. */
  function KeyAt(a: Argp, k: nat): int
    requires k < |Opts(a)|
  {
    if Opts(a)[k].key != 0 then Opts(a)[k].key else Principal(Opts(a), k).key
  }

  /** Option k of argp n is the first in preorder that offers the name. */
  ghost predicate FirstOffer(nodes: seq<Argp>, n: nat, k: nat, name: string) {
    && n < |nodes| && OffersAt(nodes[n], k, name)
    && (forall m: nat, j: nat :: m < n ==> !OffersAt(nodes[m], j, name))
    && (forall j: nat :: j < k ==> !OffersAt(nodes[n], j, name))
  }

  // ----- where an entry of the table comes from -----

  lemma {:induction false} LocateOption(opts: seq<ArgpOption>, m: nat, group: nat, j: nat) returns (k: nat)
    requires m <= |opts| && j < |Longs(opts, m, group)|
    ensures k < m && LongOf(opts, k, group) == [Longs(opts, m, group)[j]]
    ensures j == |Longs(opts, k, group)| && Longs(opts, k, group) == Longs(opts, m, group)[..j]
  {
    var front := Longs(opts, m - 1, group);
    if j < |front| {
      k := LocateOption(opts, m - 1, group, j);
      assert Longs(opts, m, group)[..j] == front[..j];
    } else {
      k := m - 1;
      assert Longs(opts, m, group)[..j] == front;
    }
  }

  lemma {:induction false} Locate(nodes: seq<Argp>, j: nat) returns (n: nat, k: nat)
    requires j < |LongOffers(nodes)|
    ensures n < |nodes| && k < |Opts(nodes[n])|
    ensures var g := GroupCount(nodes[..n]);
            LongOf(Opts(nodes[n]), k, g) == [LongOffers(nodes)[j]] && LongOffers(nodes)[..j] == LongOffers(nodes[..n]) + Longs(Opts(nodes[n]), k, g)
  {
    hide Longs, LongOf, GroupCount;
    var last := |nodes| - 1;
    var front := LongOffers(nodes[..last]);
    if j < |front| {
      n, k := Locate(nodes[..last], j);
      assert nodes[..last][..n] == nodes[..n] && LongOffers(nodes)[..j] == front[..j];
    } else {
      n := last;
      var g := GroupCount(nodes[..last]);
      k := LocateOption(Opts(nodes[n]), |Opts(nodes[n])|, g, j - |front|);
      assert LongOffers(nodes)[..j] == front + Longs(Opts(nodes[n]), |Opts(nodes[n])|, g)[..j - |front|];
    }
  }

  // ----- an offer is in the list of offers -----

  lemma {:induction false} NamedIn(a: seq<LongOption>, b: seq<LongOption>, name: string)
    ensures HasName(a + b, name) <==> HasName(a, name) || HasName(b, name)
  {
    var s := a + b;
    if i :| 0 <= i < |a| && a[i].name == name { assert s[i].name == name; }
    if i :| 0 <= i < |b| && b[i].name == name { assert s[|a| + i].name == name; }
    if i :| 0 <= i < |s| && s[i].name == name {
      if i < |a| { assert a[i].name == name; } else { assert b[i - |a|].name == name; }
    }
  }

  lemma {:induction false} OptionNamedIn(a: Argp, m: nat, group: nat, j: nat, name: string)
    requires j < m <= |Opts(a)| && OffersAt(a, j, name)
    ensures HasName(Longs(Opts(a), m, group), name)
  {
    hide HasName;
    NamedIn(Longs(Opts(a), m - 1, group), LongOf(Opts(a), m - 1, group), name);
    if j < m - 1 { OptionNamedIn(a, m - 1, group, j, name); } else { OneNamed(LongOf(Opts(a), j, group), name); }
  }

  lemma {:induction false} OneNamed(s: seq<LongOption>, name: string)
    requires |s| == 1 && s[0].name == name
    ensures HasName(s, name)
  {
  }

  lemma {:induction false} NodeNamedIn(nodes: seq<Argp>, n: nat, m: nat, j: nat, name: string)
    requires m < n <= |nodes| && OffersAt(nodes[m], j, name)
    ensures HasName(LongOffers(nodes[..n]), name)
  {
    hide HasName, Longs, GroupCount;
    var front := nodes[..n - 1];
    assert nodes[..n][..n - 1] == front;
    var opts := Opts(nodes[n - 1]);
    NamedIn(LongOffers(front), Longs(opts, |opts|, GroupCount(front)), name);
    if m < n - 1 { NodeNamedIn(nodes, n - 1, m, j, name); } else { OptionNamedIn(nodes[m], |opts|, GroupCount(front), j, name); }
  }

  // ----- every entry of the table -----

  /** C ints of which the low 24 bits carry the sign. */
  predicate UserKey(key: int) { -USER_LIMIT / 2 <= key < USER_LIMIT / 2 }

  /** Every entry of the long-option vector of a tree is the first option of its name in preorder, and its value
      decodes to the group of that option's argp, and to the key, if and only if the key is a signed 24-bit number
      and the group is among the first 127. It asks for the argument its option, or the one it is an alias of, does. */
  lemma {:induction false} LongEntryDecodes(t: Argp, i: nat) returns (n: nat, k: nat)
    requires i < |FirstNamed(LongOffers(Nodes(t)))|
    ensures var e, nodes := FirstNamed(LongOffers(Nodes(t)))[i], Nodes(t);
            && FirstOffer(nodes, n, k, e.name) && HasGroup(nodes[n]) && AsksFor(Principal(Opts(nodes[n]), k), e.hasArg)
            && (-INT_LIMIT / 2 <= KeyAt(nodes[n], k) < INT_LIMIT / 2 ==>
                  (DecodeGroup(e.val) == GroupCount(nodes[..n]) + 1 && DecodeKey(e.val) == KeyAt(nodes[n], k)
                   <==> UserKey(KeyAt(nodes[n], k)) && GroupCount(nodes[..n]) < GROUP_LIMIT))
            && (GroupCount(nodes[..n]) < GROUP_LIMIT ==> DecodeGroup(e.val) == GroupCount(nodes[..n]) + 1 && e.val >= USER_LIMIT)
  {
    hide FirstNamed, LongOffers, Longs, GroupCount, Nodes, HasName, DecodeGroup, DecodeKey, EncodeVal;
    var nodes := Nodes(t);
    var s := LongOffers(nodes);
    var e := FirstNamed(s)[i];
    var j := LongIsFirst(s, i);
    n, k := Locate(nodes, j);
    var g := GroupCount(nodes[..n]);
    var a, b := LongOffers(nodes[..n]), Longs(Opts(nodes[n]), k, g);
    NamedIn(a, b, e.name);
    forall m: nat, q: nat | m < n ensures !OffersAt(nodes[m], q, e.name) {
      if OffersAt(nodes[m], q, e.name) { NodeNamedIn(nodes, n, m, q, e.name); }
    }
    forall q: nat | q < k ensures !OffersAt(nodes[n], q, e.name) {
      if OffersAt(nodes[n], q, e.name) { OptionNamedIn(nodes[n], k, g, q, e.name); }
    }
    var key := KeyAt(nodes[n], k);
    if -INT_LIMIT / 2 <= key < INT_LIMIT / 2 { ValRoundTrip(key, g); }
    HighDecodes(key, g);
  }

  lemma {:induction false} HighDecodes(key: int, group: nat)
    ensures group < GROUP_LIMIT ==> DecodeGroup(EncodeVal(key, group)) == group + 1 && EncodeVal(key, group) >= USER_LIMIT
  {
    DecodeHigh(key % USER_LIMIT, group);
  }

  /** Every name a tree offers has exactly one entry. */
  lemma {:induction false} LongEntryExists(t: Argp, m: nat, q: nat, name: string) returns (i: nat)
    requires m < |Nodes(t)| && OffersAt(Nodes(t)[m], q, name)
    ensures var table := FirstNamed(LongOffers(Nodes(t)));
            i < |table| && table[i].name == name && forall j :: 0 <= j < |table| && j != i ==> table[j].name != name
  {
    hide FirstNamed, LongOffers;
    var nodes := Nodes(t);
    var s := LongOffers(nodes);
    NodeNamedIn(nodes, |nodes|, m, q, name);
    assert nodes[..|nodes|] == nodes;
    FirstNamedNames(s, name);
    LongNamesUnique(s);
    i :| 0 <= i < |FirstNamed(s)| && FirstNamed(s)[i].name == name;
  }

  // ----- getopt answers from the tables -----

  /** The parser built for a tree. */
  ghost function Built(loc: Locale, f: Flags, t: Argp, env: Env, hasEnd: bool): Config {
    Config(OptGroups(loc, f, t), OptString(loc, f, t), env, hasEnd)
  }

  /** One option handed out: the parser of argp h is called, once, with this key, and its error returned; or, if the
      argp has none, nobody is called and the option counts as unknown. */
  ghost predicate Hears(c: Config, hasParser: bool, st: State, r: (State, int), h: nat, key: Key) {
    if hasParser then
      && |r.0.trace| == |st.trace| + 1 && st.trace <= r.0.trace
      && var e := r.0.trace[|st.trace|];
         e.group < |c.groups| && c.groups[e.group].node == h && e.key == key && e.at == st.next && e.err == r.1
    else r == (st, EBADKEY)
  }

  lemma {:induction false} OneHears(c: Config, st: State, g: nat, h: nat, key: Key)
    requires g < |c.groups| && c.groups[g].node == h
    ensures Hears(c, c.groups[g].hasParser, st, GroupParse(c, st, g, key), h, key)
  {
  }

  /** In every run that ends, the parser of every argp of the tree is started and closed. */
  lemma {:induction false} EveryParserTakesPart(loc: Locale, f: Flags, t: Argp, env: Env, hasEnd: bool, argc: int, limit: nat, i: nat) returns (g: nat)
    requires var c := Built(loc, f, t, env, hasEnd); ValidConfig(c) && Run(c, argc, f.noArgs, limit).Done?
    requires i < |Nodes(t)| && Nodes(t)[i].hasParser
    ensures var c := Built(loc, f, t, env, hasEnd);
            var tr := Run(c, argc, f.noArgs, limit).st.trace;
            g < |c.groups| && c.groups[g].node == i && CalledWith(tr, g, Init) && CalledWith(tr, g, Fini)
  {
    hide Run, Nodes, GroupsOf, ValidConfig, Ordered;
    g := GroupOfArgp(loc, t, |PrefixChars(f)|, i);
    RunOrder(Built(loc, f, t, env, hasEnd), argc, f.noArgs, limit);
  }

  /** What getopt may return: the end, an argument, an error, a letter of the string or a value of the vector. */
  ghost predicate FromTables(loc: Locale, f: Flags, t: Argp, opt: int) {
    || opt == KEY_END || opt == KEY_ARG || opt == KEY_ERR
    || (opt in ShortTable(loc, Nodes(t)) && opt != COLON)
    || IsVal(t, opt)
  }

  ghost predicate IsVal(t: Argp, opt: int) { exists i :: 0 <= i < |FirstNamed(LongOffers(Nodes(t)))| && FirstNamed(LongOffers(Nodes(t)))[i].val == opt }

  ghost predicate AnswersFromTables(loc: Locale, f: Flags, t: Argp, env: Env) {
    forall n: nat, next: int, argc: int :: FromTables(loc, f, t, env.getopt(n, next, argc).opt)
  }

  lemma {:induction false} SmallIsShort(opt: int)
    requires 0 <= opt < USER_LIMIT
    ensures DecodeGroup(opt) == 0
  {
  }

  /** With at most 127 groups and no short key above 127, every option a getopt returns that knows only the tables
      names a group of them. */
  lemma {:induction false} BuiltIsValid(loc: Locale, f: Flags, t: Argp, env: Env, hasEnd: bool)
    requires GroupCount(Nodes(t)) <= GROUP_LIMIT && AsciiShorts(loc, TaggedOpts(Nodes(t), 0)) && AnswersFromTables(loc, f, t, env)
    ensures ValidConfig(Built(loc, f, t, env, hasEnd))
  {
    hide FromTables, AsciiShorts, TaggedOpts, Nodes;
    var c := Built(loc, f, t, env, hasEnd);
    forall n: nat, next: int, argc: int ensures Nameable(c, env.getopt(n, next, argc).opt) {
      assert FromTables(loc, f, t, env.getopt(n, next, argc).opt);
      TableOption(loc, f, t, env, hasEnd, env.getopt(n, next, argc).opt);
    }
  }

  lemma {:induction false} TableOption(loc: Locale, f: Flags, t: Argp, env: Env, hasEnd: bool, opt: int)
    requires GroupCount(Nodes(t)) <= GROUP_LIMIT && AsciiShorts(loc, TaggedOpts(Nodes(t), 0)) && FromTables(loc, f, t, opt)
    ensures Nameable(Built(loc, f, t, env, hasEnd), opt)
  {
    hide FirstNamed, LongOffers, AsciiShorts, TaggedOpts, Nodes, GroupCount, ShortTable, DecodeGroup;
    TreeLayout(loc, t, |PrefixChars(f)|);
    if opt == KEY_ARG || opt == KEY_ERR {
      SmallIsShort(opt);
    } else if opt in ShortTable(loc, Nodes(t)) && opt != COLON {
      LetterIsSmall(loc, t, opt);
      SmallIsShort(opt);
    } else if IsVal(t, opt) {
      var i :| 0 <= i < |FirstNamed(LongOffers(Nodes(t)))| && FirstNamed(LongOffers(Nodes(t)))[i].val == opt;
      var n, k := LongEntryDecodes(t, i);
      GroupBefore(Nodes(t), n);
    }
  }

  lemma {:induction false} GroupBefore(nodes: seq<Argp>, n: nat)
    requires n < |nodes| && HasGroup(nodes[n])
    ensures GroupCount(nodes[..n]) < GroupCount(nodes)
  {
    assert nodes == nodes[..n] + ([nodes[n]] + nodes[n + 1..]);
    GroupCountAppend(nodes[..n], [nodes[n]] + nodes[n + 1..]);
    GroupCountAppend([nodes[n]], nodes[n + 1..]);
  }

  lemma {:induction false} LetterIsSmall(loc: Locale, t: Argp, c: int)
    requires AsciiShorts(loc, TaggedOpts(Nodes(t), 0)) && c in ShortTable(loc, Nodes(t)) && c != COLON
    ensures 0 <= c < 128
  {
    hide ShortTable, TaggedOpts, Nodes;
    var nodes := Nodes(t);
    ShortTableMembers(loc, nodes, c);
    var i :| 0 <= i < |nodes| && NodeAccepts(loc, nodes[i], c);
    var j :| 0 <= j < |Opts(nodes[i])| && OptionIsShort(loc, Opts(nodes[i])[j]) && ToChar(Opts(nodes[i])[j].key) == c;
    var p := OptionTagged(nodes, i, j);
    assert TaggedOpts(nodes, 0)[p].opt == Opts(nodes[i])[j];
    var key := Opts(nodes[i])[j].key;
    assert 0 < key < 128;
    assert ToChar(key) == key;
    assert c == key;
  }

  /** Every option of an argp has a place in the preorder list. */
  lemma {:induction false} OptionTagged(nodes: seq<Argp>, i: nat, j: nat) returns (p: nat)
    requires i < |nodes| && j < |Opts(nodes[i])|
    ensures p < |TaggedOpts(nodes, 0)| && TaggedOpts(nodes, 0)[p] == Tagged(i, Opts(nodes[i])[j])
  {
    var last := |nodes| - 1;
    if i < last {
      p := OptionTagged(nodes[..last], i, j);
    } else {
      p := |TaggedOpts(nodes[..last], 0)| + j;
    }
  }

  /** A long option given by any name reaches the parser of the first argp in preorder that offers the name, with the
      key that argp gave it. */
  lemma {:induction false} LongOptionReaches(loc: Locale, f: Flags, t: Argp, env: Env, hasEnd: bool, st: State, i: nat) returns (n: nat, k: nat)
    requires i < |FirstNamed(LongOffers(Nodes(t)))| && GroupCount(Nodes(t)) <= GROUP_LIMIT
    ensures var e, nodes, c := FirstNamed(LongOffers(Nodes(t)))[i], Nodes(t), Built(loc, f, t, env, hasEnd);
            && FirstOffer(nodes, n, k, e.name)
            && (UserKey(KeyAt(nodes[n], k)) && ValidState(c, st) ==>
                  var g := GroupCount(nodes[..n]);
                  && g < |c.groups| && c.groups[g].node == n && 0 <= DecodeGroup(e.val) <= |c.groups|
                  && ParseOpt(c, st, e.val) == GroupParse(c, st, g, Opt(KeyAt(nodes[n], k)))
                  && Hears(c, nodes[n].hasParser, st, ParseOpt(c, st, e.val), n, Opt(KeyAt(nodes[n], k))))
  {
    hide FirstNamed, LongOffers, Nodes, GroupCount, GroupTable, Parents, GroupParse, DecodeGroup, DecodeKey, Dispatch, KeyAt, Principal, Hears;
    n, k := LongEntryDecodes(t, i);
    var nodes := Nodes(t);
    GroupBefore(nodes, n);
    AllGroups(t);
    TreeLayout(loc, t, |PrefixChars(f)|);
    GroupTableAt(loc, nodes, Parents(t, None, 0, 0), |nodes|, |PrefixChars(f)|, n);
    var c := Built(loc, f, t, env, hasEnd);
    if UserKey(KeyAt(nodes[n], k)) && ValidState(c, st) { OneHears(c, st, GroupCount(nodes[..n]), n, Opt(KeyAt(nodes[n], k))); }
  }
}
