/** Help and parser: the argp under which help lists a short option, and the one the parser calls for it. */
module HelpAgreement {
  import opened Options
  import opened ArgpTree
  import opened HelpEntries
  import opened HelpOrder
  import opened HelpList
  import opened HelpListBuild
  import opened HelpUsage
  import opened HelpExamples
  import opened ParserTables
  import opened ParserLayout
  import opened ParserDispatch
  import opened ParseRun
  import opened ParserLong
  import opened ParserShort

  /** The entry of option p, in the list built for help, finds its letter: help lists the letter there, unless the
      option is hidden. */
  predicate Listed(loc: Locale, t: Argp, p: nat) {
    var hol := TreeHol(loc, t, None, 0);
    p in AllMatches(loc, hol.shorts, hol.entries)
  }

  /** The parser built for a tree, in some surroundings and at some point of a run. */
  ghost predicate Serving(loc: Locale, f: Flags, t: Argp, cfg: Config, st: State) {
    cfg == Built(loc, f, t, cfg.env, cfg.hasEnd) && ValidState(cfg, st)
  }

  /** Given this character by getopt, the parser calls argp h with it as a key, once, and nobody else. */
  ghost predicate Reaches(cfg: Config, st: State, c: int, h: nat)
    requires ValidState(cfg, st)
  {
    0 <= DecodeGroup(c) <= |cfg.groups| && Hears(cfg, true, st, ParseOpt(cfg, st, c), h, Opt(c))
  }

  /** Neither ':' nor the character the flags put in front of the short options: getopt takes those for syntax. */
  predicate Allowed(f: Flags, c: int) { c != COLON && c !in PrefixChars(f) }

  /** Option p is the first with its letter, and getopt can return the letter. */
  predicate FirstAllowed(loc: Locale, f: Flags, s: seq<Tagged>, p: nat) {
    p < |s| && IsFirst(loc, s, p) && Allowed(f, ToChar(s[p].opt.key))
  }

  /** Help lists the option, and the parser takes its letter to the argp help lists it under. */
  ghost predicate AgreeOn(loc: Locale, t: Argp, cfg: Config, st: State, p: nat)
    requires p < |TaggedOpts(Nodes(t), 0)| && ValidState(cfg, st)
  {
    var o := TaggedOpts(Nodes(t), 0)[p];
    Listed(loc, t, p) && Reaches(cfg, st, ToChar(o.opt.key), o.node)
  }

  ghost predicate Agree(loc: Locale, f: Flags, t: Argp, cfg: Config, st: State)
    requires ValidState(cfg, st)
  {
    var s := TaggedOpts(Nodes(t), 0);
    forall p {:trigger AgreeOn(loc, t, cfg, st, p)} :: 0 <= p < |s| && FirstAllowed(loc, f, s, p) ==> AgreeOn(loc, t, cfg, st, p)
  }

  /** The argp that declares the letter of option p has a parser, and declares the letter for an option that is no
      documentation. */
  predicate ForReal(loc: Locale, t: Argp, p: nat) {
    var s := TaggedOpts(Nodes(t), 0);
    && p < |s| && s[p].node < |Nodes(t)|
    && Nodes(t)[s[p].node].hasParser && NodeAccepts(loc, Nodes(t)[s[p].node], ToChar(s[p].opt.key))
  }

  ghost predicate AllForReal(loc: Locale, f: Flags, t: Argp) {
    var s := TaggedOpts(Nodes(t), 0);
    forall p {:trigger ForReal(loc, t, p)} :: 0 <= p < |s| && FirstAllowed(loc, f, s, p) ==> ForReal(loc, t, p)
  }

  lemma {:induction false} NarrowDecodes(key: int)
    requires 0 < key <= 255
    ensures DecodeGroup(ToChar(key)) == if key < 128 then 0 else -1
  {
    var c := ToChar(key);
    if key < 128 {
      assert c % USER_LIMIT == c;
    } else {
      assert c == -1 * USER_LIMIT + (c + USER_LIMIT);
      assert c % USER_LIMIT == c + USER_LIMIT;
    }
  }

  /** A letter that help lists has a key below 128. A short option with another key is listed nowhere, and what
      getopt returns for it does not even reach the search for a short option. */
  lemma {:induction false} WideNeitherSide(loc: Locale, f: Flags, t: Argp, cfg: Config, st: State, p: nat)
    requires NoLeadingAlias(Nodes(t)) && p < |TaggedOpts(Nodes(t), 0)| && OptionIsShort(loc, TaggedOpts(Nodes(t), 0)[p].opt)
    requires ValidState(cfg, st)
    ensures var o := TaggedOpts(Nodes(t), 0)[p].opt;
            o.key >= 128 ==> !Listed(loc, t, p) && DecodeGroup(ToChar(o.key)) == -1 && forall h :: !Reaches(cfg, st, ToChar(o.key), h)
  {
    hide ParseOpt, TaggedOpts, TreeHol, AllMatches, Flat, Nodes, DecodeGroup, EntryList, Hears;
    var hol := TreeHol(loc, t, None, 0);
    TreeHolFinds(loc, t);
    AllMatchesAreAscii(loc, hol.shorts, hol.entries);
    NarrowDecodes(TaggedOpts(Nodes(t), 0)[p].opt.key);
  }

  /** In a tree without keys above 127, help lists exactly the options that come first with their letter. */
  lemma {:induction false} ListedIsFirst(loc: Locale, t: Argp, p: nat)
    requires NoLeadingAlias(Nodes(t)) && p < |TaggedOpts(Nodes(t), 0)| && AsciiShorts(loc, TaggedOpts(Nodes(t), 0))
    ensures Listed(loc, t, p) <==> IsFirst(loc, TaggedOpts(Nodes(t), 0), p)
  {
    hide TaggedOpts, TreeHol, AllMatches, Flat, Nodes, IsFirst, FirstPositions, AsciiShorts, EntryList, Represents;
    TreeHolFinds(loc, t);
    var s := TaggedOpts(Nodes(t), 0);
    FirstPositionsMembers(loc, s, 0, |s|);
  }

  lemma {:induction false} OneArgp(cfg: Config, st: State, r: (State, int), h: nat, d: nat, key: Key)
    requires Hears(cfg, true, st, r, d, key)
    ensures Hears(cfg, true, st, r, h, key) <==> h == d
  {
  }

  lemma {:induction false} NobodyHears(cfg: Config, st: State, h: nat, key: Key)
    ensures !Hears(cfg, true, st, (st, EBADKEY), h, key)
  {
  }

  /** A letter at most 127 reaches the argp that declares it first if and only if that argp has a parser and declares
      it for a real option. */
  lemma {:induction false} FirstReaches(loc: Locale, f: Flags, t: Argp, cfg: Config, st: State, p: nat)
    requires p < |TaggedOpts(Nodes(t), 0)| && Serving(loc, f, t, cfg, st)
    requires FirstAllowed(loc, f, TaggedOpts(Nodes(t), 0), p) && TaggedOpts(Nodes(t), 0)[p].opt.key < 128
    ensures var o := TaggedOpts(Nodes(t), 0)[p]; Reaches(cfg, st, ToChar(o.opt.key), o.node) <==> ForReal(loc, t, p)
  {
    hide TaggedOpts, Nodes, Letters, DecodeGroup, Built, ParseOpt, NodeAccepts, PrefixChars, Hears, Serving;
    var nodes, s := Nodes(t), TaggedOpts(Nodes(t), 0);
    var h, c := s[p].node, ToChar(s[p].opt.key);
    ServingIs(loc, f, t, cfg, st);
    TaggedNode(nodes, p);
    forall i | 0 <= i < h ensures !NodeAccepts(loc, nodes[i], c) { EarlierDoNotAccept(loc, nodes, p, i); }
    ShortOptionReaches(loc, f, t, cfg.env, cfg.hasEnd, st, c);
    if exists d :: 0 <= d < |nodes| && NodeAccepts(loc, nodes[d], c) {
      var d := FirstAccepting(loc, nodes, c);
      assert FirstAccepts(loc, nodes, c, d);
      assert d == h <==> NodeAccepts(loc, nodes[h], c);
      if nodes[d].hasParser {
        OneArgp(cfg, st, ParseOpt(cfg, st, c), h, d, Opt(c));
      } else {
        Unheard(cfg, st, ParseOpt(cfg, st, c), d, h, Opt(c));
      }
    } else {
      NobodyHears(cfg, st, h, Opt(c));
    }
  }

  lemma {:induction false} Unheard(cfg: Config, st: State, r: (State, int), d: nat, h: nat, key: Key)
    requires Hears(cfg, false, st, r, d, key)
    ensures !Hears(cfg, true, st, r, h, key)
  {
  }

  lemma {:induction false} ServingIs(loc: Locale, f: Flags, t: Argp, cfg: Config, st: State)
    requires Serving(loc, f, t, cfg, st)
    ensures cfg == Built(loc, f, t, cfg.env, cfg.hasEnd) && ValidState(cfg, st)
  {
  }

  /** In a tree without keys above 127, a listed letter reaches the argp it is listed under if and only if that argp
      has a parser and declares it for a real option, not only for an alias of a documentation option. */
  lemma {:induction false} ListedReaches(loc: Locale, f: Flags, t: Argp, cfg: Config, st: State, p: nat)
    requires NoLeadingAlias(Nodes(t)) && p < |TaggedOpts(Nodes(t), 0)| && AsciiShorts(loc, TaggedOpts(Nodes(t), 0)) && Serving(loc, f, t, cfg, st)
    requires Listed(loc, t, p) && Allowed(f, ToChar(TaggedOpts(Nodes(t), 0)[p].opt.key))
    ensures AgreeOn(loc, t, cfg, st, p) <==> ForReal(loc, t, p)
  {
    hide TaggedOpts, Listed, Nodes, Letters, Reaches, Built, NodeAccepts, PrefixChars;
    var s := TaggedOpts(Nodes(t), 0);
    ListedIsFirst(loc, t, p);
    assert OptionIsShort(loc, s[p].opt);
    FirstReaches(loc, f, t, cfg, st, p);
  }

  /** Help and parser agree on every letter, at every point of every run, if and only if no short option has a key
      above 127 and every letter is declared for a real option by the argp that declares it first, and that argp has a
      parser. */
  lemma {:induction false} HelpAndParserAgree(loc: Locale, f: Flags, t: Argp, cfg: Config, st: State)
    requires NoLeadingAlias(Nodes(t)) && Serving(loc, f, t, cfg, st)
    ensures Agree(loc, f, t, cfg, st) <==> AsciiShorts(loc, TaggedOpts(Nodes(t), 0)) && AllForReal(loc, f, t)
  {
    hide TaggedOpts, Listed, Nodes, AgreeOn, ForReal, IsFirst, Built;
    var s := TaggedOpts(Nodes(t), 0);
    if AsciiShorts(loc, s) {
      forall p | 0 <= p < |s| && FirstAllowed(loc, f, s, p) ensures AgreeOn(loc, t, cfg, st, p) <==> ForReal(loc, t, p) {
        ListedIsFirst(loc, t, p);
        ListedReaches(loc, f, t, cfg, st, p);
      }
    } else {
      var w :| 0 <= w < |s| && OptionIsShort(loc, s[w].opt) && s[w].opt.key >= 128;
      var p := FirstOfLetter(loc, s, w);
      WideDisagrees(loc, f, t, cfg, st, p);
    }
  }

  lemma {:induction false} WideDisagrees(loc: Locale, f: Flags, t: Argp, cfg: Config, st: State, p: nat)
    requires NoLeadingAlias(Nodes(t)) && p < |TaggedOpts(Nodes(t), 0)| && IsFirst(loc, TaggedOpts(Nodes(t), 0), p)
    requires TaggedOpts(Nodes(t), 0)[p].opt.key >= 128 && ValidState(cfg, st)
    ensures FirstAllowed(loc, f, TaggedOpts(Nodes(t), 0), p) && !AgreeOn(loc, t, cfg, st, p)
  {
    hide TaggedOpts, Listed, Nodes, Letters, Reaches;
    WideNeitherSide(loc, f, t, cfg, st, p);
  }

  /** No short option is an alias of a documentation option. */
  predicate NoDocAliases(loc: Locale, nodes: seq<Argp>) {
    forall a :: a in nodes ==> forall j :: 0 <= j < |Opts(a)| && OptionIsShort(loc, Opts(a)[j]) ==> !Principal(Opts(a), j).doc
  }

  /** Without short aliases of documentation options and keys above 127, and with a parser for every argp that has
      short options, help and parser agree on every letter. */
  lemma {:induction false} AgreeWithoutDocAliases(loc: Locale, f: Flags, t: Argp, cfg: Config, st: State)
    requires NoLeadingAlias(Nodes(t)) && NoDocAliases(loc, Nodes(t)) && AsciiShorts(loc, TaggedOpts(Nodes(t), 0)) && Serving(loc, f, t, cfg, st)
    requires forall a :: a in Nodes(t) && (exists j :: 0 <= j < |Opts(a)| && OptionIsShort(loc, Opts(a)[j])) ==> a.hasParser
    ensures Agree(loc, f, t, cfg, st)
  {
    hide Nodes, TaggedOpts, Letters, AgreeOn, Allowed, Built;
    var nodes, s := Nodes(t), TaggedOpts(Nodes(t), 0);
    forall p | 0 <= p < |s| && FirstAllowed(loc, f, s, p) ensures ForReal(loc, t, p) {
      TaggedNode(nodes, p);
      var h := s[p].node;
      assert nodes[h] in nodes;
      var j :| 0 <= j < |Opts(nodes[h])| && Opts(nodes[h])[j] == s[p].opt;
      assert OptionIsShort(loc, Opts(nodes[h])[j]);
      assert AcceptsAt(loc, Opts(nodes[h]), j, ToChar(s[p].opt.key));
    }
    HelpAndParserAgree(loc, f, t, cfg, st);
  }

  /** Past a key above 127 a letter may be listed under two argps; the parser can only take it to one. */
  lemma {:induction false} ListedTwice(loc: Locale, f: Flags, cfg: Config, st: State)
    requires loc.isPrint(233) && loc.isPrint('b' as int) && Serving(loc, f, OverflowTree(), cfg, st)
    ensures var t := OverflowTree();
            Listed(loc, t, 2) && Listed(loc, t, 3) && !(Reaches(cfg, st, 'b' as int, 1) && Reaches(cfg, st, 'b' as int, 2))
  {
    hide TreeHol, Reaches, Built;
    OverflowList(loc);
    var hol := TreeHol(loc, OverflowTree(), None, 0);
    var es, b := hol.entries, Letter1('b' as int);
    FlatSnoc([], es[0]);
    FlatSnoc(es[..1], es[1]);
    FlatSnoc(es[..2], es[2]);
    assert es[..1] == [] + [es[0]] && es[..2] == es[..1] + [es[1]] && es[..3] == es[..2] + [es[2]];
    assert |Flat(es[..2])| == 2 && |Flat(es[..3])| == 3;
    OneMatch(loc, b, 2);
    OneMatch(loc, b, 3);
    MatchedIn(loc, hol.shorts, es, 2, 2);
    MatchedIn(loc, hol.shorts, es, 3, 3);
    OnlyOne(cfg, st, 'b' as int);
  }

  lemma {:induction false} OnlyOne(cfg: Config, st: State, c: int)
    requires ValidState(cfg, st)
    ensures !(Reaches(cfg, st, c, 1) && Reaches(cfg, st, c, 2))
  {
    hide ParseOpt, DecodeGroup;
  }

  lemma {:induction false} OneMatch(loc: Locale, b: ArgpOption, base: nat)
    requires OptionIsShort(loc, b)
    ensures ShortMatches(loc, [b.key], [b], 0, base) == [base]
  {
    assert [b][1..] == [];
    assert ShortMatches(loc, [b.key], [], 1, base + 1) == [];
  }
}
