/** Single inputs on which a stated condition fails, and what the code then does. */
module Counterexamples {
  import opened Options
  import opened ArgpTree
  import opened HelpEntries
  import opened HelpOrder
  import opened HelpList
  import opened HelpListBuild
  import opened HelpExamples
  import opened ParserTables
  import opened ParserDispatch
  import opened ParserShort

  lemma {:induction false} LeafOpts(opts: seq<ArgpOption>)
    ensures Nodes(Leaf(opts)) == [Leaf(opts)] && TaggedOpts([Leaf(opts)], 0) == TagAll(0, opts)
  {
    var t := Leaf(opts);
    assert NodesOf(t.children) == [];
    assert Nodes(t) == [t] + [];
    assert [t][..0] == [];
    assert TaggedOpts([t], 0) == [] + TagAll(0, opts);
  }

  /** One option with a key above 127 that the locale can print: the help list never finds it. */
  method WideKeyExample(loc: Locale, key: int) returns (hol: Hol)
    requires 128 <= key <= 255 && loc.isPrint(key)
    ensures Flat(hol.entries) == [Tagged(0, PLAIN.(key := key))]
    ensures FirstPositions(loc, Flat(hol.entries), 0, 1) == [0] && AllMatches(loc, hol.shorts, hol.entries) != [0]
  {
    hide AllMatches;
    var opts := [PLAIN.(key := key)];
    var t := Leaf(opts);
    LeafOpts(opts);
    var s := TagAll(0, opts);
    assert s == [Tagged(0, opts[0])];
    assert OptionIsShort(loc, s[0].opt);
    hol := HelpOptionList(loc, t);
    FirstIsFirst(loc, s);
  }

  lemma {:induction false} FirstIsFirst(loc: Locale, s: seq<Tagged>)
    requires |s| == 1 && OptionIsShort(loc, s[0].opt)
    ensures FirstPositions(loc, s, 0, 1) == [0]
  {
    assert s[..0] == [];
    assert FirstPositions(loc, s, 0, 0) == [];
    assert IsFirst(loc, s, 0);
  }

  /** A documentation option followed by an alias of it with a letter: help shows the letter, and no group of the
      parser takes it. */
  lemma {:induction false} DocAliasExample(loc: Locale, f: Flags)
    requires loc.isPrint('q' as int)
    ensures var t := Leaf([PLAIN.(doc := true, name := Some("about")), PLAIN.(key := 'q' as int, alias := true)]);
            var s := TaggedOpts(Nodes(t), 0);
            |s| == 2 && IsFirst(loc, s, 1) && Dispatch(OptString(loc, f, t), OptGroups(loc, f, t), 'q' as int) == None
  {
    hide Dispatch;
    var opts := [PLAIN.(doc := true, name := Some("about")), PLAIN.(key := 'q' as int, alias := true)];
    var t, c := Leaf(opts), 'q' as int;
    LeafOpts(opts);
    var s := TagAll(0, opts);
    assert s == [Tagged(0, opts[0]), Tagged(0, opts[1])];
    assert s[..1] == [Tagged(0, opts[0])];
    DocHasNoLetter(loc, s[..1]);
    assert !AcceptsAt(loc, opts, 0, c) && !AcceptsAt(loc, opts, 1, c);
    assert Opts(t) == opts && !NodeAccepts(loc, t, c);
    assert forall d :: 0 <= d < |Nodes(t)| ==> Nodes(t)[d] == t;
    hide NodeAccepts;
    NobodyAccepts(loc, f, t, c);
  }

  /** Two entries that start with the same character, one by its letter and one by its name: the one with the letter
      comes second. */
  lemma {:induction false} LetterComesSecond(loc: Locale)
    requires loc.isPrint('a' as int)
    ensures var name, letter := Entry([PLAIN.(name := Some("a"))], 0, 0, None, 0), Entry([PLAIN.(key := 'a' as int)], 0, 0, None, 0);
            EntryCmp(loc, ['a' as int], name, letter) < 0
  {
    var name, letter := [PLAIN.(name := Some("a"))], [PLAIN.(key := 'a' as int)];
    assert name[1..] == [] && letter[1..] == [];
    assert FirstShort(loc, ['a' as int], name, 0) == 0;
    assert FirstShort(loc, ['a' as int], letter, 0) == 'a' as int;
    assert FirstLong(name) == Some("a");
    assert FirstLong(letter) == None;
  }

  /** An option 'a' that takes no argument, followed by an option with key ':': getopt reads that 'a' needs one. */
  lemma {:induction false} ColonKeyExample(loc: Locale)
    requires loc.isPrint('a' as int) && loc.isPrint(COLON)
    ensures var t := Leaf([PLAIN.(key := 'a' as int), PLAIN.(key := COLON)]);
            ReadArg(ShortTable(loc, Nodes(t)), 0) == RequiredArgument
  {
    var opts := [PLAIN.(key := 'a' as int), PLAIN.(key := COLON)];
    var t := Leaf(opts);
    LeafOpts(opts);
    assert Opts(t) == opts;
    assert Shorts(loc, opts, 1) == ['a' as int];
    assert Shorts(loc, opts, 2) == ['a' as int, COLON];
    assert [t][..0] == [];
    assert ShortTable(loc, [t]) == [] + Shorts(loc, opts, 2);
  }

  lemma {:induction false} DocHasNoLetter(loc: Locale, s: seq<Tagged>)
    requires |s| == 1 && s[0].opt.doc
    ensures Letters(loc, s) == []
  {
    assert s[..0] == [];
  }
}
