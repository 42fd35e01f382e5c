/** What an entry of the help listing is sorted by, read off its options: the first visible name, the first visible
    letter it finds in the shared string, and for documentation options the trimmed name. */
module HelpNames {
  import opened Options
  import opened ArgpTree
  import opened HelpEntries
  import opened HelpOrder
  import opened HelpHeaders

  predicate Showing(opts: seq<ArgpOption>, k: nat) { k < |opts| && opts[k].name.Some? && !opts[k].hidden }

  /** The long name of an entry: that of the first visible option with one. */
  ghost predicate NameIs(opts: seq<ArgpOption>, name: Option<string>) {
    if name.None? then forall k: nat :: !Showing(opts, k)
    else exists k: nat :: Showing(opts, k) && opts[k].name == name && forall j: nat :: j < k ==> !Showing(opts, j)
  }

  /** Option k is visible and finds its own letter in the string. */
  predicate Lettered(loc: Locale, str: seq<int>, opts: seq<ArgpOption>, so: nat, k: nat) {
    k < |opts| && !opts[k].hidden && k in ShortMatches(loc, str, opts, so, 0)
  }

  /** The letter of an entry: that of the first such option, or 0. */
  ghost predicate LetterIs(loc: Locale, str: seq<int>, opts: seq<ArgpOption>, so: nat, letter: int) {
    if letter == 0 then forall k: nat :: !Lettered(loc, str, opts, so, k)
    else exists k: nat :: Lettered(loc, str, opts, so, k) && opts[k].key == letter && forall j: nat :: j < k ==> !Lettered(loc, str, opts, so, j)
  }

  /** The name of a documentation option: spaces are skipped, then it is an option if a dash follows, and everything
      before the first letter or digit is skipped too. */
  ghost predicate TrimsTo(loc: Locale, name: string, nonOpt: bool, tail: string) {
    exists i: nat, j: nat :: Skips(loc, name, i, j) && tail == name[j..] && (nonOpt <==> i == |name| || name[i] != '-')
  }

  predicate Skips(loc: Locale, name: string, i: nat, j: nat) {
    && i <= j <= |name| && (forall k :: 0 <= k < i ==> loc.isSpace(name[k] as int)) && (i < |name| ==> !loc.isSpace(name[i] as int))
    && (forall k :: i <= k < j ==> !loc.isAlnum(name[k] as int)) && (j < |name| ==> loc.isAlnum(name[j] as int))
  }

  // ----- the functions find these -----

  lemma {:induction false} LongFound(opts: seq<ArgpOption>)
    ensures NameIs(opts, FirstLong(opts))
  {
    if opts != [] {
      var rest := opts[1..];
      LongFound(rest);
      if !Showing(opts, 0) {
        assert forall k: nat :: Showing(opts, k + 1) <==> Showing(rest, k);
        if FirstLong(opts).None? {
          forall k: nat ensures !Showing(opts, k) { if k > 0 { assert !Showing(rest, k - 1); } }
        } else {
          var k: nat :| Showing(rest, k) && rest[k].name == FirstLong(opts) && forall j: nat :: j < k ==> !Showing(rest, j);
          assert Showing(opts, k + 1);
          forall j: nat | j < k + 1 ensures !Showing(opts, j) { if j > 0 { assert !Showing(rest, j - 1); } }
        }
      } else {
        assert Showing(opts, 0);
      }
    }
  }

  lemma {:induction false} MatchesShift(loc: Locale, str: seq<int>, opts: seq<ArgpOption>, so: nat, base: nat, d: nat, k: nat)
    ensures k in ShortMatches(loc, str, opts, so, base) <==> k + d in ShortMatches(loc, str, opts, so, base + d)
    decreases |opts|
  {
    if opts != [] {
      MatchesShift(loc, str, opts[1..], so + 1, base + 1, d, k);
      MatchesShift(loc, str, opts[1..], so, base + 1, d, k);
    }
  }

  lemma {:induction false} MatchesFrom(loc: Locale, str: seq<int>, opts: seq<ArgpOption>, so: nat, base: nat, k: nat)
    requires k in ShortMatches(loc, str, opts, so, base)
    ensures base <= k < base + |opts|
    decreases |opts|
  {
    if opts != [] && k != base {
      if OptionIsShort(loc, opts[0]) && CharAt(str, so) == opts[0].key {
        MatchesFrom(loc, str, opts[1..], so + 1, base + 1, k);
      } else {
        MatchesFrom(loc, str, opts[1..], so, base + 1, k);
      }
    }
  }

  /** Behind an option, the others match as they would on their own, the pointer moved if the option matches. */
  lemma {:induction false} LetteredNext(loc: Locale, str: seq<int>, opts: seq<ArgpOption>, so: nat, k: nat)
    requires opts != []
    ensures var own := OptionIsShort(loc, opts[0]) && CharAt(str, so) == opts[0].key;
            && (Lettered(loc, str, opts, so, k + 1) <==> Lettered(loc, str, opts[1..], if own then so + 1 else so, k))
            && (Lettered(loc, str, opts, so, 0) <==> own && !opts[0].hidden)
  {
    hide OptionIsShort;
    var own := OptionIsShort(loc, opts[0]) && CharAt(str, so) == opts[0].key;
    var so' := if own then so + 1 else so;
    var rest := ShortMatches(loc, str, opts[1..], so', 1);
    MatchesShift(loc, str, opts[1..], so', 0, 1, k);
    assert ShortMatches(loc, str, opts, so, 0) == (if own then [0] else []) + rest;
    if 0 in rest { MatchesFrom(loc, str, opts[1..], so', 1, 0); }
  }

  lemma {:induction false} ShortFound(loc: Locale, str: seq<int>, opts: seq<ArgpOption>, so: nat)
    ensures LetterIs(loc, str, opts, so, FirstShort(loc, str, opts, so))
    decreases |opts|
  {
    hide ShortMatches;
    if opts == [] {
      forall k: nat ensures !Lettered(loc, str, opts, so, k) { NoneLettered(loc, str, so, k); }
    } else {
      var own := OptionIsShort(loc, opts[0]) && CharAt(str, so) == opts[0].key;
      var so' := if own then so + 1 else so;
      ShortFound(loc, str, opts[1..], so');
      forall k: nat ensures (Lettered(loc, str, opts, so, k + 1) <==> Lettered(loc, str, opts[1..], so', k))
                            && (Lettered(loc, str, opts, so, 0) <==> own && !opts[0].hidden)
      {
        LetteredNext(loc, str, opts, so, k);
      }
      var letter := FirstShort(loc, str, opts, so);
      LetteredNext(loc, str, opts, so, 0);
      if Lettered(loc, str, opts, so, 0) {
        assert letter == opts[0].key;
      } else if letter == 0 {
        forall k: nat ensures !Lettered(loc, str, opts, so, k) {
          if k > 0 { LetteredNext(loc, str, opts, so, k - 1); assert !Lettered(loc, str, opts[1..], so', k - 1); }
        }
      } else {
        var k: nat :| Lettered(loc, str, opts[1..], so', k) && opts[1..][k].key == letter && forall j: nat :: j < k ==> !Lettered(loc, str, opts[1..], so', j);
        assert Lettered(loc, str, opts, so, k + 1);
        forall j: nat | j < k + 1 ensures !Lettered(loc, str, opts, so, j) {
          if j > 0 { LetteredNext(loc, str, opts, so, j - 1); assert !Lettered(loc, str, opts[1..], so', j - 1); }
        }
      }
    }
  }

  lemma {:induction false} NoneLettered(loc: Locale, str: seq<int>, so: nat, k: nat)
    ensures !Lettered(loc, str, [], so, k)
  {
  }

  lemma {:induction false} SpaceSkipped(loc: Locale, s: string) returns (i: nat)
    ensures i <= |s| && SkipSpace(loc, s) == s[i..]
    ensures (forall k :: 0 <= k < i ==> loc.isSpace(s[k] as int)) && (i < |s| ==> !loc.isSpace(s[i] as int))
  {
    i := 0;
    if s != [] && loc.isSpace(s[0] as int) {
      var n := SpaceSkipped(loc, s[1..]);
      i := n + 1;
    }
  }

  lemma {:induction false} AlnumFound(loc: Locale, s: string) returns (i: nat)
    ensures i <= |s| && SkipToAlnum(loc, s) == s[i..]
    ensures (forall k :: 0 <= k < i ==> !loc.isAlnum(s[k] as int)) && (i < |s| ==> loc.isAlnum(s[i] as int))
  {
    i := 0;
    if s != [] && !loc.isAlnum(s[0] as int) {
      var n := AlnumFound(loc, s[1..]);
      i := n + 1;
    }
  }

  lemma {:induction false} DocNameTrimmed(loc: Locale, name: string)
    ensures TrimsTo(loc, name, CanonDocOption(loc, name).0, CanonDocOption(loc, name).1)
  {
    var i := SpaceSkipped(loc, name);
    var j := AlnumFound(loc, name[i..]);
    assert name[i..][j..] == name[i + j..];
    forall k | i <= k < i + j ensures !loc.isAlnum(name[k] as int) { assert name[k] == name[i..][k - i]; }
    assert Skips(loc, name, i, i + j);
  }

  // ----- sorting -----

  /** What an entry is sorted by within its group: whether it is documentation that is no option, its name and its
      letter. */
  ghost predicate SortsUnder(loc: Locale, str: seq<int>, e: Entry, nonOpt: bool, name: Option<string>, letter: int)
    requires e.opts != []
  {
    && LetterIs(loc, str, e.opts, e.so, letter)
    && if e.opts[0].doc && name.Some? then exists whole :: NameIs(e.opts, Some(whole)) && TrimsTo(loc, whole, nonOpt, name.value)
       else !nonOpt && NameIs(e.opts, name)
  }

  /** The key of an entry behind its groups and clusters: documentation that is no option last; then by the letter, or
      without one the first character of the name, upper and lower case together and lower case first; then entries
      without a letter first, by their whole names. */
  lemma {:induction false} EntryKeyIs(loc: Locale, str: seq<int>, e: Entry) returns (nonOpt: bool, name: Option<string>, letter: int)
    requires ValidEntry(e)
    ensures SortsUnder(loc, str, e, nonOpt, name, letter)
    ensures var first := if letter != 0 then letter else if name.Some? && name.value != [] then name.value[0] as int else 0;
            Key(loc, str, e)
            == GroupKey(BaseGroup(e)) + [B(e.cluster.Some?)] + ClusterKey(e.cluster) + GroupKey(e.group)
               + ([B(nonOpt)] + ([loc.toLower(first)] + ([-first]
               + (if letter != 0 then [1] else [0] + ([B(name.Some?)] + if name.None? then [] else Folded(loc, name.value))))))
  {
    hide NameIs, LetterIs, TrimsTo, BaseGroup, ClusterKey, GroupKey, FirstShort, FirstLong, CanonDocOption, ValidCluster;
    var long := FirstLong(e.opts);
    LongFound(e.opts);
    ShortFound(loc, str, e.opts, e.so);
    letter := FirstShort(loc, str, e.opts, e.so);
    if e.opts[0].doc && long.Some? {
      DocNameTrimmed(loc, long.value);
      nonOpt, name := CanonDocOption(loc, long.value).0, Some(CanonDocOption(loc, long.value).1);
    } else {
      nonOpt, name := false, long;
    }
    assert TailKey(loc, name, letter) == if letter != 0 then [1] else [0] + ([B(name.Some?)] + if name.None? then [] else Folded(loc, name.value));
  }

  // ----- printing -----

  /** An entry prints a switch exactly if some option of it is visible and has a name or finds its letter; else the title
      of an option group exactly if its first option has neither name nor key for a switch. */
  lemma {:induction false} OutcomeIs(loc: Locale, str: seq<int>, e: Entry)
    requires e.opts != []
    ensures OutcomeOf(loc, str, e) == Switches <==> exists k: nat :: Showing(e.opts, k) || Lettered(loc, str, e.opts, e.so, k)
    ensures OutcomeOf(loc, str, e) == GroupHeader ==> e.opts[0].name.None? && !OptionIsShort(loc, e.opts[0])
    ensures OutcomeOf(loc, str, e) == Silent ==> e.opts[0].name.Some? || OptionIsShort(loc, e.opts[0])
  {
    hide Showing, Lettered, FirstShort, FirstLong;
    LongFound(e.opts);
    ShortFound(loc, str, e.opts, e.so);
  }
}
