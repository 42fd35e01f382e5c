/** The tables argp hands to getopt: the merged short-option string, the long-option vector and the groups,
    as functions of the argps of a tree in preorder. */
module ParserTables {
  import opened Options
  import opened ArgpTree
  import opened HelpList

  const EBADKEY := 7 // E2BIG

  /** An error that does not stop the parsers from being called. */
  predicate Soft(err: int) { err == 0 || err == EBADKEY }

  function Normal(err: int): int { if err == EBADKEY then 0 else err }

  datatype HasArg = NoArgument | RequiredArgument | OptionalArgument

  /** A `struct option`. */
  datatype LongOption = LongOption(name: string, hasArg: HasArg, val: int)

  /** A `struct group`, as convert_options fills it; pointers are offsets. */
  datatype Group = Group(node: nat, hasParser: bool, shortEnd: nat, parent: Option<nat>, parentIndex: nat,
                         childInputs: nat, numChildren: nat)

  /** A group exists for every argp that has options or a parser. */
  predicate HasGroup(a: Argp) { a.options.Some? || a.hasParser }

  /** The argument an option asks for, as getopt names it. */
  predicate AsksFor(p: ArgpOption, h: HasArg) {
    match h
    case NoArgument => p.arg.None?
    case RequiredArgument => p.arg.Some? && !p.argOptional
    case OptionalArgument => p.arg.Some? && p.argOptional
  }

  // ----- one argp -----

  /** The option that option i takes its values from: the last one up to i that is no alias. */
  function Principal(opts: seq<ArgpOption>, i: nat): ArgpOption
    requires i < |opts|
  {
    if i == 0 || !opts[i].alias then opts[i] else Principal(opts, i - 1)
  }

  /** An option stands for itself unless it is an alias; a row of aliases stands for the option before it. */
  lemma {:induction false} PrincipalIs(opts: seq<ArgpOption>, i: nat) returns (j: nat)
    requires i < |opts|
    ensures j <= i && Principal(opts, i) == opts[j] && (j == 0 || !opts[j].alias) && forall k :: j < k <= i ==> opts[k].alias
  {
    j := i;
    if i > 0 && opts[i].alias { j := PrincipalIs(opts, i - 1); }
  }

  const COLON := ':' as int

  /** What option i adds to the short-option string. */
  function ShortOf(loc: Locale, opts: seq<ArgpOption>, i: nat): (r: seq<int>)
    requires i < |opts|
    ensures |r| <= 3
  {
    var p := Principal(opts, i);
    if p.doc || !OptionIsShort(loc, opts[i]) then []
    else [ToChar(opts[i].key)] + if p.arg.None? then [] else if p.argOptional then [COLON, COLON] else [COLON]
  }

  /** What the first n options add. */
  function Shorts(loc: Locale, opts: seq<ArgpOption>, n: nat): seq<int>
    requires n <= |opts|
  {
    if n == 0 then [] else Shorts(loc, opts, n - 1) + ShortOf(loc, opts, n - 1)
  }

  const USER_LIMIT := 0x100_0000
  const INT_LIMIT := 0x1_0000_0000

  /** The value of a C int with these 32 low bits. */
  function ToInt32(x: int): int {
    var y := x % INT_LIMIT;
    if y >= INT_LIMIT / 2 then y - INT_LIMIT else y
  }

  /** The `val` of a long option: the low 24 bits of the key, the group number plus one above them. */
  function EncodeVal(key: int, group: nat): int { ToInt32(key % USER_LIMIT + (group + 1) * USER_LIMIT) }

  /** What option i offers as a long option. */
  function LongOf(opts: seq<ArgpOption>, i: nat, group: nat): seq<LongOption>
    requires i < |opts|
  {
    var p := Principal(opts, i);
    if p.doc || opts[i].name.None? then []
    else [LongOption(opts[i].name.value,
                     if p.arg.None? then NoArgument else if p.argOptional then OptionalArgument else RequiredArgument,
                     EncodeVal(if opts[i].key != 0 then opts[i].key else p.key, group))]
  }

  function Longs(opts: seq<ArgpOption>, n: nat, group: nat): seq<LongOption>
    requires n <= |opts|
  {
    if n == 0 then [] else Longs(opts, n - 1, group) + LongOf(opts, n - 1, group)
  }

  // ----- all argps -----

  function GroupCount(nodes: seq<Argp>): nat {
    if nodes == [] then 0 else GroupCount(nodes[..|nodes| - 1]) + if HasGroup(nodes[|nodes| - 1]) then 1 else 0
  }

  function OptCount(nodes: seq<Argp>): nat {
    if nodes == [] then 0 else OptCount(nodes[..|nodes| - 1]) + |Opts(nodes[|nodes| - 1])|
  }

  function ChildCount(nodes: seq<Argp>): nat {
    if nodes == [] then 0 else ChildCount(nodes[..|nodes| - 1]) + |nodes[|nodes| - 1].children|
  }

  /** The slots used for child inputs: only groups have them. */
  function SlotCount(nodes: seq<Argp>): nat {
    if nodes == [] then 0 else
    SlotCount(nodes[..|nodes| - 1]) + if HasGroup(nodes[|nodes| - 1]) then |nodes[|nodes| - 1].children| else 0
  }

  function ShortTable(loc: Locale, nodes: seq<Argp>): seq<int> {
    if nodes == [] then [] else
    ShortTable(loc, nodes[..|nodes| - 1]) + Shorts(loc, Opts(nodes[|nodes| - 1]), |Opts(nodes[|nodes| - 1])|)
  }

  /** Everything offered as a long option, in order, with repeated names. */
  function LongOffers(nodes: seq<Argp>): seq<LongOption> {
    if nodes == [] then [] else
    var last := |nodes| - 1;
    LongOffers(nodes[..last]) + Longs(Opts(nodes[last]), |Opts(nodes[last])|, GroupCount(nodes[..last]))
  }

  predicate HasName(s: seq<LongOption>, name: string) { exists i :: 0 <= i < |s| && s[i].name == name }

  /** The offers whose name does not occur earlier. */
  function FirstNamed(s: seq<LongOption>): seq<LongOption> {
    if s == [] then [] else
    var last := |s| - 1;
    if HasName(s[..last], s[last].name) then FirstNamed(s[..last]) else FirstNamed(s[..last]) + [s[last]]
  }

  /** For every argp in preorder, the group of its parent (None without one) and its place among the children. */
  function Parents(t: Argp, parent: Option<nat>, index: nat, group: nat): (r: seq<(Option<nat>, nat)>)
    ensures |r| == |Nodes(t)|
    decreases t, 1
  {
    var g := group + if HasGroup(t) then 1 else 0;
    [(parent, index)] + ParentsOf(t.children, if HasGroup(t) then Some(group) else None, g)
  }

  function ParentsOf(cs: seq<ArgpChild>, parent: Option<nat>, group: nat): (r: seq<(Option<nat>, nat)>)
    ensures |r| == |NodesOf(cs)|
    decreases cs, 0
  {
    if cs == [] then [] else
    var last := |cs| - 1;
    assert cs decreases to cs[last];
    ParentsOf(cs[..last], parent, group) + Parents(cs[last].argp, parent, last, group + GroupCount(NodesOf(cs[..last])))
  }

  /** The group of argp i; `prefix` is the length of the flag prefix of the short-option string. */
  function GroupOf(loc: Locale, nodes: seq<Argp>, parents: seq<(Option<nat>, nat)>, i: nat, prefix: nat): Group
    requires i < |nodes| == |parents|
  {
    Group(i, nodes[i].hasParser, prefix + |ShortTable(loc, nodes[..i + 1])|, parents[i].0, parents[i].1,
          SlotCount(nodes[..i]), |nodes[i].children|)
  }

  function GroupTable(loc: Locale, nodes: seq<Argp>, parents: seq<(Option<nat>, nat)>, n: nat, prefix: nat): (r: seq<Group>)
    requires n <= |nodes| == |parents|
    ensures |r| == GroupCount(nodes[..n])
  {
    if n == 0 then [] else
    assert nodes[..n][..n - 1] == nodes[..n - 1];
    GroupTable(loc, nodes, parents, n - 1, prefix)
    + if HasGroup(nodes[n - 1]) then [GroupOf(loc, nodes, parents, n - 1, prefix)] else []
  }

  // ----- appending -----

  lemma {:induction false} GroupCountAppend(a: seq<Argp>, b: seq<Argp>)
    ensures GroupCount(a + b) == GroupCount(a) + GroupCount(b)
  {
    if b == [] { assert a + b == a; } else {
      assert (a + b)[..|a + b| - 1] == a + b[..|b| - 1];
      GroupCountAppend(a, b[..|b| - 1]);
    }
  }

  lemma {:induction false} OptCountAppend(a: seq<Argp>, b: seq<Argp>)
    ensures OptCount(a + b) == OptCount(a) + OptCount(b)
  {
    if b == [] { assert a + b == a; } else {
      assert (a + b)[..|a + b| - 1] == a + b[..|b| - 1];
      OptCountAppend(a, b[..|b| - 1]);
    }
  }

  lemma {:induction false} ChildCountAppend(a: seq<Argp>, b: seq<Argp>)
    ensures ChildCount(a + b) == ChildCount(a) + ChildCount(b)
  {
    if b == [] { assert a + b == a; } else {
      assert (a + b)[..|a + b| - 1] == a + b[..|b| - 1];
      ChildCountAppend(a, b[..|b| - 1]);
    }
  }

  lemma {:induction false} SlotCountAppend(a: seq<Argp>, b: seq<Argp>)
    ensures SlotCount(a + b) == SlotCount(a) + SlotCount(b)
  {
    if b == [] { assert a + b == a; } else {
      assert (a + b)[..|a + b| - 1] == a + b[..|b| - 1];
      SlotCountAppend(a, b[..|b| - 1]);
    }
  }

  // ----- the tables fit what calc_sizes counts -----

  lemma {:induction false} ShortsFit(loc: Locale, opts: seq<ArgpOption>, n: nat)
    requires n <= |opts|
    ensures |Shorts(loc, opts, n)| <= 3 * n
    ensures |Shorts(loc, opts, n)| == 3 * n <==> AllThreeOf(loc, opts, n)
  {
    hide ShortOf, TakesThree;
    if n > 0 {
      ShortsFit(loc, opts, n - 1);
      ThreeIs(loc, opts, n - 1);
    }
  }

  /** Every option of every argp is a short option with an optional argument. */
  predicate AllThree(loc: Locale, nodes: seq<Argp>) {
    forall a :: a in nodes ==> AllThreeOf(loc, Opts(a), |Opts(a)|)
  }

  /** A real short option whose argument is optional. */
  predicate TakesThree(loc: Locale, opts: seq<ArgpOption>, i: nat)
    requires i < |opts|
  {
    OptionIsShort(loc, opts[i]) && !Principal(opts, i).doc && Principal(opts, i).arg.Some? && Principal(opts, i).argOptional
  }

  lemma {:induction false} ThreeIs(loc: Locale, opts: seq<ArgpOption>, i: nat)
    requires i < |opts|
    ensures |ShortOf(loc, opts, i)| == 3 <==> TakesThree(loc, opts, i)
  {
    hide Principal;
  }

  predicate AllThreeOf(loc: Locale, opts: seq<ArgpOption>, n: nat)
    requires n <= |opts|
  {
    forall i :: 0 <= i < n ==> TakesThree(loc, opts, i)
  }

  lemma {:induction false} ShortTableFits(loc: Locale, nodes: seq<Argp>)
    ensures |ShortTable(loc, nodes)| <= 3 * OptCount(nodes)
    ensures |ShortTable(loc, nodes)| == 3 * OptCount(nodes) <==> AllThree(loc, nodes)
  {
    hide AllThreeOf, Shorts;
    if nodes != [] {
      var last := |nodes| - 1;
      ShortTableFits(loc, nodes[..last]);
      ShortsFit(loc, Opts(nodes[last]), |Opts(nodes[last])|);
      assert nodes == nodes[..last] + [nodes[last]];
    }
  }

  lemma {:induction false} LongsFit(opts: seq<ArgpOption>, n: nat, group: nat)
    requires n <= |opts|
    ensures |Longs(opts, n, group)| <= n
  {
    if n > 0 { LongsFit(opts, n - 1, group); }
  }

  lemma {:induction false} LongOffersFit(nodes: seq<Argp>)
    ensures |LongOffers(nodes)| <= OptCount(nodes)
  {
    if nodes != [] {
      var last := |nodes| - 1;
      LongOffersFit(nodes[..last]);
      LongsFit(Opts(nodes[last]), |Opts(nodes[last])|, GroupCount(nodes[..last]));
    }
  }

  lemma {:induction false} FirstNamedShorter(s: seq<LongOption>)
    ensures |FirstNamed(s)| <= |s|
  {
    if s != [] { FirstNamedShorter(s[..|s| - 1]); }
  }

  lemma {:induction false} SlotsFit(nodes: seq<Argp>)
    ensures SlotCount(nodes) <= ChildCount(nodes)
  {
    if nodes != [] { SlotsFit(nodes[..|nodes| - 1]); }
  }

  /** The lengths parser_init allocates. */
  datatype Sizes = Sizes(shortLen: nat, longLen: nat, numGroups: nat, numChildInputs: nat)

  datatype Flags = Flags(inOrder: bool, noArgs: bool)

  function PrefixChars(f: Flags): seq<int> {
    if f.inOrder then ['-' as int] else if f.noArgs then ['+' as int] else []
  }

  /** What calc_sizes arrives at for a tree, from the start value parser_init gives it. */
  function SizesOf(f: Flags, t: Argp): Sizes {
    var nodes := Nodes(t);
    Sizes((if f.noArgs then 0 else 1) + 3 * OptCount(nodes), OptCount(nodes), GroupCount(nodes), ChildCount(nodes))
  }

  /** The long options, the groups and the child inputs always fit, terminators included; the short string
      fits too, except that with ARGP_NO_ARGS it is one character too long exactly when every option is a
      short option with an optional argument. */
  lemma {:induction false} TablesFit(loc: Locale, f: Flags, t: Argp)
    ensures var s := SizesOf(f, t);
            && |FirstNamed(LongOffers(Nodes(t)))| + 1 <= s.longLen + 1
            && GroupCount(Nodes(t)) == s.numGroups
            && SlotCount(Nodes(t)) <= s.numChildInputs
            && (|PrefixChars(f)| + |ShortTable(loc, Nodes(t))| + 1 <= s.shortLen + 1
                <==> !(f.noArgs && AllThree(loc, Nodes(t))))
  {
    ShortTableFits(loc, Nodes(t));
    LongOffersFit(Nodes(t));
    FirstNamedShorter(LongOffers(Nodes(t)));
    SlotsFit(Nodes(t));
  }

  // ----- long options -----

  lemma {:induction false} FirstNamedNames(s: seq<LongOption>, name: string)
    ensures HasName(FirstNamed(s), name) <==> HasName(s, name)
  {
    if s != [] {
      var last := |s| - 1;
      FirstNamedNames(s[..last], name);
      var r := FirstNamed(s);
      if HasName(s[..last], name) {
        var i :| 0 <= i < |s[..last]| && s[..last][i].name == name;
        assert s[i].name == name;
        var j :| 0 <= j < |FirstNamed(s[..last])| && FirstNamed(s[..last])[j].name == name;
        assert r[j].name == name;
      } else if s[last].name == name {
        assert r[|r| - 1].name == name;
      }
      if HasName(r, name) {
        var j :| 0 <= j < |r| && r[j].name == name;
        if j < |FirstNamed(s[..last])| { assert FirstNamed(s[..last])[j].name == name; }
      }
      if HasName(s, name) {
        var i :| 0 <= i < |s| && s[i].name == name;
        if i < last { assert s[..last][i].name == name; }
      }
    }
  }

  /** Names in the long-option vector are unique. */
  lemma {:induction false} LongNamesUnique(s: seq<LongOption>)
    ensures forall i, j :: 0 <= i < j < |FirstNamed(s)| ==> FirstNamed(s)[i].name != FirstNamed(s)[j].name
  {
    if s != [] {
      var last := |s| - 1;
      LongNamesUnique(s[..last]);
      FirstNamedNames(s[..last], s[last].name);
    }
  }

  /** The entry for a name is the first offer of that name. */
  lemma {:induction false} LongIsFirst(s: seq<LongOption>, i: nat) returns (j: nat)
    requires i < |FirstNamed(s)|
    ensures j < |s| && s[j] == FirstNamed(s)[i] && !HasName(s[..j], s[j].name)
  {
    var last := |s| - 1;
    if i < |FirstNamed(s[..last])| {
      j := LongIsFirst(s[..last], i);
      assert s[..last][..j] == s[..j];
    } else {
      j := last;
    }
  }

  /** The group part of a long option's value, as parser_parse_opt decodes it: an arithmetic shift. */
  function DecodeGroup(val: int): int { (val - val % USER_LIMIT) / USER_LIMIT }

  /** The user part: shifted up and back down, so the sign of the low 24 bits is restored. */
  function DecodeKey(val: int): int {
    var shifted := ToInt32(val * 256);
    (shifted - shifted % 256) / 256
  }

  const GROUP_LIMIT := 127

  /** A key and its group come back from the encoded value exactly when the key is a signed 24-bit number
      and the group is among the first 127. */
  lemma {:induction false} ValRoundTrip(key: int, group: nat)
    requires -INT_LIMIT / 2 <= key < INT_LIMIT / 2
    ensures DecodeGroup(EncodeVal(key, group)) == group + 1 && DecodeKey(EncodeVal(key, group)) == key
        <==> -USER_LIMIT / 2 <= key < USER_LIMIT / 2 && group < GROUP_LIMIT
    ensures group < GROUP_LIMIT ==> EncodeVal(key, group) >= USER_LIMIT
  {
    var low := key % USER_LIMIT;
    var val := EncodeVal(key, group);
    DecodeLow(key, group);
    DecodeHigh(low, group);
  }

  /** Decoding the key sign-extends its low 24 bits. */
  lemma {:induction false} DecodeLow(key: int, group: nat)
    ensures var low := key % USER_LIMIT;
            DecodeKey(EncodeVal(key, group)) == if low >= USER_LIMIT / 2 then low - USER_LIMIT else low
  {
    var low := key % USER_LIMIT;
    var x := low + (group + 1) * USER_LIMIT;
    var val := EncodeVal(key, group);
    var k := (x - val) / INT_LIMIT;
    assert val == x - k * INT_LIMIT;
    var y := val * 256;
    assert y == low * 256 + (group + 1 - 256 * k) * INT_LIMIT;
    ModUnique(low * 256, group + 1 - 256 * k);
  }

  lemma {:induction false} ModUnique(r: int, q: int)
    requires 0 <= r < INT_LIMIT
    ensures (r + q * INT_LIMIT) % INT_LIMIT == r
  {
  }

  lemma {:induction false} DecodeHigh(low: int, group: nat)
    requires 0 <= low < USER_LIMIT
    ensures var val := ToInt32(low + (group + 1) * USER_LIMIT);
            && (DecodeGroup(val) == group + 1 <==> group < GROUP_LIMIT)
            && (group < GROUP_LIMIT ==> val >= USER_LIMIT)
  {
  }
}
