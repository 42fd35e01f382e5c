/** The argp structures of argp.h: options, argps and their children, read as an ordered tree. */
module ArgpTree {
  import opened Options

  /** The character classification and case mapping argp consults; every result holds for every locale. */
  datatype Locale = Locale(isPrint: int -> bool, isSpace: int -> bool, isAlnum: int -> bool, toLower: int -> int)

  /** One `struct argp_option`; the flag bits are separate booleans. */
  datatype ArgpOption = ArgpOption(
    name: Option<string>,
    key: int,
    arg: Option<string>,
    text: Option<string>,
    group: int,
    argOptional: bool,
    hidden: bool,
    alias: bool,
    doc: bool,
    noUsage: bool)

  /** One `struct argp`: `options` is the vector up to its end marker (None for a null pointer). */
  datatype Argp = Argp(options: Option<seq<ArgpOption>>, hasParser: bool, argsDoc: Option<string>, children: seq<ArgpChild>)

  datatype ArgpChild = ArgpChild(argp: Argp, header: Option<string>, group: int)

  /** Whether an option can be used as a short option. */
  predicate OptionIsShort(loc: Locale, o: ArgpOption) {
    !o.doc && 0 < o.key <= 255 && loc.isPrint(o.key)
  }

  /** The options of an argp, a null vector counting as none. */
  function Opts(t: Argp): seq<ArgpOption> {
    if t.options.Some? then t.options.value else []
  }

  /** The argps of a tree in preorder, each argp before its children. */
  function Nodes(t: Argp): (r: seq<Argp>)
    ensures r != [] && r[0] == t
    decreases t, 1
  {
    [t] + NodesOf(t.children)
  }

  function NodesOf(cs: seq<ArgpChild>): seq<Argp>
    decreases cs, 0
  {
    if cs == [] then [] else
    var last := |cs| - 1;
    assert cs decreases to cs[last];
    NodesOf(cs[..last]) + Nodes(cs[last].argp)
  }
}
