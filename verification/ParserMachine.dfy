/** argp-parse.c as the code that updates a parser in place, each method against its function in ParseRun. */
module ParserMachine {
  import opened Options
  import opened ArgpTree
  import opened ParserTables
  import opened ParserDispatch
  import R = ParseRun

  /** `struct parser` while it runs. */
  class Parser {
    const c: R.Config
    const argsProcessed: array<int>
    var next: int
    var argc: int
    var quoted: int
    var noArgs: bool
    var tryGetopt: bool
    var calls: nat
    var getopts: nat
    var trace: seq<R.Event>

    /** The state the fields stand for. */
    ghost function St(): R.State
      reads this, argsProcessed
    {
      R.State(next, argc, quoted, noArgs, tryGetopt, argsProcessed[..], calls, getopts, trace)
    }

    ghost predicate Valid() { argsProcessed.Length == |c.groups| && R.ValidConfig(c) }

    constructor (c: R.Config, argc: int, noArgs: bool)
      requires R.ValidConfig(c)
      ensures Valid() && fresh(argsProcessed) && this.c == c && St() == R.Start(c, argc, noArgs)
    {
      this.c := c;
      argsProcessed := new int[|c.groups|](_ => 0);
      next, this.argc, quoted, this.noArgs, tryGetopt := 0, argc, 0, noArgs, true;
      calls, getopts, trace := 0, 0, [];
    }

    /** group_parse: call a group's parser, if it has one. */
    method GroupParse(g: nat, key: R.Key) returns (err: int)
      requires Valid() && g < |c.groups|
      modifies this
      ensures Valid() && (St(), err) == R.GroupParse(c, old(St()), g, key)
    {
      if !c.groups[g].hasParser { return EBADKEY; }
      var r, at := c.env.parser(calls), next;
      next, argc := next + r.move, argc + r.grow;
      if r.quoted.Some? { quoted := r.quoted.value; }
      if r.noArgs.Some? { noArgs := r.noArgs.value; }
      calls, trace := calls + 1, trace + [R.Event(g, key, r.err, at, next, argc)];
      err := r.err;
    }

    /** The loops over the groups in order. */
    method CallUp(key: R.Key, err0: int, stop: bool, only: bool) returns (err: int)
      requires Valid()
      modifies this
      ensures Valid() && (St(), err) == R.Up(c, old(St()), key, 0, err0, stop, only)
    {
      err := err0;
      var g := 0;
      while g < |c.groups| && !(stop && !Soft(err))
        invariant Valid() && 0 <= g <= |c.groups|
        invariant R.Up(c, St(), key, g, err, stop, only) == R.Up(c, old(St()), key, 0, err0, stop, only)
      {
        if !only || argsProcessed[g] == 0 {
          err := GroupParse(g, key);
        }
        g := g + 1;
      }
    }

    /** The loops over the groups from the last to the first. */
    method CallDown(key: R.Key, err0: int, stop: bool) returns (err: int)
      requires Valid()
      modifies this
      ensures Valid() && (St(), err) == R.Down(c, old(St()), key, |c.groups|, err0, stop)
    {
      err := err0;
      var g := |c.groups|;
      while g > 0 && !(stop && !Soft(err))
        invariant Valid() && 0 <= g <= |c.groups|
        invariant R.Down(c, St(), key, g, err, stop) == R.Down(c, old(St()), key, |c.groups|, err0, stop)
      {
        g := g - 1;
        err := GroupParse(g, key);
      }
    }

    /** The group loop of parser_parse_arg. */
    method OfferArg() returns (err: int, g: nat, key: R.Key)
      requires Valid()
      modifies this
      ensures Valid() && (St(), err, g, key) == R.ArgLoop(c, old(St()), 0, EBADKEY, R.Arg)
    {
      hide R.GroupParse;
      err, g, key := EBADKEY, 0, R.Arg;
      while g < |c.groups| && err == EBADKEY
        invariant Valid() && 0 <= g <= |c.groups| && (err != EBADKEY ==> g > 0)
        invariant R.ArgLoop(c, St(), g, err, key) == R.ArgLoop(c, old(St()), 0, EBADKEY, R.Arg)
      {
        next := next + 1;
        key := R.Arg;
        err := GroupParse(g, key);
        if err == EBADKEY {
          next := next - 1;
          key := R.Args;
          err := GroupParse(g, key);
        }
        g := g + 1;
      }
    }

    /** parser_parse_arg */
    method ParseArg() returns (err: int)
      requires Valid()
      modifies this, argsProcessed
      ensures Valid() && (St(), err) == R.ParseArg(c, old(St()))
    {
      hide R.ArgLoop;
      next := next - 1;
      var index := next;
      var g, key;
      err, g, key := OfferArg();
      if err == 0 {
        if key == R.Args { next := argc; }
        if next > index {
          g := g - 1;
          argsProcessed[g] := argsProcessed[g] + (next - index);
        } else {
          tryGetopt := true;
        }
      }
    }

    /** parser_parse_opt */
    method ParseOpt(opt: int) returns (err: int)
      requires Valid() && 0 <= DecodeGroup(opt) <= |c.groups|
      modifies this
      ensures Valid() && (St(), err) == R.ParseOpt(c, old(St()), opt)
    {
      var groupKey := DecodeGroup(opt);
      err := EBADKEY;
      if groupKey == 0 {
        var g := FindShortGroup(c.shorts, c.groups, opt);
        if g.Some? && g.value < |c.groups| {
          err := GroupParse(g.value, R.Opt(opt));
        }
      } else {
        err := GroupParse(groupKey - 1, R.Opt(DecodeKey(opt)));
      }
    }

    /** The end of parser_parse_next: hand out an argument or an option. */
    method Handle(opt: int, ebad0: bool) returns (err: int, ebad: bool)
      requires Valid() && (opt == R.KEY_ARG || 0 <= DecodeGroup(opt) <= |c.groups|)
      modifies this, argsProcessed
      ensures Valid() && (St(), err, ebad) == R.Handle(c, old(St()), opt, ebad0)
    {
      hide R.ParseArg, R.ParseOpt, DecodeGroup;
      if opt == R.KEY_ARG {
        err := ParseArg();
      } else {
        err := ParseOpt(opt);
      }
      ebad := if err == EBADKEY then opt == R.KEY_ARG else ebad0;
    }

    /** parser_parse_next once getopt has nothing more to say. */
    method AfterEnd(ebad0: bool) returns (err: int, ebad: bool)
      requires Valid()
      modifies this, argsProcessed
      ensures Valid() && (St(), err, ebad) == R.AfterEnd(c, old(St()), ebad0)
    {
      hide R.Handle;
      if next >= argc || noArgs {
        return EBADKEY, true;
      }
      next := next + 1;
      err, ebad := Handle(R.KEY_ARG, ebad0);
    }

    /** parser_parse_next */
    method ParseNext(ebad0: bool) returns (err: int, ebad: bool)
      requires Valid()
      modifies this, argsProcessed
      ensures Valid() && (St(), err, ebad) == R.ParseNext(c, old(St()), ebad0)
    {
      hide R.Handle, R.AfterEnd, R.ValidConfig, DecodeGroup;
      if quoted != 0 && next < quoted { quoted := 0; }
      if tryGetopt && quoted == 0 {
        R.OptionNamed(c, getopts, next, argc);
        var r := c.env.getopt(getopts, next, argc);
        getopts := getopts + 1;
        next := r.optind;
        if r.opt == R.KEY_END {
          tryGetopt := false;
          if next > 1 && r.afterQuote { quoted := next; }
          err, ebad := AfterEnd(ebad0);
        } else if r.opt == R.KEY_ERR && r.isError {
          return EBADKEY, false;
        } else {
          err, ebad := Handle(r.opt, ebad0);
        }
      } else {
        err, ebad := AfterEnd(ebad0);
      }
    }

    /** parser_finalize */
    method Finalize(err0: int, ebad: bool) returns (err: int, end: Option<int>)
      requires Valid()
      modifies this
      ensures Valid() && (St(), err, end) == R.Finalize(c, old(St()), err0, ebad)
    {
      hide R.Up, R.Down;
      err, end := err0, None;
      if err == EBADKEY && ebad { err := 0; }
      if err == 0 {
        if next == argc {
          err := CallUp(R.NoArgs, err, true, true);
          err := CallDown(R.End, err, true);
          err := Normal(err);
          if c.hasEnd { end := Some(next); }
        } else if c.hasEnd {
          end := Some(next);
        } else {
          err := EBADKEY;
        }
      }
      if err != 0 {
        var _ := CallUp(R.Error, 0, false, false);
      } else {
        err := CallDown(R.Success, err, true);
        err := Normal(err);
      }
      var _ := CallDown(R.Fini, 0, false);
      if err == EBADKEY { err := R.EINVAL; }
    }
  }

  /** argp_parse, its parse loop cut off after `limit` rounds. */
  method ArgpParse(c: R.Config, argc: int, noArgs: bool, limit: nat) returns (p: Parser, err: int, end: Option<int>, done: bool)
    requires R.ValidConfig(c)
    ensures fresh(p) && fresh(p.argsProcessed) && p.Valid() && p.c == c
    ensures match R.Run(c, argc, noArgs, limit)
            case Refused(e, st) => done && err == e && p.St() == st && end == None
            case Running(st, _) => !done && err == 0 && p.St() == st
            case Done(e, st, x) => done && err == e && p.St() == st && end == x
  {
    hide R.Up, R.ParseNext, R.Finalize;
    p := new Parser(c, argc, noArgs);
    err := p.CallUp(R.Init, 0, true, false);
    end := None;
    if Normal(err) != 0 { return p, err, end, true; }
    err := 0;
    ghost var st0 := p.St();
    var ebad, rounds := false, limit;
    while rounds > 0 && err == 0
      invariant p.Valid() && p.c == c && fresh(p) && fresh(p.argsProcessed) && rounds >= 0
      invariant err == 0 ==> R.Loop(c, p.St(), ebad, rounds) == R.Loop(c, st0, false, limit)
      invariant err != 0 ==> var (s, e, x) := R.Finalize(c, p.St(), err, ebad); R.Done(e, s, x) == R.Loop(c, st0, false, limit)
      decreases rounds
    {
      err, ebad := p.ParseNext(ebad);
      rounds := rounds - 1;
    }
    done := err != 0;
    if done { err, end := p.Finalize(err, ebad); }
  }
}
