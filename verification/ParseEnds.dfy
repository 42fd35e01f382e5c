/** When parsing ends, and what the counts of processed arguments stand for. */
module ParseEnds {
  import opened Options
  import opened ArgpTree
  import opened ParserTables
  import opened ParserDispatch
  import opened ParseRun

  // ----- the parse loop ends -----

  /** A parser does not move the next argument back. It may drop arguments, or may add some that it passes. */
  predicate ReplyOk(r: ParserReply, drops: bool) {
    r.move >= 0 && if drops then r.grow <= 0 else 0 <= r.grow <= r.move
  }

  ghost predicate Tidy(c: Config, drops: bool) { forall n: nat :: ReplyOk(c.env.parser(n), drops) }

  /** getopt uses up what is left of its input, until it reports the end. */
  ghost predicate Shrinking(c: Config, left: nat -> nat) {
    forall n: nat, next: int, argc: int :: GetoptOk(c.env.getopt(n, next, argc), left, n)
  }

  ghost predicate GetoptOk(r: GetoptReply, left: nat -> nat, n: nat) {
    r.optind >= 0 && (r.opt != KEY_END ==> left(n + 1) < left(n))
  }

  function Try(st: State): nat { if st.tryGetopt then 1 else 0 }

  function Ahead(st: State): nat { if st.argc > st.next then st.argc - st.next else 0 }

  /** The arguments there are, where parsers may only drop some. */
  function Level(drops: bool, st: State): nat { if drops && st.argc > 0 then st.argc else 0 }

  /** The state after a round is smaller: arguments were dropped, or getopt has been given up, or has less left, or
      an argument is used up. */
  ghost predicate Smaller(drops: bool, left: nat -> nat, a: State, b: State) {
    || Level(drops, a) < Level(drops, b)
    || (Level(drops, a) == Level(drops, b) &&
         (|| Try(a) < Try(b)
          || (Try(a) == Try(b) && left(a.getopts) < left(b.getopts))
          || (Try(a) == Try(b) && left(a.getopts) == left(b.getopts) && Ahead(a) < Ahead(b))))
  }

  /** The next argument is not before the first, unless there is none. */
  predicate NextOk(st: State) { st.next >= 0 || st.next >= st.argc }

  /** What calls of tidy parsers do to the arguments ahead. */
  predicate Moved(drops: bool, a: State, b: State) {
    b.next >= a.next && if drops then b.argc <= a.argc else a.argc <= b.argc && b.argc - b.next <= a.argc - a.next
  }

  lemma {:induction false} TidyCall(c: Config, drops: bool, st: State, g: nat, key: Key)
    requires Tidy(c, drops) && g < |c.groups|
    ensures Moved(drops, st, GroupParse(c, st, g, key).0)
  {
    assert ReplyOk(c.env.parser(st.calls), drops);
  }

  lemma {:induction false} TidyOffer(c: Config, drops: bool, st: State, g: nat)
    requires Tidy(c, drops) && ValidState(c, st) && g < |c.groups|
    ensures var (s, e, k) := Offer(c, st, g);
            Moved(drops, if k == Arg then st.(next := st.next + 1) else st, s) && (k == Arg || k == Args)
  {
    hide GroupParse, Tidy;
    var st1 := st.(next := st.next + 1);
    TidyCall(c, drops, st1, g, Arg);
    var s1 := GroupParse(c, st1, g, Arg).0;
    TidyCall(c, drops, s1.(next := s1.next - 1), g, Args);
  }

  lemma {:induction false} TidyArgLoop(c: Config, drops: bool, st: State, g: nat, key: Key)
    requires Tidy(c, drops) && ValidState(c, st) && g <= |c.groups|
    ensures var r := ArgLoop(c, st, g, EBADKEY, key);
            && Moved(drops, st, r.0)
            && (r.1 != EBADKEY ==> Moved(drops, if r.3 == Arg then st.(next := st.next + 1) else st, r.0) && (r.3 == Arg || r.3 == Args))
    decreases |c.groups| - g
  {
    if g < |c.groups| {
      hide ArgLoop, Offer, Tidy;
      var (s, e, k) := Offer(c, st, g);
      var _ := OfferTrace(c, st, g);
      TidyOffer(c, drops, st, g);
      UnfoldArgLoop(c, st, g, key);
      if e == EBADKEY { TidyArgLoop(c, drops, s, g + 1, k); }
    }
  }

  /** An accepted argument is used up, or so many arguments have been dropped that it is not there any more. */
  lemma {:induction false} TidyParseArg(c: Config, drops: bool, st: State)
    requires Tidy(c, drops) && ValidState(c, st) && st.next >= 0
    ensures var r := ParseArg(c, st);
            && r.0.getopts == st.getopts && (drops ==> r.0.argc <= st.argc)
            && (r.1 == 0 ==> NextOk(r.0))
            && (r.1 == 0 && st.next <= st.argc ==>
                 || (r.0.tryGetopt == st.tryGetopt && Ahead(r.0) < st.argc - (st.next - 1))
                 || (drops && r.0.argc < st.argc))
  {
    hide ArgLoop, Tidy;
    var st1 := st.(next := st.next - 1);
    TidyArgLoop(c, drops, st1, 0, Arg);
    var _ := ArgLoopTrace(c, st1, 0, Arg);
  }

  lemma {:induction false} TidyParseOpt(c: Config, drops: bool, st: State, opt: int)
    requires Tidy(c, drops) && ValidState(c, st) && 0 <= DecodeGroup(opt) <= |c.groups|
    ensures var r := ParseOpt(c, st, opt);
            Moved(drops, st, r.0) && r.0.getopts == st.getopts && r.0.tryGetopt == st.tryGetopt
  {
    hide GroupParse, Tidy, DecodeGroup, DecodeKey, Dispatch;
    var _ := ParseOptTrace(c, st, opt);
    if DecodeGroup(opt) == 0 {
      match Dispatch(c.shorts, c.groups, opt)
      case None =>
      case Some(g) => if g < |c.groups| { TidyCall(c, drops, st, g, Opt(opt)); }
    } else {
      TidyCall(c, drops, st, DecodeGroup(opt) - 1, Opt(DecodeKey(opt)));
    }
  }

  /** An argument handed out because getopt has nothing more to say. */
  lemma {:induction false} TidyAfterEnd(c: Config, drops: bool, left: nat -> nat, st: State, ebad: bool)
    requires Tidy(c, drops) && ValidState(c, st) && NextOk(st)
    ensures var r := AfterEnd(c, st, ebad); r.1 == 0 ==> NextOk(r.0) && Smaller(drops, left, r.0, st) && r.0.getopts == st.getopts
    ensures var r := AfterEnd(c, st, ebad); r.1 == 0 && !st.tryGetopt ==> Level(drops, r.0) < Level(drops, st) || (Level(drops, r.0) == Level(drops, st) && !r.0.tryGetopt)
  {
    hide ParseArg, Tidy;
    if !(st.next >= st.argc || st.noArgs) {
      TidyParseArg(c, drops, st.(next := st.next + 1));
    }
  }

  lemma {:induction false} TidyHandle(c: Config, drops: bool, st: State, opt: int, ebad: bool)
    requires Tidy(c, drops) && ValidState(c, st) && (opt == KEY_ARG || 0 <= DecodeGroup(opt) <= |c.groups|) && st.next >= 0
    ensures var r := Handle(c, st, opt, ebad);
            r.1 == 0 ==> NextOk(r.0) && r.0.getopts == st.getopts && (drops ==> r.0.argc <= st.argc)
  {
    hide ParseArg, ParseOpt, Tidy, DecodeGroup;
    if opt == KEY_ARG { TidyParseArg(c, drops, st); } else { TidyParseOpt(c, drops, st, opt); }
  }

  lemma {:induction false} StepShrinks(c: Config, drops: bool, st: State, ebad: bool, left: nat -> nat)
    requires ValidConfig(c) && ValidState(c, st) && Tidy(c, drops) && Shrinking(c, left) && NextOk(st)
    ensures var r := ParseNext(c, st, ebad); r.1 == 0 ==> Smaller(drops, left, r.0, st) && NextOk(r.0)
  {
    hide Handle, AfterEnd, Tidy, DecodeGroup;
    var s0 := if st.quoted != 0 && st.next < st.quoted then st.(quoted := 0) else st;
    if s0.tryGetopt && s0.quoted == 0 {
      var r := c.env.getopt(s0.getopts, s0.next, s0.argc);
      assert GetoptOk(r, left, s0.getopts) && Nameable(c, r.opt);
      var s1 := s0.(getopts := s0.getopts + 1, next := r.optind);
      if r.opt == KEY_END {
        TidyAfterEnd(c, drops, left, s1.(tryGetopt := false, quoted := if s1.next > 1 && r.afterQuote then s1.next else s1.quoted), ebad);
      } else if !(r.opt == KEY_ERR && r.isError) {
        TidyHandle(c, drops, s1, r.opt, ebad);
      }
    } else {
      TidyAfterEnd(c, drops, left, s0, ebad);
    }
  }

  /** With tidy parsers and a getopt that uses up its input, the parse loop ends. */
  lemma {:induction false} LoopEnds(c: Config, drops: bool, st: State, ebad: bool, left: nat -> nat) returns (n: nat)
    requires ValidConfig(c) && ValidState(c, st) && Tidy(c, drops) && Shrinking(c, left) && NextOk(st)
    ensures Loop(c, st, ebad, n).Done?
    decreases Level(drops, st), Try(st), left(st.getopts), Ahead(st)
  {
    hide ParseNext, Tidy, Shrinking, Finalize;
    var (s, e, b) := ParseNext(c, st, ebad);
    StepShrinks(c, drops, st, ebad, left);
    n := 1;
    if e == 0 {
      var m := LoopEnds(c, drops, s, b, left);
      n := m + 1;
    }
  }

  /** Every run ends if parsers never move the next argument back, and only drop arguments, or only add ones that
      they pass, and getopt uses up its input. */
  lemma {:induction false} RunEnds(c: Config, drops: bool, argc: int, noArgs: bool, left: nat -> nat) returns (n: nat)
    requires ValidConfig(c) && Tidy(c, drops) && Shrinking(c, left)
    ensures !Run(c, argc, noArgs, n).Running?
  {
    hide Tidy, Shrinking, Up, Loop;
    var st0 := Start(c, argc, noArgs);
    var (st, err) := Up(c, st0, Init, 0, 0, true, false);
    TidyUp(c, drops, st0, Init, 0, 0, true, false);
    n := 0;
    if Normal(err) == 0 { n := LoopEnds(c, drops, st, false, left); }
  }

  lemma {:induction false} TidyUp(c: Config, drops: bool, st: State, key: Key, g: nat, err: int, stop: bool, only: bool)
    requires Tidy(c, drops) && ValidState(c, st) && g <= |c.groups|
    ensures Up(c, st, key, g, err, stop, only).0.next >= st.next
    decreases |c.groups| - g
  {
    hide GroupParse, Tidy;
    if g < |c.groups| && !(stop && !Soft(err)) {
      if only && st.processed[g] != 0 {
        TidyUp(c, drops, st, key, g + 1, err, stop, only);
      } else {
        var (s, e) := GroupParse(c, st, g, key);
        TidyCall(c, drops, st, g, key);
        OneCall(c, st, g, key);
        TidyUp(c, drops, s, key, g + 1, e, stop, only);
      }
    }
  }
}
