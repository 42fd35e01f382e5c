/** The positional arguments of a run: which positions of the argument vector are taken, and how often. */
module ParsePositions {
  import opened Options
  import opened ArgpTree
  import opened ParserTables
  import opened ParserDispatch
  import opened ParseRun

  // ----- parsers and getopt that go forward -----

  /** A parser that moves forward and drops no argument. */
  predicate Forward(r: ParserReply, inOrder: bool, fixed: bool) {
    r.move >= 0 && r.grow >= 0 && (fixed ==> r.grow == 0) && (!inOrder ==> r.quoted.None?)
  }

  ghost predicate Steady(c: Config, inOrder: bool, fixed: bool) { forall n: nat :: Forward(c.env.parser(n), inOrder, fixed) }

  /** getopt hands out arguments in order, from where it is told to start; or it hands out none, and moves them
      behind the options instead. */
  predicate OrderlyReply(r: GetoptReply, inOrder: bool, next: int, argc: int) {
    if inOrder then next <= r.optind && (r.opt == KEY_ARG ==> next < r.optind <= argc) else r.opt != KEY_ARG
  }

  ghost predicate Orderly(c: Config, inOrder: bool) {
    forall n: nat, next: int, argc: int :: OrderlyReply(c.env.getopt(n, next, argc), inOrder, next, argc)
  }

  // ----- intervals in order -----

  /** The accepting calls took stretches of arguments that follow one another, all before `next`. */
  ghost predicate Apart(tr: seq<Event>, next: int) {
    && (forall i :: 0 <= i < |tr| && Accepting(tr[i]) ==> From(tr, i) < Upto(tr, i) <= next)
    && (forall i, j :: 0 <= i < j < |tr| && Accepting(tr[i]) && Accepting(tr[j]) ==> Upto(tr, i) <= From(tr, j))
  }

  /** After a parser has taken all remaining arguments, no argument is offered to anyone. */
  predicate ArgsLast(tr: seq<Event>) {
    forall i, j :: 0 <= i < j < |tr| && Accepting(tr[i]) && tr[i].key.Args? ==> !Positional(tr[j])
  }

  predicate NoneAccepted(tr: seq<Event>) { forall i :: 0 <= i < |tr| ==> !Accepting(tr[i]) }

  predicate AllTaken(tr: seq<Event>) { exists i :: 0 <= i < |tr| && Accepting(tr[i]) && tr[i].key.Args? }

  lemma {:induction false} RoundStartPrefix(tr: seq<Event>, evs: seq<Event>, i: nat)
    requires i < |tr|
    ensures RoundStart(tr + evs, i) == RoundStart(tr, i)
  {
    assert (tr + evs)[i] == tr[i];
    if i > 0 {
      assert (tr + evs)[i - 1] == tr[i - 1];
      RoundStartPrefix(tr, evs, i - 1);
    }
  }

  lemma {:induction false} SameSpan(tr: seq<Event>, evs: seq<Event>, i: nat)
    requires i < |tr|
    ensures From(tr + evs, i) == From(tr, i) && Upto(tr + evs, i) == Upto(tr, i) && (tr + evs)[i] == tr[i]
  {
    RoundStartPrefix(tr, evs, i);
    assert (tr + evs)[RoundStart(tr, i)] == tr[RoundStart(tr, i)];
  }

  lemma {:induction false} ApartQuiet(tr: seq<Event>, evs: seq<Event>, next: int, next': int)
    requires Apart(tr, next) && NoneAccepted(evs) && (next <= next' || NoneAccepted(tr))
    ensures Apart(tr + evs, next')
  {
    hide From, Upto;
    var all := tr + evs;
    forall i | 0 <= i < |all| && Accepting(all[i]) ensures i < |tr| && From(all, i) == From(tr, i) && Upto(all, i) == Upto(tr, i) && Accepting(tr[i]) {
      if i < |tr| { SameSpan(tr, evs, i); }
    }
  }

  /** One more stretch, behind the others. */
  lemma {:induction false} ApartRound(tr: seq<Event>, evs: seq<Event>, next: int, next': int)
    requires Apart(tr, next) && NewRound(tr) && OneRound(evs) && evs != []
    requires var last := evs[|evs| - 1];
             Accepting(last) && next <= evs[0].at - 1 < (if last.key.Args? then last.argc else last.upto) <= next'
    ensures Apart(tr + evs, next')
  {
    var all, k := tr + evs, |tr| + |evs| - 1;
    RoundStartIs(tr, evs, |evs| - 1);
    assert all[|tr|] == evs[0] && all[k] == evs[|evs| - 1];
    assert From(all, k) == evs[0].at - 1;
    hide From, Upto;
    forall i | 0 <= i < |all| && Accepting(all[i]) && i != k
      ensures i < |tr| && From(all, i) == From(tr, i) && Upto(all, i) == Upto(tr, i) && Accepting(tr[i])
    {
      if i < |tr| { SameSpan(tr, evs, i); }
    }
  }

  lemma {:induction false} LastQuiet(tr: seq<Event>, evs: seq<Event>)
    requires ArgsLast(tr) && NoneAccepted(evs) && (AllTaken(tr) ==> forall i :: 0 <= i < |evs| ==> !Positional(evs[i]))
    ensures ArgsLast(tr + evs) && (AllTaken(tr + evs) ==> AllTaken(tr))
  {
    var all := tr + evs;
    assert forall i :: 0 <= i < |all| && Accepting(all[i]) ==> i < |tr| && Accepting(tr[i]) && all[i] == tr[i];
    forall i, j | 0 <= i < j < |all| && Accepting(all[i]) && all[i].key.Args? ensures !Positional(all[j]) {
      assert AllTaken(tr);
      if j >= |tr| { assert all[j] == evs[j - |tr|]; }
    }
  }

  lemma {:induction false} LastRound(tr: seq<Event>, evs: seq<Event>)
    requires ArgsLast(tr) && OneRound(evs) && !AllTaken(tr)
    ensures ArgsLast(tr + evs) && (AllTaken(tr + evs) ==> evs != [] && Accepting(evs[|evs| - 1]) && evs[|evs| - 1].key.Args?)
  {
    var all := tr + evs;
    forall i | 0 <= i < |all| && Accepting(all[i]) && all[i].key.Args? ensures i == |all| - 1 && evs != [] && all[i] == evs[|evs| - 1] {
      if i >= |tr| { assert all[i] == evs[i - |tr|]; }
    }
  }

  // ----- what every round keeps -----

  ghost predicate Going(inOrder: bool, fixed: bool, st: State) {
    && NewRound(st.trace) && Apart(st.trace, st.next)
    && (!inOrder && st.tryGetopt ==> NoneAccepted(st.trace) && st.quoted == 0)
    && (fixed ==> ArgsLast(st.trace) && (AllTaken(st.trace) ==> st.next >= st.argc))
  }

  predicate Ahead(inOrder: bool, fixed: bool, a: State, b: State) {
    b.next >= a.next && b.argc >= a.argc && (fixed ==> b.argc == a.argc) && (!inOrder ==> b.quoted == a.quoted)
  }

  lemma {:induction false} SteadyCall(c: Config, inOrder: bool, fixed: bool, st: State, g: nat, key: Key)
    requires Steady(c, inOrder, fixed) && g < |c.groups|
    ensures Ahead(inOrder, fixed, st, GroupParse(c, st, g, key).0)
  {
    assert Forward(c.env.parser(st.calls), inOrder, fixed);
  }

  lemma {:induction false} SteadyArgLoop(c: Config, inOrder: bool, fixed: bool, st: State, g: nat, key: Key)
    requires Steady(c, inOrder, fixed) && ValidState(c, st) && g <= |c.groups|
    ensures var r := ArgLoop(c, st, g, EBADKEY, key);
            && Ahead(inOrder, fixed, st, r.0)
            && (r.1 != EBADKEY && r.3 == Arg ==> r.0.next > st.next) && (r.1 != EBADKEY ==> r.3 == Arg || r.3 == Args)
    decreases |c.groups| - g
  {
    if g < |c.groups| {
      hide ArgLoop, Offer, Steady;
      var (s, e, k) := Offer(c, st, g);
      var _ := OfferTrace(c, st, g);
      SteadyOffer(c, inOrder, fixed, st, g);
      UnfoldArgLoop(c, st, g, key);
      if e == EBADKEY { SteadyArgLoop(c, inOrder, fixed, s, g + 1, k); }
    }
  }

  lemma {:induction false} SteadyOffer(c: Config, inOrder: bool, fixed: bool, st: State, g: nat)
    requires Steady(c, inOrder, fixed) && ValidState(c, st) && g < |c.groups|
    ensures var (s, e, k) := Offer(c, st, g);
            Ahead(inOrder, fixed, if k == Arg then st.(next := st.next + 1) else st, s) && (k == Arg || k == Args)
  {
    hide GroupParse, Steady;
    var st1 := st.(next := st.next + 1);
    SteadyCall(c, inOrder, fixed, st1, g, Arg);
    var s1 := GroupParse(c, st1, g, Arg).0;
    SteadyCall(c, inOrder, fixed, s1.(next := s1.next - 1), g, Args);
  }

  /** A positional argument at or behind the next one, and within the vector. */
  lemma {:induction false} ArgGoing(c: Config, inOrder: bool, fixed: bool, st: State)
    requires Steady(c, inOrder, fixed) && ValidState(c, st) && st.next <= st.argc
    requires NewRound(st.trace) && Apart(st.trace, st.next - 1) && (!inOrder ==> !st.tryGetopt)
    requires fixed ==> ArgsLast(st.trace) && !AllTaken(st.trace)
    ensures var r := ParseArg(c, st);
            Apart(r.0.trace, r.0.next) && (fixed ==> ArgsLast(r.0.trace)) && (r.1 == 0 ==> Going(inOrder, fixed, r.0))
  {
    hide ArgLoop, Steady, Apart, ArgsLast, AllTaken, NoneAccepted;
    var st1 := st.(next := st.next - 1);
    var (s, e, g, k) := ArgLoop(c, st1, 0, EBADKEY, Arg);
    SteadyArgLoop(c, inOrder, fixed, st1, 0, Arg);
    var evs := ArgLoopTrace(c, st1, 0, Arg);
    if fixed { LastRound(st.trace, evs); }
    if e == 0 {
      var r := Accept(c, s, g, k, st.next - 1);
      ApartRound(st.trace, evs, st.next - 1, r.next);
    } else {
      RefusedRound(evs, st.next - 1, s, e, g, k);
      ApartQuiet(st.trace, evs, st.next - 1, s.next);
    }
  }

  lemma {:induction false} RefusedRound(evs: seq<Event>, index: int, s: State, err: int, g: nat, key: Key)
    requires RoundSays(evs, index, s, err, g, key) && err != 0
    ensures NoneAccepted(evs)
  {
  }

  lemma {:induction false} OptGoing(c: Config, inOrder: bool, fixed: bool, st: State, opt: int)
    requires Steady(c, inOrder, fixed) && ValidState(c, st) && 0 <= DecodeGroup(opt) <= |c.groups| && Going(inOrder, fixed, st)
    ensures Going(inOrder, fixed, ParseOpt(c, st, opt).0)
  {
    hide GroupParse, Steady, DecodeGroup, DecodeKey, Dispatch, Apart, ArgsLast, AllTaken;
    var r := ParseOpt(c, st, opt).0;
    var evs := ParseOptTrace(c, st, opt);
    if DecodeGroup(opt) == 0 {
      match Dispatch(c.shorts, c.groups, opt)
      case None =>
      case Some(g) => if g < |c.groups| { SteadyCall(c, inOrder, fixed, st, g, Opt(opt)); }
    } else {
      SteadyCall(c, inOrder, fixed, st, DecodeGroup(opt) - 1, Opt(DecodeKey(opt)));
    }
    ApartQuiet(st.trace, evs, st.next, r.next);
    if fixed { LastQuiet(st.trace, evs); }
  }

  /** After the options: done, or the next argument in line. */
  lemma {:induction false} EndGoing(c: Config, inOrder: bool, fixed: bool, st: State, ebad: bool)
    requires Steady(c, inOrder, fixed) && ValidState(c, st) && Going(inOrder, fixed, st) && (!inOrder ==> !st.tryGetopt)
    ensures var r := AfterEnd(c, st, ebad);
            Apart(r.0.trace, r.0.next) && (fixed ==> ArgsLast(r.0.trace)) && (r.1 == 0 ==> Going(inOrder, fixed, r.0))
  {
    hide ParseArg, Steady, Apart, ArgsLast, AllTaken, NoneAccepted;
    if !(st.next >= st.argc || st.noArgs) {
      ArgGoing(c, inOrder, fixed, st.(next := st.next + 1));
    }
  }

  lemma {:induction false} NextGoing(c: Config, inOrder: bool, fixed: bool, st: State, ebad: bool)
    requires ValidConfig(c) && Steady(c, inOrder, fixed) && Orderly(c, inOrder) && ValidState(c, st) && Going(inOrder, fixed, st)
    ensures var r := ParseNext(c, st, ebad);
            Apart(r.0.trace, r.0.next) && (fixed ==> ArgsLast(r.0.trace)) && (r.1 == 0 ==> Going(inOrder, fixed, r.0))
  {
    hide ParseArg, ParseOpt, AfterEnd, Steady, DecodeGroup, Apart, ArgsLast, AllTaken, NoneAccepted;
    var s0 := if st.quoted != 0 && st.next < st.quoted then st.(quoted := 0) else st;
    if s0.tryGetopt && s0.quoted == 0 {
      var r := c.env.getopt(s0.getopts, s0.next, s0.argc);
      assert Nameable(c, r.opt) && OrderlyReply(r, inOrder, s0.next, s0.argc);
      var s1 := s0.(getopts := s0.getopts + 1, next := r.optind);
      MovedOn(s0.trace, s0.next, s1.next);
      if r.opt == KEY_END {
        EndGoing(c, inOrder, fixed, s1.(tryGetopt := false, quoted := if s1.next > 1 && r.afterQuote then s1.next else s1.quoted), ebad);
      } else if !(r.opt == KEY_ERR && r.isError) {
        if r.opt == KEY_ARG {
          MovedOn(s0.trace, s0.next, s1.next - 1);
          ArgGoing(c, inOrder, fixed, s1);
        } else {
          OptGoing(c, inOrder, fixed, s1, r.opt);
        }
      }
    } else {
      EndGoing(c, inOrder, fixed, s0, ebad);
    }
  }

  lemma {:induction false} MovedOn(tr: seq<Event>, next: int, next': int)
    requires Apart(tr, next)
    ensures next <= next' || NoneAccepted(tr) ==> Apart(tr, next')
    ensures NoneAccepted(tr) ==> !AllTaken(tr)
  {
  }

  // ----- positions -----

  function Range(a: int, b: int): (r: set<int>)
    ensures forall x :: x in r <==> a <= x < b
    decreases b - a
  {
    if a >= b then {} else Range(a, b - 1) + {b - 1}
  }

  lemma {:induction false} RangeSize(a: int, b: int)
    requires a <= b
    ensures |Range(a, b)| == b - a
    decreases b - a
  {
    if a < b { RangeSize(a, b - 1); }
  }

  /** Call i took the argument at x. */
  predicate TookAt(tr: seq<Event>, i: nat, x: int)
    requires i < |tr|
  {
    Accepting(tr[i]) && From(tr, i) <= x < Upto(tr, i)
  }

  /** The positions of the argument vector that some accepting call took. */
  ghost function Positions(tr: seq<Event>): set<int> {
    if tr == [] then {} else
    var last := |tr| - 1;
    Positions(tr[..last]) + if Accepting(tr[last]) then Range(From(tr, last), Upto(tr, last)) else {}
  }

  lemma {:induction false} PositionsAre(tr: seq<Event>, x: int)
    ensures x in Positions(tr) <==> exists i :: 0 <= i < |tr| && TookAt(tr, i, x)
  {
    if tr != [] {
      var last := |tr| - 1;
      var front := tr[..last];
      PositionsAre(front, x);
      assert tr == front + [tr[last]];
      assert x in Positions(tr) <==> x in Positions(front) || TookAt(tr, last, x);
      hide Positions, TookAt;
      forall i | 0 <= i < last ensures TookAt(tr, i, x) <==> TookAt(front, i, x) { SameTook(front, tr[last], i, x); }
    }
  }

  lemma {:induction false} SameTook(tr: seq<Event>, e: Event, i: nat, x: int)
    requires i < |tr|
    ensures TookAt(tr + [e], i, x) <==> TookAt(tr, i, x)
  {
    SameSpan(tr, [e], i);
  }

  /** Stretches that follow one another cover as many positions as were taken in all. */
  lemma {:induction false} PositionsCount(tr: seq<Event>, next: int)
    requires Apart(tr, next)
    ensures |Positions(tr)| == Taken(tr)
  {
    if tr != [] {
      var last := |tr| - 1;
      var front := tr[..last];
      assert tr == front + [tr[last]];
      forall i | 0 <= i < last ensures From(tr, i) == From(front, i) && Upto(tr, i) == Upto(front, i) && tr[i] == front[i] {
        SameSpan(front, [tr[last]], i);
      }
      PositionsCount(front, next);
      if Accepting(tr[last]) {
        RangeSize(From(tr, last), Upto(tr, last));
        Behind(tr, next);
      }
    }
  }

  lemma {:induction false} Behind(tr: seq<Event>, next: int)
    requires Apart(tr, next) && tr != [] && Accepting(tr[|tr| - 1])
    ensures Positions(tr[..|tr| - 1]) !! Range(From(tr, |tr| - 1), Upto(tr, |tr| - 1))
  {
    hide From, Upto, Positions;
    var last := |tr| - 1;
    var front := tr[..last];
    assert tr == front + [tr[last]];
    forall x | x in Positions(front) ensures x < From(tr, last) {
      PositionsAre(front, x);
      var i :| 0 <= i < |front| && TookAt(front, i, x);
      SameSpan(front, [tr[last]], i);
    }
  }

  // ----- whole runs -----

  lemma {:induction false} LoopGoing(c: Config, inOrder: bool, fixed: bool, st: State, ebad: bool, limit: nat) returns (end: int)
    requires ValidConfig(c) && Steady(c, inOrder, fixed) && Orderly(c, inOrder) && ValidState(c, st) && Going(inOrder, fixed, st)
    requires Loop(c, st, ebad, limit).Done?
    ensures var r := Loop(c, st, ebad, limit); Apart(r.st.trace, end) && (fixed ==> ArgsLast(r.st.trace))
    decreases limit
  {
    hide ParseNext, Finalize, ClosingCalls, Steady, Orderly, Apart, ArgsLast, Going;
    var (s, e, b) := ParseNext(c, st, ebad);
    NextGoing(c, inOrder, fixed, st, ebad);
    if e == 0 {
      end := LoopGoing(c, inOrder, fixed, s, b, limit - 1);
    } else {
      end := s.next;
      var k := FinalizeTrace(c, s, e, b);
      var r := Loop(c, st, ebad, limit);
      var closing := k.noArgs + k.ends + k.verdict + k.finis;
      assert r.st.trace == s.trace + closing;
      ClosingQuiet(c, s, r.err, k);
      ApartQuiet(s.trace, closing, end, end);
      if fixed { LastQuiet(s.trace, closing); }
    }
  }

  lemma {:induction false} ClosingQuiet(c: Config, st: State, err: int, k: Closing)
    requires ClosingCalls(c, st, err, k)
    ensures var evs := k.noArgs + k.ends + k.verdict + k.finis; NoneAccepted(evs) && forall i :: 0 <= i < |evs| ==> !Positional(evs[i])
  {
  }

  lemma {:induction false} StartGoing(c: Config, inOrder: bool, fixed: bool, argc: int, noArgs: bool)
    requires Steady(c, inOrder, fixed)
    ensures Going(inOrder, fixed, Up(c, Start(c, argc, noArgs), Init, 0, 0, true, false).0)
  {
    hide Up, Steady;
    var st0 := Start(c, argc, noArgs);
    var inits := UpTrace(c, st0, Init, 0, 0, true, false);
    SteadyUp(c, inOrder, fixed, st0, Init, 0, 0, true, false);
    assert st0.trace + inits == inits;
    InitsTakeNothing(c, inits);
  }

  lemma {:induction false} SteadyUp(c: Config, inOrder: bool, fixed: bool, st: State, key: Key, g: nat, err: int, stop: bool, only: bool)
    requires Steady(c, inOrder, fixed) && ValidState(c, st) && g <= |c.groups|
    ensures var s := Up(c, st, key, g, err, stop, only).0; Ahead(inOrder, fixed, st, s) && s.tryGetopt == st.tryGetopt
    decreases |c.groups| - g
  {
    hide GroupParse, Steady;
    if g < |c.groups| && !(stop && !Soft(err)) {
      if only && st.processed[g] != 0 {
        SteadyUp(c, inOrder, fixed, st, key, g + 1, err, stop, only);
      } else {
        var (s, e) := GroupParse(c, st, g, key);
        SteadyCall(c, inOrder, fixed, st, g, key);
        OneCall(c, st, g, key);
        SteadyUp(c, inOrder, fixed, s, key, g + 1, e, stop, only);
      }
    }
  }

  /** Positional arguments are conserved: with parsers that move forward and drop nothing, and a getopt that hands
      arguments out in order or not at all, no argument is taken twice, and what the groups have processed adds
      up to the number of positions taken. */
  lemma {:induction false} ArgumentsConserved(c: Config, inOrder: bool, argc: int, noArgs: bool, limit: nat) returns (end: int)
    requires ValidConfig(c) && Steady(c, inOrder, false) && Orderly(c, inOrder) && Run(c, argc, noArgs, limit).Done?
    ensures var st := Run(c, argc, noArgs, limit).st;
            Apart(st.trace, end) && Sum(st.processed) == |Positions(st.trace)|
  {
    hide Up, Loop, Steady, Orderly, Apart, Positions, Ascending, CallsAll, ClosingCalls;
    StartGoing(c, inOrder, false, argc, noArgs);
    var (st, err) := Up(c, Start(c, argc, noArgs), Init, 0, 0, true, false);
    end := LoopGoing(c, inOrder, false, st, false, limit);
    PositionsCount(Run(c, argc, noArgs, limit).st.trace, end);
    var _, _, _ := RunProtocol(c, argc, noArgs, limit);
  }

  /** A parser that takes the remaining arguments is the last to be offered any, if no parser changes their number. */
  lemma {:induction false} ArgsAreLast(c: Config, inOrder: bool, argc: int, noArgs: bool, limit: nat)
    requires ValidConfig(c) && Steady(c, inOrder, true) && Orderly(c, inOrder) && Run(c, argc, noArgs, limit).Done?
    ensures ArgsLast(Run(c, argc, noArgs, limit).st.trace)
  {
    hide Up, Loop, Steady, Orderly, ArgsLast;
    StartGoing(c, inOrder, true, argc, noArgs);
    var (st, err) := Up(c, Start(c, argc, noArgs), Init, 0, 0, true, false);
    var _ := LoopGoing(c, inOrder, true, st, false, limit);
  }
}
