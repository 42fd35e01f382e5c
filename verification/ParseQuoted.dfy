/** How a run hands out arguments: to whom, when getopt is asked again in between, and what `--` and ARGP_NO_ARGS
    change. */
module ParseQuoted {
  import opened Options
  import opened ArgpTree
  import opened ParserTables
  import opened ParserDispatch
  import opened ParseRun
  import opened ParseClosing

  // ----- one argument, offered around -----

  /** The calls by which an argument that stands at `next` is offered to the groups from g on: each parser is handed
      the argument and, if it refuses that, all that remain, until one does not refuse. */
  predicate Offered(c: Config, evs: seq<Event>, g: nat, next: int)
    requires g <= |c.groups|
    decreases |c.groups| - g
  {
    if g == |c.groups| then evs == []
    else if !c.groups[g].hasParser then Offered(c, evs, g + 1, next)
    else
      && evs != [] && evs[0].group == g && evs[0].key == Arg && evs[0].at == next + 1
      && if evs[0].err != EBADKEY then |evs| == 1 else
         && |evs| >= 2 && evs[1].group == g && evs[1].key == Args && evs[1].at == evs[0].upto - 1
         && if evs[1].err != EBADKEY then |evs| == 2 else Offered(c, evs[2..], g + 1, evs[1].upto)
  }

  /** What comes of it: the error of the last call, or a refusal where nobody was called. */
  function Answer(evs: seq<Event>): int { if evs == [] then EBADKEY else evs[|evs| - 1].err }

  /** The state, error and key with which the offer ends are those of its last call. */
  predicate Ends(evs: seq<Event>, s: State, e: int, k: Key) {
    e == Answer(evs) && (e != EBADKEY ==> var last := evs[|evs| - 1]; last.key == k && last.upto == s.next && last.argc == s.argc)
  }

  /** The calls of one group's turn. */
  lemma {:induction false} OfferCalls(c: Config, st: State, g: nat) returns (evs: seq<Event>)
    requires ValidState(c, st) && g < |c.groups| && c.groups[g].hasParser
    ensures var (s, e, k) := Offer(c, st, g);
            && s.trace == st.trace + evs && 1 <= |evs| <= 2 && evs[0].group == g && evs[0].key == Arg && evs[0].at == st.next + 1
            && (|evs| == 2 <==> evs[0].err == EBADKEY)
            && (|evs| == 2 ==> evs[1].group == g && evs[1].key == Args && evs[1].at == evs[0].upto - 1)
            && e == evs[|evs| - 1].err && s.next == evs[|evs| - 1].upto && Ends(evs, s, e, k)
  {
    var (s1, e1) := GroupParse(c, st.(next := st.next + 1), g, Arg);
    evs := [s1.trace[|st.trace|]];
    if e1 == EBADKEY {
      var s2 := GroupParse(c, s1.(next := s1.next - 1), g, Args).0;
      evs := evs + [s2.trace[|st.trace| + 1]];
    }
  }

  lemma {:induction false} NoTurn(c: Config, st: State, g: nat)
    requires ValidState(c, st) && g < |c.groups| && !c.groups[g].hasParser
    ensures Offer(c, st, g) == (st, EBADKEY, Args)
  {
  }

  lemma {:induction false} ArgLoopOffers(c: Config, st: State, g: nat, key: Key) returns (evs: seq<Event>)
    requires ValidState(c, st) && g <= |c.groups|
    ensures var r := ArgLoop(c, st, g, EBADKEY, key);
            r.0.trace == st.trace + evs && Offered(c, evs, g, st.next) && Ends(evs, r.0, r.1, r.3)
    decreases |c.groups| - g
  {
    if g == |c.groups| {
      evs := [];
    } else {
      hide ArgLoop, Offer, Offered, Ends, ValidState;
      UnfoldArgLoop(c, st, g, key);
      var (s, e, k) := Offer(c, st, g);
      if !c.groups[g].hasParser {
        NoTurn(c, st, g);
        evs := ArgLoopOffers(c, st, g + 1, Args);
        PassedOver(c, evs, g, st.next);
      } else {
        evs := OfferCalls(c, st, g);
        if |evs| == 1 {
          TookFirst(c, evs, g, st.next);
        } else if e != EBADKEY {
          TookSecond(c, evs, g, st.next);
        } else {
          var rest := ArgLoopOffers(c, s, g + 1, k);
          TookNeither(c, evs, rest, g, st.next);
          assert st.trace + evs + rest == st.trace + (evs + rest);
          evs := evs + rest;
        }
      }
    }
  }

  lemma {:induction false} PassedOver(c: Config, evs: seq<Event>, g: nat, next: int)
    requires g < |c.groups| && !c.groups[g].hasParser && Offered(c, evs, g + 1, next)
    ensures Offered(c, evs, g, next)
  {
  }

  lemma {:induction false} TookFirst(c: Config, evs: seq<Event>, g: nat, next: int)
    requires g < |c.groups| && c.groups[g].hasParser && |evs| == 1 && evs[0].err != EBADKEY
    requires evs[0].group == g && evs[0].key == Arg && evs[0].at == next + 1
    ensures Offered(c, evs, g, next)
  {
  }

  lemma {:induction false} TookSecond(c: Config, evs: seq<Event>, g: nat, next: int)
    requires g < |c.groups| && c.groups[g].hasParser && |evs| == 2 && evs[0].err == EBADKEY != evs[1].err
    requires evs[0].group == g && evs[0].key == Arg && evs[0].at == next + 1
    requires evs[1].group == g && evs[1].key == Args && evs[1].at == evs[0].upto - 1
    ensures Offered(c, evs, g, next)
  {
  }

  lemma {:induction false} TookNeither(c: Config, evs: seq<Event>, rest: seq<Event>, g: nat, next: int)
    requires g < |c.groups| && c.groups[g].hasParser && |evs| == 2 && evs[0].err == EBADKEY == evs[1].err
    requires evs[0].group == g && evs[0].key == Arg && evs[0].at == next + 1
    requires evs[1].group == g && evs[1].key == Args && evs[1].at == evs[0].upto - 1
    requires Offered(c, rest, g + 1, evs[1].upto)
    ensures Offered(c, evs + rest, g, next)
    ensures forall s, e, k :: Ends(rest, s, e, k) ==> Ends(evs + rest, s, e, k)
  {
    assert (evs + rest)[2..] == rest;
  }

  // ----- when getopt is asked -----

  /** Where the start calls leave the position and the argument count, from their replies. */
  function MovedBy(c: Config, n: nat): int { if n == 0 then 0 else MovedBy(c, n - 1) + c.env.parser(n - 1).move }

  function GrownBy(c: Config, n: nat): int { if n == 0 then 0 else GrownBy(c, n - 1) + c.env.parser(n - 1).grow }

  lemma {:induction false} StartsLeave(c: Config, st: State, g: nat, err: int)
    requires ValidState(c, st) && g <= |c.groups| && NeverQuotes(c, 0)
    ensures var s := Up(c, st, Init, g, err, true, false).0;
            && s.calls >= st.calls && s.getopts == st.getopts && s.tryGetopt == st.tryGetopt && s.quoted == st.quoted
            && s.next - st.next == MovedBy(c, s.calls) - MovedBy(c, st.calls)
            && s.argc - st.argc == GrownBy(c, s.calls) - GrownBy(c, st.calls)
    decreases |c.groups| - g
  {
    if g < |c.groups| && Soft(err) {
      var (s, e) := GroupParse(c, st, g, Init);
      StartsLeave(c, s, g + 1, e);
    }
  }

  /** After the start calls, unless one of them quotes, a run asks getopt first, for the first time, from position 0 and
      with the given count unless the start calls moved or changed them. */
  lemma {:induction false} FirstRound(c: Config, argc: int, noArgs: bool)
    requires NeverQuotes(c, 0)
    ensures var st := Up(c, Start(c, argc, noArgs), Init, 0, 0, true, false).0;
            AsksGetopt(st) && st.getopts == 0 && st.next == MovedBy(c, st.calls) && st.argc == argc + GrownBy(c, st.calls)
  {
    hide Up;
    StartsLeave(c, Start(c, argc, noArgs), 0, 0);
  }

  /** A round asks getopt once or not at all, and not when the arguments from the quoted position on are reached. */
  lemma {:induction false} AsksIff(c: Config, st: State, ebad: bool)
    requires ValidConfig(c) && ValidState(c, st)
    ensures ParseNext(c, st, ebad).0.getopts == st.getopts + if AsksGetopt(st) then 1 else 0
  {
    hide ArgLoop, GroupParse, ParseOpt;
    var quoted := if st.quoted != 0 && st.next < st.quoted then 0 else st.quoted;
    var s := st.(quoted := quoted);
    if AsksGetopt(st) {
      var r := c.env.getopt(st.getopts, st.next, st.argc);
      OptionNamed(c, st.getopts, st.next, st.argc);
      var s1 := s.(getopts := st.getopts + 1, next := r.optind);
      if r.opt == KEY_END {
        ArgCounts(c, s1.(tryGetopt := false, quoted := if s1.next > 1 && r.afterQuote then s1.next else s1.quoted, next := s1.next + 1));
      } else if r.opt == KEY_ARG {
        ArgCounts(c, s1);
      } else if !(r.opt == KEY_ERR && r.isError) {
        var evs := ParseOptTrace(c, s1, r.opt);
      }
    } else {
      ArgCounts(c, s.(next := s.next + 1));
    }
  }

  lemma {:induction false} ArgCounts(c: Config, st: State)
    requires ValidState(c, st)
    ensures ParseArg(c, st).0.getopts == st.getopts
  {
    hide ArgLoop;
    var evs := ArgLoopTrace(c, st.(next := st.next - 1), 0, Arg);
  }

  /** A round that does not ask getopt, while arguments are left and wanted: the next one is offered around. If a
      parser takes it, getopt is asked again later on exactly if it was before or the parser left the argument. */
  lemma {:induction false} ArgumentRound(c: Config, st: State, ebad: bool) returns (evs: seq<Event>)
    requires ValidConfig(c) && ValidState(c, st) && !AsksGetopt(st) && st.next < st.argc && !st.noArgs
    ensures var (s, e, b) := ParseNext(c, st, ebad);
            && s.trace == st.trace + evs && Offered(c, evs, 0, st.next) && e == Answer(evs)
            && (e == EBADKEY ==> b)
            && (e == 0 ==> var last := evs[|evs| - 1];
                           && s.argc == last.argc && s.next == (if last.key == Args then last.argc else last.upto)
                           && (s.tryGetopt <==> st.tryGetopt || s.next <= st.next))
  {
    hide ArgLoop, Offered;
    var st1 := if st.quoted != 0 && st.next < st.quoted then st.(quoted := 0) else st;
    evs := ArgLoopOffers(c, st1, 0, Arg);
    var same := ArgLoopTrace(c, st1, 0, Arg);
    assert st1.(next := st1.next + 1).(next := st1.next + 1 - 1) == st1;
  }

  // ----- an option, handed out -----

  /** The option getopt comes up with in this round, if it is one; '?' is one unless getopt reports an error. */
  function NextOption(c: Config, st: State): Option<int> {
    if !AsksGetopt(st) then None
    else
      var r := c.env.getopt(st.getopts, st.next, st.argc);
      if r.opt == KEY_END || r.opt == KEY_ARG || (r.opt == KEY_ERR && r.isError) then None else Some(r.opt)
  }

  /** The option goes where parser_parse_opt sends it, from the position getopt leaves. If it is refused there, or
      belongs to nobody, the run fails at once: all parsers are told of the error, which is EINVAL, whatever is left. */
  lemma {:induction false} OptionHandedOut(c: Config, st: State, ebad: bool, limit: nat) returns (st': State)
    requires ValidConfig(c) && ValidState(c, st) && Earlier(st.trace) && limit > 0 && NextOption(c, st).Some?
    ensures ValidState(c, st') && st'.trace == st.trace && st'.next == c.env.getopt(st.getopts, st.next, st.argc).optind && st'.calls == st.calls
    ensures 0 <= DecodeGroup(NextOption(c, st).value) <= |c.groups|
    ensures var r, o := Loop(c, st, ebad, limit), ParseOpt(c, st', NextOption(c, st).value);
            && ParseNext(c, st, ebad).0 == o.0 && ParseNext(c, st, ebad).1 == o.1
            && (o.1 == EBADKEY ==>
                 && r.Done? && r.err == EINVAL && r.end == None
                 && With(r.st.trace, NoArgs) == [] && With(r.st.trace, End) == [] && With(r.st.trace, Success) == []
                 && CallsAll(c, With(r.st.trace, Error), 0, |c.groups|))
  {
    hide ParseOpt, With, Ascending, Descending, CallsAll, AllSoft, DecodeGroup, Finalize, CallsMeant;
    OptionNamed(c, st.getopts, st.next, st.argc);
    var quoted := if st.quoted != 0 && st.next < st.quoted then 0 else st.quoted;
    st' := st.(quoted := quoted, getopts := st.getopts + 1, next := c.env.getopt(st.getopts, st.next, st.argc).optind);
    var (s, e, b) := ParseNext(c, st, ebad);
    assert (s, e) == ParseOpt(c, st', NextOption(c, st).value);
    if e == EBADKEY {
      LoopCloses(c, st, ebad, limit);
      NoneHard();
    }
  }

  // ----- the end of the options -----

  /** The position from which a round goes on without options, if it does: getopt is not asked, or is at its end. */
  function PastOptions(c: Config, st: State): Option<int> {
    if !AsksGetopt(st) then Some(st.next)
    else var r := c.env.getopt(st.getopts, st.next, st.argc); if r.opt == KEY_END then Some(r.optind) else None
  }

  /** When the options are at an end and no argument is left or wanted, the loop stops and nobody is called in that
      round. With no argument left, every parser sees the end and success, and the run succeeds, unless one of those
      calls or one about no arguments objects. With arguments left they are handed back, or the run fails. */
  lemma {:induction false} OptionsEnd(c: Config, st: State, ebad: bool, limit: nat)
    requires ValidConfig(c) && ValidState(c, st) && Earlier(st.trace) && limit > 0
    requires PastOptions(c, st).Some? && (PastOptions(c, st).value >= st.argc || st.noArgs)
    ensures var r, n := Loop(c, st, ebad, limit), PastOptions(c, st).value;
            var ns, es, vs := With(r.st.trace, NoArgs), With(r.st.trace, End), With(r.st.trace, Success);
            && r.Done? && Stop(c, st, ebad, limit).0.trace == st.trace
            && (n == st.argc && AllSoft(ns) && AllSoft(es) && AllSoft(vs) ==>
                 r.err == 0 && forall g :: 0 <= g < |c.groups| && c.groups[g].hasParser ==> Called(es, g) && Called(vs, g))
            && (n != st.argc ==> ns == [] && es == [])
            && (n != st.argc && c.hasEnd ==> r.end == Some(n) && (AllSoft(vs) ==> r.err == 0))
            && (n != st.argc && !c.hasEnd ==> r.end == None && r.err == EINVAL)
  {
    hide Finalize, With, Ascending, Descending, AllSoft;
    var n := PastOptions(c, st).value;
    var (s, e, b) := ParseNext(c, st, ebad);
    assert e == EBADKEY && b && s.next == n && s.argc == st.argc && s.trace == st.trace;
    LoopCloses(c, st, ebad, limit);
    var tr := Loop(c, st, ebad, limit).st.trace;
    var ns, es, vs := With(tr, NoArgs), With(tr, End), With(tr, Success);
    SoftJoin(ns, es);
    NoneHard();
    forall g | 0 <= g < |c.groups| && c.groups[g].hasParser ensures Meant(c, s.processed, false, g) {}
  }

  lemma {:induction false} NoneHard()
    ensures AllSoft([])
  {
  }

  // ----- behind the quoting marker -----

  /** From its n-th call on, no parser changes the quoted position. */
  ghost predicate NeverQuotes(c: Config, n: nat) { forall k: nat :: k >= n ==> c.env.parser(k).quoted.None? }

  /** A call after which the position and the end of the arguments are at q or behind it, counting that an argument
      which is refused goes back. */
  predicate Behind(e: Event, q: int) {
    (if e.key == Arg && e.err == EBADKEY then e.upto > q else e.upto >= q) && e.argc >= q
  }

  predicate AllBehind(evs: seq<Event>, q: int) { forall e :: e in evs ==> Behind(e, q) }

  predicate AllPositional(evs: seq<Event>) { forall e :: e in evs ==> Positional(e) }

  lemma {:induction false} OfferedPositional(c: Config, evs: seq<Event>, g: nat, next: int)
    requires g <= |c.groups| && Offered(c, evs, g, next)
    ensures AllPositional(evs)
    decreases |c.groups| - g
  {
    if g < |c.groups| {
      if !c.groups[g].hasParser { OfferedPositional(c, evs, g + 1, next); }
      else if |evs| > 2 {
        OfferedPositional(c, evs[2..], g + 1, evs[1].upto);
        assert evs == [evs[0], evs[1]] + evs[2..];
      }
    }
  }

  lemma {:induction false} ArgLoopQuoted(c: Config, st: State, g: nat, err: int, key: Key)
    requires ValidState(c, st) && g <= |c.groups| && (err != EBADKEY ==> g > 0) && NeverQuotes(c, st.calls)
    ensures ArgLoop(c, st, g, err, key).0.quoted == st.quoted && ArgLoop(c, st, g, err, key).0.calls >= st.calls
    decreases |c.groups| - g
  {
    if g < |c.groups| && err == EBADKEY {
      hide ArgLoop;
      UnfoldArgLoop(c, st, g, key);
      var (s, e, k) := Offer(c, st, g);
      ArgLoopQuoted(c, s, g + 1, e, k);
    }
  }

  /** One round at or behind the quoted position: no option, and if no call moves before it, it stays there. */
  lemma {:induction false} QuotedRound(c: Config, st: State, ebad: bool) returns (evs: seq<Event>)
    requires ValidConfig(c) && ValidState(c, st) && NeverQuotes(c, st.calls) && 0 < st.quoted <= st.next
    ensures var (s, e, b) := ParseNext(c, st, ebad);
            && s.trace == st.trace + evs && s.getopts == st.getopts && AllPositional(evs) && s.quoted == st.quoted && s.calls >= st.calls
            && (e == 0 && AllBehind(evs, st.quoted) ==> s.quoted <= s.next)
  {
    hide ArgLoop, Offered;
    AsksIff(c, st, ebad);
    if st.next < st.argc && !st.noArgs {
      evs := ArgumentRound(c, st, ebad);
      OfferedPositional(c, evs, 0, st.next);
      ArgLoopQuoted(c, st, 0, EBADKEY, Arg);
      assert st.(next := st.next + 1).(next := st.next + 1 - 1) == st;
      if ParseNext(c, st, ebad).1 == 0 { assert evs[|evs| - 1] in evs; }
    } else {
      evs := [];
    }
  }

  /** Behind `--`, as long as no parser moves back before it, getopt is not asked again and every call of a parser is
      about an argument, to the end of the parse loop. */
  lemma {:induction false} QuotedStaysQuoted(c: Config, st: State, ebad: bool, limit: nat) returns (ps: seq<Event>)
    requires ValidConfig(c) && ValidState(c, st) && NeverQuotes(c, st.calls) && 0 < st.quoted <= st.next && Loop(c, st, ebad, limit).Done?
    ensures var s := Stop(c, st, ebad, limit).0;
            s.trace == st.trace + ps && (AllBehind(ps, st.quoted) ==> AllPositional(ps) && s.getopts == st.getopts)
    decreases limit
  {
    hide ParseNext, AllBehind, AllPositional;
    var (s, e, b) := ParseNext(c, st, ebad);
    var evs := QuotedRound(c, st, ebad);
    if e == 0 {
      if s.quoted <= s.next {
        var rest := QuotedStaysQuoted(c, s, b, limit - 1);
        ps := evs + rest;
        BothOf(evs, rest, st.quoted);
      } else {
        var rest := LoopFromStop(c, s, b, limit - 1);
        ps := evs + rest;
        BothOf(evs, rest, st.quoted);
      }
      assert st.trace + evs + ps[|evs|..] == st.trace + ps;
    } else {
      ps := evs;
    }
  }

  lemma {:induction false} BothOf(a: seq<Event>, b: seq<Event>, q: int)
    ensures AllBehind(a + b, q) ==> AllBehind(a, q) && AllBehind(b, q)
    ensures AllPositional(a) && AllPositional(b) ==> AllPositional(a + b)
  {
    if AllBehind(a + b, q) {
      assert forall e :: e in a ==> e in a + b;
      assert forall e :: e in b ==> e in a + b;
    }
  }

  /** Once getopt has come to an end just behind `--`: all of this holds of the rest of the run. */
  lemma {:induction false} NothingQuotedIsAnOption(c: Config, st: State, ebad: bool, limit: nat) returns (ps: seq<Event>)
    requires ValidConfig(c) && ValidState(c, st) && NeverQuotes(c, st.calls) && AsksGetopt(st) && Loop(c, st, ebad, limit).Done?
    requires var r := c.env.getopt(st.getopts, st.next, st.argc); r.opt == KEY_END && r.afterQuote && r.optind > 1
    ensures var q, s := c.env.getopt(st.getopts, st.next, st.argc).optind, Stop(c, st, ebad, limit).0;
            s.trace == st.trace + ps && (AllBehind(ps, q) ==> AllPositional(ps) && s.getopts == st.getopts + 1)
  {
    hide AfterEnd, AllBehind, AllPositional;
    var q := c.env.getopt(st.getopts, st.next, st.argc).optind;
    var st1 := st.(getopts := st.getopts + 1, next := q, tryGetopt := false, quoted := q);
    assert ParseNext(c, st, ebad) == ParseNext(c, st1, ebad);
    assert Stop(c, st, ebad, limit) == Stop(c, st1, ebad, limit);
    ps := QuotedStaysQuoted(c, st1, ebad, limit);
  }

  /** This round hands an option to a parser, which takes it. */
  ghost predicate TakesOption(c: Config, st: State, ebad: bool)
    requires ValidConfig(c) && ValidState(c, st)
  {
    && AsksGetopt(st) && c.env.getopt(st.getopts, st.next, st.argc).opt != KEY_END
    && c.env.getopt(st.getopts, st.next, st.argc).opt != KEY_ARG
    && ParseNext(c, st, ebad).1 == 0 && |ParseNext(c, st, ebad).0.trace| > |st.trace|
  }

  lemma {:induction false} OptionRound(c: Config, st: State, ebad: bool)
    requires ValidConfig(c) && ValidState(c, st) && TakesOption(c, st, ebad)
    ensures var s, g, r := ParseNext(c, st, ebad).0, c.env.getopt(st.getopts, st.next, st.argc), c.env.parser(st.calls);
            && s.next == g.optind + r.move && s.calls == st.calls + 1 && s.getopts == st.getopts + 1
            && (r.quoted.Some? ==> s.quoted == r.quoted.value) && (r.noArgs.Some? ==> s.noArgs == r.noArgs.value)
            && s.trace == st.trace + [s.trace[|st.trace|]] && s.trace[|st.trace|].key.Opt?
  {
    hide Dispatch, DecodeGroup, DecodeKey;
  }

  /** A parser that is handed an option may begin a quoted region itself, at or before the position it leaves: all of
      this holds from there on. */
  lemma {:induction false} ParserQuotes(c: Config, st: State, ebad: bool, limit: nat) returns (ps: seq<Event>)
    requires ValidConfig(c) && ValidState(c, st) && TakesOption(c, st, ebad) && NeverQuotes(c, st.calls + 1) && Loop(c, st, ebad, limit).Done?
    requires var r := c.env.parser(st.calls);
             r.quoted.Some? && 0 < r.quoted.value <= c.env.getopt(st.getopts, st.next, st.argc).optind + r.move
    ensures var q, s := c.env.parser(st.calls).quoted.value, Stop(c, st, ebad, limit).0;
            && ps != [] && s.trace == st.trace + ps
            && (AllBehind(ps[1..], q) ==> AllPositional(ps[1..]) && s.getopts == st.getopts + 1)
  {
    hide ParseNext, AllBehind, AllPositional;
    OptionRound(c, st, ebad);
    var (s, e, b) := ParseNext(c, st, ebad);
    var rest := QuotedStaysQuoted(c, s, b, limit - 1);
    ps := [s.trace[|st.trace|]] + rest;
    assert ps[1..] == rest && st.trace + [s.trace[|st.trace|]] + rest == st.trace + ps;
  }

  // ----- runs without arguments -----

  /** From its n-th call on, no parser takes ARGP_NO_ARGS back. */
  ghost predicate KeepsNoArgs(c: Config, n: nat) { forall k: nat :: k >= n ==> c.env.parser(k).noArgs != Some(false) }

  /** getopt hands out options only. */
  ghost predicate OptionsOnly(c: Config) { forall n: nat, next: int, argc: int :: c.env.getopt(n, next, argc).opt != KEY_ARG }

  lemma {:induction false} NoArgsRound(c: Config, st: State, ebad: bool) returns (evs: seq<Event>)
    requires ValidConfig(c) && ValidState(c, st) && KeepsNoArgs(c, st.calls) && OptionsOnly(c) && st.noArgs
    ensures var s := ParseNext(c, st, ebad).0; s.noArgs && s.calls >= st.calls && s.trace == st.trace + evs && forall e :: e in evs ==> e.key.Opt?
  {
    hide Dispatch, DecodeGroup, DecodeKey;
    evs := [];
    if AsksGetopt(st) {
      var r := c.env.getopt(st.getopts, st.next, st.argc);
      OptionNamed(c, st.getopts, st.next, st.argc);
      if r.opt != KEY_END && !(r.opt == KEY_ERR && r.isError) {
        var quoted := if st.quoted != 0 && st.next < st.quoted then 0 else st.quoted;
        evs := ParseOptTrace(c, st.(quoted := quoted, getopts := st.getopts + 1, next := r.optind), r.opt);
      }
    }
  }

  lemma {:induction false} NoArgsLoop(c: Config, st: State, ebad: bool, limit: nat) returns (ps: seq<Event>)
    requires ValidConfig(c) && ValidState(c, st) && KeepsNoArgs(c, st.calls) && OptionsOnly(c) && st.noArgs && Loop(c, st, ebad, limit).Done?
    ensures Stop(c, st, ebad, limit).0.trace == st.trace + ps && forall e :: e in ps ==> e.key.Opt?
    decreases limit
  {
    hide ParseNext;
    var (s, e, b) := ParseNext(c, st, ebad);
    ps := NoArgsRound(c, st, ebad);
    if e == 0 {
      var rest := NoArgsLoop(c, s, b, limit - 1);
      assert st.trace + ps + rest == st.trace + (ps + rest);
      ps := ps + rest;
    }
  }

  lemma {:induction false} StartsKeepNoArgs(c: Config, st: State, g: nat, err: int) returns (evs: seq<Event>)
    requires ValidState(c, st) && g <= |c.groups| && KeepsNoArgs(c, st.calls) && st.noArgs
    ensures var s := Up(c, st, Init, g, err, true, false).0; s.noArgs && s.calls >= st.calls && s.trace == st.trace + evs && forall e :: e in evs ==> e.key.Init?
    decreases |c.groups| - g
  {
    evs := [];
    if g < |c.groups| && Soft(err) {
      var (s, e) := GroupParse(c, st, g, Init);
      var rest := StartsKeepNoArgs(c, s, g + 1, e);
      evs := s.trace[|st.trace|..] + rest;
    }
  }

  /** With ARGP_NO_ARGS, unless a parser takes that back, no run offers an argument to anyone. */
  lemma {:induction false} NoArgsRunOffersNone(c: Config, argc: int, limit: nat)
    requires ValidConfig(c) && KeepsNoArgs(c, 0) && OptionsOnly(c) && Run(c, argc, true, limit).Done?
    ensures forall e :: e in RunStop(c, argc, true, limit).0.trace ==> !Positional(e)
  {
    hide Up, Loop, Stop;
    var st0 := Start(c, argc, true);
    var inits := StartsKeepNoArgs(c, st0, 0, 0);
    var ps := NoArgsLoop(c, Up(c, st0, Init, 0, 0, true, false).0, false, limit);
    assert RunStop(c, argc, true, limit).0.trace == inits + ps;
  }

  /** A parser that is handed an option may set ARGP_NO_ARGS itself: from there on no argument is offered to anyone. */
  lemma {:induction false} ParserEndsArguments(c: Config, st: State, ebad: bool, limit: nat) returns (ps: seq<Event>)
    requires ValidConfig(c) && ValidState(c, st) && TakesOption(c, st, ebad) && KeepsNoArgs(c, st.calls + 1) && OptionsOnly(c)
    requires c.env.parser(st.calls).noArgs == Some(true) && Loop(c, st, ebad, limit).Done?
    ensures Stop(c, st, ebad, limit).0.trace == st.trace + ps && forall e :: e in ps ==> !Positional(e)
  {
    hide ParseNext;
    OptionRound(c, st, ebad);
    var (s, e, b) := ParseNext(c, st, ebad);
    var rest := NoArgsLoop(c, s, b, limit - 1);
    ps := [s.trace[|st.trace|]] + rest;
    assert st.trace + [s.trace[|st.trace|]] + rest == st.trace + ps;
  }
}
