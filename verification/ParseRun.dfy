/** A whole run of argp_parse as a state machine over its calls of the user's parsers and of getopt, both of
    which may answer anything. */
module ParseRun {
  import opened Options
  import opened ArgpTree
  import opened ParserTables
  import opened ParserDispatch

  const EINVAL := 22
  const KEY_END := -1
  const KEY_ARG := 1
  const KEY_ERR := '?' as int

  /** The keys a parser is called with. */
  datatype Key = Init | Opt(key: int) | Arg | Args | NoArgs | End | Success | Error | Fini

  /** One call of a group's parser as seen from outside: the error it returned, the next argument it was handed
      and the one it left behind, and the argument count it left. */
  datatype Event = Event(group: nat, key: Key, err: int, at: int, upto: int, argc: int)

  /** What a parser does to the state it is handed: it returns an error and may move the next argument,
      change the argument count, the quoted region and the flags. */
  datatype ParserReply = ParserReply(err: int, move: int, grow: int, quoted: Option<int>, noArgs: Option<bool>)

  /** What getopt answers: the option, the new next argument, whether it reports an unknown option, and
      whether the argument before the new next one is the quoting marker. */
  datatype GetoptReply = GetoptReply(opt: int, optind: int, isError: bool, afterQuote: bool)

  /** Everything outside argp: the n-th call of a parser, and the n-th call of getopt with the next argument and
      the argument count it is given. */
  datatype Env = Env(parser: nat -> ParserReply, getopt: (nat, int, int) -> GetoptReply)

  /** The tables of a parser, its surroundings, and whether the caller takes back unparsed arguments. */
  datatype Config = Config(groups: seq<Group>, shorts: seq<int>, env: Env, hasEnd: bool)

  datatype State = State(next: int, argc: int, quoted: int, noArgs: bool, tryGetopt: bool, processed: seq<int>,
                         calls: nat, getopts: nat, trace: seq<Event>)

  /** Every option getopt returns names a group of the tables. */
  ghost predicate ValidConfig(c: Config) {
    forall n: nat, next: int, argc: int :: Nameable(c, c.env.getopt(n, next, argc).opt)
  }

  predicate Nameable(c: Config, opt: int) { opt == KEY_END || 0 <= DecodeGroup(opt) <= |c.groups| }

  lemma {:induction false} OptionNamed(c: Config, n: nat, next: int, argc: int)
    requires ValidConfig(c)
    ensures Nameable(c, c.env.getopt(n, next, argc).opt)
  {
  }

  predicate ValidState(c: Config, st: State) { |st.processed| == |c.groups| }

  // ----- the functions of argp-parse.c -----

  /** group_parse */
  function GroupParse(c: Config, st: State, g: nat, key: Key): (State, int)
    requires g < |c.groups|
  {
    if c.groups[g].hasParser then
      var r := c.env.parser(st.calls);
      (st.(next := st.next + r.move, argc := st.argc + r.grow,
           quoted := if r.quoted.Some? then r.quoted.value else st.quoted,
           noArgs := if r.noArgs.Some? then r.noArgs.value else st.noArgs,
           calls := st.calls + 1, trace := st.trace + [Event(g, key, r.err, st.next, st.next + r.move, st.argc + r.grow)]), r.err)
    else (st, EBADKEY)
  }

  /** Call the groups from g on, in order. With `stop` a hard error ends the loop; with `only` a group that
      has processed arguments is passed over. */
  function Up(c: Config, st: State, key: Key, g: nat, err: int, stop: bool, only: bool): (r: (State, int))
    requires ValidState(c, st) && g <= |c.groups|
    ensures ValidState(c, r.0)
    decreases |c.groups| - g
  {
    if g == |c.groups| || (stop && !Soft(err)) then (st, err)
    else if only && st.processed[g] != 0 then Up(c, st, key, g + 1, err, stop, only)
    else
      var (st', err') := GroupParse(c, st, g, key);
      Up(c, st', key, g + 1, err', stop, only)
  }

  /** Call the groups below g, last one first. */
  function Down(c: Config, st: State, key: Key, g: nat, err: int, stop: bool): (r: (State, int))
    requires ValidState(c, st) && g <= |c.groups|
    ensures ValidState(c, r.0)
    decreases g
  {
    if g == 0 || (stop && !Soft(err)) then (st, err)
    else
      var (st', err') := GroupParse(c, st, g - 1, key);
      Down(c, st', key, g - 1, err', stop)
  }

  /** The group loop of parser_parse_arg: offer the argument, then the rest of the arguments, to each group. */
  function ArgLoop(c: Config, st: State, g: nat, err: int, key: Key): (r: (State, int, nat, Key))
    requires ValidState(c, st) && g <= |c.groups| && (err != EBADKEY ==> g > 0)
    ensures ValidState(c, r.0) && g <= r.2 <= |c.groups| && (r.1 != EBADKEY ==> r.2 > 0)
    decreases |c.groups| - g
  {
    if g == |c.groups| || err != EBADKEY then (st, err, g, key)
    else
      var (s1, e1) := GroupParse(c, st.(next := st.next + 1), g, Arg);
      if e1 != EBADKEY then ArgLoop(c, s1, g + 1, e1, Arg)
      else
        var (s2, e2) := GroupParse(c, s1.(next := s1.next - 1), g, Args);
        ArgLoop(c, s2, g + 1, e2, Args)
  }

  /** The end of parser_parse_arg, for an accepted argument that was at `index`. */
  function Accept(c: Config, st: State, g: nat, key: Key, index: int): (r: State)
    requires ValidState(c, st) && 0 < g <= |c.groups|
    ensures ValidState(c, r)
  {
    var st := if key == Args then st.(next := st.argc) else st;
    if st.next > index then
      st.(processed := st.processed[g - 1 := st.processed[g - 1] + (st.next - index)])
    else st.(tryGetopt := true)
  }

  /** parser_parse_arg */
  function ParseArg(c: Config, st: State): (r: (State, int))
    requires ValidState(c, st)
    ensures ValidState(c, r.0)
  {
    var index := st.next - 1;
    var (s, e, g, k) := ArgLoop(c, st.(next := index), 0, EBADKEY, Arg);
    (if e == 0 then Accept(c, s, g, k, index) else s, e)
  }

  /** parser_parse_opt */
  function ParseOpt(c: Config, st: State, opt: int): (r: (State, int))
    requires ValidState(c, st) && 0 <= DecodeGroup(opt) <= |c.groups|
    ensures ValidState(c, r.0)
  {
    if DecodeGroup(opt) == 0 then
      match Dispatch(c.shorts, c.groups, opt)
      case None => (st, EBADKEY)
      case Some(g) => if g < |c.groups| then GroupParse(c, st, g, Opt(opt)) else (st, EBADKEY)
    else GroupParse(c, st, DecodeGroup(opt) - 1, Opt(DecodeKey(opt)))
  }

  /** The end of parser_parse_next: hand out an argument or an option. */
  function Handle(c: Config, st: State, opt: int, ebad: bool): (r: (State, int, bool))
    requires ValidState(c, st) && (opt == KEY_ARG || 0 <= DecodeGroup(opt) <= |c.groups|)
    ensures ValidState(c, r.0)
  {
    var (s, e) := if opt == KEY_ARG then ParseArg(c, st) else ParseOpt(c, st, opt);
    (s, e, if e == EBADKEY then opt == KEY_ARG else ebad)
  }

  /** parser_parse_next once getopt has nothing more to say: done, or an argument to hand out. */
  function AfterEnd(c: Config, st: State, ebad: bool): (r: (State, int, bool))
    requires ValidState(c, st)
    ensures ValidState(c, r.0)
  {
    if st.next >= st.argc || st.noArgs then (st, EBADKEY, true)
    else Handle(c, st.(next := st.next + 1), KEY_ARG, ebad)
  }

  /** parser_parse_next: the new state, the error, and whether it is due to an unrecognised argument. */
  ghost function ParseNext(c: Config, st: State, ebad: bool): (r: (State, int, bool))
    requires ValidConfig(c) && ValidState(c, st)
    ensures ValidState(c, r.0)
  {
    var st := if st.quoted != 0 && st.next < st.quoted then st.(quoted := 0) else st;
    if st.tryGetopt && st.quoted == 0 then
      var r := c.env.getopt(st.getopts, st.next, st.argc);
      var st := st.(getopts := st.getopts + 1, next := r.optind);
      if r.opt == KEY_END then
        AfterEnd(c, st.(tryGetopt := false, quoted := if st.next > 1 && r.afterQuote then st.next else st.quoted), ebad)
      else if r.opt == KEY_ERR && r.isError then (st, EBADKEY, false)
      else Handle(c, st, r.opt, ebad)
    else AfterEnd(c, st, ebad)
  }

  /** The middle of parser_finalize: the last calls when all arguments are parsed, the end index otherwise. */
  function CloseArgs(c: Config, st: State): (r: (State, int, Option<int>))
    requires ValidState(c, st)
    ensures ValidState(c, r.0)
  {
    if st.next == st.argc then
      var (s1, e1) := Up(c, st, NoArgs, 0, 0, true, true);
      var (s2, e2) := Down(c, s1, End, |c.groups|, e1, true);
      (s2, Normal(e2), if c.hasEnd then Some(s2.next) else None)
    else if c.hasEnd then (st, 0, Some(st.next))
    else (st, EBADKEY, None)
  }

  /** parser_finalize */
  function Finalize(c: Config, st: State, err: int, ebad: bool): (r: (State, int, Option<int>))
    requires ValidState(c, st)
    ensures ValidState(c, r.0)
  {
    var (s1, e1, end) := if err != 0 && !(err == EBADKEY && ebad) then (st, err, None) else CloseArgs(c, st);
    var (s2, e2) := if e1 != 0 then (Up(c, s1, Error, 0, 0, false, false).0, e1)
                    else var (s, e) := Down(c, s1, Success, |c.groups|, 0, true); (s, Normal(e));
    var s3 := Down(c, s2, Fini, |c.groups|, 0, false).0;
    (s3, if e2 == EBADKEY then EINVAL else e2, end)
  }

  /** The state parser_init hands to the first parser. */
  function Start(c: Config, argc: int, noArgs: bool): (st: State)
    ensures ValidState(c, st)
  {
    State(0, argc, 0, noArgs, true, seq(|c.groups|, _ => 0), 0, 0, [])
  }

  /** What a run has come to: parser_init refused, the parse loop still going, or finished. */
  datatype Outcome = Refused(err: int, st: State) | Running(st: State, ebad: bool) | Done(err: int, st: State, end: Option<int>)

  /** The parse loop of argp_parse, at most `limit` rounds, and parser_finalize once it stops. */
  ghost function Loop(c: Config, st: State, ebad: bool, limit: nat): (r: Outcome)
    requires ValidConfig(c) && ValidState(c, st)
    ensures !r.Refused?
    decreases limit
  {
    if limit == 0 then Running(st, ebad) else
    var (s, e, b) := ParseNext(c, st, ebad);
    if e == 0 then Loop(c, s, b, limit - 1)
    else var (s', e', end) := Finalize(c, s, e, b); Done(e', s', end)
  }

  /** argp_parse, its parse loop cut off after `limit` rounds; every run that ends is one of these. */
  ghost function Run(c: Config, argc: int, noArgs: bool, limit: nat): Outcome
    requires ValidConfig(c)
  {
    var (st, err) := Up(c, Start(c, argc, noArgs), Init, 0, 0, true, false);
    if Normal(err) != 0 then Refused(err, st) else Loop(c, st, false, limit)
  }

  // ----- sweeps over the groups -----

  /** Calls with one key to groups with parsers, each at most once, in ascending order from lo up to hi. */
  predicate Ascending(c: Config, evs: seq<Event>, key: Key, lo: nat, hi: nat)
    requires hi <= |c.groups|
  {
    && (forall i :: 0 <= i < |evs| ==> evs[i].key == key && lo <= evs[i].group < hi && c.groups[evs[i].group].hasParser)
    && (forall i, j :: 0 <= i < j < |evs| ==> evs[i].group < evs[j].group)
  }

  predicate Descending(c: Config, evs: seq<Event>, key: Key, lo: nat, hi: nat)
    requires hi <= |c.groups|
  {
    && (forall i :: 0 <= i < |evs| ==> evs[i].key == key && lo <= evs[i].group < hi && c.groups[evs[i].group].hasParser)
    && (forall i, j :: 0 <= i < j < |evs| ==> evs[i].group > evs[j].group)
  }

  predicate Called(evs: seq<Event>, g: nat) { exists i :: 0 <= i < |evs| && evs[i].group == g }

  /** Every group with a parser in the range is among the calls. */
  predicate CallsAll(c: Config, evs: seq<Event>, lo: nat, hi: nat)
    requires hi <= |c.groups|
  {
    forall g :: lo <= g < hi && c.groups[g].hasParser ==> Called(evs, g)
  }

  lemma {:induction false} CalledCons(e: Event, evs: seq<Event>, g: nat)
    ensures Called([e] + evs, g) <==> e.group == g || Called(evs, g)
  {
    var s := [e] + evs;
    if e.group == g { assert s[0].group == g; }
    if Called(evs, g) { var i :| 0 <= i < |evs| && evs[i].group == g; assert s[i + 1].group == g; }
    if Called(s, g) && e.group != g { var i :| 0 <= i < |s| && s[i].group == g; assert evs[i - 1].group == g; }
  }

  lemma {:induction false} AscendingCons(c: Config, e: Event, rest: seq<Event>, key: Key, g: nat)
    requires g < |c.groups| && c.groups[g].hasParser && e.group == g && e.key == key && Ascending(c, rest, key, g + 1, |c.groups|)
    ensures Ascending(c, [e] + rest, key, g, |c.groups|)
    ensures CallsAll(c, rest, g + 1, |c.groups|) ==> CallsAll(c, [e] + rest, g, |c.groups|)
  {
    forall h | g <= h < |c.groups| && c.groups[h].hasParser && (h == g || Called(rest, h)) ensures Called([e] + rest, h) { CalledCons(e, rest, h); }
  }

  lemma {:induction false} DescendingCons(c: Config, e: Event, rest: seq<Event>, key: Key, g: nat)
    requires g < |c.groups| && c.groups[g].hasParser && e.group == g && e.key == key && Descending(c, rest, key, 0, g)
    ensures Descending(c, [e] + rest, key, 0, g + 1)
    ensures CallsAll(c, rest, 0, g) ==> CallsAll(c, [e] + rest, 0, g + 1)
  {
    forall h | 0 <= h < g + 1 && c.groups[h].hasParser && (h == g || Called(rest, h)) ensures Called([e] + rest, h) { CalledCons(e, rest, h); }
  }

  /** What one call adds to the trace, and what it leaves alone. */
  lemma {:induction false} OneCall(c: Config, st: State, g: nat, key: Key)
    requires g < |c.groups|
    ensures var (s, e) := GroupParse(c, st, g, key);
            && s.processed == st.processed && s.tryGetopt == st.tryGetopt && s.getopts == st.getopts
            && s.trace == st.trace + (if c.groups[g].hasParser then [Event(g, key, e, st.next, s.next, s.argc)] else [])
            && (!c.groups[g].hasParser ==> e == EBADKEY && s == st)
  {
  }

  lemma {:induction false} NoGroupsLeft(c: Config, st: State, key: Key, err: int, stop: bool, only: bool)
    requires ValidState(c, st)
    ensures Ascending(c, [], key, |c.groups|, |c.groups|) && CallsAll(c, [], |c.groups|, |c.groups|)
    ensures Descending(c, [], key, 0, 0) && CallsAll(c, [], 0, 0)
  {
  }

  lemma {:induction false} UpTrace(c: Config, st: State, key: Key, g: nat, err: int, stop: bool, only: bool) returns (evs: seq<Event>)
    requires ValidState(c, st) && g <= |c.groups|
    ensures var r := Up(c, st, key, g, err, stop, only);
            && r.0.trace == st.trace + evs && Ascending(c, evs, key, g, |c.groups|)
            && r.0.processed == st.processed
            && (!only && (!stop || Soft(r.1)) ==> CallsAll(c, evs, g, |c.groups|))
            && (only ==> forall i :: 0 <= i < |evs| ==> st.processed[evs[i].group] == 0)
    decreases |c.groups| - g
  {
    hide GroupParse, CallsAll;
    if g == |c.groups| || (stop && !Soft(err)) {
      evs := [];
      NoGroupsLeft(c, st, key, err, stop, only);
    } else if only && st.processed[g] != 0 {
      evs := UpTrace(c, st, key, g + 1, err, stop, only);
    } else {
      var (s, e) := GroupParse(c, st, g, key);
      OneCall(c, st, g, key);
      var rest := UpTrace(c, s, key, g + 1, e, stop, only);
      if c.groups[g].hasParser {
        evs := [Event(g, key, e, st.next, s.next, s.argc)] + rest;
        AscendingCons(c, evs[0], rest, key, g);
        assert s.trace + rest == st.trace + evs;
      } else {
        evs := rest;
        SkipGroup(c, evs, g);
      }
    }
  }

  lemma {:induction false} SkipGroup(c: Config, evs: seq<Event>, g: nat)
    requires g < |c.groups| && !c.groups[g].hasParser
    ensures CallsAll(c, evs, g + 1, |c.groups|) ==> CallsAll(c, evs, g, |c.groups|)
    ensures CallsAll(c, evs, 0, g) ==> CallsAll(c, evs, 0, g + 1)
  {
  }

  lemma {:induction false} DownTrace(c: Config, st: State, key: Key, g: nat, err: int, stop: bool) returns (evs: seq<Event>)
    requires ValidState(c, st) && g <= |c.groups|
    ensures var r := Down(c, st, key, g, err, stop);
            && r.0.trace == st.trace + evs && Descending(c, evs, key, 0, g)
            && r.0.processed == st.processed
            && (!stop || Soft(r.1) ==> CallsAll(c, evs, 0, g))
    decreases g
  {
    hide GroupParse, CallsAll;
    if g == 0 || (stop && !Soft(err)) {
      evs := [];
      NoGroupsLeft(c, st, key, err, stop, false);
    } else {
      var (s, e) := GroupParse(c, st, g - 1, key);
      OneCall(c, st, g - 1, key);
      var rest := DownTrace(c, s, key, g - 1, e, stop);
      if c.groups[g - 1].hasParser {
        evs := [Event(g - 1, key, e, st.next, s.next, s.argc)] + rest;
        DescendingCons(c, evs[0], rest, key, g - 1);
        assert s.trace + rest == st.trace + evs;
      } else {
        evs := rest;
        SkipGroup(c, evs, g - 1);
      }
    }
  }

  // ----- the parse loop only hands out options and arguments -----

  predicate Parsing(evs: seq<Event>) {
    forall i :: 0 <= i < |evs| ==> evs[i].key.Opt? || evs[i].key.Arg? || evs[i].key.Args?
  }

  // ----- what the trace says about positional arguments -----

  predicate Positional(e: Event) { e.key.Arg? || e.key.Args? }

  /** A parser that will not have the argument. */
  predicate Refusal(e: Event) { Positional(e) && e.err == EBADKEY }

  /** The first call about the argument that call i is about: groups are asked in turn until one does not refuse. */
  function RoundStart(tr: seq<Event>, i: nat): (j: nat)
    requires i < |tr|
    ensures j <= i
  {
    if i > 0 && Positional(tr[i]) && Refusal(tr[i - 1]) then RoundStart(tr, i - 1) else i
  }

  predicate Accepting(e: Event) { Positional(e) && e.err == 0 }

  /** Where the argument stands that call i is about: the first call was made with the argument already passed. */
  function From(tr: seq<Event>, i: nat): int
    requires i < |tr|
  {
    tr[RoundStart(tr, i)].at - 1
  }

  /** Where parsing goes on after call i accepts: where the parser left it, or behind all arguments. */
  function Upto(tr: seq<Event>, i: nat): int
    requires i < |tr|
  {
    if tr[i].key.Args? then tr[i].argc else tr[i].upto
  }

  /** The number of arguments that call i takes. */
  function TakenAt(tr: seq<Event>, i: nat): int
    requires i < |tr|
  {
    if Accepting(tr[i]) && Upto(tr, i) > From(tr, i) then Upto(tr, i) - From(tr, i) else 0
  }

  /** The arguments taken by one group, over a trace. */
  function TakenBy(tr: seq<Event>, g: nat): int {
    if tr == [] then 0 else
    var last := |tr| - 1;
    TakenBy(tr[..last], g) + if tr[last].group == g then TakenAt(tr, last) else 0
  }

  /** The arguments taken by anyone. */
  function Taken(tr: seq<Event>): int {
    if tr == [] then 0 else Taken(tr[..|tr| - 1]) + TakenAt(tr, |tr| - 1)
  }

  function Sum(s: seq<int>): int { if s == [] then 0 else Sum(s[..|s| - 1]) + s[|s| - 1] }

  /** Every group's count is what its accepting calls took. */
  ghost predicate Accounted(st: State) {
    && (forall g :: 0 <= g < |st.processed| ==> st.processed[g] == TakenBy(st.trace, g))
    && Sum(st.processed) == Taken(st.trace)
  }

  /** The next positional call will be about a new argument. */
  predicate NewRound(tr: seq<Event>) { tr == [] || !Refusal(tr[|tr| - 1]) }

  lemma {:induction false} TakenSnoc(tr: seq<Event>, e: Event, g: nat)
    ensures TakenBy(tr + [e], g) == TakenBy(tr, g) + if e.group == g then TakenAt(tr + [e], |tr|) else 0
    ensures Taken(tr + [e]) == Taken(tr) + TakenAt(tr + [e], |tr|)
  {
    assert (tr + [e])[..|tr|] == tr;
  }

  /** Calls that accept nothing take nothing. */
  lemma {:induction false} NothingTaken(tr: seq<Event>, evs: seq<Event>, g: nat)
    requires forall i :: 0 <= i < |evs| ==> !Accepting(evs[i])
    ensures TakenBy(tr + evs, g) == TakenBy(tr, g) && Taken(tr + evs) == Taken(tr)
    decreases |evs|
  {
    hide TakenBy, Taken;
    if evs == [] {
      assert tr + evs == tr;
    } else {
      var last := |evs| - 1;
      NothingTaken(tr, evs[..last], g);
      assert tr + evs == (tr + evs[..last]) + [evs[last]];
      TakenSnoc(tr + evs[..last], evs[last], g);
    }
  }

  lemma {:induction false} NothingAccounted(st: State, s: State, evs: seq<Event>)
    requires s.trace == st.trace + evs && s.processed == st.processed && forall i :: 0 <= i < |evs| ==> !Accepting(evs[i])
    ensures Accounted(st) ==> Accounted(s)
  {
    hide TakenBy, Taken, Sum;
    NothingTaken(st.trace, evs, 0);
    forall g: nat ensures TakenBy(s.trace, g) == TakenBy(st.trace, g) { NothingTaken(st.trace, evs, g); }
  }

  /** The calls about one argument: refusals, then at most one call that is not. */
  predicate OneRound(evs: seq<Event>) {
    && (forall i :: 0 <= i < |evs| ==> Positional(evs[i]))
    && (forall i :: 0 <= i < |evs| - 1 ==> Refusal(evs[i]))
  }

  lemma {:induction false} RoundStartIs(tr: seq<Event>, evs: seq<Event>, k: nat)
    requires NewRound(tr) && OneRound(evs) && k < |evs|
    ensures RoundStart(tr + evs, |tr| + k) == |tr|
  {
    var all := tr + evs;
    assert all[|tr| + k] == evs[k];
    if k > 0 {
      assert all[|tr| + k - 1] == evs[k - 1];
      RoundStartIs(tr, evs, k - 1);
    } else if tr != [] {
      assert all[|tr| - 1] == tr[|tr| - 1];
    }
  }

  /** What the calls about one argument say: who was asked first, and what the last one answered. */
  ghost predicate RoundSays(evs: seq<Event>, index: int, s: State, err: int, g: nat, key: Key) {
    && OneRound(evs)
    && (evs != [] ==> evs[0].key == Arg && evs[0].at == index + 1)
    && (err == EBADKEY ==> forall i :: 0 <= i < |evs| ==> Refusal(evs[i]))
    && (err != EBADKEY ==> evs != [] && g > 0 && evs[|evs| - 1] == Event(g - 1, key, err, evs[|evs| - 1].at, s.next, s.argc))
  }

  lemma {:induction false} RoundCons(first: seq<Event>, rest: seq<Event>, index: int, index': int, s: State, err: int, g: nat, key: Key)
    requires RoundSays(rest, index', s, err, g, key)
    requires forall i :: 0 <= i < |first| ==> Refusal(first[i])
    requires if first != [] then first[0].key == Arg && first[0].at == index + 1 else index == index'
    ensures RoundSays(first + rest, index, s, err, g, key)
  {
    assert rest != [] ==> (first + rest)[|first + rest| - 1] == rest[|rest| - 1];
  }

  /** One turn of the loop: the argument, then the rest of the arguments, offered to group g. */
  function Offer(c: Config, st: State, g: nat): (r: (State, int, Key))
    requires ValidState(c, st) && g < |c.groups|
    ensures ValidState(c, r.0)
  {
    var (s1, e1) := GroupParse(c, st.(next := st.next + 1), g, Arg);
    if e1 != EBADKEY then (s1, e1, Arg)
    else var (s2, e2) := GroupParse(c, s1.(next := s1.next - 1), g, Args); (s2, e2, Args)
  }

  lemma {:induction false} UnfoldArgLoop(c: Config, st: State, g: nat, key: Key)
    requires ValidState(c, st) && g < |c.groups|
    ensures var (s, e, k) := Offer(c, st, g);
            ArgLoop(c, st, g, EBADKEY, key) == ArgLoop(c, s, g + 1, e, k) && (e != EBADKEY ==> ArgLoop(c, s, g + 1, e, k) == (s, e, g + 1, k))
  {
    hide GroupParse;
  }

  /** The calls of one turn. */
  lemma {:induction false} OfferTrace(c: Config, st: State, g: nat) returns (evs: seq<Event>)
    requires ValidState(c, st) && g < |c.groups|
    ensures var (s, e, k) := Offer(c, st, g);
            && s.trace == st.trace + evs
            && s.processed == st.processed && s.tryGetopt == st.tryGetopt && s.getopts == st.getopts
            && (e != EBADKEY ==> RoundSays(evs, st.next, s, e, g + 1, k))
            && (e == EBADKEY ==> forall i :: 0 <= i < |evs| ==> Refusal(evs[i]))
            && if evs != [] then evs[0].key == Arg && evs[0].at == st.next + 1 else s.next == st.next
  {
    hide GroupParse, RoundSays;
    var st1 := st.(next := st.next + 1);
    var (s1, e1) := GroupParse(c, st1, g, Arg);
    OneCall(c, st1, g, Arg);
    if !c.groups[g].hasParser {
      evs := [];
      OneCall(c, st, g, Args);
    } else if e1 != EBADKEY {
      var e := Event(g, Arg, e1, st1.next, s1.next, s1.argc);
      evs := [e];
      LastCall(e, st.next, s1, g);
    } else {
      var st2 := s1.(next := s1.next - 1);
      var (s2, e2) := GroupParse(c, st2, g, Args);
      OneCall(c, st2, g, Args);
      var d, e := Event(g, Arg, e1, st1.next, s1.next, s1.argc), Event(g, Args, e2, st2.next, s2.next, s2.argc);
      evs := [d, e];
      if e2 != EBADKEY { LastTwo(d, e, st.next, s2, g); }
      assert st.trace + [d] + [e] == st.trace + evs;
    }
  }

  lemma {:induction false} ArgLoopTrace(c: Config, st: State, g: nat, key: Key) returns (evs: seq<Event>)
    requires ValidState(c, st) && g <= |c.groups|
    ensures var r := ArgLoop(c, st, g, EBADKEY, key);
            && r.0.trace == st.trace + evs
            && RoundSays(evs, st.next, r.0, r.1, r.2, r.3)
            && r.0.processed == st.processed && r.0.tryGetopt == st.tryGetopt && r.0.getopts == st.getopts
    decreases |c.groups| - g
  {
    if g == |c.groups| {
      evs := [];
      NoRound(st, g, key);
    } else {
      hide ArgLoop, Offer, RoundSays;
      var (s, e, k) := Offer(c, st, g);
      var turn := OfferTrace(c, st, g);
      UnfoldArgLoop(c, st, g, key);
      if e != EBADKEY {
        evs := turn;
      } else {
        var rest := ArgLoopTrace(c, s, g + 1, k);
        evs := turn + rest;
        TraceJoins(st.trace, turn, rest);
        var r := ArgLoop(c, s, g + 1, EBADKEY, k);
        RoundCons(turn, rest, st.next, s.next, r.0, r.1, r.2, r.3);
      }
    }
  }

  lemma {:induction false} TraceJoins(a: seq<Event>, b: seq<Event>, c: seq<Event>)
    ensures (a + b) + c == a + (b + c)
  {
  }

  lemma {:induction false} NoRound(s: State, g: nat, key: Key)
    ensures RoundSays([], s.next, s, EBADKEY, g, key)
  {
  }

  lemma {:induction false} LastCall(e: Event, index: int, s: State, g: nat)
    requires e == Event(g, Arg, e.err, index + 1, s.next, s.argc) && e.err != EBADKEY
    ensures RoundSays([e], index, s, e.err, g + 1, Arg)
  {
  }

  lemma {:induction false} LastTwo(d: Event, e: Event, index: int, s: State, g: nat)
    requires d.key == Arg && d.err == EBADKEY && d.at == index + 1
    requires e == Event(g, Args, e.err, e.at, s.next, s.argc) && e.err != EBADKEY
    ensures RoundSays([d, e], index, s, e.err, g + 1, Args)
  {
  }

  lemma {:induction false} SumUpdate(s: seq<int>, i: nat, v: int)
    requires i < |s|
    ensures Sum(s[i := v]) == Sum(s) - s[i] + v
  {
    var last := |s| - 1;
    if i < last {
      SumUpdate(s[..last], i, v);
      assert s[i := v][..last] == s[..last][i := v];
    } else {
      assert s[i := v][..last] == s[..last];
    }
  }

  /** The last call of a round takes what lies between the argument and where parsing goes on. */
  lemma {:induction false} RoundTakes(tr: seq<Event>, evs: seq<Event>, g: nat)
    requires NewRound(tr) && OneRound(evs) && evs != []
    ensures var last := evs[|evs| - 1];
            var upto := if last.key.Args? then last.argc else last.upto;
            var n := if Accepting(last) && upto > evs[0].at - 1 then upto - (evs[0].at - 1) else 0;
            TakenBy(tr + evs, g) == TakenBy(tr, g) + (if last.group == g then n else 0) && Taken(tr + evs) == Taken(tr) + n
  {
    hide TakenBy, Taken;
    var k := |evs| - 1;
    NothingTaken(tr, evs[..k], g);
    assert tr + evs == (tr + evs[..k]) + [evs[k]];
    TakenSnoc(tr + evs[..k], evs[k], g);
    RoundStartIs(tr, evs, k);
    assert (tr + evs)[|tr|] == evs[0] && (tr + evs)[|tr| + k] == evs[k];
  }

  /** parser_parse_arg accounts for what it does: the group that accepts is credited, with exactly what it took. */
  lemma {:induction false} ParseArgTrace(c: Config, st: State) returns (evs: seq<Event>)
    requires ValidState(c, st)
    ensures var r := ParseArg(c, st);
            && r.0.trace == st.trace + evs && OneRound(evs)
            && (evs != [] ==> evs[0].at == st.next)
            && (NewRound(st.trace) && Accounted(st) ==> Accounted(r.0))
            && (NewRound(st.trace) && r.1 == 0 ==> NewRound(r.0.trace))
  {
    hide ArgLoop, Accounted;
    var index := st.next - 1;
    var st1 := st.(next := index);
    var (s, e, g, k) := ArgLoop(c, st1, 0, EBADKEY, Arg);
    evs := ArgLoopTrace(c, st1, 0, Arg);
    if NewRound(st.trace) && Accounted(st) {
      AccountedRound(c, st, evs, s, e, g, k);
    }
  }

  lemma {:induction false} AccountedRound(c: Config, st: State, evs: seq<Event>, s: State, e: int, g: nat, k: Key)
    requires ValidState(c, st) && ValidState(c, s) && g <= |c.groups| && NewRound(st.trace) && Accounted(st)
    requires s.trace == st.trace + evs && s.processed == st.processed && RoundSays(evs, st.next - 1, s, e, g, k)
    ensures e != 0 ==> Accounted(s)
    ensures e == 0 ==> Accounted(Accept(c, s, g, k, st.next - 1))
  {
    hide TakenBy, Taken, Sum;
    if e != 0 {
      NothingAccounted(st, s, evs);
    } else {
      var r := Accept(c, s, g, k, st.next - 1);
      RoundTakes(st.trace, evs, 0);
      forall h | 0 <= h < |r.processed| ensures r.processed[h] == TakenBy(r.trace, h) { RoundTakes(st.trace, evs, h); }
      SumUpdate(s.processed, g - 1, r.processed[g - 1]);
      assert s.processed[g - 1 := s.processed[g - 1]] == s.processed;
    }
  }

  function CallEvent(c: Config, st: State, g: nat, key: Key): Event
    requires g < |c.groups|
  {
    var (s, e) := GroupParse(c, st, g, key);
    Event(g, key, e, st.next, s.next, s.argc)
  }

  lemma {:induction false} ParseOptTrace(c: Config, st: State, opt: int) returns (evs: seq<Event>)
    requires ValidState(c, st) && 0 <= DecodeGroup(opt) <= |c.groups|
    ensures var r := ParseOpt(c, st, opt);
            r.0.trace == st.trace + evs && |evs| <= 1 && (forall i :: 0 <= i < |evs| ==> evs[i].key.Opt?)
            && r.0.processed == st.processed && r.0.tryGetopt == st.tryGetopt && r.0.getopts == st.getopts
  {
    hide GroupParse, DecodeGroup, DecodeKey, Dispatch;
    evs := [];
    var g, k := DecodeGroup(opt) - 1, DecodeKey(opt);
    if DecodeGroup(opt) == 0 {
      match Dispatch(c.shorts, c.groups, opt)
      case None =>
      case Some(h) =>
        if h < |c.groups| {
          OneCall(c, st, h, Opt(opt));
          evs := if c.groups[h].hasParser then [CallEvent(c, st, h, Opt(opt))] else [];
        }
    } else {
      OneCall(c, st, g, Opt(k));
      evs := if c.groups[g].hasParser then [CallEvent(c, st, g, Opt(k))] else [];
    }
  }

  /** What a step of the parse loop keeps. */
  ghost predicate Balanced(st: State) { NewRound(st.trace) && Accounted(st) }

  lemma {:induction false} HandleTrace(c: Config, st: State, opt: int, ebad: bool) returns (evs: seq<Event>)
    requires ValidState(c, st) && (opt == KEY_ARG || 0 <= DecodeGroup(opt) <= |c.groups|)
    ensures var r := Handle(c, st, opt, ebad);
            r.0.trace == st.trace + evs && Parsing(evs) && (Balanced(st) ==> Accounted(r.0) && (r.1 == 0 ==> Balanced(r.0)))
  {
    hide ParseArg, ParseOpt, Accounted, DecodeGroup;
    if opt == KEY_ARG {
      evs := ParseArgTrace(c, st);
    } else {
      evs := ParseOptTrace(c, st, opt);
      NothingAccounted(st, ParseOpt(c, st, opt).0, evs);
    }
  }

  /** A round of the parse loop makes only option and argument calls, and afterwards every group's count is
      still what its accepting calls took. */
  lemma {:induction false} ParseNextTrace(c: Config, st: State, ebad: bool) returns (evs: seq<Event>)
    requires ValidConfig(c) && ValidState(c, st)
    ensures var r := ParseNext(c, st, ebad);
            r.0.trace == st.trace + evs && Parsing(evs) && (Balanced(st) ==> Accounted(r.0) && (r.1 == 0 ==> Balanced(r.0)))
  {
    hide Handle, Accounted, Parsing, DecodeGroup;
    evs := [];
    NoEvents();
    var s0 := if st.quoted != 0 && st.next < st.quoted then st.(quoted := 0) else st;
    AccountedSame(st, s0);
    if s0.tryGetopt && s0.quoted == 0 {
      var r := c.env.getopt(s0.getopts, s0.next, s0.argc);
      assert Nameable(c, r.opt);
      var s1 := s0.(getopts := s0.getopts + 1, next := r.optind);
      AccountedSame(st, s1);
      if r.opt == KEY_END {
        var s2 := s1.(tryGetopt := false, quoted := if s1.next > 1 && r.afterQuote then s1.next else s1.quoted);
        AccountedSame(st, s2);
        if !(s2.next >= s2.argc || s2.noArgs) {
          AccountedSame(st, s2.(next := s2.next + 1));
          evs := HandleTrace(c, s2.(next := s2.next + 1), KEY_ARG, ebad);
        }
      } else if !(r.opt == KEY_ERR && r.isError) {
        evs := HandleTrace(c, s1, r.opt, ebad);
      }
    } else if !(s0.next >= s0.argc || s0.noArgs) {
      AccountedSame(st, s0.(next := s0.next + 1));
      evs := HandleTrace(c, s0.(next := s0.next + 1), KEY_ARG, ebad);
    }
  }

  lemma {:induction false} NoEvents()
    ensures Parsing([])
  {
  }

  lemma {:induction false} AccountedSame(a: State, b: State)
    requires a.processed == b.processed && a.trace == b.trace
    ensures Accounted(a) <==> Accounted(b)
  {
  }

  // ----- whole runs -----

  /** The calls parser_finalize makes: no-argument calls, end calls, then success or error, then the last calls. */
  datatype Closing = Closing(noArgs: seq<Event>, ends: seq<Event>, verdict: seq<Event>, finis: seq<Event>)

  ghost predicate ClosingCalls(c: Config, st: State, err: int, k: Closing) {
    && Ascending(c, k.noArgs, NoArgs, 0, |c.groups|)
    && |st.processed| == |c.groups|
    && (forall i :: 0 <= i < |k.noArgs| ==> st.processed[k.noArgs[i].group] == 0)
    && Descending(c, k.ends, End, 0, |c.groups|)
    && (   (Ascending(c, k.verdict, Error, 0, |c.groups|) && CallsAll(c, k.verdict, 0, |c.groups|) && err != 0)
        || (Descending(c, k.verdict, Success, 0, |c.groups|) && (err == 0 ==> CallsAll(c, k.verdict, 0, |c.groups|))))
    && Descending(c, k.finis, Fini, 0, |c.groups|) && CallsAll(c, k.finis, 0, |c.groups|)
  }

  lemma {:induction false} CloseArgsTrace(c: Config, st: State) returns (ns: seq<Event>, es: seq<Event>)
    requires ValidState(c, st)
    ensures var r := CloseArgs(c, st);
            && r.0.trace == st.trace + ns + es && r.0.processed == st.processed
            && Ascending(c, ns, NoArgs, 0, |c.groups|) && Descending(c, es, End, 0, |c.groups|)
            && forall i :: 0 <= i < |ns| ==> st.processed[ns[i].group] == 0
  {
    hide Up, Down;
    ns, es := [], [];
    if st.next == st.argc {
      ns := UpTrace(c, st, NoArgs, 0, 0, true, true);
      var (s1, e1) := Up(c, st, NoArgs, 0, 0, true, true);
      es := DownTrace(c, s1, End, |c.groups|, e1, true);
    }
  }

  lemma {:induction false} FinalizeTrace(c: Config, st: State, err: int, ebad: bool) returns (k: Closing)
    requires ValidState(c, st)
    ensures var r := Finalize(c, st, err, ebad);
            && r.0.trace == st.trace + k.noArgs + k.ends + k.verdict + k.finis
            && ClosingCalls(c, st, r.1, k) && r.1 != EBADKEY
            && r.0.processed == st.processed
  {
    hide Up, Down, CloseArgs, Ascending, Descending, CallsAll;
    var direct := err != 0 && !(err == EBADKEY && ebad);
    var ns, es := [], [];
    var s1, e1 := st, err;
    if direct {
      EmptySweeps(c);
    } else {
      ns, es := CloseArgsTrace(c, st);
      s1, e1 := CloseArgs(c, st).0, CloseArgs(c, st).1;
    }
    var vs, s2;
    if e1 != 0 {
      vs := UpTrace(c, s1, Error, 0, 0, false, false);
      s2 := Up(c, s1, Error, 0, 0, false, false).0;
    } else {
      vs := DownTrace(c, s1, Success, |c.groups|, 0, true);
      s2 := Down(c, s1, Success, |c.groups|, 0, true).0;
    }
    var fs := DownTrace(c, s2, Fini, |c.groups|, 0, false);
    k := Closing(ns, es, vs, fs);
  }

  lemma {:induction false} EmptySweeps(c: Config)
    ensures Ascending(c, [], NoArgs, 0, |c.groups|) && Descending(c, [], End, 0, |c.groups|)
  {
  }

  lemma {:induction false} LoopTrace(c: Config, st: State, ebad: bool, limit: nat) returns (ps: seq<Event>, k: Closing)
    requires ValidConfig(c) && ValidState(c, st) && Loop(c, st, ebad, limit).Done?
    ensures var r := Loop(c, st, ebad, limit);
            && r.st.trace == st.trace + ps + k.noArgs + k.ends + k.verdict + k.finis
            && Parsing(ps) && ClosingCalls(c, r.st, r.err, k) && r.err != EBADKEY
            && (Balanced(st) ==> Accounted(r.st))
    decreases limit
  {
    hide ParseNext, Finalize, ClosingCalls, Accounted;
    var (s, e, b) := ParseNext(c, st, ebad);
    var evs := ParseNextTrace(c, st, ebad);
    if e == 0 {
      var rest;
      rest, k := LoopTrace(c, s, b, limit - 1);
      ps := evs + rest;
      assert s.trace + rest == st.trace + ps;
    } else {
      k := FinalizeTrace(c, s, e, b);
      ps := evs;
      var r := Loop(c, st, ebad, limit);
      SameClosing(c, s, r.st, r.err, k);
      var closing := k.noArgs + k.ends + k.verdict + k.finis;
      assert r.st.trace == s.trace + closing;
      ClosingTakesNothing(c, s, r.err, k);
      NothingAccounted(s, r.st, closing);
    }
  }

  lemma {:induction false} ClosingTakesNothing(c: Config, st: State, err: int, k: Closing)
    requires ClosingCalls(c, st, err, k)
    ensures var evs := k.noArgs + k.ends + k.verdict + k.finis; forall i :: 0 <= i < |evs| ==> !Accepting(evs[i])
  {
  }

  lemma {:induction false} SameClosing(c: Config, a: State, b: State, err: int, k: Closing)
    requires a.processed == b.processed && ClosingCalls(c, a, err, k)
    ensures ClosingCalls(c, b, err, k)
  {
  }

  /** Every run that ends calls the parsers in the promised order: each once for a start, then options and
      arguments, then the closing calls; an error goes to all groups or none; the unknown-key error never
      escapes; and every group's count of processed arguments is what its own accepting calls took. */
  lemma {:induction false} RunProtocol(c: Config, argc: int, noArgs: bool, limit: nat) returns (inits: seq<Event>, ps: seq<Event>, k: Closing)
    requires ValidConfig(c) && Run(c, argc, noArgs, limit).Done?
    ensures var r := Run(c, argc, noArgs, limit);
            && r.st.trace == inits + ps + k.noArgs + k.ends + k.verdict + k.finis
            && Ascending(c, inits, Init, 0, |c.groups|) && CallsAll(c, inits, 0, |c.groups|)
            && Parsing(ps) && ClosingCalls(c, r.st, r.err, k)
            && r.err != EBADKEY
            && Accounted(r.st)
  {
    hide Up, Loop, Ascending, CallsAll, ClosingCalls, Accounted;
    var st0 := Start(c, argc, noArgs);
    inits := UpTrace(c, st0, Init, 0, 0, true, false);
    var (st, err) := Up(c, st0, Init, 0, 0, true, false);
    ps, k := LoopTrace(c, st, false, limit);
    StartBalanced(c, argc, noArgs);
    InitsTakeNothing(c, inits);
    NothingAccounted(st0, st, inits);
    assert st0.trace + inits == inits;
  }

  lemma {:induction false} InitsTakeNothing(c: Config, inits: seq<Event>)
    requires Ascending(c, inits, Init, 0, |c.groups|)
    ensures (forall i :: 0 <= i < |inits| ==> !Accepting(inits[i])) && NewRound(inits)
  {
  }

  lemma {:induction false} SumZeros(n: nat)
    ensures Sum(seq(n, _ => 0)) == 0
  {
    if n > 0 {
      SumZeros(n - 1);
      assert seq(n, _ => 0)[..n - 1] == seq(n - 1, _ => 0);
    }
  }

  lemma {:induction false} StartBalanced(c: Config, argc: int, noArgs: bool)
    ensures Accounted(Start(c, argc, noArgs))
  {
    SumZeros(|c.groups|);
  }

  /** A refused run made only start calls: the last of them returned the hard error that is passed on, and no
      other did. */
  lemma {:induction false} RefusedRun(c: Config, argc: int, noArgs: bool, limit: nat) returns (inits: seq<Event>)
    requires ValidConfig(c) && Run(c, argc, noArgs, limit).Refused?
    ensures var r := Run(c, argc, noArgs, limit);
            && r.st.trace == inits && Ascending(c, inits, Init, 0, |c.groups|)
            && inits != [] && inits[|inits| - 1].err == r.err && !Soft(r.err)
            && forall i :: 0 <= i < |inits| - 1 ==> Soft(inits[i].err)
  {
    hide Up, Ascending;
    var st0 := Start(c, argc, noArgs);
    inits := UpTrace(c, st0, Init, 0, 0, true, false);
    UpStops(c, st0, Init, 0, 0);
    assert st0.trace + inits == inits;
  }

  /** A sweep that stops at errors makes no call after a hard one. */
  lemma {:induction false} UpStops(c: Config, st: State, key: Key, g: nat, err: int)
    requires ValidState(c, st) && g <= |c.groups|
    ensures var (s, e) := Up(c, st, key, g, err, true, false);
            && st.trace <= s.trace
            && (forall i :: |st.trace| <= i < |s.trace| - 1 ==> Soft(s.trace[i].err))
            && (Soft(err) && !Soft(e) ==> |s.trace| > |st.trace| && s.trace[|s.trace| - 1].err == e)
            && (!Soft(err) ==> s == st)
    decreases |c.groups| - g
  {
    hide GroupParse;
    if g < |c.groups| && Soft(err) {
      var (s1, e1) := GroupParse(c, st, g, key);
      OneCall(c, st, g, key);
      UpStops(c, s1, key, g + 1, e1);
    }
  }

  // ----- the order in which one group is called -----

  /** The place of a key in a group's life. */
  function Rank(k: Key): nat {
    match k
    case Init => 0
    case Opt(_) => 1
    case Arg => 1
    case Args => 1
    case NoArgs => 2
    case End => 3
    case Success => 4
    case Error => 4
    case Fini => 5
  }

  /** Calls come in order of rank, and a group gets each rank but that of options and arguments at most once. */
  predicate Ordered(tr: seq<Event>) {
    forall i, j :: 0 <= i < j < |tr| ==>
      && Rank(tr[i].key) <= Rank(tr[j].key)
      && (tr[i].group == tr[j].group && Rank(tr[i].key) == Rank(tr[j].key) ==> Rank(tr[i].key) == 1)
  }

  predicate RanksIn(tr: seq<Event>, lo: nat, hi: nat) { forall i :: 0 <= i < |tr| ==> lo <= Rank(tr[i].key) <= hi }

  lemma {:induction false} JoinOrdered(a: seq<Event>, b: seq<Event>, m: nat, n: nat)
    requires Ordered(a) && Ordered(b) && RanksIn(a, 0, m) && RanksIn(b, m + 1, n) && m < n
    ensures Ordered(a + b) && RanksIn(a + b, 0, n)
  {
    hide Rank;
    forall i, j | 0 <= i < j < |a + b|
      ensures Rank((a + b)[i].key) <= Rank((a + b)[j].key)
      ensures (a + b)[i].group == (a + b)[j].group && Rank((a + b)[i].key) == Rank((a + b)[j].key) ==> Rank((a + b)[i].key) == 1
    {
      if j < |a| { assert (a + b)[i] == a[i] && (a + b)[j] == a[j]; }
      else if i < |a| { assert (a + b)[i] == a[i] && (a + b)[j] == b[j - |a|]; }
      else { assert (a + b)[i] == b[i - |a|] && (a + b)[j] == b[j - |a|]; }
    }
  }

  lemma {:induction false} SweepOrdered(c: Config, evs: seq<Event>, key: Key)
    ensures Ascending(c, evs, key, 0, |c.groups|) ==> Ordered(evs) && RanksIn(evs, Rank(key), Rank(key))
    ensures Descending(c, evs, key, 0, |c.groups|) ==> Ordered(evs) && RanksIn(evs, Rank(key), Rank(key))
  {
    hide Rank;
  }

  lemma {:induction false} ParsingOrdered(evs: seq<Event>)
    requires Parsing(evs)
    ensures Ordered(evs) && RanksIn(evs, 1, 1)
  {
  }

  /** In every run that ends, each group with a parser sees the start once, then options and arguments, then at
      most one no-argument call, at most one end call, at most one of success and error, and last the final
      call, once. */
  lemma {:induction false} RunOrder(c: Config, argc: int, noArgs: bool, limit: nat)
    requires ValidConfig(c) && Run(c, argc, noArgs, limit).Done?
    ensures Ordered(Run(c, argc, noArgs, limit).st.trace)
    ensures forall g :: 0 <= g < |c.groups| && c.groups[g].hasParser ==>
              && CalledWith(Run(c, argc, noArgs, limit).st.trace, g, Init)
              && CalledWith(Run(c, argc, noArgs, limit).st.trace, g, Fini)
    ensures (forall g :: 0 <= g < |c.groups| && c.groups[g].hasParser ==> CalledWith(Run(c, argc, noArgs, limit).st.trace, g, Error))
         || (forall g :: !CalledWith(Run(c, argc, noArgs, limit).st.trace, g, Error))
  {
    hide Run, Ordered, RanksIn, Rank, Parsing, CallsAll, Ascending, Descending, Accounted;
    var tr := Run(c, argc, noArgs, limit).st.trace;
    var inits, ps, k := RunProtocol(c, argc, noArgs, limit);
    RankValues();
    SweepOrdered(c, inits, Init);
    ParsingOrdered(ps);
    SweepOrdered(c, k.noArgs, NoArgs);
    SweepOrdered(c, k.ends, End);
    SweepOrdered(c, k.verdict, Error);
    SweepOrdered(c, k.verdict, Success);
    SweepOrdered(c, k.finis, Fini);
    JoinOrdered(inits, ps, 0, 1);
    JoinOrdered(inits + ps, k.noArgs, 1, 2);
    JoinOrdered(inits + ps + k.noArgs, k.ends, 2, 3);
    JoinOrdered(inits + ps + k.noArgs + k.ends, k.verdict, 3, 4);
    JoinOrdered(inits + ps + k.noArgs + k.ends + k.verdict, k.finis, 4, 5);
    var before := inits + ps + k.noArgs + k.ends;
    forall g | 0 <= g < |c.groups| && c.groups[g].hasParser ensures CalledWith(tr, g, Init) && CalledWith(tr, g, Fini) {
      CalledInPart(c, [], inits, ps + k.noArgs + k.ends + k.verdict + k.finis, tr, g, Init);
      CalledInPart(c, before + k.verdict, k.finis, [], tr, g, Fini);
    }
    if Ascending(c, k.verdict, Error, 0, |c.groups|) && CallsAll(c, k.verdict, 0, |c.groups|) {
      forall g | 0 <= g < |c.groups| && c.groups[g].hasParser ensures CalledWith(tr, g, Error) {
        CalledInPart(c, before, k.verdict, k.finis, tr, g, Error);
      }
    } else {
      NoErrorCalls(c, inits, ps, k, tr);
    }
  }

  predicate CalledWith(tr: seq<Event>, g: nat, key: Key) { exists i :: 0 <= i < |tr| && tr[i].group == g && tr[i].key == key }

  lemma {:induction false} RankValues()
    ensures Rank(Init) == 0 && Rank(NoArgs) == 2 && Rank(End) == 3 && Rank(Success) == Rank(Error) == 4 && Rank(Fini) == 5
  {
  }

  lemma {:induction false} CalledInPart(c: Config, a: seq<Event>, b: seq<Event>, d: seq<Event>, tr: seq<Event>, g: nat, key: Key)
    requires tr == a + b + d && g < |c.groups| && c.groups[g].hasParser && CallsAll(c, b, 0, |c.groups|)
    requires Ascending(c, b, key, 0, |c.groups|) || Descending(c, b, key, 0, |c.groups|)
    ensures CalledWith(tr, g, key)
  {
    assert Called(b, g);
    var i :| 0 <= i < |b| && b[i].group == g;
    assert tr[|a| + i] == b[i];
  }

  lemma {:induction false} NoErrorCalls(c: Config, inits: seq<Event>, ps: seq<Event>, k: Closing, tr: seq<Event>)
    requires tr == inits + ps + k.noArgs + k.ends + k.verdict + k.finis
    requires Ascending(c, inits, Init, 0, |c.groups|) && Parsing(ps) && Ascending(c, k.noArgs, NoArgs, 0, |c.groups|)
    requires Descending(c, k.ends, End, 0, |c.groups|) && Descending(c, k.verdict, Success, 0, |c.groups|)
    requires Descending(c, k.finis, Fini, 0, |c.groups|)
    ensures forall i :: 0 <= i < |tr| ==> tr[i].key != Error
  {
    KeyOf(inits, ps);
    KeyOf(inits + ps, k.noArgs);
    KeyOf(inits + ps + k.noArgs, k.ends);
    KeyOf(inits + ps + k.noArgs + k.ends, k.verdict);
    KeyOf(inits + ps + k.noArgs + k.ends + k.verdict, k.finis);
  }

  lemma {:induction false} KeyOf(a: seq<Event>, b: seq<Event>)
    ensures (forall i :: 0 <= i < |a| ==> a[i].key != Error) && (forall i :: 0 <= i < |b| ==> b[i].key != Error)
        ==> forall i :: 0 <= i < |a + b| ==> (a + b)[i].key != Error
  {
  }

  // ----- what a run returns -----

  /** The error of a run: a parser's hard error is passed on, an unknown option or leftover arguments nobody
      asked for give EINVAL, and leftover arguments are otherwise reported back. */
  lemma {:induction false} FinalizeResult(c: Config, st: State, err: int, ebad: bool)
    requires ValidState(c, st) && err != 0
    ensures var r := Finalize(c, st, err, ebad);
            && (err != EBADKEY ==> r.1 == err && r.2 == None)
            && (err == EBADKEY && !ebad ==> r.1 == EINVAL && r.2 == None)
            && (err == EBADKEY && ebad && st.next != st.argc && !c.hasEnd ==> r.1 == EINVAL && r.2 == None)
            && (err == EBADKEY && ebad && st.next != st.argc && c.hasEnd ==> r.2 == Some(st.next))
  {
    hide Up, Down;
  }
}
