/** How a parsing run closes: which calls parser_finalize makes, when, and what comes back from them. */
module ParseClosing {
  import opened Options
  import opened ArgpTree
  import opened ParserTables
  import opened ParserDispatch
  import opened ParseRun

  // ----- the calls of a run with a given key -----

  /** The events of a trace with the given key, in order. */
  function With(tr: seq<Event>, key: Key): seq<Event> {
    if tr == [] then [] else
    With(tr[..|tr| - 1], key) + if tr[|tr| - 1].key == key then [tr[|tr| - 1]] else []
  }

  lemma {:induction false} WithAppend(a: seq<Event>, b: seq<Event>, key: Key)
    ensures With(a + b, key) == With(a, key) + With(b, key)
    decreases |b|
  {
    if b == [] {
      assert a + b == a;
    } else {
      assert (a + b)[..|a + b| - 1] == a + b[..|b| - 1];
      WithAppend(a, b[..|b| - 1], key);
    }
  }

  lemma {:induction false} WithAll(evs: seq<Event>, key: Key)
    requires forall i :: 0 <= i < |evs| ==> evs[i].key == key
    ensures With(evs, key) == evs
  {
    if evs != [] { WithAll(evs[..|evs| - 1], key); }
  }

  lemma {:induction false} WithNone(evs: seq<Event>, key: Key)
    requires forall i :: 0 <= i < |evs| ==> evs[i].key != key
    ensures With(evs, key) == []
  {
    if evs != [] { WithNone(evs[..|evs| - 1], key); }
  }

  // ----- sweeps that a hard error ends -----

  predicate AllSoft(evs: seq<Event>) { forall i :: 0 <= i < |evs| ==> Soft(evs[i].err) }

  /** Only the last call may return a hard error. */
  predicate EndsAtHard(evs: seq<Event>) { forall i :: 0 <= i < |evs| - 1 ==> Soft(evs[i].err) }

  /** The hard error that ended a sweep, or none. */
  function HardOf(evs: seq<Event>): int { if AllSoft(evs) || evs == [] then 0 else evs[|evs| - 1].err }

  /** Where the next argument is after some calls. */
  function NextAfter(evs: seq<Event>, next: int): int { if evs == [] then next else evs[|evs| - 1].upto }

  /** What a sweep over the groups leaves behind. */
  ghost predicate Swept(evs: seq<Event>, st: State, s: State, err: int) {
    && s.trace == st.trace + evs && s.processed == st.processed && s.next == NextAfter(evs, st.next)
    && EndsAtHard(evs) && Normal(err) == HardOf(evs)
  }

  lemma {:induction false} NoneSwept(st: State, err: int)
    requires Soft(err)
    ensures Swept([], st, st, err)
  {
    assert st.trace + [] == st.trace;
  }

  lemma {:induction false} SweptCons(e: Event, rest: seq<Event>, st: State, s1: State, s: State, err: int)
    requires s1.trace == st.trace + [e] && s1.processed == st.processed && s1.next == e.upto
    requires if Soft(e.err) then Swept(rest, s1, s, err) else rest == [] && s == s1 && err == e.err
    ensures Swept([e] + rest, st, s, err)
  {
    assert s.trace == st.trace + ([e] + rest);
    var evs := [e] + rest;
    assert forall i :: 1 <= i < |evs| ==> evs[i] == rest[i - 1];
    if Soft(e.err) {
      SoftJoin([e], rest);
    } else {
      assert evs[0] == e;
    }
  }

  /** A group the sweep is for: it has a parser and, for the calls about no arguments, has processed none. */
  predicate Meant(c: Config, processed: seq<int>, only: bool, g: nat)
    requires |processed| == |c.groups|
  {
    g < |c.groups| && c.groups[g].hasParser && (only ==> processed[g] == 0)
  }

  /** Unless a hard error ended it, the sweep called exactly the groups it is for. */
  ghost predicate CallsMeant(c: Config, evs: seq<Event>, processed: seq<int>, only: bool, lo: nat, hi: nat)
    requires |processed| == |c.groups|
  {
    && (forall i :: 0 <= i < |evs| ==> Meant(c, processed, only, evs[i].group))
    && (AllSoft(evs) ==> forall g :: lo <= g < hi && Meant(c, processed, only, g) ==> Called(evs, g))
  }

  lemma {:induction false} MeantCons(c: Config, e: Event, rest: seq<Event>, processed: seq<int>, only: bool, lo: nat, hi: nat, lo': nat, hi': nat)
    requires |processed| == |c.groups| && CallsMeant(c, rest, processed, only, lo, hi) && Meant(c, processed, only, e.group)
    requires (lo' == lo && hi' == hi + 1 && e.group == hi) || (lo' + 1 == lo && hi' == hi && e.group == lo')
    ensures CallsMeant(c, [e] + rest, processed, only, lo', hi')
  {
    hide Meant, Called;
    var evs := [e] + rest;
    assert forall i :: 1 <= i < |evs| ==> evs[i] == rest[i - 1];
    if AllSoft(evs) {
      assert AllSoft(rest) by { assert forall i :: 0 <= i < |rest| ==> rest[i] == evs[i + 1]; }
      forall g | lo' <= g < hi' && Meant(c, processed, only, g) ensures Called(evs, g) { CalledCons(e, rest, g); }
    }
  }

  lemma {:induction false} MeantSkip(c: Config, evs: seq<Event>, processed: seq<int>, only: bool, lo: nat, hi: nat, lo': nat, hi': nat, h: nat)
    requires |processed| == |c.groups| && CallsMeant(c, evs, processed, only, lo, hi) && !Meant(c, processed, only, h)
    requires (lo' == lo && hi' == hi + 1 && h == hi) || (lo' + 1 == lo && hi' == hi && h == lo')
    ensures CallsMeant(c, evs, processed, only, lo', hi')
  {
    hide Meant, Called;
  }

  lemma {:induction false} MeantNone(c: Config, processed: seq<int>, only: bool, lo: nat)
    requires |processed| == |c.groups|
    ensures CallsMeant(c, [], processed, only, lo, lo)
  {
  }

  lemma {:induction false} MeantStops(c: Config, e: Event, processed: seq<int>, only: bool, lo: nat, hi: nat)
    requires |processed| == |c.groups| && Meant(c, processed, only, e.group) && !Soft(e.err)
    ensures CallsMeant(c, [e], processed, only, lo, hi)
  {
    assert !AllSoft([e]) by { assert [e][0] == e; }
  }

  lemma {:induction false} UpSweep(c: Config, st: State, key: Key, g: nat, err: int, only: bool) returns (evs: seq<Event>)
    requires ValidState(c, st) && g <= |c.groups| && Soft(err)
    ensures var r := Up(c, st, key, g, err, true, only);
            Swept(evs, st, r.0, r.1) && Ascending(c, evs, key, g, |c.groups|) && CallsMeant(c, evs, st.processed, only, g, |c.groups|)
    decreases |c.groups| - g
  {
    hide GroupParse, Swept, CallsMeant, Ascending, Normal;
    if g == |c.groups| {
      evs := [];
      NoneSwept(st, err);
      NoGroupsLeft(c, st, key, err, true, only);
      MeantNone(c, st.processed, only, g);
    } else if only && st.processed[g] != 0 {
      evs := UpSweep(c, st, key, g + 1, err, only);
      MeantSkip(c, evs, st.processed, only, g + 1, |c.groups|, g, |c.groups|, g);
      AscendingWider(c, evs, key, g);
    } else {
      var (s, e) := GroupParse(c, st, g, key);
      OneCall(c, st, g, key);
      if !c.groups[g].hasParser {
        evs := UpSweep(c, s, key, g + 1, e, only);
        MeantSkip(c, evs, st.processed, only, g + 1, |c.groups|, g, |c.groups|, g);
        AscendingWider(c, evs, key, g);
      } else {
        var call := Event(g, key, e, st.next, s.next, s.argc);
        var rest := [];
        if Soft(e) {
          rest := UpSweep(c, s, key, g + 1, e, only);
          MeantCons(c, call, rest, st.processed, only, g + 1, |c.groups|, g, |c.groups|);
        } else {
          UpHard(c, s, key, g + 1, e, only);
          NoneAscending(c, key, g + 1);
          MeantStops(c, call, st.processed, only, g, |c.groups|);
          assert [call] + [] == [call];
        }
        evs := [call] + rest;
        AscendingCons(c, call, rest, key, g);
        var r := Up(c, st, key, g, err, true, only);
        SweptCons(call, rest, st, s, r.0, r.1);
      }
    }
  }

  lemma {:induction false} UpHard(c: Config, st: State, key: Key, g: nat, err: int, only: bool)
    requires ValidState(c, st) && g <= |c.groups| && !Soft(err)
    ensures Up(c, st, key, g, err, true, only) == (st, err)
  {
  }

  lemma {:induction false} NoneAscending(c: Config, key: Key, g: nat)
    requires g <= |c.groups|
    ensures Ascending(c, [], key, g, |c.groups|) && Descending(c, [], key, 0, g)
  {
  }

  lemma {:induction false} AscendingWider(c: Config, evs: seq<Event>, key: Key, g: nat)
    requires g < |c.groups| && Ascending(c, evs, key, g + 1, |c.groups|)
    ensures Ascending(c, evs, key, g, |c.groups|)
  {
  }

  lemma {:induction false} DescendingWider(c: Config, evs: seq<Event>, key: Key, g: nat)
    requires g < |c.groups| && Descending(c, evs, key, 0, g)
    ensures Descending(c, evs, key, 0, g + 1)
  {
  }

  lemma {:induction false} DownSweep(c: Config, st: State, key: Key, g: nat, err: int) returns (evs: seq<Event>)
    requires ValidState(c, st) && g <= |c.groups| && Soft(err)
    ensures var r := Down(c, st, key, g, err, true);
            Swept(evs, st, r.0, r.1) && Descending(c, evs, key, 0, g) && CallsMeant(c, evs, st.processed, false, 0, g)
    decreases g
  {
    hide GroupParse, Swept, CallsMeant, Descending, Normal;
    if g == 0 {
      evs := [];
      NoneSwept(st, err);
      NoGroupsLeft(c, st, key, err, true, false);
      MeantNone(c, st.processed, false, g);
    } else {
      var (s, e) := GroupParse(c, st, g - 1, key);
      OneCall(c, st, g - 1, key);
      if !c.groups[g - 1].hasParser {
        evs := DownSweep(c, s, key, g - 1, e);
        MeantSkip(c, evs, st.processed, false, 0, g - 1, 0, g, g - 1);
        DescendingWider(c, evs, key, g - 1);
      } else {
        var call := Event(g - 1, key, e, st.next, s.next, s.argc);
        var rest := [];
        if Soft(e) {
          rest := DownSweep(c, s, key, g - 1, e);
          MeantCons(c, call, rest, st.processed, false, 0, g - 1, 0, g);
        } else {
          DownHard(c, s, key, g - 1, e);
          NoneAscending(c, key, g - 1);
          MeantStops(c, call, st.processed, false, 0, g);
          assert [call] + [] == [call];
        }
        evs := [call] + rest;
        DescendingCons(c, call, rest, key, g - 1);
        var r := Down(c, st, key, g, err, true);
        SweptCons(call, rest, st, s, r.0, r.1);
      }
    }
  }

  lemma {:induction false} DownHard(c: Config, st: State, key: Key, g: nat, err: int)
    requires ValidState(c, st) && g <= |c.groups| && !Soft(err)
    ensures Down(c, st, key, g, err, true) == (st, err)
  {
  }

  // ----- parser_finalize -----

  /** The parse loop stopped because everything is parsed: only for want of an argument, and none is left. */
  predicate AllParsed(s: State, err: int, ebad: bool) { err == EBADKEY && ebad && s.next == s.argc }

  /** The parse loop stopped with arguments left that are handed back to the caller. */
  predicate HandedBack(c: Config, s: State, err: int, ebad: bool) { err == EBADKEY && ebad && s.next != s.argc && c.hasEnd }

  /** The calls about no arguments and the end calls: only when everything is parsed, the end calls only unless a
      hard error came before them, each sweep to all it is for unless a hard error ends it. */
  ghost predicate LastCalls(c: Config, s: State, err: int, ebad: bool, ns: seq<Event>, es: seq<Event>)
    requires ValidState(c, s)
  {
    && (!AllParsed(s, err, ebad) ==> ns == [] && es == [])
    && (AllParsed(s, err, ebad) ==>
         && Ascending(c, ns, NoArgs, 0, |c.groups|) && EndsAtHard(ns) && CallsMeant(c, ns, s.processed, true, 0, |c.groups|)
         && if AllSoft(ns) then Descending(c, es, End, 0, |c.groups|) && EndsAtHard(es) && CallsMeant(c, es, s.processed, false, 0, |c.groups|)
            else es == [])
  }

  /** Whether the run fails, given how the loop stopped and the last calls. */
  predicate Fails(c: Config, s: State, err: int, ebad: bool, ns: seq<Event>, es: seq<Event>) {
    !AllSoft(ns + es) || !(AllParsed(s, err, ebad) || HandedBack(c, s, err, ebad))
  }

  /** A failed run tells every parser of the error, and no parser of success. A run that does not fail tells the
      parsers of success, from the last, up to one that returns a hard error. */
  ghost predicate Verdict(c: Config, s: State, failed: bool, xs: seq<Event>, vs: seq<Event>)
    requires ValidState(c, s)
  {
    if failed then vs == [] && Ascending(c, xs, Error, 0, |c.groups|) && CallsAll(c, xs, 0, |c.groups|)
    else xs == [] && Descending(c, vs, Success, 0, |c.groups|) && EndsAtHard(vs) && CallsMeant(c, vs, s.processed, false, 0, |c.groups|)
  }

  /** The error a run returns: the hard error of a closing call if there is one, else that of the parse loop, an
      unknown option or leftover arguments being EINVAL. */
  function ResultOf(c: Config, s: State, err: int, ebad: bool, ns: seq<Event>, es: seq<Event>, vs: seq<Event>): int {
    if !AllSoft(ns) then HardOf(ns) else if !AllSoft(es) then HardOf(es)
    else if AllParsed(s, err, ebad) || HandedBack(c, s, err, ebad) then HardOf(vs)
    else if err == EBADKEY then EINVAL else err
  }

  /** The index handed back: of the first argument nobody parsed, or where the last calls left it. */
  function EndOf(c: Config, s: State, err: int, ebad: bool, ns: seq<Event>, es: seq<Event>): Option<int> {
    if c.hasEnd && err == EBADKEY && ebad then Some(NextAfter(ns + es, s.next)) else None
  }

  ghost predicate Closed(c: Config, s: State, err: int, ebad: bool, k: Closing, xs: seq<Event>, vs: seq<Event>)
    requires ValidState(c, s)
  {
    && LastCalls(c, s, err, ebad, k.noArgs, k.ends)
    && Verdict(c, s, Fails(c, s, err, ebad, k.noArgs, k.ends), xs, vs) && k.verdict == xs + vs
    && Descending(c, k.finis, Fini, 0, |c.groups|) && CallsAll(c, k.finis, 0, |c.groups|)
  }

  lemma {:induction false} SoftJoin(a: seq<Event>, b: seq<Event>)
    ensures AllSoft(a + b) <==> AllSoft(a) && AllSoft(b)
  {
    var s := a + b;
    if AllSoft(s) {
      assert forall i :: 0 <= i < |a| ==> a[i] == s[i];
      assert forall i :: 0 <= i < |b| ==> b[i] == s[|a| + i];
    }
  }

  lemma {:induction false} HardIs(evs: seq<Event>)
    requires EndsAtHard(evs)
    ensures (HardOf(evs) == 0 <==> AllSoft(evs)) && HardOf(evs) != EBADKEY
  {
    if !AllSoft(evs) {
      var i :| 0 <= i < |evs| && !Soft(evs[i].err);
      assert i == |evs| - 1;
    }
  }

  /** The two sweeps over parsers when all arguments are parsed. */
  lemma {:induction false} CloseArgsCalls(c: Config, st: State) returns (ns: seq<Event>, es: seq<Event>)
    requires ValidState(c, st) && st.next == st.argc
    ensures var r := CloseArgs(c, st);
            && LastCalls(c, st, EBADKEY, true, ns, es)
            && r.0.trace == st.trace + ns + es && r.0.processed == st.processed
            && r.1 == (if AllSoft(ns) then HardOf(es) else HardOf(ns))
            && r.2 == if c.hasEnd then Some(NextAfter(ns + es, st.next)) else None
  {
    hide Up, Down, CallsMeant, Ascending, Descending, AllSoft;
    ns := UpSweep(c, st, NoArgs, 0, 0, true);
    HardIs(ns);
    var (s1, e1) := Up(c, st, NoArgs, 0, 0, true, true);
    if AllSoft(ns) {
      es := DownSweep(c, s1, End, |c.groups|, e1);
    } else {
      es := [];
      DownHard(c, s1, End, |c.groups|, e1);
    }
  }

  lemma {:induction false} FinalizeCalls(c: Config, st: State, err: int, ebad: bool) returns (k: Closing, xs: seq<Event>, vs: seq<Event>)
    requires ValidState(c, st) && err != 0
    ensures var r := Finalize(c, st, err, ebad);
            && r.0.trace == st.trace + k.noArgs + k.ends + k.verdict + k.finis && Closed(c, st, err, ebad, k, xs, vs)
            && r.1 == ResultOf(c, st, err, ebad, k.noArgs, k.ends, vs) && r.2 == EndOf(c, st, err, ebad, k.noArgs, k.ends)
  {
    hide Up, Down, Ascending, Descending, CallsAll, CallsMeant, AllSoft, CloseArgs, EndsAtHard, HardOf;
    var ns, es := [], [];
    var s1, e1 := st, err;
    NoneSoft();
    if err == EBADKEY && ebad {
      s1, e1 := CloseArgs(c, st).0, CloseArgs(c, st).1;
      if st.next == st.argc {
        ns, es := CloseArgsCalls(c, st);
      } else {
        LeftOver(c, st);
      }
    }
    SoftJoin(ns, es);
    LastHard(c, st, err, ebad, ns, es);
    assert e1 != 0 <==> Fails(c, st, err, ebad, ns, es);
    xs, vs := [], [];
    var s2;
    if e1 != 0 {
      xs := UpTrace(c, s1, Error, 0, 0, false, false);
      s2 := Up(c, s1, Error, 0, 0, false, false).0;
    } else {
      vs := DownSweep(c, s1, Success, |c.groups|, 0);
      s2 := Down(c, s1, Success, |c.groups|, 0, true).0;
      HardIs(vs);
    }
    var fs := DownTrace(c, s2, Fini, |c.groups|, 0, false);
    k := Closing(ns, es, xs + vs, fs);
    assert xs + vs == if e1 != 0 then xs else vs;
  }

  lemma {:induction false} NoneSoft()
    ensures AllSoft([]) && EndsAtHard([]) && HardOf([]) == 0
  {
  }

  lemma {:induction false} LeftOver(c: Config, st: State)
    requires ValidState(c, st) && st.next != st.argc
    ensures CloseArgs(c, st) == (st, if c.hasEnd then 0 else EBADKEY, if c.hasEnd then Some(st.next) else None)
  {
  }

  lemma {:induction false} LastHard(c: Config, s: State, err: int, ebad: bool, ns: seq<Event>, es: seq<Event>)
    requires ValidState(c, s) && LastCalls(c, s, err, ebad, ns, es)
    ensures (HardOf(ns) == 0 <==> AllSoft(ns)) && HardOf(ns) != EBADKEY && (HardOf(es) == 0 <==> AllSoft(es)) && HardOf(es) != EBADKEY
  {
    hide HardOf, AllSoft, EndsAtHard, Ascending, Descending, CallsMeant;
    NoneSoft();
    if AllParsed(s, err, ebad) {
      HardIs(ns);
      if AllSoft(ns) { HardIs(es); }
    }
  }

  // ----- whole runs -----

  /** Where the parse loop stops: the state, the error, and whether the error is for want of an argument only. */
  ghost function Stop(c: Config, st: State, ebad: bool, limit: nat): (r: (State, int, bool))
    requires ValidConfig(c) && ValidState(c, st) && Loop(c, st, ebad, limit).Done?
    ensures ValidState(c, r.0) && r.1 != 0
    decreases limit
  {
    var (s, e, b) := ParseNext(c, st, ebad);
    if e == 0 then Stop(c, s, b, limit - 1) else (s, e, b)
  }

  ghost function RunStop(c: Config, argc: int, noArgs: bool, limit: nat): (r: (State, int, bool))
    requires ValidConfig(c) && Run(c, argc, noArgs, limit).Done?
    ensures ValidState(c, r.0) && r.1 != 0
  {
    Stop(c, Up(c, Start(c, argc, noArgs), Init, 0, 0, true, false).0, false, limit)
  }

  lemma {:induction false} LoopFromStop(c: Config, st: State, ebad: bool, limit: nat) returns (ps: seq<Event>)
    requires ValidConfig(c) && ValidState(c, st) && Loop(c, st, ebad, limit).Done?
    ensures var r, (s, e, b) := Loop(c, st, ebad, limit), Stop(c, st, ebad, limit);
            && (r.st, r.err, r.end) == Finalize(c, s, e, b)
            && s.trace == st.trace + ps && Parsing(ps)
    decreases limit
  {
    hide ParseNext, Finalize;
    var (s, e, b) := ParseNext(c, st, ebad);
    var evs := ParseNextTrace(c, st, ebad);
    if e == 0 {
      var rest := LoopFromStop(c, s, b, limit - 1);
      ps := evs + rest;
      TraceJoins(st.trace, evs, rest);
    } else {
      ps := evs;
    }
  }

  /** The calls before parser_finalize have other keys. */
  predicate Earlier(evs: seq<Event>) { forall i :: 0 <= i < |evs| ==> Rank(evs[i].key) <= 1 }

  lemma {:induction false} RunFromStop(c: Config, argc: int, noArgs: bool, limit: nat)
    requires ValidConfig(c) && Run(c, argc, noArgs, limit).Done?
    ensures var r, (s, e, b) := Run(c, argc, noArgs, limit), RunStop(c, argc, noArgs, limit);
            (r.st, r.err, r.end) == Finalize(c, s, e, b) && Earlier(s.trace)
  {
    hide Up, Loop, Finalize, Stop;
    var st0 := Start(c, argc, noArgs);
    var inits := UpTrace(c, st0, Init, 0, 0, true, false);
    var st := Up(c, st0, Init, 0, 0, true, false).0;
    var ps := LoopFromStop(c, st, false, limit);
    assert RunStop(c, argc, noArgs, limit).0.trace == inits + ps;
  }

  lemma {:induction false} ClosingKeys(c: Config, st: State, err: int, ebad: bool, k: Closing, xs: seq<Event>, vs: seq<Event>, tr: seq<Event>)
    requires ValidState(c, st) && Closed(c, st, err, ebad, k, xs, vs) && Earlier(st.trace)
    requires tr == st.trace + k.noArgs + k.ends + k.verdict + k.finis
    ensures With(tr, NoArgs) == k.noArgs && With(tr, End) == k.ends && With(tr, Error) == xs && With(tr, Success) == vs && With(tr, Fini) == k.finis
  {
    ClosedKeys(c, st, err, ebad, k, xs, vs);
    hide *;
    VerdictParts(st.trace + k.noArgs + k.ends, xs, vs, k.finis);
    Phases(tr, st.trace, k.noArgs, k.ends, xs, vs, k.finis);
  }

  lemma {:induction false} Phases(tr: seq<Event>, a: seq<Event>, ns: seq<Event>, es: seq<Event>, xs: seq<Event>, vs: seq<Event>, fs: seq<Event>)
    requires tr == a + ns + es + xs + vs + fs
    requires Earlier(a) && AllKey(ns, NoArgs) && AllKey(es, End) && AllKey(xs, Error) && AllKey(vs, Success) && AllKey(fs, Fini)
    ensures With(tr, NoArgs) == ns && With(tr, End) == es && With(tr, Error) == xs && With(tr, Success) == vs && With(tr, Fini) == fs
  {
    RankValues();
    hide *;
    KeyedPart(a, ns, es, xs, vs, fs, NoArgs);
    KeyedPart(a, ns, es, xs, vs, fs, End);
    KeyedPart(a, ns, es, xs, vs, fs, Error);
    KeyedPart(a, ns, es, xs, vs, fs, Success);
    KeyedPart(a, ns, es, xs, vs, fs, Fini);
  }

  lemma {:induction false} VerdictParts(a: seq<Event>, xs: seq<Event>, vs: seq<Event>, fs: seq<Event>)
    ensures a + (xs + vs) + fs == a + xs + vs + fs
  {
  }

  lemma {:induction false} ClosedKeys(c: Config, st: State, err: int, ebad: bool, k: Closing, xs: seq<Event>, vs: seq<Event>)
    requires ValidState(c, st) && Closed(c, st, err, ebad, k, xs, vs)
    ensures AllKey(k.noArgs, NoArgs) && AllKey(k.ends, End) && AllKey(xs, Error) && AllKey(vs, Success) && AllKey(k.finis, Fini) && k.verdict == xs + vs
  {
    hide CallsMeant, CallsAll, AllSoft, EndsAtHard, Fails;
  }

  predicate AllKey(evs: seq<Event>, key: Key) { forall i :: 0 <= i < |evs| ==> evs[i].key == key }

  lemma {:induction false} PartOf(evs: seq<Event>, own: Key, key: Key)
    requires AllKey(evs, own)
    ensures With(evs, key) == if own == key then evs else []
  {
    if own == key { WithAll(evs, key); } else { WithNone(evs, key); }
  }

  lemma {:induction false} KeyedPart(a: seq<Event>, ns: seq<Event>, es: seq<Event>, xs: seq<Event>, vs: seq<Event>, fs: seq<Event>, key: Key)
    requires Earlier(a) && AllKey(ns, NoArgs) && AllKey(es, End) && AllKey(xs, Error) && AllKey(vs, Success) && AllKey(fs, Fini) && Rank(key) > 1
    ensures With(a + ns + es + xs + vs + fs, key)
         == if key == NoArgs then ns else if key == End then es else if key == Error then xs else if key == Success then vs else fs
  {
    hide With;
    assert forall i :: 0 <= i < |a| ==> a[i].key != key;
    WithNone(a, key);
    PartOf(ns, NoArgs, key);
    PartOf(es, End, key);
    PartOf(xs, Error, key);
    PartOf(vs, Success, key);
    PartOf(fs, Fini, key);
    WithAppend(a + ns + es + xs + vs, fs, key);
    WithAppend(a + ns + es + xs, vs, key);
    WithAppend(a + ns + es, xs, key);
    WithAppend(a + ns, es, key);
    WithAppend(a, ns, key);
    assert key == NoArgs || key == End || key == Error || key == Success || key == Fini;
  }

  /** Every run that ends, by its calls. When everything is parsed, the calls about no arguments go to all groups that
      processed none, and after them the end calls to all groups, unless a hard error stops them; in any other case
      there are none of either. The run fails on a hard error from these calls, from the parse loop, for an unknown
      option, or for arguments that cannot be handed back: then every parser is told of the error, and otherwise of
      success. The error returned is the first of those, and the index that of the first argument left over. */
  lemma {:induction false} RunCloses(c: Config, argc: int, noArgs: bool, limit: nat)
    requires ValidConfig(c) && Run(c, argc, noArgs, limit).Done?
    ensures var r, (s, e, b) := Run(c, argc, noArgs, limit), RunStop(c, argc, noArgs, limit);
            var ns, es, vs := With(r.st.trace, NoArgs), With(r.st.trace, End), With(r.st.trace, Success);
            && LastCalls(c, s, e, b, ns, es) && Verdict(c, s, Fails(c, s, e, b, ns, es), With(r.st.trace, Error), vs)
            && r.err == ResultOf(c, s, e, b, ns, es, vs) && r.end == EndOf(c, s, e, b, ns, es)
  {
    hide Run, RunStop, Finalize, LastCalls, Verdict, Fails, ResultOf, EndOf, With, Earlier;
    var r := Run(c, argc, noArgs, limit);
    var (s, e, b) := RunStop(c, argc, noArgs, limit);
    RunFromStop(c, argc, noArgs, limit);
    var k, xs, vs := FinalizeCalls(c, s, e, b);
    ClosingKeys(c, s, e, b, k, xs, vs, r.st.trace);
  }

  /** The same from any point of a run on. */
  lemma {:induction false} LoopCloses(c: Config, st: State, ebad: bool, limit: nat)
    requires ValidConfig(c) && ValidState(c, st) && Earlier(st.trace) && Loop(c, st, ebad, limit).Done?
    ensures var r, (s, e, b) := Loop(c, st, ebad, limit), Stop(c, st, ebad, limit);
            var ns, es, vs := With(r.st.trace, NoArgs), With(r.st.trace, End), With(r.st.trace, Success);
            && LastCalls(c, s, e, b, ns, es) && Verdict(c, s, Fails(c, s, e, b, ns, es), With(r.st.trace, Error), vs)
            && r.err == ResultOf(c, s, e, b, ns, es, vs) && r.end == EndOf(c, s, e, b, ns, es)
  {
    hide Loop, Stop, Finalize, LastCalls, Verdict, Fails, ResultOf, EndOf, With, Rank;
    var r := Loop(c, st, ebad, limit);
    var (s, e, b) := Stop(c, st, ebad, limit);
    var ps := LoopFromStop(c, st, ebad, limit);
    ParsingEarlier(ps);
    var k, xs, vs := FinalizeCalls(c, s, e, b);
    ClosingKeys(c, s, e, b, k, xs, vs, r.st.trace);
  }

  lemma {:induction false} ParsingEarlier(ps: seq<Event>)
    requires Parsing(ps)
    ensures Earlier(ps)
  {
  }

  /** In particular, when everything is parsed and no parser objects, every parser sees the end and success, those of
      groups without arguments also that there were none, and the run succeeds. */
  lemma {:induction false} QuietRunSucceeds(c: Config, argc: int, noArgs: bool, limit: nat)
    requires ValidConfig(c) && Run(c, argc, noArgs, limit).Done?
    requires var r, (s, e, b) := Run(c, argc, noArgs, limit), RunStop(c, argc, noArgs, limit);
             AllParsed(s, e, b) && AllSoft(With(r.st.trace, NoArgs)) && AllSoft(With(r.st.trace, End)) && AllSoft(With(r.st.trace, Success))
    ensures var r, s := Run(c, argc, noArgs, limit), RunStop(c, argc, noArgs, limit).0;
            && r.err == 0 && With(r.st.trace, Error) == []
            && forall g :: 0 <= g < |c.groups| && c.groups[g].hasParser ==>
                 && Called(With(r.st.trace, End), g) && Called(With(r.st.trace, Success), g)
                 && (s.processed[g] == 0 <==> Called(With(r.st.trace, NoArgs), g))
  {
    hide Run, RunStop, With, Ascending, Descending, AllSoft;
    RunCloses(c, argc, noArgs, limit);
    var tr, s := Run(c, argc, noArgs, limit).st.trace, RunStop(c, argc, noArgs, limit).0;
    var ns, es, vs := With(tr, NoArgs), With(tr, End), With(tr, Success);
    SoftJoin(ns, es);
    forall g | 0 <= g < |c.groups| && c.groups[g].hasParser
      ensures Called(es, g) && Called(vs, g) && (s.processed[g] == 0 <==> Called(ns, g))
    {
      assert Meant(c, s.processed, false, g);
      assert s.processed[g] == 0 ==> Meant(c, s.processed, true, g);
    }
  }

  // ----- options nobody knows -----

  /** getopt is asked in this round, as the position stands outside any quoted region. */
  predicate AsksGetopt(st: State) { st.tryGetopt && (st.quoted == 0 || st.next < st.quoted) }

  /** An option getopt does not know fails the run at once: no parser is called in that round, nor for want of
      arguments, the end or success; all are told of the error, which is EINVAL. */
  lemma {:induction false} UnknownOptionFails(c: Config, st: State, ebad: bool, limit: nat)
    requires ValidConfig(c) && ValidState(c, st) && Earlier(st.trace) && limit > 0 && AsksGetopt(st)
    requires var r := c.env.getopt(st.getopts, st.next, st.argc); r.opt == KEY_ERR && r.isError
    ensures var r := Loop(c, st, ebad, limit);
            && r.Done? && r.err == EINVAL && r.end == None
            && With(r.st.trace, NoArgs) == [] && With(r.st.trace, End) == [] && With(r.st.trace, Success) == []
            && CallsAll(c, With(r.st.trace, Error), 0, |c.groups|)
  {
    hide Finalize, With, Ascending, Descending, CallsAll, AllSoft;
    var reply := c.env.getopt(st.getopts, st.next, st.argc);
    var (s, e, b) := ParseNext(c, st, ebad);
    assert s.trace == st.trace && e == EBADKEY && !b && ValidState(c, s);
    var k, xs, vs := FinalizeCalls(c, s, e, b);
    ClosingKeys(c, s, e, b, k, xs, vs, Finalize(c, s, e, b).0.trace);
    NoneSoft();
  }
}
