/** What the pass means for whole runs: runs with admitted targets are unchanged, a refused target halts, and no
    call goes to a target that neither the masks nor a table admit. */
module CallMeaning {
  import opened Options
  import opened TableSearch
  import opened CallIr
  import opened CallRewrite
  import opened CallPass
  import opened CallInstrument

  /** The call the state is about to make, if any. */
  predicate AtCall(f: Fn, st: State) {
    st.At? && st.block in f.blocks && st.index < |f.blocks[st.block].instrs| && f.blocks[st.block].instrs[st.index].Call?
  }

  function GuardAt(env: Env, f: Fn, pol: map<nat, Kind>, st: State): Option<Word>
    requires AtCall(f, st)
  {
    var call := f.blocks[st.block].instrs[st.index];
    Guard(env, KindOf(pol, call.site), Eval(env, st.m.regs, call.callee))
  }

  function TargetAt(env: Env, f: Fn, st: State): Word
    requires AtCall(f, st)
  {
    Eval(env, st.m.regs, f.blocks[st.block].instrs[st.index].callee)
  }

  /** In the next n steps of the program as written, every target is one its check lets through unchanged. */
  predicate Admitted(env: Env, f: Fn, pol: map<nat, Kind>, st: State, n: nat)
    decreases n
  {
    n == 0 || ((AtCall(f, st) ==> GuardAt(env, f, pol, st) == Some(TargetAt(env, f, st))) && Admitted(env, f, pol, Step(env, f, map[], st), n - 1))
  }

  lemma {:induction false} AdmittedStep(env: Env, f: Fn, pol: map<nat, Kind>, st: State)
    requires AtCall(f, st) ==> GuardAt(env, f, pol, st) == Some(TargetAt(env, f, st))
    ensures Step(env, f, pol, st) == Step(env, f, map[], st)
  {
    hide Eval, Vals, Jump, CallTo, Masked, OrWord, AndWord, EqWord, Admits, Set, Kept;
  }

  lemma {:induction false} AdmittedSame(env: Env, f: Fn, pol: map<nat, Kind>, st: State, n: nat)
    requires Admitted(env, f, pol, st, n)
    ensures Run(env, f, pol, st, n) == Run(env, f, map[], st, n)
    decreases n
  {
    hide Step, GuardAt, TargetAt;
    if n > 0 {
      AdmittedStep(env, f, pol, st);
      AdmittedSame(env, f, pol, Step(env, f, map[], st), n - 1);
    }
  }

  /** A run that uses only admitted targets is seen unchanged in the rewritten function. */
  lemma {:induction false} AdmittedRunsUnchanged(env: Env, f: Fn, pol: map<nat, Kind>, g: Fn, m: Machine, n: nat)
    requires Simulates(env, f, pol, g, map[]) && Admitted(env, f, pol, At(f.entry, 0, m), n)
    ensures exists k: nat :: k >= n && Seen(Run(env, g, map[], At(g.entry, 0, m), k)) == Seen(Run(env, f, map[], At(f.entry, 0, m), n))
  {
    hide Run, Seen, Admitted;
    AdmittedSame(env, f, pol, At(f.entry, 0, m), n);
    assert SeenIn(env, f, pol, g, map[], m, n);
  }

  lemma {:induction false} RefusedStep(env: Env, f: Fn, pol: map<nat, Kind>, st: State)
    requires AtCall(f, st) && GuardAt(env, f, pol, st) == None
    ensures Step(env, f, pol, st) == Stopped(st.m.trace + [Trap])
  {
    hide Eval, Vals, Jump, CallTo, Masked, Admits, Set, Kept;
  }

  /** The first target that a check refuses ends the rewritten function there, after the same events. */
  lemma {:induction false} RefusedTargetHalts(env: Env, f: Fn, pol: map<nat, Kind>, g: Fn, m: Machine, n: nat)
    requires Simulates(env, f, pol, g, map[]) && Admitted(env, f, pol, At(f.entry, 0, m), n)
    requires var st := Run(env, f, map[], At(f.entry, 0, m), n);
             AtCall(f, st) && GuardAt(env, f, pol, st) == None
    ensures exists k: nat :: Run(env, g, map[], At(g.entry, 0, m), k) == Stopped(Run(env, f, map[], At(f.entry, 0, m), n).m.trace + [Trap])
  {
    hide Step, Admitted, GuardAt, Simulates;
    var start := At(f.entry, 0, m);
    AdmittedSame(env, f, pol, start, n);
    var st := Run(env, f, pol, start, n);
    RefusedStep(env, f, pol, st);
    RunAdd(env, f, pol, start, n, 1);
    assert Run(env, f, pol, st, 1) == Step(env, f, pol, st);
    SeenAt(env, f, pol, g, map[], m, n + 1);
  }

  // ----- what each check lets through -----

  /** A call checked by masks and table goes to its own target, if the masks keep it or the table has it, and
      nowhere otherwise. */
  lemma {:induction false} DiamondGuard(env: Env, t: Word, entries: seq<Word>)
    requires Table(env.tables(0), entries) && entries != []
    ensures Guard(env, Diamond, t) == if Fits(env.orVal, env.andVal, t) || t in entries then Some(t) else None
  {
    hide Kept, Fits, Admits, Table;
    KeptIff(env.orVal, env.andVal, t);
    AdmitsIffEntry(env.tables(0), entries, t);
  }

  lemma {:induction false} TableGuard(env: Env, table: nat, t: Word, entries: seq<Word>)
    requires Table(env.tables(table), entries) && entries != []
    ensures Guard(env, Always(table), t) == if t in entries then Some(t) else None
  {
    hide Admits, Table;
    AdmitsIffEntry(env.tables(table), entries, t);
  }

  /** A masked call always goes somewhere the masks keep: to its own target exactly when that fits them. */
  lemma {:induction false} MaskGuard(env: Env, t: Word)
    ensures var g := Guard(env, Mask, t);
            g.Some? && Kept(env.orAddr, env.andAddr, g.value) && (g.value == t <==> Fits(env.orAddr, env.andAddr, t))
  {
    MaskedIsKept(env.orAddr, env.andAddr, t);
    KeptIff(env.orAddr, env.andAddr, t);
    hide Masked, Fits;
  }

  // ----- no other target is ever called -----

  /** The target is one that a check of this kind lets through. */
  predicate Passes(env: Env, kind: Kind, t: Word) {
    match kind
    case Untouched => true
    case Mask => Kept(env.orAddr, env.andAddr, t)
    case Diamond => Kept(env.orVal, env.andVal, t) || Admits(env.tables(0), t)
    case Always(table) => Admits(env.tables(table), t)
  }

  /** The target is one that some check among those used lets through. */
  ghost predicate PassesOne(env: Env, used: Kind -> bool, t: Word) { exists kind :: used(kind) && Passes(env, kind, t) }

  ghost predicate CallsPass(env: Env, used: Kind -> bool, trace: seq<Event>) {
    forall i :: 0 <= i < |trace| && trace[i].Called? ==> PassesOne(env, used, trace[i].target)
  }

  /** A function before the pass: the policy gives every indirect call a check among those used. */
  ghost predicate AllChecked(f: Fn, pol: map<nat, Kind>, used: Kind -> bool) {
    forall l: nat, k: nat :: l in f.blocks && k < |f.blocks[l].instrs| ==>
      var ins := f.blocks[l].instrs[k];
      !ins.TableCall? && (ins.Call? ==> used(KindOf(pol, ins.site)))
  }

  function Trace(st: State): seq<Event> { if st.At? then st.m.trace else st.trace }

  lemma {:induction false} GuardPasses(env: Env, kind: Kind, t: Word)
    requires Guard(env, kind, t).Some?
    ensures Passes(env, kind, Guard(env, kind, t).value)
  {
    hide Kept, Masked, Admits;
    MaskedIsKept(env.orAddr, env.andAddr, t);
  }

  lemma {:induction false} StepPasses(env: Env, f: Fn, pol: map<nat, Kind>, used: Kind -> bool, st: State)
    requires AllChecked(f, pol, used) && CallsPass(env, used, Trace(st))
    ensures CallsPass(env, used, Trace(Step(env, f, pol, st)))
  {
    hide Passes, Eval, Vals, PhiRegs, Guard, Masked, OrWord, AndWord, EqWord, Admits, Set;
    if AtCall(f, st) && GuardAt(env, f, pol, st).Some? {
      var call := f.blocks[st.block].instrs[st.index];
      GuardPasses(env, KindOf(pol, call.site), TargetAt(env, f, st));
      assert PassesOne(env, used, GuardAt(env, f, pol, st).value);
    }
    hide PassesOne;
  }

  lemma {:induction false} RunPasses(env: Env, f: Fn, pol: map<nat, Kind>, used: Kind -> bool, st: State, n: nat)
    requires AllChecked(f, pol, used) && CallsPass(env, used, Trace(st))
    ensures CallsPass(env, used, Trace(Run(env, f, pol, st, n)))
    decreases n
  {
    hide Step, AllChecked, CallsPass;
    if n > 0 {
      StepPasses(env, f, pol, used, st);
      RunPasses(env, f, pol, used, Step(env, f, pol, st), n - 1);
    }
  }

  lemma {:induction false} StepGrows(env: Env, f: Fn, pol: map<nat, Kind>, st: State)
    ensures Trace(st) <= Trace(Step(env, f, pol, st))
  {
    hide Exec, Eval, PhiRegs;
    if st.At? && st.block in f.blocks && st.index < |f.blocks[st.block].instrs| {
      ExecGrows(env, pol, f.blocks[st.block].instrs[st.index], st.m);
    }
  }

  lemma {:induction false} ExecGrows(env: Env, pol: map<nat, Kind>, ins: Instr, m: Machine)
    ensures var e := Exec(env, pol, ins, m); m.trace <= if e.Go? then e.m.trace else e.trace
  {
    hide Eval, Vals, Guard, Masked, OrWord, AndWord, EqWord, Admits, Set;
  }

  lemma {:induction false} RunGrows(env: Env, f: Fn, pol: map<nat, Kind>, st: State, n: nat)
    ensures Trace(st) <= Trace(Run(env, f, pol, st, n))
    decreases n
  {
    hide Step;
    if n > 0 {
      StepGrows(env, f, pol, st);
      RunGrows(env, f, pol, Step(env, f, pol, st), n - 1);
    }
  }

  /** In every run of a function rewritten with the given checks, every indirect call made went to a target that one
      of them lets through. */
  lemma {:induction false} OnlyCheckedCalls(env: Env, f: Fn, pol: map<nat, Kind>, used: Kind -> bool, g: Fn, m: Machine, n: nat)
    requires Simulates(env, f, pol, g, map[]) && AllChecked(f, pol, used) && m.trace == []
    ensures CallsPass(env, used, Trace(Run(env, g, map[], At(g.entry, 0, m), n)))
  {
    hide Run, PassesOne, AllChecked;
    assert SeenIn(env, f, pol, g, map[], m, n);
    var k: nat :| k >= n && Seen(Run(env, f, pol, At(f.entry, 0, m), n)) == Seen(Run(env, g, map[], At(g.entry, 0, m), k));
    RunPasses(env, f, pol, used, At(f.entry, 0, m), n);
    RunAdd(env, g, map[], At(g.entry, 0, m), n, k - n);
    var early := Run(env, g, map[], At(g.entry, 0, m), n);
    RunGrows(env, g, map[], early, k - n);
    assert Trace(early) <= Trace(Run(env, g, map[], At(g.entry, 0, m), k));
    assert forall i :: 0 <= i < |Trace(early)| ==> Trace(early)[i] == Trace(Run(env, g, map[], At(g.entry, 0, m), k))[i];
  }

  // ----- what the pass decides -----

  /** The function g is f after the pass, and f had no calls of tables before. */
  ghost predicate AfterPass(env: Env, c: Context, f: Fn, sites: seq<nat>, g: Fn) {
    && (forall s :: s in sites <==> HasCall(f, s))
    && (forall l: nat, k: nat :: l in f.blocks && k < |f.blocks[l].instrs| ==> !f.blocks[l].instrs[k].TableCall?)
    && Simulates(env, f, Policy(c, sites), g, map[])
  }

  lemma {:induction false} PassChecks(env: Env, c: Context, f: Fn, sites: seq<nat>, used: Kind -> bool, g: Fn, m: Machine, n: nat)
    requires AfterPass(env, c, f, sites, g) && (forall s :: used(KindFor(c, s))) && m.trace == []
    ensures CallsPass(env, used, Trace(Run(env, g, map[], At(g.entry, 0, m), n)))
  {
    hide Simulates, CallsPass, Run, KindFor;
    forall l: nat, k: nat | l in f.blocks && k < |f.blocks[l].instrs|
      ensures f.blocks[l].instrs[k].Call? ==> used(KindOf(Policy(c, sites), f.blocks[l].instrs[k].site))
    {
      if f.blocks[l].instrs[k].Call? {
        var s := f.blocks[l].instrs[k].site;
        assert CallAt(f, s, l, k);
      }
    }
    OnlyCheckedCalls(env, f, Policy(c, sites), used, g, m, n);
  }

  /** Some check lets the target through. */
  ghost predicate Allowed(env: Env, t: Word) {
    Kept(env.orAddr, env.andAddr, t) || Kept(env.orVal, env.andVal, t) || exists table: nat :: Admits(env.tables(table), t)
  }

  /** Every indirect call that some run has made by step n went to a target with this property. */
  ghost predicate CallsOnly(env: Env, g: Fn, ok: Word -> bool, m: Machine, n: nat) {
    var trace := Trace(Run(env, g, map[], At(g.entry, 0, m), n));
    forall i :: 0 <= i < |trace| && trace[i].Called? ==> ok(trace[i].target)
  }

  // ----- which functions, by their names -----

  predicate StandsAt(s: string, part: string, i: nat) { i + |part| <= |s| && s[i..i + |part|] == part }

  /** The text occurs somewhere in s. */
  predicate Occurs(s: string, part: string) { exists i: nat :: i <= |s| && StandsAt(s, part, i) }

  /** The pass gets as far as the calls of this function: not in a speed test, under LOADER only in the file of
      _dl_call_fini, and not in two functions that run too early. */
  predicate PassReaches(c: Context) {
    && !Occurs(c.moduleId, "speedtest") && (!c.loader || Occurs(c.sourceFile, "dl-call_fini"))
    && c.name != "__getrandom_early_init" && c.name != "main_init_once"
  }

  /** The table of the functions that always use one. */
  function TableNumber(c: Context): Option<nat> {
    if |c.name| >= 21 && StandsAt(c.name, "__nptl_deallocate_tsd", |c.name| - 21) then Some(3)
    else if c.name == "_dl_call_fini" && c.loader then Some(2)
    else if c.name in {"__run_exit_handlers", "__libc_start_main_impl", "__libc_start_call_main", "__GI___backtrace",
                       "backtrace_helper", "start_thread", "__cxa_finalize"} then Some(0)
    else None
  }

  /** The target of the call is read from a global that holds callbacks. */
  predicate FromCallbackGlobal(c: Context, site: nat) {
    c.origin(site) == 0 && c.global(site).Some? && c.global(site).value in c.globalNames
  }

  lemma {:induction false} ContainsOccurs(s: string, part: string)
    ensures Contains(s, part) <==> Occurs(s, part)
  {
    if i :| 0 <= i <= |s| - |part| && s[i..][..|part|] == part { assert s[i..i + |part|] == s[i..][..|part|] && StandsAt(s, part, i); }
    if i: nat :| i <= |s| && StandsAt(s, part, i) { assert s[i..][..|part|] == s[i..i + |part|]; }
  }

  lemma {:induction false} SkipsIs(c: Context)
    ensures Skips(c) <==> !PassReaches(c)
  {
    hide Contains, Occurs;
    ContainsOccurs(c.moduleId, "speedtest");
    ContainsOccurs(c.sourceFile, "dl-call_fini");
  }

  lemma {:induction false} EndsIs(name: string)
    ensures EndsWith(name, "__nptl_deallocate_tsd") <==> |name| >= 21 && StandsAt(name, "__nptl_deallocate_tsd", |name| - 21)
  {
    if |name| >= 21 { assert name[|name| - 21..] == name[|name| - 21..|name| - 21 + 21]; }
  }

  lemma {:induction false} TableKind(c: Context, site: nat)
    requires PassReaches(c)
    ensures match TableNumber(c)
            case Some(k) => KindFor(c, site) == Always(k)
            case None => !KindFor(c, site).Always?
  {
    hide Skips, EndsWith, PassReaches, StandsAt;
    SkipsIs(c);
    EndsIs(c.name);
  }

  lemma {:induction false} OtherKind(c: Context, site: nat)
    requires PassReaches(c) && TableNumber(c).None?
    ensures c.origin(site) == 2 ==> KindFor(c, site) == Untouched
    ensures c.origin(site) != 2 && (c.callbackMaybe || c.origin(site) == 1 || FromCallbackGlobal(c, site)) ==> KindFor(c, site) == Diamond
    ensures c.origin(site) == 0 && !c.callbackMaybe && !FromCallbackGlobal(c, site) ==> KindFor(c, site) == Mask
  {
    TableKind(c, site);
    SkipsIs(c);
    hide Skips, EndsWith, PassReaches, TableNumber;
  }

  lemma {:induction false} SkippedKind(c: Context, site: nat)
    requires !PassReaches(c)
    ensures KindFor(c, site) == Untouched
  {
    hide PassReaches, Skips;
    SkipsIs(c);
  }

  // ----- what the calls of a function can reach -----

  /** Wherever the pass gets to, and no target belongs to the dynamic linker or the function has a table of its own,
      the rewritten function calls only targets that the masks keep or a table admits. */
  lemma {:induction false} PassConfinesCalls(env: Env, c: Context, f: Fn, sites: seq<nat>, g: Fn, m: Machine, n: nat)
    requires PassReaches(c) && (TableNumber(c).Some? || forall s :: 0 <= c.origin(s) <= 1) && AfterPass(env, c, f, sites, g) && m.trace == []
    ensures forall i :: var trace := Trace(Run(env, g, map[], At(g.entry, 0, m), n));
                        0 <= i < |trace| && trace[i].Called? ==> Allowed(env, trace[i].target)
  {
    hide AfterPass, Run, KindFor, PassReaches, TableNumber, Kept, Admits, FromCallbackGlobal;
    var used := kind => kind != Untouched;
    forall s ensures used(KindFor(c, s)) {
      TableKind(c, s);
      if TableNumber(c).None? { OtherKind(c, s); }
    }
    PassChecks(env, c, f, sites, used, g, m, n);
  }

  /** In every run of one of the listed functions of the C library, every indirect call goes to an entry of that
      function's own table, whatever the annotations and origins say. */
  lemma {:induction false} ListedFunctionsUseTheirTable(env: Env, c: Context, f: Fn, sites: seq<nat>, g: Fn, table: nat, entries: seq<Word>, m: Machine, n: nat)
    requires PassReaches(c) && TableNumber(c) == Some(table) && AfterPass(env, c, f, sites, g) && m.trace == []
    requires Table(env.tables(table), entries) && entries != []
    ensures CallsOnly(env, g, t => t in entries, m, n)
  {
    hide AfterPass, Run, PassReaches, TableNumber, Admits, Table, KindFor;
    var used := kind => kind == Always(table);
    forall s ensures used(KindFor(c, s)) { TableKind(c, s); }
    PassChecks(env, c, f, sites, used, g, m, n);
    forall t ensures Admits(env.tables(table), t) <==> t in entries { AdmitsIffEntry(env.tables(table), entries, t); }
  }

  /** Under LOADER, in the file of _dl_call_fini, every indirect call of that function goes to an entry of the table of
      finalizers. */
  lemma {:induction false} LoaderFinalizersUseTheirTable(env: Env, c: Context, f: Fn, sites: seq<nat>, g: Fn, entries: seq<Word>, m: Machine, n: nat)
    requires c.loader && Occurs(c.sourceFile, "dl-call_fini") && c.name == "_dl_call_fini" && !Occurs(c.moduleId, "speedtest")
    requires AfterPass(env, c, f, sites, g) && m.trace == [] && Table(env.tables(2), entries) && entries != []
    ensures CallsOnly(env, g, t => t in entries, m, n)
  {
    hide AfterPass, Run, Occurs, Table, CallsOnly;
    assert TableNumber(c) == Some(2);
    ListedFunctionsUseTheirTable(env, c, f, sites, g, 2, entries, m, n);
  }

  /** In every run of another function all of whose targets may be callbacks, by its annotation, their origin or the
      global they are read from, every indirect call goes to a target that fits the masks, or to an entry of the first
      table. */
  lemma {:induction false} CallbackFunctionsUseMasksOrTable(env: Env, c: Context, f: Fn, sites: seq<nat>, g: Fn, entries: seq<Word>, m: Machine, n: nat)
    requires PassReaches(c) && TableNumber(c).None? && AfterPass(env, c, f, sites, g) && m.trace == []
    requires forall s :: c.origin(s) != 2 && (c.callbackMaybe || c.origin(s) == 1 || FromCallbackGlobal(c, s))
    requires Table(env.tables(0), entries) && entries != []
    ensures CallsOnly(env, g, t => Fits(env.orVal, env.andVal, t) || t in entries, m, n)
  {
    hide AfterPass, Run, PassReaches, TableNumber, Admits, Table, Kept, Fits, KindFor, FromCallbackGlobal;
    var used := kind => kind == Diamond;
    forall s ensures used(KindFor(c, s)) {
      assert c.origin(s) != 2 && (c.callbackMaybe || c.origin(s) == 1 || FromCallbackGlobal(c, s));
      OtherKind(c, s);
    }
    PassChecks(env, c, f, sites, used, g, m, n);
    forall t ensures Passes(env, Diamond, t) <==> Fits(env.orVal, env.andVal, t) || t in entries {
      AdmitsIffEntry(env.tables(0), entries, t);
      KeptIff(env.orVal, env.andVal, t);
    }
  }

  /** In every run of a function where no callback is expected, every indirect call goes to a target that fits the
      masks. */
  lemma {:induction false} OtherFunctionsUseMasks(env: Env, c: Context, f: Fn, sites: seq<nat>, g: Fn, m: Machine, n: nat)
    requires PassReaches(c) && TableNumber(c).None? && !c.callbackMaybe && (forall s :: c.origin(s) == 0 && !FromCallbackGlobal(c, s))
    requires AfterPass(env, c, f, sites, g) && m.trace == []
    ensures CallsOnly(env, g, t => Fits(env.orAddr, env.andAddr, t), m, n)
  {
    hide AfterPass, Run, PassReaches, TableNumber, Kept, Fits, KindFor, FromCallbackGlobal;
    var used := kind => kind == Mask;
    forall s ensures used(KindFor(c, s)) {
      assert c.origin(s) == 0 && !FromCallbackGlobal(c, s);
      OtherKind(c, s);
    }
    PassChecks(env, c, f, sites, used, g, m, n);
    forall t ensures Passes(env, Mask, t) <==> Fits(env.orAddr, env.andAddr, t) { KeptIff(env.orAddr, env.andAddr, t); }
  }

  // ----- functions the pass leaves as they are -----

  lemma {:induction false} UntouchedSame(env: Env, c: Context, f: Fn, sites: seq<nat>, g: Fn)
    requires AfterPass(env, c, f, sites, g) && forall s :: KindFor(c, s) == Untouched
    ensures Simulates(env, f, map[], g, map[])
  {
    hide KindFor, Run, Seen;
    var pol := Policy(c, sites);
    assert forall s: nat :: KindOf(pol, s) == KindOf(map[], s);
    forall m: Machine, n: nat ensures SeenIn(env, f, map[], g, map[], m, n) {
      assert SeenIn(env, f, pol, g, map[], m, n);
      SamePolicy(env, f, pol, map[], At(f.entry, 0, m), n);
    }
  }

  /** A speed test, code under LOADER in any other file, and the two functions that run too early run as before the
      pass, every indirect call included. */
  lemma {:induction false} SkippedRunsAsBefore(env: Env, c: Context, f: Fn, sites: seq<nat>, g: Fn)
    requires AfterPass(env, c, f, sites, g)
    requires Occurs(c.moduleId, "speedtest") || (c.loader && !Occurs(c.sourceFile, "dl-call_fini"))
             || c.name == "__getrandom_early_init" || c.name == "main_init_once"
    ensures Simulates(env, f, map[], g, map[])
  {
    hide AfterPass, Simulates, Occurs, KindFor;
    forall s ensures KindFor(c, s) == Untouched { SkippedKind(c, s); }
    UntouchedSame(env, c, f, sites, g);
  }

  /** So does a function without a table of its own whose targets all belong to the dynamic linker. */
  lemma {:induction false} LinkerCallsRunAsBefore(env: Env, c: Context, f: Fn, sites: seq<nat>, g: Fn)
    requires AfterPass(env, c, f, sites, g) && TableNumber(c).None? && forall s :: c.origin(s) == 2
    ensures Simulates(env, f, map[], g, map[])
  {
    hide AfterPass, Simulates, KindFor, PassReaches, TableNumber;
    forall s ensures KindFor(c, s) == Untouched {
      assert c.origin(s) == 2;
      if PassReaches(c) { OtherKind(c, s); } else { SkippedKind(c, s); }
    }
    UntouchedSame(env, c, f, sites, g);
  }
}
