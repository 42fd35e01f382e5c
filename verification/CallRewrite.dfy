/** The rewriting of one indirect call, and that the rewritten function does what the policy of the call asks. */
module CallRewrite {
  import opened Options
  import opened TableSearch
  import opened CallIr

  /** The call of a site, at index k of block l. */
  predicate CallAt(f: Fn, site: nat, l: nat, k: nat) {
    l in f.blocks && k < |f.blocks[l].instrs| && f.blocks[l].instrs[k].Call? && f.blocks[l].instrs[k].site == site
  }

  ghost predicate OnlyAt(f: Fn, site: nat, l: nat, k: nat) {
    CallAt(f, site, l, k) && forall x: nat, i: nat :: CallAt(f, site, x, i) ==> x == l && i == k
  }

  // ----- calls replaced inside their block -----

  function InBlock(f: Fn, l: nat, k: nat, code: seq<Instr>): Fn
    requires l in f.blocks && k < |f.blocks[l].instrs|
  {
    var b := f.blocks[l];
    f.(blocks := f.blocks[l := b.(instrs := b.instrs[..k] + code + b.instrs[k + 1..])])
  }

  /** instrumentNormalCase: the target is masked with the addresses of the mask symbols. */
  function MaskCode(call: Instr, n: nat): seq<Instr>
    requires call.Call?
  {
    [OrInst(n, call.callee, OrSym), AndInst(n + 1, Reg(n), AndSym), call.(callee := Reg(n + 1))]
  }

  /** always_callback_table: the target goes to r11 and the call to the stub. */
  function TableCode(call: Instr, table: nat): seq<Instr>
    requires call.Call?
  {
    [MovR11(call.callee), TableCall(table, call.dst, call.args)]
  }

  function ExecAll(env: Env, pol: map<nat, Kind>, code: seq<Instr>, m: Machine): Effect
    decreases |code|
  {
    if code == [] then Go(m)
    else
      match Exec(env, pol, code[0], m)
      case Go(m') => ExecAll(env, pol, code[1..], m')
      case Stop(trace) => Stop(trace)
  }

  lemma {:induction false} ExecTwo(env: Env, pol: map<nat, Kind>, a: Instr, b: Instr, m: Machine)
    requires Exec(env, pol, a, m).Go?
    ensures ExecAll(env, pol, [a, b], m) == Exec(env, pol, b, Exec(env, pol, a, m).m)
  {
    hide Exec;
    var m1 := Exec(env, pol, a, m).m;
    assert [a, b][1..] == [b] && [b][1..] == [];
    assert ExecAll(env, pol, [b], m1) == Exec(env, pol, b, m1);
  }

  lemma {:induction false} ExecThree(env: Env, pol: map<nat, Kind>, a: Instr, b: Instr, c: Instr, m: Machine)
    requires Exec(env, pol, a, m).Go? && Exec(env, pol, b, Exec(env, pol, a, m).m).Go?
    ensures ExecAll(env, pol, [a, b, c], m) == Exec(env, pol, c, Exec(env, pol, b, Exec(env, pol, a, m).m).m)
  {
    hide Exec;
    assert [a, b, c][1..] == [b, c];
    ExecTwo(env, pol, b, c, Exec(env, pol, a, m).m);
  }

  lemma {:induction false} MaskIsOrAnd(env: Env, t: Word)
    ensures AndWord(OrWord(t, env.orAddr), env.andAddr) == Masked(env.orAddr, env.andAddr, t)
  {
  }

  /** The masking code calls the masked target. */
  lemma {:induction false} MaskCodeDoes(env: Env, pol: map<nat, Kind>, qol: map<nat, Kind>, call: Instr, m: Machine, m': Machine, n: nat)
    requires call.Call? && InstrBelow(call, n) && Agree(m, m', n)
    requires KindOf(pol, call.site) == Mask && KindOf(qol, call.site) == Untouched
    ensures EffectsAgree(Exec(env, pol, call, m), ExecAll(env, qol, MaskCode(call, n), m'), n)
  {
    hide RegsAgree, Vals, CallTo, Masked, OrWord, AndWord, ArgsBelow;
    var t := Eval(env, m.regs, call.callee);
    EvalAgree(env, m.regs, m'.regs, call.callee, n);
    var w1 := OrWord(t, env.orAddr);
    var w2 := AndWord(w1, env.andAddr);
    var m1 := m'.(regs := m'.regs[n := w1]);
    var m2 := m1.(regs := m1.regs[n + 1 := w2]);
    SetFresh(m.regs, m'.regs, n, w1, n);
    SetFresh(m.regs, m1.regs, n + 1, w2, n);
    ValsAgree(env, m.regs, m2.regs, call.args, n);
    MaskIsOrAnd(env, t);
    CallAgree(env, call.dst, w2, Vals(env, m.regs, call.args), m, m2, n);
    ExecThree(env, qol, OrInst(n, call.callee, OrSym), AndInst(n + 1, Reg(n), AndSym), call.(callee := Reg(n + 1)), m');
  }

  /** The table code calls the target if the table admits it, and halts otherwise. */
  lemma {:induction false} TableCodeDoes(env: Env, pol: map<nat, Kind>, qol: map<nat, Kind>, call: Instr, table: nat, m: Machine, m': Machine, n: nat)
    requires call.Call? && InstrBelow(call, n) && Agree(m, m', n) && KindOf(pol, call.site) == Always(table)
    ensures EffectsAgree(Exec(env, pol, call, m), ExecAll(env, qol, TableCode(call, table), m'), n)
  {
    hide RegsAgree, Vals, CallTo, Admits, ArgsBelow, Eval;
    var t := Eval(env, m.regs, call.callee);
    EvalAgree(env, m.regs, m'.regs, call.callee, n);
    ValsAgree(env, m.regs, m'.regs, call.args, n);
    CallAgree(env, call.dst, t, Vals(env, m.regs, call.args), m, m'.(r11 := t), n);
    ExecTwo(env, qol, MovR11(call.callee), TableCall(table, call.dst, call.args), m');
  }

  /** Code in the middle of a block runs through in as many steps as it is long, unless it stops. */
  lemma {:induction false} RunCode(env: Env, g: Fn, qol: map<nat, Kind>, l: nat, i: nat, code: seq<Instr>, m: Machine)
    requires l in g.blocks && i + |code| <= |g.blocks[l].instrs| && g.blocks[l].instrs[i..i + |code|] == code
    ensures var e := ExecAll(env, qol, code, m);
            Run(env, g, qol, At(l, i, m), |code|) == if e.Go? then At(l, i + |code|, e.m) else Stopped(e.trace)
    decreases |code|
  {
    if code != [] {
      hide Exec;
      var e := Exec(env, qol, code[0], m);
      assert g.blocks[l].instrs[i] == code[0];
      assert Step(env, g, qol, At(l, i, m)) == After(l, i, e);
      if e.Go? {
        assert g.blocks[l].instrs[i + 1..i + 1 + |code[1..]|] == code[1..];
        RunCode(env, g, qol, l, i + 1, code[1..], e.m);
      } else {
        EndedStays(env, g, qol, Stopped(e.trace), |code| - 1);
      }
    }
  }

  /** Where an index of the changed block has moved. */
  function Moved(l: nat, k: nat, len: nat, x: nat, i: nat): int { if x == l && i > k then i + len - 1 else i }

  /** The state of the rewritten function that a state of the original stands for. */
  ghost predicate InRel(f: Fn, l: nat, k: nat, len: nat, n: nat, st: State, st': State) {
    if st.At? && st'.At? then
      st.block in f.blocks && st.index <= |f.blocks[st.block].instrs|
      && st'.block == st.block && st'.index == Moved(l, k, len, st.block, st.index) && Agree(st.m, st'.m, n)
    else st == st' && !st.At?
  }

  lemma {:induction false} MovedInstr(f: Fn, l: nat, k: nat, code: seq<Instr>, x: nat, i: nat)
    requires l in f.blocks && k < |f.blocks[l].instrs| && x in f.blocks && i <= |f.blocks[x].instrs| && !(x == l && i == k) && code != []
    ensures var g := InBlock(f, l, k, code);
            var j := Moved(l, k, |code|, x, i);
            x in g.blocks && 0 <= j <= |g.blocks[x].instrs| && (j == |g.blocks[x].instrs| <==> i == |f.blocks[x].instrs|)
            && (i < |f.blocks[x].instrs| ==> g.blocks[x].instrs[j] == f.blocks[x].instrs[i] && Moved(l, k, |code|, x, i + 1) == j + 1)
            && g.blocks[x].phis == f.blocks[x].phis && g.blocks[x].term == f.blocks[x].term
  {
  }

  /** One step of the original is at least one step of the rewritten function. */
  lemma {:induction false} InBlockStep(env: Env, f: Fn, pol: map<nat, Kind>, qol: map<nat, Kind>, site: nat, l: nat, k: nat, code: seq<Instr>, n: nat, labels: nat,
                                       st: State, st': State) returns (j: nat)
    requires FnBelow(f, n, labels) && OnlyAt(f, site, l, k) && code != []
    requires forall s :: s != site ==> KindOf(pol, s) == KindOf(qol, s)
    requires CodeDoes(env, pol, qol, f.blocks[l].instrs[k], code, n)
    requires InRel(f, l, k, |code|, n, st, st')
    ensures j >= 1 && InRel(f, l, k, |code|, n, Step(env, f, pol, st), Run(env, InBlock(f, l, k, code), qol, st', j))
  {
    hide Step, ExecAll, Exec, RegsAgree, FnBelow, OnlyAt, CodeDoes;
    OnlyIs(f, site, l, k);
    var g := InBlock(f, l, k, code);
    if !st.At? {
      j := 1;
      EndedStays(env, g, qol, st', 1);
      EndedStays(env, f, pol, st, 1);
    } else if st.block == l && st.index == k {
      j := |code|;
      CodeInPlace(f, l, k, code);
      RunCode(env, g, qol, l, k, code, st'.m);
      StepInstr(env, f, pol, st);
      CodeDoesNow(env, pol, qol, f.blocks[l].instrs[k], code, n, st.m, st'.m);
    } else {
      j := 1;
      assert Run(env, g, qol, st', 1) == Step(env, g, qol, st');
      if st.index < |f.blocks[st.block].instrs| {
        InBlockInstr(env, f, pol, qol, site, l, k, code, n, labels, st, st');
      } else {
        InBlockJump(env, f, pol, qol, l, k, code, n, labels, st, st');
      }
    }
  }

  lemma {:induction false} StepInstr(env: Env, f: Fn, pol: map<nat, Kind>, st: State)
    requires st.At? && st.block in f.blocks && st.index < |f.blocks[st.block].instrs|
    ensures Step(env, f, pol, st) == After(st.block, st.index, Exec(env, pol, f.blocks[st.block].instrs[st.index], st.m))
  {
    hide Exec;
  }

  lemma {:induction false} StepJump(env: Env, f: Fn, pol: map<nat, Kind>, st: State)
    requires st.At? && st.block in f.blocks && st.index == |f.blocks[st.block].instrs|
    ensures Step(env, f, pol, st) == Jump(env, f, st.block, f.blocks[st.block].term, st.m)
  {
    hide Jump;
  }

  lemma {:induction false} BelowBlock(f: Fn, n: nat, labels: nat, x: nat)
    requires FnBelow(f, n, labels) && x in f.blocks
    ensures x < labels && TermBelow(f.blocks[x].term, n, labels)
    ensures forall i :: 0 <= i < |f.blocks[x].instrs| ==> InstrBelow(f.blocks[x].instrs[i], n)
  {
    hide PhiBelow, InstrBelow, TermBelow;
  }

  lemma {:induction false} InBlockInstr(env: Env, f: Fn, pol: map<nat, Kind>, qol: map<nat, Kind>, site: nat, l: nat, k: nat, code: seq<Instr>, n: nat, labels: nat,
                                        st: State, st': State)
    requires FnBelow(f, n, labels) && OnlyAt(f, site, l, k) && code != []
    requires forall s :: s != site ==> KindOf(pol, s) == KindOf(qol, s)
    requires st.At? && st'.At? && InRel(f, l, k, |code|, n, st, st')
    requires !(st.block == l && st.index == k) && st.index < |f.blocks[st.block].instrs|
    ensures InRel(f, l, k, |code|, n, Step(env, f, pol, st), Step(env, InBlock(f, l, k, code), qol, st'))
  {
    hide Step, Exec, RegsAgree, FnBelow, OnlyAt, InBlock, Moved, InstrBelow, TermBelow;
    OnlyIs(f, site, l, k);
    var g := InBlock(f, l, k, code);
    MovedInstr(f, l, k, code, st.block, st.index);
    BelowBlock(f, n, labels, st.block);
    OnlyNot(f, site, l, k, st.block, st.index);
    ExecAgree(env, pol, qol, f.blocks[st.block].instrs[st.index], st.m, st'.m, n);
    StepInstr(env, f, pol, st);
    StepInstr(env, g, qol, st');
  }

  lemma {:induction false} InBlockJump(env: Env, f: Fn, pol: map<nat, Kind>, qol: map<nat, Kind>, l: nat, k: nat, code: seq<Instr>, n: nat, labels: nat,
                                       st: State, st': State)
    requires FnBelow(f, n, labels) && l in f.blocks && k < |f.blocks[l].instrs| && code != []
    requires st.At? && st'.At? && InRel(f, l, k, |code|, n, st, st') && st.index == |f.blocks[st.block].instrs|
    ensures InRel(f, l, k, |code|, n, Step(env, f, pol, st), Step(env, InBlock(f, l, k, code), qol, st'))
  {
    hide Step, Jump, RegsAgree, FnBelow, InBlock, Moved, SamePhis, InstrBelow, TermBelow;
    var g := InBlock(f, l, k, code);
    MovedInstr(f, l, k, code, st.block, st.index);
    BelowBlock(f, n, labels, st.block);
    SamePhisInBlock(f, l, k, code, st.block);
    JumpAgree(env, f, st.block, g, st.block, f.blocks[st.block].term, st.m, st'.m, n, labels);
    JumpLands(env, f, st.block, f.blocks[st.block].term, st.m);
    FreshStart(l, k, |code|);
    StepJump(env, f, pol, st);
    StepJump(env, g, qol, st');
  }

  lemma {:induction false} FreshStart(l: nat, k: nat, len: nat)
    ensures forall x: nat :: Moved(l, k, len, x, 0) == 0
  {
  }

  lemma {:induction false} OnlyIs(f: Fn, site: nat, l: nat, k: nat)
    requires OnlyAt(f, site, l, k)
    ensures CallAt(f, site, l, k)
  {
  }

  lemma {:induction false} OnlyNot(f: Fn, site: nat, l: nat, k: nat, x: nat, i: nat)
    requires OnlyAt(f, site, l, k) && x in f.blocks && i < |f.blocks[x].instrs| && !(x == l && i == k)
    ensures f.blocks[x].instrs[i].Call? ==> f.blocks[x].instrs[i].site != site
  {
    assert !CallAt(f, site, x, i);
  }

  lemma {:induction false} CodeInPlace(f: Fn, l: nat, k: nat, code: seq<Instr>)
    requires l in f.blocks && k < |f.blocks[l].instrs|
    ensures var b := InBlock(f, l, k, code).blocks[l];
            k + |code| <= |b.instrs| && b.instrs[k..k + |code|] == code
  {
  }

  lemma {:induction false} SamePhisInBlock(f: Fn, l: nat, k: nat, code: seq<Instr>, from: nat)
    requires l in f.blocks && k < |f.blocks[l].instrs|
    ensures var g := InBlock(f, l, k, code);
            g.blocks.Keys == f.blocks.Keys &&
            forall x :: x in f.blocks && x in g.blocks ==> SamePhis(f.blocks[x].phis, from, g.blocks[x].phis, from)
  {
    assert InBlock(f, l, k, code).blocks.Keys == f.blocks.Keys;
  }

  lemma {:induction false} JumpLands(env: Env, f: Fn, from: nat, term: Term, m: Machine)
    ensures var st := Jump(env, f, from, term, m); st.At? ==> st.block in f.blocks && st.index == 0
  {
    hide PhiRegs;
  }

  /** The code does, for the rewritten function, what the policy asks of the call. */
  ghost predicate CodeDoes(env: Env, pol: map<nat, Kind>, qol: map<nat, Kind>, call: Instr, code: seq<Instr>, n: nat) {
    forall m: Machine, m': Machine :: Agree(m, m', n) ==> EffectsAgree(Exec(env, pol, call, m), ExecAll(env, qol, code, m'), n)
  }

  lemma {:induction false} CodeDoesNow(env: Env, pol: map<nat, Kind>, qol: map<nat, Kind>, call: Instr, code: seq<Instr>, n: nat, m: Machine, m': Machine)
    requires CodeDoes(env, pol, qol, call, code, n) && Agree(m, m', n)
    ensures EffectsAgree(Exec(env, pol, call, m), ExecAll(env, qol, code, m'), n)
  {
    hide Exec, ExecAll, EffectsAgree, Agree;
  }

  lemma {:induction false} InBlockRun(env: Env, f: Fn, pol: map<nat, Kind>, qol: map<nat, Kind>, site: nat, l: nat, k: nat, code: seq<Instr>, n: nat, labels: nat,
                                      st: State, st': State, c: nat) returns (j: nat)
    requires FnBelow(f, n, labels) && OnlyAt(f, site, l, k) && code != []
    requires forall s :: s != site ==> KindOf(pol, s) == KindOf(qol, s)
    requires CodeDoes(env, pol, qol, f.blocks[l].instrs[k], code, n)
    requires InRel(f, l, k, |code|, n, st, st')
    ensures j >= c && InRel(f, l, k, |code|, n, Run(env, f, pol, st, c), Run(env, InBlock(f, l, k, code), qol, st', j))
    decreases c
  {
    hide Step, FnBelow, OnlyAt, InBlock, CodeDoes, InRel, KindOf;
    OnlyIs(f, site, l, k);
    if c == 0 {
      j := 0;
    } else {
      var g := InBlock(f, l, k, code);
      var i := InBlockStep(env, f, pol, qol, site, l, k, code, n, labels, st, st');
      var r := InBlockRun(env, f, pol, qol, site, l, k, code, n, labels, Step(env, f, pol, st), Run(env, g, qol, st', i), c - 1);
      RunAdd(env, g, qol, st', i, r);
      j := i + r;
    }
  }

  lemma {:induction false} InBlockSimulates(env: Env, f: Fn, pol: map<nat, Kind>, qol: map<nat, Kind>, site: nat, l: nat, k: nat, code: seq<Instr>, n: nat, labels: nat)
    requires FnBelow(f, n, labels) && OnlyAt(f, site, l, k) && code != []
    requires forall s :: s != site ==> KindOf(pol, s) == KindOf(qol, s)
    requires CodeDoes(env, pol, qol, f.blocks[l].instrs[k], code, n)
    ensures Simulates(env, f, pol, InBlock(f, l, k, code), qol)
  {
    hide Run, Exec, ExecAll, RegsAgree, OnlyAt, CodeDoes;
    OnlyIs(f, site, l, k);
    var g := InBlock(f, l, k, code);
    forall m: Machine, c: nat ensures SeenIn(env, f, pol, g, qol, m, c) {
      SelfAgree(m, n);
      FreshStart(l, k, |code|);
      var j := InBlockRun(env, f, pol, qol, site, l, k, code, n, labels, At(f.entry, 0, m), At(g.entry, 0, m), c);
      assert j >= c && Seen(Run(env, f, pol, At(f.entry, 0, m), c)) == Seen(Run(env, g, qol, At(g.entry, 0, m), j));
    }
  }

  lemma {:induction false} SelfAgree(m: Machine, n: nat)
    ensures Agree(m, m, n)
  {
  }

  /** A call masked in place: the rewritten function runs as the original under the masking policy. */
  lemma {:induction false} MaskSimulates(env: Env, f: Fn, pol: map<nat, Kind>, site: nat, l: nat, k: nat, n: nat, labels: nat)
    requires FnBelow(f, n, labels) && OnlyAt(f, site, l, k) && KindOf(pol, site) == Mask
    ensures Simulates(env, f, pol, InBlock(f, l, k, MaskCode(f.blocks[l].instrs[k], n)), pol[site := Untouched])
  {
    hide Simulates, Exec, ExecAll, EffectsAgree, Agree;
    OnlyIs(f, site, l, k);
    BelowBlock(f, n, labels, l);
    var call, qol := f.blocks[l].instrs[k], pol[site := Untouched];
    forall m: Machine, m': Machine | Agree(m, m', n)
      ensures EffectsAgree(Exec(env, pol, call, m), ExecAll(env, qol, MaskCode(call, n), m'), n)
    {
      MaskCodeDoes(env, pol, qol, call, m, m', n);
    }
    InBlockSimulates(env, f, pol, qol, site, l, k, MaskCode(call, n), n, labels);
  }

  /** A call sent to a table in place. */
  lemma {:induction false} TableSimulates(env: Env, f: Fn, pol: map<nat, Kind>, site: nat, l: nat, k: nat, table: nat, n: nat, labels: nat)
    requires FnBelow(f, n, labels) && OnlyAt(f, site, l, k) && KindOf(pol, site) == Always(table)
    ensures Simulates(env, f, pol, InBlock(f, l, k, TableCode(f.blocks[l].instrs[k], table)), pol[site := Untouched])
  {
    hide Simulates, Exec, ExecAll, EffectsAgree, Agree;
    OnlyIs(f, site, l, k);
    BelowBlock(f, n, labels, l);
    var call, qol := f.blocks[l].instrs[k], pol[site := Untouched];
    forall m: Machine, m': Machine | Agree(m, m', n)
      ensures EffectsAgree(Exec(env, pol, call, m), ExecAll(env, qol, TableCode(call, table), m'), n)
    {
      TableCodeDoes(env, pol, qol, call, table, m, m', n);
    }
    InBlockSimulates(env, f, pol, qol, site, l, k, TableCode(call, table), n, labels);
  }
}
