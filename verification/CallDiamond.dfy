/** The rewriting of an indirect call into a test, two ways to make the call, and a block where they meet. */
module CallDiamond {
  import opened Options
  import opened TableSearch
  import opened CallIr
  import opened CallRewrite

  // ----- the rewriting -----

  /** Splitting a block leaves its successors entered from the second half. */
  function RenameIncoming(incoming: map<nat, Operand>, from: nat, to: nat): map<nat, Operand> {
    if from in incoming then (map x | x in incoming && x != from :: incoming[x])[to := incoming[from]] else incoming
  }

  function RenamePhis(phis: seq<Phi>, from: nat, to: nat): seq<Phi> {
    seq(|phis|, i requires 0 <= i < |phis| => phis[i].(incoming := RenameIncoming(phis[i].incoming, from, to)))
  }

  /** The target goes to r11, and is compared with what the contents of the masks make of it. */
  function Test(call: Instr, n: nat): seq<Instr>
    requires call.Call?
  {
    [MovR11(call.callee), MaskAsm(n, call.callee), CmpEq(n + 1, call.callee, Reg(n))]
  }

  function Result(call: Instr, r: nat): Option<nat>
    requires call.Call?
  {
    if call.dst.Some? then Some(r) else None
  }

  /** The merged result, under the name that the uses of the call have. */
  function MergePhis(call: Instr, n: nat, labels: nat): seq<Phi>
    requires call.Call?
  {
    if call.dst.Some? then [Phi(call.dst.value, map[labels + 1 := Reg(n + 2), labels + 2 := Reg(n + 3)])] else []
  }

  function OldBlock(f: Fn, l: nat, k: nat, n: nat, labels: nat, x: nat): Block
    requires l in f.blocks && k < |f.blocks[l].instrs| && f.blocks[l].instrs[k].Call? && x in f.blocks
  {
    var b := f.blocks[x];
    var phis := RenamePhis(b.phis, l, labels);
    if x == l then Block(phis, b.instrs[..k] + Test(b.instrs[k], n), CondBr(Reg(n + 1), labels + 1, labels + 2)) else b.(phis := phis)
  }

  /** The new blocks: aftercall, callblock and skipblock. */
  function NewBlocks(b: Block, k: nat, n: nat, labels: nat): map<nat, Block>
    requires k < |b.instrs| && b.instrs[k].Call?
  {
    var call := b.instrs[k];
    map[labels := Block(MergePhis(call, n, labels), b.instrs[k + 1..], b.term),
        labels + 1 := Block([], [Call(call.site, Result(call, n + 2), call.callee, call.args)], Br(labels)),
        labels + 2 := Block([], [TableCall(0, Result(call, n + 3), call.args)], Br(labels))]
  }

  function Split(f: Fn, l: nat, k: nat, n: nat, labels: nat): Fn
    requires l in f.blocks && k < |f.blocks[l].instrs| && f.blocks[l].instrs[k].Call?
  {
    Fn((map x | x in f.blocks :: OldBlock(f, l, k, n, labels, x)) + NewBlocks(f.blocks[l], k, n, labels), f.entry)
  }

  lemma {:induction false} SplitBlocks(f: Fn, l: nat, k: nat, n: nat, labels: nat)
    requires FnBelow(f, n, labels) && l in f.blocks && k < |f.blocks[l].instrs| && f.blocks[l].instrs[k].Call?
    ensures var g := Split(f, l, k, n, labels);
            var added := NewBlocks(f.blocks[l], k, n, labels);
            (forall x :: x in f.blocks ==> x in g.blocks && g.blocks[x] == OldBlock(f, l, k, n, labels, x))
            && (forall x :: x in added ==> x in g.blocks && g.blocks[x] == added[x])
            && (forall x :: x in g.blocks ==> x in f.blocks || x in added)
            && (forall x :: x in added <==> x == labels || x == labels + 1 || x == labels + 2)
            && labels !in f.blocks && labels + 1 !in f.blocks && labels + 2 !in f.blocks && g.entry == f.entry
  {
    hide BlockBelow, OldBlock;
  }

  lemma {:induction false} RenameFrom(phis: seq<Phi>, from: nat, to: nat, n: nat, x: nat)
    requires forall i :: 0 <= i < |phis| ==> PhiBelow(phis[i], n, to)
    ensures x != from && x < to ==> SamePhis(phis, x, RenamePhis(phis, from, to), x)
    ensures SamePhis(phis, from, RenamePhis(phis, from, to), to)
  {
  }

  // ----- the diamond does what the policy asks -----

  /** The machine after the test. */
  function Tested(env: Env, call: Instr, n: nat, m: Machine): Machine
    requires call.Call?
  {
    var t := Eval(env, m.regs, call.callee);
    var w := Masked(env.orVal, env.andVal, t);
    Machine(m.regs[n := w][n + 1 := EqWord(t, w)], t, m.trace)
  }

  lemma {:induction false} TestRuns(env: Env, qol: map<nat, Kind>, call: Instr, n: nat, m: Machine)
    requires call.Call? && InstrBelow(call, n)
    ensures ExecAll(env, qol, Test(call, n), m) == Go(Tested(env, call, n, m))
  {
    hide Exec, Masked, EqWord, ArgsBelow, Eval;
    var t := Eval(env, m.regs, call.callee);
    var w := Masked(env.orVal, env.andVal, t);
    var m1 := m.(r11 := t);
    var m2 := m1.(regs := m.regs[n := w]);
    ExecTest(env, qol, call.callee, n, m);
    ExecTest(env, qol, call.callee, n, m1);
    ExecTest(env, qol, call.callee, n, m2);
    EvalFresh(env, m.regs, call.callee, n, w);
    ExecThree(env, qol, MovR11(call.callee), MaskAsm(n, call.callee), CmpEq(n + 1, call.callee, Reg(n)), m);
  }

  lemma {:induction false} ExecTest(env: Env, pol: map<nat, Kind>, a: Operand, n: nat, m: Machine)
    ensures Exec(env, pol, MovR11(a), m) == Go(m.(r11 := Eval(env, m.regs, a)))
    ensures Exec(env, pol, MaskAsm(n, a), m) == Go(m.(regs := m.regs[n := Masked(env.orVal, env.andVal, Eval(env, m.regs, a))]))
    ensures Exec(env, pol, CmpEq(n + 1, a, Reg(n)), m)
         == Go(m.(regs := m.regs[n + 1 := EqWord(Eval(env, m.regs, a), Eval(env, m.regs, Reg(n)))]))
  {
    hide Masked, EqWord, Eval;
  }

  lemma {:induction false} EvalFresh(env: Env, regs: map<nat, Word>, o: Operand, n: nat, w: Word)
    ensures OperandBelow(o, n) ==> Eval(env, regs[n := w], o) == Eval(env, regs, o)
    ensures Eval(env, regs[n := w], Reg(n)) == w
  {
  }

  lemma {:induction false} TestedAgrees(env: Env, call: Instr, n: nat, m: Machine, m': Machine)
    requires call.Call? && InstrBelow(call, n) && Agree(m, m', n)
    ensures var m1 := Tested(env, call, n, m');
            var t := Eval(env, m.regs, call.callee);
            m1.trace == m.trace && m1.r11 == t && RegsAgree(m.regs, m1.regs, n)
            && (Eval(env, m1.regs, Reg(n + 1)) != 0 <==> Kept(env.orVal, env.andVal, t))
            && Eval(env, m1.regs, call.callee) == t && Vals(env, m1.regs, call.args) == Vals(env, m.regs, call.args)
  {
    hide RegsAgree, Masked, ArgsBelow, Vals;
    var t := Eval(env, m.regs, call.callee);
    EvalAgree(env, m.regs, m'.regs, call.callee, n);
    var w := Masked(env.orVal, env.andVal, t);
    SetFresh(m.regs, m'.regs, n, w, n);
    SetFresh(m.regs, m'.regs[n := w], n + 1, EqWord(t, w), n);
    EvalAgree(env, m.regs, Tested(env, call, n, m').regs, call.callee, n);
    ValsAgree(env, m.regs, Tested(env, call, n, m').regs, call.args, n);
  }

  /** The result is merged under the name of the call. */
  lemma {:induction false} MergeAgrees(env: Env, call: Instr, n: nat, labels: nat, side: nat, r: nat, regs: map<nat, Word>, regs': map<nat, Word>, w: Word)
    requires call.Call? && RegsAgree(regs, regs', n) && ((side == labels + 1 && r == n + 2) || (side == labels + 2 && r == n + 3))
    ensures var regs1 := Set(regs', Result(call, r), w);
            RegsAgree(Set(regs, call.dst, w), PhiRegs(env, MergePhis(call, n, labels), side, regs1, regs1), n)
  {
    hide RegsAgree;
    if call.dst.Some? {
      var regs1 := regs'[r := w];
      SetFresh(regs, regs', r, w, n);
      SetAgree(regs, regs1, call.dst, w, n);
      assert MergePhis(call, n, labels)[1..] == [];
      assert PhiValue(env, MergePhis(call, n, labels)[0], side, regs1) == w;
    }
  }

  /** What a side of the diamond comes to. */
  function Merged(env: Env, call: Instr, n: nat, labels: nat, side: nat, e: Effect): State
    requires call.Call?
  {
    match e
    case Go(m) => At(labels, 0, m.(regs := PhiRegs(env, MergePhis(call, n, labels), side, m.regs, m.regs)))
    case Stop(trace) => Stopped(trace)
  }

  lemma {:induction false} SideRuns(env: Env, g: Fn, qol: map<nat, Kind>, call: Instr, n: nat, labels: nat, side: nat, ins: Instr, m: Machine)
    requires call.Call? && side in g.blocks && g.blocks[side] == Block([], [ins], Br(labels))
    requires labels in g.blocks && g.blocks[labels].phis == MergePhis(call, n, labels)
    ensures Run(env, g, qol, At(side, 0, m), 2) == Merged(env, call, n, labels, side, Exec(env, qol, ins, m))
  {
    hide Exec, MergePhis, PhiRegs;
    var st := At(side, 0, m);
    StepInstr(env, g, qol, st);
    var st1 := Step(env, g, qol, st);
    assert Run(env, g, qol, st, 2) == Run(env, g, qol, st1, 1) == Step(env, g, qol, st1);
    if st1.At? {
      StepJump(env, g, qol, st1);
    }
  }

  lemma {:induction false} CallMerges(env: Env, call: Instr, n: nat, labels: nat, side: nat, r: nat, t: Word, vals: seq<Word>, m: Machine, m': Machine)
    requires call.Call? && m.trace == m'.trace && RegsAgree(m.regs, m'.regs, n)
    requires (side == labels + 1 && r == n + 2) || (side == labels + 2 && r == n + 3)
    ensures var e := CallTo(env, call.dst, t, vals, m);
            var st := Merged(env, call, n, labels, side, CallTo(env, Result(call, r), t, vals, m'));
            if e.Go? then st.At? && st.block == labels && st.index == 0 && Agree(e.m, st.m, n) else st == Stopped(e.trace)
  {
    hide RegsAgree, PhiRegs, MergePhis, Set;
    match env.call(t, vals, m.trace)
    case None =>
    case Some(w) => MergeAgrees(env, call, n, labels, side, r, m.regs, m'.regs, w);
  }

  /** The state of the split function that a state of the original stands for. */
  ghost predicate SplitRel(f: Fn, l: nat, k: nat, n: nat, labels: nat, st: State, st': State) {
    if st.At? && st'.At? then
      st.block in f.blocks && st.index <= |f.blocks[st.block].instrs| && Agree(st.m, st'.m, n)
      && (if st.block == l && st.index > k then st'.block == labels && st'.index == st.index - k - 1
          else st'.block == st.block && st'.index == st.index)
    else st == st' && !st.At?
  }

  /** The call itself: the test, one of the two sides, and the merge. */
  lemma {:induction false} DiamondCall(env: Env, f: Fn, pol: map<nat, Kind>, qol: map<nat, Kind>, l: nat, k: nat, n: nat, labels: nat, m: Machine, m': Machine)
    requires FnBelow(f, n, labels) && l in f.blocks && k < |f.blocks[l].instrs| && f.blocks[l].instrs[k].Call? && Agree(m, m', n)
    requires KindOf(pol, f.blocks[l].instrs[k].site) == Diamond && KindOf(qol, f.blocks[l].instrs[k].site) == Untouched
    ensures SplitRel(f, l, k, n, labels, Step(env, f, pol, At(l, k, m)), Run(env, Split(f, l, k, n, labels), qol, At(l, k, m'), 6))
  {
    hide Step, Run, Exec, Agree, FnBelow, Split, OldBlock, NewBlocks, KindOf, Tested, Kept, Eval, InstrBelow;
    var g, call := Split(f, l, k, n, labels), f.blocks[l].instrs[k];
    var m1 := Tested(env, call, n, m');
    BelowBlock(f, n, labels, l);
    StepInstr(env, f, pol, At(l, k, m));
    TestedAgrees(env, call, n, m, m');
    HeadRuns(env, f, qol, l, k, n, labels, m');
    RunAdd(env, g, qol, At(l, k, m'), 4, 2);
    if Kept(env.orVal, env.andVal, Eval(env, m.regs, call.callee)) {
      CallSide(env, f, pol, qol, l, k, n, labels, m, m1);
    } else {
      SkipSide(env, f, pol, qol, l, k, n, labels, m, m1);
    }
  }

  lemma {:induction false} CallSide(env: Env, f: Fn, pol: map<nat, Kind>, qol: map<nat, Kind>, l: nat, k: nat, n: nat, labels: nat, m: Machine, m1: Machine)
    requires FnBelow(f, n, labels) && l in f.blocks && k < |f.blocks[l].instrs| && f.blocks[l].instrs[k].Call?
    requires m.trace == m1.trace && RegsAgree(m.regs, m1.regs, n)
    requires var call := f.blocks[l].instrs[k];
             KindOf(pol, call.site) == Diamond && KindOf(qol, call.site) == Untouched
             && Kept(env.orVal, env.andVal, Eval(env, m.regs, call.callee))
             && Eval(env, m1.regs, call.callee) == Eval(env, m.regs, call.callee) && Vals(env, m1.regs, call.args) == Vals(env, m.regs, call.args)
    ensures SplitRel(f, l, k, n, labels, After(l, k, Exec(env, pol, f.blocks[l].instrs[k], m)), Run(env, Split(f, l, k, n, labels), qol, At(labels + 1, 0, m1), 2))
  {
    hide Run, CallTo, Agree, RegsAgree, FnBelow, OldBlock, KindOf, Kept, Eval, Vals, Merged, MergePhis, Admits;
    var g, call := Split(f, l, k, n, labels), f.blocks[l].instrs[k];
    var t, vals := Eval(env, m.regs, call.callee), Vals(env, m.regs, call.args);
    SplitBlocks(f, l, k, n, labels);
    SideRuns(env, g, qol, call, n, labels, labels + 1, Call(call.site, Result(call, n + 2), call.callee, call.args), m1);
    CallMerges(env, call, n, labels, labels + 1, n + 2, t, vals, m, m1);
  }

  lemma {:induction false} SkipSide(env: Env, f: Fn, pol: map<nat, Kind>, qol: map<nat, Kind>, l: nat, k: nat, n: nat, labels: nat, m: Machine, m1: Machine)
    requires FnBelow(f, n, labels) && l in f.blocks && k < |f.blocks[l].instrs| && f.blocks[l].instrs[k].Call?
    requires m.trace == m1.trace && RegsAgree(m.regs, m1.regs, n)
    requires var call := f.blocks[l].instrs[k];
             KindOf(pol, call.site) == Diamond && !Kept(env.orVal, env.andVal, Eval(env, m.regs, call.callee))
             && m1.r11 == Eval(env, m.regs, call.callee) && Vals(env, m1.regs, call.args) == Vals(env, m.regs, call.args)
    ensures SplitRel(f, l, k, n, labels, After(l, k, Exec(env, pol, f.blocks[l].instrs[k], m)), Run(env, Split(f, l, k, n, labels), qol, At(labels + 2, 0, m1), 2))
  {
    hide Run, CallTo, Agree, RegsAgree, FnBelow, OldBlock, KindOf, Kept, Eval, Vals, MergePhis, Admits;
    var g, call := Split(f, l, k, n, labels), f.blocks[l].instrs[k];
    var t, vals := Eval(env, m.regs, call.callee), Vals(env, m.regs, call.args);
    SplitBlocks(f, l, k, n, labels);
    SideRuns(env, g, qol, call, n, labels, labels + 2, TableCall(0, Result(call, n + 3), call.args), m1);
    CallMerges(env, call, n, labels, labels + 2, n + 3, t, vals, m, m1);
  }

  lemma {:induction false} HeadRuns(env: Env, f: Fn, qol: map<nat, Kind>, l: nat, k: nat, n: nat, labels: nat, m: Machine)
    requires FnBelow(f, n, labels) && l in f.blocks && k < |f.blocks[l].instrs| && f.blocks[l].instrs[k].Call?
    ensures var m1 := Tested(env, f.blocks[l].instrs[k], n, m);
            Run(env, Split(f, l, k, n, labels), qol, At(l, k, m), 4)
              == At(if Eval(env, m1.regs, Reg(n + 1)) != 0 then labels + 1 else labels + 2, 0, m1)
  {
    hide Step, Exec, ExecAll, FnBelow, Split, Tested, Eval, InstrBelow, RenamePhis, MergePhis;
    var g, call := Split(f, l, k, n, labels), f.blocks[l].instrs[k];
    SplitBlocks(f, l, k, n, labels);
    BelowBlock(f, n, labels, l);
    TestRuns(env, qol, call, n, m);
    assert g.blocks[l] == OldBlock(f, l, k, n, labels, l);
    assert g.blocks[l].instrs[k..k + 3] == Test(call, n);
    RunCode(env, g, qol, l, k, Test(call, n), m);
    var m1 := Tested(env, call, n, m);
    RunAdd(env, g, qol, At(l, k, m), 3, 1);
    StepJump(env, g, qol, At(l, k + 3, m1));
    var added := NewBlocks(f.blocks[l], k, n, labels);
    assert labels + 1 in added && labels + 2 in added;
  }

  // ----- everything else is as it was -----

  /** Where an instruction other than the call has gone. */
  lemma {:induction false} SplitInstrs(f: Fn, l: nat, k: nat, n: nat, labels: nat, x: nat, i: nat)
    requires FnBelow(f, n, labels) && l in f.blocks && k < |f.blocks[l].instrs| && f.blocks[l].instrs[k].Call?
    requires x in f.blocks && i <= |f.blocks[x].instrs| && !(x == l && i == k)
    ensures var g := Split(f, l, k, n, labels);
            var y := if x == l && i > k then labels else x;
            var j := if x == l && i > k then i - k - 1 else i;
            y in g.blocks && j <= |g.blocks[y].instrs|
            && (i < |f.blocks[x].instrs| ==> j < |g.blocks[y].instrs| && g.blocks[y].instrs[j] == f.blocks[x].instrs[i])
            && (i == |f.blocks[x].instrs| ==> j == |g.blocks[y].instrs| && g.blocks[y].term == f.blocks[x].term)
  {
    hide FnBelow, RenamePhis, MergePhis, Split;
    SplitBlocks(f, l, k, n, labels);
    var added := NewBlocks(f.blocks[l], k, n, labels);
    assert labels in added;
  }

  lemma {:induction false} SplitPhis(f: Fn, l: nat, k: nat, n: nat, labels: nat, x: nat, from: nat)
    requires FnBelow(f, n, labels) && l in f.blocks && k < |f.blocks[l].instrs| && f.blocks[l].instrs[k].Call? && x in f.blocks && from in f.blocks
    ensures var g := Split(f, l, k, n, labels);
            x in g.blocks && SamePhis(f.blocks[x].phis, from, g.blocks[x].phis, if from == l then labels else from)
  {
    hide SamePhis, RenamePhis, PhiBelow, Split;
    SplitBlocks(f, l, k, n, labels);
    RenameFrom(f.blocks[x].phis, l, labels, n, from);
  }

  lemma {:induction false} SplitOther(env: Env, f: Fn, pol: map<nat, Kind>, qol: map<nat, Kind>, site: nat, l: nat, k: nat, n: nat, labels: nat, st: State, st': State)
    requires FnBelow(f, n, labels) && OnlyAt(f, site, l, k)
    requires forall s :: s != site ==> KindOf(pol, s) == KindOf(qol, s)
    requires st.At? && st'.At? && SplitRel(f, l, k, n, labels, st, st') && !(st.block == l && st.index == k)
    requires st.index < |f.blocks[st.block].instrs|
    ensures CallAt(f, site, l, k) && SplitRel(f, l, k, n, labels, Step(env, f, pol, st), Step(env, Split(f, l, k, n, labels), qol, st'))
  {
    hide Step, Exec, RegsAgree, FnBelow, OnlyAt, Split, InstrBelow, TermBelow;
    OnlyIs(f, site, l, k);
    var g := Split(f, l, k, n, labels);
    SplitInstrs(f, l, k, n, labels, st.block, st.index);
    BelowBlock(f, n, labels, st.block);
    OnlyNot(f, site, l, k, st.block, st.index);
    ExecAgree(env, pol, qol, f.blocks[st.block].instrs[st.index], st.m, st'.m, n);
    StepInstr(env, f, pol, st);
    StepInstr(env, g, qol, st');
  }

  lemma {:induction false} SplitJump(env: Env, f: Fn, pol: map<nat, Kind>, qol: map<nat, Kind>, l: nat, k: nat, n: nat, labels: nat, st: State, st': State)
    requires FnBelow(f, n, labels) && l in f.blocks && k < |f.blocks[l].instrs| && f.blocks[l].instrs[k].Call?
    requires st.At? && st'.At? && SplitRel(f, l, k, n, labels, st, st') && st.index == |f.blocks[st.block].instrs|
    ensures SplitRel(f, l, k, n, labels, Step(env, f, pol, st), Step(env, Split(f, l, k, n, labels), qol, st'))
  {
    hide Step, Jump, RegsAgree, FnBelow, Split, SamePhis, InstrBelow, TermBelow, OldBlock, NewBlocks;
    var g := Split(f, l, k, n, labels);
    SplitInstrs(f, l, k, n, labels, st.block, st.index);
    BelowBlock(f, n, labels, st.block);
    forall x | x in f.blocks ensures x in g.blocks && SamePhis(f.blocks[x].phis, st.block, g.blocks[x].phis, st'.block) {
      SplitPhis(f, l, k, n, labels, x, st.block);
    }
    SplitBlocks(f, l, k, n, labels);
    JumpAgree(env, f, st.block, g, st'.block, f.blocks[st.block].term, st.m, st'.m, n, labels);
    JumpLands(env, f, st.block, f.blocks[st.block].term, st.m);
    StepJump(env, f, pol, st);
    StepJump(env, g, qol, st');
  }

  lemma {:induction false} SplitStep(env: Env, f: Fn, pol: map<nat, Kind>, qol: map<nat, Kind>, site: nat, l: nat, k: nat, n: nat, labels: nat, st: State, st': State)
    returns (j: nat)
    requires FnBelow(f, n, labels) && OnlyAt(f, site, l, k)
    requires KindOf(pol, site) == Diamond && KindOf(qol, site) == Untouched && forall s :: s != site ==> KindOf(pol, s) == KindOf(qol, s)
    requires SplitRel(f, l, k, n, labels, st, st')
    ensures j >= 1 && CallAt(f, site, l, k) && SplitRel(f, l, k, n, labels, Step(env, f, pol, st), Run(env, Split(f, l, k, n, labels), qol, st', j))
  {
    hide Step, FnBelow, OnlyAt, Split, KindOf, Agree;
    OnlyIs(f, site, l, k);
    var g := Split(f, l, k, n, labels);
    if !st.At? {
      j := 1;
      EndedStays(env, g, qol, st', 1);
      EndedStays(env, f, pol, st, 1);
    } else if st.block == l && st.index == k {
      j := 6;
      DiamondCall(env, f, pol, qol, l, k, n, labels, st.m, st'.m);
    } else {
      j := 1;
      assert Run(env, g, qol, st', 1) == Step(env, g, qol, st');
      if st.index < |f.blocks[st.block].instrs| {
        SplitOther(env, f, pol, qol, site, l, k, n, labels, st, st');
      } else {
        SplitJump(env, f, pol, qol, l, k, n, labels, st, st');
      }
    }
  }

  lemma {:induction false} SplitRun(env: Env, f: Fn, pol: map<nat, Kind>, qol: map<nat, Kind>, site: nat, l: nat, k: nat, n: nat, labels: nat, st: State, st': State, c: nat)
    returns (j: nat)
    requires FnBelow(f, n, labels) && OnlyAt(f, site, l, k)
    requires KindOf(pol, site) == Diamond && KindOf(qol, site) == Untouched && forall s :: s != site ==> KindOf(pol, s) == KindOf(qol, s)
    requires SplitRel(f, l, k, n, labels, st, st')
    ensures j >= c && CallAt(f, site, l, k) && SplitRel(f, l, k, n, labels, Run(env, f, pol, st, c), Run(env, Split(f, l, k, n, labels), qol, st', j))
    decreases c
  {
    hide Step, FnBelow, OnlyAt, Split, KindOf, SplitRel;
    OnlyIs(f, site, l, k);
    if c == 0 {
      j := 0;
    } else {
      var g := Split(f, l, k, n, labels);
      var i := SplitStep(env, f, pol, qol, site, l, k, n, labels, st, st');
      var r := SplitRun(env, f, pol, qol, site, l, k, n, labels, Step(env, f, pol, st), Run(env, g, qol, st', i), c - 1);
      RunAdd(env, g, qol, st', i, r);
      j := i + r;
    }
  }

  /** A call turned into a diamond: the rewritten function runs as the original under the diamond policy. */
  lemma {:induction false} DiamondSimulates(env: Env, f: Fn, pol: map<nat, Kind>, site: nat, l: nat, k: nat, n: nat, labels: nat)
    requires FnBelow(f, n, labels) && OnlyAt(f, site, l, k) && KindOf(pol, site) == Diamond
    ensures CallAt(f, site, l, k) && Simulates(env, f, pol, Split(f, l, k, n, labels), pol[site := Untouched])
  {
    hide Run, OnlyAt, RegsAgree;
    OnlyIs(f, site, l, k);
    var g, qol := Split(f, l, k, n, labels), pol[site := Untouched];
    forall m: Machine, c: nat ensures SeenIn(env, f, pol, g, qol, m, c) {
      SelfAgree(m, n);
      var j := SplitRun(env, f, pol, qol, site, l, k, n, labels, At(f.entry, 0, m), At(g.entry, 0, m), c);
      assert j >= c && Seen(Run(env, f, pol, At(f.entry, 0, m), c)) == Seen(Run(env, g, qol, At(g.entry, 0, m), j));
    }
  }
}
