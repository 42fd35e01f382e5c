/** A small block language for functions with indirect calls, run against an environment that answers for
    everything outside the function. Each indirect call runs under a policy for its site: the plain policy is
    the program as written, the others are what the instrumentation is meant to enforce. */
module CallIr {
  import opened Options
  import opened TableSearch

  type Word = bv64

  /** Registers, constants, and the addresses of the symbols or_mask and and_mask. */
  datatype Operand = Reg(r: nat) | Const(w: Word) | OrSym | AndSym

  datatype Instr =
    | Op(dst: Option<nat>, id: nat, args: seq<Operand>)                           // anything else, direct calls included
    | Call(site: nat, dst: Option<nat>, callee: Operand, args: seq<Operand>)      // an indirect call
    | OrInst(t: nat, a: Operand, b: Operand)
    | AndInst(t: nat, a: Operand, b: Operand)
    | MaskAsm(t: nat, a: Operand)                                                 // or and and with the contents of the masks
    | CmpEq(t: nat, a: Operand, b: Operand)
    | MovR11(a: Operand)
    | TableCall(table: nat, dst: Option<nat>, args: seq<Operand>)                 // a call of a table stub

  datatype Phi = Phi(dst: nat, incoming: map<nat, Operand>)

  datatype Term = Br(to: nat) | CondBr(cond: Operand, yes: nat, no: nat) | Ret(value: Option<Operand>)

  datatype Block = Block(phis: seq<Phi>, instrs: seq<Instr>, term: Term)

  datatype Fn = Fn(blocks: map<nat, Block>, entry: nat)

  /** How a call site is checked. */
  datatype Kind = Untouched | Mask | Diamond | Always(table: nat)

  function KindOf(pol: map<nat, Kind>, site: nat): Kind { if site in pol then pol[site] else Untouched }

  // ----- runs -----

  datatype Event =
    | Did(id: nat, args: seq<Word>, value: Word)
    | Called(target: Word, args: seq<Word>, result: Option<Word>)
    | Trap

  /** What is outside: other operations and callees answer from what has happened so far; a callee may not
      return. Then the addresses and contents of the masks, and the memory at each table. */
  datatype Env = Env(
    op: (nat, seq<Word>, seq<Event>) -> Word,
    call: (Word, seq<Word>, seq<Event>) -> Option<Word>,
    orAddr: Word, andAddr: Word, orVal: Word, andVal: Word,
    tables: nat -> seq<Word>)

  datatype Machine = Machine(regs: map<nat, Word>, r11: Word, trace: seq<Event>)

  datatype Effect = Go(m: Machine) | Stop(trace: seq<Event>)

  datatype State = At(block: nat, index: nat, m: Machine) | Done(value: Option<Word>, trace: seq<Event>) | Stopped(trace: seq<Event>) | Stuck(trace: seq<Event>)

  function Get(regs: map<nat, Word>, r: nat): Word { if r in regs then regs[r] else 0 }

  function Eval(env: Env, regs: map<nat, Word>, o: Operand): Word {
    match o
    case Reg(r) => Get(regs, r)
    case Const(w) => w
    case OrSym => env.orAddr
    case AndSym => env.andAddr
  }

  function Vals(env: Env, regs: map<nat, Word>, args: seq<Operand>): seq<Word> {
    if args == [] then [] else [Eval(env, regs, args[0])] + Vals(env, regs, args[1..])
  }

  function Set(regs: map<nat, Word>, dst: Option<nat>, w: Word): map<nat, Word> {
    match dst
    case None => regs
    case Some(r) => regs[r := w]
  }

  /** A call that is made. It leaves nothing to rely on in r11. */
  function CallTo(env: Env, dst: Option<nat>, target: Word, args: seq<Word>, m: Machine): Effect {
    match env.call(target, args, m.trace)
    case None => Stop(m.trace + [Called(target, args, None)])
    case Some(w) => Go(Machine(Set(m.regs, dst, w), 0, m.trace + [Called(target, args, Some(w))]))
  }

  /** The target a checked call goes to, if it goes anywhere. */
  function Guard(env: Env, kind: Kind, t: Word): Option<Word> {
    match kind
    case Untouched => Some(t)
    case Mask => Some(Masked(env.orAddr, env.andAddr, t))
    case Diamond => if Kept(env.orVal, env.andVal, t) || Admits(env.tables(0), t) then Some(t) else None
    case Always(table) => if Admits(env.tables(table), t) then Some(t) else None
  }

  function GuardedCall(env: Env, kind: Kind, dst: Option<nat>, t: Word, args: seq<Word>, m: Machine): Effect {
    match Guard(env, kind, t)
    case None => Stop(m.trace + [Trap])
    case Some(t') => CallTo(env, dst, t', args, m)
  }

  function OrWord(a: Word, b: Word): Word { a | b }

  function AndWord(a: Word, b: Word): Word { a & b }

  function EqWord(a: Word, b: Word): Word { if a == b then 1 else 0 }

  function Exec(env: Env, pol: map<nat, Kind>, ins: Instr, m: Machine): Effect {
    match ins
    case Op(dst, id, args) =>
      var vals := Vals(env, m.regs, args);
      var w := env.op(id, vals, m.trace);
      Go(Machine(Set(m.regs, dst, w), 0, m.trace + [Did(id, vals, w)]))
    case Call(site, dst, callee, args) =>
      GuardedCall(env, KindOf(pol, site), dst, Eval(env, m.regs, callee), Vals(env, m.regs, args), m)
    case OrInst(t, a, b) => Go(m.(regs := m.regs[t := OrWord(Eval(env, m.regs, a), Eval(env, m.regs, b))]))
    case AndInst(t, a, b) => Go(m.(regs := m.regs[t := AndWord(Eval(env, m.regs, a), Eval(env, m.regs, b))]))
    case MaskAsm(t, a) => Go(m.(regs := m.regs[t := Masked(env.orVal, env.andVal, Eval(env, m.regs, a))]))
    case CmpEq(t, a, b) => Go(m.(regs := m.regs[t := EqWord(Eval(env, m.regs, a), Eval(env, m.regs, b))]))
    case MovR11(a) => Go(m.(r11 := Eval(env, m.regs, a)))
    case TableCall(table, dst, args) =>
      if Admits(env.tables(table), m.r11) then CallTo(env, dst, m.r11, Vals(env, m.regs, args), m)
      else Stop(m.trace + [Trap])
  }

  /** The value a phi takes when control comes from a block. */
  function PhiValue(env: Env, phi: Phi, from: nat, was: map<nat, Word>): Word {
    if from in phi.incoming then Eval(env, was, phi.incoming[from]) else 0
  }

  /** All phis of a block are assigned at once. */
  function PhiRegs(env: Env, phis: seq<Phi>, from: nat, was: map<nat, Word>, regs: map<nat, Word>): map<nat, Word>
    decreases |phis|
  {
    if phis == [] then regs
    else PhiRegs(env, phis[1..], from, was, regs[phis[0].dst := PhiValue(env, phis[0], from, was)])
  }

  function Enter(env: Env, f: Fn, from: nat, to: nat, m: Machine): State {
    if to in f.blocks then At(to, 0, m.(regs := PhiRegs(env, f.blocks[to].phis, from, m.regs, m.regs)))
    else Stuck(m.trace)
  }

  function Jump(env: Env, f: Fn, from: nat, term: Term, m: Machine): State {
    match term
    case Br(to) => Enter(env, f, from, to, m)
    case CondBr(cond, yes, no) => Enter(env, f, from, if Eval(env, m.regs, cond) != 0 then yes else no, m)
    case Ret(value) =>
      Done(match value case None => None case Some(o) => Some(Eval(env, m.regs, o)), m.trace)
  }

  function After(block: nat, index: nat, e: Effect): State {
    match e
    case Go(m) => At(block, index + 1, m)
    case Stop(trace) => Stopped(trace)
  }

  function Step(env: Env, f: Fn, pol: map<nat, Kind>, st: State): State {
    match st
    case At(l, i, m) =>
      if l !in f.blocks || i > |f.blocks[l].instrs| then Stuck(m.trace)
      else if i < |f.blocks[l].instrs| then After(l, i, Exec(env, pol, f.blocks[l].instrs[i], m))
      else Jump(env, f, l, f.blocks[l].term, m)
    case Done(_, _) => st
    case Stopped(_) => st
    case Stuck(_) => st
  }

  function Run(env: Env, f: Fn, pol: map<nat, Kind>, st: State, n: nat): State
    decreases n
  {
    if n == 0 then st else Run(env, f, pol, Step(env, f, pol, st), n - 1)
  }

  /** What can be seen of a state from outside: the events so far, and how the function ended if it has. */
  function Seen(st: State): State {
    if st.At? then At(0, 0, Machine(map[], 0, st.m.trace)) else st
  }

  /** Every point of a run of f can be seen in a run of g that has gone at least as far. */
  ghost predicate Simulates(env: Env, f: Fn, pol: map<nat, Kind>, g: Fn, qol: map<nat, Kind>) {
    forall m: Machine, n: nat :: SeenIn(env, f, pol, g, qol, m, n)
  }

  ghost predicate SeenIn(env: Env, f: Fn, pol: map<nat, Kind>, g: Fn, qol: map<nat, Kind>, m: Machine, n: nat) {
    exists k: nat :: k >= n && Seen(Run(env, f, pol, At(f.entry, 0, m), n)) == Seen(Run(env, g, qol, At(g.entry, 0, m), k))
  }

  lemma {:induction false} RunAdd(env: Env, f: Fn, pol: map<nat, Kind>, st: State, a: nat, b: nat)
    ensures Run(env, f, pol, st, a + b) == Run(env, f, pol, Run(env, f, pol, st, a), b)
    decreases a
  {
    hide Step;
    if a > 0 {
      RunAdd(env, f, pol, Step(env, f, pol, st), a - 1, b);
    }
  }

  lemma {:induction false} EndedStays(env: Env, f: Fn, pol: map<nat, Kind>, st: State, n: nat)
    requires !st.At?
    ensures Run(env, f, pol, st, n) == st
  {
    if n > 0 {
      EndedStays(env, f, pol, st, n - 1);
    }
  }

  lemma {:induction false} SimulatesRefl(env: Env, f: Fn, pol: map<nat, Kind>)
    ensures Simulates(env, f, pol, f, pol)
  {
    hide Run, Seen;
    forall m: Machine, n: nat ensures SeenIn(env, f, pol, f, pol, m, n) {
      assert n >= n && Seen(Run(env, f, pol, At(f.entry, 0, m), n)) == Seen(Run(env, f, pol, At(f.entry, 0, m), n));
    }
  }

  lemma {:induction false} SimulatesTrans(env: Env, f: Fn, p: map<nat, Kind>, g: Fn, q: map<nat, Kind>, h: Fn, r: map<nat, Kind>)
    requires Simulates(env, f, p, g, q) && Simulates(env, g, q, h, r)
    ensures Simulates(env, f, p, h, r)
  {
    hide Run, Seen;
    forall m: Machine, n: nat ensures SeenIn(env, f, p, h, r, m, n) {
      assert SeenIn(env, f, p, g, q, m, n);
      var k: nat :| k >= n && Seen(Run(env, f, p, At(f.entry, 0, m), n)) == Seen(Run(env, g, q, At(g.entry, 0, m), k));
      assert SeenIn(env, g, q, h, r, m, k);
      var j: nat :| j >= k && Seen(Run(env, g, q, At(g.entry, 0, m), k)) == Seen(Run(env, h, r, At(h.entry, 0, m), j));
      assert j >= n && Seen(Run(env, f, p, At(f.entry, 0, m), n)) == Seen(Run(env, h, r, At(h.entry, 0, m), j));
    }
  }

  /** The two runs end alike: if either ends, both do, in the same way and with the same events. */
  lemma {:induction false} SameEnds(env: Env, f: Fn, p: map<nat, Kind>, g: Fn, q: map<nat, Kind>, m: Machine, end: State)
    requires Simulates(env, f, p, g, q) && !end.At?
    ensures (exists n: nat :: Run(env, f, p, At(f.entry, 0, m), n) == end) <==> (exists n: nat :: Run(env, g, q, At(g.entry, 0, m), n) == end)
  {
    if n: nat :| Run(env, f, p, At(f.entry, 0, m), n) == end {
      SeenAt(env, f, p, g, q, m, n);
    }
    if k: nat :| Run(env, g, q, At(g.entry, 0, m), k) == end {
      assert SeenIn(env, f, p, g, q, m, k);
      var j: nat :| j >= k && Seen(Run(env, f, p, At(f.entry, 0, m), k)) == Seen(Run(env, g, q, At(g.entry, 0, m), j));
      RunAdd(env, g, q, At(g.entry, 0, m), k, j - k);
      EndedStays(env, g, q, end, j - k);
      assert Run(env, f, p, At(f.entry, 0, m), k) == end;
    }
  }

  lemma {:induction false} SeenAt(env: Env, f: Fn, p: map<nat, Kind>, g: Fn, q: map<nat, Kind>, m: Machine, n: nat)
    requires Simulates(env, f, p, g, q) && !Run(env, f, p, At(f.entry, 0, m), n).At?
    ensures exists k: nat :: Run(env, g, q, At(g.entry, 0, m), k) == Run(env, f, p, At(f.entry, 0, m), n)
  {
    hide Run;
    assert SeenIn(env, f, p, g, q, m, n);
    var k: nat :| k >= n && Seen(Run(env, f, p, At(f.entry, 0, m), n)) == Seen(Run(env, g, q, At(g.entry, 0, m), k));
    assert Run(env, g, q, At(g.entry, 0, m), k) == Run(env, f, p, At(f.entry, 0, m), n);
  }

  // ----- names in use -----

  /** The operand reads no register from n on. */
  predicate OperandBelow(o: Operand, n: nat) { o.Reg? ==> o.r < n }

  predicate ArgsBelow(args: seq<Operand>, n: nat) { forall i :: 0 <= i < |args| ==> OperandBelow(args[i], n) }

  predicate DstBelow(dst: Option<nat>, n: nat) { dst.Some? ==> dst.value < n }

  predicate InstrBelow(ins: Instr, n: nat) {
    match ins
    case Op(dst, _, args) => DstBelow(dst, n) && ArgsBelow(args, n)
    case Call(_, dst, callee, args) => DstBelow(dst, n) && OperandBelow(callee, n) && ArgsBelow(args, n)
    case OrInst(t, a, b) => t < n && OperandBelow(a, n) && OperandBelow(b, n)
    case AndInst(t, a, b) => t < n && OperandBelow(a, n) && OperandBelow(b, n)
    case MaskAsm(t, a) => t < n && OperandBelow(a, n)
    case CmpEq(t, a, b) => t < n && OperandBelow(a, n) && OperandBelow(b, n)
    case MovR11(a) => OperandBelow(a, n)
    case TableCall(_, dst, args) => DstBelow(dst, n) && ArgsBelow(args, n)
  }

  predicate PhiBelow(phi: Phi, n: nat, labels: nat) {
    phi.dst < n && forall l :: l in phi.incoming ==> l < labels && OperandBelow(phi.incoming[l], n)
  }

  predicate TermBelow(term: Term, n: nat, labels: nat) {
    match term
    case Br(to) => to < labels
    case CondBr(cond, yes, no) => OperandBelow(cond, n) && yes < labels && no < labels
    case Ret(value) => value.Some? ==> OperandBelow(value.value, n)
  }

  predicate BlockBelow(b: Block, n: nat, labels: nat) {
    (forall i :: 0 <= i < |b.phis| ==> PhiBelow(b.phis[i], n, labels)) &&
    (forall i :: 0 <= i < |b.instrs| ==> InstrBelow(b.instrs[i], n)) &&
    TermBelow(b.term, n, labels)
  }

  /** Registers from n on and labels from labels on are not used. */
  predicate FnBelow(f: Fn, n: nat, labels: nat) {
    f.entry in f.blocks && forall l :: l in f.blocks ==> l < labels && BlockBelow(f.blocks[l], n, labels)
  }

  // ----- machines that agree on the registers in use -----

  ghost predicate Agree(m: Machine, m': Machine, n: nat) {
    m.trace == m'.trace && m.r11 == m'.r11 && RegsAgree(m.regs, m'.regs, n)
  }

  ghost predicate RegsAgree(regs: map<nat, Word>, regs': map<nat, Word>, n: nat) {
    forall r: nat :: r < n ==> Get(regs, r) == Get(regs', r)
  }

  ghost predicate EffectsAgree(e: Effect, e': Effect, n: nat) {
    if e.Go? && e'.Go? then Agree(e.m, e'.m, n) else e == e'
  }

  lemma {:induction false} EvalAgree(env: Env, regs: map<nat, Word>, regs': map<nat, Word>, o: Operand, n: nat)
    requires RegsAgree(regs, regs', n) && OperandBelow(o, n)
    ensures Eval(env, regs, o) == Eval(env, regs', o)
  {
  }

  lemma {:induction false} ValsAgree(env: Env, regs: map<nat, Word>, regs': map<nat, Word>, args: seq<Operand>, n: nat)
    requires RegsAgree(regs, regs', n) && ArgsBelow(args, n)
    ensures Vals(env, regs, args) == Vals(env, regs', args)
    decreases |args|
  {
    if args != [] {
      hide Eval, RegsAgree, OperandBelow;
      EvalAgree(env, regs, regs', args[0], n);
      ValsAgree(env, regs, regs', args[1..], n);
    }
  }

  lemma {:induction false} SetAgree(regs: map<nat, Word>, regs': map<nat, Word>, dst: Option<nat>, w: Word, n: nat)
    requires RegsAgree(regs, regs', n)
    ensures RegsAgree(Set(regs, dst, w), Set(regs', dst, w), n)
  {
    forall r: nat | r < n ensures Get(Set(regs, dst, w), r) == Get(Set(regs', dst, w), r) {
      assert Get(regs, r) == Get(regs', r);
    }
  }

  /** A register past those in use does not matter. */
  lemma {:induction false} SetFresh(regs: map<nat, Word>, regs': map<nat, Word>, r: nat, w: Word, n: nat)
    requires RegsAgree(regs, regs', n) && n <= r
    ensures RegsAgree(regs, regs'[r := w], n)
  {
  }

  lemma {:induction false} CallAgree(env: Env, dst: Option<nat>, t: Word, args: seq<Word>, m: Machine, m': Machine, n: nat)
    requires m.trace == m'.trace && RegsAgree(m.regs, m'.regs, n)
    ensures EffectsAgree(CallTo(env, dst, t, args, m), CallTo(env, dst, t, args, m'), n)
  {
    hide RegsAgree, Set;
    match env.call(t, args, m.trace)
    case None =>
    case Some(w) => SetAgree(m.regs, m'.regs, dst, w, n);
  }

  lemma {:induction false} ExecAgree(env: Env, pol: map<nat, Kind>, qol: map<nat, Kind>, ins: Instr, m: Machine, m': Machine, n: nat)
    requires InstrBelow(ins, n) && Agree(m, m', n)
    requires ins.Call? ==> KindOf(pol, ins.site) == KindOf(qol, ins.site)
    ensures EffectsAgree(Exec(env, pol, ins, m), Exec(env, qol, ins, m'), n)
  {
    hide RegsAgree, Eval, Vals, CallTo, Set, ArgsBelow, OperandBelow, Masked, OrWord, AndWord, EqWord, Admits, Guard;
    if ins.Op? {
      ValsAgree(env, m.regs, m'.regs, ins.args, n);
      SetAgree(m.regs, m'.regs, ins.dst, env.op(ins.id, Vals(env, m.regs, ins.args), m.trace), n);
    } else if ins.Call? {
      var t, vals := Eval(env, m.regs, ins.callee), Vals(env, m.regs, ins.args);
      EvalAgree(env, m.regs, m'.regs, ins.callee, n);
      ValsAgree(env, m.regs, m'.regs, ins.args, n);
      var g := Guard(env, KindOf(pol, ins.site), t);
      if g.Some? { CallAgree(env, ins.dst, g.value, vals, m, m', n); }
    } else if ins.TableCall? {
      ValsAgree(env, m.regs, m'.regs, ins.args, n);
      CallAgree(env, ins.dst, m.r11, Vals(env, m.regs, ins.args), m, m', n);
    } else {
      PureAgree(env, pol, qol, ins, m, m', n);
    }
  }

  lemma {:induction false} PureAgree(env: Env, pol: map<nat, Kind>, qol: map<nat, Kind>, ins: Instr, m: Machine, m': Machine, n: nat)
    requires InstrBelow(ins, n) && Agree(m, m', n) && !ins.Op? && !ins.Call? && !ins.TableCall?
    ensures EffectsAgree(Exec(env, pol, ins, m), Exec(env, qol, ins, m'), n)
  {
    hide RegsAgree, Eval, OperandBelow, Masked, OrWord, AndWord, EqWord;
    EvalAgree(env, m.regs, m'.regs, ins.a, n);
    if ins.OrInst? || ins.AndInst? || ins.CmpEq? {
      EvalAgree(env, m.regs, m'.regs, ins.b, n);
    }
    if ins.OrInst? {
      SetAgree(m.regs, m'.regs, Some(ins.t), OrWord(Eval(env, m.regs, ins.a), Eval(env, m.regs, ins.b)), n);
    } else if ins.AndInst? {
      SetAgree(m.regs, m'.regs, Some(ins.t), AndWord(Eval(env, m.regs, ins.a), Eval(env, m.regs, ins.b)), n);
    } else if ins.CmpEq? {
      SetAgree(m.regs, m'.regs, Some(ins.t), EqWord(Eval(env, m.regs, ins.a), Eval(env, m.regs, ins.b)), n);
    } else if ins.MaskAsm? {
      SetAgree(m.regs, m'.regs, Some(ins.t), Masked(env.orVal, env.andVal, Eval(env, m.regs, ins.a)), n);
    }
  }

  /** The two phis take the same operand when entered from the two blocks. */
  predicate SamePhi(phi: Phi, from: nat, phi': Phi, from': nat) {
    phi.dst == phi'.dst && (from in phi.incoming <==> from' in phi'.incoming)
    && (from in phi.incoming ==> phi.incoming[from] == phi'.incoming[from'])
  }

  predicate SamePhis(phis: seq<Phi>, from: nat, phis': seq<Phi>, from': nat) {
    |phis| == |phis'| && forall i :: 0 <= i < |phis| ==> SamePhi(phis[i], from, phis'[i], from')
  }

  lemma {:induction false} PhiAgree(env: Env, phi: Phi, from: nat, phi': Phi, from': nat, was: map<nat, Word>, was': map<nat, Word>, n: nat, labels: nat)
    requires SamePhi(phi, from, phi', from') && PhiBelow(phi, n, labels) && RegsAgree(was, was', n)
    ensures PhiValue(env, phi, from, was) == PhiValue(env, phi', from', was')
  {
    hide Eval, RegsAgree;
    if from in phi.incoming {
      EvalAgree(env, was, was', phi.incoming[from], n);
    }
  }

  lemma {:induction false} PhisAgree(env: Env, phis: seq<Phi>, from: nat, phis': seq<Phi>, from': nat, was: map<nat, Word>, was': map<nat, Word>,
                                     regs: map<nat, Word>, regs': map<nat, Word>, n: nat, labels: nat)
    requires SamePhis(phis, from, phis', from') && RegsAgree(was, was', n) && RegsAgree(regs, regs', n)
    requires forall i :: 0 <= i < |phis| ==> PhiBelow(phis[i], n, labels)
    ensures RegsAgree(PhiRegs(env, phis, from, was, regs), PhiRegs(env, phis', from', was', regs'), n)
    decreases |phis|
  {
    if phis != [] {
      hide RegsAgree, SamePhi, PhiBelow, PhiValue;
      var w := PhiValue(env, phis[0], from, was);
      PhiAgree(env, phis[0], from, phis'[0], from', was, was', n, labels);
      SetAgree(regs, regs', Some(phis[0].dst), w, n);
      assert phis[0].dst == phis'[0].dst by { SameDst(phis[0], from, phis'[0], from'); }
      PhisAgree(env, phis[1..], from, phis'[1..], from', was, was', regs[phis[0].dst := w], regs'[phis[0].dst := w], n, labels);
    }
  }

  lemma {:induction false} SameDst(phi: Phi, from: nat, phi': Phi, from': nat)
    requires SamePhi(phi, from, phi', from')
    ensures phi.dst == phi'.dst
  {
  }

  /** States that differ only in registers not in use. */
  ghost predicate StatesAgree(st: State, st': State, n: nat) {
    if st.At? && st'.At? then st.block == st'.block && st.index == st'.index && Agree(st.m, st'.m, n) else st == st'
  }

  /** The same jump taken from two blocks that the phis of every block treat alike. */
  lemma {:induction false} JumpAgree(env: Env, f: Fn, from: nat, g: Fn, from': nat, term: Term, m: Machine, m': Machine, n: nat, labels: nat)
    requires FnBelow(f, n, labels) && TermBelow(term, n, labels) && Agree(m, m', n)
    requires forall l :: l < labels ==> (l in f.blocks <==> l in g.blocks)
    requires forall l :: l in f.blocks && l in g.blocks ==> SamePhis(f.blocks[l].phis, from, g.blocks[l].phis, from')
    ensures StatesAgree(Jump(env, f, from, term, m), Jump(env, g, from', term, m'), n)
  {
    hide RegsAgree, Eval, PhiRegs, SamePhis, PhiBelow;
    if term.Br? {
      EnterAgree(env, f, from, g, from', term.to, m, m', n, labels);
    } else if term.CondBr? {
      EvalAgree(env, m.regs, m'.regs, term.cond, n);
      EnterAgree(env, f, from, g, from', if Eval(env, m.regs, term.cond) != 0 then term.yes else term.no, m, m', n, labels);
    } else if term.value.Some? {
      EvalAgree(env, m.regs, m'.regs, term.value.value, n);
    }
  }

  lemma {:induction false} EnterAgree(env: Env, f: Fn, from: nat, g: Fn, from': nat, to: nat, m: Machine, m': Machine, n: nat, labels: nat)
    requires FnBelow(f, n, labels) && to < labels && Agree(m, m', n)
    requires to in f.blocks <==> to in g.blocks
    requires to in f.blocks && to in g.blocks ==> SamePhis(f.blocks[to].phis, from, g.blocks[to].phis, from')
    ensures StatesAgree(Enter(env, f, from, to, m), Enter(env, g, from', to, m'), n)
  {
    hide RegsAgree, PhiRegs, SamePhis, PhiBelow;
    if to in f.blocks {
      PhisAgree(env, f.blocks[to].phis, from, g.blocks[to].phis, from', m.regs, m'.regs, m.regs, m'.regs, n, labels);
    }
  }
}
