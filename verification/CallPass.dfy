/** The rewriting of all the indirect calls of a function, one after the other. */
module CallPass {
  import opened Options
  import opened TableSearch
  import opened CallIr
  import opened CallRewrite
  import opened CallDiamond

  // ----- one rewriting -----

  function Rewrite(f: Fn, l: nat, k: nat, kind: Kind, n: nat, labels: nat): Fn
    requires l in f.blocks && k < |f.blocks[l].instrs| && f.blocks[l].instrs[k].Call?
  {
    match kind
    case Untouched => f
    case Mask => InBlock(f, l, k, MaskCode(f.blocks[l].instrs[k], n))
    case Diamond => Split(f, l, k, n, labels)
    case Always(table) => InBlock(f, l, k, TableCode(f.blocks[l].instrs[k], table))
  }

  /** Policies that treat every site alike give the same runs. */
  lemma {:induction false} SamePolicy(env: Env, f: Fn, p: map<nat, Kind>, q: map<nat, Kind>, st: State, n: nat)
    requires forall s :: KindOf(p, s) == KindOf(q, s)
    ensures Run(env, f, p, st, n) == Run(env, f, q, st, n)
    decreases n
  {
    if n > 0 {
      SamePolicyStep(env, f, p, q, st);
      SamePolicy(env, f, p, q, Step(env, f, p, st), n - 1);
    }
  }

  lemma {:induction false} SamePolicyStep(env: Env, f: Fn, p: map<nat, Kind>, q: map<nat, Kind>, st: State)
    requires forall s :: KindOf(p, s) == KindOf(q, s)
    ensures Step(env, f, p, st) == Step(env, f, q, st)
  {
    hide KindOf, GuardedCall, Eval, Vals, Jump, CallTo, Masked, OrWord, AndWord, EqWord, Admits, Set;
  }

  lemma {:induction false} SamePolicySimulates(env: Env, f: Fn, p: map<nat, Kind>, q: map<nat, Kind>)
    requires forall s :: KindOf(p, s) == KindOf(q, s)
    ensures Simulates(env, f, p, f, q)
  {
    hide Run, KindOf;
    forall m: Machine, n: nat ensures SeenIn(env, f, p, f, q, m, n) {
      SamePolicy(env, f, p, q, At(f.entry, 0, m), n);
      assert n >= n && Seen(Run(env, f, p, At(f.entry, 0, m), n)) == Seen(Run(env, f, q, At(f.entry, 0, m), n));
    }
  }

  /** Whatever the kind, the rewritten call does what the policy asked of the original one. */
  lemma {:induction false} RewriteSimulates(env: Env, f: Fn, pol: map<nat, Kind>, site: nat, l: nat, k: nat, n: nat, labels: nat)
    requires FnBelow(f, n, labels) && OnlyAt(f, site, l, k)
    ensures CallAt(f, site, l, k) && Simulates(env, f, pol, Rewrite(f, l, k, KindOf(pol, site), n, labels), pol[site := Untouched])
  {
    hide FnBelow, Simulates, OnlyAt;
    OnlyIs(f, site, l, k);
    match KindOf(pol, site)
    case Untouched => SamePolicySimulates(env, f, pol, pol[site := Untouched]);
    case Mask => MaskSimulates(env, f, pol, site, l, k, n, labels);
    case Diamond => DiamondSimulates(env, f, pol, site, l, k, n, labels);
    case Always(table) => TableSimulates(env, f, pol, site, l, k, table, n, labels);
  }

  // ----- names in use -----

  lemma {:induction false} InstrGrows(ins: Instr, n: nat, n': nat)
    requires InstrBelow(ins, n) && n <= n'
    ensures InstrBelow(ins, n')
  {
  }

  lemma {:induction false} PhiGrows(phi: Phi, n: nat, n': nat, labels: nat, labels': nat)
    requires PhiBelow(phi, n, labels) && n <= n' && labels <= labels'
    ensures PhiBelow(phi, n', labels')
  {
  }

  lemma {:induction false} BlockGrows(b: Block, n: nat, n': nat, labels: nat, labels': nat)
    requires BlockBelow(b, n, labels) && n <= n' && labels <= labels'
    ensures BlockBelow(b, n', labels')
  {
    hide InstrBelow, PhiBelow;
    forall i | 0 <= i < |b.instrs| ensures InstrBelow(b.instrs[i], n') { InstrGrows(b.instrs[i], n, n'); }
    forall i | 0 <= i < |b.phis| ensures PhiBelow(b.phis[i], n', labels') { PhiGrows(b.phis[i], n, n', labels, labels'); }
  }

  lemma {:induction false} InBlockBelow(f: Fn, l: nat, k: nat, code: seq<Instr>, n: nat, n': nat, labels: nat, labels': nat)
    requires FnBelow(f, n, labels) && l in f.blocks && k < |f.blocks[l].instrs| && n <= n' && labels <= labels'
    requires forall i :: 0 <= i < |code| ==> InstrBelow(code[i], n')
    ensures FnBelow(InBlock(f, l, k, code), n', labels')
  {
    hide InstrBelow, PhiBelow, TermBelow;
    var g := InBlock(f, l, k, code);
    forall x | x in g.blocks ensures x < labels' && BlockBelow(g.blocks[x], n', labels') {
      BlockGrows(f.blocks[x], n, n', labels, labels');
    }
  }

  lemma {:induction false} SplitBelow(f: Fn, l: nat, k: nat, n: nat, labels: nat)
    requires FnBelow(f, n, labels) && l in f.blocks && k < |f.blocks[l].instrs| && f.blocks[l].instrs[k].Call?
    ensures FnBelow(Split(f, l, k, n, labels), n + 4, labels + 3)
  {
    hide BlockBelow, Split, OldBlock, NewBlocks;
    var g := Split(f, l, k, n, labels);
    SplitBlocks(f, l, k, n, labels);
    BelowBlock(f, n, labels, l);
    BlockGrows(f.blocks[l], n, n + 4, labels, labels + 3);
    forall x | x in g.blocks ensures x < labels + 3 && BlockBelow(g.blocks[x], n + 4, labels + 3) {
      if x in f.blocks {
        BlockGrows(f.blocks[x], n, n + 4, labels, labels + 3);
        OldBelow(f, l, k, n, labels, x);
      } else {
        AddedBelow(f.blocks[l], k, n, labels, x);
      }
    }
  }

  lemma {:induction false} OldBelow(f: Fn, l: nat, k: nat, n: nat, labels: nat, x: nat)
    requires l in f.blocks && k < |f.blocks[l].instrs| && f.blocks[l].instrs[k].Call? && x in f.blocks
    requires BlockBelow(f.blocks[x], n + 4, labels + 3) && BlockBelow(f.blocks[l], n + 4, labels + 3)
    requires InstrBelow(f.blocks[l].instrs[k], n)
    ensures BlockBelow(OldBlock(f, l, k, n, labels, x), n + 4, labels + 3)
  {
    hide InstrBelow, TermBelow, RenamePhis, PhiBelow;
    RenameBelow(f.blocks[x].phis, l, labels, n + 4, labels + 3);
    TestBelow(f.blocks[l].instrs[k], n, labels);
  }

  lemma {:induction false} RenameBelow(phis: seq<Phi>, from: nat, to: nat, n: nat, labels: nat)
    requires forall i :: 0 <= i < |phis| ==> PhiBelow(phis[i], n, labels)
    requires to < labels
    ensures |RenamePhis(phis, from, to)| == |phis| && forall i :: 0 <= i < |phis| ==> PhiBelow(RenamePhis(phis, from, to)[i], n, labels)
  {
  }

  lemma {:induction false} TestBelow(call: Instr, n: nat, labels: nat)
    requires call.Call? && InstrBelow(call, n)
    ensures forall i :: 0 <= i < 3 ==> InstrBelow(Test(call, n)[i], n + 4)
    ensures TermBelow(CondBr(Reg(n + 1), labels + 1, labels + 2), n + 4, labels + 3)
  {
    hide ArgsBelow;
  }

  lemma {:induction false} AddedBelow(b: Block, k: nat, n: nat, labels: nat, x: nat)
    requires k < |b.instrs| && b.instrs[k].Call? && InstrBelow(b.instrs[k], n) && BlockBelow(b, n + 4, labels + 3)
    requires x == labels || x == labels + 1 || x == labels + 2
    ensures x in NewBlocks(b, k, n, labels) && BlockBelow(NewBlocks(b, k, n, labels)[x], n + 4, labels + 3)
  {
    InstrGrows(b.instrs[k], n, n + 4);
  }

  lemma {:induction false} RewriteBelow(f: Fn, l: nat, k: nat, kind: Kind, n: nat, labels: nat)
    requires FnBelow(f, n, labels) && l in f.blocks && k < |f.blocks[l].instrs| && f.blocks[l].instrs[k].Call?
    ensures FnBelow(Rewrite(f, l, k, kind, n, labels), n + 4, labels + 3)
  {
    hide FnBelow, InBlock, Split;
    var call := f.blocks[l].instrs[k];
    BelowBlock(f, n, labels, l);
    InstrGrows(call, n, n + 4);
    match kind
    case Untouched => InBlockBelow(f, l, k, [call], n, n + 4, labels, labels + 3); SameBlock(f, l, k);
    case Mask => InBlockBelow(f, l, k, MaskCode(call, n), n, n + 4, labels, labels + 3);
    case Diamond => SplitBelow(f, l, k, n, labels);
    case Always(table) => InBlockBelow(f, l, k, TableCode(call, table), n, n + 4, labels, labels + 3);
  }

  lemma {:induction false} SameBlock(f: Fn, l: nat, k: nat)
    requires l in f.blocks && k < |f.blocks[l].instrs|
    ensures InBlock(f, l, k, [f.blocks[l].instrs[k]]) == f
  {
    var b := f.blocks[l];
    assert b.instrs[..k] + [b.instrs[k]] + b.instrs[k + 1..] == b.instrs;
    assert f.blocks[l := b] == f.blocks;
  }

  // ----- the other calls -----

  /** The site has exactly one call. */
  ghost predicate HasOne(f: Fn, site: nat) { exists l: nat, k: nat :: OnlyAt(f, site, l, k) }

  lemma {:induction false} InBlockKeeps(f: Fn, l: nat, k: nat, code: seq<Instr>, site: nat, x: nat, i: nat)
    requires l in f.blocks && k < |f.blocks[l].instrs| && OnlyAt(f, site, x, i) && !(x == l && i == k) && code != []
    requires forall j :: 0 <= j < |code| && code[j].Call? ==> code[j].site != site
    ensures 0 <= Moved(l, k, |code|, x, i) && OnlyAt(InBlock(f, l, k, code), site, x, Moved(l, k, |code|, x, i))
  {
    var g := InBlock(f, l, k, code);
    MovedInstr(f, l, k, code, x, i);
    forall y: nat, j: nat | CallAt(g, site, y, j) ensures y == x && j == Moved(l, k, |code|, x, i) {
      InBlockBack(f, l, k, code, site, y, j);
      var o: nat := if y == l && j >= k + |code| then j - |code| + 1 else j;
      assert CallAt(f, site, y, o);
    }
  }

  lemma {:induction false} InBlockBack(f: Fn, l: nat, k: nat, code: seq<Instr>, site: nat, y: nat, j: nat)
    requires l in f.blocks && k < |f.blocks[l].instrs| && code != []
    requires forall i :: 0 <= i < |code| && code[i].Call? ==> code[i].site != site
    requires CallAt(InBlock(f, l, k, code), site, y, j)
    ensures y == l ==> j < k || j >= k + |code|
    ensures CallAt(f, site, y, if y == l && j >= k + |code| then j - |code| + 1 else j)
  {
    if y == l {
      var b := f.blocks[l];
      var instrs := b.instrs[..k] + code + b.instrs[k + 1..];
      assert j >= k + |code| ==> instrs[j] == b.instrs[j - |code| + 1];
    }
  }

  lemma {:induction false} SplitKeeps(f: Fn, l: nat, k: nat, n: nat, labels: nat, site: nat, x: nat, i: nat)
    requires FnBelow(f, n, labels) && l in f.blocks && k < |f.blocks[l].instrs| && f.blocks[l].instrs[k].Call?
    requires OnlyAt(f, site, x, i) && f.blocks[l].instrs[k].site != site
    ensures HasOne(Split(f, l, k, n, labels), site)
  {
    hide FnBelow, Split;
    var g := Split(f, l, k, n, labels);
    var x' := if x == l && i > k then labels else x;
    var i' := if x == l && i > k then i - k - 1 else i;
    SplitInstrs(f, l, k, n, labels, x, i);
    assert CallAt(g, site, x', i');
    forall y: nat, j: nat | CallAt(g, site, y, j) ensures y == x' && j == i' {
      SplitBack(f, l, k, n, labels, site, y, j);
      assert CallAt(f, site, if y == labels then l else y, if y == labels then j + k + 1 else j);
      BelowBlock(f, n, labels, x);
    }
    assert OnlyAt(g, site, x', i');
  }

  lemma {:induction false} SplitBack(f: Fn, l: nat, k: nat, n: nat, labels: nat, site: nat, y: nat, j: nat)
    requires FnBelow(f, n, labels) && l in f.blocks && k < |f.blocks[l].instrs| && f.blocks[l].instrs[k].Call?
    requires f.blocks[l].instrs[k].site != site && CallAt(Split(f, l, k, n, labels), site, y, j)
    ensures CallAt(f, site, if y == labels then l else y, if y == labels then j + k + 1 else j)
    ensures y == l ==> j < k
  {
    hide FnBelow, Split, RenamePhis, MergePhis;
    SplitBlocks(f, l, k, n, labels);
    if y !in f.blocks {
      assert y == labels;
    }
  }

  lemma {:induction false} RewriteKeeps(f: Fn, l: nat, k: nat, kind: Kind, n: nat, labels: nat, site: nat)
    requires FnBelow(f, n, labels) && l in f.blocks && k < |f.blocks[l].instrs| && f.blocks[l].instrs[k].Call?
    requires f.blocks[l].instrs[k].site != site && HasOne(f, site)
    ensures HasOne(Rewrite(f, l, k, kind, n, labels), site)
  {
    hide FnBelow, InBlock, Split;
    var x: nat, i: nat :| OnlyAt(f, site, x, i);
    OnlyIs(f, site, x, i);
    var call := f.blocks[l].instrs[k];
    match kind
    case Untouched =>
    case Mask => InBlockKeeps(f, l, k, MaskCode(call, n), site, x, i);
    case Diamond => SplitKeeps(f, l, k, n, labels, site, x, i);
    case Always(table) => InBlockKeeps(f, l, k, TableCode(call, table), site, x, i);
  }
}
