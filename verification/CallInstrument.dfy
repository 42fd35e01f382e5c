/** The pass over one function: which calls are candidates, how each is to be checked, and the rewriting in
    place, with the policy it enforces. */
module CallInstrument {
  import opened Options
  import opened TableSearch
  import opened CallIr
  import opened CallRewrite
  import opened CallDiamond
  import opened CallPass

  // ----- what the pass decides for a call -----

  /** What the pass knows: the module and function, the environment variable LOADER, the annotation
      callback_maybe, and for every call the origin reported for its target (0, 1 or 2) and the global it is
      read from, if any. */
  datatype Context = Context(
    moduleId: string, sourceFile: string, name: string, loader: bool, callbackMaybe: bool,
    origin: nat -> int, global: nat -> Option<string>, globalNames: set<string>)

  predicate Contains(s: string, part: string) { exists i :: 0 <= i <= |s| - |part| && s[i..][..|part|] == part }

  predicate EndsWith(s: string, part: string) { |part| <= |s| && s[|s| - |part|..] == part }

  /** Modules and functions that are left as they are. */
  predicate Skips(c: Context) {
    Contains(c.moduleId, "speedtest") || (c.loader && !Contains(c.sourceFile, "dl-call_fini"))
    || c.name == "__getrandom_early_init" || c.name == "main_init_once"
  }

  /** The functions of the C library whose calls always go to its own table. */
  const LIBC_FUNCTIONS: set<string> := {
    "__run_exit_handlers", "__libc_start_main_impl", "__libc_start_call_main", "__GI___backtrace",
    "backtrace_helper", "start_thread", "__cxa_finalize" }

  function KindFor(c: Context, site: nat): Kind {
    if Skips(c) then Untouched
    else if EndsWith(c.name, "__nptl_deallocate_tsd") then Always(3)
    else if c.name == "_dl_call_fini" && c.loader then Always(2)
    else if c.name in LIBC_FUNCTIONS then Always(0)
    else if c.origin(site) == 2 then Untouched
    else if c.callbackMaybe || c.origin(site) == 1
            || (c.origin(site) == 0 && c.global(site).Some? && c.global(site).value in c.globalNames) then Diamond
    else Mask
  }

  ghost predicate HasCall(f: Fn, site: nat) { exists l: nat, k: nat :: CallAt(f, site, l, k) }

  /** Every call instruction has a site of its own. */
  ghost predicate DistinctSites(f: Fn) { forall s: nat :: HasCall(f, s) ==> HasOne(f, s) }

  function Policy(c: Context, sites: seq<nat>): map<nat, Kind> { map s | s in sites :: KindFor(c, s) }

  /** The policy once the calls in done have been rewritten. */
  function Checked(pol: map<nat, Kind>, done: seq<nat>): map<nat, Kind>
    decreases |done|
  {
    if done == [] then pol else Checked(pol, done[..|done| - 1])[done[|done| - 1] := Untouched]
  }

  lemma {:induction false} CheckedKind(pol: map<nat, Kind>, done: seq<nat>, s: nat)
    ensures KindOf(Checked(pol, done), s) == if s in done then Untouched else KindOf(pol, s)
    decreases |done|
  {
    if done != [] {
      CheckedKind(pol, done[..|done| - 1], s);
    }
  }

  lemma {:induction false} NoneChecked(pol: map<nat, Kind>, sites: seq<nat>)
    ensures Checked(pol, sites[..0]) == pol
  {
  }

  lemma {:induction false} CheckedNext(pol: map<nat, Kind>, sites: seq<nat>, i: nat)
    requires i < |sites|
    ensures Checked(pol, sites[..i + 1]) == Checked(pol, sites[..i])[sites[i] := Untouched]
  {
    assert sites[..i + 1][..i] == sites[..i];
  }

  lemma {:induction false} SplitEquals(f: Fn, l: nat, k: nat, n: nat, labels: nat, blocks: map<nat, Block>)
    requires FnBelow(f, n, labels) && l in f.blocks && k < |f.blocks[l].instrs| && f.blocks[l].instrs[k].Call?
    requires blocks.Keys == f.blocks.Keys + {labels, labels + 1, labels + 2}
    requires forall x :: x in f.blocks && x in blocks ==> blocks[x] == OldBlock(f, l, k, n, labels, x)
    requires var added := NewBlocks(f.blocks[l], k, n, labels);
             blocks[labels] == added[labels] && blocks[labels + 1] == added[labels + 1] && blocks[labels + 2] == added[labels + 2]
    ensures Fn(blocks, f.entry) == Split(f, l, k, n, labels)
  {
    hide FnBelow, OldBlock;
    SplitBlocks(f, l, k, n, labels);
    var g := Split(f, l, k, n, labels);
    assert g.blocks.Keys == blocks.Keys;
    assert forall x :: x in blocks ==> blocks[x] == g.blocks[x];
    assert blocks == g.blocks;
  }

  lemma {:induction false} NotUsed(f: Fn, n: nat, labels: nat)
    requires FnBelow(f, n, labels)
    ensures labels !in f.blocks && labels + 1 !in f.blocks && labels + 2 !in f.blocks
  {
    hide BlockBelow;
  }

  /** The halves of the split block, joined by the new blocks. */
  lemma {:induction false} BranchDone(f: Fn, l: nat, k: nat, n: nat, labels: nat, halves: map<nat, Block>, blocks: map<nat, Block>)
    requires FnBelow(f, n, labels) && l in f.blocks && k < |f.blocks[l].instrs| && f.blocks[l].instrs[k].Call?
    requires halves.Keys == f.blocks.Keys + {labels}
    requires forall x :: x in f.blocks && x != l ==> halves[x] == f.blocks[x].(phis := RenamePhis(f.blocks[x].phis, l, labels))
    requires var b := f.blocks[l];
             var call := b.instrs[k];
             var tested := b.instrs[..k] + Test(call, n) + b.instrs[k..];
             |Test(call, n)| == 3
             && halves[l] == Block(RenamePhis(b.phis, l, labels), tested[..k + 3], Br(labels)) && halves[labels] == Block([], tested[k + 3..], b.term)
             && |halves[labels].instrs| > 0
             && blocks == halves[l := halves[l].(term := CondBr(Reg(n + 1), labels + 1, labels + 2))]
                            [labels + 1 := Block([], [Call(call.site, Result(call, n + 2), call.callee, call.args)], Br(labels))]
                            [labels + 2 := Block([], [TableCall(0, Result(call, n + 3), call.args)], Br(labels))]
                            [labels := halves[labels].(phis := MergePhis(call, n, labels), instrs := halves[labels].instrs[1..])]
    ensures Fn(blocks, f.entry) == Split(f, l, k, n, labels)
  {
    hide FnBelow, RenamePhis, MergePhis, Test, Split, Result;
    NotUsed(f, n, labels);
    var b := f.blocks[l];
    var tested := b.instrs[..k] + Test(b.instrs[k], n) + b.instrs[k..];
    assert tested[..k + 3] == b.instrs[..k] + Test(b.instrs[k], n);
    assert tested[k + 3..][1..] == b.instrs[k + 1..];
    assert blocks.Keys == f.blocks.Keys + {labels, labels + 1, labels + 2};
    SplitEquals(f, l, k, n, labels, blocks);
  }

  // ----- the candidates -----

  predicate NoRepeats(s: seq<nat>) { forall i, j :: 0 <= i < j < |s| ==> s[i] != s[j] }

  /** A call of the site in one of the blocks done, or before index i of block l. */
  ghost predicate SeenCall(f: Fn, site: nat, done: set<nat>, l: nat, i: nat) {
    exists x: nat, k: nat :: CallAt(f, site, x, k) && (x in done || (x == l && k < i))
  }

  ghost predicate Listed(f: Fn, done: set<nat>, l: nat, i: nat, sites: seq<nat>) {
    forall s: nat :: s in sites <==> SeenCall(f, s, done, l, i)
  }

  lemma {:induction false} NothingListed(f: Fn)
    ensures NoRepeats([]) && Listed(f, {}, 0, 0, [])
  {
  }

  lemma {:induction false} OneMore(s: seq<nat>, x: nat)
    requires NoRepeats(s) && x !in s
    ensures NoRepeats(s + [x])
  {
  }

  lemma {:induction false} NextBlock(f: Fn, done: set<nat>, l: nat, l': nat, sites: seq<nat>)
    requires Listed(f, done, l, 0, sites)
    ensures Listed(f, done, l', 0, sites)
  {
    forall s: nat ensures SeenCall(f, s, done, l, 0) <==> SeenCall(f, s, done, l', 0) {
    }
  }

  lemma {:induction false} NextCall(f: Fn, done: set<nat>, l: nat, i: nat, sites: seq<nat>)
    requires DistinctSites(f) && Listed(f, done, l, i, sites) && l in f.blocks && l !in done && i < |f.blocks[l].instrs|
    ensures var ins := f.blocks[l].instrs[i];
            if ins.Call? then ins.site !in sites && Listed(f, done, l, i + 1, sites + [ins.site]) else Listed(f, done, l, i + 1, sites)
  {
    var ins := f.blocks[l].instrs[i];
    if ins.Call? {
      NotYet(f, done, l, i, ins.site);
    }
    forall s: nat ensures SeenCall(f, s, done, l, i + 1) <==> SeenCall(f, s, done, l, i) || (ins.Call? && ins.site == s) {
      if ins.Call? && ins.site == s {
        assert CallAt(f, s, l, i);
      }
    }
  }

  lemma {:induction false} NotYet(f: Fn, done: set<nat>, l: nat, i: nat, site: nat)
    requires DistinctSites(f) && CallAt(f, site, l, i) && l !in done
    ensures !SeenCall(f, site, done, l, i)
  {
    assert HasCall(f, site);
    var x: nat, k: nat :| OnlyAt(f, site, x, k);
    assert x == l && k == i;
  }

  lemma {:induction false} BlockDone(f: Fn, done: set<nat>, l: nat, sites: seq<nat>)
    requires l in f.blocks && Listed(f, done, l, |f.blocks[l].instrs|, sites)
    ensures Listed(f, done + {l}, 0, 0, sites)
  {
    forall s: nat ensures SeenCall(f, s, done, l, |f.blocks[l].instrs|) <==> SeenCall(f, s, done + {l}, 0, 0) {
    }
  }

  lemma {:induction false} AllListed(f: Fn, done: set<nat>, sites: seq<nat>)
    requires Listed(f, done, 0, 0, sites) && done == f.blocks.Keys
    ensures forall s :: s in sites <==> HasCall(f, s)
  {
    forall s: nat ensures SeenCall(f, s, done, 0, 0) <==> HasCall(f, s) {
      if x: nat, k: nat :| CallAt(f, s, x, k) {
        assert x in done;
      }
    }
  }

  // ----- one candidate after the other -----

  /** The calls still to be rewritten are there, once each. */
  ghost predicate Remaining(f: Fn, sites: seq<nat>, i: nat) { forall j :: i <= j < |sites| ==> HasOne(f, sites[j]) }

  lemma {:induction false} AllHaveOne(f: Fn, sites: seq<nat>)
    requires DistinctSites(f) && forall s :: s in sites ==> HasCall(f, s)
    ensures Remaining(f, sites, 0)
  {
    hide HasCall, HasOne;
  }

  lemma {:induction false} SkipsAll(c: Context, sites: seq<nat>)
    requires Skips(c)
    ensures forall s :: KindFor(c, s) == Untouched && KindOf(Policy(c, sites), s) == KindOf(map[], s)
  {
    hide Skips;
  }

  /** The next candidate has a place, and rewriting it there keeps everything that is needed. */
  lemma {:induction false} Candidate(c: Context, env: Env, f: Fn, pol: map<nat, Kind>, g: Fn, sites: seq<nat>, i: nat, n: nat, labels: nat)
    requires FnBelow(g, n, labels) && i < |sites| && Remaining(g, sites, i) && NoRepeats(sites) && pol == Policy(c, sites)
    requires Simulates(env, f, pol, g, Checked(pol, sites[..i]))
    ensures exists l, k :: l in g.blocks && 0 <= k < |g.blocks[l].instrs| && g.blocks[l].instrs[k].Call? && g.blocks[l].instrs[k].site == sites[i]
    ensures forall l, k :: l in g.blocks && 0 <= k < |g.blocks[l].instrs| && g.blocks[l].instrs[k].Call? && g.blocks[l].instrs[k].site == sites[i]
              ==> var h := Rewrite(g, l, k, KindFor(c, sites[i]), n, labels);
                  Remaining(h, sites, i + 1) && Simulates(env, f, pol, h, Checked(pol, sites[..i + 1]))
  {
    hide FnBelow, Simulates, Checked, KindFor, Rewrite;
    assert HasOne(g, sites[i]);
    var x: nat, y: nat :| OnlyAt(g, sites[i], x, y);
    OnlyIs(g, sites[i], x, y);
    forall l, k | l in g.blocks && 0 <= k < |g.blocks[l].instrs| && g.blocks[l].instrs[k].Call? && g.blocks[l].instrs[k].site == sites[i]
      ensures var h := Rewrite(g, l, k, KindFor(c, sites[i]), n, labels);
              Remaining(h, sites, i + 1) && Simulates(env, f, pol, h, Checked(pol, sites[..i + 1]))
    {
      assert CallAt(g, sites[i], l, k);
      CandidateAt(c, env, f, pol, g, sites, i, n, labels, l, k);
    }
  }

  lemma {:induction false} CandidateAt(c: Context, env: Env, f: Fn, pol: map<nat, Kind>, g: Fn, sites: seq<nat>, i: nat, n: nat, labels: nat, l: nat, k: nat)
    requires FnBelow(g, n, labels) && i < |sites| && Remaining(g, sites, i) && NoRepeats(sites) && pol == Policy(c, sites)
    requires Simulates(env, f, pol, g, Checked(pol, sites[..i])) && OnlyAt(g, sites[i], l, k)
    ensures CallAt(g, sites[i], l, k)
    ensures var h := Rewrite(g, l, k, KindFor(c, sites[i]), n, labels);
            Remaining(h, sites, i + 1) && Simulates(env, f, pol, h, Checked(pol, sites[..i + 1]))
  {
    hide FnBelow, Simulates, Checked, KindFor, Rewrite, OnlyAt, HasOne;
    OnlyIs(g, sites[i], l, k);
    var site, now := sites[i], Checked(pol, sites[..i]);
    var h := Rewrite(g, l, k, KindFor(c, site), n, labels);
    CheckedKind(pol, sites[..i], site);
    CheckedNext(pol, sites, i);
    RewriteSimulates(env, g, now, site, l, k, n, labels);
    SimulatesTrans(env, f, pol, g, now, h, now[site := Untouched]);
    forall j | i + 1 <= j < |sites| ensures HasOne(h, sites[j]) {
      RewriteKeeps(g, l, k, KindFor(c, site), n, labels, sites[j]);
    }
  }

  lemma {:induction false} PassDone(env: Env, f: Fn, pol: map<nat, Kind>, g: Fn, sites: seq<nat>)
    requires Simulates(env, f, pol, g, Checked(pol, sites)) && forall s :: s in pol ==> s in sites
    ensures Simulates(env, f, pol, g, map[])
  {
    hide Simulates, Checked;
    forall s ensures KindOf(Checked(pol, sites), s) == KindOf(map[], s) {
      CheckedKind(pol, sites, s);
    }
    SamePolicySimulates(env, g, Checked(pol, sites), map[]);
    SimulatesTrans(env, f, pol, g, Checked(pol, sites), g, map[]);
  }

  /** A function of the module, rewritten in place. */
  class Instrumented {
    var blocks: map<nat, Block>
    const entry: nat
    var nextReg: nat
    var nextLabel: nat
    var modified: bool

    ghost function Code(): Fn
      reads this
    {
      Fn(blocks, entry)
    }

    ghost predicate Valid()
      reads this
    {
      FnBelow(Code(), nextReg, nextLabel)
    }

    constructor (f: Fn, nextReg: nat, nextLabel: nat)
      requires FnBelow(f, nextReg, nextLabel)
      ensures Valid() && Code() == f && !modified
    {
      blocks, entry, this.nextReg, this.nextLabel, modified := f.blocks, f.entry, nextReg, nextLabel, false;
    }

    /** An instruction put before the one at index k. */
    method Insert(l: nat, k: nat, ins: Instr)
      requires l in blocks && k <= |blocks[l].instrs|
      modifies this`blocks
      ensures blocks == old(blocks)[l := old(blocks)[l].(instrs := old(blocks)[l].instrs[..k] + [ins] + old(blocks)[l].instrs[k..])]
    {
      var b := blocks[l];
      blocks := blocks[l := b.(instrs := b.instrs[..k] + [ins] + b.instrs[k..])];
    }

    method InstrumentNormalCase(l: nat, k: nat)
      requires l in blocks && k < |blocks[l].instrs| && blocks[l].instrs[k].Call?
      modifies this`blocks
      ensures Code() == InBlock(old(Code()), l, k, MaskCode(old(blocks)[l].instrs[k], nextReg))
    {
      ghost var was := blocks[l].instrs;
      var call := blocks[l].instrs[k];
      Insert(l, k, OrInst(nextReg, call.callee, OrSym));
      Insert(l, k + 1, AndInst(nextReg + 1, Reg(nextReg), AndSym));
      var b := blocks[l];
      blocks := blocks[l := b.(instrs := b.instrs[k + 2 := Call(call.site, call.dst, Reg(nextReg + 1), call.args)])];
      assert blocks[l].instrs == was[..k] + MaskCode(call, nextReg) + was[k + 1..];
    }

    method AlwaysCallbackTable(l: nat, k: nat, table: nat)
      requires l in blocks && k < |blocks[l].instrs| && blocks[l].instrs[k].Call?
      modifies this`blocks
      ensures Code() == InBlock(old(Code()), l, k, TableCode(old(blocks)[l].instrs[k], table))
    {
      ghost var was := blocks[l].instrs;
      var call := blocks[l].instrs[k];
      Insert(l, k, MovR11(call.callee));
      Insert(l, k + 1, TableCall(table, call.dst, call.args));
      var b := blocks[l];
      blocks := blocks[l := b.(instrs := b.instrs[..k + 2] + b.instrs[k + 3..])];
      assert blocks[l].instrs == was[..k] + TableCode(call, table) + was[k + 1..];
    }

    /** splitBasicBlock: the instructions from index k on move to a new block, and with them the jump out. */
    method SplitBasicBlock(l: nat, k: nat, after: nat)
      requires l in blocks && k <= |blocks[l].instrs| && after !in blocks
      modifies this`blocks
      ensures blocks.Keys == old(blocks).Keys + {after}
      ensures forall x :: x in old(blocks) && x != l ==> blocks[x] == old(blocks)[x].(phis := RenamePhis(old(blocks)[x].phis, l, after))
      ensures blocks[l] == Block(RenamePhis(old(blocks)[l].phis, l, after), old(blocks)[l].instrs[..k], Br(after))
      ensures blocks[after] == Block([], old(blocks)[l].instrs[k..], old(blocks)[l].term)
    {
      var b := blocks[l];
      blocks := map x | x in blocks :: blocks[x].(phis := RenamePhis(blocks[x].phis, l, after));
      blocks := blocks[l := Block(blocks[l].phis, b.instrs[..k], Br(after))][after := Block([], b.instrs[k..], b.term)];
    }

    /** The test, branch and merge for a call that may be a callback. */
    method Branch(l: nat, k: nat)
      requires Valid() && l in blocks && k < |blocks[l].instrs| && blocks[l].instrs[k].Call?
      modifies this`blocks
      ensures Code() == Split(old(Code()), l, k, nextReg, nextLabel)
    {
      hide FnBelow, RenamePhis, MergePhis, Test, Split, Result;
      ghost var f := Code();
      var call := blocks[l].instrs[k];
      var n, after := nextReg, nextLabel;
      NotUsed(f, n, after);
      InsertTest(l, k);
      SplitBasicBlock(l, k + 3, after);
      ghost var halves := blocks;
      var callBlock, skipBlock := after + 1, after + 2;
      blocks := blocks[l := blocks[l].(term := CondBr(Reg(n + 1), callBlock, skipBlock))];
      blocks := blocks[callBlock := Block([], [Call(call.site, Result(call, n + 2), call.callee, call.args)], Br(after))];
      blocks := blocks[skipBlock := Block([], [TableCall(0, Result(call, n + 3), call.args)], Br(after))];
      var b := blocks[after];
      blocks := blocks[after := b.(phis := MergePhis(call, n, after), instrs := b.instrs[1..])];
      BranchDone(f, l, k, n, after, halves, blocks);
    }

    /** The three instructions of the test, put before the call. */
    method InsertTest(l: nat, k: nat)
      requires l in blocks && k < |blocks[l].instrs| && blocks[l].instrs[k].Call?
      modifies this`blocks
      ensures |Test(old(blocks)[l].instrs[k], nextReg)| == 3
      ensures blocks == old(blocks)[l := old(blocks)[l].(instrs := old(blocks)[l].instrs[..k] + Test(old(blocks)[l].instrs[k], nextReg) + old(blocks)[l].instrs[k..])]
    {
      ghost var was := blocks[l].instrs;
      var call := blocks[l].instrs[k];
      Insert(l, k, MovR11(call.callee));
      Insert(l, k + 1, MaskAsm(nextReg, call.callee));
      Insert(l, k + 2, CmpEq(nextReg + 1, call.callee, Reg(nextReg)));
      assert blocks[l].instrs == was[..k] + Test(call, nextReg) + was[k..];
    }

    /** One candidate. */
    method Instrument(l: nat, k: nat, kind: Kind)
      requires Valid() && l in blocks && k < |blocks[l].instrs| && blocks[l].instrs[k].Call?
      modifies this
      ensures Code() == Rewrite(old(Code()), l, k, kind, old(nextReg), old(nextLabel))
      ensures Valid() && modified == (old(modified) || kind != Untouched)
    {
      hide FnBelow, Split, InBlock, MaskCode, TableCode;
      RewriteBelow(Code(), l, k, kind, nextReg, nextLabel);
      match kind {
        case Untouched => return;
        case Mask => InstrumentNormalCase(l, k);
        case Diamond => Branch(l, k);
        case Always(table) => AlwaysCallbackTable(l, k, table);
      }
      nextReg, nextLabel, modified := nextReg + 4, nextLabel + 3, true;
    }

    /** The indirect calls of the function. */
    method Collect() returns (candidates: seq<nat>)
      requires DistinctSites(Code())
      ensures NoRepeats(candidates) && forall s :: s in candidates <==> HasCall(Code(), s)
    {
      hide DistinctSites, HasCall, SeenCall, NoRepeats, Listed;
      NothingListed(Code());
      candidates := [];
      var todo := blocks.Keys;
      ghost var done := {};
      while todo != {}
        invariant todo + done == blocks.Keys && todo !! done
        invariant NoRepeats(candidates) && Listed(Code(), done, 0, 0, candidates)
        decreases |todo|
      {
        var l :| l in todo;
        var instrs, i := blocks[l].instrs, 0;
        NextBlock(Code(), done, 0, l, candidates);
        while i < |instrs|
          invariant i <= |instrs| && NoRepeats(candidates) && Listed(Code(), done, l, i, candidates)
        {
          NextCall(Code(), done, l, i, candidates);
          if instrs[i].Call? {
            OneMore(candidates, instrs[i].site);
            candidates := candidates + [instrs[i].site];
          }
          i := i + 1;
        }
        BlockDone(Code(), done, l, candidates);
        todo, done := todo - {l}, done + {l};
      }
      AllListed(Code(), done, candidates);
    }

    /** The pass over a function: afterwards the function, run plainly, is the original under the policy. */
    method RunPass(c: Context, ghost env: Env) returns (candidates: seq<nat>)
      requires Valid() && DistinctSites(Code())
      modifies this
      ensures Valid() && forall s :: s in candidates <==> HasCall(old(Code()), s)
      ensures Simulates(env, old(Code()), Policy(c, candidates), Code(), map[])
      ensures modified == (old(modified) || exists s :: s in candidates && KindFor(c, s) != Untouched)
    {
      hide HasCall, Simulates, KindFor, Skips, DistinctSites, Remaining, Checked, NoRepeats, FnBelow, Rewrite;
      candidates := Collect();
      ghost var f, pol := Code(), Policy(c, candidates);
      if Skips(c) {
        SkipsAll(c, candidates);
        SamePolicySimulates(env, f, pol, map[]);
        return;
      }
      AllHaveOne(f, candidates);
      SimulatesRefl(env, f, pol);
      NoneChecked(pol, candidates);
      var i := 0;
      while i < |candidates|
        invariant i <= |candidates| && Valid() && Remaining(Code(), candidates, i)
        invariant Simulates(env, f, pol, Code(), Checked(pol, candidates[..i]))
        invariant modified == (old(modified) || exists j :: 0 <= j < i && KindFor(c, candidates[j]) != Untouched)
      {
        var site := candidates[i];
        Candidate(c, env, f, pol, Code(), candidates, i, nextReg, nextLabel);
        var l, k :| l in blocks && 0 <= k < |blocks[l].instrs| && blocks[l].instrs[k].Call? && blocks[l].instrs[k].site == site;
        Instrument(l, k, KindFor(c, site));
        i := i + 1;
      }
      assert candidates[..i] == candidates;
      PassDone(env, f, pol, Code(), candidates);
    }
  }
}
