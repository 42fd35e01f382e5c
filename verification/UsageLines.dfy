/** What the usage loop prints: argument strings cut at their newlines, and every choice of one line from each. */
module UsageLines {
  import opened Options
  import opened ArgpTree
  import opened UsagePatterns

  // ----- the lines of a string -----

  /** The lines of a string, in order. */
  function Lines(doc: string): (ls: seq<string>)
    ensures |ls| >= 1
  {
    seq(LinesFrom(doc, 0), k requires 0 <= k < LinesFrom(doc, 0) => LineFrom(doc, 0, k))
  }

  /** Lines put together again, with a newline between neighbours. */
  function Joined(ls: seq<string>): string {
    if ls == [] then "" else if |ls| == 1 then ls[0] else ls[0] + ("\n" + Joined(ls[1..]))
  }

  function LinesAfter(doc: string, from: nat): seq<string>
    requires from <= |doc|
  {
    seq(LinesFrom(doc, from), k requires 0 <= k < LinesFrom(doc, from) => LineFrom(doc, from, k))
  }

  lemma {:induction false} NoNewlineBefore(doc: string, from: nat)
    requires from <= |doc|
    ensures '\n' !in doc[from..NextNewline(doc, from)]
    decreases |doc| - from
  {
    if from < |doc| && doc[from] != '\n' {
      NoNewlineBefore(doc, from + 1);
      assert doc[from..NextNewline(doc, from)] == [doc[from]] + doc[from + 1..NextNewline(doc, from)];
    }
  }

  lemma {:induction false} LinesCons(doc: string, from: nat)
    requires from <= |doc|
    ensures var nl := NextNewline(doc, from);
            LinesAfter(doc, from) == [doc[from..nl]] + if nl < |doc| then LinesAfter(doc, nl + 1) else []
  {
    hide NextNewline;
    var nl := NextNewline(doc, from);
    if nl < |doc| {
      var a, b := LinesAfter(doc, from), [doc[from..nl]] + LinesAfter(doc, nl + 1);
      forall k | 0 <= k < |a| ensures a[k] == b[k] {}
    }
  }

  lemma {:induction false} JoinedFrom(doc: string, from: nat)
    requires from <= |doc|
    ensures Joined(LinesAfter(doc, from)) == doc[from..] && forall l :: l in LinesAfter(doc, from) ==> '\n' !in l
    decreases |doc| - from
  {
    hide LinesAfter, NextNewline;
    var nl := NextNewline(doc, from);
    NoNewlineBefore(doc, from);
    LinesCons(doc, from);
    if nl < |doc| {
      JoinedFrom(doc, nl + 1);
      SomeLines(doc, nl + 1);
      var ls := LinesAfter(doc, from);
      assert ls[1..] == LinesAfter(doc, nl + 1);
      assert doc[from..] == doc[from..nl] + ("\n" + doc[nl + 1..]);
    } else {
      assert doc[from..nl] == doc[from..];
    }
  }

  lemma {:induction false} SomeLines(doc: string, from: nat)
    requires from <= |doc|
    ensures LinesAfter(doc, from) != []
  {
  }

  /** The lines of a string hold no newline, and put together again are the string. */
  lemma {:induction false} LinesAreTheText(doc: string)
    ensures Joined(Lines(doc)) == doc && forall l :: l in Lines(doc) ==> '\n' !in l
  {
    JoinedFrom(doc, 0);
    assert Lines(doc) == LinesAfter(doc, 0) && doc[0..] == doc;
  }

  // ----- one line from each string -----

  /** A line chosen for the argument string of an argp; 0 where there is none. */
  predicate Chooses(shown: Shown, a: Argp, k: nat) { if shown(a).Some? then k < |Lines(shown(a).value)| else k == 0 }

  predicate IsChoice(shown: Shown, nodes: seq<Argp>, ks: seq<nat>) {
    |ks| == |nodes| && forall i :: 0 <= i < |nodes| ==> Chooses(shown, nodes[i], ks[i])
  }

  /** The lines chosen, one per argument string, in the order of the argps. */
  function Chosen(shown: Shown, nodes: seq<Argp>, ks: seq<nat>): seq<string>
    requires IsChoice(shown, nodes, ks)
  {
    if nodes == [] then [] else
    var last := |nodes| - 1;
    assert Chooses(shown, nodes[last], ks[last]);
    Chosen(shown, nodes[..last], ks[..last]) + if shown(nodes[last]).Some? then [Lines(shown(nodes[last]).value)[ks[last]]] else []
  }

  /** The levels that stand for a choice: one for each string of several lines. */
  function LevelsOf(shown: Shown, nodes: seq<Argp>, ks: seq<nat>): seq<int>
    requires |ks| == |nodes|
  {
    if nodes == [] then [] else
    var last := |nodes| - 1;
    LevelsOf(shown, nodes[..last], ks[..last]) + if Multi(shown, nodes[last]) then [ks[last]] else []
  }

  lemma {:induction false} ChosenAppend(shown: Shown, a: seq<Argp>, b: seq<Argp>, ka: seq<nat>, kb: seq<nat>)
    requires IsChoice(shown, a, ka) && IsChoice(shown, b, kb)
    ensures IsChoice(shown, a + b, ka + kb) && Chosen(shown, a + b, ka + kb) == Chosen(shown, a, ka) + Chosen(shown, b, kb)
    decreases |b|
  {
    hide Chooses, Lines;
    if b == [] {
      assert a + b == a && ka + kb == ka;
    } else {
      var l := |b| - 1;
      assert (a + b)[..|a + b| - 1] == a + b[..l] && (ka + kb)[..|a + b| - 1] == ka + kb[..l];
      ChosenAppend(shown, a, b[..l], ka, kb[..l]);
    }
  }

  lemma {:induction false} LevelsAppend(shown: Shown, a: seq<Argp>, b: seq<Argp>, ka: seq<nat>, kb: seq<nat>)
    requires |a| == |ka| && |b| == |kb|
    ensures LevelsOf(shown, a + b, ka + kb) == LevelsOf(shown, a, ka) + LevelsOf(shown, b, kb)
    decreases |b|
  {
    hide Multi;
    if b == [] {
      assert a + b == a && ka + kb == ka;
    } else {
      var l := |b| - 1;
      assert (a + b)[..|a + b| - 1] == a + b[..l] && (ka + kb)[..|a + b| - 1] == ka + kb[..l];
      LevelsAppend(shown, a, b[..l], ka, kb[..l]);
    }
  }

  lemma {:induction false} ChosenOne(shown: Shown, a: Argp, k: nat)
    requires Chooses(shown, a, k)
    ensures IsChoice(shown, [a], [k])
    ensures Chosen(shown, [a], [k]) == if shown(a).Some? then [Lines(shown(a).value)[k]] else []
    ensures LevelsOf(shown, [a], [k]) == if Multi(shown, a) then [k] else []
  {
    hide Chooses, Multi, Lines;
    assert [a][..0] == [] && [k][..0] == [];
    assert Chosen(shown, [], []) == [] && LevelsOf(shown, [], []) == [];
    assert Chooses(shown, [a][0], [k][0]);
  }

  /** What the tree prints at the levels of a choice are the lines chosen. */
  ghost predicate Prints(shown: Shown, t: Argp, ks: seq<nat>)
    requires |ks| == |Nodes(t)|
  {
    var ds := LevelsOf(shown, Nodes(t), ks);
    && |ds| == Digits(shown, t) && Safe(shown, t, ds)
    && IsChoice(shown, Nodes(t), ks) && Pattern(shown, t, ds) == Chosen(shown, Nodes(t), ks)
  }

  ghost predicate PrintsOf(shown: Shown, cs: seq<ArgpChild>, ks: seq<nat>)
    requires |ks| == |NodesOf(cs)|
  {
    var ds := LevelsOf(shown, NodesOf(cs), ks);
    && |ds| == DigitsOf(shown, cs) && SafeOf(shown, cs, ds)
    && IsChoice(shown, NodesOf(cs), ks) && PatternOf(shown, cs, ds) == Chosen(shown, NodesOf(cs), ks)
  }

  lemma {:induction false} OwnLine(shown: Shown, a: Argp, k: nat)
    requires Chooses(shown, a, k) && Radix(shown, a) <= 128
    ensures Multi(shown, a) ==> SafeLevel(Radix(shown, a), k)
    ensures shown(a).Some? ==>
              LineOf(k) < LinesFrom(shown(a).value, 0)
              && LineFrom(shown(a).value, 0, if Multi(shown, a) then LineOf(k) else 0) == Lines(shown(a).value)[k]
  {
  }

  lemma {:induction false} TreePrints(shown: Shown, t: Argp, ks: seq<nat>)
    requires IsChoice(shown, Nodes(t), ks) && Narrow(shown, Nodes(t))
    ensures Prints(shown, t, ks)
    decreases t, 1
  {
    hide Chooses, PatternOf, SafeOf, DigitsOf, NodesOf, Chosen, LevelsOf, Lines, LineFrom, SafeLevel, Radix, Narrow, Multi;
    var rest := NodesOf(t.children);
    assert Nodes(t) == [t] + rest && ks == [ks[0]] + ks[1..];
    RestChoice(shown, t, rest, ks);
    ChildrenPrint(shown, t.children, ks[1..]);
    OwnLine(shown, t, ks[0]);
    ChosenOne(shown, t, ks[0]);
    ChosenAppend(shown, [t], rest, [ks[0]], ks[1..]);
    LevelsAppend(shown, [t], rest, [ks[0]], ks[1..]);
    var ds, tail := LevelsOf(shown, Nodes(t), ks), LevelsOf(shown, rest, ks[1..]);
    assert ds[Own(shown, t)..] == tail;
  }

  lemma {:induction false} RestChoice(shown: Shown, t: Argp, rest: seq<Argp>, ks: seq<nat>)
    requires IsChoice(shown, [t] + rest, ks) && Narrow(shown, [t] + rest)
    ensures Chooses(shown, t, ks[0]) && Radix(shown, t) <= 128 && IsChoice(shown, rest, ks[1..]) && Narrow(shown, rest)
  {
    hide Chooses, Radix;
    var all := [t] + rest;
    assert all[0] == t && t in all;
    forall i | 0 <= i < |rest| ensures Chooses(shown, rest[i], ks[1..][i]) { assert all[i + 1] == rest[i]; }
    forall a | a in rest ensures a in all { var i :| 0 <= i < |rest| && rest[i] == a; assert all[i + 1] == a; }
  }

  lemma {:induction false} ChildrenPrint(shown: Shown, cs: seq<ArgpChild>, ks: seq<nat>)
    requires IsChoice(shown, NodesOf(cs), ks) && Narrow(shown, NodesOf(cs))
    ensures PrintsOf(shown, cs, ks)
    decreases cs, 0
  {
    hide Chooses, Pattern, Safe, Digits, Nodes, Chosen, LevelsOf, Narrow;
    if cs == [] {
      NothingChosen(shown);
    } else {
      var last := |cs| - 1;
      assert cs decreases to cs[last];
      var front, back := NodesOf(cs[..last]), Nodes(cs[last].argp);
      var kf, kb := ks[..|front|], ks[|front|..];
      assert NodesOf(cs) == front + back && ks == kf + kb;
      SplitChoice(shown, front, back, kf, kb);
      ChildrenPrint(shown, cs[..last], kf);
      TreePrints(shown, cs[last].argp, kb);
      ChosenAppend(shown, front, back, kf, kb);
      LevelsAppend(shown, front, back, kf, kb);
      var ds, df := LevelsOf(shown, NodesOf(cs), ks), LevelsOf(shown, front, kf);
      assert ds[..|df|] == df && ds[|df|..] == LevelsOf(shown, back, kb);
    }
  }

  lemma {:induction false} NothingChosen(shown: Shown)
    ensures Chosen(shown, [], []) == [] && LevelsOf(shown, [], []) == []
  {
  }

  lemma {:induction false} SplitChoice(shown: Shown, a: seq<Argp>, b: seq<Argp>, ka: seq<nat>, kb: seq<nat>)
    requires |a| == |ka| && |b| == |kb| && IsChoice(shown, a + b, ka + kb) && Narrow(shown, a + b)
    ensures IsChoice(shown, a, ka) && IsChoice(shown, b, kb) && Narrow(shown, a) && Narrow(shown, b)
  {
    hide Chooses, Radix;
    var all, ks := a + b, ka + kb;
    forall i | 0 <= i < |a| ensures Chooses(shown, a[i], ka[i]) { assert all[i] == a[i] && ks[i] == ka[i]; }
    forall i | 0 <= i < |b| ensures Chooses(shown, b[i], kb[i]) { assert all[|a| + i] == b[i] && ks[|a| + i] == kb[i]; }
  }

  /** Every choice of one line from each argument string is printed, in preorder of the argps, and its levels are
      current in exactly one round of the usage loop. */
  lemma {:induction false} EveryChoicePrinted(shown: Shown, t: Argp, ks: seq<nat>) returns (i: nat)
    requires Narrow(shown, Nodes(t)) && IsChoice(shown, Nodes(t), ks)
    ensures i < Count(shown, t) && LevelsAt(shown, t, i) == LevelsOf(shown, Nodes(t), ks)
    ensures Safe(shown, t, LevelsAt(shown, t, i)) && Pattern(shown, t, LevelsAt(shown, t, i)) == Chosen(shown, Nodes(t), ks)
    ensures forall j: nat :: j < Count(shown, t) && LevelsAt(shown, t, j) == LevelsOf(shown, Nodes(t), ks) ==> j == i
  {
    hide Chooses, Pattern, Safe, Digits, Nodes, Chosen, LevelsOf, Narrow, Count, LevelsAt;
    TreePrints(shown, t, ks);
    i := EachCombinationOnce(shown, t, LevelsOf(shown, Nodes(t), ks));
  }
}
