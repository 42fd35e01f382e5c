/** The alternative usage lines: argp_args_usage steps a vector of signed bytes, one per argument string
    with several lines, through every combination of lines. */
module UsagePatterns {
  import opened Options
  import opened ArgpTree

  /** What help shows as the argument string of an argp, after translation and the help filter. */
  type Shown = Argp -> Option<string>

  // ----- the lines of one argument string -----

  /** The position of the first newline at or after `from`, or the end. */
  function NextNewline(doc: string, from: nat): (n: nat)
    requires from <= |doc|
    ensures from <= n <= |doc| && (n < |doc| ==> doc[n] == '\n')
    decreases |doc| - from
  {
    if from == |doc| || doc[from] == '\n' then from else NextNewline(doc, from + 1)
  }

  /** The lines from `from` on: one more than the newlines there. */
  function LinesFrom(doc: string, from: nat): (n: nat)
    requires from <= |doc|
    ensures n >= 1
    decreases |doc| - from
  {
    var nl := NextNewline(doc, from);
    if nl == |doc| then 1 else 1 + LinesFrom(doc, nl + 1)
  }

  /** Line k of those that start at `from`. */
  function LineFrom(doc: string, from: nat, k: nat): string
    requires from <= |doc| && k < LinesFrom(doc, from)
    decreases k
  {
    var nl := NextNewline(doc, from);
    if k == 0 then doc[from..nl] else LineFrom(doc, nl + 1, k - 1)
  }

  /** The scan for the current line: from the k-th line on, j lines further. */
  method FindLine(doc: string, level: int) returns (cp: nat, nl: nat)
    requires level < LinesFrom(doc, 0)
    ensures cp <= nl <= |doc|
    ensures doc[cp..nl] == LineFrom(doc, 0, LineOf(level))
    ensures nl < |doc| <==> LineOf(level) + 1 < LinesFrom(doc, 0)
  {
    cp, nl := 0, NextNewline(doc, 0);
    var i := 0;
    while i < level
      invariant cp <= |doc| && nl == NextNewline(doc, cp) && 0 <= i <= LineOf(level)
      invariant LinesFrom(doc, cp) == LinesFrom(doc, 0) - i
      invariant LineFrom(doc, cp, LineOf(level) - i) == LineFrom(doc, 0, LineOf(level))
    {
      cp := nl + 1;
      nl := NextNewline(doc, cp);
      i := i + 1;
    }
  }

  /** The line a level stands for: the scan does not move for a negative level. */
  function LineOf(level: int): nat { if level < 0 then 0 else level }

  // ----- the odometer -----

  predicate Multi(shown: Shown, t: Argp) { shown(t).Some? && LinesFrom(shown(t).value, 0) > 1 }

  function Radix(shown: Shown, t: Argp): (r: nat)
    ensures r >= 1
  {
    if shown(t).Some? then LinesFrom(shown(t).value, 0) else 1
  }

  function Own(shown: Shown, t: Argp): nat { if Multi(shown, t) then 1 else 0 }

  /** How many levels a tree uses. */
  function Digits(shown: Shown, t: Argp): nat
    decreases t, 1
  {
    Own(shown, t) + DigitsOf(shown, t.children)
  }

  function DigitsOf(shown: Shown, cs: seq<ArgpChild>): nat
    decreases cs, 0
  {
    if cs == [] then 0 else
    var last := |cs| - 1;
    assert cs decreases to cs[last];
    DigitsOf(shown, cs[..last]) + Digits(shown, cs[last].argp)
  }

  /** `(*our_level)++` on a signed char. */
  function IncChar(x: int): int { if x == 127 then -128 else x + 1 }

  /** One call of argp_args_usage on the levels of a tree: the new levels, and whether it still has to advance. */
  function Step(shown: Shown, t: Argp, ds: seq<int>, adv: bool): (r: (seq<int>, bool))
    requires |ds| == Digits(shown, t)
    ensures |r.0| == |ds|
    decreases t, 1
  {
    var own := Own(shown, t);
    var (rest, carry) := StepOf(shown, t.children, ds[own..], adv);
    if own == 0 then (rest, carry)
    else if !carry then ([ds[0]] + rest, false)
    else if LineOf(ds[0]) + 1 < Radix(shown, t) then ([IncChar(ds[0])] + rest, false)
    else ([0] + rest, true)
  }

  function StepOf(shown: Shown, cs: seq<ArgpChild>, ds: seq<int>, adv: bool): (r: (seq<int>, bool))
    requires |ds| == DigitsOf(shown, cs)
    ensures |r.0| == |ds|
    decreases cs, 0
  {
    if cs == [] then ([], adv) else
    var last := |cs| - 1;
    assert cs decreases to cs[last];
    var k := DigitsOf(shown, cs[..last]);
    var (front, carry) := StepOf(shown, cs[..last], ds[..k], adv);
    var (back, carry') := Step(shown, cs[last].argp, ds[k..], carry);
    (front + back, carry')
  }

  /** The lines printed, one per argp that has an argument string, in preorder. */
  function Pattern(shown: Shown, t: Argp, ds: seq<int>): seq<string>
    requires |ds| == Digits(shown, t) && Safe(shown, t, ds)
    decreases t, 1
  {
    (if shown(t).None? then [] else [LineFrom(shown(t).value, 0, if Multi(shown, t) then LineOf(ds[0]) else 0)])
    + PatternOf(shown, t.children, ds[Own(shown, t)..])
  }

  function PatternOf(shown: Shown, cs: seq<ArgpChild>, ds: seq<int>): seq<string>
    requires |ds| == DigitsOf(shown, cs) && SafeOf(shown, cs, ds)
    decreases cs, 0
  {
    if cs == [] then [] else
    var last := |cs| - 1;
    assert cs decreases to cs[last];
    var k := DigitsOf(shown, cs[..last]);
    PatternOf(shown, cs[..last], ds[..k]) + Pattern(shown, cs[last].argp, ds[k..])
  }

  /** A level the scan can follow: a signed char below the number of lines, never negative unless it can wrap. */
  predicate SafeLevel(r: nat, d: int) { -128 <= d <= 127 && d < r && (r <= 128 ==> 0 <= d) }

  predicate Safe(shown: Shown, t: Argp, ds: seq<int>)
    requires |ds| == Digits(shown, t)
    decreases t, 1
  {
    (Multi(shown, t) ==> SafeLevel(Radix(shown, t), ds[0])) && SafeOf(shown, t.children, ds[Own(shown, t)..])
  }

  predicate SafeOf(shown: Shown, cs: seq<ArgpChild>, ds: seq<int>)
    requires |ds| == DigitsOf(shown, cs)
    decreases cs, 0
  {
    cs == [] ||
    var last := |cs| - 1;
    assert cs decreases to cs[last];
    var k := DigitsOf(shown, cs[..last]);
    SafeOf(shown, cs[..last], ds[..k]) && Safe(shown, cs[last].argp, ds[k..])
  }

  // ----- the reference: a mixed-radix number -----

  /** The number of combinations of lines. */
  function Count(shown: Shown, t: Argp): (n: nat)
    decreases t, 1
  {
    CountOf(shown, t.children) * Radix(shown, t)
  }

  function CountOf(shown: Shown, cs: seq<ArgpChild>): (n: nat)
    decreases cs, 0
  {
    if cs == [] then 1 else
    var last := |cs| - 1;
    assert cs decreases to cs[last];
    CountOf(shown, cs[..last]) * Count(shown, cs[last].argp)
  }

  /** The number a level vector stands for: children before their parent, earlier children first. */
  function Value(shown: Shown, t: Argp, ds: seq<int>): int
    requires |ds| == Digits(shown, t)
    decreases t, 1
  {
    var own := Own(shown, t);
    ValueOf(shown, t.children, ds[own..]) + CountOf(shown, t.children) * (if own == 1 then ds[0] else 0)
  }

  function ValueOf(shown: Shown, cs: seq<ArgpChild>, ds: seq<int>): int
    requires |ds| == DigitsOf(shown, cs)
    decreases cs, 0
  {
    if cs == [] then 0 else
    var last := |cs| - 1;
    assert cs decreases to cs[last];
    var k := DigitsOf(shown, cs[..last]);
    ValueOf(shown, cs[..last], ds[..k]) + CountOf(shown, cs[..last]) * Value(shown, cs[last].argp, ds[k..])
  }

  /** Every argument string has at most 128 lines. */
  predicate Narrow(shown: Shown, nodes: seq<Argp>) {
    forall a :: a in nodes ==> Radix(shown, a) <= 128
  }

  // ----- arithmetic -----

  lemma {:induction false} MulNext(c: int, d: int)
    ensures c * (d + 1) == c * d + c
  {
  }

  lemma {:induction false} MulNatural(c: nat, d: nat)
    ensures 0 <= c * d
  {
  }

  lemma {:induction false} MulGap(c: int, d: int, e: int)
    requires c >= 0
    ensures d < e ==> c * d + c <= c * e
    ensures 0 <= d ==> 0 <= c * d
    ensures c * (d + 1) == c * d + c
    decreases e - d
  {
    MulNext(c, d);
    if 0 <= d { MulNatural(c, d); }
    if d + 1 < e {
      MulGap(c, d, e - 1);
      MulNext(c, e - 1);
    }
  }

  lemma {:induction false} RadixStep(v: int, c: int, d: int, r: int)
    requires 0 <= v < c && 0 <= d < r
    ensures 0 <= v + c * d < c * r
    ensures v + c * d + 1 == c * r <==> v + 1 == c && d + 1 == r
    ensures c * (d + 1) == c * d + c
  {
    MulGap(c, d, r);
    MulGap(c, d + 1, r);
  }

  lemma {:induction false} RadixUnique(v: int, c: int, d: int, v': int, d': int)
    requires 0 <= v < c && 0 <= v' < c && v + c * d == v' + c * d'
    ensures v == v' && d == d'
  {
    MulGap(c, d, d');
    MulGap(c, d', d);
  }

  // ----- one call counts by one -----

  lemma {:induction false} NoAdvance(shown: Shown, t: Argp, ds: seq<int>)
    requires |ds| == Digits(shown, t)
    ensures Step(shown, t, ds, false) == (ds, false)
    decreases t, 1
  {
    hide StepOf, DigitsOf;
    NoAdvanceOf(shown, t.children, ds[Own(shown, t)..]);
    if Own(shown, t) == 0 { assert ds[0..] == ds; } else { assert ds == [ds[0]] + ds[1..]; }
  }

  lemma {:induction false} NoAdvanceOf(shown: Shown, cs: seq<ArgpChild>, ds: seq<int>)
    requires |ds| == DigitsOf(shown, cs)
    ensures StepOf(shown, cs, ds, false) == (ds, false)
    decreases cs, 0
  {
    if cs != [] {
      var last := |cs| - 1;
      assert cs decreases to cs[last];
      var k := DigitsOf(shown, cs[..last]);
      NoAdvanceOf(shown, cs[..last], ds[..k]);
      NoAdvance(shown, cs[last].argp, ds[k..]);
      assert ds == ds[..k] + ds[k..];
    }
  }

  lemma {:induction false} ChildrenNarrow(shown: Shown, cs: seq<ArgpChild>)
    requires cs != []
    ensures var last := |cs| - 1;
            Narrow(shown, NodesOf(cs)) <==> Narrow(shown, NodesOf(cs[..last])) && Narrow(shown, Nodes(cs[last].argp))
  {
  }

  /** With at most 128 lines everywhere, advancing adds one, modulo the number of combinations, and reports
      an overflow exactly when it wraps to zero. */
  lemma {:induction false} StepCounts(shown: Shown, t: Argp, ds: seq<int>)
    requires |ds| == Digits(shown, t) && Safe(shown, t, ds) && Narrow(shown, Nodes(t))
    ensures 0 <= Value(shown, t, ds) < Count(shown, t)
    ensures var (ds', carry) := Step(shown, t, ds, true);
            && Safe(shown, t, ds')
            && (carry <==> Value(shown, t, ds) + 1 == Count(shown, t))
            && Value(shown, t, ds') == if carry then 0 else Value(shown, t, ds) + 1
    decreases t, 1
  {
    var own := Own(shown, t);
    var c, r := CountOf(shown, t.children), Radix(shown, t);
    var d := if own == 1 then ds[0] else 0;
    assert t in Nodes(t);
    assert Narrow(shown, NodesOf(t.children));
    StepCountsOf(shown, t.children, ds[own..]);
    var v := ValueOf(shown, t.children, ds[own..]);
    RadixStep(v, c, d, r);
    var (rest, carry) := StepOf(shown, t.children, ds[own..], true);
    var ds' := Step(shown, t, ds, true).0;
    assert ds'[own..] == rest;
  }

  lemma {:induction false} StepCountsOf(shown: Shown, cs: seq<ArgpChild>, ds: seq<int>)
    requires |ds| == DigitsOf(shown, cs) && SafeOf(shown, cs, ds) && Narrow(shown, NodesOf(cs))
    ensures 0 <= ValueOf(shown, cs, ds) < CountOf(shown, cs)
    ensures var (ds', carry) := StepOf(shown, cs, ds, true);
            && SafeOf(shown, cs, ds')
            && (carry <==> ValueOf(shown, cs, ds) + 1 == CountOf(shown, cs))
            && ValueOf(shown, cs, ds') == if carry then 0 else ValueOf(shown, cs, ds) + 1
    decreases cs, 0
  {
    hide Step, StepOf, Value, ValueOf, Count, CountOf, Safe, SafeOf, Digits, DigitsOf, Narrow;
    UnfoldEmpty(shown);
    if cs != [] {
      var last := |cs| - 1;
      assert cs decreases to cs[last];
      var k, t := DigitsOf(shown, cs[..last]), cs[last].argp;
      UnfoldOf(shown, cs, ds);
      ChildrenNarrow(shown, cs);
      StepCountsOf(shown, cs[..last], ds[..k]);
      StepCounts(shown, t, ds[k..]);
      NoAdvance(shown, t, ds[k..]);
      var v, c := ValueOf(shown, cs[..last], ds[..k]), CountOf(shown, cs[..last]);
      RadixStep(v, c, Value(shown, t, ds[k..]), Count(shown, t));
      var (front, carry) := StepOf(shown, cs[..last], ds[..k], true);
      var back := Step(shown, t, ds[k..], carry).0;
      UnfoldOf(shown, cs, front + back);
      assert (front + back)[..k] == front && (front + back)[k..] == back;
    }
  }

  lemma {:induction false} UnfoldEmpty(shown: Shown)
    ensures DigitsOf(shown, []) == 0 && ValueOf(shown, [], []) == 0 && CountOf(shown, []) == 1
    ensures SafeOf(shown, [], []) && StepOf(shown, [], [], true) == ([], true)
  {
  }

  /** The last of several children, taken apart from the others. */
  lemma {:induction false} UnfoldOf(shown: Shown, cs: seq<ArgpChild>, ds: seq<int>)
    requires cs != [] && |ds| == DigitsOf(shown, cs)
    ensures var last := |cs| - 1; var k, t := DigitsOf(shown, cs[..last]), cs[last].argp;
            && |ds| == k + Digits(shown, t)
            && CountOf(shown, cs) == CountOf(shown, cs[..last]) * Count(shown, t)
            && ValueOf(shown, cs, ds) == ValueOf(shown, cs[..last], ds[..k]) + CountOf(shown, cs[..last]) * Value(shown, t, ds[k..])
            && (SafeOf(shown, cs, ds) <==> SafeOf(shown, cs[..last], ds[..k]) && Safe(shown, t, ds[k..]))
            && var (front, carry) := StepOf(shown, cs[..last], ds[..k], true);
               var (back, carry') := Step(shown, t, ds[k..], carry);
               StepOf(shown, cs, ds, true) == (front + back, carry')
  {
  }

  /** Distinct combinations stand for distinct numbers. */
  lemma {:induction false} ValueInjective(shown: Shown, t: Argp, ds: seq<int>, es: seq<int>)
    requires |ds| == |es| == Digits(shown, t) && Safe(shown, t, ds) && Safe(shown, t, es) && Narrow(shown, Nodes(t))
    requires Value(shown, t, ds) == Value(shown, t, es)
    ensures ds == es
    decreases t, 1
  {
    var own := Own(shown, t);
    var d, e := if own == 1 then ds[0] else 0, if own == 1 then es[0] else 0;
    assert Narrow(shown, NodesOf(t.children));
    StepCountsOf(shown, t.children, ds[own..]);
    StepCountsOf(shown, t.children, es[own..]);
    RadixUnique(ValueOf(shown, t.children, ds[own..]), CountOf(shown, t.children), d, ValueOf(shown, t.children, es[own..]), e);
    ValueInjectiveOf(shown, t.children, ds[own..], es[own..]);
    assert ds == ds[..own] + ds[own..] && es == es[..own] + es[own..];
  }

  lemma {:induction false} ValueInjectiveOf(shown: Shown, cs: seq<ArgpChild>, ds: seq<int>, es: seq<int>)
    requires |ds| == |es| == DigitsOf(shown, cs) && SafeOf(shown, cs, ds) && SafeOf(shown, cs, es) && Narrow(shown, NodesOf(cs))
    requires ValueOf(shown, cs, ds) == ValueOf(shown, cs, es)
    ensures ds == es
    decreases cs, 0
  {
    if cs != [] {
      var last := |cs| - 1;
      assert cs decreases to cs[last];
      var k, t := DigitsOf(shown, cs[..last]), cs[last].argp;
      ChildrenNarrow(shown, cs);
      StepCountsOf(shown, cs[..last], ds[..k]);
      StepCountsOf(shown, cs[..last], es[..k]);
      RadixUnique(ValueOf(shown, cs[..last], ds[..k]), CountOf(shown, cs[..last]), Value(shown, t, ds[k..]),
                  ValueOf(shown, cs[..last], es[..k]), Value(shown, t, es[k..]));
      ValueInjectiveOf(shown, cs[..last], ds[..k], es[..k]);
      ValueInjective(shown, t, ds[k..], es[k..]);
      assert ds == ds[..k] + ds[k..] && es == es[..k] + es[k..];
    }
  }

  // ----- a string with more than 128 lines -----

  /** No call ever gets past an argument string with more than 128 lines: its level wraps before the last line. */
  lemma {:induction false} WideNeverCarries(shown: Shown, t: Argp, ds: seq<int>, adv: bool)
    requires |ds| == Digits(shown, t) && Safe(shown, t, ds)
    ensures Safe(shown, t, Step(shown, t, ds, adv).0)
    ensures !Narrow(shown, Nodes(t)) ==> !Step(shown, t, ds, adv).1
    decreases t, 1
  {
    var own := Own(shown, t);
    WideNeverCarriesOf(shown, t.children, ds[own..], adv);
    var ds' := Step(shown, t, ds, adv).0;
    assert ds'[own..] == StepOf(shown, t.children, ds[own..], adv).0;
    assert !Narrow(shown, Nodes(t)) ==> Radix(shown, t) > 128 || !Narrow(shown, NodesOf(t.children));
  }

  lemma {:induction false} WideNeverCarriesOf(shown: Shown, cs: seq<ArgpChild>, ds: seq<int>, adv: bool)
    requires |ds| == DigitsOf(shown, cs) && SafeOf(shown, cs, ds)
    ensures SafeOf(shown, cs, StepOf(shown, cs, ds, adv).0)
    ensures !Narrow(shown, NodesOf(cs)) ==> !StepOf(shown, cs, ds, adv).1
    decreases cs, 0
  {
    if cs != [] {
      var last := |cs| - 1;
      assert cs decreases to cs[last];
      var k, t := DigitsOf(shown, cs[..last]), cs[last].argp;
      ChildrenNarrow(shown, cs);
      WideNeverCarriesOf(shown, cs[..last], ds[..k], adv);
      var (front, carry) := StepOf(shown, cs[..last], ds[..k], adv);
      WideNeverCarries(shown, t, ds[k..], carry);
      NoAdvance(shown, t, ds[k..]);
      var ds' := StepOf(shown, cs, ds, adv).0;
      assert ds'[..k] == front && ds'[k..] == Step(shown, t, ds[k..], carry).0;
    }
  }

  // ----- whole runs of the usage loop -----

  function Zeros(n: nat): seq<int> { seq(n, _ => 0) }

  lemma {:induction false} ZerosSafe(shown: Shown, t: Argp)
    ensures Safe(shown, t, Zeros(Digits(shown, t))) && Value(shown, t, Zeros(Digits(shown, t))) == 0
    decreases t, 1
  {
    ZerosSafeOf(shown, t.children);
    assert Zeros(Digits(shown, t))[Own(shown, t)..] == Zeros(DigitsOf(shown, t.children));
  }

  lemma {:induction false} ZerosSafeOf(shown: Shown, cs: seq<ArgpChild>)
    ensures SafeOf(shown, cs, Zeros(DigitsOf(shown, cs))) && ValueOf(shown, cs, Zeros(DigitsOf(shown, cs))) == 0
    decreases cs, 0
  {
    if cs != [] {
      var last := |cs| - 1;
      assert cs decreases to cs[last];
      var k := DigitsOf(shown, cs[..last]);
      ZerosSafeOf(shown, cs[..last]);
      ZerosSafe(shown, cs[last].argp);
      var z := Zeros(DigitsOf(shown, cs));
      assert z[..k] == Zeros(k) && z[k..] == Zeros(Digits(shown, cs[last].argp));
    }
  }

  /** The levels before iteration i of the usage loop, which starts from zeros. */
  function LevelsAt(shown: Shown, t: Argp, i: nat): (ds: seq<int>)
    ensures |ds| == Digits(shown, t)
  {
    if i == 0 then Zeros(Digits(shown, t)) else Step(shown, t, LevelsAt(shown, t, i - 1), true).0
  }

  /** Iteration i is the last: argp_args_usage reports that no pattern is left. */
  predicate LastPattern(shown: Shown, t: Argp, i: nat) { Step(shown, t, LevelsAt(shown, t, i), true).1 }

  lemma {:induction false} LevelsSafe(shown: Shown, t: Argp, i: nat)
    ensures Safe(shown, t, LevelsAt(shown, t, i))
  {
    ZerosSafe(shown, t);
    if i > 0 {
      LevelsSafe(shown, t, i - 1);
      WideNeverCarries(shown, t, LevelsAt(shown, t, i - 1), true);
    }
  }

  lemma {:induction false} LevelsCount(shown: Shown, t: Argp, i: nat)
    requires Narrow(shown, Nodes(t)) && i < Count(shown, t)
    ensures Safe(shown, t, LevelsAt(shown, t, i)) && Value(shown, t, LevelsAt(shown, t, i)) == i
    ensures LastPattern(shown, t, i) <==> i + 1 == Count(shown, t)
  {
    hide Step, Value, Safe, Count, Narrow;
    ZerosSafe(shown, t);
    if i > 0 {
      LevelsCount(shown, t, i - 1);
      StepCounts(shown, t, LevelsAt(shown, t, i - 1));
    }
    StepCounts(shown, t, LevelsAt(shown, t, i));
  }

  /** The usage loop ends if and only if every argument string has at most 128 lines. */
  lemma {:induction false} LoopEndsIffNarrow(shown: Shown, t: Argp)
    ensures (exists i :: LastPattern(shown, t, i)) <==> Narrow(shown, Nodes(t))
  {
    hide Step, Value, Safe, Count, Narrow, LevelsAt;
    if Narrow(shown, Nodes(t)) {
      LevelsSafe(shown, t, 0);
      StepCounts(shown, t, LevelsAt(shown, t, 0));
      LevelsCount(shown, t, Count(shown, t) - 1);
    } else {
      forall i: nat ensures !LastPattern(shown, t, i) {
        LevelsSafe(shown, t, i);
        WideNeverCarries(shown, t, LevelsAt(shown, t, i), true);
      }
    }
  }

  /** Every combination of lines is the current one at exactly one iteration, and afterwards all levels are zero. */
  lemma {:induction false} EachCombinationOnce(shown: Shown, t: Argp, ds: seq<int>) returns (i: nat)
    requires Narrow(shown, Nodes(t)) && |ds| == Digits(shown, t) && Safe(shown, t, ds)
    ensures i < Count(shown, t) && LevelsAt(shown, t, i) == ds
    ensures forall j: nat :: j < Count(shown, t) && LevelsAt(shown, t, j) == ds ==> j == i
    ensures LevelsAt(shown, t, Count(shown, t)) == Zeros(Digits(shown, t))
  {
    hide Step, Value, Safe, Count, Narrow;
    StepCounts(shown, t, ds);
    i := Value(shown, t, ds);
    LevelsCount(shown, t, i);
    ValueInjective(shown, t, ds, LevelsAt(shown, t, i));
    forall j: nat | j < Count(shown, t) && LevelsAt(shown, t, j) == ds ensures j == i { LevelsCount(shown, t, j); }
    var n := Count(shown, t) - 1;
    LevelsCount(shown, t, n);
    StepCounts(shown, t, LevelsAt(shown, t, n));
    ZerosSafe(shown, t);
    ValueInjective(shown, t, LevelsAt(shown, t, n + 1), Zeros(Digits(shown, t)));
  }

  // ----- the loops of argp-help.c -----

  predicate HasNewline(doc: Option<string>) { doc.Some? && '\n' in doc.value }

  /** The argps whose untranslated argument string has a newline. */
  function MultiDocs(nodes: seq<Argp>): nat {
    if nodes == [] then 0 else
    MultiDocs(nodes[..|nodes| - 1]) + if HasNewline(nodes[|nodes| - 1].argsDoc) then 1 else 0
  }

  lemma {:induction false} MultiDocsAppend(a: seq<Argp>, b: seq<Argp>)
    ensures MultiDocs(a + b) == MultiDocs(a) + MultiDocs(b)
  {
    if b == [] {
      assert a + b == a;
    } else {
      assert (a + b)[..|a + b| - 1] == a + b[..|b| - 1];
      MultiDocsAppend(a, b[..|b| - 1]);
    }
  }

  /** argp_args_levels: the size of the level vector. */
  method ArgpArgsLevels(t: Argp) returns (levels: nat)
    ensures levels == MultiDocs(Nodes(t))
    decreases t
  {
    levels := if HasNewline(t.argsDoc) then 1 else 0;
    assert t.children[..0] == [];
    for k := 0 to |t.children|
      invariant levels == (if HasNewline(t.argsDoc) then 1 else 0) + MultiDocs(NodesOf(t.children[..k]))
    {
      assert t.children decreases to t.children[k];
      var more := ArgpArgsLevels(t.children[k].argp);
      assert t.children[..k + 1][..k] == t.children[..k];
      MultiDocsAppend(NodesOf(t.children[..k]), Nodes(t.children[k].argp));
      levels := levels + more;
    }
    assert t.children[..|t.children|] == t.children;
    MultiDocsAppend([t], NodesOf(t.children));
    assert MultiDocs([t]) == MultiDocs([]) + if HasNewline(t.argsDoc) then 1 else 0;
  }

  /** w with the part from pos on replaced by a. */
  ghost function Splice(w: seq<int>, pos: nat, a: seq<int>): (r: seq<int>)
    requires pos + |a| <= |w|
    ensures |r| == |w|
  {
    w[..pos] + a + w[pos + |a|..]
  }

  lemma {:induction false} SpliceLater(w: seq<int>, pos: nat, a: seq<int>, n: nat, m: nat, end: nat)
    requires pos + |a| <= n <= m <= end <= |w|
    ensures Splice(w, pos, a)[n..m] == w[pos..end][n - pos..m - pos]
  {
    var x, y := Splice(w, pos, a)[n..m], w[pos..end][n - pos..m - pos];
    forall i | 0 <= i < m - n ensures x[i] == y[i] {
      assert y[i] == w[pos..end][n - pos + i] == w[n + i];
      assert x[i] == Splice(w, pos, a)[n + i] == w[n + i];
    }
  }

  lemma {:induction false} TailSlice(w: seq<int>, pos: nat, own: nat, end: nat)
    requires pos + own <= end <= |w|
    ensures w[pos..end][own..] == w[pos + own..end]
  {
  }

  lemma {:induction false} SpliceFront(w: seq<int>, a: seq<int>)
    requires |a| <= |w|
    ensures Splice(w, 0, a)[0..|a|] == a
  {
  }

  lemma {:induction false} SpliceTwice(w: seq<int>, pos: nat, a: seq<int>, b: seq<int>)
    requires pos + |a| + |b| <= |w|
    ensures Splice(Splice(w, pos, a), pos + |a|, b) == Splice(w, pos, a + b)
  {
  }

  lemma {:induction false} SpliceOwn(w: seq<int>, pos: nat, rest: seq<int>, x: int)
    requires pos + 1 + |rest| <= |w|
    ensures Splice(w, pos + 1, rest)[pos := x] == Splice(w, pos, [x] + rest)
    ensures Splice(w, pos + 1, rest)[pos] == w[pos]
  {
  }

  /** One call of argp_args_usage, taken apart: the children first, then the argp's own level. */
  lemma {:induction false} UnfoldStep(shown: Shown, t: Argp, ds: seq<int>, adv: bool)
    requires |ds| == Digits(shown, t) && Safe(shown, t, ds)
    ensures var own := Own(shown, t);
            && own <= 1 && own <= |ds| && |ds[own..]| == DigitsOf(shown, t.children) && SafeOf(shown, t.children, ds[own..])
            && (own == 1 ==> shown(t).Some? && ds[0] < Radix(shown, t) && 1 < Radix(shown, t))
            && Pattern(shown, t, ds) ==
                 (if shown(t).None? then [] else [LineFrom(shown(t).value, 0, if own == 1 then LineOf(ds[0]) else 0)])
                 + PatternOf(shown, t.children, ds[own..])
            && var (rest, carry) := StepOf(shown, t.children, ds[own..], adv);
               Step(shown, t, ds, adv) ==
                 if own == 0 then (rest, carry)
                 else if !carry then ([ds[0]] + rest, false)
                 else if LineOf(ds[0]) + 1 < Radix(shown, t) then ([IncChar(ds[0])] + rest, false)
                 else ([0] + rest, true)
  {
  }

  lemma {:induction false} ConcatAssoc(a: seq<string>, b: seq<string>, c: seq<string>)
    ensures (a + b) + c == a + (b + c)
  {
  }

  /** The line of an argp's argument string to print now, if it has one, and whether it is the last. */
  method CurrentLine(shown: Shown, t: Argp, level: int) returns (line: seq<string>, atEnd: bool)
    requires level < Radix(shown, t)
    ensures line == if shown(t).None? then [] else [LineFrom(shown(t).value, 0, LineOf(level))]
    ensures shown(t).Some? ==> (atEnd <==> LineOf(level) + 1 >= Radix(shown, t))
  {
    line, atEnd := [], true;
    if shown(t).Some? {
      var cp, nl := FindLine(shown(t).value, level);
      atEnd := nl == |shown(t).value|;
      line := [shown(t).value[cp..nl]];
    }
  }

  /** argp_args_usage: print the current lines, then step the levels in place; `ds` are the tree's levels. */
  method ArgpArgsUsage(shown: Shown, t: Argp, levels: array<int>, pos: nat, advance: bool, out: seq<string>, ghost ds: seq<int>)
    returns (next: nat, more: bool, out': seq<string>)
    requires |ds| == Digits(shown, t) && Safe(shown, t, ds)
    requires pos + |ds| <= levels.Length && levels[..][pos..pos + |ds|] == ds
    modifies levels
    ensures next == pos + Digits(shown, t)
    ensures levels[..] == Splice(old(levels[..]), pos, Step(shown, t, ds, advance).0)
    ensures more == !Step(shown, t, ds, advance).1
    ensures out' == out + Pattern(shown, t, ds)
    decreases t, 1
  {
    hide Step, StepOf, Pattern, PatternOf, Safe, SafeOf, DigitsOf, LinesFrom, LineFrom, NextNewline, Splice, Digits, IncChar, Radix;
    ghost var w := levels[..];
    UnfoldStep(shown, t, ds, advance);
    var own := Own(shown, t);
    ghost var rest := ds[own..];
    TailSlice(w, pos, own, pos + |ds|);
    assert own == 1 ==> ds[0] == w[pos];
    var level := if own == 1 then levels[pos] else 0;
    var line, atEnd := CurrentLine(shown, t, level);
    var adv;
    next, adv, out' := UsageOfChildren(shown, t, levels, pos + own, advance, out + line, rest);
    ConcatAssoc(out, line, PatternOf(shown, t.children, rest));
    if own == 1 {
      adv := StepOwn(levels, pos, adv, atEnd, w, StepOf(shown, t.children, rest, advance).0);
    }
    more := !adv;
  }

  /** The last part of argp_args_usage: the argp's own level, once its children have been stepped. */
  method StepOwn(levels: array<int>, pos: nat, adv: bool, atEnd: bool, ghost w: seq<int>, ghost rest: seq<int>) returns (adv': bool)
    requires pos + 1 + |rest| <= |w| && levels[..] == Splice(w, pos + 1, rest)
    modifies levels
    ensures adv' == (adv && atEnd)
    ensures levels[..] == Splice(w, pos, [if !adv then w[pos] else if !atEnd then IncChar(w[pos]) else if w[pos] > 0 then 0 else w[pos]] + rest)
  {
    hide Splice;
    SpliceOwn(w, pos, rest, w[pos]);
    SpliceOwn(w, pos, rest, IncChar(w[pos]));
    SpliceOwn(w, pos, rest, 0);
    assert levels[pos] == levels[..][pos] == w[pos];
    adv' := adv;
    if adv {
      if !atEnd {
        levels[pos] := IncChar(levels[pos]);
        adv' := false;
      } else if levels[pos] > 0 {
        levels[pos] := 0;
      }
    }
  }

  /** The children of an argp, in order; each is told whether an advance is still due. */
  method UsageOfChildren(shown: Shown, t: Argp, levels: array<int>, pos: nat, advance: bool, out: seq<string>, ghost ds: seq<int>)
    returns (next: nat, adv: bool, out': seq<string>)
    requires |ds| == DigitsOf(shown, t.children) && SafeOf(shown, t.children, ds)
    requires pos + |ds| <= levels.Length && levels[..][pos..pos + |ds|] == ds
    modifies levels
    ensures next == pos + DigitsOf(shown, t.children)
    ensures levels[..] == Splice(old(levels[..]), pos, StepOf(shown, t.children, ds, advance).0)
    ensures adv == StepOf(shown, t.children, ds, advance).1
    ensures out' == out + PatternOf(shown, t.children, ds)
    decreases t, 0
  {
    hide Step, StepOf, Pattern, PatternOf, Safe, SafeOf, DigitsOf, Digits, Splice;
    ghost var w, end := levels[..], pos + |ds|;
    NoChild(shown, t.children, w, pos, advance);
    next, adv, out' := pos, advance, out;
    for k := 0 to |t.children|
      invariant FirstChildren(shown, t.children, ds, advance, w, pos, out, k, next, levels[..], adv, out')
    {
      hide FirstChildren;
      var c := t.children[k].argp;
      assert t.children decreases to t.children[k];
      ghost var mid := ChildReady(shown, t.children, ds, advance, w, pos, out, k, next, levels[..], adv, out');
      ghost var next0, levels0, adv0, out0 := next, levels[..], adv, out';
      var more;
      next, more, out' := ArgpArgsUsage(shown, c, levels, next, adv, out', mid);
      adv := !more;
      ChildDone(shown, t.children, ds, advance, w, pos, out, k, next0, levels0, adv0, out0, mid);
    }
    assert t.children[..|t.children|] == t.children && ds[..next - pos] == ds;
  }

  /** After the first k children: their levels stepped, their lines printed, and what is left of the advance. */
  ghost predicate FirstChildren(shown: Shown, cs: seq<ArgpChild>, ds: seq<int>, advance: bool, w: seq<int>, pos: nat, out: seq<string>,
                                k: nat, next: nat, levels: seq<int>, adv: bool, printed: seq<string>)
    requires k <= |cs| && pos + |ds| <= |w|
  {
    && pos <= next <= pos + |ds| && next == pos + DigitsOf(shown, cs[..k])
    && SafeOf(shown, cs[..k], ds[..next - pos])
    && levels == Splice(w, pos, StepOf(shown, cs[..k], ds[..next - pos], advance).0)
    && adv == StepOf(shown, cs[..k], ds[..next - pos], advance).1
    && printed == out + PatternOf(shown, cs[..k], ds[..next - pos])
  }

  /** The levels of the next child are still those given. */
  lemma {:induction false} ChildReady(shown: Shown, cs: seq<ArgpChild>, ds: seq<int>, advance: bool, w: seq<int>, pos: nat, out: seq<string>,
                                      k: nat, next: nat, levels: seq<int>, adv: bool, printed: seq<string>) returns (mid: seq<int>)
    requires k < |cs| && |ds| == DigitsOf(shown, cs) && SafeOf(shown, cs, ds) && pos + |ds| <= |w| && w[pos..pos + |ds|] == ds
    requires FirstChildren(shown, cs, ds, advance, w, pos, out, k, next, levels, adv, printed)
    ensures var c := cs[k].argp;
            && pos <= next && next - pos + Digits(shown, c) <= |ds| && mid == ds[next - pos..next - pos + Digits(shown, c)]
            && Safe(shown, c, mid) && |levels| == |w| && next + |mid| <= |levels| && levels[next..next + |mid|] == mid
  {
    hide Step, StepOf, Pattern, PatternOf, Safe, SafeOf, DigitsOf, Digits, Splice;
    ChildStep(shown, cs, k, ds, advance);
    var n, m := next - pos, next - pos + Digits(shown, cs[k].argp);
    mid := ds[n..m];
    SpliceLater(w, pos, StepOf(shown, cs[..k], ds[..n], advance).0, next, pos + m, pos + |ds|);
  }

  /** Once it has printed its line and stepped, one child more is done. */
  lemma {:induction false} ChildDone(shown: Shown, cs: seq<ArgpChild>, ds: seq<int>, advance: bool, w: seq<int>, pos: nat, out: seq<string>,
                                     k: nat, next: nat, levels: seq<int>, adv: bool, printed: seq<string>, mid: seq<int>)
    requires k < |cs| && |ds| == DigitsOf(shown, cs) && SafeOf(shown, cs, ds) && pos + |ds| <= |w|
    requires FirstChildren(shown, cs, ds, advance, w, pos, out, k, next, levels, adv, printed)
    requires next - pos + Digits(shown, cs[k].argp) <= |ds| && mid == ds[next - pos..next - pos + Digits(shown, cs[k].argp)]
    requires Safe(shown, cs[k].argp, mid) && next + |mid| <= |levels|
    ensures var c := cs[k].argp;
            FirstChildren(shown, cs, ds, advance, w, pos, out, k + 1, next + Digits(shown, c), Splice(levels, next, Step(shown, c, mid, adv).0),
                          Step(shown, c, mid, adv).1, printed + Pattern(shown, c, mid))
  {
    hide Step, StepOf, Pattern, PatternOf, Safe, SafeOf, DigitsOf, Digits, Splice;
    var c := cs[k].argp;
    ChildStep(shown, cs, k, ds, advance);
    var n := next - pos;
    SpliceTwice(w, pos, StepOf(shown, cs[..k], ds[..n], advance).0, Step(shown, c, mid, adv).0);
    ConcatAssoc(out, PatternOf(shown, cs[..k], ds[..n]), Pattern(shown, c, mid));
  }

  lemma {:induction false} NoChild(shown: Shown, cs: seq<ArgpChild>, w: seq<int>, pos: nat, adv: bool)
    requires pos <= |w|
    ensures DigitsOf(shown, cs[..0]) == 0 && SafeOf(shown, cs[..0], []) && PatternOf(shown, cs[..0], []) == []
    ensures StepOf(shown, cs[..0], [], adv) == ([], adv) && Splice(w, pos, []) == w
  {
  }

  /** The levels of the first k children, and of the next one, are safe when those of all are. */
  lemma {:induction false} SafeUpTo(shown: Shown, cs: seq<ArgpChild>, k: nat, ds: seq<int>)
    requires k < |cs| && |ds| == DigitsOf(shown, cs) && SafeOf(shown, cs, ds)
    ensures var n := DigitsOf(shown, cs[..k]); var m := n + Digits(shown, cs[k].argp);
            && m == DigitsOf(shown, cs[..k + 1]) <= |ds|
            && SafeOf(shown, cs[..k], ds[..n]) && Safe(shown, cs[k].argp, ds[n..m]) && SafeOf(shown, cs[..k + 1], ds[..m])
    decreases |cs|
  {
    hide Digits, DigitsOf, Safe, SafeOf;
    var last := |cs| - 1;
    UnfoldSafe(shown, cs, ds);
    var j := DigitsOf(shown, cs[..last]);
    if k == last {
      assert cs[..k + 1] == cs;
      assert ds[j..|ds|] == ds[j..] && ds[..|ds|] == ds;
    } else {
      SafeUpTo(shown, cs[..last], k, ds[..j]);
      assert cs[..last][..k] == cs[..k] && cs[..last][..k + 1] == cs[..k + 1];
      var n := DigitsOf(shown, cs[..k]);
      var m := n + Digits(shown, cs[k].argp);
      assert ds[..j][..n] == ds[..n] && ds[..j][n..m] == ds[n..m] && ds[..j][..m] == ds[..m];
    }
  }

  lemma {:induction false} UnfoldSafe(shown: Shown, cs: seq<ArgpChild>, ds: seq<int>)
    requires cs != [] && |ds| == DigitsOf(shown, cs) && SafeOf(shown, cs, ds)
    ensures var last := |cs| - 1; var j := DigitsOf(shown, cs[..last]);
            && DigitsOf(shown, cs) == j + Digits(shown, cs[last].argp)
            && SafeOf(shown, cs[..last], ds[..j]) && Safe(shown, cs[last].argp, ds[j..])
  {
  }

  /** One more child: its own step comes after those of the children before it. */
  lemma {:induction false} ChildStep(shown: Shown, cs: seq<ArgpChild>, k: nat, ds: seq<int>, adv: bool)
    requires k < |cs| && |ds| == DigitsOf(shown, cs) && SafeOf(shown, cs, ds)
    ensures var n := DigitsOf(shown, cs[..k]); var m := n + Digits(shown, cs[k].argp);
            && m == DigitsOf(shown, cs[..k + 1]) <= |ds|
            && SafeOf(shown, cs[..k], ds[..n]) && Safe(shown, cs[k].argp, ds[n..m]) && SafeOf(shown, cs[..k + 1], ds[..m])
            && PatternOf(shown, cs[..k + 1], ds[..m]) == PatternOf(shown, cs[..k], ds[..n]) + Pattern(shown, cs[k].argp, ds[n..m])
            && var (front, carry) := StepOf(shown, cs[..k], ds[..n], adv);
               var (back, carry') := Step(shown, cs[k].argp, ds[n..m], carry);
               StepOf(shown, cs[..k + 1], ds[..m], adv) == (front + back, carry')
  {
    SafeUpTo(shown, cs, k, ds);
    var n, m := DigitsOf(shown, cs[..k]), DigitsOf(shown, cs[..k + 1]);
    assert cs[..k + 1][..k] == cs[..k];
    assert ds[..m][..n] == ds[..n] && ds[..m][n..] == ds[n..m];
  }

  lemma {:induction false} UnfoldLevels(shown: Shown, t: Argp, i: nat)
    ensures LevelsAt(shown, t, 0) == Zeros(Digits(shown, t))
    ensures LevelsAt(shown, t, i + 1) == Step(shown, t, LevelsAt(shown, t, i), true).0
    ensures LastPattern(shown, t, i) == Step(shown, t, LevelsAt(shown, t, i), true).1
  {
  }

  /** The usage loop of _help: every combination of lines, each printed once, in counting order. */
  method UsageLoop(shown: Shown, t: Argp) returns (patterns: seq<seq<string>>)
    requires Narrow(shown, Nodes(t))
    requires Digits(shown, t) <= MultiDocs(Nodes(t))
    ensures |patterns| == Count(shown, t)
    ensures forall i :: 0 <= i < |patterns| ==> Safe(shown, t, LevelsAt(shown, t, i)) && patterns[i] == Pattern(shown, t, LevelsAt(shown, t, i))
  {
    hide Step, Value, Safe, Count, Narrow, Pattern, Digits, Splice, LevelsAt, LastPattern;
    UnfoldLevels(shown, t, 0);
    var size := ArgpArgsLevels(t);
    var levels := new int[size](_ => 0);
    ghost var n := Digits(shown, t);
    assert levels[0..n] == Zeros(n);
    LevelsSafe(shown, t, 0);
    StepCounts(shown, t, LevelsAt(shown, t, 0));
    patterns := [];
    var more := true;
    while more
      invariant levels[0..n] == LevelsAt(shown, t, |patterns|)
      invariant more ==> |patterns| < Count(shown, t)
      invariant !more ==> |patterns| == Count(shown, t)
      invariant forall i :: 0 <= i < |patterns| ==> Safe(shown, t, LevelsAt(shown, t, i)) && patterns[i] == Pattern(shown, t, LevelsAt(shown, t, i))
      decreases Count(shown, t) - |patterns|
    {
      LevelsCount(shown, t, |patterns|);
      UnfoldLevels(shown, t, |patterns|);
      ghost var w := levels[..];
      assert w[0..n] == levels[0..n];
      var next, out;
      next, more, out := ArgpArgsUsage(shown, t, levels, 0, true, [], LevelsAt(shown, t, |patterns|));
      SpliceFront(w, LevelsAt(shown, t, |patterns| + 1));
      patterns := patterns + [out];
    }
  }

  lemma {:induction false} NewlineMeansLines(doc: string, from: nat)
    requires from <= |doc|
    ensures LinesFrom(doc, from) > 1 <==> '\n' in doc[from..]
    decreases |doc| - from
  {
    if from < |doc| && doc[from] != '\n' {
      NewlineMeansLines(doc, from + 1);
      assert doc[from..] == [doc[from]] + doc[from + 1..];
    }
  }

  /** The level vector suffices when translation and filters give newlines only to strings that had one. */
  lemma {:induction false} FiltersKeepNewlines(shown: Shown, t: Argp)
    requires forall a :: a in Nodes(t) && HasNewline(shown(a)) ==> HasNewline(a.argsDoc)
    ensures Digits(shown, t) <= MultiDocs(Nodes(t))
    decreases t, 1
  {
    if shown(t).Some? {
      NewlineMeansLines(shown(t).value, 0);
      assert shown(t).value[0..] == shown(t).value;
    }
    assert t in Nodes(t);
    FiltersKeepNewlinesOf(shown, t.children);
    MultiDocsAppend([t], NodesOf(t.children));
    assert MultiDocs([t]) == MultiDocs([]) + if HasNewline(t.argsDoc) then 1 else 0;
  }

  lemma {:induction false} FiltersKeepNewlinesOf(shown: Shown, cs: seq<ArgpChild>)
    requires forall a :: a in NodesOf(cs) && HasNewline(shown(a)) ==> HasNewline(a.argsDoc)
    ensures DigitsOf(shown, cs) <= MultiDocs(NodesOf(cs))
    decreases cs, 0
  {
    if cs != [] {
      var last := |cs| - 1;
      assert cs decreases to cs[last];
      FiltersKeepNewlinesOf(shown, cs[..last]);
      FiltersKeepNewlines(shown, cs[last].argp);
      MultiDocsAppend(NodesOf(cs[..last]), Nodes(cs[last].argp));
    }
  }
}
