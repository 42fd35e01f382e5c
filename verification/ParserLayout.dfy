/** How groups refer to their parents and share the vector of child inputs. */
module ParserLayout {
  import opened Options
  import opened ArgpTree
  import opened ParserTables

  /** Argp i is child k of argp j, in preorder. */
  predicate IsChildAt(nodes: seq<Argp>, j: nat, k: nat, i: nat)
    requires j < |nodes| && i < |nodes|
  {
    k < |nodes[j].children| && i == j + 1 + |NodesOf(nodes[j].children[..k])| && nodes[i] == nodes[j].children[k].argp
  }

  /** The parent recorded for argp i is the group of the argp it is a child of, at its own place. */
  ghost predicate Linked(nodes: seq<Argp>, parents: seq<(Option<nat>, nat)>, group: nat, i: nat)
    requires i < |nodes| == |parents|
  {
    parents[i].0.Some? ==>
      exists j :: 0 <= j < i && HasGroup(nodes[j]) && parents[i].0.value == group + GroupCount(nodes[..j])
                  && IsChildAt(nodes, j, parents[i].1, i)
  }

  lemma {:induction false} LinkedLeft(a: seq<Argp>, pa: seq<(Option<nat>, nat)>, b: seq<Argp>, pb: seq<(Option<nat>, nat)>, group: nat, i: nat)
    requires i < |a| == |pa| && |b| == |pb| && Linked(a, pa, group, i)
    ensures Linked(a + b, pa + pb, group, i)
  {
    hide GroupCount, NodesOf;
    if pa[i].0.Some? {
      var j :| 0 <= j < i && HasGroup(a[j]) && pa[i].0.value == group + GroupCount(a[..j]) && IsChildAt(a, j, pa[i].1, i);
      assert (a + b)[..j] == a[..j] && (a + b)[j] == a[j] && (a + b)[i] == a[i];
      assert IsChildAt(a + b, j, pa[i].1, i);
    }
  }

  lemma {:induction false} LinkedRight(a: seq<Argp>, pa: seq<(Option<nat>, nat)>, b: seq<Argp>, pb: seq<(Option<nat>, nat)>, group: nat, i: nat)
    requires i < |b| == |pb| && |a| == |pa| && Linked(b, pb, group + GroupCount(a), i)
    ensures Linked(a + b, pa + pb, group, |a| + i)
  {
    hide GroupCount, NodesOf;
    if pb[i].0.Some? {
      var j :| 0 <= j < i && HasGroup(b[j]) && pb[i].0.value == group + GroupCount(a) + GroupCount(b[..j]) && IsChildAt(b, j, pb[i].1, i);
      assert (a + b)[..|a| + j] == a + b[..j];
      GroupCountAppend(a, b[..j]);
      assert (a + b)[|a| + j] == b[j] && (a + b)[|a| + i] == b[i];
      assert IsChildAt(a + b, |a| + j, pb[i].1, |a| + i);
    }
  }

  /** Every parent recorded inside a tree is right. */
  lemma {:induction false} TreeLinks(t: Argp, parent: Option<nat>, index: nat, group: nat)
    ensures forall i :: 1 <= i < |Nodes(t)| ==> Linked(Nodes(t), Parents(t, parent, index, group), group, i)
    decreases t, |t.children| + 1
  {
    hide Linked, NodesOf, ParentsOf;
    assert t.children[..|t.children|] == t.children;
    ChildLinks(t, parent, index, group, |t.children|);
    var p, g := if HasGroup(t) then Some(group) else None, if HasGroup(t) then group + 1 else group;
    assert Nodes(t) == [t] + NodesOf(t.children) && Parents(t, parent, index, group) == [(parent, index)] + ParentsOf(t.children, p, g);
  }

  lemma {:induction false} ChildLinks(t: Argp, parent: Option<nat>, index: nat, group: nat, k: nat)
    requires k <= |t.children|
    ensures var p := if HasGroup(t) then Some(group) else None; var g := if HasGroup(t) then group + 1 else group;
            forall i :: 1 <= i < 1 + |NodesOf(t.children[..k])| ==>
              Linked([t] + NodesOf(t.children[..k]), [(parent, index)] + ParentsOf(t.children[..k], p, g), group, i)
    decreases t, k
  {
    hide NodesOf, ParentsOf, Nodes, Parents, GroupCount, Linked;
    var p, g := if HasGroup(t) then Some(group) else None, if HasGroup(t) then group + 1 else group;
    NoChildren(t.children, p, g);
    if k > 0 {
      var c, front := t.children[k - 1].argp, t.children[..k - 1];
      var a, b := [t] + NodesOf(front), Nodes(c);
      var gb := group + GroupCount(a);
      var pa, pb := [(parent, index)] + ParentsOf(front, p, g), Parents(c, p, k - 1, gb);
      ChildParts(t, parent, index, group, k - 1, p, g);
      ChildLinks(t, parent, index, group, k - 1);
      assert t.children decreases to t.children[k - 1];
      TreeLinks(c, p, k - 1, gb);
      LinksJoin(t, a, pa, b, pb, [t] + NodesOf(t.children[..k]), [(parent, index)] + ParentsOf(t.children[..k], p, g), group, gb, k - 1);
    }
  }

  lemma {:induction false} NoChildren(cs: seq<ArgpChild>, p: Option<nat>, g: nat)
    ensures NodesOf(cs[..0]) == [] && ParentsOf(cs[..0], p, g) == []
  {
  }

  /** Child k of an argp, taken apart from the children before it. */
  lemma {:induction false} ChildParts(t: Argp, parent: Option<nat>, index: nat, group: nat, k: nat, p: Option<nat>, g: nat)
    requires k < |t.children| && p == (if HasGroup(t) then Some(group) else None) && g == if HasGroup(t) then group + 1 else group
    ensures var c, front := t.children[k].argp, t.children[..k];
            var a := [t] + NodesOf(front);
            var gb := group + GroupCount(a);
            && |a| == |[(parent, index)] + ParentsOf(front, p, g)| && |Nodes(c)| == |Parents(c, p, k, gb)|
            && Parents(c, p, k, gb)[0] == (p, k)
            && [t] + NodesOf(t.children[..k + 1]) == a + Nodes(c)
            && [(parent, index)] + ParentsOf(t.children[..k + 1], p, g) == ([(parent, index)] + ParentsOf(front, p, g)) + Parents(c, p, k, gb)
  {
    hide NodesOf, ParentsOf, Nodes, Parents, GroupCount;
    var c, front := t.children[k].argp, t.children[..k];
    ChildrenSnoc(t.children, k, p, g);
    GroupCountAppend([t], NodesOf(front));
    OneGroup(t);
    ParentsStart(c, p, k, group + GroupCount([t] + NodesOf(front)));
  }

  lemma {:induction false} ChildrenSnoc(children: seq<ArgpChild>, k: nat, p: Option<nat>, g: nat)
    requires k < |children|
    ensures var c, front := children[k].argp, children[..k];
            && NodesOf(children[..k + 1]) == NodesOf(front) + Nodes(c)
            && ParentsOf(children[..k + 1], p, g) == ParentsOf(front, p, g) + Parents(c, p, k, g + GroupCount(NodesOf(front)))
  {
    hide Nodes, Parents, GroupCount;
    var cs := children[..k + 1];
    assert cs[..k] == children[..k] && cs[k] == children[k];
  }

  lemma {:induction false} OneGroup(t: Argp)
    ensures GroupCount([t]) == if HasGroup(t) then 1 else 0
  {
    assert GroupCount([t]) == GroupCount([]) + if HasGroup(t) then 1 else 0;
  }

  lemma {:induction false} ParentsStart(t: Argp, p: Option<nat>, k: nat, g: nat)
    ensures |Parents(t, p, k, g)| == |Nodes(t)| && Parents(t, p, k, g) != [] && Parents(t, p, k, g)[0] == (p, k)
  {
  }

  lemma {:induction false} LinksJoin(t: Argp, a: seq<Argp>, pa: seq<(Option<nat>, nat)>, b: seq<Argp>, pb: seq<(Option<nat>, nat)>,
                                     c: seq<Argp>, pc: seq<(Option<nat>, nat)>, group: nat, gb: nat, k: nat)
    requires k < |t.children| && |a| == |pa| && |b| == |pb| && b == Nodes(t.children[k].argp) && c == a + b && pc == pa + pb
    requires gb == group + GroupCount(a)
    requires a == [t] + NodesOf(t.children[..k]) && pb[0] == (if HasGroup(t) then Some(group) else None, k)
    requires forall i :: 1 <= i < |a| ==> Linked(a, pa, group, i)
    requires forall i :: 1 <= i < |b| ==> Linked(b, pb, gb, i)
    ensures forall i :: 1 <= i < |c| ==> Linked(c, pc, group, i)
  {
    hide NodesOf, Nodes, GroupCount, Linked;
    forall i | 1 <= i < |c| ensures Linked(c, pc, group, i) {
      if i < |a| {
        LinkedLeft(a, pa, b, pb, group, i);
      } else if i == |a| {
        RootLinked(t, a, pa, b, pb, group, k);
      } else {
        LinkedRight(a, pa, b, pb, group, i - |a|);
      }
    }
  }

  lemma {:induction false} RootLinked(t: Argp, a: seq<Argp>, pa: seq<(Option<nat>, nat)>, b: seq<Argp>, pb: seq<(Option<nat>, nat)>, group: nat, k: nat)
    requires k < |t.children| && |a| == |pa| && |b| == |pb| && b == Nodes(t.children[k].argp)
    requires a == [t] + NodesOf(t.children[..k]) && pb[0] == (if HasGroup(t) then Some(group) else None, k)
    ensures Linked(a + b, pa + pb, group, |a|)
  {
    hide NodesOf;
    assert (a + b)[0] == t && (a + b)[|a|] == b[0] == t.children[k].argp && (pa + pb)[|a|] == pb[0];
    assert (a + b)[..0] == [];
    assert IsChildAt(a + b, 0, k, |a|);
  }

  // ----- the groups themselves -----

  lemma {:induction false} CountsGrow(nodes: seq<Argp>, i: nat, j: nat)
    requires i <= j <= |nodes|
    ensures GroupCount(nodes[..i]) <= GroupCount(nodes[..j])
    ensures SlotCount(nodes[..i]) <= SlotCount(nodes[..j])
    ensures i < j && HasGroup(nodes[i]) ==>
              && GroupCount(nodes[..i]) < GroupCount(nodes[..j])
              && SlotCount(nodes[..i]) + |nodes[i].children| <= SlotCount(nodes[..j])
  {
    if i < j {
      CountsGrow(nodes, i, j - 1);
      assert nodes[..j][..j - 1] == nodes[..j - 1];
    }
  }

  lemma {:induction false} ShortTableGrows(loc: Locale, nodes: seq<Argp>, i: nat, j: nat)
    requires i <= j <= |nodes|
    ensures ShortTable(loc, nodes[..i]) <= ShortTable(loc, nodes[..j])
  {
    hide ShortTable;
    if i < j {
      ShortTableGrows(loc, nodes, i, j - 1);
      ShortTableNext(loc, nodes, j - 1);
    }
  }

  lemma {:induction false} ShortTableNext(loc: Locale, nodes: seq<Argp>, j: nat)
    requires j < |nodes|
    ensures ShortTable(loc, nodes[..j + 1]) == ShortTable(loc, nodes[..j]) + Shorts(loc, Opts(nodes[j]), |Opts(nodes[j])|)
  {
    hide Shorts;
    assert nodes[..j + 1][..j] == nodes[..j];
  }

  /** The group of argp i is found under the number of groups before it. */
  lemma {:induction false} GroupTableAt(loc: Locale, nodes: seq<Argp>, parents: seq<(Option<nat>, nat)>, n: nat, prefix: nat, i: nat)
    requires i < n <= |nodes| == |parents| && HasGroup(nodes[i])
    ensures GroupCount(nodes[..i]) < |GroupTable(loc, nodes, parents, n, prefix)|
    ensures GroupTable(loc, nodes, parents, n, prefix)[GroupCount(nodes[..i])] == GroupOf(loc, nodes, parents, i, prefix)
  {
    hide ShortTable, SlotCount;
    if i < n - 1 {
      GroupTableAt(loc, nodes, parents, n - 1, prefix, i);
    } else {
      assert |GroupTable(loc, nodes, parents, n - 1, prefix)| == GroupCount(nodes[..i]);
    }
  }

  /** Every group comes from an argp with a group. */
  lemma {:induction false} GroupNode(loc: Locale, nodes: seq<Argp>, parents: seq<(Option<nat>, nat)>, n: nat, prefix: nat, g: nat) returns (i: nat)
    requires n <= |nodes| == |parents| && g < GroupCount(nodes[..n])
    ensures i < n && HasGroup(nodes[i]) && g == GroupCount(nodes[..i])
    ensures GroupTable(loc, nodes, parents, n, prefix)[g] == GroupOf(loc, nodes, parents, i, prefix)
  {
    hide ShortTable, SlotCount, GroupOf;
    assert nodes[..n][..n - 1] == nodes[..n - 1];
    if g < GroupCount(nodes[..n - 1]) {
      i := GroupNode(loc, nodes, parents, n - 1, prefix, g);
    } else {
      i := n - 1;
    }
  }

  /** The layout of a vector of groups over `slots` child inputs: parents come first, slices are disjoint
      and in order, and a group's slot lies in its parent's slice. */
  ghost predicate Layout(gs: seq<Group>, slots: nat) {
    && (forall g :: 0 <= g < |gs| ==> gs[g].childInputs + gs[g].numChildren <= slots)
    && (forall g, h :: 0 <= g < h < |gs| ==> gs[g].childInputs + gs[g].numChildren <= gs[h].childInputs)
    && (forall g :: 0 <= g < |gs| && gs[g].parent.Some? ==>
          gs[g].parent.value < g && gs[g].parentIndex < gs[gs[g].parent.value].numChildren)
  }

  ghost function GroupsOf(loc: Locale, t: Argp, prefix: nat): seq<Group> {
    GroupTable(loc, Nodes(t), Parents(t, None, 0, 0), |Nodes(t)|, prefix)
  }

  lemma {:induction false} AllGroups(t: Argp)
    ensures Nodes(t)[..|Nodes(t)|] == Nodes(t)
  {
  }

  /** Every argp that has options or a parser has a group, with its parser. */
  lemma {:induction false} GroupOfArgp(loc: Locale, t: Argp, prefix: nat, i: nat) returns (g: nat)
    requires i < |Nodes(t)| && (Nodes(t)[i].options.Some? || Nodes(t)[i].hasParser)
    ensures var gs := GroupsOf(loc, t, prefix); g < |gs| && gs[g].node == i && gs[g].hasParser == Nodes(t)[i].hasParser
  {
    hide ShortTable, SlotCount, GroupCount, GroupTable, Nodes, Parents;
    AllGroups(t);
    g := GroupCount(Nodes(t)[..i]);
    GroupTableAt(loc, Nodes(t), Parents(t, None, 0, 0), |Nodes(t)|, prefix, i);
  }

  /** What two groups of a tree have to do with each other. */
  lemma {:induction false} GroupPair(loc: Locale, t: Argp, prefix: nat, g: nat, h: nat)
    requires g < h < GroupCount(Nodes(t))
    ensures var gs := GroupsOf(loc, t, prefix);
            && gs[g].node < gs[h].node < |Nodes(t)| && gs[g].shortEnd <= gs[h].shortEnd
            && gs[g].childInputs + gs[g].numChildren <= gs[h].childInputs
  {
    hide ShortTable, SlotCount, GroupCount, GroupTable, Nodes, Parents;
    AllGroups(t);
    var nodes, parents := Nodes(t), Parents(t, None, 0, 0);
    var i := GroupNode(loc, nodes, parents, |nodes|, prefix, g);
    var j := GroupNode(loc, nodes, parents, |nodes|, prefix, h);
    if j <= i { CountsGrow(nodes, j, i); }
    CountsGrow(nodes, i, j);
    ShortTableGrows(loc, nodes, i + 1, j + 1);
  }

  /** What a group of a tree has to do with its parent: it sits at its own slot of the parent's slice. */
  lemma {:induction false} GroupParent(loc: Locale, t: Argp, prefix: nat, g: nat)
    requires g < GroupCount(Nodes(t))
    ensures var gs, nodes := GroupsOf(loc, t, prefix), Nodes(t);
            && gs[g].node < |nodes| && HasGroup(nodes[gs[g].node])
            && gs[g].childInputs + gs[g].numChildren <= SlotCount(nodes)
            && (g == 0 ==> gs[g].parent.None?)
            && (gs[g].parent.Some? ==>
                  var p := gs[g].parent.value;
                  p < g && gs[p].node < gs[g].node && IsChildAt(nodes, gs[p].node, gs[g].parentIndex, gs[g].node)
                  && gs[g].parentIndex < gs[p].numChildren)
  {
    hide ShortTable, SlotCount, GroupCount, GroupTable, Nodes, Parents, NodesOf, Linked;
    AllGroups(t);
    var nodes, parents := Nodes(t), Parents(t, None, 0, 0);
    var i := GroupNode(loc, nodes, parents, |nodes|, prefix, g);
    CountsGrow(nodes, i, |nodes|);
    TreeLinks(t, None, 0, 0);
    RootParent(t);
    if parents[i].0.Some? {
      var j := LinkOf(nodes, parents, i);
      CountsGrow(nodes, j, i);
      GroupTableAt(loc, nodes, parents, |nodes|, prefix, j);
    }
  }

  lemma {:induction false} RootParent(t: Argp)
    ensures Parents(t, None, 0, 0)[0] == (None, 0)
  {
  }

  lemma {:induction false} LinkOf(nodes: seq<Argp>, parents: seq<(Option<nat>, nat)>, i: nat) returns (j: nat)
    requires i < |nodes| == |parents| && Linked(nodes, parents, 0, i) && parents[i].0.Some?
    ensures j < i && HasGroup(nodes[j]) && parents[i].0.value == GroupCount(nodes[..j]) && IsChildAt(nodes, j, parents[i].1, i)
  {
    j :| 0 <= j < i && HasGroup(nodes[j]) && parents[i].0.value == 0 + GroupCount(nodes[..j]) && IsChildAt(nodes, j, parents[i].1, i);
  }

  /** The groups of every tree are laid out well, and no two groups share a slot. */
  lemma {:induction false} TreeLayout(loc: Locale, t: Argp, prefix: nat)
    ensures |GroupsOf(loc, t, prefix)| == GroupCount(Nodes(t)) && Layout(GroupsOf(loc, t, prefix), SlotCount(Nodes(t)))
    ensures var gs := GroupsOf(loc, t, prefix);
            forall g, h :: 0 <= g < h < |gs| && gs[g].parent.Some? && gs[g].parent == gs[h].parent ==> gs[g].parentIndex != gs[h].parentIndex
  {
    hide ShortTable, SlotCount, GroupCount, GroupTable, Nodes, Parents, NodesOf;
    var gs := GroupsOf(loc, t, prefix);
    AllGroups(t);
    forall g | 0 <= g < |gs|
      ensures gs[g].childInputs + gs[g].numChildren <= SlotCount(Nodes(t))
      ensures gs[g].parent.Some? ==> gs[g].parent.value < g && gs[g].parentIndex < gs[gs[g].parent.value].numChildren
    {
      GroupParent(loc, t, prefix, g);
    }
    forall g, h | 0 <= g < h < |gs|
      ensures gs[g].childInputs + gs[g].numChildren <= gs[h].childInputs
      ensures gs[g].parent.Some? && gs[g].parent == gs[h].parent ==> gs[g].parentIndex != gs[h].parentIndex
    {
      GroupPair(loc, t, prefix, g, h);
      GroupParent(loc, t, prefix, g);
      GroupParent(loc, t, prefix, h);
    }
  }

  // ----- child inputs -----

  /** What a group leaves in slot k of its slice during its first call, given its own input: its parser's
      choice, or its own input in the first slot when it has no parser. */
  function Stored(store: (nat, int, nat) -> int, gs: seq<Group>, p: nat, input: int, k: nat): int
    requires p < |gs|
  {
    if gs[p].hasParser then store(p, input, k) else if k == 0 then input else 0
  }

  /** The input a group should get: what its parent left in its slot, or the caller's for the first group. */
  function Expected(store: (nat, int, nat) -> int, gs: seq<Group>, inputs: seq<int>, input: int, g: nat): int
    requires g < |gs| && (gs[g].parent.Some? ==> gs[g].parent.value < |inputs| && gs[g].parent.value < |gs|)
  {
    match gs[g].parent
    case None => if g == 0 then input else 0
    case Some(p) => Stored(store, gs, p, inputs[p], gs[g].parentIndex)
  }

  /** The slices of the first g groups hold what those groups left there; the rest is still zero. */
  ghost predicate SlicesFilled(store: (nat, int, nat) -> int, gs: seq<Group>, inputs: seq<int>, g: nat, w: seq<int>)
    requires g <= |gs| && |inputs| >= g
  {
    && (forall p, i :: 0 <= p < g && gs[p].childInputs <= i < gs[p].childInputs + gs[p].numChildren && i < |w| ==>
          w[i] == Stored(store, gs, p, inputs[p], i - gs[p].childInputs))
    && (forall i :: 0 <= i < |w| && (forall p :: 0 <= p < g ==> gs[p].childInputs + gs[p].numChildren <= i) ==> w[i] == 0)
  }

  /** What the first call of a group returns, given its input; without a parser it does not know the key. */
  function StartError(start: (nat, int) -> int, gs: seq<Group>, inputs: seq<int>, g: nat): int
    requires g < |gs| && g < |inputs|
  {
    if gs[g].hasParser then start(g, inputs[g]) else EBADKEY
  }

  /** The first n groups were started without a hard error. */
  ghost predicate SoftStarts(start: (nat, int) -> int, gs: seq<Group>, inputs: seq<int>, n: int)
    requires |inputs| <= |gs| && n <= |inputs|
  {
    forall g :: 0 <= g < n ==> Soft(StartError(start, gs, inputs, g))
  }

  lemma {:induction false} NoStarts(start: (nat, int) -> int, gs: seq<Group>)
    ensures SoftStarts(start, gs, [], -1)
  {
  }

  lemma {:induction false} SoftStartsAre(start: (nat, int) -> int, gs: seq<Group>, inputs: seq<int>, n: int)
    requires |inputs| <= |gs| && n <= |inputs| && SoftStarts(start, gs, inputs, n)
    ensures forall g :: 0 <= g < n ==> Soft(StartError(start, gs, inputs, g))
  {
  }

  lemma {:induction false} OneMoreStart(start: (nat, int) -> int, gs: seq<Group>, inputs: seq<int>, own: int)
    requires |inputs| < |gs| && SoftStarts(start, gs, inputs, |inputs| - 1)
    requires inputs == [] || Soft(StartError(start, gs, inputs, |inputs| - 1))
    ensures SoftStarts(start, gs, inputs + [own], |inputs|)
  {
    forall g | 0 <= g < |inputs| ensures Soft(StartError(start, gs, inputs + [own], g)) {
      assert StartError(start, gs, inputs + [own], g) == StartError(start, gs, inputs, g);
    }
  }

  /** Every group started so far has got the input it should. */
  ghost predicate Received(store: (nat, int, nat) -> int, gs: seq<Group>, slots: nat, inputs: seq<int>, input: int)
    requires Layout(gs, slots) && |inputs| <= |gs|
  {
    forall g :: 0 <= g < |inputs| ==> inputs[g] == Expected(store, gs, inputs, input, g)
  }

  lemma {:induction false} NoneReceived(store: (nat, int, nat) -> int, gs: seq<Group>, slots: nat, input: int)
    requires Layout(gs, slots)
    ensures Received(store, gs, slots, [], input)
  {
  }

  lemma {:induction false} ReceivedIs(store: (nat, int, nat) -> int, gs: seq<Group>, slots: nat, inputs: seq<int>, input: int)
    requires Layout(gs, slots) && |inputs| <= |gs| && Received(store, gs, slots, inputs, input)
    ensures forall g :: 0 <= g < |inputs| ==> inputs[g] == Expected(store, gs, inputs, input, g)
  {
  }

  lemma {:induction false} OneMoreReceived(store: (nat, int, nat) -> int, gs: seq<Group>, slots: nat, inputs: seq<int>, own: int, input: int)
    requires Layout(gs, slots) && |inputs| < |gs| && Received(store, gs, slots, inputs, input)
    requires var g := |inputs|;
             own == match gs[g].parent
                    case None => if g == 0 then input else 0
                    case Some(p) => Stored(store, gs, p, inputs[p], gs[g].parentIndex)
    ensures Received(store, gs, slots, inputs + [own], input)
  {
    hide Stored;
    forall g | 0 <= g < |inputs| + 1 ensures (inputs + [own])[g] == Expected(store, gs, inputs + [own], input, g) {
      if g < |inputs| { assert inputs[g] == Expected(store, gs, inputs, input, g); }
    }
  }

  /** From the first group down, each the first child of a group without a parser. */
  predicate FirstDown(gs: seq<Group>, g: nat)
    requires g < |gs|
    decreases g
  {
    match gs[g].parent
    case None => g == 0
    case Some(p) => p < g && gs[g].parentIndex == 0 && !gs[p].hasParser && FirstDown(gs, p)
  }

  /** The caller's input goes down through groups without a parser to their first children, and groups without a
      parent get none of it. */
  lemma {:induction false} InputPassesDown(store: (nat, int, nat) -> int, gs: seq<Group>, slots: nat, inputs: seq<int>, input: int, g: nat)
    requires Layout(gs, slots) && |inputs| <= |gs| && g < |inputs|
    requires forall h :: 0 <= h < |inputs| ==> inputs[h] == Expected(store, gs, inputs, input, h)
    ensures FirstDown(gs, g) ==> inputs[g] == input
    ensures gs[g].parent.None? && g > 0 ==> inputs[g] == 0
    decreases g
  {
    if gs[g].parent.Some? && FirstDown(gs, g) { InputPassesDown(store, gs, slots, inputs, input, gs[g].parent.value); }
  }

  /** The input loop of parser_init: parents pass inputs to their children through the shared vector, and every group
      that is started receives what its own parent left for it. The first hard error ends the loop and is returned;
      only without one are all groups started. */
  method InitInputs(gs: seq<Group>, slots: nat, input: int, store: (nat, int, nat) -> int, start: (nat, int) -> int)
    returns (inputs: seq<int>, err: int)
    requires Layout(gs, slots)
    ensures |inputs| <= |gs|
    ensures forall g :: 0 <= g < |inputs| ==> inputs[g] == Expected(store, gs, inputs, input, g)
    ensures forall g :: 0 <= g < |inputs| - 1 ==> Soft(StartError(start, gs, inputs, g))
    ensures err == 0 <==> |inputs| == |gs| && (gs != [] ==> Soft(StartError(start, gs, inputs, |gs| - 1)))
    ensures err != 0 ==> inputs != [] && err == StartError(start, gs, inputs, |inputs| - 1) && !Soft(err)
  {
    hide Stored, SlicesFilled, SoftStarts, Received;
    var childInputs := new int[slots](_ => 0);
    NoStarts(start, gs);
    NoneReceived(store, gs, slots, input);
    inputs, err := [], 0;
    NothingFilled(store, gs, childInputs[..]);
    var g := 0;
    while g < |gs| && (err == 0 || err == EBADKEY)
      invariant |inputs| == g <= |gs|
      invariant Received(store, gs, slots, inputs, input)
      invariant SlicesFilled(store, gs, inputs, g, childInputs[..])
      invariant SoftStarts(start, gs, inputs, g - 1)
      invariant err == if g == 0 then 0 else StartError(start, gs, inputs, g - 1)
    {
      var own := if g == 0 then input else 0;
      match gs[g].parent {
        case None =>
        case Some(p) => own := childInputs[gs[p].childInputs + gs[g].parentIndex];
      }
      ghost var w, before := childInputs[..], inputs;
      SliceStillZero(store, gs, inputs, g, w);
      SlotHolds(store, gs, inputs, g, w);
      inputs := inputs + [own];
      FillSlice(gs, g, own, store, childInputs);
      SliceAdded(store, gs, before, own, g, w, childInputs[..]);
      OneMoreStart(start, gs, before, own);
      OneMoreReceived(store, gs, slots, before, own, input);
      err := if gs[g].hasParser then start(g, own) else EBADKEY;
      g := g + 1;
    }
    SoftStartsAre(start, gs, inputs, g - 1);
    ReceivedIs(store, gs, slots, inputs, input);
    err := Normal(err);
  }

  lemma {:induction false} NothingFilled(store: (nat, int, nat) -> int, gs: seq<Group>, w: seq<int>)
    requires forall i :: 0 <= i < |w| ==> w[i] == 0
    ensures SlicesFilled(store, gs, [], 0, w)
  {
  }

  lemma {:induction false} SlotHolds(store: (nat, int, nat) -> int, gs: seq<Group>, inputs: seq<int>, g: nat, w: seq<int>)
    requires Layout(gs, |w|) && g < |gs| && |inputs| == g && SlicesFilled(store, gs, inputs, g, w)
    ensures gs[g].parent.Some? ==>
              var p, k := gs[g].parent.value, gs[g].parentIndex; w[gs[p].childInputs + k] == Stored(store, gs, p, inputs[p], k)
  {
    hide Stored;
    if gs[g].parent.Some? {
      var p, k := gs[g].parent.value, gs[g].parentIndex;
      var i := gs[p].childInputs + k;
      assert w[i] == Stored(store, gs, p, inputs[p], i - gs[p].childInputs);
    }
  }

  lemma {:induction false} SliceStillZero(store: (nat, int, nat) -> int, gs: seq<Group>, inputs: seq<int>, g: nat, w: seq<int>)
    requires Layout(gs, |w|) && g < |gs| && |inputs| == g && SlicesFilled(store, gs, inputs, g, w)
    ensures forall i :: gs[g].childInputs <= i < gs[g].childInputs + gs[g].numChildren ==> w[i] == 0
  {
  }

  lemma {:induction false} SliceAdded(store: (nat, int, nat) -> int, gs: seq<Group>, inputs: seq<int>, own: int, g: nat, w: seq<int>, w': seq<int>)
    requires |w| == |w'| && Layout(gs, |w|) && g < |gs| && |inputs| == g && SlicesFilled(store, gs, inputs, g, w)
    requires forall i :: gs[g].childInputs <= i < gs[g].childInputs + gs[g].numChildren ==>
               w'[i] == Stored(store, gs, g, own, i - gs[g].childInputs)
    requires forall i :: 0 <= i < |w| && !(gs[g].childInputs <= i < gs[g].childInputs + gs[g].numChildren) ==> w'[i] == w[i]
    ensures SlicesFilled(store, gs, inputs + [own], g + 1, w')
  {
    hide Stored;
    forall p, i | 0 <= p < g + 1 && gs[p].childInputs <= i < gs[p].childInputs + gs[p].numChildren && i < |w'|
      ensures w'[i] == Stored(store, gs, p, (inputs + [own])[p], i - gs[p].childInputs)
    {
      if p < g { assert gs[p].childInputs + gs[p].numChildren <= gs[g].childInputs; }
    }
  }

  /** What one group writes into its slice; the other slices stay as they are. */
  method FillSlice(gs: seq<Group>, g: nat, own: int, store: (nat, int, nat) -> int, childInputs: array<int>)
    requires g < |gs| && gs[g].childInputs + gs[g].numChildren <= childInputs.Length
    requires forall i :: gs[g].childInputs <= i < gs[g].childInputs + gs[g].numChildren ==> childInputs[i] == 0
    modifies childInputs
    ensures forall i :: gs[g].childInputs <= i < gs[g].childInputs + gs[g].numChildren ==>
              childInputs[i] == Stored(store, gs, g, own, i - gs[g].childInputs)
    ensures forall i :: 0 <= i < childInputs.Length && !(gs[g].childInputs <= i < gs[g].childInputs + gs[g].numChildren) ==>
              childInputs[i] == old(childInputs[i])
  {
    var base, n := gs[g].childInputs, gs[g].numChildren;
    if gs[g].hasParser {
      for k := 0 to n
        invariant forall i :: base <= i < base + k ==> childInputs[i] == store(g, own, i - base)
        invariant forall i :: 0 <= i < childInputs.Length && !(base <= i < base + n) ==> childInputs[i] == old(childInputs[i])
      {
        childInputs[base + k] := store(g, own, k);
      }
    } else if n > 0 {
      childInputs[base] := own;
    }
  }
}
