/** Callback tables that inherit entries from other tables: the memoised search of ct.py, and the single
    transfer pass of create_header.py. */
module CallbackClosure {

  type Key = string
  type Val = string

  /** For a table, the table it takes over. */
  type Rules = map<Key, Key>

  type Data = map<Key, set<Val>>

  datatype Option<T> = None | Some(value: T)

  function Get(data: Data, k: Key): set<Val> { if k in data then data[k] else {} }

  // ----- the reference: everything along the rule chain -----

  /** The table n rules away from k. */
  function Iter(rules: Rules, k: Key, n: nat): Option<Key> {
    if n == 0 then Some(k) else
    match Iter(rules, k, n - 1)
    case None => None
    case Some(j) => if j in rules then Some(rules[j]) else None
  }

  /** v is an entry of a table that k takes over, directly or through others. */
  ghost predicate InClosure(rules: Rules, data: Data, k: Key, v: Val) {
    exists n: nat :: Iter(rules, k, n).Some? && v in Get(data, Iter(rules, k, n).value)
  }

  ghost predicate Exact(rules: Rules, data: Data, k: Key, r: set<Val>) {
    forall v :: v in r <==> InClosure(rules, data, k, v)
  }

  /** Every chain of rules that comes back to its start does so after one or two rules. */
  ghost predicate ShortCycles(rules: Rules) {
    forall k, n: nat :: n > 0 && Iter(rules, k, n) == Some(k) ==> Iter(rules, k, 2) == Some(k)
  }

  lemma {:induction false} IterAdd(rules: Rules, k: Key, m: nat, n: nat)
    requires Iter(rules, k, m).Some?
    ensures Iter(rules, k, m + n) == Iter(rules, Iter(rules, k, m).value, n)
  {
    if n > 0 { IterAdd(rules, k, m, n - 1); }
  }

  lemma {:induction false} IterShort(rules: Rules, k: Key, m: nat, n: nat)
    requires m <= n && Iter(rules, k, n).Some?
    ensures Iter(rules, k, m).Some?
  {
    if m < n { IterShort(rules, k, m, n - 1); }
  }

  /** A chain that follows a rule is the chain of the rule's source, one step later. */
  lemma {:induction false} IterNext(rules: Rules, k: Key, n: nat)
    requires k in rules
    ensures Iter(rules, k, n + 1) == Iter(rules, rules[k], n)
  {
    assert Iter(rules, k, 0 + 1) == Some(rules[k]) by { assert Iter(rules, k, 0) == Some(k); }
    IterAdd(rules, k, 1, n);
  }

  lemma {:induction false} ClosureStep(rules: Rules, data: Data, k: Key, v: Val)
    ensures InClosure(rules, data, k, v) <==> v in Get(data, k) || (k in rules && InClosure(rules, data, rules[k], v))
  {
    if v in Get(data, k) { assert Iter(rules, k, 0) == Some(k); }
    if k in rules && InClosure(rules, data, rules[k], v) {
      var n: nat :| Iter(rules, rules[k], n).Some? && v in Get(data, Iter(rules, rules[k], n).value);
      IterNext(rules, k, n);
      assert Iter(rules, k, n + 1).Some?;
    }
    if InClosure(rules, data, k, v) && v !in Get(data, k) {
      var n: nat :| Iter(rules, k, n).Some? && v in Get(data, Iter(rules, k, n).value);
      IterShort(rules, k, 1, n);
      assert Iter(rules, k, 0) == Some(k);
      IterNext(rules, k, n - 1);
    }
  }

  lemma {:induction false} ExactStep(rules: Rules, data: Data, k: Key, r: set<Val>)
    requires k in rules && Exact(rules, data, rules[k], r)
    ensures Exact(rules, data, k, Get(data, k) + r)
  {
    hide InClosure;
    forall v ensures v in Get(data, k) + r <==> InClosure(rules, data, k, v) { ClosureStep(rules, data, k, v); }
  }

  lemma {:induction false} ExactLeaf(rules: Rules, data: Data, k: Key)
    requires k !in rules
    ensures Exact(rules, data, k, Get(data, k))
  {
    hide InClosure;
    forall v ensures v in Get(data, k) <==> InClosure(rules, data, k, v) { ClosureStep(rules, data, k, v); }
  }

  // ----- dfs_collect -----

  /** dfs_collect: the values found and the new memo. */
  function Collect(rules: Rules, data: Data, memo: Data, visiting: set<Key>, key: Key): (set<Val>, Data)
    decreases |rules.Keys - visiting|
  {
    if key in memo then (memo[key], memo)
    else if key in visiting then (Get(data, key), memo)
    else if key in rules then
      assert rules.Keys - (visiting + {key}) < rules.Keys - visiting by { assert key in rules.Keys - visiting; }
      Smaller(rules.Keys - (visiting + {key}), rules.Keys - visiting);
      var (more, memo') := Collect(rules, data, memo, visiting + {key}, rules[key]);
      var result := Get(data, key) + more;
      (result, memo'[key := result])
    else (Get(data, key), memo[key := Get(data, key)])
  }

  lemma {:induction false} Smaller<T>(a: set<T>, b: set<T>)
    requires a < b
    ensures |a| < |b|
  {
    assert b == a + (b - a);
    assert |b - a| > 0 by { var x :| x in b && x !in a; assert x in b - a; }
  }

  /** Everything found belongs to the chain, whatever the rules. */
  ghost predicate Sound(rules: Rules, data: Data, k: Key, r: set<Val>) {
    forall v :: v in r ==> InClosure(rules, data, k, v)
  }

  ghost predicate SoundMemo(rules: Rules, data: Data, memo: Data) {
    forall k :: k in memo ==> Sound(rules, data, k, memo[k])
  }

  ghost predicate ExactMemo(rules: Rules, data: Data, memo: Data) {
    forall k :: k in memo ==> Exact(rules, data, k, memo[k])
  }

  lemma {:induction false} CollectSound(rules: Rules, data: Data, memo: Data, visiting: set<Key>, key: Key)
    requires SoundMemo(rules, data, memo)
    ensures Sound(rules, data, key, Collect(rules, data, memo, visiting, key).0)
    ensures SoundMemo(rules, data, Collect(rules, data, memo, visiting, key).1)
    decreases |rules.Keys - visiting|
  {
    hide InClosure;
    forall v ensures v in Get(data, key) ==> InClosure(rules, data, key, v) { ClosureStep(rules, data, key, v); }
    if key !in memo && key !in visiting && key in rules {
      assert rules.Keys - (visiting + {key}) < rules.Keys - visiting by { assert key in rules.Keys - visiting; }
      Smaller(rules.Keys - (visiting + {key}), rules.Keys - visiting);
      CollectSound(rules, data, memo, visiting + {key}, rules[key]);
      forall v ensures InClosure(rules, data, rules[key], v) ==> InClosure(rules, data, key, v) { ClosureStep(rules, data, key, v); }
    }
  }

  /** k comes before key in a chain of rules. */
  ghost predicate Leads(rules: Rules, k: Key, key: Key) { exists n: nat :: n > 0 && Iter(rules, k, n) == Some(key) }

  lemma {:induction false} LeadsNext(rules: Rules, k: Key, key: Key)
    requires key in rules && (Leads(rules, k, key) || k == key)
    ensures Leads(rules, k, rules[key])
  {
    if k == key {
      assert Iter(rules, k, 0) == Some(k);
      assert Iter(rules, k, 1) == Some(rules[key]);
    } else {
      var n: nat :| n > 0 && Iter(rules, k, n) == Some(key);
      assert Iter(rules, k, n + 1) == Some(rules[key]);
    }
  }

  /** When a chain runs into a table it is already visiting, what it still needs is just that table's own
      entries, as long as cycles are short. */
  lemma {:induction false} CycleCloses(rules: Rules, data: Data, key: Key)
    requires ShortCycles(rules) && key in rules && (Leads(rules, rules[key], key) || rules[key] == key)
    ensures Exact(rules, data, key, Get(data, key) + Get(data, rules[key]))
  {
    hide InClosure;
    var src := rules[key];
    assert Iter(rules, key, 0) == Some(key) && Iter(rules, key, 1) == Some(src);
    LeadsNext(rules, key, key);
    assert Iter(rules, key, 2) == Some(key) by {
      if src != key {
        var n: nat :| n > 0 && Iter(rules, src, n) == Some(key);
        IterNext(rules, key, n);
        assert n + 1 > 0 && Iter(rules, key, n + 1) == Some(key);
      }
    }
    assert src in rules && rules[src] == key;
    forall v ensures v in Get(data, key) + Get(data, src) <==> InClosure(rules, data, key, v) {
      if InClosure(rules, data, key, v) { TwoStepCycle(rules, data, key, v); }
      ClosureStep(rules, data, key, v);
      ClosureStep(rules, data, src, v);
    }
  }

  lemma {:induction false} TwoStepCycle(rules: Rules, data: Data, key: Key, v: Val)
    requires Iter(rules, key, 2) == Some(key) && key in rules && InClosure(rules, data, key, v)
    ensures v in Get(data, key) + Get(data, rules[key])
  {
    var n: nat :| Iter(rules, key, n).Some? && v in Get(data, Iter(rules, key, n).value);
    TwoStepIter(rules, key, n);
  }

  lemma {:induction false} TwoStepIter(rules: Rules, key: Key, n: nat)
    requires Iter(rules, key, 2) == Some(key) && key in rules
    ensures Iter(rules, key, n) == Some(key) || Iter(rules, key, n) == Some(rules[key])
  {
    if n == 1 {
      assert Iter(rules, key, 0) == Some(key);
    } else if n >= 2 {
      TwoStepIter(rules, key, n - 2);
      IterAdd(rules, key, 2, n - 2);
    }
  }

  /** With short cycles only, everything collected is exact, and so is the memo left behind. */
  lemma {:induction false} CollectExact(rules: Rules, data: Data, memo: Data, visiting: set<Key>, key: Key)
    requires ShortCycles(rules) && ExactMemo(rules, data, memo)
    requires forall k :: k in visiting ==> Leads(rules, k, key)
    ensures key !in visiting ==> Exact(rules, data, key, Collect(rules, data, memo, visiting, key).0)
    ensures ExactMemo(rules, data, Collect(rules, data, memo, visiting, key).1)
    decreases |rules.Keys - visiting|
  {
    hide Exact, ShortCycles, Leads;
    if key !in memo && key !in visiting {
      if key !in rules {
        ExactLeaf(rules, data, key);
      } else {
        assert rules.Keys - (visiting + {key}) < rules.Keys - visiting by { assert key in rules.Keys - visiting; }
        Smaller(rules.Keys - (visiting + {key}), rules.Keys - visiting);
        var src := rules[key];
        forall k | k in visiting + {key} ensures Leads(rules, k, src) { LeadsNext(rules, k, key); }
        CollectExact(rules, data, memo, visiting + {key}, src);
        var more := Collect(rules, data, memo, visiting + {key}, src).0;
        if src in visiting + {key} && src !in memo {
          CycleCloses(rules, data, key);
        } else {
          assert Exact(rules, data, src, more);
          ExactStep(rules, data, key, more);
        }
      }
    }
  }

  // ----- the loop of main -----

  /** The loop over the keys, with one memo for all of them. */
  function CollectAll(rules: Rules, data: Data, memo: Data, keys: seq<Key>): Data
    decreases |keys|
  {
    if keys == [] then map[] else
    var (r, memo') := Collect(rules, data, memo, {}, keys[0]);
    map[keys[0] := r] + CollectAll(rules, data, memo', keys[1..])
  }

  ghost predicate AllExact(rules: Rules, data: Data, final: Data) {
    forall k :: k in final ==> Exact(rules, data, k, final[k])
  }

  lemma {:induction false} CollectAllExact(rules: Rules, data: Data, memo: Data, keys: seq<Key>)
    requires ShortCycles(rules) && ExactMemo(rules, data, memo)
    ensures AllExact(rules, data, CollectAll(rules, data, memo, keys))
    decreases |keys|
  {
    hide Exact, ShortCycles;
    if keys != [] {
      CollectExact(rules, data, memo, {}, keys[0]);
      CollectAllExact(rules, data, Collect(rules, data, memo, {}, keys[0]).1, keys[1..]);
    }
  }

  // ----- a cycle of three or more tables -----

  /** k is on a cycle of three or more tables. */
  ghost predicate Looping(rules: Rules, k: Key) { Leads(rules, k, k) && Iter(rules, k, 2) != Some(k) }

  ghost predicate LoopsAfter(rules: Rules, k: Key, n: nat) { Iter(rules, k, n).Some? && Looping(rules, Iter(rules, k, n).value) }

  /** The chain of k runs into such a cycle. */
  ghost predicate RunsIn(rules: Rules, k: Key) { exists n: nat :: LoopsAfter(rules, k, n) }

  /** The chain of k enters the cycle after exactly d rules. */
  ghost predicate EntersAfter(rules: Rules, k: Key, d: nat) { LoopsAfter(rules, k, d) && forall j: nat :: j < d ==> !LoopsAfter(rules, k, j) }

  lemma {:induction false} RunsInStep(rules: Rules, k: Key)
    requires k in rules && RunsIn(rules, rules[k])
    ensures RunsIn(rules, k)
  {
    var n: nat :| LoopsAfter(rules, rules[k], n);
    IterNext(rules, k, n);
    assert LoopsAfter(rules, k, n + 1);
  }

  lemma {:induction false} EntersStep(rules: Rules, k: Key, d: nat)
    requires k in rules && d > 0 && EntersAfter(rules, k, d)
    ensures EntersAfter(rules, rules[k], d - 1) && !Looping(rules, k)
  {
    hide Looping;
    IterNext(rules, k, d - 1);
    forall j: nat | j < d - 1 ensures !LoopsAfter(rules, rules[k], j) {
      IterNext(rules, k, j);
      assert !LoopsAfter(rules, k, j + 1);
    }
    assert Iter(rules, k, 0) == Some(k) && !LoopsAfter(rules, k, 0);
  }

  lemma {:induction false} FirstEntry(rules: Rules, k: Key) returns (d: nat)
    requires RunsIn(rules, k)
    ensures EntersAfter(rules, k, d)
  {
    hide LoopsAfter;
    var n: nat :| LoopsAfter(rules, k, n);
    d := 0;
    while !LoopsAfter(rules, k, d)
      invariant d <= n && forall j: nat :: j < d ==> !LoopsAfter(rules, k, j)
      decreases n - d
    {
      d := d + 1;
    }
  }

  lemma {:induction false} LoopingRunsIn(rules: Rules, k: Key)
    requires Looping(rules, k)
    ensures RunsIn(rules, k) && k in rules
  {
    assert Iter(rules, k, 0) == Some(k);
    assert LoopsAfter(rules, k, 0);
    var n: nat :| n > 0 && Iter(rules, k, n) == Some(k);
    IterShort(rules, k, 1, n);
  }

  /** The tables of a cycle are all on it. */
  lemma {:induction false} LoopingNext(rules: Rules, k: Key)
    requires Looping(rules, k)
    ensures k in rules && Looping(rules, rules[k])
  {
    LoopingRunsIn(rules, k);
    var y := rules[k];
    var n: nat :| n > 0 && Iter(rules, k, n) == Some(k);
    assert Iter(rules, k, 0) == Some(k) && Iter(rules, k, 1) == Some(y);
    IterAdd(rules, k, n, 1);
    IterNext(rules, k, n);
    assert Iter(rules, y, n) == Some(y);
    if Iter(rules, y, 2) == Some(y) {
      TwoCycleTurns(rules, k, y, n);
    }
  }

  /** Once in a cycle of two, a chain can only come back to a table of that cycle. */
  lemma {:induction false} TwoCycleTurns(rules: Rules, k: Key, y: Key, n: nat)
    requires k in rules && rules[k] == y && Iter(rules, y, 2) == Some(y) && n > 0 && Iter(rules, k, n) == Some(k)
    ensures Iter(rules, k, 2) == Some(k)
  {
    assert Iter(rules, y, 0) == Some(y);
    IterShort(rules, y, 1, 2);
    IterNext(rules, k, n - 1);
    TwoStepIter(rules, y, n - 1);
    IterNext(rules, k, 1);
    assert Iter(rules, y, 1) == Some(rules[y]);
  }

  /** No set of the memo has w. */
  ghost predicate Without(memo: Data, w: Val) { forall k :: k in memo ==> w !in memo[k] }

  /** Going on from the i-th table of a cycle that is being visited from x, the search stops at x again and
      so never sees the second table. */
  lemma {:induction false} MissesSecond(rules: Rules, data: Data, w: Val, x: Key, n: nat, i: nat, memo: Data, visiting: set<Key>)
    requires 2 <= i <= n && Iter(rules, x, n) == Some(x) && Iter(rules, x, i).Some? && Iter(rules, x, 1).Some?
    requires forall j :: 2 <= j <= n ==> Iter(rules, x, j) != Iter(rules, x, 1)
    requires forall k :: k != Iter(rules, x, 1).value ==> w !in Get(data, k)
    requires Without(memo, w) && x in visiting
    ensures var (r, memo') := Collect(rules, data, memo, visiting, Iter(rules, x, i).value); w !in r && Without(memo', w)
    decreases n - i
  {
    var key := Iter(rules, x, i).value;
    assert w !in Get(data, key);
    if key !in memo && key !in visiting && key in rules {
      assert i < n;
      assert Iter(rules, x, i + 1) == Some(rules[key]);
      MissesSecond(rules, data, w, x, n, i + 1, memo, visiting + {key});
    }
  }

  /** In a cycle of the least length n from x, the second table does not come up again before the end. */
  lemma {:induction false} SecondOnce(rules: Rules, x: Key, n: nat, j: nat)
    requires n >= 3 && Iter(rules, x, n) == Some(x) && (forall m: nat :: 0 < m < n ==> Iter(rules, x, m) != Some(x))
    requires 2 <= j <= n
    ensures Iter(rules, x, j) != Iter(rules, x, 1)
  {
    IterShort(rules, x, 1, n);
    IterShort(rules, x, j, n);
    IterAdd(rules, x, j, n - j);
    IterAdd(rules, x, 1, n - j);
    assert Iter(rules, x, 1 + (n - j)) != Some(x);
  }

  /** The memo has no table whose chain runs into a cycle, and no set with w. */
  ghost predicate Apart(rules: Rules, memo: Data, w: Val) {
    Without(memo, w) && forall k :: k in memo ==> !RunsIn(rules, k)
  }

  /** Collecting a key whose chain runs into no cycle leaves the memo so. */
  lemma {:induction false} StaysApart(rules: Rules, data: Data, w: Val, memo: Data, visiting: set<Key>, key: Key)
    requires Apart(rules, memo, w) && !RunsIn(rules, key) && forall k :: w in Get(data, k) ==> RunsIn(rules, k)
    ensures var (r, memo') := Collect(rules, data, memo, visiting, key); w !in r && Apart(rules, memo', w)
    decreases |rules.Keys - visiting|
  {
    hide RunsIn, Collect;
    CollectUnfolds(rules, data, memo, visiting, key);
    if key !in memo && key !in visiting && key in rules {
      assert rules.Keys - (visiting + {key}) < rules.Keys - visiting by { assert key in rules.Keys - visiting; }
      Smaller(rules.Keys - (visiting + {key}), rules.Keys - visiting);
      if RunsIn(rules, rules[key]) { RunsInStep(rules, key); }
      StaysApart(rules, data, w, memo, visiting + {key}, rules[key]);
    }
  }

  lemma {:induction false} CollectUnfolds(rules: Rules, data: Data, memo: Data, visiting: set<Key>, key: Key)
    ensures var out := Collect(rules, data, memo, visiting, key);
            if key in memo then out == (memo[key], memo)
            else if key in visiting then out == (Get(data, key), memo)
            else if key in rules then
              var more := Collect(rules, data, memo, visiting + {key}, rules[key]);
              out.0 == Get(data, key) + more.0 && out.1 == more.1[key := out.0]
            else out == (Get(data, key), memo[key := Get(data, key)])
  {
  }

  /** What the memo has for a table is never changed. */
  lemma {:induction false} MemoStays(rules: Rules, data: Data, memo: Data, visiting: set<Key>, key: Key, z: Key)
    requires z in memo
    ensures var memo' := Collect(rules, data, memo, visiting, key).1; z in memo' && memo'[z] == memo[z]
    ensures key == z ==> Collect(rules, data, memo, visiting, key).0 == memo[z]
    decreases |rules.Keys - visiting|
  {
    if key !in memo && key !in visiting && key in rules {
      assert rules.Keys - (visiting + {key}) < rules.Keys - visiting by { assert key in rules.Keys - visiting; }
      Smaller(rules.Keys - (visiting + {key}), rules.Keys - visiting);
      MemoStays(rules, data, memo, visiting + {key}, rules[key], z);
    }
  }

  /** A cycle of three or more tables, and a value that only its second table has. */
  ghost predicate Trap(rules: Rules, data: Data, w: Val, x: Key, y: Key, z: Key, n: nat) {
    && n >= 3 && Iter(rules, x, n) == Some(x) && (forall m: nat :: 0 < m < n ==> Iter(rules, x, m) != Some(x))
    && x in rules && rules[x] == y && y in rules && rules[y] == z && z != x && z != y && x != y
    && Looping(rules, x) && Looping(rules, y) && Looping(rules, z)
    && w in Get(data, y) && forall k :: k != y ==> w !in Get(data, k)
  }

  /** Collecting the first table of the cycle leaves the third one in the memo without the value. */
  lemma {:induction false} TrapSprings(rules: Rules, data: Data, w: Val, x: Key, y: Key, z: Key, n: nat, memo: Data, visiting: set<Key>)
    requires Trap(rules, data, w, x, y, z, n) && Apart(rules, memo, w) && forall k :: k in visiting ==> !Looping(rules, k)
    ensures var memo' := Collect(rules, data, memo, visiting, x).1; z in memo' && w !in memo'[z]
  {
    hide Looping;
    assert Iter(rules, x, 0) == Some(x) && Iter(rules, x, 1) == Some(y) && Iter(rules, x, 2) == Some(z);
    forall j | 2 <= j <= n ensures Iter(rules, x, j) != Iter(rules, x, 1) { SecondOnce(rules, x, n, j); }
    LoopingRunsIn(rules, x);
    LoopingRunsIn(rules, y);
    LoopingRunsIn(rules, z);
    hide RunsIn;
    var v1, v2 := visiting + {x}, visiting + {x} + {y};
    MissesSecond(rules, data, w, x, n, 2, memo, v2);
    Inside(rules, data, w, z, memo, v2);
    var (r1, m1) := Collect(rules, data, memo, v1, y);
    assert m1 == Collect(rules, data, memo, v2, z).1[y := r1];
    var (r0, m0) := Collect(rules, data, memo, visiting, x);
    assert m0 == m1[x := r0];
  }

  lemma {:induction false} Inside(rules: Rules, data: Data, w: Val, z: Key, memo: Data, visiting: set<Key>)
    requires z !in visiting && var (r, memo') := Collect(rules, data, memo, visiting, z); Without(memo', w)
    ensures var memo' := Collect(rules, data, memo, visiting, z).1; z in memo' && w !in memo'[z]
  {
  }

  /** The tables being visited are not ahead on the chain of k. */
  ghost predicate Behind(rules: Rules, visiting: set<Key>, k: Key, d: nat) {
    forall v, j: nat :: v in visiting && j <= d ==> Iter(rules, k, j) != Some(v)
  }

  lemma {:induction false} BehindStep(rules: Rules, visiting: set<Key>, k: Key, d: nat)
    requires k in rules && d > 0 && EntersAfter(rules, k, d) && Behind(rules, visiting, k, d)
    ensures Behind(rules, visiting + {k}, rules[k], d - 1)
  {
    hide Looping;
    forall v, j: nat | v in visiting + {k} && j <= d - 1 ensures Iter(rules, rules[k], j) != Some(v) {
      IterNext(rules, k, j);
      if Iter(rules, rules[k], j) == Some(k) {
        IterAdd(rules, k, j + 1, d - 1 - j);
        var looped := LoopsAfter(rules, k, d - 1 - j);
      }
    }
  }

  /** So does collecting any table whose chain enters the cycle at its first table. */
  lemma {:induction false} TrapReached(rules: Rules, data: Data, w: Val, x: Key, y: Key, z: Key, n: nat,
                                       memo: Data, visiting: set<Key>, k: Key, d: nat)
    requires Trap(rules, data, w, x, y, z, n) && Apart(rules, memo, w) && (forall v :: v in visiting ==> !Looping(rules, v))
    requires EntersAfter(rules, k, d) && Iter(rules, k, d) == Some(x) && Behind(rules, visiting, k, d)
    ensures var memo' := Collect(rules, data, memo, visiting, k).1; z in memo' && w !in memo'[z]
    decreases d
  {
    hide Looping;
    assert Iter(rules, k, 0) == Some(k);
    if d == 0 {
      TrapSprings(rules, data, w, x, y, z, n, memo, visiting);
    } else {
      IterShort(rules, k, 1, d);
      EntersStep(rules, k, d);
      BehindStep(rules, visiting, k, d);
      IterNext(rules, k, d - 1);
      TrapReached(rules, data, w, x, y, z, n, memo, visiting + {k}, rules[k], d - 1);
      assert RunsIn(rules, k) && k !in memo;
      assert k != z;
    }
  }

  lemma {:induction false} AllTakesMemo(rules: Rules, data: Data, memo: Data, keys: seq<Key>, z: Key)
    requires z in memo
    ensures var final := CollectAll(rules, data, memo, keys); (z in keys ==> z in final) && (z in final ==> final[z] == memo[z])
    decreases |keys|
  {
    hide Collect;
    if keys != [] {
      var memo' := Collect(rules, data, memo, {}, keys[0]).1;
      MemoStays(rules, data, memo, {}, keys[0], z);
      AllTakesMemo(rules, data, memo', keys[1..], z);
    }
  }

  /** Over a list in which keys[p] is the first key to run into a cycle, the third table comes out without the value. */
  lemma {:induction false} TrapInList(rules: Rules, data: Data, w: Val, x: Key, y: Key, z: Key, n: nat, memo: Data, keys: seq<Key>, p: nat, d: nat)
    requires Trap(rules, data, w, x, y, z, n) && Apart(rules, memo, w) && p < |keys| && z in keys
    requires (forall i :: 0 <= i < p ==> !RunsIn(rules, keys[i])) && EntersAfter(rules, keys[p], d) && Iter(rules, keys[p], d) == Some(x)
    ensures var final := CollectAll(rules, data, memo, keys); z in final && w !in final[z]
    decreases p
  {
    hide Collect, Looping, EntersAfter;
    LoopingRunsIn(rules, z);
    LoopingRunsIn(rules, y);
    var (r, memo') := Collect(rules, data, memo, {}, keys[0]);
    if p > 0 {
      hide RunsIn;
      StaysApart(rules, data, w, memo, {}, keys[0]);
      TrapInList(rules, data, w, x, y, z, n, memo', keys[1..], p - 1, d);
    } else {
      TrapReached(rules, data, w, x, y, z, n, memo, {}, keys[0], d);
      NotThird(rules, x, z, keys[0], d);
      AllTakesMemo(rules, data, memo', keys[1..], z);
    }
  }

  /** The key that enters the cycle at x is no other table of the cycle. */
  lemma {:induction false} NotThird(rules: Rules, x: Key, z: Key, k: Key, d: nat)
    requires EntersAfter(rules, k, d) && Iter(rules, k, d) == Some(x) && Looping(rules, z) && z != x
    ensures k != z
  {
    hide Looping;
    assert Iter(rules, k, 0) == Some(k);
    if d > 0 { assert !LoopsAfter(rules, k, 0); }
  }

  lemma {:induction false} SecondInClosure(rules: Rules, data: Data, x: Key, n: nat, z: Key, w: Val)
    requires n >= 3 && Iter(rules, x, n) == Some(x) && Iter(rules, x, 1).Some? && Iter(rules, x, 2) == Some(z)
    requires w in Get(data, Iter(rules, x, 1).value)
    ensures InClosure(rules, data, z, w)
  {
    IterAdd(rules, x, 2, n - 2);
    IterAdd(rules, x, n, 1);
    IterAdd(rules, x, 2, n - 1);
    assert Iter(rules, z, n - 1) == Iter(rules, x, 1);
  }

  ghost predicate CoversRules(rules: Rules, keys: seq<Key>) { forall k :: k in rules ==> k in keys }

  lemma {:induction false} FirstRunner(rules: Rules, keys: seq<Key>, k: Key) returns (p: nat)
    requires k in keys && RunsIn(rules, k)
    ensures p < |keys| && RunsIn(rules, keys[p]) && forall i :: 0 <= i < p ==> !RunsIn(rules, keys[i])
  {
    hide RunsIn;
    var q :| 0 <= q < |keys| && keys[q] == k;
    p := 0;
    while !RunsIn(rules, keys[p])
      invariant p <= q && forall i :: 0 <= i < p ==> !RunsIn(rules, keys[i])
      decreases q - p
    {
      p := p + 1;
    }
  }

  lemma {:induction false} SetTrap(rules: Rules, x: Key, w: Val) returns (y: Key, z: Key, n: nat, data: Data)
    requires Looping(rules, x)
    ensures Trap(rules, data, w, x, y, z, n)
  {
    LoopingNext(rules, x);
    y := rules[x];
    LoopingNext(rules, y);
    z := rules[y];
    var m: nat :| m > 0 && Iter(rules, x, m) == Some(x);
    n := LeastCycle(rules, x, m);
    data := map[y := {w}];
    assert Iter(rules, x, 0) == Some(x) && Iter(rules, x, 1) == Some(y) && Iter(rules, x, 2) == Some(z);
    OneStepCycle(rules, x);
    SecondOnce(rules, x, n, 2);
  }

  /** With a cycle of three or more tables, any list that has all the tables with a rule makes some table come out
      incomplete, for some data. */
  lemma {:induction false} LongCycleFails(rules: Rules, k: Key, keys: seq<Key>) returns (data: Data)
    requires Looping(rules, k) && CoversRules(rules, keys)
    ensures !AllExact(rules, data, CollectAll(rules, data, map[], keys))
  {
    hide RunsIn, Looping, CollectAll, InClosure, EntersAfter;
    LoopingRunsIn(rules, k);
    var p := FirstRunner(rules, keys, k);
    var d := FirstEntry(rules, keys[p]);
    EntryLoops(rules, keys[p], d);
    var x, w := Iter(rules, keys[p], d).value, "w";
    var y, z, n;
    y, z, n, data := SetTrap(rules, x, w);
    LoopingRunsIn(rules, z);
    TrapInList(rules, data, w, x, y, z, n, map[], keys, p, d);
    assert Iter(rules, x, 0) == Some(x) && Iter(rules, x, 1) == Some(y) && Iter(rules, x, 2) == Some(z);
    SecondInClosure(rules, data, x, n, z, w);
  }

  lemma {:induction false} EntryLoops(rules: Rules, k: Key, d: nat)
    requires EntersAfter(rules, k, d)
    ensures Iter(rules, k, d).Some? && Looping(rules, Iter(rules, k, d).value)
  {
  }

  /** For every list that has all the tables with a rule, in any order, the memoised search is exact for all data if
      and only if no cycle of rules has three or more tables. */
  lemma {:induction false} CollectAllIff(rules: Rules, keys: seq<Key>)
    requires CoversRules(rules, keys)
    ensures (forall data: Data :: AllExact(rules, data, CollectAll(rules, data, map[], keys))) <==> ShortCycles(rules)
  {
    hide CollectAll, CoversRules, AllExact;
    if ShortCycles(rules) {
      forall data: Data ensures AllExact(rules, data, CollectAll(rules, data, map[], keys)) {
        CollectAllExact(rules, data, map[], keys);
      }
    } else {
      var x, n: nat :| n > 0 && Iter(rules, x, n) == Some(x) && Iter(rules, x, 2) != Some(x);
      assert Looping(rules, x);
      var data := LongCycleFails(rules, x, keys);
    }
  }

  lemma {:induction false} OneStepCycle(rules: Rules, x: Key)
    ensures Iter(rules, x, 1) == Some(x) ==> Iter(rules, x, 2) == Some(x)
  {
    if Iter(rules, x, 1) == Some(x) { IterAdd(rules, x, 1, 1); }
  }

  lemma {:induction false} LeastCycle(rules: Rules, x: Key, n: nat) returns (m: nat)
    requires n > 0 && Iter(rules, x, n) == Some(x)
    ensures 0 < m <= n && Iter(rules, x, m) == Some(x) && forall k: nat :: 0 < k < m ==> Iter(rules, x, k) != Some(x)
  {
    m := 1;
    while Iter(rules, x, m) != Some(x)
      invariant 0 < m <= n && forall k: nat :: 0 < k < m ==> Iter(rules, x, k) != Some(x)
      decreases n - m
    {
      m := m + 1;
    }
  }

  /** dfs_collect on the shared memo and the set of tables being visited. */
  class Collector {
    const rules: Rules
    const data: Data
    var memo: Data
    var visiting: set<Key>

    constructor (rules: Rules, data: Data)
      ensures this.rules == rules && this.data == data && memo == map[] && visiting == {}
    {
      this.rules, this.data, memo, visiting := rules, data, map[], {};
    }

    method DfsCollect(key: Key) returns (result: set<Val>)
      modifies this
      ensures (result, memo) == Collect(rules, data, old(memo), old(visiting), key) && visiting == old(visiting)
      decreases |rules.Keys - visiting|
    {
      if key in memo { return memo[key]; }
      if key in visiting { return Get(data, key); }
      ghost var before := visiting;
      visiting := visiting + {key};
      result := Get(data, key);
      if key in rules {
        assert rules.Keys - visiting < rules.Keys - before by { assert key in rules.Keys - before; }
        Smaller(rules.Keys - visiting, rules.Keys - before);
        var more := DfsCollect(rules[key]);
        result := result + more;
      }
      visiting := visiting - {key};
      assert visiting == before;
      memo := memo[key := result];
    }
  }

  /** The loop of main: every key in turn, the memo shared. */
  method CountTables(rules: Rules, data: Data, keys: seq<Key>) returns (final: Data)
    ensures final == CollectAll(rules, data, map[], keys)
    ensures ShortCycles(rules) ==> AllExact(rules, data, final)
  {
    hide Collect, CollectAll, ShortCycles, AllExact;
    var c := new Collector(rules, data);
    final := map[];
    assert keys[0..] == keys;
    for i := 0 to |keys|
      invariant c.rules == rules && c.data == data && c.visiting == {}
      invariant final + CollectAll(rules, data, c.memo, keys[i..]) == CollectAll(rules, data, map[], keys)
    {
      ghost var memo := c.memo;
      var r := c.DfsCollect(keys[i]);
      NextKey(rules, data, memo, keys, i);
      PutFirst(final, keys[i], r, CollectAll(rules, data, c.memo, keys[i + 1..]));
      final := final[keys[i] := r];
    }
    NoKeys(rules, data, c.memo);
    assert keys[|keys|..] == [] && final + map[] == final;
    if ShortCycles(rules) { CollectAllExact(rules, data, map[], keys); }
  }

  lemma {:induction false} NextKey(rules: Rules, data: Data, memo: Data, keys: seq<Key>, i: nat)
    requires i < |keys|
    ensures var (r, memo') := Collect(rules, data, memo, {}, keys[i]);
            CollectAll(rules, data, memo, keys[i..]) == map[keys[i] := r] + CollectAll(rules, data, memo', keys[i + 1..])
  {
    hide Collect;
    assert keys[i..][0] == keys[i] && keys[i..][1..] == keys[i + 1..];
  }

  lemma {:induction false} NoKeys(rules: Rules, data: Data, memo: Data)
    ensures CollectAll(rules, data, memo, []) == map[]
  {
  }

  lemma {:induction false} PutFirst(m: Data, k: Key, r: set<Val>, rest: Data)
    ensures m + (map[k := r] + rest) == m[k := r] + rest
  {
  }

  // ----- the transfer pass of create_header.py -----

  type Tables = map<Key, seq<Val>>

  function SetOf(s: seq<Val>): set<Val> { set v | v in s }

  function SetsOf(t: Tables): Data { map k | k in t :: SetOf(t[k]) }

  /** One pass over the rules in their order: the item's list is extended by that of its source. A missing
      table is an error. */
  function Transfer(t: Tables, rules: seq<(Key, Key)>): Option<Tables>
    decreases |rules|
  {
    if rules == [] then Some(t) else
    var (item, src) := rules[0];
    if item !in t || src !in t then None else Transfer(t[item := t[item] + t[src]], rules[1..])
  }

  method TransferRules(t: Tables, rules: seq<(Key, Key)>) returns (r: Option<Tables>)
    ensures r == Transfer(t, rules)
  {
    var cur := t;
    for i := 0 to |rules|
      invariant Transfer(cur, rules[i..]) == Transfer(t, rules)
    {
      var (item, src) := rules[i];
      assert rules[i..][0] == rules[i] && rules[i..][1..] == rules[i + 1..];
      if item !in cur || src !in cur { return None; }
      cur := cur[item := cur[item] + cur[src]];
    }
    r := Some(cur);
  }

  /** The pass fails exactly if some rule names a table that is not there. */
  lemma {:induction false} TransferFails(t: Tables, rules: seq<(Key, Key)>)
    ensures Transfer(t, rules).None? <==> !Present(t, rules)
    decreases |rules|
  {
    if rules != [] {
      var (item, src) := rules[0];
      assert rules == [rules[0]] + rules[1..];
      if item in t && src in t {
        var t' := t[item := t[item] + t[src]];
        TransferFails(t', rules[1..]);
        assert t'.Keys == t.Keys;
      }
    }
  }

  /** The rules as a map; a dictionary has each item once. */
  function RuleMap(rules: seq<(Key, Key)>): Rules
    requires UniqueItems(rules)
  {
    map i | 0 <= i < |rules| :: rules[i].0 := rules[i].1
  }

  predicate UniqueItems(rules: seq<(Key, Key)>) { forall i, j :: 0 <= i < j < |rules| ==> rules[i].0 != rules[j].0 }

  predicate Present(t: Tables, rules: seq<(Key, Key)>) { forall i :: 0 <= i < |rules| ==> rules[i].0 in t && rules[i].1 in t }

  /** Whenever a source is itself an item of the same or a later rule, that rule adds nothing the item lacks:
      it takes over the item or the source again. */
  predicate GoodOrder(rules: seq<(Key, Key)>) {
    forall i, j :: 0 <= i <= j < |rules| && rules[j].0 == rules[i].1 ==> rules[j].1 == rules[i].0 || rules[j].1 == rules[i].1
  }

  predicate IsItem(rules: seq<(Key, Key)>, n: nat, k: Key)
    requires n <= |rules|
  {
    exists j :: 0 <= j < n && rules[j].0 == k
  }

  /** After the first n rules, their items are complete and all other tables untouched. */
  ghost predicate Progress(rules: seq<(Key, Key)>, n: nat, t0: Tables, t: Tables)
    requires UniqueItems(rules) && n <= |rules|
  {
    && t.Keys == t0.Keys
    && forall k :: k in t ==>
         if IsItem(rules, n, k) then Exact(RuleMap(rules), SetsOf(t0), k, SetOf(t[k])) else t[k] == t0[k]
  }

  lemma {:induction false} RuleAt(rules: seq<(Key, Key)>, i: nat)
    requires UniqueItems(rules) && i < |rules|
    ensures rules[i].0 in RuleMap(rules) && RuleMap(rules)[rules[i].0] == rules[i].1
  {
  }

  lemma {:induction false} NotItem(rules: seq<(Key, Key)>, k: Key)
    requires UniqueItems(rules) && !IsItem(rules, |rules|, k)
    ensures k !in RuleMap(rules)
  {
  }

  lemma {:induction false} SetOfConcat(a: seq<Val>, b: seq<Val>)
    ensures SetOf(a + b) == SetOf(a) + SetOf(b)
  {
  }

  /** The set the n-th rule gives its item is complete. */
  lemma {:induction false} RuleCompletes(rules: seq<(Key, Key)>, n: nat, t0: Tables, t: Tables)
    requires UniqueItems(rules) && GoodOrder(rules) && Present(t0, rules) && n < |rules| && Progress(rules, n, t0, t)
    ensures Exact(RuleMap(rules), SetsOf(t0), rules[n].0, SetOf(t[rules[n].0] + t[rules[n].1]))
  {
    hide Exact;
    var (item, src) := rules[n];
    var rm, d := RuleMap(rules), SetsOf(t0);
    RuleAt(rules, n);
    SetOfConcat(t[item], t[src]);
    assert !IsItem(rules, n, item);
    if IsItem(rules, n, src) {
      ExactStep(rm, d, item, SetOf(t[src]));
    } else if !IsItem(rules, |rules|, src) {
      NotItem(rules, src);
      ExactLeaf(rm, d, src);
      ExactStep(rm, d, item, SetOf(t[src]));
    } else {
      var j :| 0 <= j < |rules| && rules[j].0 == src;
      RuleAt(rules, j);
      ShortChain(rm, d, item);
    }
  }

  /** A source that only takes over the item or itself contributes its own entries. */
  lemma {:induction false} ShortChain(rules: Rules, data: Data, item: Key)
    requires item in rules && rules[item] in rules && rules[rules[item]] in {item, rules[item]}
    ensures Exact(rules, data, item, Get(data, item) + Get(data, rules[item]))
  {
    hide InClosure;
    var src := rules[item];
    forall v ensures v in Get(data, item) + Get(data, src) <==> InClosure(rules, data, item, v) {
      ClosureStep(rules, data, item, v);
      ClosureStep(rules, data, src, v);
      if InClosure(rules, data, src, v) {
        if rules[src] == item {
          assert Iter(rules, item, 0) == Some(item) && Iter(rules, item, 1) == Some(src) && Iter(rules, item, 2) == Some(item);
          TwoStepCycle(rules, data, item, v);
        } else {
          assert Iter(rules, src, 0) == Some(src) && Iter(rules, src, 1) == Some(src) && Iter(rules, src, 2) == Some(src);
          TwoStepCycle(rules, data, src, v);
        }
      }
    }
  }

  lemma {:induction false} TransferProgress(rules: seq<(Key, Key)>, n: nat, t0: Tables, t: Tables)
    requires UniqueItems(rules) && GoodOrder(rules) && Present(t0, rules) && n <= |rules| && Progress(rules, n, t0, t)
    ensures var r := Transfer(t, rules[n..]);
            r.Some? && r.value.Keys == t0.Keys && AllExact(RuleMap(rules), SetsOf(t0), SetsOf(r.value))
    decreases |rules| - n
  {
    hide Exact, GoodOrder;
    if n == |rules| {
      forall k | k in t ensures Exact(RuleMap(rules), SetsOf(t0), k, SetOf(t[k])) {
        if !IsItem(rules, n, k) {
          NotItem(rules, k);
          ExactLeaf(RuleMap(rules), SetsOf(t0), k);
        }
      }
    } else {
      var (item, src) := rules[n];
      var t' := t[item := t[item] + t[src]];
      RuleCompletes(rules, n, t0, t);
      forall k ensures IsItem(rules, n + 1, k) <==> IsItem(rules, n, k) || k == item { ItemSnoc(rules, n, k); }
      assert Progress(rules, n + 1, t0, t');
      assert rules[n..][0] == rules[n] && rules[n..][1..] == rules[n + 1..];
      TransferProgress(rules, n + 1, t0, t');
    }
  }

  lemma {:induction false} ItemSnoc(rules: seq<(Key, Key)>, n: nat, k: Key)
    requires n < |rules|
    ensures IsItem(rules, n + 1, k) <==> IsItem(rules, n, k) || k == rules[n].0
  {
  }

  // ----- an order that fails -----

  lemma {:induction false} TransferSplit(t: Tables, a: seq<(Key, Key)>, b: seq<(Key, Key)>)
    requires Transfer(t, a).Some?
    ensures Transfer(t, a + b) == Transfer(Transfer(t, a).value, b)
    decreases |a|
  {
    if a == [] {
      assert a + b == b;
    } else {
      assert (a + b)[0] == a[0] && (a + b)[1..] == a[1..] + b;
      TransferSplit(t[a[0].0 := t[a[0].0] + t[a[0].1]], a[1..], b);
    }
  }

  /** A pass over rules whose tables exist succeeds, and leaves tables that are no item alone. */
  lemma {:induction false} TransferKeeps(t: Tables, rules: seq<(Key, Key)>)
    requires Present(t, rules)
    ensures var r := Transfer(t, rules);
            r.Some? && r.value.Keys == t.Keys && forall k :: k in t && !IsItem(rules, |rules|, k) ==> r.value[k] == t[k]
    decreases |rules|
  {
    if rules != [] {
      var (item, src) := rules[0];
      TransferKeeps(t[item := t[item] + t[src]], rules[1..]);
      forall k | IsItem(rules[1..], |rules| - 1, k) ensures IsItem(rules, |rules|, k) {
        var j :| 0 <= j < |rules| - 1 && rules[1..][j].0 == k;
        assert rules[j + 1].0 == k;
      }
      assert IsItem(rules, |rules|, item) by { assert rules[0].0 == item; }
    }
  }

  function Only(c: Key, w: Val, k: Key): seq<Val> { if k == c then [w] else [] }

  /** Tables for the names in the rules, all empty but one. */
  function Probe(rules: seq<(Key, Key)>, c: Key, w: Val): Tables {
    if rules == [] then map[] else
    var last := rules[|rules| - 1];
    Probe(rules[..|rules| - 1], c, w)[last.0 := Only(c, w, last.0)][last.1 := Only(c, w, last.1)]
  }

  lemma {:induction false} ProbePresent(rules: seq<(Key, Key)>, c: Key, w: Val)
    ensures Present(Probe(rules, c, w), rules) && forall k :: k in Probe(rules, c, w) ==> Probe(rules, c, w)[k] == Only(c, w, k)
  {
    if rules != [] {
      var front := rules[..|rules| - 1];
      ProbePresent(front, c, w);
      forall i | 0 <= i < |rules| ensures rules[i].0 in Probe(rules, c, w) && rules[i].1 in Probe(rules, c, w) {
        if i < |front| { assert front[i] == rules[i]; }
      }
    }
  }

  /** The item of rule i gets nothing from a source that is still empty when its turn comes. */
  lemma {:induction false} ItemStaysEmpty(rules: seq<(Key, Key)>, i: nat, j: nat, t: Tables)
    requires UniqueItems(rules) && i < j < |rules| && rules[j].0 == rules[i].1 && Present(t, rules)
    requires t[rules[i].0] == [] && t[rules[i].1] == []
    ensures Transfer(t, rules).Some? && rules[i].0 in Transfer(t, rules).value && Transfer(t, rules).value[rules[i].0] == []
  {
    hide IsItem, Transfer, UniqueItems;
    var a, b := rules[i].0, rules[i].1;
    var front, back := rules[..i], rules[i + 1..];
    var rest := [rules[i]] + back;
    assert rules == front + rest;
    TransferKeeps(t, front);
    NotInPart(rules, i, j);
    TransferSplit(t, front, rest);
    var t1 := Transfer(t, front).value;
    assert t1[a] == [] && t1[b] == [];
    var t2 := t1[a := t1[a] + t1[b]];
    FirstRule(t1, rules[i], back);
    PresentKept(t, t2, rules, i);
    TransferKeeps(t2, back);
  }

  lemma {:induction false} FirstRule(t: Tables, rule: (Key, Key), back: seq<(Key, Key)>)
    requires rule.0 in t && rule.1 in t
    ensures Transfer(t, [rule] + back) == Transfer(t[rule.0 := t[rule.0] + t[rule.1]], back)
  {
    assert ([rule] + back)[0] == rule && ([rule] + back)[1..] == back;
  }

  lemma {:induction false} PresentKept(t: Tables, t': Tables, rules: seq<(Key, Key)>, i: nat)
    requires Present(t, rules) && t'.Keys == t.Keys && i < |rules|
    ensures Present(t', rules[i + 1..])
  {
  }

  /** A rule whose source is completed only later leaves its item incomplete. */
  lemma {:induction false} BadOrderFails(rules: seq<(Key, Key)>, i: nat, j: nat) returns (t: Tables)
    requires UniqueItems(rules) && i <= j < |rules| && rules[j].0 == rules[i].1
    requires rules[j].1 != rules[i].0 && rules[j].1 != rules[i].1
    ensures t == Probe(rules, rules[j].1, "w") && Present(t, rules) && Transfer(t, rules).Some?
    ensures !AllExact(RuleMap(rules), SetsOf(t), SetsOf(Transfer(t, rules).value))
  {
    hide Transfer, Probe, InClosure, RuleMap;
    var a, b, c, w := rules[i].0, rules[i].1, rules[j].1, "w";
    t := Probe(rules, c, w);
    ProbePresent(rules, c, w);
    ItemStaysEmpty(rules, i, j, t);
    RuleAt(rules, i);
    RuleAt(rules, j);
    var rm, d := RuleMap(rules), SetsOf(t);
    ClosureStep(rm, d, a, w);
    ClosureStep(rm, d, b, w);
    ClosureStep(rm, d, c, w);
    assert d[c] == SetOf([w]) && w in SetOf([w]);
    assert InClosure(rm, d, a, w);
    var r := SetsOf(Transfer(t, rules).value);
    assert a in r && w !in r[a];
    assert !Exact(rm, d, a, r[a]);
  }

  lemma {:induction false} NotInPart(rules: seq<(Key, Key)>, i: nat, j: nat)
    requires UniqueItems(rules) && i < j < |rules|
    ensures !IsItem(rules[..i], i, rules[i].0) && !IsItem(rules[..i], i, rules[j].0)
    ensures !IsItem(rules[i + 1..], |rules| - i - 1, rules[i].0)
  {
  }

  /** The transfer pass completes every table, for all table contents, if and only if the rules are in a good order. */
  lemma {:induction false} TransferIff(rules: seq<(Key, Key)>)
    requires UniqueItems(rules)
    ensures (forall t :: Present(t, rules) ==>
               Transfer(t, rules).Some? && AllExact(RuleMap(rules), SetsOf(t), SetsOf(Transfer(t, rules).value)))
        <==> GoodOrder(rules)
  {
    hide AllExact, Exact, Transfer, Present;
    if GoodOrder(rules) {
      forall t | Present(t, rules)
        ensures Transfer(t, rules).Some? && AllExact(RuleMap(rules), SetsOf(t), SetsOf(Transfer(t, rules).value))
      {
        assert rules[0..] == rules;
        TransferProgress(rules, 0, t, t);
      }
    } else {
      var i, j :| 0 <= i <= j < |rules| && rules[j].0 == rules[i].1 && rules[j].1 != rules[i].0 && rules[j].1 != rules[i].1;
      var t := BadOrderFails(rules, i, j);
    }
  }

  // ----- both programs -----

  /** Every source is completed before it is used. */
  predicate SourceFirst(rules: seq<(Key, Key)>) { forall i, j :: 0 <= i <= j < |rules| ==> rules[j].0 != rules[i].1 }

  lemma {:induction false} SourceFirstIsGood(rules: seq<(Key, Key)>)
    requires SourceFirst(rules)
    ensures GoodOrder(rules)
  {
  }

  /** On a cycle of three or more tables, a good order lists the rule of each table after that of its source. */
  lemma {:induction false} RuleGoesBack(rules: seq<(Key, Key)>, i: nat) returns (j: nat)
    requires UniqueItems(rules) && GoodOrder(rules) && i < |rules| && Looping(RuleMap(rules), rules[i].0)
    ensures j < i && rules[j].0 == rules[i].1 && Looping(RuleMap(rules), rules[j].0)
  {
    hide Looping;
    var rm := RuleMap(rules);
    var e, src := rules[i].0, rules[i].1;
    RuleAt(rules, i);
    LoopingNext(rm, e);
    LoopingNext(rm, src);
    j :| 0 <= j < |rules| && rules[j].0 == src;
    RuleAt(rules, j);
    NoShortCycle(rm, e);
    NoShortCycle(rm, src);
  }

  lemma {:induction false} NoShortCycle(rules: Rules, k: Key)
    requires Looping(rules, k)
    ensures k in rules && rules[k] in rules && rules[k] != k && rules[rules[k]] != k
  {
    LoopingNext(rules, k);
    LoopingRunsIn(rules, rules[k]);
    assert Iter(rules, k, 0) == Some(k) && Iter(rules, k, 1) == Some(rules[k]) && Iter(rules, k, 2) == Some(rules[rules[k]]);
  }

  lemma {:induction false} ChainGoesBack(rules: seq<(Key, Key)>, i: nat, n: nat) returns (j: nat)
    requires UniqueItems(rules) && GoodOrder(rules) && i < |rules| && Looping(RuleMap(rules), rules[i].0)
    ensures j <= i && (n > 0 ==> j < i) && Iter(RuleMap(rules), rules[i].0, n) == Some(rules[j].0) && Looping(RuleMap(rules), rules[j].0)
    decreases n
  {
    hide Looping, GoodOrder, RuleMap;
    if n == 0 {
      j := i;
    } else {
      var k := ChainGoesBack(rules, i, n - 1);
      j := RuleGoesBack(rules, k);
      RuleAt(rules, k);
    }
  }

  /** A good order leaves no room for a cycle of three or more tables. */
  lemma {:induction false} GoodOrderShortCycles(rules: seq<(Key, Key)>)
    requires UniqueItems(rules) && GoodOrder(rules)
    ensures ShortCycles(RuleMap(rules))
  {
    hide GoodOrder;
    var rm := RuleMap(rules);
    forall k, n: nat | n > 0 && Iter(rm, k, n) == Some(k) ensures Iter(rm, k, 2) == Some(k) {
      if Iter(rm, k, 2) != Some(k) {
        assert Looping(rm, k);
        LoopingRunsIn(rm, k);
        var i :| 0 <= i < |rules| && rules[i].0 == k;
        var j := ChainGoesBack(rules, i, n);
        assert false;
      }
    }
  }

  /** The transfer pass succeeds, and gives every table both programs list the set the memoised search finds for it. */
  ghost predicate Agrees(rules: seq<(Key, Key)>, t: Tables, keys: seq<Key>)
    requires UniqueItems(rules)
  {
    var r, final := Transfer(t, rules), CollectAll(RuleMap(rules), SetsOf(t), map[], keys);
    r.Some? && forall k :: k in r.value && k in final ==> SetOf(r.value[k]) == final[k]
  }

  lemma {:induction false} ExactUnique(rules: Rules, data: Data, k: Key, a: set<Val>, b: set<Val>)
    requires Exact(rules, data, k, a)
    ensures Exact(rules, data, k, b) <==> a == b
  {
    hide InClosure;
    if Exact(rules, data, k, b) { assert forall v :: v in a <==> v in b; }
  }

  /** With the rules in a good order, the transfer pass and the memoised search arrive at the same sets. */
  lemma {:induction false} PassesAgree(rules: seq<(Key, Key)>, t: Tables, keys: seq<Key>)
    requires UniqueItems(rules) && GoodOrder(rules) && Present(t, rules)
    ensures Agrees(rules, t, keys)
  {
    hide Exact, Transfer, CollectAll, GoodOrder, ShortCycles, Present;
    GoodOrderShortCycles(rules);
    assert rules[0..] == rules;
    TransferProgress(rules, 0, t, t);
    CollectAllExact(RuleMap(rules), SetsOf(t), map[], keys);
    var a, b := SetsOf(Transfer(t, rules).value), CollectAll(RuleMap(rules), SetsOf(t), map[], keys);
    forall k | k in a && k in b ensures a[k] == b[k] { ExactUnique(RuleMap(rules), SetsOf(t), k, a[k], b[k]); }
  }

  predicate Names(rules: seq<(Key, Key)>, keys: seq<Key>) { forall i :: 0 <= i < |rules| ==> rules[i].0 in keys && rules[i].1 in keys }

  lemma {:induction false} AllHasKeys(rules: Rules, data: Data, memo: Data, keys: seq<Key>)
    ensures forall k :: k in keys ==> k in CollectAll(rules, data, memo, keys)
    decreases |keys|
  {
    hide Collect;
    if keys != [] { AllHasKeys(rules, data, Collect(rules, data, memo, {}, keys[0]).1, keys[1..]); }
  }

  lemma {:induction false} ProbeNames(rules: seq<(Key, Key)>, c: Key, w: Val, keys: seq<Key>)
    requires Names(rules, keys)
    ensures forall k :: k in Probe(rules, c, w) ==> k in keys
  {
    if rules != [] {
      var front := rules[..|rules| - 1];
      assert Names(front, keys) by { assert forall i :: 0 <= i < |front| ==> front[i] == rules[i]; }
      ProbeNames(front, c, w, keys);
    }
  }

  /** Without cycles of three or more tables, and with a list that names all tables of the rules, a good order is also
      needed: in any other, some tables make the two programs differ. */
  lemma {:induction false} AgreeIff(rules: seq<(Key, Key)>, keys: seq<Key>)
    requires UniqueItems(rules) && ShortCycles(RuleMap(rules)) && Names(rules, keys)
    ensures (forall t :: Present(t, rules) ==> Agrees(rules, t, keys)) <==> GoodOrder(rules)
  {
    hide Agrees, Exact, Present, ShortCycles, RuleMap, Transfer, CollectAll;
    if GoodOrder(rules) {
      forall t | Present(t, rules) ensures Agrees(rules, t, keys) { PassesAgree(rules, t, keys); }
    } else {
      var i, j :| 0 <= i <= j < |rules| && rules[j].0 == rules[i].1 && rules[j].1 != rules[i].0 && rules[j].1 != rules[i].1;
      var t := BadOrderFails(rules, i, j);
      ProbeNames(rules, rules[j].1, "w", keys);
      BadOrderDiffers(rules, t, keys);
    }
  }

  lemma {:induction false} BadOrderDiffers(rules: seq<(Key, Key)>, t: Tables, keys: seq<Key>)
    requires UniqueItems(rules) && ShortCycles(RuleMap(rules)) && Present(t, rules) && (forall k :: k in t ==> k in keys)
    requires Transfer(t, rules).Some? && !AllExact(RuleMap(rules), SetsOf(t), SetsOf(Transfer(t, rules).value))
    ensures !Agrees(rules, t, keys)
  {
    hide Exact, Present, ShortCycles, RuleMap, Transfer, CollectAll;
    TransferKeeps(t, rules);
    var a, b := SetsOf(Transfer(t, rules).value), CollectAll(RuleMap(rules), SetsOf(t), map[], keys);
    AllHasKeys(RuleMap(rules), SetsOf(t), map[], keys);
    CollectAllExact(RuleMap(rules), SetsOf(t), map[], keys);
    var k :| k in a && !Exact(RuleMap(rules), SetsOf(t), k, a[k]);
    ExactUnique(RuleMap(rules), SetsOf(t), k, b[k], a[k]);
  }
}
