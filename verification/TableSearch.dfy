/** The search loop of the emitted table stubs, and the masks a target is compared under. */
module TableSearch {

  /** The words from the start of a table: its entries, the zero that ends them, and whatever comes after. */
  predicate Table(mem: seq<bv64>, entries: seq<bv64>) {
    |entries| < |mem| && mem[..|entries|] == entries && mem[|entries|] == 0 && forall e :: e in entries ==> e != 0
  }

  /** Some word after the first is zero, so the loop stops inside the memory given. */
  ghost predicate Stops(mem: seq<bv64>) { exists k :: 1 <= k < |mem| && mem[k] == 0 }

  /** The loop from word i on: compare, advance, and go on while the new word is not zero. */
  predicate Finds(mem: seq<bv64>, i: nat, r11: bv64)
    decreases |mem| - i
  {
    i < |mem| && (mem[i] == r11 || (i + 1 < |mem| && mem[i + 1] != 0 && Finds(mem, i + 1, r11)))
  }

  /** What the stub does with a target: a jump there, or a halt. */
  predicate Admits(mem: seq<bv64>, target: bv64) { Finds(mem, 0, target) }

  /** The index of the first zero word after the first word. */
  ghost predicate FirstStop(mem: seq<bv64>, z: nat) {
    1 <= z < |mem| && mem[z] == 0 && forall k :: 1 <= k < z ==> mem[k] != 0
  }

  /** The stub finds a target exactly when it is one of the words before the first zero past the first word. */
  lemma {:induction false} FindsIff(mem: seq<bv64>, z: nat, i: nat, r11: bv64)
    requires FirstStop(mem, z) && i < z
    ensures Finds(mem, i, r11) <==> r11 in mem[i..z]
    decreases z - i
  {
    assert mem[i..z] == [mem[i]] + mem[i + 1..z];
    if i + 1 < z {
      FindsIff(mem, z, i + 1, r11);
    } else {
      assert mem[z..z] == [];
    }
  }

  /** For a table with entries, the stub admits exactly the entries. */
  lemma {:induction false} AdmitsIffEntry(mem: seq<bv64>, entries: seq<bv64>, r11: bv64)
    requires Table(mem, entries) && entries != []
    ensures Admits(mem, r11) <==> r11 in entries
  {
    var z := |entries|;
    forall k | 1 <= k < z ensures mem[k] != 0 {
      assert mem[k] == entries[k] && entries[k] in entries;
    }
    FindsIff(mem, z, 0, r11);
    assert mem[0..z] == mem[..z];
  }

  /** The last word the loop looks at. */
  function LastRead(mem: seq<bv64>, i: nat, r11: bv64): nat
    decreases |mem| - i
  {
    if i >= |mem| || mem[i] == r11 then i
    else if i + 1 < |mem| && mem[i + 1] != 0 then LastRead(mem, i + 1, r11)
    else i + 1
  }

  lemma {:induction false} ReadsUpTo(mem: seq<bv64>, z: nat, i: nat, r11: bv64)
    requires FirstStop(mem, z) && i < z
    ensures i <= LastRead(mem, i, r11) <= z
    decreases z - i
  {
    if i + 1 < z {
      ReadsUpTo(mem, z, i + 1, r11);
    }
  }

  /** The loop stays within the entries and their terminator if and only if there are entries or the target is
      zero: the first word is compared before any word is tested for the end. */
  lemma {:induction false} StaysInTableIff(mem: seq<bv64>, entries: seq<bv64>, r11: bv64)
    requires Table(mem, entries)
    ensures LastRead(mem, 0, r11) <= |entries| <==> entries != [] || r11 == 0
  {
    if entries == [] {
      LastReadGrows(mem, 0, r11);
    } else {
      forall k | 1 <= k < |entries| ensures mem[k] != 0 {
        assert mem[k] == entries[k] && entries[k] in entries;
      }
      ReadsUpTo(mem, |entries|, 0, r11);
    }
  }

  lemma {:induction false} LastReadGrows(mem: seq<bv64>, i: nat, r11: bv64)
    ensures LastRead(mem, i, r11) >= i
    ensures i < |mem| && mem[i] != r11 ==> LastRead(mem, i, r11) >= i + 1
    decreases |mem| - i
  {
    if i < |mem| {
      LastReadGrows(mem, i + 1, r11);
    }
  }

  /** An empty table lets a target through that stands after its terminator. */
  lemma {:induction false} EmptyTableOverruns()
    ensures var mem: seq<bv64> := [0, 7, 0]; Table(mem, []) && Admits(mem, 7)
  {
    var mem: seq<bv64> := [0, 7, 0];
    assert Finds(mem, 1, 7);
    assert mem[..0] == [];
  }

  /** The loop of callback_table, over the memory at the table. */
  method CallbackTable(mem: array<bv64>, r11: bv64) returns (found: bool, last: nat)
    requires Stops(mem[..])
    ensures found == Admits(mem[..], r11)
    ensures last == LastRead(mem[..], 0, r11) && last < mem.Length
  {
    ghost var z :| 1 <= z < |mem[..]| && mem[..][z] == 0;
    var i := 0;
    while mem[i] != r11
      invariant i < z
      invariant Finds(mem[..], 0, r11) == Finds(mem[..], i, r11)
      invariant LastRead(mem[..], 0, r11) == LastRead(mem[..], i, r11)
      decreases z - i
    {
      i := i + 1;
      if mem[i] == 0 {
        return false, i;
      }
    }
    return true, i;
  }

  // ----- masks -----

  function Masked(orMask: bv64, andMask: bv64, t: bv64): bv64 { (t | orMask) & andMask }

  /** The masks leave a target unchanged. */
  predicate Kept(orMask: bv64, andMask: bv64, t: bv64) { Masked(orMask, andMask, t) == t }

  /** A target under the and-mask that has every bit both masks have. */
  predicate Fits(orMask: bv64, andMask: bv64, t: bv64) {
    t & andMask == t && t & (orMask & andMask) == orMask & andMask
  }

  /** Exactly the fitting targets are kept. */
  lemma {:induction false} KeptIff(orMask: bv64, andMask: bv64, t: bv64)
    ensures Kept(orMask, andMask, t) <==> Fits(orMask, andMask, t)
  {
    hide Kept, Fits;
    if Kept(orMask, andMask, t) {
      KeptFits(orMask, andMask, t);
    }
    if Fits(orMask, andMask, t) {
      FitsKept(orMask, andMask, t);
    }
  }

  lemma {:induction false} KeptFits(o: bv64, a: bv64, t: bv64)
    requires Kept(o, a, t)
    ensures Fits(o, a, t)
  {
    LiesUnder(o, a, t);
    HasBits(o, a, t);
  }

  lemma {:induction false} LiesUnder(o: bv64, a: bv64, t: bv64)
    requires (t | o) & a == t
    ensures t & a == t
  {
  }

  lemma {:induction false} HasBits(o: bv64, a: bv64, t: bv64)
    requires (t | o) & a == t
    ensures t & (o & a) == o & a
  {
  }

  lemma {:induction false} FitsKept(o: bv64, a: bv64, t: bv64)
    requires Fits(o, a, t)
    ensures Kept(o, a, t)
  {
    MaskFits(o, a, t);
  }

  lemma {:induction false} MaskFits(o: bv64, a: bv64, t: bv64)
    requires t & a == t && t & (o & a) == o & a
    ensures (t | o) & a == t
  {
  }

  lemma {:induction false} MaskTwice(o: bv64, a: bv64, t: bv64)
    ensures ((((t | o) & a) | o) & a) == (t | o) & a
  {
  }

  /** Whatever the target, the masked one is kept: masking again changes nothing. */
  lemma {:induction false} MaskedIsKept(orMask: bv64, andMask: bv64, t: bv64)
    ensures Kept(orMask, andMask, Masked(orMask, andMask, t))
  {
    MaskTwice(orMask, andMask, t);
  }
}
