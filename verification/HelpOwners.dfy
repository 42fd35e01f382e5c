/** The options the letters of the shared string come from, in the list of every tree of argps. A `char` holding
    a key above 127 never equals that key again, so hol_append stops taking letters over from a list at its first
    such key; what still holds then is stated here. */
module HelpOwners {
  import opened Options
  import opened ArgpTree
  import opened HelpEntries
  import opened HelpOrder
  import opened HelpList
  import opened HelpListBuild

  predicate Increasing(s: seq<nat>) { forall i, j :: 0 <= i < j < |s| ==> s[i] < s[j] }

  /** Option p is a short option with this letter. */
  predicate Owns(loc: Locale, s: seq<Tagged>, p: nat, ch: int) {
    p < |s| && OptionIsShort(loc, s[p].opt) && ToChar(s[p].opt.key) == ch
  }

  predicate AllOwn(loc: Locale, s: seq<Tagged>, owners: seq<nat>, str: seq<int>) {
    |owners| == |str| && forall i :: 0 <= i < |owners| ==> Owns(loc, s, owners[i], str[i])
  }

  /** The first n of the owners, and no others, are below p. */
  predicate Splits(owners: seq<nat>, n: nat, p: nat) {
    n <= |owners| && (forall i :: 0 <= i < n ==> owners[i] < p) && forall i :: n <= i < |owners| ==> p <= owners[i]
  }

  /** Each letter of the string has its owner, owners come in order, and each entry points behind the letters
      owned by earlier entries. */
  predicate Owned(loc: Locale, hol: Hol, owners: seq<nat>) {
    && AllOwn(loc, Flat(hol.entries), owners, hol.shorts)
    && Increasing(owners) && Distinct(hol.shorts)
    && forall n {:trigger hol.entries[n]} :: 0 <= n < |hol.entries| ==> Splits(owners, hol.entries[n].so, |Flat(hol.entries[..n])|)
  }

  /** A short option with a key above 127, outside the first argp that has options. */
  predicate AwayWide(loc: Locale, s: seq<Tagged>, p: nat)
    requires p < |s|
  {
    OptionIsShort(loc, s[p].opt) && s[p].opt.key >= 128 && s[p].node != s[0].node
  }

  predicate WideBefore(loc: Locale, s: seq<Tagged>, q: nat)
    requires q <= |s|
  {
    exists p :: 0 <= p < q && AwayWide(loc, s, p)
  }

  /** The letter ch is in the string, owned at or before q. */
  predicate OwnedBy(str: seq<int>, owners: seq<nat>, q: nat, ch: int)
    requires |owners| == |str|
  {
    exists i :: 0 <= i < |str| && str[i] == ch && owners[i] <= q
  }

  predicate Letter(loc: Locale, o: ArgpOption) { OptionIsShort(loc, o) && o.key < 128 }

  /** The letter of each option is owned at or before it, unless a key above 127 got in the way. */
  predicate Kept(loc: Locale, hol: Hol, owners: seq<nat>)
    requires |owners| == |hol.shorts|
  {
    var s := Flat(hol.entries);
    forall q :: 0 <= q < |s| && Letter(loc, s[q].opt) ==> OwnedBy(hol.shorts, owners, q, s[q].opt.key) || WideBefore(loc, s, q)
  }

  predicate Accounted(loc: Locale, hol: Hol, owners: seq<nat>) { Owned(loc, hol, owners) && Kept(loc, hol, owners) }

  // ----- a list that represents its letters -----

  lemma {:induction false} NextFirst(loc: Locale, s: seq<Tagged>, q: nat)
    requires q < |s|
    ensures Firsts(Letters(loc, s[..q + 1]))
         == Firsts(Letters(loc, s[..q])) + if IsFirst(loc, s, q) then [ToChar(s[q].opt.key)] else []
  {
    hide Letters, Firsts;
    assert s[..q + 1] == s[..q] + [s[q]];
    LettersSnoc(loc, s[..q], s[q]);
    FirstsSnoc(Letters(loc, s[..q]), ToChar(s[q].opt.key));
  }

  lemma {:induction false} NoFirsts(loc: Locale, s: seq<Tagged>)
    ensures Firsts(Letters(loc, s[..0])) == [] && FirstPositions(loc, s, 0, 0) == []
  {
  }

  lemma {:induction false} NextPosition(loc: Locale, s: seq<Tagged>, q: nat)
    requires q < |s|
    ensures FirstPositions(loc, s, 0, q + 1) == FirstPositions(loc, s, 0, q) + if IsFirst(loc, s, q) then [q] else []
  {
    hide IsFirst;
    FirstPositionsAppend(loc, s, 0, q, q + 1);
    assert FirstPositions(loc, s, q + 1, q + 1) == [];
  }

  lemma {:induction false} FirstsOwn(loc: Locale, s: seq<Tagged>, q: nat)
    requires q <= |s|
    ensures var o := FirstPositions(loc, s, 0, q);
            AllOwn(loc, s, o, Firsts(Letters(loc, s[..q]))) && Increasing(o) && forall i :: 0 <= i < |o| ==> o[i] < q
  {
    hide Letters, Firsts, FirstPositions;
    if q == 0 {
      NoFirsts(loc, s);
    } else {
      FirstsOwn(loc, s, q - 1);
      NextFirst(loc, s, q - 1);
      NextPosition(loc, s, q - 1);
    }
  }

  lemma {:induction false} FirstsSplit(loc: Locale, s: seq<Tagged>, p: nat)
    requires p <= |s|
    ensures Splits(FirstPositions(loc, s, 0, |s|), |Firsts(Letters(loc, s[..p]))|, p)
  {
    hide Letters, Firsts, FirstPositions, IsFirst;
    FirstPositionsAppend(loc, s, 0, p, |s|);
    FirstPositionsCount(loc, s, p);
    FirstPositionsMembers(loc, s, 0, p);
    FirstPositionsMembers(loc, s, p, |s|);
    var a, b := FirstPositions(loc, s, 0, p), FirstPositions(loc, s, p, |s|);
    assert forall i :: 0 <= i < |a| ==> a[i] in a;
    assert forall i :: 0 <= i < |b| ==> b[i] in b;
  }

  lemma {:induction false} FirstsKept(loc: Locale, s: seq<Tagged>, q: nat)
    requires q < |s| && Letter(loc, s[q].opt)
    ensures |FirstPositions(loc, s, 0, |s|)| == |Firsts(Letters(loc, s))|
    ensures OwnedBy(Firsts(Letters(loc, s)), FirstPositions(loc, s, 0, |s|), q, s[q].opt.key)
  {
    hide Letters, Firsts, FirstPositions, IsFirst;
    var x := FirstOfLetter(loc, s, q);
    FirstPositionsMembers(loc, s, 0, |s|);
    FirstsOwn(loc, s, |s|);
    assert s[..|s|] == s;
    var o := FirstPositions(loc, s, 0, |s|);
    assert x in o;
    var i :| 0 <= i < |o| && o[i] == x;
    assert Owns(loc, s, o[i], Firsts(Letters(loc, s))[i]);
  }

  /** A list that represents its letters: the owners are the first occurrences. */
  lemma {:induction false} RepresentedAccounts(loc: Locale, hol: Hol) returns (owners: seq<nat>)
    requires Represents(loc, hol)
    ensures Accounted(loc, hol, owners)
  {
    hide Letters, Firsts, FirstPositions, Flat, Owns, OwnedBy, Splits, WideBefore;
    var s := Flat(hol.entries);
    owners := FirstPositions(loc, s, 0, |s|);
    FirstsOwn(loc, s, |s|);
    assert s[..|s|] == s;
    FirstsDistinct(Letters(loc, s));
    forall n | 0 <= n < |hol.entries| ensures Splits(owners, hol.entries[n].so, |Flat(hol.entries[..n])|) {
      var p := |Flat(hol.entries[..n])|;
      EntrySegment(hol.entries, n, p);
      FirstsSplit(loc, s, p);
    }
    forall q | 0 <= q < |s| && Letter(loc, s[q].opt)
      ensures OwnedBy(hol.shorts, owners, q, s[q].opt.key) || WideBefore(loc, s, q)
    {
      FirstsKept(loc, s, q);
    }
  }

  // ----- hol_append -----

  /** The letters taken over: their options, in order, all before p. */
  lemma {:induction false} MergeOwns(loc: Locale, hs: seq<int>, m: seq<Tagged>, more: seq<int>, p: nat)
    requires p <= |m| && forall x :: x in more ==> x < 128
    ensures var r := MergeTo(loc, hs, m, more, p);
            AllOwn(loc, m, r.2, r.1[|hs|..]) && Increasing(r.2) && forall i :: 0 <= i < |r.2| ==> r.2[i] < p
  {
    if p > 0 {
      MergeOwns(loc, hs, m, more, p - 1);
      var r := MergeTo(loc, hs, m, more, p - 1);
      var key := m[p - 1].opt.key;
      if OptionIsShort(loc, m[p - 1].opt) && CharAt(more, r.0) == key {
        assert key == more[r.0] && key in more;
        assert (r.1 + [key])[|hs|..] == r.1[|hs|..] + [key];
      }
    }
  }

  lemma {:induction false} MergeDistinct(loc: Locale, hs: seq<int>, m: seq<Tagged>, more: seq<int>, p: nat)
    requires p <= |m| && Distinct(hs) && Distinct(more)
    ensures var r := MergeTo(loc, hs, m, more, p);
            Distinct(r.1) && forall i :: |hs| <= i < |r.1| ==> r.1[i] in more[..r.0]
  {
    if p > 0 {
      MergeDistinct(loc, hs, m, more, p - 1);
      var r := MergeTo(loc, hs, m, more, p - 1);
      var key := m[p - 1].opt.key;
      if OptionIsShort(loc, m[p - 1].opt) && CharAt(more, r.0) == key {
        assert more[..r.0 + 1] == more[..r.0] + [key];
        if key !in hs {
          assert forall i :: 0 <= i < |hs| ==> r.1[i] == hs[i];
          assert key !in more[..r.0];
        }
      }
    }
  }

  /** Later options only add letters, owned from there on. */
  lemma {:induction false} MergeGrows(loc: Locale, hs: seq<int>, m: seq<Tagged>, more: seq<int>, p: nat, q: nat)
    requires p <= q <= |m|
    ensures var a, b := MergeTo(loc, hs, m, more, p), MergeTo(loc, hs, m, more, q);
            a.1 <= b.1 && a.2 <= b.2 && a.0 <= b.0 && forall i :: |a.2| <= i < |b.2| ==> p <= b.2[i]
    decreases q
  {
    if p < q { MergeGrows(loc, hs, m, more, p, q - 1); }
  }

  /** What has been read of the string of MORE is in the merged string. */
  lemma {:induction false} MergeTakes(loc: Locale, hs: seq<int>, m: seq<Tagged>, more: seq<int>, p: nat)
    requires p <= |m|
    ensures var r := MergeTo(loc, hs, m, more, p);
            forall k :: 0 <= k < r.0 ==> more[k] in r.1
  {
    if p > 0 { MergeTakes(loc, hs, m, more, p - 1); }
  }

  /** The letters of MORE up to index k are all at most 127. */
  predicate NarrowUpTo(loc: Locale, m: seq<Tagged>, owners: seq<nat>, k: nat) {
    k < |owners| && forall i :: 0 <= i <= k ==> owners[i] < |m| && m[owners[i]].opt.key < 128
  }

  /** Up to its first key above 127, the string of MORE is read as fast as its owners come by. */
  lemma {:induction false} MergeReads(loc: Locale, hs: seq<int>, m: seq<Tagged>, more: seq<int>, owners: seq<nat>, k: nat, p: nat)
    requires p <= |m| && AllOwn(loc, m, owners, more) && Increasing(owners) && NarrowUpTo(loc, m, owners, k)
    ensures forall i :: 0 <= i <= k && owners[i] < p ==> i < MergeTo(loc, hs, m, more, p).0
  {
    if p > 0 {
      MergeReads(loc, hs, m, more, owners, k, p - 1);
      MergeGrows(loc, hs, m, more, p - 1, p);
      var n := MergeTo(loc, hs, m, more, p - 1).0;
      forall i | 0 <= i <= k && owners[i] < p ensures i < MergeTo(loc, hs, m, more, p).0 {
        if owners[i] == p - 1 {
          assert Owns(loc, m, owners[i], more[i]);
          assert i > 0 ==> owners[i - 1] < p - 1 && i - 1 < n;
        }
      }
    }
  }

  function Shifted(s: seq<nat>, n: nat): (r: seq<nat>)
    ensures |r| == |s| && forall i :: 0 <= i < |s| ==> r[i] == s[i] + n
  {
    seq(|s|, i requires 0 <= i < |s| => s[i] + n)
  }

  /** The owners in a list that hol_append leaves. */
  function MergedOwners(loc: Locale, hol: Hol, more: Hol, owners: seq<nat>): seq<nat> {
    owners + Shifted(MergeTo(loc, hol.shorts, Flat(more.entries), more.shorts, |Flat(more.entries)|).2, |Flat(hol.entries)|)
  }

  predicate Appendable(loc: Locale, hol: Hol, more: Hol, ho: seq<nat>, mo: seq<nat>) {
    && Accounted(loc, hol, ho) && Accounted(loc, more, mo)
    && (forall x :: x in more.shorts ==> x < 128)
    && hol.entries != [] && more.entries != [] && Flat(hol.entries) != []
    && forall x :: x in Flat(more.entries) ==> x.node != Flat(hol.entries)[0].node
  }

  lemma {:induction false} OwnAppend(loc: Locale, h: seq<Tagged>, m: seq<Tagged>, ho: seq<nat>, mo: seq<nat>, hs: seq<int>, ms: seq<int>)
    requires AllOwn(loc, h, ho, hs) && AllOwn(loc, m, mo, ms) && Increasing(ho) && Increasing(mo)
    ensures AllOwn(loc, h + m, ho + Shifted(mo, |h|), hs + ms) && Increasing(ho + Shifted(mo, |h|))
  {
    var o := ho + Shifted(mo, |h|);
    forall i | 0 <= i < |o| ensures Owns(loc, h + m, o[i], (hs + ms)[i]) {
      if i < |ho| {
        assert Owns(loc, h, ho[i], hs[i]);
      } else {
        assert Owns(loc, m, mo[i - |ho|], ms[i - |ho|]);
      }
    }
    forall i, j | 0 <= i < j < |o| ensures o[i] < o[j] {
      if i < |ho| { assert Owns(loc, h, ho[i], hs[i]); }
    }
  }

  lemma {:induction false} PlacedAt(loc: Locale, hs: seq<int>, ms: seq<Entry>, more: seq<int>, j: nat, k: nat)
    requires k < j <= |ms|
    ensures |Flat(ms[..k])| <= |Flat(ms)|
    ensures Placed(loc, hs, ms, more, j)[k].so == |MergeTo(loc, hs, Flat(ms), more, |Flat(ms[..k])|).1|
  {
    hide Flat, MergeTo;
    StartInside(ms, k);
    if k < j - 1 { PlacedAt(loc, hs, ms, more, j - 1, k); }
  }

  lemma {:induction false} AppendOwned(loc: Locale, hol: Hol, more: Hol, ho: seq<nat>, mo: seq<nat>)
    requires Appendable(loc, hol, more, ho, mo)
    ensures Owned(loc, Appended(loc, hol, more), MergedOwners(loc, hol, more, ho))
  {
    hide Flat, MergeTo, Placed, AllOwn, Increasing, Distinct, Splits, Kept;
    var r, owners := Appended(loc, hol, more), MergedOwners(loc, hol, more, ho);
    var h, m := Flat(hol.entries), Flat(more.entries);
    AppendedIs(loc, hol, more);
    MergeOwns(loc, hol.shorts, m, more.shorts, |m|);
    MergeDistinct(loc, hol.shorts, m, more.shorts, |m|);
    var merged := MergeTo(loc, hol.shorts, m, more.shorts, |m|);
    assert merged.1 == hol.shorts + merged.1[|hol.shorts|..];
    OwnAppend(loc, h, m, ho, merged.2, hol.shorts, merged.1[|hol.shorts|..]);
    forall n | 0 <= n < |r.entries| ensures Splits(owners, r.entries[n].so, |Flat(r.entries[..n])|) {
      AppendSplits(loc, hol, more, ho, mo, n);
    }
  }

  lemma {:induction false} AppendSplits(loc: Locale, hol: Hol, more: Hol, ho: seq<nat>, mo: seq<nat>, n: nat)
    requires Appendable(loc, hol, more, ho, mo) && n < |Appended(loc, hol, more).entries|
    ensures var r := Appended(loc, hol, more);
            Splits(MergedOwners(loc, hol, more, ho), r.entries[n].so, |Flat(r.entries[..n])|)
  {
    hide Flat, MergeTo, Placed, Increasing, Distinct, Kept;
    var r, owners := Appended(loc, hol, more), MergedOwners(loc, hol, more, ho);
    var h, m := Flat(hol.entries), Flat(more.entries);
    var count := |hol.entries|;
    PlacedSame(loc, hol.shorts, more.entries, more.shorts, |more.entries|);
    assert forall i :: 0 <= i < |ho| ==> Owns(loc, h, ho[i], hol.shorts[i]);
    if n < count {
      assert r.entries[..n] == hol.entries[..n] && r.entries[n] == hol.entries[n];
      StartInside(hol.entries, n);
    } else {
      var k := n - count;
      assert r.entries[..n] == hol.entries + Placed(loc, hol.shorts, more.entries, more.shorts, |more.entries|)[..k];
      SameFlat(r.entries[..n], hol.entries + more.entries[..k]);
      FlatAppend(hol.entries, more.entries[..k]);
      PlacedAt(loc, hol.shorts, more.entries, more.shorts, |more.entries|, k);
      var p := |Flat(more.entries[..k])|;
      MergeGrows(loc, hol.shorts, m, more.shorts, p, |m|);
      MergeOwns(loc, hol.shorts, m, more.shorts, p);
    }
  }

  lemma {:induction false} WideCarries(loc: Locale, h: seq<Tagged>, m: seq<Tagged>, p: nat, q: nat)
    requires h != [] && p < q <= |m| && m[p].node != h[0].node && OptionIsShort(loc, m[p].opt) && m[p].opt.key >= 128
    ensures WideBefore(loc, h + m, |h| + q)
  {
    assert AwayWide(loc, h + m, |h| + p);
  }

  lemma {:induction false} WideStays(loc: Locale, h: seq<Tagged>, m: seq<Tagged>, q: nat)
    requires q <= |h| && WideBefore(loc, h, q)
    ensures WideBefore(loc, h + m, q)
  {
    var p :| 0 <= p < q && AwayWide(loc, h, p);
    assert AwayWide(loc, h + m, p);
  }

  /** A letter MORE owns is either taken over in time, or behind a key above 127. */
  lemma {:induction false} TakenOrWide(loc: Locale, hol: Hol, more: Hol, ho: seq<nat>, mo: seq<nat>, k: nat, q: nat)
    requires Appendable(loc, hol, more, ho, mo)
    requires k < |mo| && mo[k] <= q < |Flat(more.entries)| && Letter(loc, Flat(more.entries)[q].opt)
    requires more.shorts[k] == Flat(more.entries)[q].opt.key
    ensures var r, owners, s := Appended(loc, hol, more), MergedOwners(loc, hol, more, ho), Flat(hol.entries) + Flat(more.entries);
            var at := |Flat(hol.entries)| + q;
            |owners| == |r.shorts| && (OwnedBy(r.shorts, owners, at, more.shorts[k]) || WideBefore(loc, s, at))
  {
    hide Flat, MergeTo, Placed, Distinct, Kept;
    AppendOwned(loc, hol, more, ho, mo);
    var h, m := Flat(hol.entries), Flat(more.entries);
    assert Owns(loc, m, mo[k], more.shorts[k]);
    if NarrowUpTo(loc, m, mo, k) {
      InTime(loc, hol, more, ho, mo, k);
    } else {
      var i :| 0 <= i <= k && (mo[i] >= |m| || m[mo[i]].opt.key >= 128);
      assert Owns(loc, m, mo[i], more.shorts[i]);
      assert i != k;
      assert m[mo[i]] in m;
      WideCarries(loc, h, m, mo[i], q);
    }
  }

  lemma {:induction false} InTime(loc: Locale, hol: Hol, more: Hol, ho: seq<nat>, mo: seq<nat>, k: nat)
    requires Appendable(loc, hol, more, ho, mo) && k < |mo| && NarrowUpTo(loc, Flat(more.entries), mo, k)
    ensures var r, owners := Appended(loc, hol, more), MergedOwners(loc, hol, more, ho);
            |owners| == |r.shorts| && OwnedBy(r.shorts, owners, |Flat(hol.entries)| + mo[k], more.shorts[k])
  {
    hide Flat, MergeTo, Placed, Increasing, AllOwn, Owned, Appendable, NarrowUpTo;
    OwnersOf(loc, hol, more, ho, mo);
    var i := TakenEarly(loc, hol.shorts, Flat(more.entries), more.shorts, mo, k);
    assert MergedOwners(loc, hol, more, ho)[i] <= |Flat(hol.entries)| + mo[k];
  }

  /** A letter that nothing gets in the way of is in the merged string no later than its own option. */
  lemma {:induction false} TakenEarly(loc: Locale, hs: seq<int>, m: seq<Tagged>, more: seq<int>, owners: seq<nat>, k: nat) returns (i: nat)
    requires AllOwn(loc, m, owners, more) && Increasing(owners) && NarrowUpTo(loc, m, owners, k) && forall x :: x in more ==> x < 128
    ensures var r := MergeTo(loc, hs, m, more, |m|);
            i < |r.1| && r.1[i] == more[k] && (i < |hs| || r.2[i - |hs|] <= owners[k])
  {
    hide MergeTo, AllOwn, Increasing;
    var p := owners[k] + 1;
    MergeReads(loc, hs, m, more, owners, k, p);
    MergeTakes(loc, hs, m, more, p);
    MergeGrows(loc, hs, m, more, p, |m|);
    MergeOwns(loc, hs, m, more, p);
    var early := MergeTo(loc, hs, m, more, p);
    assert owners[k] < p && k < early.0;
    assert more[k] in early.1;
    i :| 0 <= i < |early.1| && early.1[i] == more[k];
  }

  lemma {:induction false} OwnersOf(loc: Locale, hol: Hol, more: Hol, ho: seq<nat>, mo: seq<nat>)
    requires Appendable(loc, hol, more, ho, mo)
    ensures |ho| == |hol.shorts| && (forall i :: 0 <= i < |ho| ==> ho[i] < |Flat(hol.entries)|)
    ensures AllOwn(loc, Flat(more.entries), mo, more.shorts) && Increasing(mo) && (forall i :: 0 <= i < |mo| ==> mo[i] < |Flat(more.entries)|)
    ensures (forall x :: x in more.shorts ==> x < 128) && hol.entries != [] && more.entries != []
    ensures Owned(loc, Appended(loc, hol, more), MergedOwners(loc, hol, more, ho))
    ensures |MergedOwners(loc, hol, more, ho)| == |Appended(loc, hol, more).shorts| && |mo| == |more.shorts|
  {
    hide Flat, Appended, MergedOwners, Increasing, Splits, Kept, Distinct;
    AppendOwned(loc, hol, more, ho, mo);
    assert forall i :: 0 <= i < |ho| ==> Owns(loc, Flat(hol.entries), ho[i], hol.shorts[i]);
    assert forall i :: 0 <= i < |mo| ==> Owns(loc, Flat(more.entries), mo[i], more.shorts[i]);
  }

  lemma {:induction false} OwnedStays(str: seq<int>, owners: seq<nat>, more: seq<int>, rest: seq<nat>, q: nat, ch: int)
    requires |owners| == |str| && |rest| == |more| && OwnedBy(str, owners, q, ch)
    ensures OwnedBy(str + more, owners + rest, q, ch)
  {
    var i :| 0 <= i < |str| && str[i] == ch && owners[i] <= q;
    assert (str + more)[i] == ch && (owners + rest)[i] <= q;
  }

  /** What hol_append keeps, whatever the keys. */
  lemma {:induction false} AppendAccounts(loc: Locale, hol: Hol, more: Hol, ho: seq<nat>, mo: seq<nat>)
    requires Appendable(loc, hol, more, ho, mo)
    ensures Accounted(loc, Appended(loc, hol, more), MergedOwners(loc, hol, more, ho))
  {
    hide Flat, MergeTo, Placed, Distinct, Splits, Increasing, AllOwn, WideBefore;
    AppendOwned(loc, hol, more, ho, mo);
    AppendedIs(loc, hol, more);
    var r, owners := Appended(loc, hol, more), MergedOwners(loc, hol, more, ho);
    var h, m := Flat(hol.entries), Flat(more.entries);
    OwnCount(loc, hol, ho);
    OwnCount(loc, more, mo);
    OwnCount(loc, r, owners);
    var s := Flat(r.entries);
    assert s == h + m;
    forall q | 0 <= q < |s| && Letter(loc, s[q].opt)
      ensures OwnedBy(r.shorts, owners, q, s[q].opt.key) || WideBefore(loc, s, q)
    {
      if q < |h| {
        if WideBefore(loc, h, q) {
          WideStays(loc, h, m, q);
        } else {
          assert r.shorts == hol.shorts + r.shorts[|hol.shorts|..];
          OwnedStays(hol.shorts, ho, r.shorts[|hol.shorts|..], owners[|ho|..], q, h[q].opt.key);
        }
      } else {
        FromMore(loc, hol, more, ho, mo, q - |h|);
      }
    }
  }

  lemma {:induction false} OwnCount(loc: Locale, hol: Hol, owners: seq<nat>)
    requires Owned(loc, hol, owners)
    ensures |owners| == |hol.shorts|
  {
  }

  lemma {:induction false} FromMore(loc: Locale, hol: Hol, more: Hol, ho: seq<nat>, mo: seq<nat>, q: nat)
    requires Appendable(loc, hol, more, ho, mo) && q < |Flat(more.entries)| && Letter(loc, Flat(more.entries)[q].opt)
    ensures var r, owners, s := Appended(loc, hol, more), MergedOwners(loc, hol, more, ho), Flat(hol.entries) + Flat(more.entries);
            var at, ch := |Flat(hol.entries)| + q, Flat(more.entries)[q].opt.key;
            |owners| == |r.shorts| && (OwnedBy(r.shorts, owners, at, ch) || WideBefore(loc, s, at))
  {
    hide Flat, Appended, MergedOwners, Distinct, Splits, Increasing, AllOwn;
    AppendOwned(loc, hol, more, ho, mo);
    OwnCount(loc, more, mo);
    OwnCount(loc, Appended(loc, hol, more), MergedOwners(loc, hol, more, ho));
    var h, m := Flat(hol.entries), Flat(more.entries);
    if k :| 0 <= k < |mo| && more.shorts[k] == m[q].opt.key && mo[k] <= q {
      TakenOrWide(loc, hol, more, ho, mo, k, q);
    } else {
      assert WideBefore(loc, m, q);
      var p :| 0 <= p < q && AwayWide(loc, m, p);
      assert m[p] in m;
      WideCarries(loc, h, m, p, q);
    }
  }

  // ----- the list of a tree -----

  lemma {:induction false} TagRange(nodes: seq<Argp>, node: nat)
    ensures forall x :: x in TaggedOpts(nodes, node) ==> node <= x.node < node + |nodes|
  {
    if nodes != [] { TagRange(nodes[..|nodes| - 1], node); }
  }

  lemma {:induction false} FlatSome(es: seq<Entry>)
    requires es != [] && forall e :: e in es ==> IsEntry(e)
    ensures Flat(es) != []
  {
    assert es[|es| - 1] in es;
  }

  lemma {:induction false} CoveredEntries(loc: Locale, hol: Hol, nodes: seq<Argp>, clusters: seq<Option<Cluster>>, node: nat)
    requires |nodes| == |clusters| && NoLeadingAlias(nodes) && Covers(loc, hol, nodes, clusters, node)
    ensures forall e :: e in hol.entries ==> IsEntry(e)
    ensures Flat(hol.entries) == TaggedOpts(nodes, node) && forall x :: x in hol.shorts ==> x < 128
  {
    hide EntryList, Flat, TaggedOpts, Represents, AsciiShorts;
    EntryListShape(nodes, clusters, node);
    var spec := EntryList(nodes, clusters, node);
    assert forall i :: 0 <= i < |hol.entries| ==> spec[i] in spec && IsEntry(hol.entries[i]);
  }

  /** Every letter of every tree's list is accounted for. */
  lemma {:induction false} TreeAccounts(loc: Locale, t: Argp, cluster: Option<Cluster>, node: nat) returns (owners: seq<nat>)
    requires NoLeadingAlias(Nodes(t))
    ensures Accounted(loc, TreeHol(loc, t, cluster, node), owners)
    decreases t, |t.children| + 1
  {
    hide Accounted, ChildrenHol, NoLeadingAlias;
    owners := ChildrenAccount(loc, t, |t.children|, cluster, node);
  }

  lemma {:induction false} ChildrenAccount(loc: Locale, t: Argp, k: nat, cluster: Option<Cluster>, node: nat) returns (owners: seq<nat>)
    requires k <= |t.children| && NoLeadingAlias(Nodes(t))
    ensures Accounted(loc, ChildrenHol(loc, t, k, cluster, node), owners)
    decreases t, k
  {
    hide Accounted, NoLeadingAlias, OneHol, TreeHol, ChildrenHol, Nodes, NodesOf;
    if k == 0 {
      RootFirst(t);
      ChildrenHolSteps(loc, t, cluster, node);
      OneRepresents(loc, t, cluster, node);
      owners := RepresentedAccounts(loc, OneHol(loc, Opts(t), node, cluster));
    } else {
      var c := t.children[k - 1];
      var id := node + 1 + |NodesOf(t.children[..k - 1])|;
      var cl := ChildCluster(c, k - 1, cluster, id);
      ChildAliases(t, k - 1);
      assert t.children decreases to c;
      var ho := ChildrenAccount(loc, t, k - 1, cluster, node);
      var mo := TreeAccounts(loc, c.argp, cl, id);
      ChildHolStep(loc, t, k - 1, cluster, node);
      owners := OneMoreAccounts(loc, t, k - 1, cluster, node, ho, mo);
    }
  }

  lemma {:induction false} OneRepresents(loc: Locale, t: Argp, cluster: Option<Cluster>, node: nat)
    requires Opts(t) != [] ==> !Opts(t)[0].alias
    ensures Represents(loc, OneHol(loc, Opts(t), node, cluster))
  {
    hide Letters, Firsts, NodeEntries, TagAll, OffsetsFrom, WithOffsets, Flat, Represents;
    var opts := Opts(t);
    OffsetsHold(loc, NodeEntries(opts, node, cluster));
    SameFlat(WithOffsets(loc, NodeEntries(opts, node, cluster)), NodeEntries(opts, node, cluster));
    NodeEntriesFlat(opts, node, cluster);
    FromOffsets(loc, OneHol(loc, opts, node, cluster));
  }

  lemma {:induction false} OneMoreAccounts(loc: Locale, t: Argp, k: nat, cluster: Option<Cluster>, node: nat, ho: seq<nat>, mo: seq<nat>)
    returns (owners: seq<nat>)
    requires k < |t.children| && NoLeadingAlias(Nodes(t))
    requires Accounted(loc, ChildrenHol(loc, t, k, cluster, node), ho)
    requires var c, id := t.children[k], node + 1 + |NodesOf(t.children[..k])|;
             Accounted(loc, TreeHol(loc, c.argp, ChildCluster(c, k, cluster, id), id), mo)
    ensures var c, id := t.children[k], node + 1 + |NodesOf(t.children[..k])|;
            Accounted(loc, Appended(loc, ChildrenHol(loc, t, k, cluster, node), TreeHol(loc, c.argp, ChildCluster(c, k, cluster, id), id)), owners)
  {
    hide Accounted, OneHol, TreeHol, ChildrenHol, Nodes, NodesOf, NodeClustersOf, NodeClusters, MergedOwners, Covers, Flat, TaggedOpts;
    var c, id := t.children[k], node + 1 + |NodesOf(t.children[..k])|;
    var cl := ChildCluster(c, k, cluster, id);
    var hol, more := ChildrenHol(loc, t, k, cluster, node), TreeHol(loc, c.argp, cl, id);
    var nodes, clusters := [t] + NodesOf(t.children[..k]), [cluster] + NodeClustersOf(t.children[..k], cluster, node + 1);
    if more.entries == [] {
      owners := ho;
    } else if hol.entries == [] {
      owners := mo;
    } else {
      ChildAliases(t, k);
      FrontAliases(t, k);
      ChildrenCover(loc, t, k, cluster, node);
      TreeCovers(loc, c.argp, cl, id);
      CoveredEntries(loc, hol, nodes, clusters, node);
      CoveredEntries(loc, more, Nodes(c.argp), NodeClusters(c.argp, cl, id), id);
      TagRange(nodes, node);
      TagRange(Nodes(c.argp), id);
      FlatSome(hol.entries);
      assert Flat(hol.entries)[0] in Flat(hol.entries);
      AppendAccounts(loc, hol, more, ho, mo);
      owners := MergedOwners(loc, hol, more, ho);
    }
  }

  lemma {:induction false} FrontAliases(t: Argp, k: nat)
    requires NoLeadingAlias(Nodes(t)) && k <= |t.children|
    ensures NoLeadingAlias([t] + NodesOf(t.children[..k]))
  {
    FrontNodes(t.children, k);
    var front := [t] + NodesOf(t.children[..k]);
    forall i | 0 <= i < |front| ensures front[i] in Nodes(t) {
      if i > 0 { assert front[i] in NodesOf(t.children[..k]); }
    }
  }

  lemma {:induction false} FrontNodes(cs: seq<ArgpChild>, k: nat)
    requires k <= |cs|
    ensures forall a :: a in NodesOf(cs[..k]) ==> a in NodesOf(cs)
    decreases |cs|
  {
    if k == |cs| {
      assert cs[..k] == cs;
    } else {
      FrontNodes(cs[..|cs| - 1], k);
      assert cs[..|cs| - 1][..k] == cs[..k];
    }
  }
}
