/** The symbols create_header.py generates: one for every table a name occurs in, declared in the header and
    referenced from the tables. */
module TableSymbols {

  type Name = string

  /** The tables in dictionary order, each with the names it lists. */
  type Tables = seq<(string, seq<Name>)>

  /** The distinct elements of a list, first occurrences in order. */
  function Dedup(s: seq<Name>): (r: seq<Name>)
    ensures forall x :: x in r <==> x in s
    ensures forall i, j :: 0 <= i < j < |r| ==> r[i] != r[j]
  {
    if s == [] then [] else
    var last := |s| - 1;
    var front := Dedup(s[..last]);
    assert s == s[..last] + [s[last]];
    if s[last] in front then front else front + [s[last]]
  }

  // ----- make_varname_suffix -----

  function Ones(n: nat): (r: string)
    ensures |r| == n && forall i :: 0 <= i < n ==> r[i] == '1'
  {
    seq(n, _ => '1')
  }

  /** The symbol for the n-th table a name occurs in. */
  function Symbol(name: Name, n: nat): string
    requires n >= 1
  {
    if n == 1 then name + "_1337" else name + "_" + Ones(n - 1) + "1337"
  }

  lemma {:induction false} SymbolShape(name: Name, n: nat)
    requires n >= 1
    ensures Symbol(name, n) == name + ("_" + (Ones(n - 1) + "1337"))
  {
    if n == 1 { assert Ones(0) + "1337" == "1337"; }
  }

  /** Different names or different occurrences get different symbols. */
  lemma {:induction false} SymbolInjective(name: Name, n: nat, name': Name, n': nat)
    requires n >= 1 && n' >= 1 && Symbol(name, n) == Symbol(name', n')
    ensures name == name' && n == n'
  {
    SymbolShape(name, n);
    SymbolShape(name', n');
    var s := Symbol(name, n);
    var t, t' := Ones(n - 1) + "1337", Ones(n' - 1) + "1337";
    assert s == name + ("_" + t) && s == name' + ("_" + t');
    assert s[|name|] == '_' && s[|name'|] == '_';
    NoUnderscore(n);
    NoUnderscore(n');
    assert forall i :: |name| < i < |s| ==> s[i] == t[i - |name| - 1];
    assert forall i :: |name'| < i < |s| ==> s[i] == t'[i - |name'| - 1];
    assert |name| == |name'|;
    assert name == s[..|name|] && name' == s[..|name'|];
  }

  lemma {:induction false} NoUnderscore(n: nat)
    requires n >= 1
    ensures var t := Ones(n - 1) + "1337"; forall i :: 0 <= i < |t| ==> t[i] != '_'
  {
  }

  // ----- the counting pass and the emission pass -----

  /** How many of the tables list a name. */
  function Occurrences(tables: Tables, name: Name): nat {
    if tables == [] then 0 else
    Occurrences(tables[..|tables| - 1], name) + if name in tables[|tables| - 1].1 then 1 else 0
  }

  /** The symbols declared in the header. */
  ghost predicate Declared(tables: Tables, s: string) {
    exists name, n :: 1 <= n <= Occurrences(tables, name) && s == Symbol(name, n)
  }

  /** The names of a table in the order emitted, each with its number. */
  function Row(tables: Tables, k: nat): seq<string>
    requires k < |tables|
  {
    var names := Dedup(tables[k].1);
    seq(|names|, i requires 0 <= i < |names| => Symbol(names[i], Occurrences(tables[..k], names[i]) + 1))
  }

  /** All symbols the tables refer to, in the order emitted. */
  function References(tables: Tables, k: nat): seq<string>
    requires k <= |tables|
  {
    if k == 0 then [] else References(tables, k - 1) + Row(tables, k - 1)
  }

  lemma {:induction false} OccurrencesGrow(tables: Tables, k: nat, name: Name)
    requires k < |tables|
    ensures Occurrences(tables[..k + 1], name) == Occurrences(tables[..k], name) + if name in tables[k].1 then 1 else 0
  {
    assert tables[..k + 1][..k] == tables[..k];
  }

  /** After k tables, exactly the symbols numbered up to a name's occurrences so far have been referenced. */
  lemma {:induction false} ReferencesAre(tables: Tables, k: nat, name: Name, n: nat)
    requires k <= |tables| && n >= 1
    ensures Symbol(name, n) in References(tables, k) <==> n <= Occurrences(tables[..k], name)
  {
    hide Symbol, Dedup;
    if k > 0 {
      ReferencesAre(tables, k - 1, name, n);
      OccurrencesGrow(tables, k - 1, name);
      RowHas(tables, k - 1, name, n);
    }
  }

  lemma {:induction false} RowHas(tables: Tables, k: nat, name: Name, n: nat)
    requires k < |tables| && n >= 1
    ensures Symbol(name, n) in Row(tables, k) <==> name in tables[k].1 && n == Occurrences(tables[..k], name) + 1
  {
    hide Symbol, Occurrences;
    var names := Dedup(tables[k].1);
    if name in tables[k].1 && n == Occurrences(tables[..k], name) + 1 {
      var i :| 0 <= i < |names| && names[i] == name;
      assert Row(tables, k)[i] == Symbol(name, n);
    }
    if Symbol(name, n) in Row(tables, k) {
      var i :| 0 <= i < |names| && Row(tables, k)[i] == Symbol(name, n);
      SymbolInjective(names[i], Occurrences(tables[..k], names[i]) + 1, name, n);
    }
  }

  /** Everything referenced is a symbol. */
  lemma {:induction false} ReferenceIsSymbol(tables: Tables, k: nat, s: string) returns (name: Name, n: nat)
    requires k <= |tables| && s in References(tables, k)
    ensures n >= 1 && s == Symbol(name, n) && n <= Occurrences(tables[..k], name)
  {
    hide Symbol, Dedup;
    if s in References(tables, k - 1) {
      name, n := ReferenceIsSymbol(tables, k - 1, s);
    } else {
      var names := Dedup(tables[k - 1].1);
      var i :| 0 <= i < |names| && Row(tables, k - 1)[i] == s;
      name, n := names[i], Occurrences(tables[..k - 1], names[i]) + 1;
    }
    ReferencesAre(tables, k, name, n);
  }

  lemma {:induction false} RowDistinct(tables: Tables, k: nat)
    requires k < |tables|
    ensures forall i, j :: 0 <= i < j < |Row(tables, k)| ==> Row(tables, k)[i] != Row(tables, k)[j]
  {
    hide Symbol;
    var names, r := Dedup(tables[k].1), Row(tables, k);
    forall i, j | 0 <= i < j < |r| ensures r[i] != r[j] {
      DifferentSymbols(names[i], Occurrences(tables[..k], names[i]) + 1, names[j], Occurrences(tables[..k], names[j]) + 1);
    }
  }

  lemma {:induction false} DifferentSymbols(name: Name, n: nat, name': Name, n': nat)
    requires n >= 1 && n' >= 1
    ensures name != name' || n != n' ==> Symbol(name, n) != Symbol(name', n')
  {
    hide Symbol;
    if Symbol(name, n) == Symbol(name', n') { SymbolInjective(name, n, name', n'); }
  }

  /** No symbol is referenced twice, across all tables. */
  lemma {:induction false} ReferencesDistinct(tables: Tables, k: nat)
    requires k <= |tables|
    ensures forall i, j :: 0 <= i < j < |References(tables, k)| ==> References(tables, k)[i] != References(tables, k)[j]
  {
    hide Symbol, Dedup, Row;
    if k > 0 {
      ReferencesDistinct(tables, k - 1);
      RowDistinct(tables, k - 1);
      var a, b := References(tables, k - 1), Row(tables, k - 1);
      forall x | x in a ensures x !in b { RowIsNew(tables, k - 1, x); }
      forall i, j | 0 <= i < j < |a + b| ensures (a + b)[i] != (a + b)[j] {
        if i < |a| <= j { assert (a + b)[i] in a && (a + b)[j] in b; }
      }
    }
  }

  lemma {:induction false} RowIsNew(tables: Tables, k: nat, s: string)
    requires k < |tables| && s in References(tables, k)
    ensures s !in Row(tables, k)
  {
    hide Symbol, Row, References;
    var name, n := ReferenceIsSymbol(tables, k, s);
    RowHas(tables, k, name, n);
  }

  /** The symbols the tables refer to are exactly those the header declares. */
  lemma {:induction false} DeclaredAreReferenced(tables: Tables, s: string)
    ensures Declared(tables, s) <==> s in References(tables, |tables|)
  {
    hide Symbol, References;
    assert tables[..|tables|] == tables;
    if Declared(tables, s) {
      var name, n :| 1 <= n <= Occurrences(tables, name) && s == Symbol(name, n);
      ReferencesAre(tables, |tables|, name, n);
    }
    if s in References(tables, |tables|) {
      var name, n := ReferenceIsSymbol(tables, |tables|, s);
    }
  }

  // ----- the loops of generate_files -----

  type Counts = map<Name, nat>

  function CountOf(c: Counts, name: Name): nat { if name in c then c[name] else 0 }

  /** The first pass: in how many tables each name occurs. */
  method CountOccurrences(tables: Tables) returns (counts: Counts)
    ensures forall name :: CountOf(counts, name) == Occurrences(tables, name)
  {
    counts := map[];
    for k := 0 to |tables|
      invariant forall name :: CountOf(counts, name) == Occurrences(tables[..k], name)
    {
      var names := Dedup(tables[k].1);
      ghost var before := counts;
      for i := 0 to |names|
        invariant forall name :: CountOf(counts, name) == CountOf(before, name) + if name in names[..i] then 1 else 0
      {
        counts := counts[names[i] := CountOf(counts, names[i]) + 1];
        assert names[..i + 1] == names[..i] + [names[i]];
        assert names[i] !in names[..i];
      }
      assert names[..|names|] == names;
      forall name ensures CountOf(counts, name) == Occurrences(tables[..k + 1], name) { OccurrencesGrow(tables, k, name); }
    }
    assert tables[..|tables|] == tables;
  }

  /** The second pass: the references of all tables, numbered as they are emitted. */
  method EmitTables(tables: Tables) returns (refs: seq<string>)
    ensures refs == References(tables, |tables|)
    ensures forall i, j :: 0 <= i < j < |refs| ==> refs[i] != refs[j]
    ensures forall s :: s in refs <==> Declared(tables, s)
  {
    hide Symbol, Declared, References, Row;
    refs := [];
    var counter: Counts := map[];
    NoTables(tables);
    for k := 0 to |tables|
      invariant refs == References(tables, k)
      invariant forall name :: CountOf(counter, name) == Occurrences(tables[..k], name)
    {
      var row;
      row, counter := EmitRow(tables, k, counter);
      OneMoreRow(tables, k);
      refs := refs + row;
    }
    ReferencesDistinct(tables, |tables|);
    forall s ensures s in refs <==> Declared(tables, s) { DeclaredAreReferenced(tables, s); }
  }

  lemma {:induction false} NoTables(tables: Tables)
    ensures References(tables, 0) == [] && forall name :: Occurrences(tables[..0], name) == 0
  {
  }

  lemma {:induction false} OneMoreRow(tables: Tables, k: nat)
    requires k < |tables|
    ensures References(tables, k + 1) == References(tables, k) + Row(tables, k)
  {
  }

  method EmitRow(tables: Tables, k: nat, counter0: Counts) returns (row: seq<string>, counter: Counts)
    requires k < |tables| && forall name :: CountOf(counter0, name) == Occurrences(tables[..k], name)
    ensures row == Row(tables, k)
    ensures forall name :: CountOf(counter, name) == Occurrences(tables[..k + 1], name)
  {
    hide Symbol, Occurrences;
    row, counter := [], counter0;
    var names := Dedup(tables[k].1);
    for i := 0 to |names|
      invariant row == Row(tables, k)[..i]
      invariant forall name :: CountOf(counter, name) == CountOf(counter0, name) + if name in names[..i] then 1 else 0
    {
      assert names[i] !in names[..i];
      counter := counter[names[i] := CountOf(counter, names[i]) + 1];
      row := row + [Symbol(names[i], counter[names[i]])];
      assert names[..i + 1] == names[..i] + [names[i]];
    }
    assert names[..|names|] == names;
    forall name ensures CountOf(counter, name) == Occurrences(tables[..k + 1], name) { OccurrencesGrow(tables, k, name); }
  }

  /** The declarations of one name: a symbol for each of its occurrences. */
  function DeclsOf(name: Name, n: nat): seq<string> {
    if n == 0 then [] else DeclsOf(name, n - 1) + [Symbol(name, n)]
  }

  lemma {:induction false} DeclsOfAre(name: Name, n: nat, name': Name, m: nat)
    requires m >= 1
    ensures Symbol(name', m) in DeclsOf(name, n) <==> name' == name && m <= n
  {
    hide Symbol;
    if n > 0 {
      DeclsOfAre(name, n - 1, name', m);
      DifferentSymbols(name, n, name', m);
    }
  }

  lemma {:induction false} DeclIsSymbol(name: Name, n: nat, s: string) returns (m: nat)
    requires s in DeclsOf(name, n)
    ensures 1 <= m <= n && s == Symbol(name, m)
  {
    hide Symbol;
    if s in DeclsOf(name, n - 1) { m := DeclIsSymbol(name, n - 1, s); } else { m := n; }
  }

  lemma {:induction false} DeclsOfDistinct(name: Name, n: nat)
    ensures forall i, j :: 0 <= i < j < |DeclsOf(name, n)| ==> DeclsOf(name, n)[i] != DeclsOf(name, n)[j]
  {
    hide Symbol;
    if n > 0 {
      DeclsOfDistinct(name, n - 1);
      DeclsOfAre(name, n - 1, name, n);
    }
  }

  ghost predicate DeclaredBy(tables: Tables, names: seq<Name>, s: string) {
    exists name, n :: name in names && 1 <= n <= Occurrences(tables, name) && s == Symbol(name, n)
  }

  lemma {:induction false} DeclaredBySnoc(tables: Tables, names: seq<Name>, name: Name, s: string)
    ensures DeclaredBy(tables, names + [name], s) <==> DeclaredBy(tables, names, s) || s in DeclsOf(name, Occurrences(tables, name))
  {
    hide Symbol, DeclsOf, Occurrences;
    if s in DeclsOf(name, Occurrences(tables, name)) {
      var m := DeclIsSymbol(name, Occurrences(tables, name), s);
      assert name in names + [name];
    }
    if DeclaredBy(tables, names, s) {
      var x, n :| x in names && 1 <= n <= Occurrences(tables, x) && s == Symbol(x, n);
      assert x in names + [name];
    }
    if DeclaredBy(tables, names + [name], s) {
      var x, n :| x in names + [name] && 1 <= n <= Occurrences(tables, x) && s == Symbol(x, n);
      if x == name { DeclsOfAre(name, Occurrences(tables, name), name, n); } else { assert x in names; }
    }
  }

  lemma {:induction false} NewDeclsAreNew(tables: Tables, names: seq<Name>, name: Name, s: string)
    requires name !in names && s in DeclsOf(name, Occurrences(tables, name))
    ensures !DeclaredBy(tables, names, s)
  {
    hide Symbol, DeclsOf, Occurrences;
    var m := DeclIsSymbol(name, Occurrences(tables, name), s);
    forall x, n | x in names && 1 <= n <= Occurrences(tables, x) ensures s != Symbol(x, n) { DifferentSymbols(name, m, x, n); }
  }

  /** The header: the names in any order, a declaration for each occurrence; every symbol the tables refer to is
      declared, once, and nothing else. */
  method EmitHeader(tables: Tables, order: seq<Name>) returns (decls: seq<string>)
    requires forall i, j :: 0 <= i < j < |order| ==> order[i] != order[j]
    requires forall name :: name in order <==> Occurrences(tables, name) > 0
    ensures forall i, j :: 0 <= i < j < |decls| ==> decls[i] != decls[j]
    ensures forall s :: s in decls <==> s in References(tables, |tables|)
  {
    hide Symbol, DeclsOf, Occurrences, References, DeclaredBy;
    decls := [];
    var counts := CountOccurrences(tables);
    forall s ensures !DeclaredBy(tables, [], s) { NothingDeclared(tables, s); }
    for k := 0 to |order|
      invariant forall i, j :: 0 <= i < j < |decls| ==> decls[i] != decls[j]
      invariant forall s :: s in decls <==> DeclaredBy(tables, order[..k], s)
    {
      var name := order[k];
      var more := DeclsOf(name, CountOf(counts, name));
      DeclsOfDistinct(name, CountOf(counts, name));
      assert order[..k + 1] == order[..k] + [name] && name !in order[..k];
      forall s | s in more ensures s !in decls { NewDeclsAreNew(tables, order[..k], name, s); }
      forall s ensures DeclaredBy(tables, order[..k + 1], s) <==> s in decls + more { DeclaredBySnoc(tables, order[..k], name, s); }
      JoinDistinct(decls, more);
      decls := decls + more;
    }
    assert order[..|order|] == order;
    forall s ensures s in decls <==> s in References(tables, |tables|) {
      DeclaredAreReferenced(tables, s);
      AllNamesDeclared(tables, order, s);
    }
  }

  lemma {:induction false} NothingDeclared(tables: Tables, s: string)
    ensures !DeclaredBy(tables, [], s)
  {
  }

  lemma {:induction false} JoinDistinct(a: seq<string>, b: seq<string>)
    requires (forall i, j :: 0 <= i < j < |a| ==> a[i] != a[j]) && (forall i, j :: 0 <= i < j < |b| ==> b[i] != b[j])
    requires forall s :: s in b ==> s !in a
    ensures forall i, j :: 0 <= i < j < |a + b| ==> (a + b)[i] != (a + b)[j]
  {
    forall i, j | 0 <= i < j < |a + b| ensures (a + b)[i] != (a + b)[j] {
      if i < |a| <= j { assert (a + b)[i] in a && (a + b)[j] in b; }
    }
  }

  lemma {:induction false} AllNamesDeclared(tables: Tables, order: seq<Name>, s: string)
    requires forall name :: name in order <==> Occurrences(tables, name) > 0
    ensures DeclaredBy(tables, order, s) <==> Declared(tables, s)
  {
    hide Symbol, Occurrences;
    if Declared(tables, s) {
      var name, n :| 1 <= n <= Occurrences(tables, name) && s == Symbol(name, n);
      assert name in order;
    }
  }
}
