/** The text of a document, and a reader for it: sections 2, 4 and 5 of RFC 8259, with strings that hold no
    escape (section 7) and numbers as tokens of section 6. */
module JsonReader {
  import opened Options

  /** Numbers without fraction and exponent are read for their value, others kept as their text. */
  datatype Json =
    | JString(s: string) | JInteger(value: int) | JNumber(text: string)
    | JObject(members: seq<(string, Json)>) | JArray(elems: seq<Json>)

  predicate IsWs(c: char) { c == ' ' || c == '\t' || c == '\n' || c == '\r' }

  function SkipWs(s: string): (r: string)
    ensures |r| <= |s|
  {
    if s != [] && IsWs(s[0]) then SkipWs(s[1..]) else s
  }

  /** A character that stands for itself inside a string. */
  predicate Plain(c: char) { c != '\"' && c != '\\' && c >= ' ' }

  predicate AllPlain(s: string) { forall c :: c in s ==> Plain(c) }

  /** The characters up to the closing quote, and what follows it. */
  function ReadChars(s: string): (r: Option<(string, string)>)
    ensures r.Some? ==> |r.value.1| < |s|
  {
    if s == [] || (s[0] != '\"' && !Plain(s[0])) then None
    else if s[0] == '\"' then Some(([], s[1..]))
    else
      match ReadChars(s[1..])
      case None => None
      case Some(p) => Some(([s[0]] + p.0, p.1))
  }

  predicate IsDigit(c: char) { '0' <= c <= '9' }

  predicate InNumber(c: char) { IsDigit(c) || c == '-' || c == '+' || c == '.' || c == 'e' || c == 'E' }

  function Digits(s: string): (n: nat)
    ensures n <= |s|
  {
    if s != [] && IsDigit(s[0]) then 1 + Digits(s[1..]) else 0
  }

  predicate ExpOk(s: string) {
    s == [] ||
    ((s[0] == 'e' || s[0] == 'E') &&
     var t := if |s| > 1 && (s[1] == '+' || s[1] == '-') then s[2..] else s[1..];
     t != [] && Digits(t) == |t|)
  }

  predicate FracOk(s: string) {
    if s != [] && s[0] == '.' then Digits(s[1..]) > 0 && ExpOk(s[1..][Digits(s[1..])..]) else ExpOk(s)
  }

  /** number = [ minus ] int [ frac ] [ exp ] */
  predicate IsNumber(s: string) {
    var t := if s != [] && s[0] == '-' then s[1..] else s;
    t != [] && Digits(t) > 0 && (t[0] == '0' ==> Digits(t) == 1) && FracOk(t[Digits(t)..])
  }

  /** The value of a run of decimal digits. */
  function DigitsValue(t: string): int
    decreases |t|
  {
    if t == [] then 0 else 10 * DigitsValue(t[..|t| - 1]) + (t[|t| - 1] as int - '0' as int)
  }

  /** The digits of a number without its sign. */
  function Unsigned(s: string): string { if s != [] && s[0] == '-' then s[1..] else s }

  /** What a number says: minus the value of its digits behind a minus sign, their value without one. */
  function NumberOf(s: string): Json {
    var t := Unsigned(s);
    if Digits(t) < |t| then JNumber(s) else JInteger(if t == s then DigitsValue(t) else -DigitsValue(t))
  }

  /** The longest run of number characters. */
  function Span(s: string): (n: nat)
    ensures n <= |s|
  {
    if s != [] && InNumber(s[0]) then 1 + Span(s[1..]) else 0
  }

  function ReadValue(text: string): (r: Option<(Json, string)>)
    ensures r.Some? ==> |r.value.1| < |text|
    decreases |text|, 1
  {
    var s := SkipWs(text);
    if s == [] then None
    else if s[0] == '\"' then
      match ReadChars(s[1..])
      case None => None
      case Some(p) => Some((JString(p.0), p.1))
    else if s[0] == '{' then
      var t := SkipWs(s[1..]);
      if t != [] && t[0] == '}' then Some((JObject([]), t[1..])) else ReadObject(s[1..])
    else if s[0] == '[' then
      var t := SkipWs(s[1..]);
      if t != [] && t[0] == ']' then Some((JArray([]), t[1..])) else ReadArray(s[1..])
    else if IsNumber(s[..Span(s)]) && Span(s) > 0 then Some((NumberOf(s[..Span(s)]), s[Span(s)..]))
    else None
  }

  function ReadObject(text: string): (r: Option<(Json, string)>)
    ensures r.Some? ==> |r.value.1| < |text|
    decreases |text|, 3
  {
    match ReadMembers(text)
    case None => None
    case Some(p) => Some((JObject(p.0), p.1))
  }

  function ReadArray(text: string): (r: Option<(Json, string)>)
    ensures r.Some? ==> |r.value.1| < |text|
    decreases |text|, 3
  {
    match ReadElems(text)
    case None => None
    case Some(p) => Some((JArray(p.0), p.1))
  }

  /** A name, a colon and a value. */
  function ReadMember(text: string): (r: Option<((string, Json), string)>)
    ensures r.Some? ==> |r.value.1| < |text|
    decreases |text|, 0
  {
    var s := SkipWs(text);
    if s == [] || s[0] != '\"' then None
    else
      match ReadChars(s[1..])
      case None => None
      case Some(p) =>
        var t := SkipWs(p.1);
        if t == [] || t[0] != ':' then None
        else
          match ReadValue(t[1..])
          case None => None
          case Some(v) => Some(((p.0, v.0), v.1))
  }

  /** Members separated by commas, up to the closing brace. */
  function ReadMembers(text: string): (r: Option<(seq<(string, Json)>, string)>)
    ensures r.Some? ==> |r.value.1| < |text|
    decreases |text|, 2
  {
    match ReadMember(text)
    case None => None
    case Some(m) =>
      var t := SkipWs(m.1);
      if t == [] then None
      else if t[0] == '}' then Some(([m.0], t[1..]))
      else if t[0] == ',' then
        match ReadMembers(t[1..])
        case None => None
        case Some(p) => Some(([m.0] + p.0, p.1))
      else None
  }

  /** Values separated by commas, up to the closing bracket. */
  function ReadElems(text: string): (r: Option<(seq<Json>, string)>)
    ensures r.Some? ==> |r.value.1| < |text|
    decreases |text|, 2
  {
    match ReadValue(text)
    case None => None
    case Some(v) =>
      var t := SkipWs(v.1);
      if t == [] then None
      else if t[0] == ']' then Some(([v.0], t[1..]))
      else if t[0] == ',' then
        match ReadElems(t[1..])
        case None => None
        case Some(p) => Some(([v.0] + p.0, p.1))
      else None
  }

  /** JSON-text = ws value ws */
  function Read(text: string): Option<Json> {
    match ReadValue(text)
    case None => None
    case Some(p) => if SkipWs(p.1) == [] then Some(p.0) else None
  }
}

/** What the calls for a document write, and that it reads back as that document. */
module JsonRoundTrip {
  import opened Options
  import opened JsonReader
  import opened JsonWriter

  // ----- documents and their call sequences -----

  /** What can be written so that it reads back: strings that need no escape, doubles whose text is a number,
      and no array directly inside an array, for which there is no call. */
  predicate ValueOk(v: Value) {
    match v
    case Str(s) => AllPlain(s)
    case Uint(_) => true
    case Int(_) => true
    case Double(text) => IsNumber(text) && Span(text) == |text|
    case Obj(attrs) => AttrsOk(attrs)
    case Arr(elems) => ElemsOk(elems)
  }

  predicate AttrsOk(attrs: seq<Attr>) {
    attrs != [] ==> AllPlain(attrs[0].name) && ValueOk(attrs[0].value) && AttrsOk(attrs[1..])
  }

  predicate ElemsOk(elems: seq<Value>) {
    elems != [] ==> !elems[0].Arr? && ValueOk(elems[0]) && ElemsOk(elems[1..])
  }

  function AttrCalls(a: Attr): seq<Call> {
    match a.value
    case Str(s) => [AttrString(a.name, s)]
    case Uint(n) => [AttrUint(a.name, n)]
    case Int(i) => [AttrInt(a.name, i)]
    case Double(text) => [AttrDouble(a.name, text)]
    case Obj(attrs) => [AttrObjectBegin(a.name)] + (AttrsCalls(attrs) + [AttrObjectEnd])
    case Arr(elems) => [ArrayBegin(a.name)] + (ElemsCalls(elems) + [ArrayEnd])
  }

  function AttrsCalls(attrs: seq<Attr>): seq<Call> {
    if attrs == [] then [] else AttrCalls(attrs[0]) + AttrsCalls(attrs[1..])
  }

  /** There is no call that opens an array in an array. */
  function ElemCalls(v: Value): seq<Call> {
    match v
    case Str(s) => [ElementString(s)]
    case Uint(n) => [ElementUint(n)]
    case Int(i) => [ElementInt(i)]
    case Double(text) => [ElementDouble(text)]
    case Obj(attrs) => [ElementObjectBegin] + (AttrsCalls(attrs) + [ElementObjectEnd])
    case Arr(elems) => []
  }

  function ElemsCalls(elems: seq<Value>): seq<Call> {
    if elems == [] then [] else ElemCalls(elems[0]) + ElemsCalls(elems[1..])
  }

  function DocumentCalls(attrs: seq<Attr>): seq<Call> { [DocumentBegin] + (AttrsCalls(attrs) + [DocumentEnd]) }

  // ----- the text of a document -----

  function ValueText(v: Value, ind: Level): string
    decreases v, 0
  {
    match v
    case Str(s) => Quoted(s)
    case Uint(n) => Decimal(n)
    case Int(i) => Signed(i)
    case Double(text) => text
    case Obj(attrs) => "{\n" + (AttrsText(attrs, true, More(ind)) + ("\n" + (Spaces(ind) + "}")))
    case Arr(elems) => "[" + (ElemsText(elems, true, More(ind)) + "]")
  }

  function AttrText(a: Attr, ind: Level): string { Spaces(ind) + (Quoted(a.name) + (": " + ValueText(a.value, ind))) }

  function AttrsText(attrs: seq<Attr>, first: bool, ind: Level): string {
    if attrs == [] then ""
    else (if first then "" else ",\n") + (AttrText(attrs[0], ind) + AttrsText(attrs[1..], false, ind))
  }

  /** Objects go on a line of their own. */
  function ElemText(v: Value, first: bool, ind: Level): string
    decreases v, 1
  {
    if v.Obj? then (if first then "" else ",") + ("\n" + (Spaces(ind) + ValueText(v, ind)))
    else (if first then "" else ", ") + ValueText(v, ind)
  }

  function ElemsText(elems: seq<Value>, first: bool, ind: Level): string {
    if elems == [] then "" else ElemText(elems[0], first, ind) + ElemsText(elems[1..], false, ind)
  }

  function DocumentText(attrs: seq<Attr>, ind: Level): string {
    Spaces(ind) + ("{\n" + (AttrsText(attrs, true, More(ind)) + (Spaces(ind) + "\n}")))
  }

  // ----- the calls write the text -----

  lemma {:induction false} Assoc(a: string, b: string, c: string)
    ensures (a + b) + c == a + (b + c)
  {
  }

  lemma {:induction false} RunOne(c: Ctx, call: Call)
    ensures Run(c, [call]) == Step(c, call)
  {
    hide Step;
    assert Run(Step(c, call), []) == Step(c, call);
    assert [call][1..] == [];
  }

  lemma {:induction false} RunBracket(c: Ctx, open: Call, inner: seq<Call>, close: Call)
    ensures Run(c, [open] + (inner + [close])) == Step(Run(Step(c, open), inner), close)
  {
    hide Step, Run;
    RunAppend(c, [open], inner + [close]);
    RunOne(c, open);
    RunAppend(Step(c, open), inner, [close]);
    RunOne(Run(Step(c, open), inner), close);
  }

  function Comma(first: bool): string { if first then "" else ",\n" }

  lemma {:induction false} RunAttr(c: Ctx, a: Attr)
    requires ValueOk(a.value)
    ensures Run(c, AttrCalls(a)) == Ctx(c.indent, false, c.out + (Comma(c.first) + AttrText(a, c.indent)))
    decreases a, 1
  {
    match a.value
    case Str(s) => RunPlainAttr(c, a);
    case Uint(n) => RunPlainAttr(c, a);
    case Int(i) => RunPlainAttr(c, a);
    case Double(text) => RunPlainAttr(c, a);
    case Obj(attrs) => RunObjAttr(c, a);
    case Arr(elems) => RunArrAttr(c, a);
  }

  lemma {:induction false} RunPlainAttr(c: Ctx, a: Attr)
    requires !a.value.Obj? && !a.value.Arr?
    ensures Run(c, AttrCalls(a)) == Ctx(c.indent, false, c.out + (Comma(c.first) + AttrText(a, c.indent)))
  {
    hide Run, Quoted, Decimal, Signed, Spaces;
    RunOne(c, AttrCalls(a)[0]);
    Assoc(Comma(c.first), Spaces(c.indent), Quoted(a.name) + (": " + ValueText(a.value, c.indent)));
  }

  lemma {:induction false} BracketText(out: string, comma: string, ind: string, open: string, body: string, close: string)
    ensures ((out + ((comma + ind) + open)) + body) + close == out + (comma + (ind + (open + (body + close))))
  {
  }

  lemma {:induction false} RunObjAttr(c: Ctx, a: Attr)
    requires a.value.Obj? && ValueOk(a.value)
    ensures Run(c, AttrCalls(a)) == Ctx(c.indent, false, c.out + (Comma(c.first) + AttrText(a, c.indent)))
    decreases a, 0
  {
    hide Run, Quoted, Spaces, AttrsText, AttrsCalls, AttrsOk;
    var attrs := a.value.attrs;
    RunBracket(c, AttrObjectBegin(a.name), AttrsCalls(attrs), AttrObjectEnd);
    RunAttrs(Step(c, AttrObjectBegin(a.name)), attrs);
    var body, close := AttrsText(attrs, true, More(c.indent)), "\n" + (Spaces(c.indent) + "}");
    BracketText(c.out, Comma(c.first), Spaces(c.indent), Quoted(a.name) + ": {\n", body, close);
    OpenText(Quoted(a.name), ": ", "{\n", body + close);
    assert ": {\n" == ": " + "{\n";
  }

  lemma {:induction false} OpenText(name: string, colon: string, open: string, rest: string)
    ensures (name + (colon + open)) + rest == name + (colon + (open + rest))
  {
  }

  lemma {:induction false} RunArrAttr(c: Ctx, a: Attr)
    requires a.value.Arr? && ValueOk(a.value)
    ensures Run(c, AttrCalls(a)) == Ctx(c.indent, false, c.out + (Comma(c.first) + AttrText(a, c.indent)))
    decreases a, 0
  {
    hide Run, Quoted, Spaces, ElemsText, ElemsCalls, ElemsOk;
    var elems := a.value.elems;
    RunBracket(c, ArrayBegin(a.name), ElemsCalls(elems), ArrayEnd);
    RunElems(Step(c, ArrayBegin(a.name)), elems);
    var body := ElemsText(elems, true, More(c.indent));
    BracketText(c.out, Comma(c.first), Spaces(c.indent), Quoted(a.name) + ": [", body, "]");
    OpenText(Quoted(a.name), ": ", "[", body + "]");
    assert ": [" == ": " + "[";
  }

  lemma {:induction false} RunAttrs(c: Ctx, attrs: seq<Attr>)
    requires AttrsOk(attrs)
    ensures Run(c, AttrsCalls(attrs)) == Ctx(c.indent, c.first && attrs == [], c.out + AttrsText(attrs, c.first, c.indent))
    decreases attrs
  {
    if attrs == [] {
      assert c.out + "" == c.out;
    } else {
      hide Run, AttrText, AttrCalls;
      assert attrs decreases to attrs[0];
      RunAppend(c, AttrCalls(attrs[0]), AttrsCalls(attrs[1..]));
      RunAttr(c, attrs[0]);
      RunAttrs(Run(c, AttrCalls(attrs[0])), attrs[1..]);
      JoinText(c.out, Comma(c.first), AttrText(attrs[0], c.indent), AttrsText(attrs[1..], false, c.indent));
    }
  }

  lemma {:induction false} JoinText(out: string, comma: string, one: string, rest: string)
    ensures (out + (comma + one)) + rest == out + (comma + (one + rest))
  {
  }

  lemma {:induction false} RunElem(c: Ctx, v: Value)
    requires ValueOk(v) && !v.Arr?
    ensures Run(c, ElemCalls(v)) == Ctx(c.indent, false, c.out + ElemText(v, c.first, c.indent))
    decreases v
  {
    hide Run, Step, ElemText, AttrsOk;
    if v.Obj? {
      RunBracket(c, ElementObjectBegin, AttrsCalls(v.attrs), ElementObjectEnd);
      RunAttrs(Step(c, ElementObjectBegin), v.attrs);
      ObjElem(c, v);
    } else {
      RunOne(c, ElemCalls(v)[0]);
      PlainElem(c, v);
    }
  }

  lemma {:induction false} PlainElem(c: Ctx, v: Value)
    requires !v.Arr? && !v.Obj?
    ensures Step(c, ElemCalls(v)[0]) == Ctx(c.indent, false, c.out + ElemText(v, c.first, c.indent))
  {
    hide Quoted, Decimal, Signed, Spaces, AttrsText, ElemsText;
  }

  lemma {:induction false} ObjElem(c: Ctx, v: Value)
    requires v.Obj?
    ensures var o := Step(c, ElementObjectBegin);
            o.indent == More(c.indent) && o.first &&
            Step(Ctx(o.indent, v.attrs == [], o.out + AttrsText(v.attrs, true, o.indent)), ElementObjectEnd)
              == Ctx(c.indent, false, c.out + ElemText(v, c.first, c.indent))
  {
    hide Spaces, AttrsText, ElemsText;
    var body, close := AttrsText(v.attrs, true, More(c.indent)), "\n" + (Spaces(c.indent) + "}");
    ElemBracket(c.out, if c.first then "" else ",", "\n", Spaces(c.indent), "{\n", body, close);
  }

  lemma {:induction false} ElemBracket(out: string, comma: string, nl: string, ind: string, open: string, body: string, close: string)
    ensures ((out + (comma + (nl + (ind + open)))) + body) + close == out + (comma + (nl + (ind + (open + (body + close)))))
  {
  }

  lemma {:induction false} RunElems(c: Ctx, elems: seq<Value>)
    requires ElemsOk(elems)
    ensures Run(c, ElemsCalls(elems)) == Ctx(c.indent, c.first && elems == [], c.out + ElemsText(elems, c.first, c.indent))
    decreases elems
  {
    if elems == [] {
      assert c.out + "" == c.out;
    } else {
      hide Run, ElemText, ElemCalls;
      assert elems decreases to elems[0];
      RunAppend(c, ElemCalls(elems[0]), ElemsCalls(elems[1..]));
      RunElem(c, elems[0]);
      RunElems(Run(c, ElemCalls(elems[0])), elems[1..]);
      Assoc(c.out, ElemText(elems[0], c.first, c.indent), ElemsText(elems[1..], false, c.indent));
    }
  }

  // ----- the text reads back -----

  function ToJson(v: Value): Json {
    match v
    case Str(s) => JString(s)
    case Uint(n) => JInteger(n)
    case Int(i) => JInteger(i)
    case Double(text) => NumberOf(text)
    case Obj(attrs) => JObject(ToMembers(attrs))
    case Arr(elems) => JArray(ToElems(elems))
  }

  function ToMembers(attrs: seq<Attr>): seq<(string, Json)> {
    if attrs == [] then [] else [(attrs[0].name, ToJson(attrs[0].value))] + ToMembers(attrs[1..])
  }

  function ToElems(elems: seq<Value>): seq<Json> {
    if elems == [] then [] else [ToJson(elems[0])] + ToElems(elems[1..])
  }

  lemma {:induction false} SkipPrefix(w: string, t: string)
    requires forall c :: c in w ==> IsWs(c)
    ensures SkipWs(w + t) == SkipWs(t)
    decreases |w|
  {
    if w == [] {
      assert w + t == t;
    } else {
      assert (w + t)[0] == w[0] && (w + t)[1..] == w[1..] + t;
      assert w[0] in w;
      SkipPrefix(w[1..], t);
    }
  }

  lemma {:induction false} SkipSpaces(n: nat, t: string)
    ensures SkipWs(Spaces(n) + t) == SkipWs(t)
  {
    SkipPrefix(Spaces(n), t);
  }

  lemma {:induction false} ReadPlain(s: string, t: string)
    requires AllPlain(s)
    ensures ReadChars(s + ("\"" + t)) == Some((s, t))
    decreases |s|
  {
    var q := "\"" + t;
    assert q[0] == '\"' && q[1..] == t;
    if s == [] {
      assert s + q == q;
    } else {
      assert (s + q)[0] == s[0] && (s + q)[1..] == s[1..] + q;
      assert s[0] in s;
      ReadPlain(s[1..], t);
      assert [s[0]] + s[1..] == s;
    }
  }

  /** Nothing that would continue a number. */
  predicate Stop(rest: string) { rest == [] || !InNumber(rest[0]) }

  lemma {:induction false} SpanStops(t: string, rest: string)
    requires Span(t) == |t| && Stop(rest)
    ensures Span(t + rest) == |t|
    decreases |t|
  {
    if t == [] {
      assert t + rest == rest;
    } else {
      assert (t + rest)[0] == t[0] && (t + rest)[1..] == t[1..] + rest;
      SpanStops(t[1..], rest);
    }
  }

  lemma {:induction false} ReadNumber(t: string, rest: string)
    requires IsNumber(t) && Span(t) == |t| && Stop(rest)
    ensures ReadValue(t + rest) == Some((NumberOf(t), rest))
  {
    hide FracOk, NumberOf;
    SpanStops(t, rest);
    var s := t + rest;
    assert s[0] == t[0] && s[..|t|] == t && s[|t|..] == rest;
    NumberHead(t);
    assert SkipWs(s) == s;
  }

  lemma {:induction false} NumberHead(t: string)
    requires IsNumber(t)
    ensures t != [] && (IsDigit(t[0]) || t[0] == '-')
  {
    hide FracOk;
  }

  lemma {:induction false} AllDigits(t: string)
    requires forall c :: c in t ==> IsDigit(c)
    ensures Digits(t) == |t| && Span(t) == |t|
    decreases |t|
  {
    if t != [] {
      assert t[0] in t;
      AllDigits(t[1..]);
    }
  }

  lemma {:induction false} DigitIs(d: nat)
    requires d < 10
    ensures IsDigit(Digit(d)) && (Digit(d) == '0' ==> d == 0) && Digit(d) as int - '0' as int == d
  {
  }

  lemma {:induction false} SnocDigit(t: string, d: nat)
    requires d < 10
    ensures DigitsValue(t + [Digit(d)]) == 10 * DigitsValue(t) + d
  {
    hide Digit;
    DigitIs(d);
    assert (t + [Digit(d)])[..|t|] == t;
  }

  lemma {:induction false} DecimalDigits(n: nat)
    ensures forall c :: c in Decimal(n) ==> IsDigit(c)
    ensures Decimal(n)[0] == '0' ==> n == 0 && |Decimal(n)| == 1
    ensures DigitsValue(Decimal(n)) == n
  {
    if n < 10 {
      DigitIs(n);
      SnocDigit("", n);
      assert "" + [Digit(n)] == [Digit(n)];
    } else {
      hide Digit, IsDigit;
      DecimalDigits(n / 10);
      DigitIs(n % 10);
      SnocDigit(Decimal(n / 10), n % 10);
    }
  }

  lemma {:induction false} DecimalIsNumber(n: nat)
    ensures IsNumber(Decimal(n)) && Span(Decimal(n)) == |Decimal(n)| && Digits(Decimal(n)) == |Decimal(n)|
    ensures Decimal(n)[0] != '-' && NumberOf(Decimal(n)) == JInteger(n)
  {
    hide Decimal;
    DecimalDigits(n);
    AllDigits(Decimal(n));
    assert Decimal(n)[0] in Decimal(n);
    assert Decimal(n)[|Decimal(n)|..] == "";
  }

  lemma {:induction false} SignedIsNumber(i: int)
    ensures IsNumber(Signed(i)) && Span(Signed(i)) == |Signed(i)| && NumberOf(Signed(i)) == JInteger(i)
  {
    hide Decimal, DigitsValue;
    if i < 0 {
      DecimalIsNumber(-i);
      DecimalDigits(-i);
      assert Signed(i)[1..] == Decimal(-i);
    } else {
      DecimalIsNumber(i);
    }
  }

  lemma {:induction false} ReadString(s: string, rest: string)
    requires AllPlain(s)
    ensures ReadValue(Quoted(s) + rest) == Some((JString(s), rest))
  {
    var t := Quoted(s) + rest;
    assert t[0] == '\"' && t[1..] == s + ("\"" + rest);
    assert SkipWs(t) == t;
    ReadPlain(s, rest);
  }

  /** Every value text reads back as that value, whatever follows. */
  lemma {:induction false} ReadText(v: Value, ind: Level, rest: string)
    requires ValueOk(v) && Stop(rest)
    ensures ReadValue(ValueText(v, ind) + rest) == Some((ToJson(v), rest))
    decreases v, 0
  {
    hide ReadValue, IsNumber, Span, Decimal, Signed, NumberOf;
    match v
    case Str(s) => ReadString(s, rest);
    case Uint(n) => DecimalIsNumber(n); ReadNumber(Decimal(n), rest);
    case Int(i) => SignedIsNumber(i); ReadNumber(Signed(i), rest);
    case Double(text) => ReadNumber(text, rest);
    case Obj(attrs) => ReadObjectText(attrs, ind, rest);
    case Arr(elems) => ReadArrayText(elems, ind, rest);
  }

  lemma {:induction false} ReadObjectText(attrs: seq<Attr>, ind: Level, rest: string)
    requires AttrsOk(attrs)
    ensures ReadValue(ValueText(Obj(attrs), ind) + rest) == Some((JObject(ToMembers(attrs)), rest))
    decreases attrs, 2
  {
    hide ReadMembers, AttrsText, Spaces, AttrsOk;
    var body, close := AttrsText(attrs, true, More(ind)), "\n" + (Spaces(ind) + "}");
    BraceText(body, close, rest);
    CloseText(ind, rest);
    ReadBraces(attrs, More(ind), close + rest, rest);
    OpenBrace(body + (close + rest));
  }

  lemma {:induction false} BraceText(body: string, close: string, rest: string)
    ensures ("{\n" + (body + close)) + rest == "{" + ("\n" + (body + (close + rest)))
  {
  }

  lemma {:induction false} OpenBrace(t: string)
    ensures var s := "{" + ("\n" + t); SkipWs(s) == s && s[1..] == "\n" + t
  {
  }

  lemma {:induction false} CloseText(ind: Level, rest: string)
    ensures SkipWs(("\n" + (Spaces(ind) + "}")) + rest) == "}" + rest
    ensures Stop(("\n" + (Spaces(ind) + "}")) + rest)
  {
    var t := ("\n" + (Spaces(ind) + "}")) + rest;
    assert t == "\n" + (Spaces(ind) + ("}" + rest));
    SkipPrefix("\n", Spaces(ind) + ("}" + rest));
    SkipSpaces(ind, "}" + rest);
  }

  /** The inside of an object, from the line end after its brace. */
  lemma {:induction false} ReadBraces(attrs: seq<Attr>, ind: Level, close: string, rest: string)
    requires AttrsOk(attrs) && SkipWs(close) == "}" + rest && Stop(close)
    ensures var s := "\n" + (AttrsText(attrs, true, ind) + close);
            if attrs == [] then SkipWs(s) == "}" + rest
            else SkipWs(s) != [] && SkipWs(s)[0] == '\"' && ReadMembers(s) == Some((ToMembers(attrs), rest))
    decreases attrs, 1
  {
    hide ReadMembers;
    var t := AttrsText(attrs, true, ind) + close;
    SkipPrefix("\n", t);
    if attrs == [] {
      assert t == close;
    } else {
      MembersText(attrs, ind, close, rest);
      MembersHead(attrs, ind, close);
      MembersPrefix("\n", t);
    }
  }

  lemma {:induction false} MembersPrefix(w: string, t: string)
    requires SkipWs(w + t) == SkipWs(t)
    requires |SkipWs(t)| > 0
    ensures ReadMember(w + t) == ReadMember(t) && ReadMembers(w + t) == ReadMembers(t)
  {
  }

  lemma {:induction false} ValuePrefix(w: string, t: string)
    requires SkipWs(w + t) == SkipWs(t) && |SkipWs(t)| > 0
    ensures ReadValue(w + t) == ReadValue(t)
  {
    hide ReadObject, ReadArray, IsNumber, Span;
  }

  lemma {:induction false} MemberShape(a: Attr, ind: Level, rest: string)
    ensures AttrText(a, ind) + rest == Spaces(ind) + ("\"" + (a.name + ("\"" + (":" + (" " + (ValueText(a.value, ind) + rest))))))
  {
    hide ValueText, Spaces;
    assert ": " == ":" + " ";
  }

  lemma {:induction false} AfterSpaces(ind: Level, t: string)
    requires t != [] && !IsWs(t[0])
    ensures SkipWs(Spaces(ind) + t) == t
  {
    SkipSpaces(ind, t);
  }

  lemma {:induction false} HeadTail(c: char, t: string)
    ensures ([c] + t)[0] == c && ([c] + t)[1..] == t
  {
  }

  /** One attribute reads back as its name and value. */
  lemma {:induction false} MemberText(a: Attr, ind: Level, rest: string)
    requires AllPlain(a.name) && ValueOk(a.value) && Stop(rest)
    ensures ReadMember(AttrText(a, ind) + rest) == Some(((a.name, ToJson(a.value)), rest))
    decreases a, 1
  {
    hide ValueText, Spaces, AttrText, ReadValue, ReadChars, ValueOk;
    var value := ValueText(a.value, ind) + rest;
    var colon := ":" + (" " + value);
    var name := a.name + ("\"" + colon);
    MemberShape(a, ind, rest);
    HeadTail('\"', name);
    AfterSpaces(ind, "\"" + name);
    ReadPlain(a.name, colon);
    HeadTail(':', " " + value);
    assert SkipWs(colon) == colon;
    ReadText(a.value, ind, rest);
    SkipPrefix(" ", value);
    ReadSkips(value);
    ValuePrefix(" ", value);
  }

  /** A value starts at a character that is neither white space nor a closing bracket. */
  lemma {:induction false} ReadSkips(t: string)
    ensures ReadValue(t).Some? ==> SkipWs(t) != [] && SkipWs(t)[0] != ']'
  {
    hide ReadObject, ReadArray, IsNumber;
  }

  lemma {:induction false} MembersHead(attrs: seq<Attr>, ind: Level, close: string)
    requires attrs != []
    ensures var s := SkipWs(AttrsText(attrs, true, ind) + close); s != [] && s[0] == '\"'
  {
    hide AttrText;
    MembersSplit(attrs, ind, close);
    var tail := AttrsText(attrs[1..], false, ind) + close;
    MemberShape(attrs[0], ind, tail);
    AfterSpaces(ind, "\"" + (attrs[0].name + ("\"" + (":" + (" " + (ValueText(attrs[0].value, ind) + tail))))));
  }

  lemma {:induction false} MembersSplit(attrs: seq<Attr>, ind: Level, close: string)
    requires attrs != []
    ensures AttrsText(attrs, true, ind) + close == AttrText(attrs[0], ind) + (AttrsText(attrs[1..], false, ind) + close)
    ensures |attrs| > 1 ==> AttrsText(attrs[1..], false, ind) + close == "," + ("\n" + (AttrsText(attrs[1..], true, ind) + close))
    ensures |attrs| == 1 ==> AttrsText(attrs[1..], false, ind) + close == close
  {
    hide AttrText;
    assert ",\n" == "," + "\n";
  }

  lemma {:induction false} LastMember(text: string, m: (string, Json), x: string, rest: string)
    requires ReadMember(text) == Some((m, x)) && SkipWs(x) == "}" + rest
    ensures ReadMembers(text) == Some(([m], rest))
  {
    hide ReadMember, SkipWs;
    HeadTail('}', rest);
  }

  lemma {:induction false} NextMember(text: string, m: (string, Json), x: string, more: string, ms: seq<(string, Json)>, rest: string)
    requires ReadMember(text) == Some((m, x)) && SkipWs(x) == "," + more && ReadMembers(more) == Some((ms, rest))
    ensures ReadMembers(text) == Some(([m] + ms, rest))
  {
    hide ReadMember, SkipWs;
    HeadTail(',', more);
  }

  lemma {:induction false} LastElem(text: string, v: Json, x: string, rest: string)
    requires ReadValue(text) == Some((v, x)) && SkipWs(x) == "]" + rest
    ensures ReadElems(text) == Some(([v], rest))
  {
    hide ReadValue, SkipWs;
    HeadTail(']', rest);
  }

  lemma {:induction false} NextElem(text: string, v: Json, x: string, more: string, vs: seq<Json>, rest: string)
    requires ReadValue(text) == Some((v, x)) && SkipWs(x) == "," + more && ReadElems(more) == Some((vs, rest))
    ensures ReadElems(text) == Some(([v] + vs, rest))
  {
    hide ReadValue, SkipWs;
    HeadTail(',', more);
  }

  /** All the attributes of an object, up to its closing brace. */
  lemma {:induction false} MembersText(attrs: seq<Attr>, ind: Level, close: string, rest: string)
    requires attrs != [] && AttrsOk(attrs) && SkipWs(close) == "}" + rest && Stop(close)
    ensures ReadMembers(AttrsText(attrs, true, ind) + close) == Some((ToMembers(attrs), rest))
    decreases attrs, 0
  {
    hide AttrsText, AttrText, ReadMember, ReadMembers, SkipWs;
    assert attrs decreases to attrs[0];
    MembersSplit(attrs, ind, close);
    var tail := AttrsText(attrs[1..], false, ind) + close;
    var text, m := AttrsText(attrs, true, ind) + close, (attrs[0].name, ToJson(attrs[0].value));
    if |attrs| > 1 {
      var more := AttrsText(attrs[1..], true, ind) + close;
      HeadTail(',', "\n" + more);
      SkipNone(tail);
      MemberText(attrs[0], ind, tail);
      MembersText(attrs[1..], ind, close, rest);
      SkipPrefix("\n", more);
      MembersHead(attrs[1..], ind, close);
      MembersPrefix("\n", more);
      NextMember(text, m, tail, "\n" + more, ToMembers(attrs[1..]), rest);
    } else {
      MemberText(attrs[0], ind, tail);
      LastMember(text, m, tail, rest);
      assert [m] + ToMembers(attrs[1..]) == [m];
    }
  }

  lemma {:induction false} SkipNone(t: string)
    requires t != [] && !IsWs(t[0])
    ensures SkipWs(t) == t
  {
  }

  lemma {:induction false} ReadArrayText(elems: seq<Value>, ind: Level, rest: string)
    requires ElemsOk(elems)
    ensures ReadValue(ValueText(Arr(elems), ind) + rest) == Some((JArray(ToElems(elems)), rest))
    decreases elems, 2
  {
    hide ReadElems, ElemsText, ElemsOk;
    var body := ElemsText(elems, true, More(ind));
    var t := body + ("]" + rest);
    ArrayShape(body, rest);
    HeadTail('[', t);
    SkipNone("[" + t);
    HeadTail(']', rest);
    if elems == [] {
      NoElems(elems, true, More(ind), "]" + rest);
      SkipNone(t);
    } else {
      ElemsRead(elems, More(ind), rest);
    }
  }

  lemma {:induction false} ArrayShape(body: string, rest: string)
    ensures ("[" + (body + "]")) + rest == "[" + (body + ("]" + rest))
  {
  }

  /** The white space before an element. */
  function ElemLead(v: Value, first: bool, ind: Level): string {
    if v.Obj? then "\n" + Spaces(ind) else if first then "" else " "
  }

  lemma {:induction false} ElemsSplit(elems: seq<Value>, ind: Level, rest: string)
    requires elems != []
    ensures ElemsText(elems, true, ind) + ("]" + rest)
         == ElemLead(elems[0], true, ind) + (ValueText(elems[0], ind) + (ElemsText(elems[1..], false, ind) + ("]" + rest)))
    ensures ElemsText(elems, false, ind) + ("]" + rest)
         == "," + (ElemLead(elems[0], false, ind) + (ValueText(elems[0], ind) + (ElemsText(elems[1..], false, ind) + ("]" + rest))))
  {
    hide ValueText, Spaces, ElemText, ElemLead;
    ElemShape(elems[0], ind);
    var v, tail := ValueText(elems[0], ind), ElemsText(elems[1..], false, ind);
    Join3(ElemLead(elems[0], true, ind), v, tail, "]" + rest);
    Join3("," + ElemLead(elems[0], false, ind), v, tail, "]" + rest);
    Assoc(",", ElemLead(elems[0], false, ind), v);
    Assoc(",", ElemLead(elems[0], false, ind), v + (tail + ("]" + rest)));
  }

  lemma {:induction false} Join3(a: string, b: string, c: string, d: string)
    ensures ((a + b) + c) + d == a + (b + (c + d))
  {
  }

  lemma {:induction false} ElemShape(v: Value, ind: Level)
    ensures ElemText(v, true, ind) == ElemLead(v, true, ind) + ValueText(v, ind)
    ensures ElemText(v, false, ind) == "," + (ElemLead(v, false, ind) + ValueText(v, ind))
  {
    hide ValueText, Spaces;
    assert ", " == "," + " ";
  }

  lemma {:induction false} LeadIsWs(v: Value, first: bool, ind: Level, t: string)
    ensures SkipWs(ElemLead(v, first, ind) + t) == SkipWs(t)
  {
    SkipPrefix(ElemLead(v, first, ind), t);
  }

  /** All the elements of an array, up to its closing bracket. */
  lemma {:induction false} ElemsRead(elems: seq<Value>, ind: Level, rest: string)
    requires elems != [] && ElemsOk(elems)
    ensures var s := ElemsText(elems, true, ind) + ("]" + rest);
            ReadElems(s) == Some((ToElems(elems), rest)) && SkipWs(s) != [] && SkipWs(s)[0] != ']'
    decreases elems, 1
  {
    hide ElemsText, ElemLead, ValueText, ReadElems, ElemsOk;
    ElemsSplit(elems, ind, rest);
    ElemsAfter(elems, true, ind, rest);
  }

  /** Elements read from the white space before the first of them. */
  lemma {:induction false} ElemsAfter(elems: seq<Value>, first: bool, ind: Level, rest: string)
    requires elems != [] && ElemsOk(elems)
    ensures var s := ElemLead(elems[0], first, ind) + (ValueText(elems[0], ind) + (ElemsText(elems[1..], false, ind) + ("]" + rest)));
            ReadElems(s) == Some((ToElems(elems), rest)) && SkipWs(s) != [] && SkipWs(s)[0] != ']'
    decreases elems, 0
  {
    hide ValueText, ReadValue, ReadElems, ElemLead, SkipWs, ElemsText;
    assert elems decreases to elems[0];
    var tail := ElemsText(elems[1..], false, ind) + ("]" + rest);
    var value := ValueText(elems[0], ind) + tail;
    var text := ElemLead(elems[0], first, ind) + value;
    HeadTail(']', rest);
    if |elems| > 1 {
      var others := elems[1..];
      ElemsSplit(others, ind, rest);
      var more := ElemLead(others[0], false, ind) + (ValueText(others[0], ind) + (ElemsText(others[1..], false, ind) + ("]" + rest)));
      HeadTail(',', more);
      SkipNone(tail);
      FirstElem(elems[0], first, ind, tail);
      ElemsAfter(others, false, ind, rest);
      NextElem(text, ToJson(elems[0]), tail, more, ToElems(others), rest);
    } else {
      NoElems(elems[1..], false, ind, "]" + rest);
      SkipNone(tail);
      FirstElem(elems[0], first, ind, tail);
      LastElem(text, ToJson(elems[0]), tail, rest);
      assert [ToJson(elems[0])] + ToElems(elems[1..]) == [ToJson(elems[0])];
    }
  }

  lemma {:induction false} FirstElem(v: Value, first: bool, ind: Level, tail: string)
    requires ValueOk(v) && Stop(tail)
    ensures var s := ElemLead(v, first, ind) + (ValueText(v, ind) + tail);
            ReadValue(s) == Some((ToJson(v), tail)) && SkipWs(s) != [] && SkipWs(s)[0] != ']'
    decreases v, 1
  {
    hide ValueText, ReadValue, ElemLead, SkipWs, ValueOk;
    ReadText(v, ind, tail);
    LeadIsWs(v, first, ind, ValueText(v, ind) + tail);
    ReadSkips(ValueText(v, ind) + tail);
    ValuePrefix(ElemLead(v, first, ind), ValueText(v, ind) + tail);
  }

  lemma {:induction false} NoElems(elems: seq<Value>, first: bool, ind: Level, t: string)
    requires elems == []
    ensures ElemsText(elems, first, ind) + t == t
  {
  }

  // ----- documents -----

  /** A document's calls write its text, restore the level, and the text reads back as the document. */
  lemma {:induction false} DocumentRoundTrip(c: Ctx, attrs: seq<Attr>)
    requires AttrsOk(attrs)
    ensures var r := Run(c, DocumentCalls(attrs));
            r.indent == c.indent && |r.out| >= |c.out| && r.out[..|c.out|] == c.out
            && Read(r.out[|c.out|..]) == Some(JObject(ToMembers(attrs)))
  {
    hide Read, DocumentText, AttrsOk;
    DocumentWrites(c, attrs);
    DocumentReads(attrs, c.indent);
    var t := DocumentText(attrs, c.indent);
    assert (c.out + t)[|c.out|..] == t;
  }

  lemma {:induction false} DocumentWrites(c: Ctx, attrs: seq<Attr>)
    requires AttrsOk(attrs)
    ensures Run(c, DocumentCalls(attrs)) == Ctx(c.indent, attrs == [], c.out + DocumentText(attrs, c.indent))
  {
    hide Run, Spaces, AttrsText, AttrsCalls, AttrsOk;
    RunBracket(c, DocumentBegin, AttrsCalls(attrs), DocumentEnd);
    RunAttrs(Step(c, DocumentBegin), attrs);
    var body := AttrsText(attrs, true, More(c.indent));
    BracketText(c.out, "", Spaces(c.indent), "{\n", body, Spaces(c.indent) + "\n}");
    assert "" + Spaces(c.indent) == Spaces(c.indent);
    assert "" + DocumentText(attrs, c.indent) == DocumentText(attrs, c.indent);
  }

  lemma {:induction false} DocumentReads(attrs: seq<Attr>, ind: Level)
    requires AttrsOk(attrs)
    ensures Read(DocumentText(attrs, ind)) == Some(JObject(ToMembers(attrs)))
  {
    hide ReadMembers, AttrsText, Spaces, AttrsOk;
    var body, close := AttrsText(attrs, true, More(ind)), Spaces(ind) + "\n}";
    var inner := "\n" + (body + close);
    DocumentShape(attrs, ind);
    DocumentClose(ind);
    ReadBraces(attrs, More(ind), close, "");
    AfterSpaces(ind, "{" + inner);
    ReadOpen(Spaces(ind), inner);
    HeadTail('}', "");
    assert SkipWs("") == "";
  }

  lemma {:induction false} ReadOpen(w: string, inner: string)
    requires SkipWs(w + ("{" + inner)) == "{" + inner
    ensures ReadValue(w + ("{" + inner))
         == if SkipWs(inner) != [] && SkipWs(inner)[0] == '}' then Some((JObject([]), SkipWs(inner)[1..])) else ReadObject(inner)
  {
    hide SkipWs, ReadObject;
    HeadTail('{', inner);
  }

  lemma {:induction false} DocumentShape(attrs: seq<Attr>, ind: Level)
    ensures DocumentText(attrs, ind) == Spaces(ind) + ("{" + ("\n" + (AttrsText(attrs, true, More(ind)) + (Spaces(ind) + "\n}"))))
  {
    hide AttrsText, Spaces;
    assert "{\n" == "{" + "\n";
  }

  lemma {:induction false} DocumentClose(ind: Level)
    ensures SkipWs(Spaces(ind) + "\n}") == "}" + "" && Stop(Spaces(ind) + "\n}")
  {
    SkipSpaces(ind, "\n}");
    assert "\n}" == "\n" + "}";
    SkipPrefix("\n", "}");
  }

  /** The calls between the brackets of a document are well nested, so there the flag stands for a stack. */
  lemma {:induction false} AttrsNested(depth: nat, attrs: seq<Attr>, rest: seq<Call>)
    requires AttrsOk(attrs) && Nested(depth, rest)
    ensures Nested(depth, AttrsCalls(attrs) + rest)
    decreases attrs
  {
    if attrs == [] {
      assert AttrsCalls(attrs) + rest == rest;
    } else {
      hide AttrCalls, Nested;
      assert attrs decreases to attrs[0];
      AttrsNested(depth, attrs[1..], rest);
      var more := AttrsCalls(attrs[1..]) + rest;
      assert AttrsCalls(attrs) + rest == AttrCalls(attrs[0]) + more;
      AttrNested(depth, attrs[0], more);
    }
  }

  lemma {:induction false} AttrNested(depth: nat, a: Attr, rest: seq<Call>)
    requires ValueOk(a.value) && Nested(depth, rest)
    ensures Nested(depth, AttrCalls(a) + rest)
    decreases a
  {
    hide AttrsCalls, ElemsCalls, Nested;
    if a.value.Obj? {
      NestCall(depth, AttrObjectEnd, rest);
      AttrsNested(depth + 1, a.value.attrs, [AttrObjectEnd] + rest);
      NestCall(depth, AttrObjectBegin(a.name), AttrsCalls(a.value.attrs) + ([AttrObjectEnd] + rest));
      CallsAssoc(AttrObjectBegin(a.name), AttrsCalls(a.value.attrs), AttrObjectEnd, rest);
    } else if a.value.Arr? {
      NestCall(depth, ArrayEnd, rest);
      ElemsNested(depth + 1, a.value.elems, [ArrayEnd] + rest);
      NestCall(depth, ArrayBegin(a.name), ElemsCalls(a.value.elems) + ([ArrayEnd] + rest));
      CallsAssoc(ArrayBegin(a.name), ElemsCalls(a.value.elems), ArrayEnd, rest);
    } else {
      NestCall(depth, AttrCalls(a)[0], rest);
    }
  }

  lemma {:induction false} ElemsNested(depth: nat, elems: seq<Value>, rest: seq<Call>)
    requires ElemsOk(elems) && Nested(depth, rest)
    ensures Nested(depth, ElemsCalls(elems) + rest)
    decreases elems
  {
    if elems == [] {
      assert ElemsCalls(elems) + rest == rest;
    } else {
      hide ElemCalls, Nested;
      assert elems decreases to elems[0];
      ElemsNested(depth, elems[1..], rest);
      var more := ElemsCalls(elems[1..]) + rest;
      assert ElemsCalls(elems) + rest == ElemCalls(elems[0]) + more;
      ElemNested(depth, elems[0], more);
    }
  }

  lemma {:induction false} ElemNested(depth: nat, v: Value, rest: seq<Call>)
    requires ValueOk(v) && !v.Arr? && Nested(depth, rest)
    ensures Nested(depth, ElemCalls(v) + rest)
    decreases v
  {
    hide AttrsCalls, Nested;
    if v.Obj? {
      NestCall(depth, ElementObjectEnd, rest);
      AttrsNested(depth + 1, v.attrs, [ElementObjectEnd] + rest);
      NestCall(depth, ElementObjectBegin, AttrsCalls(v.attrs) + ([ElementObjectEnd] + rest));
      CallsAssoc(ElementObjectBegin, AttrsCalls(v.attrs), ElementObjectEnd, rest);
    } else {
      NestCall(depth, ElemCalls(v)[0], rest);
    }
  }

  lemma {:induction false} CallsAssoc(open: Call, inner: seq<Call>, close: Call, rest: seq<Call>)
    ensures ([open] + (inner + [close])) + rest == [open] + (inner + ([close] + rest))
  {
  }

  lemma {:induction false} NestCall(depth: nat, call: Call, rest: seq<Call>)
    requires !call.DocumentBegin? && !call.DocumentEnd?
    ensures Closes(call) && Nested(depth, rest) ==> Nested(depth + 1, [call] + rest)
    ensures Opens(call) && Nested(depth + 1, rest) ==> Nested(depth, [call] + rest)
    ensures !Opens(call) && !Closes(call) && Nested(depth, rest) ==> Nested(depth, [call] + rest)
  {
    assert ([call] + rest)[0] == call && ([call] + rest)[1..] == rest;
  }
}
