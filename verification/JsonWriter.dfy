/** The JSON emitter of the benchmarks: a context with one flag and an indentation level, and the text it
    produces for a document, read back by the grammar of RFC 8259. */
module JsonWriter {

  // ----- documents -----

  /** What the emitter can write: attributes in objects, and elements in arrays. */
  datatype Attr = Attr(name: string, value: Value)

  datatype Value =
    | Str(s: string)
    | Uint(n: nat)
    | Int(i: int)
    | Double(text: string)
    | Obj(attrs: seq<Attr>)
    | Arr(elems: seq<Value>)

  function Digit(d: nat): char
    requires d < 10
  {
    ['0', '1', '2', '3', '4', '5', '6', '7', '8', '9'][d]
  }

  /** The decimal digits of a number. */
  function Decimal(n: nat): (r: string)
    ensures r != []
  {
    if n < 10 then [Digit(n)] else Decimal(n / 10) + [Digit(n % 10)]
  }

  function Signed(i: int): string { if i < 0 then "-" + Decimal(-i) else Decimal(i) }

  function Spaces(n: nat): (r: string)
    ensures |r| == n
  {
    seq(n, _ => ' ')
  }

  // ----- the calls of the library -----

  datatype Call =
    | DocumentBegin | DocumentEnd
    | AttrObjectBegin(name: string) | AttrObjectEnd
    | AttrString(name: string, s: string) | AttrUint(name: string, n: nat) | AttrInt(name: string, i: int) | AttrDouble(name: string, text: string)
    | ArrayBegin(name: string) | ArrayEnd
    | ElementString(s: string) | ElementUint(n: nat) | ElementInt(i: int) | ElementDouble(text: string)
    | ElementObjectBegin | ElementObjectEnd

  const UINT_MAX := 0xffff_ffff

  /** The level is an unsigned int, which wraps around at both ends. */
  type Level = n: nat | n <= UINT_MAX

  function More(indent: Level): Level { if indent == UINT_MAX then 0 else indent + 1 }

  function Less(indent: Level): Level { if indent == 0 then UINT_MAX else indent - 1 }

  /** json_ctx_t: the level, the flag, and everything written so far. */
  datatype Ctx = Ctx(indent: Level, first: bool, out: string)

  function Quoted(s: string): string { "\"" + s + "\"" }

  function Lead(c: Ctx): string { (if c.first then "" else ",\n") + Spaces(c.indent) }

  function Sep(c: Ctx): string { if c.first then "" else ", " }

  /** An attribute with a plain value. */
  function AttrStep(c: Ctx, name: string, text: string): Ctx {
    c.(first := false, out := c.out + (Lead(c) + (Quoted(name) + (": " + text))))
  }

  function ElementStep(c: Ctx, text: string): Ctx { c.(first := false, out := c.out + (Sep(c) + text)) }

  /** What each call does to the context. */
  function Step(c: Ctx, call: Call): Ctx {
    match call
    case DocumentBegin => Ctx(More(c.indent), true, c.out + (Spaces(c.indent) + "{\n"))
    case DocumentEnd => Ctx(Less(c.indent), c.first, c.out + (Spaces(Less(c.indent)) + "\n}"))
    case AttrObjectBegin(name) => Ctx(More(c.indent), true, c.out + (Lead(c) + (Quoted(name) + ": {\n")))
    case AttrObjectEnd => Ctx(Less(c.indent), false, c.out + ("\n" + (Spaces(Less(c.indent)) + "}")))
    case AttrString(name, s) => AttrStep(c, name, Quoted(s))
    case AttrUint(name, n) => AttrStep(c, name, Decimal(n))
    case AttrInt(name, i) => AttrStep(c, name, Signed(i))
    case AttrDouble(name, text) => AttrStep(c, name, text)
    case ArrayBegin(name) => Ctx(More(c.indent), true, c.out + (Lead(c) + (Quoted(name) + ": [")))
    case ArrayEnd => Ctx(Less(c.indent), false, c.out + "]")
    case ElementString(s) => ElementStep(c, Quoted(s))
    case ElementUint(n) => ElementStep(c, Decimal(n))
    case ElementInt(i) => ElementStep(c, Signed(i))
    case ElementDouble(text) => ElementStep(c, text)
    case ElementObjectBegin => Ctx(More(c.indent), true, c.out + ((if c.first then "" else ",") + ("\n" + (Spaces(c.indent) + "{\n"))))
    case ElementObjectEnd => Ctx(Less(c.indent), false, c.out + ("\n" + (Spaces(Less(c.indent)) + "}")))
  }

  function Run(c: Ctx, calls: seq<Call>): Ctx
    decreases |calls|
  {
    if calls == [] then c else Run(Step(c, calls[0]), calls[1..])
  }

  lemma {:induction false} RunAppend(c: Ctx, a: seq<Call>, b: seq<Call>)
    ensures Run(c, a + b) == Run(Run(c, a), b)
    decreases |a|
  {
    if a == [] {
      assert a + b == b;
    } else {
      assert (a + b)[0] == a[0] && (a + b)[1..] == a[1..] + b;
      RunAppend(Step(c, a[0]), a[1..], b);
    }
  }

  /** json-lib.c: the context updated in place by each function. */
  class JsonContext {
    var indentLevel: Level
    var firstElement: bool
    var fp: string

    ghost function State(): Ctx
      reads this
    {
      Ctx(indentLevel, firstElement, fp)
    }

    constructor (indentLevel: Level)
      ensures State() == Ctx(indentLevel, true, "")
    {
      this.indentLevel, firstElement, fp := indentLevel, true, "";
    }

    method DoIndent()
      modifies this`fp
      ensures fp == old(fp) + Spaces(indentLevel)
    {
      var buf := new char[indentLevel](_ => ' ');
      fp := fp + buf[..];
    }

    method Puts(s: string)
      modifies this`fp
      ensures fp == old(fp) + s
    {
      fp := fp + s;
    }

    method DocumentBegin()
      modifies this
      ensures State() == Step(old(State()), Call.DocumentBegin)
    {
      DoIndent();
      Puts("{\n");
      indentLevel := More(indentLevel);
      firstElement := true;
    }

    method DocumentEnd()
      modifies this
      ensures State() == Step(old(State()), Call.DocumentEnd)
    {
      indentLevel := Less(indentLevel);
      DoIndent();
      Puts("\n}");
    }

    method AttrObjectBegin(name: string)
      modifies this
      ensures State() == Step(old(State()), Call.AttrObjectBegin(name))
    {
      ghost var c := State();
      if !firstElement { Puts(",\n"); }
      DoIndent();
      Puts("\"" + name + "\": {\n");
      assert fp == c.out + (Lead(c) + (Quoted(name) + ": {\n"));
      indentLevel := More(indentLevel);
      firstElement := true;
    }

    method AttrObjectEnd()
      modifies this
      ensures State() == Step(old(State()), Call.AttrObjectEnd)
    {
      indentLevel := Less(indentLevel);
      firstElement := false;
      Puts("\n");
      DoIndent();
      Puts("}");
    }

    /** The common part of the attribute functions: separator, indentation, name and value. */
    method PutAttr(name: string, text: string)
      modifies this
      ensures State() == AttrStep(old(State()), name, text)
    {
      ghost var c := State();
      if !firstElement {
        Puts(",\n");
      } else {
        firstElement := false;
      }
      DoIndent();
      Puts("\"" + name + "\": ");
      Puts(text);
      assert fp == c.out + (Lead(c) + (Quoted(name) + (": " + text)));
    }

    method AttrString(name: string, s: string)
      modifies this
      ensures State() == Step(old(State()), Call.AttrString(name, s))
    {
      PutAttr(name, "\"" + s + "\"");
    }

    method AttrUint(name: string, n: nat)
      modifies this
      ensures State() == Step(old(State()), Call.AttrUint(name, n))
    {
      PutAttr(name, Decimal(n));
    }

    method AttrInt(name: string, i: int)
      modifies this
      ensures State() == Step(old(State()), Call.AttrInt(name, i))
    {
      PutAttr(name, Signed(i));
    }

    method AttrDouble(name: string, text: string)
      modifies this
      ensures State() == Step(old(State()), Call.AttrDouble(name, text))
    {
      PutAttr(name, text);
    }

    method ArrayBegin(name: string)
      modifies this
      ensures State() == Step(old(State()), Call.ArrayBegin(name))
    {
      ghost var c := State();
      if !firstElement { Puts(",\n"); }
      DoIndent();
      Puts("\"" + name + "\": [");
      assert fp == c.out + (Lead(c) + (Quoted(name) + ": ["));
      indentLevel := More(indentLevel);
      firstElement := true;
    }

    method ArrayEnd()
      modifies this
      ensures State() == Step(old(State()), Call.ArrayEnd)
    {
      indentLevel := Less(indentLevel);
      firstElement := false;
      Puts("]");
    }

    /** The common part of the element functions. */
    method PutElement(text: string)
      modifies this
      ensures State() == ElementStep(old(State()), text)
    {
      ghost var c := State();
      if !firstElement {
        Puts(", " + text);
      } else {
        Puts(text);
        firstElement := false;
      }
      assert fp == c.out + (Sep(c) + text);
    }

    method ElementString(s: string)
      modifies this
      ensures State() == Step(old(State()), Call.ElementString(s))
    {
      PutElement("\"" + s + "\"");
    }

    method ElementUint(n: nat)
      modifies this
      ensures State() == Step(old(State()), Call.ElementUint(n))
    {
      PutElement(Decimal(n));
    }

    method ElementInt(i: int)
      modifies this
      ensures State() == Step(old(State()), Call.ElementInt(i))
    {
      PutElement(Signed(i));
    }

    method ElementDouble(text: string)
      modifies this
      ensures State() == Step(old(State()), Call.ElementDouble(text))
    {
      PutElement(text);
    }

    method ElementObjectBegin()
      modifies this
      ensures State() == Step(old(State()), Call.ElementObjectBegin)
    {
      ghost var c := State();
      if !firstElement { Puts(","); }
      Puts("\n");
      DoIndent();
      Puts("{\n");
      assert fp == c.out + ((if c.first then "" else ",") + ("\n" + (Spaces(c.indent) + "{\n")));
      indentLevel := More(indentLevel);
      firstElement := true;
    }

    method ElementObjectEnd()
      modifies this
      ensures State() == Step(old(State()), Call.ElementObjectEnd)
    {
      indentLevel := Less(indentLevel);
      firstElement := false;
      Puts("\n");
      DoIndent();
      Puts("}");
    }
  }

  // ----- one flag for a stack of flags -----

  predicate Opens(call: Call) { call.AttrObjectBegin? || call.ArrayBegin? || call.ElementObjectBegin? }

  predicate Closes(call: Call) { call.AttrObjectEnd? || call.ArrayEnd? || call.ElementObjectEnd? }

  /** The emitter with a flag for every open container, innermost last: true while the container is empty. */
  datatype StackCtx = StackCtx(indent: Level, stack: seq<bool>, out: string)

  function Top(c: StackCtx): Ctx
    requires c.stack != []
  {
    Ctx(c.indent, c.stack[|c.stack| - 1], c.out)
  }

  /** Containers open and close within the innermost one; whatever is written makes its container non-empty. */
  function StackStep(c: StackCtx, call: Call): (r: StackCtx)
    requires |c.stack| >= 1 && (Closes(call) ==> |c.stack| >= 2)
    ensures r.stack != []
  {
    var n := |c.stack| - 1;
    var t := Step(Top(c), call);
    StackCtx(t.indent,
             if Opens(call) then c.stack[n := false] + [true]
             else if Closes(call) then c.stack[..n]
             else c.stack[n := t.first],
             t.out)
  }

  /** A call sequence inside a document never closes more than it opened. */
  predicate Nested(depth: nat, calls: seq<Call>)
    decreases |calls|
  {
    calls == [] ||
    (!calls[0].DocumentBegin? && !calls[0].DocumentEnd? && (Closes(calls[0]) ==> depth > 0)
     && Nested(if Opens(calls[0]) then depth + 1 else if Closes(calls[0]) then depth - 1 else depth, calls[1..]))
  }

  function StackRun(c: StackCtx, calls: seq<Call>): StackCtx
    requires |c.stack| >= 1 && Nested(|c.stack| - 1, calls)
    decreases |calls|
  {
    if calls == [] then c else StackRun(StackStep(c, calls[0]), calls[1..])
  }

  function Delta(call: Call): int { if Opens(call) then 1 else if Closes(call) then -1 else 0 }

  /** All containers but the innermost are known to be non-empty. */
  predicate OuterFilled(stack: seq<bool>) { forall i :: 0 <= i < |stack| - 1 ==> !stack[i] }

  /** One call on the stack of flags: the top moves as the single flag does, and the level by one per container. */
  lemma {:induction false} StackStepTop(c: StackCtx, call: Call)
    requires |c.stack| >= 1 && (Closes(call) ==> |c.stack| >= 2) && OuterFilled(c.stack) && !call.DocumentBegin? && !call.DocumentEnd?
    ensures var d := StackStep(c, call);
            && Top(d) == Step(Top(c), call) && |d.stack| == |c.stack| + Delta(call) && OuterFilled(d.stack)
            && d.indent == (c.indent + Delta(call)) % (UINT_MAX + 1)
  {
    hide Step;
    StepFlags(Top(c), call);
    StepLevel(Top(c), call);
  }

  /** On every well-nested call sequence the single flag does what a stack of flags would: the same text, and
      the flag is that of the innermost container. The level is the starting one plus the nesting depth, as far as
      an unsigned int holds it. */
  lemma {:induction false} FlagRefinesStack(c: StackCtx, calls: seq<Call>)
    requires |c.stack| >= 1 && Nested(|c.stack| - 1, calls) && OuterFilled(c.stack)
    ensures StackRun(c, calls).stack != [] && Run(Top(c), calls) == Top(StackRun(c, calls))
    ensures Run(Top(c), calls).indent == (c.indent + |StackRun(c, calls).stack| - |c.stack|) % (UINT_MAX + 1)
    decreases |calls|
  {
    hide Step, StackStep, OuterFilled;
    if calls != [] {
      var d := StackStep(c, calls[0]);
      StackStepTop(c, calls[0]);
      FlagRefinesStack(d, calls[1..]);
      Wraps(c.indent, Delta(calls[0]), |StackRun(d, calls[1..]).stack| - |d.stack|);
    }
  }

  lemma {:induction false} StepLevel(c: Ctx, call: Call)
    requires !call.DocumentBegin? && !call.DocumentEnd?
    ensures Step(c, call).indent == (c.indent + Delta(call)) % (UINT_MAX + 1)
  {
  }

  lemma {:induction false} Wraps(indent: Level, a: int, b: int)
    ensures ((indent + a) % (UINT_MAX + 1) + b) % (UINT_MAX + 1) == (indent + a + b) % (UINT_MAX + 1)
  {
  }

  lemma {:induction false} StepFlags(c: Ctx, call: Call)
    ensures Opens(call) ==> Step(c, call).first
    ensures Closes(call) ==> !Step(c, call).first
  {
  }
}
