/**
  The printer as the program runs it (app/lib/frame.js:1459-1607): output grows while the nesting level, the next
  local index and the table of printed frames are updated in place.
 */
module SlingPrinter {
  import opened Common
  import opened SlingVarint
  import opened SlingGraph
  import opened SlingLexis
  import opened SlingText

  class TextPrinter {
    const heap: Heap
    const indent: seq<byte>
    var output: seq<byte>
    var refs: map<nat, Printed>
    var nextidx: nat
    var level: nat

    constructor (heap: Heap, indent: seq<byte>)
      ensures this.heap == heap && this.indent == indent && output == [] && level == 0 && State() == Fresh()
    {
      this.heap := heap;
      this.indent := indent;
      output, refs, nextidx, level := [], map[], 1, 0;
    }

    function State(): Printer
      reads this
    {
      Printer(refs, nextidx)
    }

    // The printer has done what the specification says, on top of some earlier output.
    predicate Did(spec: Output, ok: bool, earlier: seq<byte>, at: nat)
      reads this
    {
      && ok == spec.Success?
      && (ok ==> output == earlier + spec.value.text && State() == spec.value.printer && level == at)
    }

    method Write(text: seq<byte>)
      modifies this`output
      ensures output == old(output) + text
    {
      output := output + text;
    }

    // Taking the output; frames stay known.
    method Flush() returns (text: seq<byte>)
      modifies this`output
      ensures text == old(output) && output == []
    {
      text := output;
      output := [];
    }

    method WriteValue(v: Value) returns (ok: bool)
      modifies this
      ensures Did(Print(heap, v, old(level), indent, old(State())), ok, old(output), old(level))
      decreases Unprinted(heap, State()), v, 2
    {
      hide Quote, NumberText, PrintFrame, PrintElements, Falsy;
      ok := true;
      match v
      case Undefined => Write(NIL_WORD);
      case Null => Write(NIL_WORD);
      case Truth(b) => Write(if b then TRUE_WORD else FALSE_WORD);
      case Number(n) => Write(NumberText(n));
      case Float(_) => ok := false;
      case Text(s) => Write(Quote(s));
      case Link(f) => ok := WriteFrame(f);
      case List(es) => ok := WriteArray(es);
      case Qualified(s, q) =>
        Write(Quote(s));
        if !Falsy(q) {
          Write([64]);
          level := level + 1;
          ok := WriteValue(q);
          level := if level > 0 then level - 1 else 0;
        }
    }

    method WriteSymbol(name: seq<byte>)
      modifies this`output
      ensures output == old(output) + SymbolText(name)
    {
      hide Quote, PlainName;
      if PlainName(name) {
        Write(name);
      } else {
        Write([36]);
        Write(Quote(name));
      }
    }

    // A new line and indentation, if there is any.
    method NewLine()
      modifies this`output
      ensures output == old(output) + Line(indent, level)
    {
      if indent != [] {
        Write([10]);
        var l := 0;
        while l < level
          invariant l <= level && level == old(level)
          invariant output + Repeat(indent, level - l) == old(output) + ([10] + Repeat(indent, level))
        {
          assert Repeat(indent, level - l) == indent + Repeat(indent, level - l - 1);
          Write(indent);
          l := l + 1;
        }
      }
    }

    method WriteArray(es: seq<Value>) returns (ok: bool)
      modifies this
      ensures Did(Print(heap, List(es), old(level), indent, old(State())), ok, old(output), old(level))
      decreases Unprinted(heap, State()), List(es), 1
    {
      hide PrintElements;
      Write([91]);
      ok := WriteElements(es);
      if ok {
        Write([93]);
      }
    }

    method WriteElements(es: seq<Value>) returns (ok: bool)
      modifies this
      ensures Did(PrintElements(heap, es, true, old(level), indent, old(State())), ok, old(output), old(level))
      decreases Unprinted(heap, State()), es, 0
    {
      hide PrintElements, Print;
      var i := 0;
      ghost var done: seq<byte> := [];
      ghost var whole := PrintElements(heap, es, true, level, indent, State());
      BeforeNothing(whole);
      while i < |es|
        invariant i <= |es| && level == old(level) && Unprinted(heap, State()) <= Unprinted(heap, old(State()))
        invariant output == old(output) + done
        invariant Before(done, PrintElements(heap, es[i..], i == 0, level, indent, State())) == whole
      {
        ghost var comma := if i == 0 then [] else [44] + Gap(indent);
        ghost var one := Print(heap, es[i], level, indent, State());
        ElementsStep(heap, es, i, level, indent, State(), done);
        if i != 0 {
          Write([44] + Gap(indent));
        }
        assert output == old(output) + done + comma;
        ok := WriteValue(es[i]);
        if !ok {
          return;
        }
        done := done + (comma + one.value.text);
        i := i + 1;
      }
      NoMoreElements(heap, es, i == 0, level, indent, State(), done);
      ok := true;
    }

    method WriteFrame(f: nat) returns (ok: bool)
      modifies this
      ensures Did(PrintFrame(heap, f, old(level), indent, old(State())), ok, old(output), old(level))
      decreases Unprinted(heap, State()), Link(f), 1
    {
      if f >= |heap| {
        return false;
      }
      var id := FrameId(heap[f]);
      if level > 0 && !heap[f].state.Anonymous? {
        if id.None? {
          return false;
        }
        WriteSymbol(id.value);
        return true;
      }
      if f in refs {
        WriteReference(refs[f]);
        return true;
      }
      ok := WriteNewFrame(f);
    }

    method WriteNewFrame(f: nat) returns (ok: bool)
      requires f < |heap| && f !in refs && (level == 0 || heap[f].state.Anonymous?)
      modifies this
      ensures Did(PrintFrame(heap, f, old(level), indent, old(State())), ok, old(output), old(level))
      decreases Unprinted(heap, State()), Link(f), 0
    {
      hide Opening, PrintSlots, SlotsOf, FrameId, Line;
      assert f in Unprinted(heap, State());
      ok := WriteOpening(f);
      if ok {
        ghost var open := output;
        assert f !in Unprinted(heap, State());
        level := level + 1;
        ok := WriteSlots(f, SlotsOf(heap[f]));
        if ok {
          level := level - 1;
          ghost var slots := output;
          NewLine();
          Write([125]);
          assert output == slots + Closing(level, indent);
        }
      }
    }

    method WriteReference(r: Printed)
      modifies this`output
      ensures output == old(output) + ReferenceText(r)
    {
      if r.Named? {
        WriteSymbol(r.id);
      } else {
        Write([35]);
        Write(DigitBytes(r.index));
      }
    }

    // The opening bracket, and the index of an anonymous frame.
    method WriteOpening(f: nat) returns (ok: bool)
      requires f < |heap|
      modifies this`output, this`refs, this`nextidx
      ensures Did(Opening(f, heap[f], old(State())), ok, old(output), level)
      ensures (ok ==> f in refs && old(refs).Keys <= refs.Keys)
    {
      Write([123]);
      if heap[f].state.Anonymous? {
        Write([61, 35]);
        Write(DigitBytes(nextidx));
        Write([32]);
        refs, nextidx := refs[f := Numbered(nextidx)], nextidx + 1;
      } else {
        var id := FrameId(heap[f]);
        if id.None? {
          return false;
        }
        refs := refs[f := Named(id.value)];
      }
      ok := true;
    }

    method WriteSlots(f: nat, slots: seq<Slot>) returns (ok: bool)
      modifies this
      ensures Did(PrintSlots(heap, f, slots, true, old(level), indent, old(State())), ok, old(output), old(level))
      decreases Unprinted(heap, State()), slots, 0
    {
      hide PrintSlots, PrintSlot;
      var n := 0;
      ghost var done: seq<byte> := [];
      ghost var whole := PrintSlots(heap, f, slots, true, level, indent, State());
      BeforeNothing(whole);
      while n < |slots|
        invariant n <= |slots| && level == old(level) && Unprinted(heap, State()) <= Unprinted(heap, old(State()))
        invariant output == old(output) + done
        invariant Before(done, PrintSlots(heap, f, slots[n..], n == 0, level, indent, State())) == whole
      {
        ghost var space := SlotSpace(n == 0, level, indent);
        ghost var one := PrintSlot(heap, f, slots[n], level, indent, State());
        SlotsStep(heap, f, slots, n, level, indent, State(), done);
        if indent != [] {
          NewLine();
        } else if n > 0 {
          Write([32]);
        }
        assert output == old(output) + done + space;
        ok := WriteSlot(f, slots[n]);
        if !ok {
          return;
        }
        done := done + (space + one.value.text);
        n := n + 1;
      }
      NoMoreSlots(heap, f, slots, n == 0, level, indent, State(), done);
      ok := true;
    }

    method WriteSlot(f: nat, s: Slot) returns (ok: bool)
      modifies this
      ensures Did(PrintSlot(heap, f, s, old(level), indent, old(State())), ok, old(output), old(level))
      decreases Unprinted(heap, State()), s, 0
    {
      hide Print;
      if s.name == Link(ID) {
        if !s.value.Text? {
          return false;
        }
        Write([61]);
        WriteSymbol(s.value.utf8);
        refs := refs[f := Named(s.value.utf8)];
        ok := true;
      } else if s.name == Link(ISA) || s.name == Link(IS) {
        Write([if s.name == Link(ISA) then 58 else 43]);
        ok := WriteValue(s.value);
      } else {
        ok := WriteValue(s.name);
        if ok {
          Write([58] + Gap(indent));
          ok := WriteValue(s.value);
        }
      }
    }
  }

  lemma BeforeNothing(r: Output)
    ensures Before([], r) == r
  {
    if r.Success? {
      assert [] + r.value.text == r.value.text;
    }
  }

  // Printing one element of a list leads to printing the others.
  lemma ElementsStep(h: Heap, es: seq<Value>, i: nat, level: nat, indent: seq<byte>, p: Printer, done: seq<byte>)
    requires i < |es|
    ensures var one, whole := Print(h, es[i], level, indent, p),
                              Before(done, PrintElements(h, es[i..], i == 0, level, indent, p));
            if one.Failure? then whole.Failure?
            else Before(done + ((if i == 0 then [] else [44] + Gap(indent)) + one.value.text),
                        PrintElements(h, es[i + 1..], false, level, indent, one.value.printer)) == whole
  {
    var one := Print(h, es[i], level, indent, p);
    assert es[i..][0] == es[i] && es[i..][1..] == es[i + 1..];
    if one.Success? {
      BeforeTwice(done, (if i == 0 then [] else [44] + Gap(indent)) + one.value.text,
                  PrintElements(h, es[i + 1..], false, level, indent, one.value.printer));
    }
  }

  lemma NoMoreElements(h: Heap, es: seq<Value>, first: bool, level: nat, indent: seq<byte>, p: Printer, done: seq<byte>)
    ensures Before(done, PrintElements(h, es[|es|..], first, level, indent, p)) == Success(Page(done, p))
  {
    assert done + [] == done;
  }

  lemma SlotsStep(h: Heap, f: nat, slots: seq<Slot>, n: nat, level: nat, indent: seq<byte>, p: Printer, done: seq<byte>)
    requires n < |slots|
    ensures var one, whole := PrintSlot(h, f, slots[n], level, indent, p),
                              Before(done, PrintSlots(h, f, slots[n..], n == 0, level, indent, p));
            if one.Failure? then whole.Failure?
            else Before(done + (SlotSpace(n == 0, level, indent) + one.value.text),
                        PrintSlots(h, f, slots[n + 1..], false, level, indent, one.value.printer)) == whole
  {
    var one := PrintSlot(h, f, slots[n], level, indent, p);
    assert slots[n..][0] == slots[n] && slots[n..][1..] == slots[n + 1..];
    if one.Success? {
      BeforeTwice(done, SlotSpace(n == 0, level, indent) + one.value.text,
                  PrintSlots(h, f, slots[n + 1..], false, level, indent, one.value.printer));
    }
  }

  lemma NoMoreSlots(h: Heap, f: nat, slots: seq<Slot>, first: bool, level: nat, indent: seq<byte>, p: Printer,
                    done: seq<byte>)
    ensures Before(done, PrintSlots(h, f, slots[|slots|..], first, level, indent, p)) == Success(Page(done, p))
  {
    assert done + [] == done;
  }

  lemma BeforeTwice(a: seq<byte>, b: seq<byte>, r: Output)
    ensures Before(a, Before(b, r)) == Before(a + b, r)
  {
    if r.Success? {
      assert a + (b + r.value.text) == a + b + r.value.text;
    }
  }

  // The text of an object, as a new printer writes it.
  method PrintObject(heap: Heap, v: Value, indent: seq<byte>) returns (r: Option<seq<byte>>)
    ensures match PrintText(heap, v, indent) case Success(page) => r == Some(page.text) case Failure(_) => r == None
  {
    var printer := new TextPrinter(heap, indent);
    var ok := printer.WriteValue(v);
    assert [] + printer.output == printer.output;
    assert ok ==> printer.output == [] + PrintText(heap, v, indent).value.text == PrintText(heap, v, indent).value.text;
    return if ok then Some(printer.output) else None;
  }
}
