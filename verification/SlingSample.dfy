/**
  A graph and its text in both layouts (app/lib/frame.js:1459-1607): what the printer writes for it, character by
  character, and that reading the text gives the graph back.
 */
module SlingSample {
  import opened Common
  import opened SlingVarint
  import opened SlingGraph
  import opened SlingLexis
  import opened SlingText
  import opened SlingTextGraph
  import opened SlingTextTrip
  import opened SlingTextIso
  import opened SlingWords

  // A public frame of a type whose id needs quotes, and an anonymous frame that refers to another one twice.
  function Sample(): (h: Heap)
    ensures |h| == 8
  {
    [SymbolFrame(ID), SymbolFrame(ISA), SymbolFrame(IS), SymbolFrame(NAME),
     Frame(Public, Some([Slot(Link(ID), Text(Bytes("a"))), Slot(Link(ISA), Link(5)),
                         Slot(Link(NAME), Text(Bytes("x\n")))])),
     Frame(Public, Some([Slot(Link(ID), Text(Bytes("b c")))])),
     Frame(Anonymous, Some([Slot(Link(IS), Link(4)),
                            Slot(Link(5), List([Link(7), Number(-12), Truth(true), Null, Link(7)]))])),
     Frame(Anonymous, Some([Slot(Link(NAME), Qualified(Bytes("q"), Link(4)))]))]
  }

  // The printer after the first anonymous frame, and after both.
  function Seen(n: nat): Printer {
    if n == 0 then Fresh() else if n == 1 then Printer(map[6 := Numbered(1)], 2)
    else Printer(map[6 := Numbered(1), 7 := Numbered(2)], 3)
  }

  // A new line with as many levels of indentation, in the indented layout.
  function Newline(indent: seq<byte>, level: nat): seq<byte> {
    if indent == [] then [] else Bytes("\n") + Repeat(indent, level)
  }

  lemma NewlineIs(indent: seq<byte>, level: nat)
    ensures Newline(indent, level) == Line(indent, level)
  {
    assert Bytes("\n") == [10];
  }

  lemma OneSlot(h: Heap, f: nat, s: Slot, first: bool, level: nat, indent: seq<byte>, p: Printer)
    ensures PrintSlots(h, f, [s], first, level, indent, p) ==
            Before(SlotSpace(first, level, indent), PrintSlot(h, f, s, level, indent, p))
  {
    assert [s][1..] == [];
    var one := PrintSlot(h, f, s, level, indent, p);
    if one.Success? {
      var text := SlotSpace(first, level, indent) + one.value.text;
      assert text + [] == text;
    }
  }

  lemma FirstSlot(h: Heap, f: nat, s: Slot, rest: seq<Slot>, first: bool, level: nat, indent: seq<byte>, p: Printer)
    requires PrintSlot(h, f, s, level, indent, p).Success?
    ensures var one := PrintSlot(h, f, s, level, indent, p).value;
            PrintSlots(h, f, [s] + rest, first, level, indent, p) ==
            Before(SlotSpace(first, level, indent) + one.text,
                   PrintSlots(h, f, rest, false, level, indent, one.printer))
  {
    assert ([s] + rest)[1..] == rest;
  }

  lemma FirstElement(h: Heap, v: Value, rest: seq<Value>, first: bool, level: nat, indent: seq<byte>, p: Printer)
    requires Print(h, v, level, indent, p).Success?
    ensures var one := Print(h, v, level, indent, p).value;
            PrintElements(h, [v] + rest, first, level, indent, p) ==
            Before((if first then [] else [44] + Gap(indent)) + one.text,
                   PrintElements(h, rest, false, level, indent, one.printer))
  {
    assert ([v] + rest)[1..] == rest;
  }

  // A public frame inside another.
  lemma PublicLink(h: Heap, f: nat, id: seq<byte>, level: nat, indent: seq<byte>, p: Printer)
    requires f < |h| && !h[f].state.Anonymous? && FrameId(h[f]) == Some(id) && level > 0
    ensures Print(h, Link(f), level, indent, p) == Success(Page(SymbolText(id), p))
  {
  }

  lemma Symbols()
    ensures SymbolText(Bytes("a")) == Bytes("a") && SymbolText(Bytes("name")) == Bytes("name")
    ensures Bytes("name") == SymbolName(NAME)
    ensures SymbolText(Bytes("b c")) == Bytes("$\"b c\"")
  {
    Plain(Bytes("a"));
    Plain(Bytes("name"));
    assert Bytes("b c")[1] == 32;
    EscapeEach(Bytes("b c"));
    assert [36] + ([34] + Bytes("b c") + [34]) == Bytes("$\"b c\"");
  }

  lemma Plain(s: seq<byte>)
    requires s != [] && forall i :: 0 <= i < |s| ==> 97 <= s[i] <= 122
    ensures SymbolText(s) == s
  {
  }

  lemma {:induction false} EscapeEach(s: seq<byte>)
    requires forall i :: 0 <= i < |s| ==> s[i] >= 32 && s[i] != 34 && s[i] != 92
    ensures EscapeChars(s) == s
  {
    if s != [] {
      EscapeEach(s[1..]);
      assert s == [s[0]] + s[1..];
    }
  }

  function Colon(indent: seq<byte>): seq<byte> {
    Bytes(if indent == [] then ":" else ": ")
  }

  lemma ColonIs(indent: seq<byte>)
    ensures Colon(indent) == [58] + Gap(indent)
  {
  }

  // A slot that is no id, type or included frame.
  lemma NamedSlot(h: Heap, f: nat, s: Slot, level: nat, indent: seq<byte>, p: Printer, name: seq<byte>,
                  value: seq<byte>,
                  p': Printer)
    requires s.name != Link(ID) && s.name != Link(ISA) && s.name != Link(IS)
    requires Print(h, s.name, level, indent, p) == Success(Page(name, p))
    requires Print(h, s.value, level, indent, p) == Success(Page(value, p'))
    ensures PrintSlot(h, f, s, level, indent, p) == Success(Page(name + Colon(indent) + value, p'))
  {
    hide Print;
    ColonIs(indent);
    assert name + [58] + Gap(indent) == name + ([58] + Gap(indent));
  }

  // A frame without an id inside another, with a single slot.
  lemma AnonymousFrame(h: Heap, f: nat, level: nat, indent: seq<byte>, p: Printer, slots: seq<byte>, p': Printer)
    requires f < |h| && h[f].state.Anonymous? && f !in p.refs && p.next < 10
    requires PrintSlots(h, f, SlotsOf(h[f]), true, level + 1, indent,
                        Printer(p.refs[f := Numbered(p.next)], p.next + 1)) ==
             Success(Page(slots, p'))
    ensures Print(h, Link(f), level, indent, p) ==
            Success(Page(Bytes("{=#") + [48 + p.next, 32] + slots + (Newline(indent, level) + Bytes("}")), p'))
  {
    hide PrintSlots, Line, Newline;
    NewlineIs(indent, level);
    assert [123, 61] + IndexText(p.next) + [32] == Bytes("{=#") + [48 + p.next, 32];
    assert Bytes("}") == [125];
    var open := Bytes("{=#") + [48 + p.next, 32];
    assert open + (slots + (Newline(indent, level) + Bytes("}"))) ==
           open + slots + (Newline(indent, level) + Bytes("}"));
  }

  // The text of the second anonymous frame.
  function InnerText(indent: seq<byte>): seq<byte> {
    Bytes("{=#") + [50, 32] + (Newline(indent, 2) + (Bytes("name") + Colon(indent) + Bytes("\"q\"@a")))
    + (Newline(indent, 1) + Bytes("}"))
  }

  lemma InnerFrame(h: Heap, indent: seq<byte>)
    requires h == Sample()
    ensures Print(h, Link(7), 1, indent, Seen(1)) == Success(Page(InnerText(indent), Seen(2)))
  {
    hide PrintSlots, Print, PrintSlot, Newline, Colon;
    var q := Qualified(Bytes("q"), Link(4));
    var s := Slot(Link(NAME), q);
    var value := Bytes("name") + Colon(indent) + Bytes("\"q\"@a");
    Symbols();
    PublicLink(h, NAME, Bytes("name"), 2, indent, Seen(2));
    PublicLink(h, 4, Bytes("a"), 3, indent, Seen(2));
    QualifiedText(h, indent);
    NamedSlot(h, 7, s, 2, indent, Seen(2), Bytes("name"), Bytes("\"q\"@a"), Seen(2));
    OneSlot(h, 7, s, true, 2, indent, Seen(2));
    NewlineIs(indent, 2);
    SpaceIs(true, 2, indent);
    AnonymousFrame(h, 7, 1, indent, Seen(1), Newline(indent, 2) + value, Seen(2));
  }

  lemma SpaceIs(first: bool, level: nat, indent: seq<byte>)
    ensures SlotSpace(first, level, indent) ==
            if indent == [] && !first then Bytes(" ") else Newline(indent, level)
  {
    NewlineIs(indent, level);
  }

  lemma QualifiedText(h: Heap, indent: seq<byte>)
    requires Print(h, Link(4), 3, indent, Seen(2)) == Success(Page(Bytes("a"), Seen(2)))
    ensures Print(h, Qualified(Bytes("q"), Link(4)), 2, indent, Seen(2)) == Success(Page(Bytes("\"q\"@a"), Seen(2)))
  {
    hide PrintFrame;
    EscapeEach(Bytes("q"));
    assert [34] + Bytes("q") + [34] + [64] + Bytes("a") == Bytes("\"q\"@a");
  }

  function Comma(indent: seq<byte>): seq<byte> {
    Bytes(if indent == [] then "," else ", ")
  }

  lemma CommaIs(indent: seq<byte>)
    ensures Comma(indent) == [44] + Gap(indent)
  {
  }

  // The elements of the array after the first.
  function OtherElements(): seq<Value> {
    [Number(-12), Truth(true), Null, Link(7)]
  }

  function OtherTexts(indent: seq<byte>): seq<byte> {
    Comma(indent) + Bytes("-12") + (Comma(indent) + Bytes("true") + (Comma(indent) + Bytes("nil") +
                                                                      (Comma(indent) + Bytes("#2"))))
  }

  lemma PlainElements(h: Heap, indent: seq<byte>)
    requires h == Sample()
    ensures Print(h, Number(-12), 1, indent, Seen(2)) == Success(Page(Bytes("-12"), Seen(2)))
    ensures Print(h, Truth(true), 1, indent, Seen(2)) == Success(Page(Bytes("true"), Seen(2)))
    ensures Print(h, Null, 1, indent, Seen(2)) == Success(Page(Bytes("nil"), Seen(2)))
    ensures Print(h, Link(7), 1, indent, Seen(2)) == Success(Page(Bytes("#2"), Seen(2)))
  {
    WordsPrinted(h, 1, indent, Seen(2));
    assert DigitBytes(12) == [49, 50] && DigitBytes(2) == [50];
    assert [45] + [49, 50] == Bytes("-12") && [35] + [50] == Bytes("#2");
  }

  lemma Elements(h: Heap, indent: seq<byte>)
    requires h == Sample()
    ensures PrintElements(h, OtherElements(), false, 1, indent, Seen(2)) == Success(Page(OtherTexts(indent), Seen(2)))
  {
    hide PrintElements, Print, Comma;
    var p := Seen(2);
    PlainElements(h, indent);
    CommaIs(indent);
    FirstElement(h, Number(-12), [Truth(true), Null, Link(7)], false, 1, indent, p);
    FirstElement(h, Truth(true), [Null, Link(7)], false, 1, indent, p);
    FirstElement(h, Null, [Link(7)], false, 1, indent, p);
    FirstElement(h, Link(7), [], false, 1, indent, p);
    NoElements(h, 1, indent, p);
    assert [Link(7)] + [] == [Link(7)] && [Null] + [Link(7)] == [Null, Link(7)];
    assert [Truth(true)] + [Null, Link(7)] == [Truth(true), Null, Link(7)];
    assert [Number(-12)] + [Truth(true), Null, Link(7)] == OtherElements();
    assert Comma(indent) + Bytes("#2") + [] == Comma(indent) + Bytes("#2");
  }

  lemma NoElements(h: Heap, level: nat, indent: seq<byte>, p: Printer)
    ensures PrintElements(h, [], false, level, indent, p) == Success(Page([], p))
  {
  }

  lemma Array(h: Heap, indent: seq<byte>)
    requires h == Sample()
    ensures Print(h, List([Link(7)] + OtherElements()), 1, indent, Seen(1)) ==
            Success(Page(Bytes("[") + (InnerText(indent) + OtherTexts(indent) + Bytes("]")), Seen(2)))
  {
    hide PrintElements, Comma, InnerText, OtherTexts, OtherElements;
    Elements(h, indent);
    InnerFrame(h, indent);
    FirstElement(h, Link(7), OtherElements(), true, 1, indent, Seen(1));
    Brackets(h, [Link(7)] + OtherElements(), 1, indent, Seen(1));
    assert [] + InnerText(indent) == InnerText(indent);
  }

  lemma Brackets(h: Heap, es: seq<Value>, level: nat, indent: seq<byte>, p: Printer)
    ensures Print(h, List(es), level, indent, p) ==
            Before(Bytes("["), Behind(PrintElements(h, es, true, level, indent, p), Bytes("]")))
  {
    hide PrintElements;
    assert Bytes("[") == [91] && Bytes("]") == [93];
  }

  // The text of the first anonymous frame.
  function OuterText(indent: seq<byte>): seq<byte> {
    Bytes("{=#") + [49, 32]
    + (Newline(indent, 1) + Bytes("+a") + (Bytes(if indent == [] then " " else "") + Newline(indent, 1)
        + (Bytes("$\"b c\"") + Colon(indent) + (Bytes("[") + (InnerText(indent) + OtherTexts(indent) + Bytes("]"))))))
    + (Newline(indent, 0) + Bytes("}"))
  }

  lemma OuterFrame(h: Heap, indent: seq<byte>)
    requires h == Sample()
    ensures Print(h, Link(6), 0, indent, Fresh()) == Success(Page(OuterText(indent), Seen(2)))
  {
    hide PrintSlots, Print, PrintSlot, Newline, Colon, InnerText, OtherTexts, SlotSpace;
    var es := [Link(7)] + OtherElements();
    var a, b := Slot(Link(IS), Link(4)), Slot(Link(5), List(es));
    var first := Newline(indent, 1) + Bytes("+a");
    var inside := Bytes("[") + (InnerText(indent) + OtherTexts(indent) + Bytes("]"));
    var second := Bytes(if indent == [] then " " else "") + Newline(indent, 1)
                  + (Bytes("$\"b c\"") + Colon(indent) + inside);
    assert es == [Link(7), Number(-12), Truth(true), Null, Link(7)];
    assert SlotsOf(h[6]) == [a] + [b];
    Included(h, indent);
    Array(h, indent);
    Symbols();
    PublicLink(h, 5, Bytes("b c"), 1, indent, Seen(1));
    NamedSlot(h, 6, b, 1, indent, Seen(1), Bytes("$\"b c\""), inside, Seen(2));
    SpaceIs(true, 1, indent);
    LaterSpace(indent);
    FirstSlot(h, 6, a, [b], true, 1, indent, Seen(1));
    OneSlot(h, 6, b, false, 1, indent, Seen(1));
    AnonymousFrame(h, 6, 0, indent, Fresh(), first + second, Seen(2));
  }

  lemma LaterSpace(indent: seq<byte>)
    ensures SlotSpace(false, 1, indent) == Bytes(if indent == [] then " " else "") + Newline(indent, 1)
  {
    NewlineIs(indent, 1);
    if indent == [] {
      assert Bytes(" ") + [] == [32];
    } else {
      assert Bytes("") + Newline(indent, 1) == Newline(indent, 1);
    }
  }

  lemma Included(h: Heap, indent: seq<byte>)
    requires h == Sample()
    ensures PrintSlot(h, 6, Slot(Link(IS), Link(4)), 1, indent, Seen(1)) == Success(Page(Bytes("+a"), Seen(1)))
  {
    hide Print;
    Symbols();
    PublicLink(h, 4, Bytes("a"), 1, indent, Seen(1));
    assert [43] + Bytes("a") == Bytes("+a");
  }

  lemma PublicFrame(h: Heap)
    requires h == Sample()
    ensures PrintText(h, Link(4), []).Success?
    ensures PrintText(h, Link(4), []).value.text ==
            Bytes("{") + (Bytes("=a") + (Bytes(" :$\"b c\"") + Bytes(" name:\"x\\n\"")) + Bytes("}"))
  {
    hide PrintSlots, Print, PrintSlot, PrintText, Sample, SlotSpace, Bytes;
    var a, b, c := Slot(Link(ID), Text(Bytes("a"))), Slot(Link(ISA), Link(5)), Slot(Link(NAME), Text(Bytes("x\n")));
    var p := Printer(map[4 := Named(Bytes("a"))], 1);
    PublicSlots(h);
    IdSlot(h, p);
    TypeSlot(h, p);
    NameSlot(h, p);
    FirstSlot(h, 4, a, [b] + [c], true, 1, [], p);
    FirstSlot(h, 4, b, [c], false, 1, [], p);
    OneSlot(h, 4, c, false, 1, [], p);
    Spaces();
    assert PrintSlots(h, 4, [c], false, 1, [], p) == Success(Page(Bytes(" name:\"x\\n\""), p));
    assert PrintSlots(h, 4, [b] + [c], false, 1, [], p) ==
           Success(Page(Bytes(" :$\"b c\"") + Bytes(" name:\"x\\n\""), p));
    PublicBrackets(h, p);
  }

  lemma PublicSlots(h: Heap)
    requires h == Sample()
    ensures SlotsOf(h[4]) == [Slot(Link(ID), Text(Bytes("a")))] + ([Slot(Link(ISA), Link(5))] +
                                                                   [Slot(Link(NAME), Text(Bytes("x\n")))])
  {
  }

  lemma PublicBrackets(h: Heap, p: Printer)
    requires h == Sample() && p == Printer(map[4 := Named(Bytes("a"))], 1)
    ensures PrintText(h, Link(4), []) ==
            Before(Bytes("{"), Behind(PrintSlots(h, 4, SlotsOf(h[4]), true, 1, [], p), Bytes("}")))
  {
    hide PrintSlots, Bytes;
    assert FrameId(h[4]) == Some(Bytes("a")) && h[4].state.Public?;
    assert Fresh().refs[4 := Named(Bytes("a"))] == p.refs;
    assert [] + [125] == Bytes("}") && [123] == Bytes("{") by {
      Braces();
    }
    assert Opening(4, h[4], Fresh()) == Success(Page(Bytes("{"), p));
    assert Closing(0, []) == Bytes("}");
    assert Print(h, Link(4), 0, [], Fresh()) == PrintFrame(h, 4, 0, [], Fresh());
  }

  lemma Braces()
    ensures [] + [125] == Bytes("}") && [123] == Bytes("{")
  {
  }

  lemma Spaces()
    ensures SlotSpace(true, 1, []) == [] && SlotSpace(false, 1, []) == [32]
    ensures [] + Bytes("=a") == Bytes("=a") && [32] + Bytes(":$\"b c\"") == Bytes(" :$\"b c\"")
    ensures [32] + Bytes("name:\"x\\n\"") == Bytes(" name:\"x\\n\"")
  {
  }

  lemma IdSlot(h: Heap, p: Printer)
    requires p == Printer(map[4 := Named(Bytes("a"))], 1)
    ensures PrintSlot(h, 4, Slot(Link(ID), Text(Bytes("a"))), 1, [], p) == Success(Page(Bytes("=a"), p))
  {
    Symbols();
    assert [61] + Bytes("a") == Bytes("=a");
    assert p.refs[4 := Named(Bytes("a"))] == p.refs;
  }

  lemma TypeSlot(h: Heap, p: Printer)
    requires h == Sample()
    ensures PrintSlot(h, 4, Slot(Link(ISA), Link(5)), 1, [], p) == Success(Page(Bytes(":$\"b c\""), p))
  {
    hide Print;
    Symbols();
    PublicLink(h, 5, Bytes("b c"), 1, [], p);
    assert [58] + Bytes("$\"b c\"") == Bytes(":$\"b c\"");
  }

  lemma NameSlot(h: Heap, p: Printer)
    requires h == Sample()
    ensures PrintSlot(h, 4, Slot(Link(NAME), Text(Bytes("x\n"))), 1, [], p) == Success(Page(Bytes("name:\"x\\n\""), p))
  {
    hide Quote;
    Symbols();
    PublicLink(h, NAME, Bytes("name"), 1, [], p);
    QuotedLine();
    NamedSlot(h, 4, Slot(Link(NAME), Text(Bytes("x\n"))), 1, [], p, Bytes("name"), Quote(Bytes("x\n")), p);
    assert Bytes("name") + Bytes(":") + Bytes("\"x\\n\"") == Bytes("name:\"x\\n\"");
  }

  lemma QuotedLine()
    ensures Quote(Bytes("x\n")) == Bytes("\"x\\n\"")
  {
    var s := Bytes("x\n");
    assert s == [120, 10] && s[1..] == [10] && [10][1..] == [];
    assert EscapeChars([]) == [];
    assert EscapeChars([10]) == [92, 110];
    assert EscapeChars(s) == [120, 92, 110];
    assert [34] + [120, 92, 110] + [34] == Bytes("\"x\\n\"");
  }

  // ----- the texts -----

  lemma Together(a: seq<byte>, b: seq<byte>, c: seq<byte>, d: seq<byte>, e: seq<byte>, ab: seq<byte>, de: seq<byte>)
    requires ab == a + b && de == d + e
    ensures a + (b + (c + d) + e) == ab + c + de
  {
  }

  lemma InnerLine()
    ensures InnerText([]) == Bytes("{=#2 name:\"q\"@a}")
  {
    assert Newline([], 2) == Newline([], 1) == [] && Colon([]) == [58];
    assert Bytes("{=#") + [50, 32] + ([] + (Bytes("name") + [58] + Bytes("\"q\"@a"))) + ([] + Bytes("}")) ==
           Bytes("{=#2 name:\"q\"@a}");
  }

  lemma OtherLine()
    ensures OtherTexts([]) + Bytes("]") == Bytes(",-12,true,nil,#2]")
  {
    assert Comma([]) == [44] && Bytes("-12") == [45, 49, 50] && Bytes("#2") == [35, 50];
    assert Bytes("true") == [116, 114, 117, 101] && Bytes("nil") == [110, 105, 108];
    assert Bytes(",-12,true,nil,#2]") ==
           [44, 45, 49, 50, 44, 116, 114, 117, 101, 44, 110, 105, 108, 44, 35, 50, 93];
    assert [44] + [45, 49, 50] + ([44] + [116, 114, 117, 101] + ([44] + [110, 105, 108] + ([44] + [35, 50]))) + [93] ==
           [44, 45, 49, 50, 44, 116, 114, 117, 101, 44, 110, 105, 108, 44, 35, 50, 93];
    assert Bytes("]") == [93];
  }

  lemma OneLine()
    ensures OuterText([]) == Bytes("{=#1 +a") + Bytes(" $\"b c\":[") + Bytes("{=#2 name:\"q\"@a}")
                             + Bytes(",-12,true,nil,#2]}")
  {
    hide InnerText, OtherTexts, Bytes;
    InnerLine();
    OtherLine();
    Brims();
    var inner, other := InnerText([]), OtherTexts([]);
    assert Newline([], 1) == Newline([], 0) == [];
    Grouped(Bytes("{=#") + [49, 32], Bytes("+a"), Bytes(" "), Bytes("$\"b c\""), Bytes(":"), Bytes("["), inner, other,
            Bytes("]"), Bytes("}"));
  }

  lemma Brims()
    ensures Bytes("{=#") + [49, 32] + Bytes("+a") == Bytes("{=#1 +a")
    ensures Bytes(" ") + Bytes("$\"b c\"") + Bytes(":") + Bytes("[") == Bytes(" $\"b c\":[")
    ensures Bytes(",-12,true,nil,#2]") + Bytes("}") == Bytes(",-12,true,nil,#2]}")
  {
  }

  lemma Grouped(a: seq<byte>, b: seq<byte>, c: seq<byte>, d: seq<byte>, e: seq<byte>, f: seq<byte>, inner: seq<byte>,
                other: seq<byte>, x: seq<byte>, y: seq<byte>)
    ensures a + ([] + b + (c + [] + (d + e + (f + (inner + other + x))))) + ([] + y) ==
            a + b + (c + d + e + f) + inner + (other + x + y)
  {
  }

  lemma Lines()
    ensures var indent := Bytes(" ");
            && indent != [] && Newline(indent, 0) == Bytes("\n") && Newline(indent, 1) == Bytes("\n ")
            && Newline(indent, 2) == Bytes("\n  ")
  {
    assert Bytes(" ") == [32] && Bytes("\n") == [10] && Bytes("\n ") == [10, 32] && Bytes("\n  ") == [10, 32, 32];
    assert Repeat([32], 0) == [] && Repeat([32], 1) == [32] + [] && Repeat([32], 2) == [32] + Repeat([32], 1);
  }

  lemma InnerIndented()
    ensures InnerText(Bytes(" ")) == Bytes("{=#2 \n  name: \"q\"@a\n }")
  {
    hide Newline;
    Lines();
    var name := Bytes("name") + Bytes(": ") + Bytes("\"q\"@a");
    assert Bytes("{=#") + [50, 32] + (Bytes("\n  ") + name) + (Bytes("\n ") + Bytes("}")) ==
           Bytes("{=#2 \n  name: \"q\"@a\n }");
  }

  lemma OtherIndented()
    ensures OtherTexts(Bytes(" ")) + Bytes("]") == Bytes(", -12, true") + Bytes(", nil, #2]")
  {
    hide Comma, Bytes;
    Items();
    var a, b, c, d := Bytes(", -12"), Bytes(", true"), Bytes(", nil"), Bytes(", #2");
    assert a + (b + (c + d)) + Bytes("]") == a + b + (c + d + Bytes("]"));
  }

  lemma Items()
    ensures var comma := Comma(Bytes(" "));
            && comma + Bytes("-12") == Bytes(", -12") && comma + Bytes("true") == Bytes(", true")
            && comma + Bytes("nil") == Bytes(", nil") && comma + Bytes("#2") == Bytes(", #2")
    ensures Bytes(", -12") + Bytes(", true") == Bytes(", -12, true")
    ensures Bytes(", nil") + Bytes(", #2") + Bytes("]") == Bytes(", nil, #2]")
  {
    assert Comma(Bytes(" ")) == Bytes(", ") by {
      assert Bytes(" ") == [32];
    }
  }

  lemma Indented()
    ensures OuterText(Bytes(" ")) == Bytes("{=#1 \n +a") + Bytes("\n $\"b c\": [") + Bytes("{=#2 \n  name: \"q\"@a\n }")
                                     + (Bytes(", -12, true") + Bytes(", nil, #2]\n}"))
  {
    hide InnerText, OtherTexts, Bytes, Newline;
    InnerIndented();
    OtherIndented();
    IndentedBrims();
    Lines();
    var inner, other := InnerText(Bytes(" ")), OtherTexts(Bytes(" "));
    Regrouped(Bytes("{=#") + [49, 32], Bytes("\n "), Bytes("+a"), Bytes(""), Bytes("$\"b c\""), Bytes(": "), Bytes("["),
              inner, other, Bytes("]"), Bytes("\n"), Bytes("}"));
    var last, rest := Bytes(", nil, #2]"), Bytes(", -12, true");
    assert rest + last + Bytes("\n") + Bytes("}") == rest + (last + Bytes("\n") + Bytes("}"));
  }

  lemma IndentedBrims()
    ensures Bytes("{=#") + [49, 32] + Bytes("\n ") + Bytes("+a") == Bytes("{=#1 \n +a")
    ensures Bytes("") + Bytes("\n ") + Bytes("$\"b c\"") + Bytes(": ") + Bytes("[") == Bytes("\n $\"b c\": [")
    ensures Bytes(", nil, #2]") + Bytes("\n") + Bytes("}") == Bytes(", nil, #2]\n}")
  {
  }

  lemma Regrouped(a: seq<byte>, n: seq<byte>, b: seq<byte>, c: seq<byte>, d: seq<byte>, e: seq<byte>, f: seq<byte>,
                  inner: seq<byte>, other: seq<byte>, x: seq<byte>, z: seq<byte>, y: seq<byte>)
    ensures a + (n + b + (c + n + (d + e + (f + (inner + other + x))))) + (z + y) ==
            a + n + b + (c + n + d + e + f) + inner + (other + x + z + y)
  {
  }

  /** What the printer writes: a public frame with its id, type and name; and an anonymous frame, on one line and
      indented by one space a level. */
  lemma SampleTexts()
    ensures var r := PrintText(Sample(), Link(4), []);
            r.Success? && r.value.text == Bytes("{=a") + Bytes(" :$\"b c\"") + Bytes(" name:\"x\\n\"}")
    ensures var r := PrintText(Sample(), Link(6), []);
            && r.Success?
            && r.value.text == Bytes("{=#1 +a") + Bytes(" $\"b c\":[") + Bytes("{=#2 name:\"q\"@a}")
                               + Bytes(",-12,true,nil,#2]}")
    ensures var r := PrintText(Sample(), Link(6), Bytes(" "));
            && r.Success?
            && r.value.text == Bytes("{=#1 \n +a") + Bytes("\n $\"b c\": [") + Bytes("{=#2 \n  name: \"q\"@a\n }")
                               + (Bytes(", -12, true") + Bytes(", nil, #2]\n}"))
  {
    hide Print, Sample, Bytes, OuterText;
    PublicFrame(Sample());
    OuterFrame(Sample(), []);
    OuterFrame(Sample(), Bytes(" "));
    Ends();
    Together(Bytes("{"), Bytes("=a"), Bytes(" :$\"b c\""), Bytes(" name:\"x\\n\""), Bytes("}"), Bytes("{=a"),
             Bytes(" name:\"x\\n\"}"));
    OneLine();
    Indented();
  }

  lemma Ends()
    ensures Bytes("{=a") == Bytes("{") + Bytes("=a") && Bytes(" name:\"x\\n\"}") == Bytes(" name:\"x\\n\"") + Bytes("}")
  {
  }

  // ----- reading the texts -----

  lemma SampleGraph()
    ensures TextGraph(Sample())
  {
    hide Sample, PlainFrame, HasId, Bytes, SymbolName;
    var h := Sample();
    forall f | 0 <= f < |h|
      ensures PlainFrame(h[f], |h|)
    {
      SampleFrame(f);
    }
    StandardSymbols();
    forall f, g, id | HasId(h, f, id) && HasId(h, g, id)
      ensures f == g
    {
      SampleId(f, id);
      SampleId(g, id);
      SampleNames(f, g);
    }
  }

  lemma StandardSymbols()
    ensures forall f :: 0 <= f < SYMBOLS ==> Sample()[f].state.Public? && FrameId(Sample()[f]) == Some(SymbolName(f))
  {
    hide Bytes;
  }

  lemma Ids()
    ensures Bytes("a") == [97] && Bytes("b c") == [98, 32, 99]
  {
  }

  function SampleName(f: nat): seq<byte>
    requires f < 6
  {
    if f < SYMBOLS then SymbolName(f) else if f == 4 then [97] else [98, 32, 99]
  }

  lemma SampleNames(f: nat, g: nat)
    requires f < 6 && g < 6 && SampleName(f) == SampleName(g)
    ensures f == g
  {
  }

  lemma SampleFrame(f: nat)
    requires f < 8
    ensures PlainFrame(Sample()[f], 8)
  {
    hide Bytes;
    Ids();
    if f < SYMBOLS {
      assert Sample()[f] == SymbolFrame(f);
    } else if f >= 6 {
      AnonymousPlain(f);
    }
  }

  lemma AnonymousPlain(f: nat)
    requires f == 6 || f == 7
    ensures PlainFrame(Sample()[f], 8)
  {
    hide Bytes;
  }

  lemma SampleId(f: nat, id: seq<byte>)
    requires HasId(Sample(), f, id)
    ensures f < 6 && id == SampleName(f)
  {
    hide Bytes;
    Ids();
  }

  lemma PublicLinks()
    ensures SlotLinks(SlotsOf(Sample()[4])) == {0, 1, 3, 5} && SlotLinks(SlotsOf(Sample()[7])) == {3, 4}
  {
    hide Bytes;
    var a, c := SlotsOf(Sample()[4]), SlotsOf(Sample()[7]);
    assert |a| == 3 && |a[1..]| == 2 && a[2..] == a[1..][1..] && a[3..] == a[2..][1..] == [];
    assert SlotLinks(a) == {0} + ({1, 5} + ({3} + {})) by {
      assert SlotLinks(a[2..]) == {3} + {} && SlotLinks(a[1..]) == {1, 5} + SlotLinks(a[2..]);
    }
    assert c[1..] == [];
    assert SlotLinks(c) == {3} + {4} + {};
  }

  lemma OuterLinks()
    ensures SlotLinks(SlotsOf(Sample()[6])) == {2, 4, 5, 7}
  {
    hide Bytes;
    var b := SlotsOf(Sample()[6]);
    assert b[1..][1..] == [];
    var es := [Link(7), Number(-12), Truth(true), Null, Link(7)];
    assert b[1].value == List(es);
    ArrayLinks(es);
    assert SlotLinks(b[1..]) == {5} + Links(List(es)) + {};
  }

  lemma ArrayLinks(es: seq<Value>)
    requires es == [Link(7), Number(-12), Truth(true), Null, Link(7)]
    ensures ElementLinks(es) == {7}
  {
    assert ElementLinks(es[4..]) == {7} by {
      assert es[4..][1..] == [];
    }
    assert es[3..][1..] == es[4..] && es[2..][1..] == es[3..] && es[1..][1..] == es[2..];
    assert ElementLinks(es[3..]) == {} + {7};
    assert ElementLinks(es[2..]) == {} + {7};
    assert ElementLinks(es[1..]) == {} + {7};
  }

  lemma SampleRanked()
    ensures Acyclic(Sample(), {4}) && Acyclic(Sample(), {6})
  {
    hide Bytes, SlotLinks, SlotsOf;
    PublicLinks();
    OuterLinks();
    var h, rank: map<nat, nat> := Sample(), map[4 := 0, 6 := 2, 7 := 1];
    assert Ranked(h, {4}, rank);
    assert Ranked(h, {6}, rank);
  }

  // A proxy is all there is of a frame that is only linked to.
  predicate ProxyOf(s: Shelf, f: nat, id: seq<byte>) {
    f < |s.heap| && s.heap[f] == Frame(Proxy, Some([Slot(Link(ID), Text(id))]))
  }

  /** What the reader makes of the first text: a public frame with an id, a type and a name. */
  lemma PublicRead(text: seq<byte>)
    requires text == Bytes("{=a") + Bytes(" :$\"b c\"") + Bytes(" name:\"x\\n\"}")
    ensures ReadText(text).Success? && ReadText(text).value.0.Link?
    ensures var f, s := ReadText(text).value.0.frame, ReadText(text).value.1;
            f < |s.heap| &&
            exists b :: ProxyOf(s, b, Bytes("b c")) &&
                        s.heap[f] == Frame(Public, Some([Slot(Link(ID), Text(Bytes("a"))), Slot(Link(ISA), Link(b)),
                                                         Slot(Link(NAME), Text(Bytes("x\n")))]))
  {
    hide ReadText, PrintText, Bytes, Sample;
    SampleTexts();
    SampleGraph();
    SampleRanked();
    TextRoundTrip(Sample(), 4, []);
    var f, s := ReadText(text).value.0.frame, ReadText(text).value.1;
    var d, m :| Isomorphic(Sample(), {4}, d, m, s) && 4 in m && m[4] == f;
    PublicCopy(d, m, s);
    assert ProxyOf(s, m[5], Bytes("b c"));
  }

  // Public frames inside are proxies, except the standard symbols.
  lemma LinkedFrame(root: nat, d: set<nat>, m: map<nat, nat>, s: Shelf, f: nat)
    requires Isomorphic(Sample(), {root}, d, m, s) && f in m && f != root && f < 6
    ensures if f < SYMBOLS then m[f] == f else ProxyOf(s, m[f], SampleName(f))
  {
    hide Bytes, Injective, Filled, RenameSlots, SlotLinks;
    Ids();
    assert f in d ==> Copied(Sample(), {root}, d, m, s, f);
    assert Linked(Sample(), m, s, f);
  }

  lemma CopiedFrame(root: nat, d: set<nat>, m: map<nat, nat>, s: Shelf, f: nat)
    requires Isomorphic(Sample(), {root}, d, m, s) && f in d
    ensures f in m && m[f] < |s.heap| && SlotLinks(SlotsOf(Sample()[f])) <= m.Keys
    ensures s.heap[m[f]] == Frame(if f >= 6 then Anonymous else Public, Some(RenameSlots(m, SlotsOf(Sample()[f]))))
  {
    hide Bytes, Injective, Filled, SlotLinks, RenameSlots;
    assert Copied(Sample(), {root}, d, m, s, f);
  }

  lemma PublicCopy(d: set<nat>, m: map<nat, nat>, s: Shelf)
    requires Isomorphic(Sample(), {4}, d, m, s) && 4 in m
    ensures 5 in m && ProxyOf(s, m[5], Bytes("b c")) && m[4] < |s.heap|
    ensures s.heap[m[4]] == Frame(Public, Some([Slot(Link(ID), Text(Bytes("a"))), Slot(Link(ISA), Link(m[5])),
                                                Slot(Link(NAME), Text(Bytes("x\n")))]))
  {
    hide Bytes, Isomorphic, SlotLinks;
    assert 4 in d by {
      RootCopied(4, d, m, s);
    }
    Ids();
    PublicLinks();
    CopiedFrame(4, d, m, s, 4);
    LinkedFrame(4, d, m, s, ID);
    LinkedFrame(4, d, m, s, ISA);
    LinkedFrame(4, d, m, s, NAME);
    LinkedFrame(4, d, m, s, 5);
    RenamedPublic(m);
  }

  lemma RootCopied(root: nat, d: set<nat>, m: map<nat, nat>, s: Shelf)
    requires Isomorphic(Sample(), {root}, d, m, s)
    ensures root in d
  {
  }

  lemma RenamedPublic(m: map<nat, nat>)
    requires {ID, ISA, NAME, 5} <= m.Keys && m[ID] == ID && m[ISA] == ISA && m[NAME] == NAME
    ensures RenameSlots(m, SlotsOf(Sample()[4])) ==
            [Slot(Link(ID), Text(Bytes("a"))), Slot(Link(ISA), Link(m[5])), Slot(Link(NAME), Text(Bytes("x\n")))]
  {
    hide Bytes;
    var a := SlotsOf(Sample()[4]);
    assert a[1..][1..] == a[2..] && a[2..][1..] == [];
    assert RenameSlots(m, a[2..]) == [Slot(Link(NAME), Text(Bytes("x\n")))];
    assert RenameSlots(m, a[1..]) == [Slot(Link(ISA), Link(m[5]))] + RenameSlots(m, a[2..]);
  }

  /** What the reader makes of the other text, in both layouts: an anonymous frame that includes a frame and has an
      array in which the same frame stands twice. */
  lemma AnonymousRead(text: seq<byte>)
    requires || text == Bytes("{=#1 +a") + Bytes(" $\"b c\":[") + Bytes("{=#2 name:\"q\"@a}") +
             Bytes(",-12,true,nil,#2]}")
             || text == Bytes("{=#1 \n +a") + Bytes("\n $\"b c\": [") + Bytes("{=#2 \n  name: \"q\"@a\n }")
                        + (Bytes(", -12, true") + Bytes(", nil, #2]\n}"))
    ensures ReadText(text).Success? && ReadText(text).value.0.Link?
    ensures var f, s := ReadText(text).value.0.frame, ReadText(text).value.1;
            exists a, b, g :: ProxyOf(s, a, Bytes("a")) && ProxyOf(s, b, Bytes("b c")) && OuterRead(s, f, a, b, g)
  {
    hide ReadText, PrintText, Bytes, Sample, OuterRead, ProxyOf;
    SampleTexts();
    SampleGraph();
    SampleRanked();
    TextRoundTrip(Sample(), 6, []);
    Indentation();
    TextRoundTrip(Sample(), 6, Bytes(" "));
    var f, s := ReadText(text).value.0.frame, ReadText(text).value.1;
    var d, m :| Isomorphic(Sample(), {6}, d, m, s) && 6 in m && m[6] == f;
    AnonymousCopy(d, m, s);
    assert ProxyOf(s, m[4], Bytes("a")) && ProxyOf(s, m[5], Bytes("b c")) && OuterRead(s, f, m[4], m[5], m[7]);
  }

  lemma Indentation()
    ensures Bytes(" ") == [32]
  {
  }

  // The two anonymous frames.
  predicate OuterRead(s: Shelf, f: nat, a: nat, b: nat, g: nat) {
    && f < |s.heap| && g < |s.heap| && f != g
    && s.heap[f] == Frame(Anonymous, Some([Slot(Link(IS), Link(a)),
                                           Slot(Link(b), List([Link(g), Number(-12), Truth(true), Null, Link(g)]))]))
    && s.heap[g] == Frame(Anonymous, Some([Slot(Link(NAME), Qualified(Bytes("q"), Link(a)))]))
  }

  lemma AnonymousCopy(d: set<nat>, m: map<nat, nat>, s: Shelf)
    requires Isomorphic(Sample(), {6}, d, m, s) && 6 in m
    ensures {4, 5, 7} <= m.Keys && ProxyOf(s, m[4], Bytes("a")) && ProxyOf(s, m[5], Bytes("b c"))
    ensures OuterRead(s, m[6], m[4], m[5], m[7])
  {
    hide Bytes, Isomorphic, SlotLinks;
    InnerCopied(d, m, s);
    Ids();
    CopiedFrame(6, d, m, s, 6);
    CopiedFrame(6, d, m, s, 7);
    PublicLinks();
    OuterLinks();
    LinkedFrame(6, d, m, s, IS);
    LinkedFrame(6, d, m, s, NAME);
    LinkedFrame(6, d, m, s, 4);
    LinkedFrame(6, d, m, s, 5);
    RenamedAnonymous(m);
  }

  lemma InnerCopied(d: set<nat>, m: map<nat, nat>, s: Shelf)
    requires Isomorphic(Sample(), {6}, d, m, s)
    ensures 6 in d && 7 in d && 6 in m && 7 in m && m[6] != m[7]
  {
    hide Bytes, Filled;
    assert Copied(Sample(), {6}, d, m, s, 6);
    OuterLinks();
    assert Inner(Sample(), {6}, 7);
  }

  lemma RenamedAnonymous(m: map<nat, nat>)
    requires {IS, NAME, 4, 5, 7} <= m.Keys && m[IS] == IS && m[NAME] == NAME
    ensures RenameSlots(m, SlotsOf(Sample()[6])) ==
            [Slot(Link(IS), Link(m[4])), Slot(Link(m[5]),
                                              List([Link(m[7]), Number(-12), Truth(true), Null, Link(m[7])]))]
    ensures RenameSlots(m, SlotsOf(Sample()[7])) == [Slot(Link(NAME), Qualified(Bytes("q"), Link(m[4])))]
  {
    hide Bytes;
    var b, c := SlotsOf(Sample()[6]), SlotsOf(Sample()[7]);
    assert b[1..][1..] == [] && c[1..] == [];
    RenamedArray(m);
  }

  lemma RenamedArray(m: map<nat, nat>)
    requires 7 in m
    ensures RenameAll(m, [Link(7), Number(-12), Truth(true), Null, Link(7)]) ==
            [Link(m[7]), Number(-12), Truth(true), Null, Link(m[7])]
  {
    var es := [Link(7), Number(-12), Truth(true), Null, Link(7)];
    assert es[1..][1..] == es[2..] && es[2..][1..] == es[3..] && es[3..][1..] == es[4..] && es[4..][1..] == [];
    assert RenameAll(m, es[4..]) == [Link(m[7])];
    assert RenameAll(m, es[3..]) == [Null, Link(m[7])];
    assert RenameAll(m, es[2..]) == [Truth(true), Null, Link(m[7])];
  }
}
