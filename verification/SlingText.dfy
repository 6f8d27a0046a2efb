/**
  The text form of frames: what the printer writes (app/lib/frame.js:1459-1607) and what the reader makes of it
  (app/lib/frame.js:1308-1456). Numbers are integers; floats have no text in this model.
 */
module SlingText {
  import opened Common
  import opened SlingVarint
  import opened SlingGraph
  import opened SlingLexis

  // The first id of a frame.
  function FrameId(f: Frame): Option<seq<byte>> {
    if f.slots.None? then None
    else
      var id := FirstId(f.slots.value);
      if id.Some? && id.value.Text? then Some(id.value.utf8) else None
  }

  function SlotsOf(f: Frame): seq<Slot> {
    if f.slots.Some? then f.slots.value else []
  }

  // ----- printing -----

  // How a frame that has been printed is referred to.
  datatype Printed = Named(id: seq<byte>) | Numbered(index: nat)
  datatype Printer = Printer(refs: map<nat, Printed>, next: nat)
  datatype Page = Page(text: seq<byte>, printer: Printer)
  type Output = Result<Page, string>

  // Frames not printed yet.
  function Unprinted(h: Heap, p: Printer): set<nat> {
    set f: nat | f < |h| && f !in p.refs
  }

  function Before(first: seq<byte>, r: Output): Output {
    if r.Failure? then r else Success(Page(first + r.value.text, r.value.printer))
  }

  function Behind(r: Output, last: seq<byte>): Output {
    if r.Failure? then r else Success(Page(r.value.text + last, r.value.printer))
  }

  function Repeat(s: seq<byte>, n: nat): seq<byte> {
    if n == 0 then [] else s + Repeat(s, n - 1)
  }

  // A new line with indentation, in the layout that has some.
  function Line(indent: seq<byte>, level: nat): seq<byte> {
    if indent == [] then [] else [10] + Repeat(indent, level)
  }

  function Gap(indent: seq<byte>): seq<byte> {
    if indent == [] then [] else [32]
  }

  // What JavaScript counts as false. A string qualified by it is printed like a plain string.
  predicate Falsy(v: Value) {
    v == Undefined || v == Null || v == Truth(false) || v == Number(0) || v == Text([])
  }

  // The text before the slots of a frame, and the printer that knows the frame.
  function Opening(f: nat, frame: Frame, p: Printer): Result<Page, string> {
    if frame.state.Anonymous? then
      Success(Page([123, 61] + IndexText(p.next) + [32], Printer(p.refs[f := Numbered(p.next)], p.next + 1)))
    else if FrameId(frame).None? then Failure("no id")
    else Success(Page([123], p.(refs := p.refs[f := Named(FrameId(frame).value)])))
  }

  function Closing(level: nat, indent: seq<byte>): seq<byte> {
    Line(indent, level) + [125]
  }

  function ReferenceText(r: Printed): seq<byte> {
    if r.Named? then SymbolText(r.id) else IndexText(r.index)
  }

  function Print(h: Heap, v: Value, level: nat, indent: seq<byte>, p: Printer): (r: Output)
    ensures r.Success? ==> Unprinted(h, r.value.printer) <= Unprinted(h, p)
    decreases Unprinted(h, p), v, 1
  {
    match v
    case Undefined => Success(Page(NIL_WORD, p))
    case Null => Success(Page(NIL_WORD, p))
    case Truth(b) => Success(Page(if b then TRUE_WORD else FALSE_WORD, p))
    case Number(n) => Success(Page(NumberText(n), p))
    case Float(_) => Failure("floats are not modelled")
    case Text(s) => Success(Page(Quote(s), p))
    case Link(f) => PrintFrame(h, f, level, indent, p)
    case List(es) => Before([91], Behind(PrintElements(h, es, true, level, indent, p), [93]))
    case Qualified(s, q) =>
      if Falsy(q) then Success(Page(Quote(s), p)) else Before(Quote(s) + [64], Print(h, q, level + 1, indent, p))
  }

  function PrintElements(h: Heap, es: seq<Value>, first: bool, level: nat, indent: seq<byte>, p: Printer): (r: Output)
    ensures r.Success? ==> Unprinted(h, r.value.printer) <= Unprinted(h, p)
    decreases Unprinted(h, p), es
  {
    if es == [] then Success(Page([], p))
    else
      var one := Print(h, es[0], level, indent, p);
      if one.Failure? then one
      else Before((if first then [] else [44] + Gap(indent)) + one.value.text,
                  PrintElements(h, es[1..], false, level, indent, one.value.printer))
  }

  // A frame, or a reference when it has been printed before or is public and not the root.
  function PrintFrame(h: Heap, f: nat, level: nat, indent: seq<byte>, p: Printer): (r: Output)
    ensures r.Success? ==> Unprinted(h, r.value.printer) <= Unprinted(h, p)
    decreases Unprinted(h, p), Link(f), 0
  {
    if f >= |h| then Failure("no such frame")
    else if level > 0 && !h[f].state.Anonymous? then
      var id := FrameId(h[f]);
      if id.None? then Failure("no id") else Success(Page(SymbolText(id.value), p))
    else if f in p.refs then Success(Page(ReferenceText(p.refs[f]), p))
    else
      var open := Opening(f, h[f], p);
      assert f in Unprinted(h, p);
      if open.Failure? then open
      else
        assert f !in Unprinted(h, open.value.printer);
        Before(open.value.text,
               Behind(PrintSlots(h, f, SlotsOf(h[f]), true, level + 1, indent, open.value.printer),
                      Closing(level, indent)))
  }

  function PrintSlots(h: Heap, f: nat, slots: seq<Slot>, first: bool, level: nat, indent: seq<byte>,
                      p: Printer): (r: Output)
    ensures r.Success? ==> Unprinted(h, r.value.printer) <= Unprinted(h, p)
    decreases Unprinted(h, p), slots
  {
    if slots == [] then Success(Page([], p))
    else
      var one := PrintSlot(h, f, slots[0], level, indent, p);
      if one.Failure? then one
      else Before(SlotSpace(first, level, indent) + one.value.text,
                  PrintSlots(h, f, slots[1..], false, level, indent, one.value.printer))
  }

  // The white space before a slot.
  function SlotSpace(first: bool, level: nat, indent: seq<byte>): seq<byte> {
    if indent != [] then Line(indent, level) else if first then [] else [32]
  }

  function PrintSlot(h: Heap, f: nat, s: Slot, level: nat, indent: seq<byte>, p: Printer): (r: Output)
    ensures r.Success? ==> Unprinted(h, r.value.printer) <= Unprinted(h, p)
    decreases Unprinted(h, p), s
  {
    if s.name == Link(ID) then
      if s.value.Text? then
        Success(Page([61] + SymbolText(s.value.utf8), p.(refs := p.refs[f := Named(s.value.utf8)])))
      else Failure("id is not a string")
    else if s.name == Link(ISA) then Before([58], Print(h, s.value, level, indent, p))
    else if s.name == Link(IS) then Before([43], Print(h, s.value, level, indent, p))
    else
      var name := Print(h, s.name, level, indent, p);
      if name.Failure? then name
      else Before(name.value.text + [58] + Gap(indent), Print(h, s.value, level, indent, name.value.printer))
  }

  // The printer before anything has been printed.
  function Fresh(): Printer {
    Printer(map[], 1)
  }

  // The text of an object, printed by a new printer; without indentation all is on one line.
  function PrintText(h: Heap, v: Value, indent: seq<byte>): Output {
    Print(h, v, 0, indent, Fresh())
  }

  // ----- reading -----

  // The store that is filled, its ids, and the frames with an index.
  datatype Shelf = Shelf(heap: Heap, names: map<seq<byte>, nat>, refs: map<nat, nat>)

  // An object, where the reader is after it, and the shelf.
  datatype Parsed = Parsed(value: Value, here: Here, shelf: Shelf)

  // The slots of a frame read so far, the frame they belong to if that is known, and its index.
  datatype Slots = Slots(slots: seq<Slot>, frame: Option<nat>, index: Option<nat>, here: Here, shelf: Shelf)

  // The frame with an id, a new proxy if there is none.
  function Find(s: Shelf, id: seq<byte>): (Shelf, nat) {
    if id in s.names then (s, s.names[id])
    else
      var f := |s.heap|;
      (s.(heap := s.heap + [Frame(Proxy, Some([Slot(Link(ID), Text(id))]))], names := s.names[id := f]), f)
  }

  // The frame with an index; a reference to one that is not complete makes a placeholder.
  function Placeholder(s: Shelf, n: nat): (Shelf, nat) {
    if n in s.refs then (s, s.refs[n])
    else (s.(heap := s.heap + [Frame(Anonymous, None)], refs := s.refs[n := |s.heap|]), |s.heap|)
  }

  // Registering a frame under an id makes it public.
  function AddId(s: Shelf, f: nat, id: Value): Shelf {
    Shelf(if f < |s.heap| then s.heap[f := s.heap[f].(state := Public)] else s.heap,
          if id.Text? then s.names[id.utf8 := f] else s.names, s.refs)
  }

  // Registering a frame under the values of its id slots.
  function AddIds(s: Shelf, f: nat, slots: seq<Slot>): (r: Shelf)
    ensures |r.heap| == |s.heap|
    decreases |slots|
  {
    if slots == [] then s
    else if slots[0].name == Link(ID) then AddIds(AddId(s, f, slots[0].value), f, slots[1..])
    else AddIds(s, f, slots[1..])
  }

  // Going on to the next token.
  function Go(k: Here): (r: Result<Here, string>)
    ensures r.Success? ==> !r.value.token.Bad? && (!k.token.End? ==> r.value.Size() < k.Size())
  {
    var n := Scan(k.rest);
    if n.token.Bad? then Failure(n.token.error) else Success(n)
  }

  // Passing over a comma.
  function SkipComma(k: Here): (r: Result<Here, string>)
    ensures r.Success? ==> r.value.Size() <= k.Size()
  {
    if k.token == Mark(44) then Go(k) else Success(k)
  }

  function Parse(k: Here, s: Shelf): (r: Result<Parsed, string>)
    ensures r.Success? ==> r.value.here.Size() <= k.Size() && (!k.token.End? ==> r.value.here.Size() < k.Size())
    decreases k.Size(), 0
  {
    if k.token.End? then Success(Parsed(Undefined, k, s))
    else
      var next := Go(k);
      if next.Failure? then Failure(next.error)
      else
        match k.token
        case Nil => Success(Parsed(Null, next.value, s))
        case False => Success(Parsed(Truth(false), next.value, s))
        case True => Success(Parsed(Truth(true), next.value, s))
        case Num(n) => Success(Parsed(Number(n), next.value, s))
        case Str(text) => ParseQualifier(next.value, text, s)
        case Index(n) =>
          var (s', f) := Placeholder(s, n);
          Success(Parsed(Link(f), next.value, s'))
        case Symbol(id) =>
          var (s', f) := Find(s, id);
          Success(Parsed(Link(f), next.value, s'))
        case Mark(c) =>
          if c == 123 then ParseFrame(next.value, s)
          else if c == 91 then ParseArray(next.value, s)
          else Failure("syntax error")
        case _ => Failure("syntax error")
  }

  // What comes after a string.
  function ParseQualifier(k: Here, text: seq<byte>, s: Shelf): (r: Result<Parsed, string>)
    ensures r.Success? ==> r.value.here.Size() <= k.Size()
    decreases k.Size(), 1
  {
    if k.token != Mark(64) then Success(Parsed(Text(text), k, s))
    else
      var next := Go(k);
      if next.Failure? then Failure(next.error)
      else
        var q := Parse(next.value, s);
        if q.Failure? then q else Success(q.value.(value := Qualified(text, q.value.value)))
  }

  function ParseArray(k: Here, s: Shelf): (r: Result<Parsed, string>)
    ensures r.Success? ==> r.value.here.Size() <= k.Size()
    decreases k.Size(), 3
  {
    var es := ParseElements(k, s);
    if es.Failure? then Failure(es.error)
    else
      var next := Go(es.value.1);
      if next.Failure? then Failure(next.error) else Success(Parsed(List(es.value.0), next.value, es.value.2))
  }

  // Elements up to the closing bracket; the commas between them may be missing.
  function ParseElements(k: Here, s: Shelf): (r: Result<(seq<Value>, Here, Shelf), string>)
    ensures r.Success? ==> r.value.1.Size() <= k.Size() && r.value.1.token == Mark(93)
    decreases k.Size(), 1
  {
    if k.token == Mark(93) then Success(([], k, s))
    else if k.token.End? then Failure("array is not closed")
    else
      var e := Parse(k, s);
      if e.Failure? then Failure(e.error)
      else
        var next := SkipComma(e.value.here);
        if next.Failure? then Failure(next.error)
        else
          var rest := ParseElements(next.value, e.value.shelf);
          if rest.Failure? then rest else Success(([e.value.value] + rest.value.0, rest.value.1, rest.value.2))
  }

  // A frame after its opening bracket.
  function ParseFrame(k: Here, s: Shelf): (r: Result<Parsed, string>)
    ensures r.Success? ==> r.value.here.Size() <= k.Size()
    decreases k.Size(), 3
  {
    var got := ParseSlots(k, Slots([], None, None, k, s));
    if got.Failure? then Failure(got.error)
    else
      var next := Go(got.value.here);
      if next.Failure? then Failure(next.error)
      else
        var r := Finish(got.value.slots, got.value.frame, got.value.index, got.value.shelf);
        Success(Parsed(Link(r.1), next.value, r.0))
  }

  /** A frame known by its index or an id gets the slots that have been read; otherwise a new frame is made now,
      whatever has been put in its place in the meantime. */
  function Finish(slots: seq<Slot>, frame: Option<nat>, index: Option<nat>, s: Shelf): (Shelf, nat) {
    if frame.Some? then (AddIds(GiveSlots(s, frame.value, slots), frame.value, slots), frame.value)
    else
      var f := |s.heap|;
      var s' := AddIds(s.(heap := s.heap + [Frame(Anonymous, Some(slots))]), f, slots);
      (if index.Some? then s'.(refs := s'.refs[index.value := f]) else s', f)
  }

  function GiveSlots(s: Shelf, f: nat, slots: seq<Slot>): Shelf {
    s.(heap := if f < |s.heap| then s.heap[f := s.heap[f].(slots := Some(slots))] else s.heap)
  }

  function ParseSlots(k: Here, got: Slots): (r: Result<Slots, string>)
    ensures r.Success? ==> r.value.here.Size() <= k.Size() && r.value.here.token == Mark(125)
    decreases k.Size(), 2
  {
    if k.token == Mark(125) then Success(got.(here := k))
    else
      var one := ParseSlot(k, got);
      if one.Failure? then one
      else
        var next := SkipComma(one.value.here);
        if next.Failure? then Failure(next.error) else ParseSlots(next.value, one.value)
  }

  // An index, an id or another slot.
  function ParseSlot(k: Here, got: Slots): (r: Result<Slots, string>)
    ensures r.Success? ==> r.value.here.Size() < k.Size()
    decreases k.Size(), 1
  {
    if k.token.End? then Failure("syntax error")
    else if k.token == Mark(61) then
      var next := Go(k);
      if next.Failure? then Failure(next.error) else ParseId(next.value, got)
    else if k.token == Mark(58) || k.token == Mark(43) then
      var next := Go(k);
      if next.Failure? then Failure(next.error)
      else
        var v := Parse(next.value, got.shelf);
        if v.Failure? then Failure(v.error)
        else Success(AddSlot(got, Link(if k.token == Mark(58) then ISA else IS), v.value))
    else
      var name := Parse(k, got.shelf);
      if name.Failure? then Failure(name.error)
      else if name.value.here.token != Mark(58) then Failure("missing colon")
      else
        var next := Go(name.value.here);
        if next.Failure? then Failure(next.error)
        else
          var v := Parse(next.value, name.value.shelf);
          if v.Failure? then Failure(v.error) else Success(AddSlot(got, name.value.value, v.value))
  }

  function AddSlot(got: Slots, name: Value, v: Parsed): Slots {
    got.(slots := got.slots + [Slot(name, v.value)], here := v.here, shelf := v.shelf)
  }

  // An index or id of the frame; the first that is known already tells which frame it is.
  function ParseId(k: Here, got: Slots): (r: Result<Slots, string>)
    ensures r.Success? ==> r.value.here.Size() < k.Size()
  {
    var s, next := got.shelf, Go(k);
    if k.token.Index? then
      if next.Failure? then Failure(next.error)
      else
        var n := k.token.index;
        var known := if n in s.refs then Some(s.refs[n]) else None;
        Success(got.(frame := if got.frame.Some? then got.frame else known, index := Some(n), here := next.value))
    else if k.token.Symbol? then
      if next.Failure? then Failure(next.error)
      else
        var id := k.token.name;
        var known := if id in s.names then Some(s.names[id]) else None;
        Success(got.(frame := if got.frame.Some? then got.frame else known,
                     slots := got.slots + [Slot(Link(ID), Text(id))], here := next.value))
    else Failure("frame id expected")
  }

  // An empty store.
  function EmptyShelf(): Shelf {
    Shelf([SymbolFrame(ID), SymbolFrame(ISA), SymbolFrame(IS), SymbolFrame(NAME)],
          map[SymbolName(ID) := ID, SymbolName(ISA) := ISA, SymbolName(IS) := IS, SymbolName(NAME) := NAME], map[])
  }

  // Reading all objects; the last one counts.
  function ParseAll(k: Here, s: Shelf): Result<(Value, Shelf), string>
    decreases k.Size()
  {
    var one := Parse(k, s);
    if one.Failure? then Failure(one.error)
    else if one.value.here.token.End? then Success((one.value.value, one.value.shelf))
    else
      assert !k.token.End?;
      ParseAll(one.value.here, one.value.shelf)
  }

  // Reading a text into a store.
  function ReadInto(t: seq<byte>, s: Shelf): Result<(Value, Shelf), string> {
    var k := Scan(t);
    if k.token.Bad? then Failure(k.token.error) else ParseAll(k, s)
  }

  // Reading a text into an empty store.
  function ReadText(t: seq<byte>): Result<(Value, Shelf), string> {
    ReadInto(t, EmptyShelf())
  }
}
