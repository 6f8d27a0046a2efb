/**
  The LEX format of documents (app/lib/document.js:151-239, 390-459): text with nested bracketed mentions, which
  may be annotated with frames in text form. Text is given by its UTF-8 bytes.
 */
module Lex {
  import opened Common
  import opened SlingGraph
  import opened SlingLexis
  import opened SlingText
  import opened LexEscape

  // ----- mentions -----

  datatype Mention = Mention(begin: nat, end: nat, annotation: Option<Value>)
  datatype Document = Document(text: seq<byte>, mentions: seq<Mention>)

  predicate IsEmpty(m: Mention) {
    m.begin == m.end
  }

  // ----- reading -----

  /** The text so far, the positions of the open brackets, the mentions in the order they are closed, and the
      store that annotations are read into. */
  datatype Progress = Progress(text: seq<byte>, stack: seq<nat>, mentions: seq<Mention>, shelf: Shelf) {
    function Top(): nat
      requires stack != []
    {
      stack[|stack| - 1]
    }

    function Popped(): seq<nat>
      requires stack != []
    {
      stack[..|stack| - 1]
    }
  }

  // The annotations of a mention, the text after them, and the store.
  datatype Notes = Notes(values: seq<Value>, rest: seq<byte>, shelf: Shelf)

  // Nothing is read at the end of the input.
  function Note(v: Value): Option<Value> {
    if v == Undefined then None else Some(v)
  }

  // The mention ends here, or the input does; what has been read ahead then is dropped.
  predicate Last(k: Here) {
    k.token == Mark(CLOSE) || k.token.End? || k.rest == []
  }

  // Annotations up to the closing bracket or the end.
  function ReadNotes(k: Here, s: Shelf): (r: Option<Notes>)
    ensures r.Some? ==> |r.value.rest| <= k.Size()
    decreases k.Size()
  {
    var one := Parse(k, s);
    if one.Failure? then None
    else
      var here := one.value.here;
      if Last(here) then Some(Notes([one.value.value], if here.token.End? then [] else here.rest, one.value.shelf))
      else
        var more := ReadNotes(here, one.value.shelf);
        if more.None? then None else Some(more.value.(values := [one.value.value] + more.value.values))
  }

  function Annotated(begin: nat, end: nat, values: seq<Value>): (r: seq<Mention>)
    ensures |r| == |values|
  {
    seq(|values|, i requires 0 <= i < |values| => Mention(begin, end, Note(values[i])))
  }

  // What comes after a bar within a mention.
  function ReadAnnotations(t: seq<byte>, s: Shelf): (r: Option<Notes>)
    ensures r.Some? ==> |r.value.rest| <= |t|
  {
    var k := Scan(t);
    if k.token.Bad? then None else ReadNotes(k, s)
  }

  /** Reading LEX from some state on; None for themes and for annotations with errors. */
  function ReadFrom(t: seq<byte>, st: Progress): Option<Progress>
    decreases |t|
  {
    if t == [] then Some(st)
    else if t[0] == OPEN then ReadFrom(t[1..], st.(stack := st.stack + [|st.text|]))
    else if t[0] == BAR && st.stack != [] then
      var a := ReadAnnotations(t[1..], st.shelf);
      if a.None? then None
      else ReadFrom(a.value.rest,
                    Progress(st.text, st.Popped(), st.mentions + Annotated(st.Top(), |st.text|, a.value.values),
                             a.value.shelf))
    else if t[0] == CLOSE && st.stack != [] then
      ReadFrom(t[1..], st.(stack := st.Popped(), mentions := st.mentions + [Mention(st.Top(), |st.text|, None)]))
    else if t[0] == BRACE then None
    else ReadFrom(t[1..], st.(text := st.text + [t[0]]))
  }

  function Start(): Progress {
    Progress([], [], [], EmptyShelf())
  }

  function ReadLex(t: seq<byte>): Option<(Document, Shelf)> {
    var r := ReadFrom(t, Start());
    if r.None? then None else Some((Document(r.value.text, r.value.mentions), r.value.shelf))
  }

  // ----- printing -----

  predicate StartsBefore(a: Mention, b: Mention) {
    a.begin < b.begin || (a.begin == b.begin && a.end >= b.end)
  }

  predicate EndsBefore(a: Mention, b: Mention) {
    a.end < b.end || (a.end == b.end && a.begin >= b.begin)
  }

  // Mentions by their begin, longer ones first.
  ghost predicate ByStart(ms: seq<Mention>) {
    forall i, j :: 0 <= i < j < |ms| ==> StartsBefore(ms[i], ms[j])
  }

  // Mentions by their end, shorter ones first.
  ghost predicate ByEnd(ms: seq<Mention>) {
    forall i, j :: 0 <= i < j < |ms| ==> EndsBefore(ms[i], ms[j])
  }

  // The brackets of the mentions that start at a position; empty mentions are not printed.
  function Opens(starts: seq<Mention>, pos: nat): seq<byte> {
    if starts == [] then []
    else if starts[0].begin == pos && !IsEmpty(starts[0]) then [OPEN] + Opens(starts[1..], pos)
    else Opens(starts[1..], pos)
  }

  // An anonymous frame is printed, another one is given by its id as it is.
  function Tag(h: Heap, f: nat, p: Printer): Output {
    if f >= |h| then Failure("no such frame")
    else if h[f].state.Anonymous? then PrintFrame(h, f, 0, [], p)
    else Success(Page(if FrameId(h[f]).Some? then FrameId(h[f]).value else [], p))
  }

  function Label(h: Heap, a: Option<Value>, p: Printer): Output {
    if a.None? || Falsy(a.value) then Success(Page([], p))
    else if a.value.Link? then Before([BAR], Tag(h, a.value.frame, p))
    else Failure("not a frame")
  }

  function MentionEnd(h: Heap, m: Mention, p: Printer): Output {
    Behind(Label(h, m.annotation, p), [CLOSE])
  }

  // The brackets and annotations of the mentions that end at a position.
  function Closes(h: Heap, ends: seq<Mention>, pos: nat, p: Printer): Output {
    if ends == [] then Success(Page([], p))
    else if ends[0].end == pos && !IsEmpty(ends[0]) then
      var one := MentionEnd(h, ends[0], p);
      if one.Failure? then one else Before(one.value.text, Closes(h, ends[1..], pos, one.value.printer))
    else Closes(h, ends[1..], pos, p)
  }

  // What is printed from a position on: starts before ends.
  function PrintFrom(h: Heap, text: seq<byte>, starts: seq<Mention>, ends: seq<Mention>, pos: nat, p: Printer): Output
    requires pos <= |text|
    decreases |text| - pos
  {
    var closes := Closes(h, ends, pos, p);
    if pos == |text| || closes.Failure? then closes
    else Before(Opens(starts, pos) + closes.value.text + [text[pos]],
                PrintFrom(h, text, starts, ends, pos + 1, closes.value.printer))
  }

  function PrintLex(h: Heap, text: seq<byte>, starts: seq<Mention>, ends: seq<Mention>): Output {
    PrintFrom(h, text, starts, ends, 0, Fresh())
  }
}
