/**
  Documents as the program reads and prints them (app/lib/document.js:151-239, 390-459): a reader that goes from
  characters to objects and back with a stack of open brackets, and a printer of annotations with two cursors over
  the sorted mentions.
 */
module LexDocument {
  import opened Common
  import opened Sorting
  import opened SlingGraph
  import opened SlingLexis
  import opened SlingText
  import opened SlingReader
  import opened SlingPrinter
  import opened LexEscape
  import opened Lex

  // ----- reading -----

  lemma {:induction false} EndIsLast(t: seq<byte>)
    ensures Scan(t).token.End? ==> Scan(t).rest == []
    decreases |t|
  {
    hide FirstToken;
    if t != [] {
      if IsSpace(t[0]) {
        EndIsLast(t[1..]);
      } else if t[0] == 59 {
        EndIsLast(t[1 + CommentLength(t[1..])..]);
      }
    }
  }

  // Where the input has ended there is nothing left.
  predicate Ended(k: Here) {
    k.token.End? ==> k.rest == []
  }

  lemma {:induction false} EndStays(k: Here, s: Shelf)
    requires Ended(k)
    ensures Parse(k, s).Success? ==> Ended(Parse(k, s).value.here)
    decreases k.Size(), 0
  {
    hide Scan, ParseElements, ParseSlots, Finish;
    EndIsLast(k.rest);
    if !k.token.End? && Go(k).Success? {
      match k.token
      case Str(text) => QualifierEnd(Go(k).value, text, s);
      case Mark(c) =>
        if c == 123 {
          FrameEnd(Go(k).value, s);
        } else if c == 91 {
          ArrayEnd(Go(k).value, s);
        }
      case _ =>
    }
  }

  lemma {:induction false} QualifierEnd(k: Here, text: seq<byte>, s: Shelf)
    requires Ended(k)
    ensures ParseQualifier(k, text, s).Success? ==> Ended(ParseQualifier(k, text, s).value.here)
    decreases k.Size(), 1
  {
    hide Scan, Parse;
    if k.token == Mark(64) && Go(k).Success? {
      EndIsLast(k.rest);
      EndStays(Go(k).value, s);
    }
  }

  lemma FrameEnd(k: Here, s: Shelf)
    ensures ParseFrame(k, s).Success? ==> Ended(ParseFrame(k, s).value.here)
  {
    hide Scan, ParseSlots, Finish;
    var got := ParseSlots(k, Slots([], None, None, k, s));
    if got.Success? {
      EndIsLast(got.value.here.rest);
    }
  }

  lemma ArrayEnd(k: Here, s: Shelf)
    ensures ParseArray(k, s).Success? ==> Ended(ParseArray(k, s).value.here)
  {
    hide Scan, ParseElements;
    var es := ParseElements(k, s);
    if es.Success? {
      EndIsLast(es.value.1.rest);
    }
  }

  // Reading one annotation after others.
  function More(values: seq<Value>, r: Option<Notes>): Option<Notes> {
    if r.None? then None else Some(r.value.(values := values + r.value.values))
  }

  lemma MoreNothing(r: Option<Notes>)
    ensures More([], r) == r
  {
    assert r.Some? ==> [] + r.value.values == r.value.values;
  }

  lemma NotesStep(values: seq<Value>, k: Here, s: Shelf)
    requires Ended(k)
    ensures var whole, one := More(values, ReadNotes(k, s)), Parse(k, s);
            if one.Failure? then whole == None
            else if one.value.here.token == Mark(CLOSE) || one.value.here.rest == [] then
              whole == Some(Notes(values + [one.value.value], one.value.here.rest, one.value.shelf))
            else whole == More(values + [one.value.value], ReadNotes(one.value.here, one.value.shelf))
    ensures var one := Parse(k, s); one.Success? ==>
                                    Ended(one.value.here) && (one.value.here.rest != [] ==>
                                                              one.value.here.Size() < k.Size())
  {
    hide Parse;
    EndStays(k, s);
    var one := Parse(k, s);
    if one.Success? && !Last(one.value.here) {
      ParseAdvances(k, s);
      var more := ReadNotes(one.value.here, one.value.shelf);
      if more.Some? {
        assert values + ([one.value.value] + more.value.values) == values + [one.value.value] + more.value.values;
      }
    }
    ParseAdvances(k, s);
  }

  lemma ParseAdvances(k: Here, s: Shelf)
    requires Ended(k)
    ensures Parse(k, s).Success? && Parse(k, s).value.here.rest != [] ==> Parse(k, s).value.here.Size() < k.Size()
  {
  }

  /** The annotations of a mention, from the character after its bar on. */
  method ReadMentionNotes(reader: Reader, begin: nat, end: nat) returns (r: Option<seq<Mention>>)
    requires reader.Valid()
    modifies reader
    ensures reader.Valid()
    ensures match ReadAnnotations(old(reader.Rest()), old(reader.State()))
            case Some(a) => r == Some(Annotated(begin, end, a.values)) && reader.Rest() == a.rest
                            && reader.State() == a.shelf
            case None => r == None
  {
    hide Parse, Scan, ReadNotes;
    ghost var t := reader.Rest();
    var fault := reader.Next();
    if fault.Some? {
      return None;
    }
    EndIsLast(t);
    ghost var k, s := reader.Current(), reader.State();
    ghost var values: seq<Value> := [];
    var found: seq<Mention> := [];
    MoreNothing(ReadNotes(k, s));
    while true
      invariant reader.Valid() && Ended(reader.Current()) && found == Annotated(begin, end, values)
      invariant More(values, ReadNotes(reader.Current(), reader.State())) == ReadNotes(k, s)
      decreases reader.Current().Size()
    {
      NotesStep(values, reader.Current(), reader.State());
      var v := reader.Object();
      if v.Failure? {
        return None;
      }
      assert Annotated(begin, end, values + [v.value]) == found + [Mention(begin, end, Note(v.value))];
      values := values + [v.value];
      found := found + [Mention(begin, end, Note(v.value))];
      if reader.token == Mark(CLOSE) || reader.ch == -1 {
        return Some(found);
      }
    }
  }

  lemma StepOpen(t: seq<byte>, st: Progress)
    requires t != [] && t[0] == OPEN
    ensures ReadFrom(t, st) == ReadFrom(t[1..], Progress(st.text, st.stack + [|st.text|], st.mentions, st.shelf))
  {
  }

  lemma StepBar(t: seq<byte>, st: Progress)
    requires t != [] && t[0] == BAR && st.stack != []
    ensures ReadFrom(t, st) == match ReadAnnotations(t[1..], st.shelf)
                               case None => None
                               case Some(a) =>
                                 var found := Annotated(st.Top(), |st.text|, a.values);
                                 ReadFrom(a.rest, Progress(st.text, st.Popped(), st.mentions + found, a.shelf))
  {
    hide ReadAnnotations;
  }

  lemma StepClose(t: seq<byte>, st: Progress)
    requires t != [] && t[0] == CLOSE && st.stack != []
    ensures ReadFrom(t, st) == ReadFrom(t[1..],
                                        Progress(st.text, st.Popped(), st.mentions +
                                                 [Mention(st.Top(), |st.text|, None)], st.shelf))
  {
  }

  lemma StepText(t: seq<byte>, st: Progress)
    requires t != [] && t[0] != OPEN && (st.stack != [] ==> t[0] != BAR && t[0] != CLOSE)
    ensures ReadFrom(t, st) == if t[0] == BRACE then None
            else ReadFrom(t[1..], Progress(st.text + [t[0]], st.stack, st.mentions, st.shelf))
  {
    hide ReadAnnotations;
  }

  lemma LexIs(lex: seq<byte>)
    ensures Start() == Progress([], [], [], EmptyShelf())
    ensures ReadLex(lex) == match ReadFrom(lex, Start())
                            case None => None
                            case Some(st) => Some((Document(st.text, st.mentions), st.shelf))
  {
    hide ReadFrom, EmptyShelf;
  }

  lemma TopIs(st: Progress)
    requires st.stack != []
    ensures st.Top() == st.stack[|st.stack| - 1] && st.Popped() == st.stack[..|st.stack| - 1]
  {
  }

  // The annotated end of a mention, from its bar on.
  method ReadBarred(reader: Reader, begin: nat, end: nat, ghost st: Progress) returns (found: Option<seq<Mention>>)
    requires reader.Valid() && reader.ch == BAR && st.stack != [] && begin == st.Top() && end == |st.text|
    requires st.shelf == reader.State()
    modifies reader
    ensures reader.Valid()
    ensures var all := ReadFrom(old(reader.Rest()), st);
            if found.None? then all == None
            else |reader.Rest()| < |old(reader.Rest())|
                 && all == ReadFrom(reader.Rest(),
                                    Progress(st.text, st.Popped(), st.mentions + found.value, reader.State()))
  {
    hide ReadFrom, ReadAnnotations, Annotated;
    StepBar(reader.Rest(), st);
    reader.Read();
    found := ReadMentionNotes(reader, begin, end);
  }

  /** Reading LEX. */
  method ParseLex(lex: seq<byte>) returns (r: Option<(Document, Shelf)>)
    ensures r == ReadLex(lex)
  {
    hide *;
    LexIs(lex);
    var reader := new Reader(lex);
    var text: seq<byte>, stack: seq<nat>, mentions: seq<Mention> := [], [], [];
    while reader.ch != -1
      invariant fresh(reader) && reader.Valid()
      invariant ReadFrom(reader.Rest(), Progress(text, stack, mentions, reader.State())) == ReadFrom(lex, Start())
      decreases |reader.Rest()|
    {
      var ch := reader.ch;
      ghost var t, st := reader.Rest(), Progress(text, stack, mentions, reader.State());
      if ch == OPEN {
        StepOpen(t, st);
        stack := stack + [|text|];
        reader.Read();
      } else if ch == BAR && stack != [] {
        TopIs(st);
        var begin := stack[|stack| - 1];
        stack := stack[..|stack| - 1];
        var found := ReadBarred(reader, begin, |text|, st);
        if found.None? {
          return None;
        }
        mentions := mentions + found.value;
      } else if ch == CLOSE && stack != [] {
        StepClose(t, st);
        TopIs(st);
        mentions := mentions + [Mention(stack[|stack| - 1], |text|, None)];
        stack := stack[..|stack| - 1];
        reader.Read();
      } else if ch == BRACE {
        StepText(t, st);
        return None;
      } else {
        StepText(t, st);
        text := text + [ch];
        reader.Read();
      }
    }
    NothingLeft(Progress(text, stack, mentions, reader.State()));
    return Some((Document(text, mentions), reader.State()));
  }

  lemma NothingLeft(st: Progress)
    ensures ReadFrom([], st) == Some(st)
  {
  }

  // ----- sorting -----

  function ByStarts(): (Mention, Mention) -> bool {
    (a, b) => StartsBefore(a, b)
  }

  function ByEnds(): (Mention, Mention) -> bool {
    (a, b) => EndsBefore(a, b)
  }

  method SortMentions(ms: seq<Mention>) returns (starts: seq<Mention>, ends: seq<Mention>)
    ensures ByStart(starts) && ByEnd(ends) && multiset(starts) == multiset(ms) == multiset(ends)
  {
    starts := Sort(ms, ByStarts());
    ends := Sort(ms, ByEnds());
  }

  // ----- printing -----

  lemma {:induction false} OpensFrom(starts: seq<Mention>, pos: nat, i: nat)
    requires i <= |starts| && forall k :: 0 <= k < i ==> starts[k].begin != pos
    ensures Opens(starts, pos) == Opens(starts[i..], pos)
  {
    if i > 0 {
      OpensFrom(starts[1..], pos, i - 1);
      assert starts[1..][i - 1..] == starts[i..];
    } else {
      assert starts[i..] == starts;
    }
  }

  lemma {:induction false} ClosesFrom(h: Heap, ends: seq<Mention>, pos: nat, i: nat, p: SlingText.Printer)
    requires i <= |ends| && forall k :: 0 <= k < i ==> ends[k].end != pos
    ensures Closes(h, ends, pos, p) == Closes(h, ends[i..], pos, p)
  {
    hide MentionEnd;
    if i > 0 {
      ClosesFrom(h, ends[1..], pos, i - 1, p);
      assert ends[1..][i - 1..] == ends[i..];
    } else {
      assert ends[i..] == ends;
    }
  }

  // The cursors stand at the first mention that begins, and the first that ends, at or after a position.
  ghost predicate Cursors(starts: seq<Mention>, ends: seq<Mention>, si: nat, ei: nat, pos: nat) {
    && si <= |starts| && ei <= |ends|
    && (forall i :: 0 <= i < si ==> starts[i].begin < pos)
       && (forall i :: si <= i < |starts| ==> starts[i].begin >= pos)
    && (forall i :: 0 <= i < ei ==> ends[i].end < pos) && forall i :: ei <= i < |ends| ==> ends[i].end >= pos
  }

  // The brackets that open at a position.
  method PutOpens(starts: seq<Mention>, start: nat, pos: nat) returns (h: seq<byte>, si: nat)
    requires ByStart(starts) && start <= |starts|
    requires forall i :: 0 <= i < start ==> starts[i].begin < pos
    requires forall i :: start <= i < |starts| ==> starts[i].begin >= pos
    ensures h == Opens(starts, pos) && start <= si <= |starts|
    ensures forall i :: 0 <= i < si ==> starts[i].begin <= pos
    ensures forall i :: si <= i < |starts| ==> starts[i].begin > pos
  {
    h, si := [], start;
    OpensFrom(starts, pos, si);
    while si < |starts| && starts[si].begin == pos
      invariant start <= si <= |starts| && h + Opens(starts[si..], pos) == Opens(starts, pos)
      invariant forall i :: start <= i < si ==> starts[i].begin == pos
    {
      assert starts[si..][0] == starts[si] && starts[si..][1..] == starts[si + 1..];
      if !IsEmpty(starts[si]) {
        assert h + ([OPEN] + Opens(starts[si + 1..], pos)) == h + [OPEN] + Opens(starts[si + 1..], pos);
        h := h + [OPEN];
      }
      si := si + 1;
    }
    OpensFrom(starts[si..], pos, |starts| - si);
    assert starts[si..][|starts| - si..] == [];
    assert h + [] == h;
  }

  // A printer with nothing in its output.
  predicate Ready(printer: TextPrinter)
    reads printer
  {
    printer.output == [] && printer.level == 0 && printer.indent == []
  }

  // What has been put out, or not, and the state of the printer.
  predicate Put(printer: TextPrinter, spec: Output, text: Option<seq<byte>>)
    reads printer
  {
    text.Some? == spec.Success? && (spec.Success? ==>
                                    text.value == spec.value.text && printer.State() == spec.value.printer
                                    && Ready(printer))
  }

  // An annotation with its bar.
  method PutLabel(printer: TextPrinter, a: Option<Value>) returns (text: Option<seq<byte>>)
    requires Ready(printer)
    modifies printer
    ensures Put(printer, Label(printer.heap, a, old(printer.State())), text)
  {
    hide PrintFrame;
    if a.None? || Falsy(a.value) {
      return Some([]);
    }
    if !a.value.Link? || a.value.frame >= |printer.heap| {
      return None;
    }
    var f := a.value.frame;
    if printer.heap[f].state.Anonymous? {
      var ok := printer.WriteFrame(f);
      if !ok {
        return None;
      }
      var out := printer.Flush();
      return Some([BAR] + out);
    }
    var id := FrameId(printer.heap[f]);
    return Some([BAR] + if id.Some? then id.value else []);
  }

  lemma ClosesOne(h: Heap, ends: seq<Mention>, i: nat, pos: nat, p: SlingText.Printer, done: seq<byte>)
    requires i < |ends| && ends[i].end == pos
    ensures var whole, mark := Before(done, Closes(h, ends[i..], pos, p)), Label(h, ends[i].annotation, p);
            if IsEmpty(ends[i]) then whole == Before(done, Closes(h, ends[i + 1..], pos, p))
            else if mark.Failure? then whole.Failure?
            else whole == Before(done + mark.value.text + [CLOSE], Closes(h, ends[i + 1..], pos, mark.value.printer))
  {
    hide Label;
    assert ends[i..][0] == ends[i] && ends[i..][1..] == ends[i + 1..];
    var mark := Label(h, ends[i].annotation, p);
    if !IsEmpty(ends[i]) && mark.Success? {
      BeforeTwice(done, mark.value.text + [CLOSE], Closes(h, ends[i + 1..], pos, mark.value.printer));
      assert done + (mark.value.text + [CLOSE]) == done + mark.value.text + [CLOSE];
    }
  }

  lemma ClosesNone(h: Heap, ends: seq<Mention>, i: nat, pos: nat, p: SlingText.Printer, done: seq<byte>)
    requires i <= |ends| && forall k :: i <= k < |ends| ==> ends[k].end != pos
    ensures Before(done, Closes(h, ends[i..], pos, p)) == Success(Page(done, p))
  {
    ClosesFrom(h, ends[i..], pos, |ends| - i, p);
    assert ends[i..][|ends| - i..] == [];
    assert done + [] == done;
  }

  // The annotations and brackets of the mentions that end at a position.
  method PutCloses(printer: TextPrinter, ends: seq<Mention>, start: nat, pos: nat)
    returns (text: Option<seq<byte>>, ei: nat)
    requires Ready(printer) && ByEnd(ends) && start <= |ends|
    requires forall i :: 0 <= i < start ==> ends[i].end < pos
    requires forall i :: start <= i < |ends| ==> ends[i].end >= pos
    modifies printer
    ensures Put(printer, Closes(printer.heap, ends, pos, old(printer.State())), text)
    ensures start <= ei <= |ends| && forall i :: 0 <= i < ei ==> ends[i].end <= pos
    ensures text.Some? ==> forall i :: ei <= i < |ends| ==> ends[i].end > pos
  {
    hide Closes, Label;
    var h := [];
    ei := start;
    ClosesFrom(printer.heap, ends, pos, ei, printer.State());
    BeforeNothing(Closes(printer.heap, ends[ei..], pos, printer.State()));
    while ei < |ends| && ends[ei].end == pos
      invariant start <= ei <= |ends| && Ready(printer)
      invariant Before(h, Closes(printer.heap, ends[ei..], pos, printer.State())) ==
                Closes(printer.heap, ends, pos, old(printer.State()))
      invariant forall i :: start <= i < ei ==> ends[i].end == pos
    {
      ClosesOne(printer.heap, ends, ei, pos, printer.State(), h);
      if !IsEmpty(ends[ei]) {
        var mark := PutLabel(printer, ends[ei].annotation);
        if mark.None? {
          return None, ei;
        }
        h := h + mark.value + [CLOSE];
      }
      ei := ei + 1;
    }
    ClosesNone(printer.heap, ends, ei, pos, printer.State(), h);
    text := Some(h);
  }

  lemma PrintOne(h: Heap, text: seq<byte>, starts: seq<Mention>, ends: seq<Mention>, pos: nat, p: SlingText.Printer,
                 done: seq<byte>)
    requires pos < |text|
    ensures var whole, closes := Before(done, PrintFrom(h, text, starts, ends, pos, p)), Closes(h, ends, pos, p);
            if closes.Failure? then whole.Failure?
            else whole == Before(done + Opens(starts, pos) + closes.value.text + [text[pos]],
                                 PrintFrom(h, text, starts, ends, pos + 1, closes.value.printer))
  {
    hide Closes, Opens;
    var closes := Closes(h, ends, pos, p);
    if closes.Success? {
      var now := Opens(starts, pos) + closes.value.text + [text[pos]];
      BeforeTwice(done, now, PrintFrom(h, text, starts, ends, pos + 1, closes.value.printer));
      assert done + now == done + Opens(starts, pos) + closes.value.text + [text[pos]];
    }
  }

  lemma PrintEnd(h: Heap, text: seq<byte>, starts: seq<Mention>, ends: seq<Mention>, p: SlingText.Printer,
                 done: seq<byte>)
    ensures var whole, closes := Before(done, PrintFrom(h, text, starts, ends, |text|, p)), Closes(h, ends, |text|, p);
            if closes.Failure? then whole.Failure?
            else whole == Success(Page(done + closes.value.text, closes.value.printer))
  {
    hide Closes;
  }

  // All mentions that are left end at the end of the text.
  lemma LeftAtEnd(mentions: seq<Mention>, ends: seq<Mention>, ei: nat, size: nat)
    requires multiset(ends) == multiset(mentions) && ei <= |ends|
    requires forall i :: 0 <= i < |mentions| ==> mentions[i].end <= size
    ensures forall i :: 0 <= i < |ends| ==> ends[i].end <= size
  {
    forall i | 0 <= i < |ends| ensures ends[i].end <= size {
      assert ends[i] in multiset(ends);
      assert ends[i] in mentions;
    }
  }

  ghost predicate BothOrders(mentions: seq<Mention>, starts: seq<Mention>, ends: seq<Mention>) {
    ByStart(starts) && ByEnd(ends) && multiset(starts) == multiset(mentions) == multiset(ends)
  }

  predicate Prints(heap: Heap, text: seq<byte>, starts: seq<Mention>, ends: seq<Mention>, r: Option<seq<byte>>) {
    var o := PrintLex(heap, text, starts, ends);
    if o.Success? then r == Some(o.value.text) else r == None
  }

  /** Printing a document: the output is what the format prescribes for its mentions in both orders; it fails when
      an annotation is not a frame or cannot be printed. */
  method ToLex(heap: Heap, text: seq<byte>, mentions: seq<Mention>) returns (r: Option<seq<byte>>)
    requires forall i :: 0 <= i < |mentions| ==> mentions[i].begin <= mentions[i].end <= |text|
    ensures exists starts, ends :: BothOrders(mentions, starts, ends) && Prints(heap, text, starts, ends, r)
  {
    hide PrintFrom, Closes, Opens, ByStart, ByEnd;
    var printer := new TextPrinter(heap, []);
    var ss, es := SortMentions(mentions);
    assert BothOrders(mentions, ss, es);
    var from, pos, si, ei := 0, 0, 0, 0;
    var h: seq<byte> := [];
    BeforeNothing(PrintLex(heap, text, ss, es));
    assert h + text[from..pos] == [];
    while pos < |text|
      invariant 0 <= from <= pos <= |text| && Cursors(ss, es, si, ei, pos) && fresh(printer) && Ready(printer)
                && printer.heap == heap
      invariant Before(h + text[from..pos], PrintFrom(heap, text, ss, es, pos, printer.State())) ==
                PrintLex(heap, text, ss, es)
    {
      PrintOne(heap, text, ss, es, pos, printer.State(), h + text[from..pos]);
      var opens, closes;
      ghost var before := h + text[from..pos];
      opens, si := PutOpens(ss, si, pos);
      closes, ei := PutCloses(printer, es, ei, pos);
      if closes.None? {
        return None;
      }
      if opens + closes.value != [] {
        h := h + text[from..pos] + opens + closes.value;
        from := pos;
      }
      assert h + text[from..pos + 1] == before + opens + closes.value + [text[pos]];
      pos := pos + 1;
    }
    PrintEnd(heap, text, ss, es, printer.State(), h + text[from..pos]);
    h := h + text[from..];
    assert text[from..] == text[from..pos];
    LeftAtEnd(mentions, es, ei, |text|);
    var closes;
    closes, ei := PutCloses(printer, es, ei, |text|);
    if closes.None? {
      return None;
    }
    return Some(h + closes.value);
  }
}
