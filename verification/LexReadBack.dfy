/** What the reader makes of printed LEX, step by step, and the exact condition for getting back the mentions. */
module LexReadBack {
  import opened Common
  import opened SlingGraph
  import opened SlingLexis
  import opened SlingText
  import opened SlingTextGraph
  import opened SlingTextTrip
  import opened SlingTextIso
  import opened LexEscape
  import opened Lex
  import opened LexRoundTrip
  import opened LexTags

  // ----- reading the pieces -----

  lemma ReadOpen(rest: seq<byte>, st: Progress)
    ensures ReadFrom([OPEN] + rest, st) == ReadFrom(rest, st.(stack := st.stack + [|st.text|]))
  {
    assert ([OPEN] + rest)[0] == OPEN && ([OPEN] + rest)[1..] == rest;
  }

  lemma ReadChar(ch: byte, rest: seq<byte>, st: Progress)
    requires ch != OPEN && ch != BRACE && (st.stack != [] ==> ch != CLOSE && ch != BAR)
    ensures ReadFrom([ch] + rest, st) == ReadFrom(rest, st.(text := st.text + [ch]))
  {
    assert ([ch] + rest)[0] == ch && ([ch] + rest)[1..] == rest;
  }

  lemma ReadNothing(st: Progress)
    ensures ReadFrom([], st) == Some(st)
  {
  }

  lemma ReadClose(rest: seq<byte>, st: Progress)
    requires st.stack != []
    ensures ReadFrom([CLOSE] + rest, st) ==
            ReadFrom(rest, st.(stack := st.Popped(), mentions := st.mentions + [Mention(st.Top(), |st.text|, None)]))
  {
    assert ([CLOSE] + rest)[0] == CLOSE && ([CLOSE] + rest)[1..] == rest;
  }

  lemma ReadBar(t: seq<byte>, st: Progress, w: Value, rest: seq<byte>, s: Shelf)
    requires st.stack != [] && ReadAnnotations(t, st.shelf) == Some(Notes([w], rest, s)) && w != Undefined
    requires |rest| <= |t|
    ensures ReadFrom([BAR] + t, st) ==
            ReadFrom(rest, Progress(st.text, st.Popped(), st.mentions + [Mention(st.Top(), |st.text|, Some(w))], s))
  {
    hide ReadAnnotations;
    assert ([BAR] + t)[0] == BAR && ([BAR] + t)[1..] == t;
    assert Annotated(st.Top(), |st.text|, [w]) == [Mention(st.Top(), |st.text|, Some(w))];
  }

  lemma {:induction false} ReadOpens(starts: seq<Mention>, pos: nat, rest: seq<byte>, st: Progress)
    requires |st.text| == pos
    ensures ReadFrom(Opens(starts, pos) + rest, st) == ReadFrom(rest, st.(stack := st.stack + Begun(starts, pos)))
  {
    hide ReadFrom;
    if starts == [] {
      assert Opens(starts, pos) + rest == rest && st.stack + [] == st.stack;
    } else if starts[0].begin == pos && !IsEmpty(starts[0]) {
      var more := Opens(starts[1..], pos);
      assert [OPEN] + more + rest == [OPEN] + (more + rest);
      ReadOpen(more + rest, st);
      ReadOpens(starts[1..], pos, rest, st.(stack := st.stack + [pos]));
      assert st.stack + [pos] + Begun(starts[1..], pos) == st.stack + ([pos] + Begun(starts[1..], pos));
    } else {
      ReadOpens(starts[1..], pos, rest, st);
    }
  }

  // ----- closing mentions -----

  // An annotation that has been read, for one that was printed.
  ghost predicate GoodNote(c: Setting, y: Point, a: Option<Value>, b: Option<Value>) {
    a.Some? == b.Some?
    && (a.Some? ==> GoodValue(c, y, a.value, b.value) && a.value.Link? && a.value.frame < |c.h|
                    && (c.h[a.value.frame].state.Anonymous? ==> a.value.frame in y.p.refs))
  }

  ghost predicate GoodMention(c: Setting, y: Point, m: Mention, w: Mention) {
    m.begin == w.begin && m.end == w.end && GoodNote(c, y, m.annotation, w.annotation)
  }

  ghost predicate GoodMentions(c: Setting, y: Point, ms: seq<Mention>, found: seq<Mention>) {
    |found| == |ms| && forall i :: 0 <= i < |ms| ==> GoodMention(c, y, ms[i], found[i])
  }

  lemma GoodStays(c: Setting, x: Point, y: Point, ms: seq<Mention>, found: seq<Mention>)
    requires GoodMentions(c, x, ms, found) && Step(c, x, y)
    ensures GoodMentions(c, y, ms, found)
  {
    hide GoodValue, Sound;
    forall i | 0 <= i < |ms| ensures GoodMention(c, y, ms[i], found[i]) {
      if ms[i].annotation.Some? {
        GoodValueStays(c, x, y, ms[i].annotation.value, found[i].annotation.value);
      }
    }
  }

  lemma GoodJoin(c: Setting, y: Point, a: seq<Mention>, found: seq<Mention>, b: seq<Mention>, more: seq<Mention>)
    requires GoodMentions(c, y, a, found) && GoodMentions(c, y, b, more)
    ensures GoodMentions(c, y, a + b, found + more)
  {
    hide GoodMention;
  }

  ghost predicate AllTags(c: Setting, ms: seq<Mention>) {
    forall i :: 0 <= i < |ms| && ms[i].annotation.Some? ==> Tags(c, ms[i].annotation.value)
  }

  lemma NotFalsy(f: nat)
    ensures !Falsy(Link(f))
  {
  }

  // The end of a mention that is annotated.
  lemma EndText(h: Heap, m: Mention, p: Printer, rest: seq<byte>)
    requires m.annotation.Some? ==> m.annotation.value.Link? && Tag(h, m.annotation.value.frame, p).Success?
    ensures MentionEnd(h, m, p).Success?
    ensures var o := MentionEnd(h, m, p).value;
            if m.annotation.None? then o == Page([CLOSE], p)
            else
              var tag := Tag(h, m.annotation.value.frame, p).value;
              o.printer == tag.printer && o.text + rest == [BAR] + (tag.text + ([CLOSE] + rest))
  {
    hide Tag;
    if m.annotation.Some? {
      NotFalsy(m.annotation.value.frame);
      var tag := Tag(h, m.annotation.value.frame, p).value.text;
      assert [BAR] + tag + [CLOSE] + rest == [BAR] + (tag + ([CLOSE] + rest));
    }
  }

  // Closing one mention takes the last open bracket.
  lemma ReadEnd(c: Setting, m: Mention, rest: seq<byte>, st: Progress, x: Point) returns (y: Point, w: Mention)
    requires AtRest(c, x) && st.stack != [] && st.shelf == x.s && (m.annotation.Some? ==> Tags(c, m.annotation.value))
    ensures MentionEnd(c.h, m, x.p).Success? && y.p == MentionEnd(c.h, m, x.p).value.printer
    ensures ReadFrom(MentionEnd(c.h, m, x.p).value.text + rest, st) ==
            ReadFrom(rest, Progress(st.text, st.Popped(), st.mentions + [w], y.s))
    ensures w.begin == st.Top() && w.end == |st.text| && GoodNote(c, y, m.annotation, w.annotation)
    ensures AtRest(c, y) && Step(c, x, y)
  {
    hide ReadFrom, MentionEnd, Tag, ReadAnnotations, GoodValue, AtRest, Step;
    if m.annotation.None? {
      EndText(c.h, m, x.p, rest);
      ReadClose(rest, st);
      y, w := x, Mention(st.Top(), |st.text|, None);
      RestStill(c, x);
    } else {
      var f, v := m.annotation.value.frame, Undefined;
      y, v := ReadTag(c, f, rest, x);
      EndText(c.h, m, x.p, rest);
      var t := Tag(c.h, f, x.p).value.text + ([CLOSE] + rest);
      ReadBar(t, st, v, rest, y.s);
      w := Mention(st.Top(), |st.text|, Some(v));
    }
  }

  lemma RestLegal(c: Setting, x: Point)
    requires AtRest(c, x)
    ensures TextGraph(c.h)
  {
    hide TextGraph, Sound;
  }

  lemma RestStill(c: Setting, x: Point)
    requires AtRest(c, x)
    ensures Step(c, x, x)
  {
    hide Steady, Tracks;
  }

  // The first mention that is closed, and the others.
  lemma ClosesStep(h: Heap, ends: seq<Mention>, pos: nat, p: Printer, rest: seq<byte>)
    requires ends != [] && ends[0].end == pos && !IsEmpty(ends[0]) && MentionEnd(h, ends[0], p).Success?
    requires Closes(h, ends[1..], pos, MentionEnd(h, ends[0], p).value.printer).Success?
    ensures var one := MentionEnd(h, ends[0], p).value; var more := Closes(h, ends[1..], pos, one.printer).value;
            && Closes(h, ends, pos, p).Success? && Closes(h, ends, pos, p).value.printer == more.printer
            && Closes(h, ends, pos, p).value.text + rest == one.text + (more.text + rest)
  {
    hide MentionEnd;
  }

  // All annotations can be printed.
  lemma {:induction false} ClosesPrint(c: Setting, ends: seq<Mention>, pos: nat, p: Printer)
    requires TextGraph(c.h) && AllTags(c, ends)
    ensures Closes(c.h, ends, pos, p).Success?
  {
    hide MentionEnd, Tag, TextGraph;
    if ends != [] {
      assert forall k :: 0 <= k < |ends| - 1 ==> ends[1..][k] == ends[k + 1];
      if ends[0].annotation.Some? {
        TagPrints(c.h, ends[0].annotation.value.frame, p);
      }
      EndText(c.h, ends[0], p, []);
      ClosesPrint(c, ends[1..], pos, MentionEnd(c.h, ends[0], p).value.printer);
      ClosesPrint(c, ends[1..], pos, p);
    }
  }

  lemma TagPrints(h: Heap, f: nat, p: Printer)
    requires TextGraph(h) && f < |h|
    ensures Tag(h, f, p).Success?
  {
    hide PrintFrame, TextGraph;
    FramePrints(h, f, 0, [], p);
  }

  lemma StepFurther(c: Setting, x: Point, y: Point, z: Point)
    requires AtRest(c, x) && Step(c, x, y) && Step(c, y, z)
    ensures Step(c, x, z)
  {
    hide Step, Legal, Sound;
    Further(c, x, y, z);
  }

  // Closing all mentions that end at a position, when they were opened last in the opposite order.
  lemma {:induction false} ReadCloses(c: Setting, ends: seq<Mention>, pos: nat, rest: seq<byte>, base: seq<nat>,
                                      st: Progress, x: Point)
    returns (y: Point, found: seq<Mention>)
    requires AtRest(c, x) && AllTags(c, ends) && |st.text| == pos && st.shelf == x.s
    requires forall i :: 0 <= i < |ends| ==> ends[i].begin < ends[i].end
    requires st.stack == base + Reversed(BeginsOf(EndingAt(ends, pos)))
    ensures Closes(c.h, ends, pos, x.p).Success? && y.p == Closes(c.h, ends, pos, x.p).value.printer
    ensures ReadFrom(Closes(c.h, ends, pos, x.p).value.text + rest, st) ==
            ReadFrom(rest, Progress(st.text, base, st.mentions + found, y.s))
    ensures GoodMentions(c, y, EndingAt(ends, pos), found) && AtRest(c, y) && Step(c, x, y)
    decreases |ends|
  {
    hide ReadFrom, MentionEnd, AtRest, Step, GoodNote, Tags;
    if ends == [] {
      y, found := x, [];
      RestStill(c, x);
      assert [] + rest == rest && base + [] == base && st.mentions + [] == st.mentions;
    } else {
      var m, more := ends[0], ends[1..];
      assert forall i :: 0 <= i < |more| ==> more[i] == ends[i + 1];
      if m.end == pos {
        Unstack(base, ends, pos, st.stack);
        RestLegal(c, x);
        ClosesPrint(c, more, pos, MentionEndPrinter(c.h, m, x.p));
        var z, w := ReadEnd(c, m, Closes(c.h, more, pos, MentionEndPrinter(c.h, m, x.p)).value.text + rest, st, x);
        var st' := Progress(st.text, st.Popped(), st.mentions + [w], z.s);
        var tail;
        y, tail := ReadCloses(c, more, pos, rest, base, st', z);
        StepFurther(c, x, z, y);
        ClosesStep(c.h, ends, pos, x.p, rest);
        found := [w] + tail;
        assert st.mentions + [w] + tail == st.mentions + found;
        GoodStays(c, z, y, [m], [w]);
        GoodJoin(c, y, [m], [w], EndingAt(more, pos), tail);
      } else {
        y, found := ReadCloses(c, more, pos, rest, base, st, x);
      }
    }
  }

  function MentionEndPrinter(h: Heap, m: Mention, p: Printer): Printer {
    var o := MentionEnd(h, m, p);
    if o.Success? then o.value.printer else p
  }

  // The first mention that ends here was opened last.
  lemma Unstack(base: seq<nat>, ends: seq<Mention>, pos: nat, stack: seq<nat>)
    requires ends != [] && ends[0].end == pos && stack == base + Reversed(BeginsOf(EndingAt(ends, pos)))
    ensures stack != [] && stack[|stack| - 1] == ends[0].begin
    ensures stack[..|stack| - 1] == base + Reversed(BeginsOf(EndingAt(ends[1..], pos)))
  {
    var m, rest := ends[0], EndingAt(ends[1..], pos);
    assert ([m] + rest)[1..] == rest && BeginsOf([m] + rest) == [m.begin] + BeginsOf(rest);
    assert ([m.begin] + BeginsOf(rest))[1..] == BeginsOf(rest);
    assert stack == base + Reversed(BeginsOf(rest)) + [m.begin];
  }

  // ----- one position -----

  ghost predicate Printable(c: Setting, text: seq<byte>, starts: seq<Mention>, ends: seq<Mention>) {
    Clean(text) && Orders(starts, ends) && Fitting(c.h, text, ends) && AllTags(c, ends)
  }

  /** The reader's state before position pos: the mentions begun before it and not closed yet are on the stack,
      and those that end before it have been found. */
  ghost predicate StateAt(c: Setting, text: seq<byte>, starts: seq<Mention>, ends: seq<Mention>, pos: nat, x: Point,
                          st: Progress) {
    && pos <= |text| && AtRest(c, x) && st.text == text[..pos] && st.shelf == x.s
    && st.stack == Begins(starts, pos - 1, pos) && GoodMentions(c, x, EndingBefore(ends, pos), st.mentions)
  }

  // What is printed from a position on, if it can be printed.
  function TextFrom(h: Heap, text: seq<byte>, starts: seq<Mention>, ends: seq<Mention>, pos: nat, p: Printer): seq<byte>
    requires pos <= |text|
  {
    var o := PrintFrom(h, text, starts, ends, pos, p);
    if o.Success? then o.value.text else []
  }

  lemma {:induction false} AllPrint(c: Setting, text: seq<byte>, starts: seq<Mention>, ends: seq<Mention>, pos: nat,
                                    p: Printer)
    requires TextGraph(c.h) && AllTags(c, ends) && pos <= |text|
    ensures PrintFrom(c.h, text, starts, ends, pos, p).Success?
    decreases |text| - pos
  {
    hide Closes, TextGraph, AllTags, Opens;
    ClosesPrint(c, ends, pos, p);
    if pos < |text| {
      AllPrint(c, text, starts, ends, pos + 1, Closes(c.h, ends, pos, p).value.printer);
    }
  }

  // One position of the output.
  lemma PrintStep(c: Setting, text: seq<byte>, starts: seq<Mention>, ends: seq<Mention>, pos: nat, p: Printer)
    requires TextGraph(c.h) && AllTags(c, ends) && pos < |text|
    ensures Closes(c.h, ends, pos, p).Success?
    ensures var closes := Closes(c.h, ends, pos, p).value;
            TextFrom(c.h, text, starts, ends, pos, p) ==
            Opens(starts, pos) + (closes.text +
                                  ([text[pos]] + TextFrom(c.h, text, starts, ends, pos + 1, closes.printer)))
  {
    hide Closes, TextGraph, AllTags, Opens;
    ClosesPrint(c, ends, pos, p);
    AllPrint(c, text, starts, ends, pos, p);
    var closes := Closes(c.h, ends, pos, p).value;
    AllPrint(c, text, starts, ends, pos + 1, closes.printer);
    var d := TextFrom(c.h, text, starts, ends, pos + 1, closes.printer);
    assert Opens(starts, pos) + closes.text + [text[pos]] + d == Opens(starts, pos) + (closes.text + ([text[pos]] + d));
  }

  lemma StateNext(c: Setting, text: seq<byte>, starts: seq<Mention>, ends: seq<Mention>, pos: nat, x: Point,
                  st: Progress)
    returns (y: Point, st': Progress)
    requires Printable(c, text, starts, ends) && Laminar(ends) && pos < |text| && NoneBeginsAt(ends, pos)
    requires StateAt(c, text, starts, ends, pos, x, st)
    ensures StateAt(c, text, starts, ends, pos + 1, y, st')
    ensures ReadFrom(TextFrom(c.h, text, starts, ends, pos, x.p), st) ==
            ReadFrom(TextFrom(c.h, text, starts, ends, pos + 1, y.p), st')
  {
    hide ReadFrom, TextFrom, Closes, Opens, Begins, EndingBefore, EndingAt, Reversed, BeginsOf, Laminar, NoneBeginsAt,
         Begun, AtRest, Step,
      GoodMentions, AllTags, Orders, Clean, Fitting, Ascending;
    RestLegal(c, x);
    OrdersProper(starts, ends);
    PrintStep(c, text, starts, ends, pos, x.p);
    var closes := Closes(c.h, ends, pos, x.p).value;
    var tail := [text[pos]] + TextFrom(c.h, text, starts, ends, pos + 1, closes.printer);
    ReadOpens(starts, pos, closes.text + tail, st);
    OpenedStack(starts, pos);
    ClosedStack(starts, ends, pos, pos);
    var found;
    y, found := ReadCloses(c, ends, pos, tail, Begins(starts, pos, pos + 1), st.(stack := Begins(starts, pos, pos)), x);
    EndingNext(ends, pos);
    GoodStays(c, x, y, EndingBefore(ends, pos), st.mentions);
    GoodJoin(c, y, EndingBefore(ends, pos), st.mentions, EndingAt(ends, pos), found);
    CleanAt(text, pos);
    assert text[..pos] + [text[pos]] == text[..pos + 1];
    st' := Progress(text[..pos + 1], Begins(starts, pos, pos + 1), st.mentions + found, y.s);
    ReadChar(text[pos], TextFrom(c.h, text, starts, ends, pos + 1, y.p), st'.(text := text[..pos]));
  }

  lemma OrdersProper(starts: seq<Mention>, ends: seq<Mention>)
    requires Orders(starts, ends)
    ensures ByStart(starts) && ByEnd(ends)
    ensures (forall i :: 0 <= i < |starts| ==> starts[i].begin < starts[i].end) && forall i :: 0 <= i < |ends| ==>
            ends[i].begin < ends[i].end
  {
    hide ByStart, ByEnd;
  }

  lemma CleanAt(text: seq<byte>, pos: nat)
    requires Clean(text) && pos < |text|
    ensures text[pos] != OPEN && text[pos] != CLOSE && text[pos] != BAR && text[pos] != BRACE
  {
    assert text[pos] in text;
  }

  // The end of the text closes the mentions that are still open.
  lemma StateEnd(c: Setting, text: seq<byte>, starts: seq<Mention>, ends: seq<Mention>, x: Point, st: Progress)
    returns (y: Point, st': Progress)
    requires Printable(c, text, starts, ends) && Laminar(ends) && StateAt(c, text, starts, ends, |text|, x, st)
    ensures ReadFrom(TextFrom(c.h, text, starts, ends, |text|, x.p), st) == Some(st')
    ensures AtRest(c, y) && st'.text == text && st'.shelf == y.s && GoodMentions(c, y, ends, st'.mentions)
  {
    hide ReadFrom, Closes, Opens, Begins, EndingBefore, EndingAt, Reversed, BeginsOf, Laminar, NoneBeginsAt, Begun,
         AtRest, Step,
      GoodMentions, AllTags, Orders, Clean, Ascending, Tags, Taggable;
    var pos := |text|;
    RestLegal(c, x);
    OrdersProper(starts, ends);
    NothingBeginsAtEnd(c, text, starts, ends);
    ClosedStack(starts, ends, pos - 1, pos);
    var found;
    y, found := ReadCloses(c, ends, pos, [], Begins(starts, pos - 1, pos + 1), st, x);
    EndingNext(ends, pos);
    AllBefore(ends, pos + 1);
    GoodStays(c, x, y, EndingBefore(ends, pos), st.mentions);
    GoodJoin(c, y, EndingBefore(ends, pos), st.mentions, EndingAt(ends, pos), found);
    assert text[..pos] == text;
    st' := Progress(text, Begins(starts, pos - 1, pos + 1), st.mentions + found, y.s);
    ReadNothing(st');
    var closes := Closes(c.h, ends, pos, x.p).value.text;
    assert closes + [] == closes;
  }

  lemma NothingBeginsAtEnd(c: Setting, text: seq<byte>, starts: seq<Mention>, ends: seq<Mention>)
    requires Printable(c, text, starts, ends)
    ensures NoneBeginsAt(ends, |text|)
  {
    hide AllTags, Taggable, Clean;
  }

  lemma {:induction false} StateTo(c: Setting, text: seq<byte>, starts: seq<Mention>, ends: seq<Mention>, pos: nat)
    returns (y: Point, st: Progress)
    requires Printable(c, text, starts, ends) && Laminar(ends) && pos <= |text| && AtRest(c, Origin())
    requires forall p :: 0 <= p < pos ==> NoneBeginsAt(ends, p)
    ensures StateAt(c, text, starts, ends, pos, y, st)
    ensures ReadFrom(TextFrom(c.h, text, starts, ends, 0, Origin().p), Start()) ==
            ReadFrom(TextFrom(c.h, text, starts, ends, pos, y.p), st)
  {
    hide Printable, Laminar, AtRest, NoneBeginsAt, ReadFrom, TextFrom, GoodMention, Begins, EndingBefore;
    if pos == 0 {
      y, st := Origin(), Start();
      NothingYet(starts, ends);
      assert text[..0] == [];
    } else {
      y, st := StateTo(c, text, starts, ends, pos - 1);
      y, st := StateNext(c, text, starts, ends, pos - 1, y, st);
    }
  }

  lemma {:induction false} NothingYet(starts: seq<Mention>, ends: seq<Mention>)
    ensures Begins(starts, -1, 0) == [] && EndingBefore(ends, 0) == []
    decreases |starts| + |ends|
  {
    if starts != [] {
      NothingYet(starts[1..], []);
    }
    if ends != [] {
      NothingYet([], ends[1..]);
    }
  }

  /** Nested mentions of which none begins where another ends come back, in closing order, with their annotations. */
  lemma ReadBack(c: Setting, text: seq<byte>, starts: seq<Mention>, ends: seq<Mention>) returns (y: Point, st: Progress)
    requires Printable(c, text, starts, ends) && Laminar(ends) && NoneBeginsAtEnd(ends) && AtRest(c, Origin())
    ensures ReadFrom(TextFrom(c.h, text, starts, ends, 0, Fresh()), Start()) == Some(st)
    ensures AtRest(c, y) && st.text == text && st.shelf == y.s && GoodMentions(c, y, ends, st.mentions)
  {
    hide Printable, Laminar, AtRest, ReadFrom, TextFrom, GoodMentions, StateAt;
    assert forall p :: 0 <= p < |text| ==> NoneBeginsAt(ends, p);
    y, st := StateTo(c, text, starts, ends, |text|);
    y, st := StateEnd(c, text, starts, ends, y, st);
  }
}
