/**
  What LEX text means (app/lib/document.js:151-239): mentions with any number of annotations behind one bar, text
  without brackets, and the brackets themselves.
 */
module LexNotes {
  import opened Common
  import opened SlingGraph
  import opened SlingLexis
  import opened SlingText
  import opened SlingTextLimits
  import opened SlingWords
  import opened LexEscape
  import opened Lex

  // ----- several annotations behind one bar -----

  // Symbols with spaces between them.
  function Joined(ids: seq<seq<byte>>): seq<byte>
    requires ids != []
  {
    if |ids| == 1 then SymbolText(ids[0]) else SymbolText(ids[0]) + [32] + Joined(ids[1..])
  }

  // A store that goes on from another: what is known stays, and new frames are proxies for new ids.
  ghost predicate Further(s: Shelf, s': Shelf) {
    && |s.heap| <= |s'.heap| && s'.heap[..|s.heap|] == s.heap && s'.refs == s.refs
    && (forall id :: id in s.names ==> id in s'.names && s'.names[id] == s.names[id])
    && forall id :: id in s'.names && id !in s.names ==>
         && |s.heap| <= s'.names[id] < |s'.heap|
         && s'.heap[s'.names[id]] == Frame(Proxy, Some([Slot(Link(ID), Text(id))]))
  }

  lemma FurtherTwice(a: Shelf, b: Shelf, c: Shelf)
    requires Further(a, b) && Further(b, c)
    ensures Further(a, c)
  {
    assert a.heap == b.heap[..|a.heap|] == c.heap[..|b.heap|][..|a.heap|] == c.heap[..|a.heap|];
    forall id | id in c.names && id !in a.names
      ensures |a.heap| <= c.names[id] < |c.heap|
      ensures c.heap[c.names[id]] == Frame(Proxy, Some([Slot(Link(ID), Text(id))]))
    {
      if id in b.names {
        assert c.heap[..|b.heap|][c.names[id]] == b.heap[c.names[id]];
      }
    }
  }

  lemma FoundFurther(s: Shelf, id: seq<byte>)
    ensures Further(s, Find(s, id).0) && id in Find(s, id).0.names && Find(s, id).0.names[id] == Find(s, id).1
  {
  }

  // The values are links to the frames with the ids.
  ghost predicate Named(s: Shelf, ids: seq<seq<byte>>, values: seq<Value>) {
    |values| == |ids| && forall i :: 0 <= i < |ids| ==> ids[i] in s.names && values[i] == Link(s.names[ids[i]])
  }

  // A symbol ends where a space or a bracket follows, and the text goes on with a token.
  lemma SymbolRead(id: seq<byte>, t: seq<byte>, s: Shelf)
    requires !Keyword(id) && Delimits(t) && !Scan(t).token.Bad?
    ensures Parse(Scan(SymbolText(id) + t), s) == Success(Parsed(Link(Find(s, id).1), Scan(t), Find(s, id).0))
  {
    hide Parse, Scan, SymbolText;
    SymbolExact(id, t, s);
  }

  // One more annotation, and the last one.
  lemma NotesMore(k: Here, s: Shelf, v: Value, here: Here, s1: Shelf, more: seq<Value>, t: seq<byte>, s': Shelf)
    requires Parse(k, s) == Success(Parsed(v, here, s1)) && !Last(here)
    requires ReadNotes(here, s1) == Some(Notes(more, t, s')) && here.Size() < k.Size()
    ensures ReadNotes(k, s) == Some(Notes([v] + more, t, s'))
  {
    hide Parse;
  }

  lemma NotesEnd(k: Here, s: Shelf, v: Value, here: Here, s1: Shelf)
    requires Parse(k, s) == Success(Parsed(v, here, s1)) && Last(here) && !here.token.End?
    ensures ReadNotes(k, s) == Some(Notes([v], here.rest, s1))
  {
    hide Parse;
  }

  lemma {:induction false} NotesRead(ids: seq<seq<byte>>, t: seq<byte>, s: Shelf)
    returns (values: seq<Value>, s': Shelf)
    requires ids != [] && forall i :: 0 <= i < |ids| ==> !Keyword(ids[i])
    ensures ReadNotes(Scan(Joined(ids) + [CLOSE] + t), s) == Some(Notes(values, t, s'))
    ensures Named(s', ids, values) && Further(s, s')
    ensures var k := Scan([32] + Joined(ids) + [CLOSE] + t);
            k == Scan(Joined(ids) + [CLOSE] + t) && k.token.Symbol? && k.rest != []
    decreases |ids|
  {
    hide Parse, Scan, SymbolText, Further, Joined, ReadNotes, Find, Named;
    var id := ids[0];
    var s1, v := Find(s, id).0, Link(Find(s, id).1);
    FoundFurther(s, id);
    JoinedIs(ids, t);
    var k := Scan(Joined(ids) + [CLOSE] + t);
    if |ids| == 1 {
      LexMark(CLOSE, t);
      SymbolRead(id, [CLOSE] + t, s);
      SymbolToken(id, [CLOSE] + t);
      NotesEnd(k, s, v, Here(Mark(CLOSE), t), s1);
      NamedOne(ids, s1, v);
      values, s' := [v], s1;
    } else {
      var rest := Joined(ids[1..]) + [CLOSE] + t;
      var more;
      more, s' := NotesRead(ids[1..], t, s1);
      assert [32] + Joined(ids[1..]) + [CLOSE] + t == [32] + rest;
      SymbolRead(id, [32] + rest, s);
      SymbolToken(id, [32] + rest);
      NotesMore(k, s, v, Scan([32] + rest), s1, more, t, s');
      FurtherTwice(s, s1, s');
      Kept(s1, s', id);
      NamedMore(ids, s', v, more);
      values := [v] + more;
    }
  }

  lemma NamedOne(ids: seq<seq<byte>>, s: Shelf, v: Value)
    requires |ids| == 1 && ids[0] in s.names && v == Link(s.names[ids[0]])
    ensures Named(s, ids, [v])
  {
  }

  lemma NamedMore(ids: seq<seq<byte>>, s: Shelf, v: Value, more: seq<Value>)
    requires ids != [] && ids[0] in s.names && v == Link(s.names[ids[0]]) && Named(s, ids[1..], more)
    ensures Named(s, ids, [v] + more)
  {
    forall i | 0 <= i < |ids|
      ensures ids[i] in s.names && ([v] + more)[i] == Link(s.names[ids[i]])
    {
      if i > 0 {
        assert ids[1..][i - 1] == ids[i];
      }
    }
  }

  lemma Kept(s: Shelf, s': Shelf, id: seq<byte>)
    requires Further(s, s') && id in s.names
    ensures id in s'.names && s'.names[id] == s.names[id]
  {
  }

  // The first symbol and what comes after it.
  lemma JoinedIs(ids: seq<seq<byte>>, t: seq<byte>)
    requires ids != []
    ensures |ids| == 1 ==> Joined(ids) + [CLOSE] + t == SymbolText(ids[0]) + ([CLOSE] + t)
    ensures |ids| > 1 ==>
              Joined(ids) + [CLOSE] + t == SymbolText(ids[0]) + ([32] + (Joined(ids[1..]) + [CLOSE] + t))
    ensures Scan([32] + Joined(ids) + [CLOSE] + t) == Scan(Joined(ids) + [CLOSE] + t)
  {
    hide *;
    JoinedParts(ids);
    SpaceSkipped(Joined(ids) + [CLOSE] + t);
    assert [32] + (Joined(ids) + [CLOSE] + t) == [32] + Joined(ids) + [CLOSE] + t;
    if |ids| > 1 {
      Regroup(SymbolText(ids[0]), [32], Joined(ids[1..]), [CLOSE], t);
    } else {
      Regroup(SymbolText(ids[0]), [], [], [CLOSE], t);
      assert SymbolText(ids[0]) + [] + [] == SymbolText(ids[0]) && [] + ([] + [CLOSE] + t) == [CLOSE] + t;
    }
  }

  lemma Regroup(a: seq<byte>, b: seq<byte>, c: seq<byte>, d: seq<byte>, e: seq<byte>)
    ensures a + b + c + d + e == a + (b + (c + d + e))
  {
  }

  lemma SpaceSkipped(t: seq<byte>)
    ensures Scan([32] + t) == Scan(t)
  {
    hide Scan;
    SkipSpaces([32], t);
  }

  lemma JoinedParts(ids: seq<seq<byte>>)
    requires ids != []
    ensures Joined(ids) == if |ids| == 1 then SymbolText(ids[0]) else SymbolText(ids[0]) + [32] + Joined(ids[1..])
  {
    hide SymbolText;
  }

  lemma SymbolToken(id: seq<byte>, t: seq<byte>)
    requires !Keyword(id) && Delimits(t)
    ensures Scan(SymbolText(id) + t) == Here(Symbol(id), t)
  {
    hide Scan, SymbolText;
    LexSymbol(id, t);
  }

  // Text without a character that LEX gives a meaning to.
  predicate NoMarks(text: seq<byte>) {
    forall c :: c in text ==> c !in {OPEN, CLOSE, BAR, BRACE}
  }

  lemma {:induction false} TextRead(text: seq<byte>, t: seq<byte>, st: Progress)
    requires NoMarks(text)
    ensures ReadFrom(text + t, st) == ReadFrom(t, st.(text := st.text + text))
    decreases |text|
  {
    hide ReadAnnotations;
    if text == [] {
      assert text + t == t && st.text + text == st.text;
    } else {
      var rest := text[1..];
      assert text[0] in text && (forall c :: c in rest ==> c in text);
      assert (text + t)[1..] == rest + t;
      TextRead(rest, t, st.(text := st.text + [text[0]]));
      assert st.text + [text[0]] + rest == st.text + text;
    }
  }

  // A mention with annotations, anywhere in a document.
  lemma MentionRead(text: seq<byte>, ids: seq<seq<byte>>, t: seq<byte>, st: Progress)
    returns (st': Progress, found: seq<Mention>)
    requires NoMarks(text) && ids != [] && forall i :: 0 <= i < |ids| ==> !Keyword(ids[i])
    ensures ReadFrom([OPEN] + text + [BAR] + Joined(ids) + [CLOSE] + t, st) == ReadFrom(t, st')
    ensures st'.text == st.text + text && st'.stack == st.stack && st'.mentions == st.mentions + found
    ensures Further(st.shelf, st'.shelf) && |found| == |ids|
    ensures forall i :: 0 <= i < |ids| ==>
              && ids[i] in st'.shelf.names
              && found[i] == Mention(|st.text|, |st.text| + |text|, Some(Link(st'.shelf.names[ids[i]])))
  {
    hide ReadFrom, Joined, Further, ReadNotes, Scan;
    var notes := Joined(ids) + [CLOSE] + t;
    var open := Progress(st.text, st.stack + [|st.text|], st.mentions, st.shelf);
    var full := open.(text := st.text + text);
    var whole, rest := [OPEN] + text + [BAR] + Joined(ids) + [CLOSE] + t, [BAR] + notes;
    assert whole == [OPEN] + (text + rest);
    assert whole[1..] == text + rest && rest[1..] == notes;
    OpenRead(whole, st);
    TextRead(text, rest, open);
    var values, s := NotesRead(ids, t, st.shelf);
    found := Annotated(|st.text|, |st.text| + |text|, values);
    assert full.Top() == |st.text| && full.Popped() == st.stack;
    SomeNotes(notes, st.shelf, values, t, s);
    BarRead(rest, full);
    st' := Progress(st.text + text, st.stack, st.mentions + found, s);
  }

  lemma SomeNotes(notes: seq<byte>, s: Shelf, values: seq<Value>, t: seq<byte>, s': Shelf)
    requires ReadNotes(Scan(notes), s) == Some(Notes(values, t, s'))
    ensures ReadAnnotations(notes, s) == Some(Notes(values, t, s'))
  {
    hide Scan;
    var k := Scan(notes);
    assert !k.token.Bad?;
  }

  lemma OpenRead(t: seq<byte>, st: Progress)
    requires t != [] && t[0] == OPEN
    ensures ReadFrom(t, st) == ReadFrom(t[1..], Progress(st.text, st.stack + [|st.text|], st.mentions, st.shelf))
  {
  }

  lemma BarRead(t: seq<byte>, st: Progress)
    requires t != [] && t[0] == BAR && st.stack != []
    ensures var a := ReadAnnotations(t[1..], st.shelf);
            a.Some? ==> ReadFrom(t, st) ==
                        ReadFrom(a.value.rest, Progress(st.text, st.Popped(),
                                                        st.mentions + Annotated(st.Top(), |st.text|, a.value.values),
                                                        a.value.shelf))
  {
    hide ReadAnnotations;
  }

  /** Reading text in brackets with n symbols behind the bar gives n mentions over the whole text, the i-th of them
      annotated with the frame of the i-th symbol, for every n. */
  lemma SeveralNotes(text: seq<byte>, ids: seq<seq<byte>>)
    requires NoMarks(text) && ids != [] && forall i :: 0 <= i < |ids| ==> !Keyword(ids[i])
    ensures var r := ReadLex([OPEN] + text + [BAR] + Joined(ids) + [CLOSE]);
            && r.Some? && r.value.0.text == text && |r.value.0.mentions| == |ids| && Further(EmptyShelf(), r.value.1)
            && forall i :: 0 <= i < |ids| ==>
                 && ids[i] in r.value.1.names
                 && r.value.0.mentions[i] == Mention(0, |text|, Some(Link(r.value.1.names[ids[i]])))
  {
    hide ReadFrom, Joined, Further, EmptyShelf;
    var st, found := MentionRead(text, ids, [], Start());
    var lex := [OPEN] + text + [BAR] + Joined(ids) + [CLOSE];
    assert lex + [] == lex;
    NothingLeft(st);
    assert [] + text == text && [] + found == found;
  }

  lemma NothingLeft(st: Progress)
    ensures ReadFrom([], st) == Some(st)
  {
  }

  // ----- text and brackets -----

  /** The characters with a meaning. */
  lemma Signs()
    ensures [OPEN, CLOSE, BAR, BRACE, UNBRACE] == Bytes("[]|{}")
    ensures [AMP, HASH, SEMI, LT, GT] == Bytes("&#;<>")
  {
  }

  /** Outside of brackets, closing brackets and bars are text, and so are closing braces; an opening bracket that is not
      closed leaves no mention. */
  lemma PlainRead(a: seq<byte>, b: seq<byte>)
    requires OPEN !in a && BRACE !in a && NoMarks(b)
    ensures var r := ReadLex(a); r.Some? && r.value.0 == Document(a, [])
    ensures var r := ReadLex(a + [OPEN] + b); r.Some? && r.value.0 == Document(a + b, [])
  {
    hide ReadFrom, EmptyShelf;
    OutsideRead(a, [], Start());
    OutsideRead(a, [OPEN] + b, Start());
    var st := Progress(a, [], [], EmptyShelf());
    assert a + [] == a && [] + a == a && a + ([OPEN] + b) == a + [OPEN] + b;
    NothingLeft(st);
    OpenRead([OPEN] + b, st);
    assert ([OPEN] + b)[1..] == b == b + [];
    TextRead(b, [], st.(stack := [] + [|a|]));
    NothingLeft(Progress(a + b, [] + [|a|], [], EmptyShelf()));
  }

  lemma {:induction false} OutsideRead(a: seq<byte>, t: seq<byte>, st: Progress)
    requires OPEN !in a && BRACE !in a && st.stack == []
    ensures ReadFrom(a + t, st) == ReadFrom(t, st.(text := st.text + a))
    decreases |a|
  {
    hide ReadAnnotations;
    if a == [] {
      assert a + t == t && st.text + a == st.text;
    } else {
      assert a[0] in a && (forall c :: c in a[1..] ==> c in a);
      assert (a + t)[1..] == a[1..] + t;
      OutsideRead(a[1..], t, st.(text := st.text + [a[0]]));
      assert st.text + [a[0]] + a[1..] == st.text + a;
    }
  }

  /** A theme, which begins with a brace, is not read. */
  lemma ThemeRead(a: seq<byte>, t: seq<byte>)
    requires OPEN !in a && BRACE !in a
    ensures ReadLex(a + [BRACE] + t) == None
  {
    hide EmptyShelf;
    OutsideRead(a, [BRACE] + t, Start());
    assert a + ([BRACE] + t) == a + [BRACE] + t;
  }

  /** Mentions inside each other: the inner one is closed first, and neither has an annotation. */
  lemma NestedRead(a: seq<byte>, b: seq<byte>, c: seq<byte>)
    requires NoMarks(a) && NoMarks(b) && NoMarks(c)
    ensures var r := ReadLex([OPEN] + a + [OPEN] + b + [CLOSE] + c + [CLOSE]);
            && r.Some?
            && r.value.0 == Document(a + b + c, [Mention(|a|, |a| + |b|, None), Mention(0, |a| + |b| + |c|, None)])
  {
    hide ReadFrom, EmptyShelf;
    var t3 := [CLOSE];
    var t2 := [CLOSE] + (c + t3);
    var t1 := [OPEN] + (b + t2);
    var t0 := [OPEN] + (a + t1);
    assert t0 == [OPEN] + a + [OPEN] + b + [CLOSE] + c + [CLOSE];
    assert t0[1..] == a + t1 && t1[1..] == b + t2 && t2[1..] == c + t3 && t3[1..] == [];
    var e := EmptyShelf();
    assert [] + [|Start().text|] == [0] && [0] + [|a|] == [0, |a|] && [] + a == a;
    OpenRead(t0, Start());
    TextRead(a, t1, Progress([], [0], [], e));
    OpenRead(t1, Progress(a, [0], [], e));
    TextRead(b, t2, Progress(a, [0, |a|], [], e));
    var inner, outer := Mention(|a|, |a| + |b|, None), Mention(0, |a| + |b| + |c|, None);
    CloseRead(t2, Progress(a + b, [0, |a|], [], e));
    assert [0, |a|][..1] == [0] && [] + [inner] == [inner] && [inner] + [outer] == [inner, outer];
    TextRead(c, t3, Progress(a + b, [0], [inner], e));
    CloseRead(t3, Progress(a + b + c, [0], [inner], e));
    assert [0][..0] == [];
    NothingLeft(Progress(a + b + c, [], [inner, outer], e));
  }

  lemma CloseRead(t: seq<byte>, st: Progress)
    requires t != [] && t[0] == CLOSE && st.stack != []
    ensures ReadFrom(t, st) ==
            ReadFrom(t[1..], Progress(st.text, st.stack[..|st.stack| - 1],
                                      st.mentions + [Mention(st.stack[|st.stack| - 1], |st.text|, None)], st.shelf))
  {
  }

  /** A symbol that ends the input is lost when another annotation comes before it, because the reader has looked at it
      already; a single one is kept. */
  lemma LastSymbol(a: seq<byte>, b: seq<byte>, s: Shelf)
    requires PlainName(a) && PlainName(b) && !Keyword(a) && !Keyword(b)
    ensures ReadAnnotations(a + [32] + b, s) == Some(Notes([Link(Find(s, a).1)], [], Find(s, a).0))
    ensures ReadAnnotations(a, s) == Some(Notes([Link(Find(s, a).1)], [], Find(s, a).0))
  {
    hide Find;
    NameAtEnd(a);
    NameAtEnd(b);
    SpaceSkipped(b);
    assert SymbolText(a) == a && a + [32] + b == a + ([32] + b);
    SymbolToken(a, [32] + b);
    ParsedName(a, Scan(a).rest, s);
    ParsedName(a, [32] + b, s);
  }

  lemma NameAtEnd(w: seq<byte>)
    requires PlainName(w) && !Keyword(w)
    ensures Scan(w) == Here(Symbol(w), [])
  {
    NamesOnly(w);
    assert w[..|w|] == w && w[|w|..] == [];
  }

  lemma ParsedName(id: seq<byte>, rest: seq<byte>, s: Shelf)
    requires !Scan(rest).token.Bad?
    ensures Parse(Here(Symbol(id), rest), s) == Success(Parsed(Link(Find(s, id).1), Scan(rest), Find(s, id).0))
  {
    hide Scan;
  }

  // ----- printing -----

  /** What is printed before the closing bracket of a mention: nothing without an annotation or for one that counts as
      false; a bar and the id of a frame that has one; a bar and the frame itself for an anonymous one. Anything else
      cannot be printed. */
  lemma LabelPrinted(h: Heap, m: Mention, p: Printer)
    ensures m.annotation.None? || Falsy(m.annotation.value) ==> MentionEnd(h, m, p) == Success(Page(Bytes("]"), p))
    ensures m.annotation.Some? && !Falsy(m.annotation.value) && !m.annotation.value.Link? ==>
            MentionEnd(h, m, p).Failure?
    ensures m.annotation.Some? && m.annotation.value.Link? && m.annotation.value.frame < |h| ==>
              var f := m.annotation.value.frame;
              if !h[f].state.Anonymous? then
                MentionEnd(h, m, p) ==
                Success(Page(Bytes("|") + (if FrameId(h[f]).Some? then FrameId(h[f]).value else []) + Bytes("]"), p))
              else
                var o := PrintFrame(h, f, 0, [], p);
                && (o.Failure? ==> MentionEnd(h, m, p).Failure?)
                && (o.Success? ==>
                      MentionEnd(h, m, p) == Success(Page(Bytes("|") + o.value.text + Bytes("]"), o.value.printer)))
  {
    hide PrintFrame, FrameId;
    assert Bytes("]") == [CLOSE] && Bytes("|") == [BAR] && [] + [CLOSE] == [CLOSE];
  }

  /** Brackets open at the positions where mentions begin, and the text is printed in between: "a[b]c" is the text "abc"
      with a mention of its second character. */
  lemma SomeLex(h: Heap)
    ensures var m := Mention(1, 2, None);
            PrintLex(h, Bytes("abc"), [m], [m]) == Success(Page(Bytes("a[b]c"), Fresh()))
  {
    hide Closes, Opens, Fresh;
    var m, p := Mention(1, 2, None), Fresh();
    var text := Bytes("abc");
    assert text == [97, 98, 99] && Bytes("a[b]c") == [97, 91, 98, 93, 99];
    OneMention(h, m, 0, p);
    OneMention(h, m, 1, p);
    OneMention(h, m, 2, p);
    OneMention(h, m, 3, p);
    assert PrintFrom(h, text, [m], [m], 3, p) == Success(Page([], p));
    assert [] + [CLOSE] + [99] + [] == [93, 99];
    assert PrintFrom(h, text, [m], [m], 2, p) == Success(Page([93, 99], p));
    assert [OPEN] + [] + [98] + [93, 99] == [91, 98, 93, 99];
    assert PrintFrom(h, text, [m], [m], 1, p) == Success(Page([91, 98, 93, 99], p));
    assert [] + [] + [97] + [91, 98, 93, 99] == [97, 91, 98, 93, 99];
  }

  lemma OneMention(h: Heap, m: Mention, pos: nat, p: Printer)
    requires m == Mention(1, 2, None)
    ensures Opens([m], pos) == if pos == 1 then [OPEN] else []
    ensures Closes(h, [m], pos, p) == Success(Page(if pos == 2 then [CLOSE] else [], p))
  {
    assert [m][1..] == [] && [] + [CLOSE] == [CLOSE] && [CLOSE] + [] == [CLOSE] && [OPEN] + [] == [OPEN];
    assert Opens([], pos) == [] && Closes(h, [], pos, p) == Success(Page([], p));
  }
}
