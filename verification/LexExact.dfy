/** The exact condition for getting back a document: what is read is nested, and no more than what was printed. */
module LexExact {
  import opened Common
  import opened SlingGraph
  import opened SlingLexis
  import opened SlingText
  import opened SlingTextGraph
  import opened SlingTextTrip
  import opened SlingTextIso
  import opened LexEscape
  import opened Lex
  import opened LexRoundTrip
  import opened LexTags
  import opened LexReadBack

  // ----- what is read is nested -----

  // The mentions found so far are nested in or clear of everything that is still open.
  ghost predicate Nested(size: nat, stack: seq<nat>, ms: seq<Mention>) {
    && Laminar(ms) && Ascending(stack)
    && (forall i :: 0 <= i < |stack| ==> stack[i] <= size)
    && (forall i :: 0 <= i < |ms| ==> ms[i].begin <= ms[i].end <= size)
    && forall i, k :: 0 <= i < |ms| && 0 <= k < |stack| ==> stack[k] <= ms[i].begin || ms[i].end <= stack[k]
  }

  lemma NestedClose(size: nat, stack: seq<nat>, ms: seq<Mention>, more: seq<Mention>)
    requires Nested(size, stack, ms) && stack != []
    requires forall i :: 0 <= i < |more| ==> more[i].begin == stack[|stack| - 1] && more[i].end == size
    ensures Nested(size, stack[..|stack| - 1], ms + more)
  {
    var b := stack[|stack| - 1];
    var all := ms + more;
    forall i, j | 0 <= i < |all| && 0 <= j < |all|
      ensures Apart(all[i], all[j])
    {
      if i < |ms| && j < |ms| {
      } else if i < |ms| {
        assert b <= ms[i].begin || ms[i].end <= b;
      } else if j < |ms| {
        assert b <= ms[j].begin || ms[j].end <= b;
      }
    }
  }

  lemma NestedGrows(size: nat, stack: seq<nat>, ms: seq<Mention>)
    requires Nested(size, stack, ms)
    ensures Nested(size + 1, stack, ms) && Nested(size, stack + [size], ms)
  {
  }

  ghost predicate NestedIn(st: Progress) {
    Nested(|st.text|, st.stack, st.mentions)
  }

  /** Whatever is read, its mentions are nested, and those found first stay. */
  lemma {:induction false} ReadLaminar(t: seq<byte>, st: Progress)
    requires NestedIn(st) && ReadFrom(t, st).Some?
    ensures Laminar(ReadFrom(t, st).value.mentions) && st.mentions <= ReadFrom(t, st).value.mentions
    decreases |t|
  {
    hide Nested, ReadAnnotations, Laminar;
    NestedIsLaminar(st);
    if t != [] {
      NestedGrows(|st.text|, st.stack, st.mentions);
      if t[0] == OPEN {
        ReadLaminar(t[1..], st.(stack := st.stack + [|st.text|]));
      } else if t[0] == BAR && st.stack != [] {
        var a := ReadAnnotations(t[1..], st.shelf).value;
        var more := Annotated(st.Top(), |st.text|, a.values);
        NestedClose(|st.text|, st.stack, st.mentions, more);
        ReadLaminar(a.rest, Progress(st.text, st.Popped(), st.mentions + more, a.shelf));
      } else if t[0] == CLOSE && st.stack != [] {
        var more := [Mention(st.Top(), |st.text|, None)];
        NestedClose(|st.text|, st.stack, st.mentions, more);
        ReadLaminar(t[1..], st.(stack := st.Popped(), mentions := st.mentions + more));
      } else {
        ReadLaminar(t[1..], st.(text := st.text + [t[0]]));
      }
    }
  }

  lemma NestedIsLaminar(st: Progress)
    ensures NestedIn(st) ==> Laminar(st.mentions)
  {
  }

  // ----- not more mentions are read than printed -----

  function PrintedFrom(ends: seq<Mention>, pos: nat): nat {
    if ends == [] then 0
    else if ends[0].end >= pos && !IsEmpty(ends[0]) then 1 + PrintedFrom(ends[1..], pos)
    else PrintedFrom(ends[1..], pos)
  }

  function PrintedAt(ends: seq<Mention>, pos: nat): nat {
    if ends == [] then 0
    else if ends[0].end == pos && !IsEmpty(ends[0]) then 1 + PrintedAt(ends[1..], pos) else PrintedAt(ends[1..], pos)
  }

  lemma {:induction false} PrintedStep(ends: seq<Mention>, pos: nat)
    ensures PrintedFrom(ends, pos) == PrintedAt(ends, pos) + PrintedFrom(ends, pos + 1)
  {
    if ends != [] {
      PrintedStep(ends[1..], pos);
    }
  }

  lemma {:induction false} PrintedAll(ends: seq<Mention>)
    ensures PrintedFrom(ends, 0) <= |ends|
    ensures PrintedFrom(ends, 0) == |ends| ==> AllNonEmpty(ends)
  {
    if ends != [] {
      PrintedAll(ends[1..]);
      assert forall i :: 0 < i < |ends| ==> ends[i] == ends[1..][i - 1];
    }
  }

  lemma {:induction false} SomeOpens(starts: seq<Mention>, pos: nat, rest: seq<byte>, st: Progress)
    returns (st': Progress)
    ensures ReadFrom(Opens(starts, pos) + rest, st) == ReadFrom(rest, st') && st' == st.(stack := st'.stack)
  {
    hide ReadFrom;
    if starts == [] {
      assert Opens(starts, pos) + rest == rest;
      st' := st;
    } else if starts[0].begin == pos && !IsEmpty(starts[0]) {
      var more := Opens(starts[1..], pos);
      assert [OPEN] + more + rest == [OPEN] + (more + rest);
      ReadOpen(more + rest, st);
      st' := SomeOpens(starts[1..], pos, rest, st.(stack := st.stack + [|st.text|]));
    } else {
      st' := SomeOpens(starts[1..], pos, rest, st);
    }
  }

  lemma {:induction false} ReadTexts(t: seq<byte>, rest: seq<byte>, st: Progress)
    requires st.stack == [] && forall i :: 0 <= i < |t| ==> t[i] != OPEN && t[i] != BRACE
    ensures ReadFrom(t + rest, st) == ReadFrom(rest, st.(text := st.text + t))
  {
    hide ReadFrom;
    if t == [] {
      assert t + rest == rest && st.text + t == st.text;
    } else {
      assert t + rest == [t[0]] + (t[1..] + rest);
      ReadChar(t[0], t[1..] + rest, st);
      ReadTexts(t[1..], rest, st.(text := st.text + [t[0]]));
      assert st.text + [t[0]] + t[1..] == st.text + t;
    }
  }

  lemma ThemeIsNone(rest: seq<byte>, st: Progress)
    ensures ReadFrom([BRACE] + rest, st) == None
  {
  }

  // The end of a mention where no bracket is open: text, or a theme.
  lemma StrayEnd(c: Setting, m: Mention, rest: seq<byte>, st: Progress, x: Point) returns (alive: bool, st': Progress)
    requires AtRest(c, x) && st.stack == [] && (m.annotation.Some? ==> Tags(c, m.annotation.value))
    requires MentionEnd(c.h, m, x.p).Success?
    ensures var o := MentionEnd(c.h, m, x.p).value;
            if alive then o.printer == x.p && ReadFrom(o.text + rest, st) == ReadFrom(rest, st')
            else ReadFrom(o.text + rest, st) == None
    ensures st' == st.(text := st'.text)
  {
    hide ReadFrom, MentionEnd, Tag, AtRest, DigitBytes;
    var o := MentionEnd(c.h, m, x.p).value;
    alive, st' := true, st.(text := st.text + o.text);
    if m.annotation.None? {
      EndText(c.h, m, x.p, rest);
      ReadTexts(o.text, rest, st);
    } else {
      var f := m.annotation.value.frame;
      RestLegal(c, x);
      TagPrints(c.h, f, x.p);
      var tag := Tag(c.h, f, x.p).value.text;
      EndText(c.h, m, x.p, rest);
      EndText(c.h, m, x.p, []);
      alive := TagBytes(c, f, x);
      if alive {
        assert o.text == [BAR] + (tag + [CLOSE]) by {
          assert o.text + [] == o.text && [CLOSE] + [] == [CLOSE];
        }
        ReadTexts(o.text, rest, st);
      } else {
        var more := tag[1..] + ([CLOSE] + rest);
        assert o.text + rest == [BAR] + ([BRACE] + more);
        ReadChar(BAR, [BRACE] + more, st);
        ThemeIsNone(more, st.(text := st.text + [BAR]));
      }
    }
  }

  // The text of an annotation: either a word, or the text of a frame.
  lemma TagBytes(c: Setting, f: nat, x: Point) returns (word: bool)
    requires AtRest(c, x) && Tags(c, Link(f)) && Tag(c.h, f, x.p).Success?
    ensures var o := Tag(c.h, f, x.p).value;
            if word then o.printer == x.p && forall i :: 0 <= i < |o.text| ==> o.text[i] != OPEN && o.text[i] != BRACE
            else o.text != [] && o.text[0] == BRACE
  {
    hide TextGraph, Steady, Tracks, DigitBytes, PrintSlots;
    word := !c.h[f].state.Anonymous? || f in x.p.refs;
    if !c.h[f].state.Anonymous? {
    } else if f in x.p.refs {
      PrintsReference(c.h, f, x.p);
      Indexed(c, f, x);
      assert forall i :: 0 <= i < |DigitBytes(x.p.refs[f].index)| ==> IsDigit(DigitBytes(x.p.refs[f].index)[i]);
    } else {
      FrameText(c, f, 0, [], x.p);
    }
  }

  lemma {:induction false} SomeCloses(c: Setting, ends: seq<Mention>, pos: nat, rest: seq<byte>, st: Progress, x: Point)
    returns (alive: bool, y: Point, st': Progress)
    requires AtRest(c, x) && AllTags(c, ends) && st.shelf == x.s
    ensures Closes(c.h, ends, pos, x.p).Success?
    ensures var o := Closes(c.h, ends, pos, x.p).value;
            if alive then y.p == o.printer && ReadFrom(o.text + rest, st) == ReadFrom(rest, st')
            else ReadFrom(o.text + rest, st) == None
    ensures AtRest(c, y) && st'.shelf == y.s && |st'.mentions| <= |st.mentions| + PrintedAt(ends, pos)
    decreases |ends|
  {
    hide ReadFrom, MentionEnd, AtRest, Step, GoodNote, Tags;
    alive, y, st' := true, x, st;
    RestLegal(c, x);
    ClosesPrint(c, ends, pos, x.p);
    if ends == [] {
      assert [] + rest == rest;
    } else {
      var m, more := ends[0], ends[1..];
      assert forall i :: 0 <= i < |more| ==> more[i] == ends[i + 1];
      if m.end == pos && !IsEmpty(m) {
        var p := MentionEndPrinter(c.h, m, x.p);
        ClosesPrint(c, more, pos, p);
        ClosesStep(c.h, ends, pos, x.p, rest);
        alive, y, st' := SomeEnd(c, m, Closes(c.h, more, pos, p).value.text + rest, st, x);
        if alive {
          alive, y, st' := SomeCloses(c, more, pos, rest, st', y);
        }
      } else {
        alive, y, st' := SomeCloses(c, more, pos, rest, st, x);
      }
    }
  }

  lemma SomeEnd(c: Setting, m: Mention, rest: seq<byte>, st: Progress, x: Point)
    returns (alive: bool, y: Point, st': Progress)
    requires AtRest(c, x) && st.shelf == x.s && (m.annotation.Some? ==> Tags(c, m.annotation.value))
    requires MentionEnd(c.h, m, x.p).Success?
    ensures var o := MentionEnd(c.h, m, x.p).value;
            if alive then y.p == o.printer && ReadFrom(o.text + rest, st) == ReadFrom(rest, st')
            else ReadFrom(o.text + rest, st) == None
    ensures AtRest(c, y) && st'.shelf == y.s && |st'.mentions| <= |st.mentions| + 1
  {
    hide ReadFrom, MentionEnd, AtRest, Step, GoodNote, Tags;
    if st.stack == [] {
      y := x;
      alive, st' := StrayEnd(c, m, rest, st, x);
    } else {
      var w;
      y, w := ReadEnd(c, m, rest, st, x);
      alive, st' := true, Progress(st.text, st.Popped(), st.mentions + [w], y.s);
    }
  }

  lemma {:induction false} PrintedBound(c: Setting, text: seq<byte>, starts: seq<Mention>, ends: seq<Mention>, pos: nat,
                                        st: Progress, x: Point)
    requires Clean(text) && AllTags(c, ends) && pos <= |text| && AtRest(c, x) && st.shelf == x.s
    ensures var r := ReadFrom(TextFrom(c.h, text, starts, ends, pos, x.p), st);
            r.Some? ==> |r.value.mentions| <= |st.mentions| + PrintedFrom(ends, pos)
    decreases |text| - pos
  {
    hide ReadFrom, Opens, Closes, AtRest, AllTags, Clean, TextFrom;
    PrintedStep(ends, pos);
    RestLegal(c, x);
    if pos == |text| {
      PrintedLast(c, text, starts, ends, x.p);
      var alive, y, st' := SomeCloses(c, ends, pos, [], st, x);
      ReadNothing(st');
    } else {
      PrintStep(c, text, starts, ends, pos, x.p);
      var closes := Closes(c.h, ends, pos, x.p).value;
      var rest := TextFrom(c.h, text, starts, ends, pos + 1, closes.printer);
      var begun := SomeOpens(starts, pos, closes.text + ([text[pos]] + rest), st);
      var alive, y, st' := SomeCloses(c, ends, pos, [text[pos]] + rest, begun, x);
      if alive {
        CleanAt(text, pos);
        ReadChar(text[pos], rest, st');
        PrintedBound(c, text, starts, ends, pos + 1, st'.(text := st'.text + [text[pos]]), y);
      }
    }
  }

  lemma PrintedLast(c: Setting, text: seq<byte>, starts: seq<Mention>, ends: seq<Mention>, p: Printer)
    requires TextGraph(c.h) && AllTags(c, ends)
    ensures Closes(c.h, ends, |text|, p).Success?
    ensures TextFrom(c.h, text, starts, ends, |text|, p) == Closes(c.h, ends, |text|, p).value.text + []
  {
    hide Closes, TextGraph, AllTags;
    ClosesPrint(c, ends, |text|, p);
  }

  // ----- where a mention begins at the end of another -----

  lemma {:induction false} FirstClose(c: Setting, ends: seq<Mention>, pos: nat, rest: seq<byte>, st: Progress, x: Point)
    returns (rest': seq<byte>, st': Progress, empty: Mention)
    requires AtRest(c, x) && AllTags(c, ends) && st.shelf == x.s && |st.text| == pos && st.stack != []
    requires st.Top() == pos
    requires exists i :: 0 <= i < |ends| && ends[i].end == pos
    requires forall i :: 0 <= i < |ends| ==> ends[i].begin < ends[i].end
    ensures Closes(c.h, ends, pos, x.p).Success?
    ensures ReadFrom(Closes(c.h, ends, pos, x.p).value.text + rest, st) == ReadFrom(rest', st')
    ensures st'.text == st.text && st'.stack == st.Popped() && st'.mentions == st.mentions + [empty]
    ensures empty.begin == empty.end == pos
    decreases |ends|
  {
    hide ReadFrom, MentionEnd, AtRest, Step, GoodNote, Tags;
    var i :| 0 <= i < |ends| && ends[i].end == pos;
    var m, more := ends[0], ends[1..];
    assert forall k :: 0 <= k < |more| ==> more[k] == ends[k + 1];
    RestLegal(c, x);
    ClosesPrint(c, ends, pos, x.p);
    if m.end == pos {
      var p := MentionEndPrinter(c.h, m, x.p);
      ClosesPrint(c, more, pos, p);
      rest' := Closes(c.h, more, pos, p).value.text + rest;
      ClosesStep(c.h, ends, pos, x.p, rest);
      var y, w := ReadEnd(c, m, rest', st, x);
      st', empty := Progress(st.text, st.Popped(), st.mentions + [w], y.s), w;
    } else {
      assert more[i - 1].end == pos;
      rest', st', empty := FirstClose(c, more, pos, rest, st, x);
    }
  }

  // The first mention that is closed where another begins is read as empty.
  lemma AbutStep(c: Setting, text: seq<byte>, starts: seq<Mention>, ends: seq<Mention>, pos: nat, x: Point,
                 st: Progress)
    returns (rest: seq<byte>, st': Progress)
    requires Printable(c, text, starts, ends) && Laminar(ends) && pos < |text| && !NoneBeginsAt(ends, pos)
    requires StateAt(c, text, starts, ends, pos, x, st)
    ensures ReadFrom(TextFrom(c.h, text, starts, ends, pos, x.p), st) == ReadFrom(rest, st') && NestedIn(st')
    ensures st'.mentions != [] && IsEmpty(st'.mentions[|st'.mentions| - 1])
  {
    hide ReadFrom, TextFrom, Opens, Closes, Begins, EndingBefore, Nested, Laminar, Begun, Clean, ByStart, ByEnd, AtRest,
         AllTags, GoodMentions, Fitting;
    RestLegal(c, x);
    PrintStep(c, text, starts, ends, pos, x.p);
    var closes := Closes(c.h, ends, pos, x.p).value;
    var tail := [text[pos]] + TextFrom(c.h, text, starts, ends, pos + 1, closes.printer);
    ReadOpens(starts, pos, closes.text + tail, st);
    BegunOnTop(starts, ends, pos, st.stack);
    OpenedStack(starts, pos);
    var begun := st.(stack := Begins(starts, pos, pos));
    var empty;
    rest, st', empty := FirstClose(c, ends, pos, tail, begun, x);
    FoundNested(c, text, starts, ends, pos, x, st.mentions);
    NestedClose(pos, begun.stack, st.mentions, [empty]);
  }

  lemma BegunOnTop(starts: seq<Mention>, ends: seq<Mention>, pos: nat, stack: seq<nat>)
    requires Orders(starts, ends) && !NoneBeginsAt(ends, pos)
    ensures var begun := stack + Begun(starts, pos); begun != [] && begun[|begun| - 1] == pos
    ensures exists i :: 0 <= i < |ends| && ends[i].end == pos
  {
    var i, j :| 0 <= i < |ends| && 0 <= j < |ends| && ends[i].begin == pos && ends[j].end == pos;
    var k := InBoth(ends, starts, i);
    BegunAll(starts, pos);
    var f := Begun(starts, pos);
    assert f[|f| - 1] in f;
  }

  lemma AbutReadsEmpty(c: Setting, text: seq<byte>, starts: seq<Mention>, ends: seq<Mention>, pos: nat)
    requires Printable(c, text, starts, ends) && Laminar(ends) && pos < |text| && !NoneBeginsAt(ends, pos)
    requires AtRest(c, Origin())
    requires forall p :: 0 <= p < pos ==> NoneBeginsAt(ends, p)
    ensures var r := ReadFrom(TextFrom(c.h, text, starts, ends, 0, Fresh()), Start()); r.Some? ==>
            !AllNonEmpty(r.value.mentions)
  {
    hide ReadFrom, TextFrom, Nested, Laminar, NoneBeginsAt, Printable, AtRest, StateAt;
    var x, st := StateTo(c, text, starts, ends, pos);
    var rest, st' := AbutStep(c, text, starts, ends, pos, x, st);
    var r := ReadFrom(rest, st');
    if r.Some? {
      ReadLaminar(rest, st');
      assert IsEmpty(r.value.mentions[|st'.mentions| - 1]);
    }
  }

  // A mention that was printed and ends before a position, for one that has been found.
  ghost predicate FoundAs(ends: seq<Mention>, pos: nat, m: Mention) {
    m.begin < m.end < pos && exists a :: 0 <= a < |ends| && ends[a].begin == m.begin && ends[a].end == m.end
  }

  ghost predicate OpenAs(ends: seq<Mention>, pos: nat, b: nat) {
    b <= pos && exists a :: 0 <= a < |ends| && ends[a].begin == b && pos <= ends[a].end
  }

  // The state that the reader reaches is nested.
  lemma FoundNested(c: Setting, text: seq<byte>, starts: seq<Mention>, ends: seq<Mention>, pos: nat, x: Point,
                    found: seq<Mention>)
    requires Orders(starts, ends) && Laminar(ends) && pos <= |text|
    requires GoodMentions(c, x, EndingBefore(ends, pos), found)
    ensures Nested(pos, Begins(starts, pos, pos), found)
  {
    hide GoodNote, Orders, Begins, EndingBefore;
    OrdersProper(starts, ends);
    var stack, printed := Begins(starts, pos, pos), EndingBefore(ends, pos);
    BeginsAscending(starts, pos, pos);
    forall n | 0 <= n < |found| ensures FoundAs(ends, pos, found[n]) {
      BeforeFrom(ends, pos, n);
      assert GoodMention(c, x, printed[n], found[n]);
    }
    forall k | 0 <= k < |stack| ensures OpenAs(ends, pos, stack[k]) {
      assert stack[k] in stack;
      var n := BeginsFrom(starts, pos, pos, stack[k]);
      OrdersShare(starts, ends);
      var n' := InBoth(starts, ends, n);
    }
    AllNested(ends, pos, stack, found);
  }

  lemma OrdersShare(starts: seq<Mention>, ends: seq<Mention>)
    requires Orders(starts, ends)
    ensures multiset(starts) == multiset(ends)
  {
  }

  lemma AllNested(ends: seq<Mention>, pos: nat, stack: seq<nat>, found: seq<Mention>)
    requires Laminar(ends) && Ascending(stack)
    requires (forall n :: 0 <= n < |found| ==> FoundAs(ends, pos, found[n])) && forall k :: 0 <= k < |stack| ==>
             OpenAs(ends, pos, stack[k])
    ensures Nested(pos, stack, found)
  {
    forall i, k | 0 <= i < |found| && 0 <= k < |stack|
      ensures stack[k] <= found[i].begin || found[i].end <= stack[k]
    {
      assert FoundAs(ends, pos, found[i]) && OpenAs(ends, pos, stack[k]);
      var a :| 0 <= a < |ends| && ends[a].begin == found[i].begin && ends[a].end == found[i].end;
      var b :| 0 <= b < |ends| && ends[b].begin == stack[k] && pos <= ends[b].end;
      assert Apart(ends[a], ends[b]);
    }
    forall i, j | 0 <= i < |found| && 0 <= j < |found|
      ensures Apart(found[i], found[j])
    {
      assert FoundAs(ends, pos, found[i]) && FoundAs(ends, pos, found[j]);
      var a :| 0 <= a < |ends| && ends[a].begin == found[i].begin && ends[a].end == found[i].end;
      var b :| 0 <= b < |ends| && ends[b].begin == found[j].begin && ends[b].end == found[j].end;
      assert Apart(ends[a], ends[b]);
    }
  }

  lemma {:induction false} BeforeFrom(ends: seq<Mention>, pos: nat, n: nat)
    requires n < |EndingBefore(ends, pos)|
    ensures EndingBefore(ends, pos)[n] in ends && EndingBefore(ends, pos)[n].end < pos
  {
    if ends[0].end >= pos {
      BeforeFrom(ends[1..], pos, n);
    } else if n > 0 {
      BeforeFrom(ends[1..], pos, n - 1);
    }
  }

  // ----- the theorem -----

  // The anonymous frames among the annotations.
  function Roots(h: Heap, ms: seq<Mention>): set<nat> {
    set f: nat | f < |h| && h[f].state.Anonymous? && exists i :: 0 <= i < |ms| && ms[i].annotation == Some(Link(f))
  }

  ghost predicate SameMention(m: map<nat, nat>, a: Mention, b: Mention) {
    && a.begin == b.begin && a.end == b.end && a.annotation.Some? == b.annotation.Some?
    && (a.annotation.Some? ==> Links(a.annotation.value) <= m.Keys
                               && b.annotation.value == Rename(m, a.annotation.value))
  }

  /** The same text and the same mentions in closing order, whose annotations are the same graph. */
  ghost predicate SameDocument(h: Heap, text: seq<byte>, ends: seq<Mention>, read: Document, s: Shelf) {
    && read.text == text && |read.mentions| == |ends|
    && exists d, m :: Isomorphic(h, Roots(h, ends), d, m, s) && forall i :: 0 <= i < |ends| ==>
       SameMention(m, ends[i], read.mentions[i])
  }

  // The first position where a mention begins and one ends.
  lemma FirstAbut(ends: seq<Mention>) returns (q: nat)
    requires !NoneBeginsAtEnd(ends)
    ensures !NoneBeginsAt(ends, q) && forall r :: 0 <= r < q ==> NoneBeginsAt(ends, r)
  {
    var i, j :| 0 <= i < |ends| && 0 <= j < |ends| && ends[i].begin == ends[j].end;
    assert !NoneBeginsAt(ends, ends[i].begin);
    q := FirstUpTo(ends, ends[i].begin);
  }

  lemma {:induction false} FirstUpTo(ends: seq<Mention>, p: nat) returns (q: nat)
    requires !NoneBeginsAt(ends, p)
    ensures !NoneBeginsAt(ends, q) && forall r :: 0 <= r < q ==> NoneBeginsAt(ends, r)
    decreases p
  {
    if r :| 0 <= r < p && !NoneBeginsAt(ends, r) {
      q := FirstUpTo(ends, r);
    } else {
      q := p;
    }
  }

  lemma ProperOrders(h: Heap, text: seq<byte>, starts: seq<Mention>, ends: seq<Mention>)
    requires Fitting(h, text, ends) && ByStart(starts) && ByEnd(ends) && multiset(starts) == multiset(ends)
    requires AllNonEmpty(ends)
    ensures Orders(starts, ends)
  {
    hide Taggable;
    forall i | 0 <= i < |starts|
      ensures starts[i].begin < starts[i].end
    {
      var j := InBoth(starts, ends, i);
    }
  }

  // Reading starts with nothing half printed.
  lemma StartsAtRest(c: Setting, text: seq<byte>, ends: seq<Mention>)
    requires TextGraph(c.h) && Fitting(c.h, text, ends) && c.roots == Roots(c.h, ends) && c.indent == []
    requires c.good ==> Ranked(c.h, c.roots, c.rank)
    ensures AtRest(c, Origin()) && AllTags(c, ends)
  {
    hide Steady, Tracks, IsSymbol, Ranked;
    OriginSteady(c);
    if c.good {
      OriginTracks(c);
    }
  }

  ghost predicate Separate(ends: seq<Mention>) {
    AllNonEmpty(ends) && Laminar(ends) && NoneBeginsAtEnd(ends)
  }

  ghost predicate SameSpans(ends: seq<Mention>, read: seq<Mention>) {
    |read| == |ends| && forall i :: 0 <= i < |ends| ==> read[i].begin == ends[i].begin && read[i].end == ends[i].end
  }

  lemma SpansShare(ends: seq<Mention>, read: seq<Mention>)
    requires SameSpans(ends, read)
    ensures Laminar(read) ==> Laminar(ends)
    ensures AllNonEmpty(ends) ==> AllNonEmpty(read)
  {
    if Laminar(read) {
      forall i, j | 0 <= i < |ends| && 0 <= j < |ends| ensures Apart(ends[i], ends[j]) {
        assert Apart(read[i], read[j]);
      }
    }
  }

  // Only separate mentions are read back.
  lemma ReadIsSeparate(h: Heap, text: seq<byte>, starts: seq<Mention>, ends: seq<Mention>)
    requires TextGraph(h) && Clean(text) && Fitting(h, text, ends) && ByStart(starts) && ByEnd(ends)
    requires multiset(starts) == multiset(ends)
    ensures var r := ReadFrom(TextFrom(h, text, starts, ends, 0, Fresh()), Start());
            r.Some? && SameSpans(ends, r.value.mentions) ==> Separate(ends)
  {
    hide ReadFrom, TextFrom, TextGraph, Clean, Fitting, ByStart, ByEnd, AtRest, AllTags, Laminar, AllNonEmpty,
         NoneBeginsAtEnd, Orders, SameSpans, Roots;
    var c := Setting(h, Roots(h, ends), [], false, map[]);
    StartsAtRest(c, text, ends);
    var t := TextFrom(h, text, starts, ends, 0, Fresh());
    var r := ReadFrom(t, Start());
    if r.Some? && SameSpans(ends, r.value.mentions) {
      SpansShare(ends, r.value.mentions);
      PrintedBound(c, text, starts, ends, 0, Start(), Origin());
      PrintedAll(ends);
      SpansCount(ends, r.value.mentions);
      StartNested();
      ReadLaminar(t, Start());
      ProperOrders(h, text, starts, ends);
      if !NoneBeginsAtEnd(ends) {
        var q := FirstAbut(ends);
        AbutInside(h, text, ends, q);
        AbutReadsEmpty(c, text, starts, ends, q);
      }
    }
  }

  lemma SpansCount(ends: seq<Mention>, read: seq<Mention>)
    requires SameSpans(ends, read)
    ensures |read| == |ends|
  {
  }

  lemma StartNested()
    ensures NestedIn(Start())
  {
  }

  // Nothing begins at the end of the text.
  lemma AbutInside(h: Heap, text: seq<byte>, ends: seq<Mention>, q: nat)
    requires Fitting(h, text, ends) && AllNonEmpty(ends) && !NoneBeginsAt(ends, q)
    ensures q < |text|
  {
    hide Taggable;
  }

  // Separate mentions are read back; the annotations are the same graph when there are ranks.
  lemma SeparateIsRead(c: Setting, text: seq<byte>, starts: seq<Mention>, ends: seq<Mention>)
    returns (y: Point, st: Progress)
    requires TextGraph(c.h) && Clean(text) && Fitting(c.h, text, ends) && ByStart(starts) && ByEnd(ends)
    requires multiset(starts) == multiset(ends)
    requires c.roots == Roots(c.h, ends) && c.indent == [] && (c.good ==> Ranked(c.h, c.roots, c.rank))
    requires Separate(ends)
    ensures ReadFrom(TextFrom(c.h, text, starts, ends, 0, Fresh()), Start()) == Some(st)
    ensures st.text == text && |st.mentions| == |ends| && Descending(st.shelf.heap)
    ensures c.good ==> SameDocument(c.h, text, ends, Document(st.text, st.mentions), st.shelf)
  {
    hide ReadFrom, TextFrom, TextGraph, Clean, ByStart, ByEnd, AtRest, AllTags, Laminar, AllNonEmpty, NoneBeginsAtEnd,
         GoodMention, Orders;
    StartsAtRest(c, text, ends);
    ProperOrders(c.h, text, starts, ends);
    y, st := ReadBack(c, text, starts, ends);
    RestDescending(c, y);
    if c.good {
      RestSame(c, ends, y, st);
    }
  }

  lemma RestDescending(c: Setting, y: Point)
    requires AtRest(c, y)
    ensures Descending(y.s.heap)
  {
    hide Tracks, TextGraph, Descending;
  }

  lemma RestSame(c: Setting, ends: seq<Mention>, y: Point, st: Progress)
    requires AtRest(c, y) && c.good && c.roots == Roots(c.h, ends) && GoodMentions(c, y, ends, st.mentions)
    requires st.shelf == y.s
    ensures SameDocument(c.h, st.text, ends, Document(st.text, st.mentions), st.shelf)
  {
    hide TextGraph, Steady, Tracks, Isomorphic;
    forall r | r in c.roots ensures r in y.p.refs {
      var i :| 0 <= i < |ends| && ends[i].annotation == Some(Link(r));
      assert GoodMention(c, y, ends[i], st.mentions[i]);
    }
    AnonymousSame(c, y);
    forall i | 0 <= i < |ends| ensures SameMention(y.m, ends[i], st.mentions[i]) {
      assert GoodMention(c, y, ends[i], st.mentions[i]);
    }
  }

  /** The exact condition: for text without LEX characters and any mentions in it, printing succeeds, and reading
      what was printed gives the text and the mentions, in closing order and with the same graph of annotations, if
      and only if no mention is empty, all are nested, none begins where another ends, and no annotation leads back
      to itself through anonymous frames. */
  lemma RoundTripExact(h: Heap, text: seq<byte>, starts: seq<Mention>, ends: seq<Mention>)
    requires TextGraph(h) && Clean(text) && Fitting(h, text, ends) && ByStart(starts) && ByEnd(ends)
    requires multiset(starts) == multiset(ends)
    ensures var o := PrintLex(h, text, starts, ends);
            o.Success? && var r := ReadLex(o.value.text);
            (r.Some? && SameDocument(h, text, ends, r.value.0, r.value.1)) <==>
            (AllNonEmpty(ends) && Laminar(ends) && NoneBeginsAtEnd(ends) && Acyclic(h, Roots(h, ends)))
  {
    hide ReadFrom, PrintFrom, TextGraph, Clean, Fitting, ByStart, ByEnd, Laminar, AllNonEmpty, NoneBeginsAtEnd,
         Isomorphic, Ranked, Roots, Descending;
    var roots := Roots(h, ends);
    var c := Setting(h, roots, [], false, map[]);
    PrintIsText(c, text, starts, ends);
    var r := ReadLex(PrintLex(h, text, starts, ends).value.text);
    if Separate(ends) {
      var y, st := SeparateIsRead(c, text, starts, ends);
      if rank :| Ranked(h, roots, rank) {
        var y', st' := SeparateIsRead(Setting(h, roots, [], true, rank), text, starts, ends);
      }
      if SameDocument(h, text, ends, r.value.0, r.value.1) {
        var d, m :| Isomorphic(h, roots, d, m, st.shelf);
        RootsIn(h, ends, d, m, st.shelf);
        var rank := SameIsRanked(h, roots, d, m, st.shelf);
      }
    } else {
      ReadIsSeparate(h, text, starts, ends);
      SpansOf(h, text, ends, r);
    }
  }

  lemma SpansOf(h: Heap, text: seq<byte>, ends: seq<Mention>, r: Option<(Document, Shelf)>)
    ensures r.Some? && SameDocument(h, text, ends, r.value.0, r.value.1) ==> SameSpans(ends, r.value.0.mentions)
  {
    hide Isomorphic, Roots;
  }

  lemma RootsIn(h: Heap, ends: seq<Mention>, d: set<nat>, m: map<nat, nat>, s: Shelf)
    requires Isomorphic(h, Roots(h, ends), d, m, s)
    ensures forall r :: r in Roots(h, ends) ==> r in m && r < |h| && h[r].state.Anonymous?
  {
    hide Copied, Linked, HasId, FrameId;
  }

  lemma PrintIsText(c: Setting, text: seq<byte>, starts: seq<Mention>, ends: seq<Mention>)
    requires TextGraph(c.h) && Fitting(c.h, text, ends) && c.roots == Roots(c.h, ends) && c.indent == [] && !c.good
    ensures PrintLex(c.h, text, starts, ends).Success?
    ensures PrintLex(c.h, text, starts, ends).value.text == TextFrom(c.h, text, starts, ends, 0, Fresh())
  {
    hide PrintFrom, TextGraph, AllTags, AtRest, Fitting;
    StartsAtRest(c, text, ends);
    AllPrint(c, text, starts, ends, 0, Fresh());
  }
}
