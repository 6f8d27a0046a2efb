/**
  Taking text and mentions back from an edited document (app/lib/document.js:32-83): the mentions come out
  nested, in closing order, and the text has no LEX characters, unless a paragraph is trimmed under a mention.
 */
module LexDom {
  import opened Common
  import opened SlingGraph
  import opened SlingLexis
  import opened SlingText
  import opened SlingTextGraph
  import opened SlingTextIso
  import opened LexEscape
  import opened Lex
  import opened LexRoundTrip
  import opened LexExact

  // A node of the document tree. Tag names are in lower case.
  datatype Dom = TextNode(value: seq<byte>) | MentionNode(index: nat, children: seq<Dom>) | Element(tag: seq<byte>,
      children: seq<Dom>)

  const SPAN: seq<byte> := [115, 112, 97, 110]
  const P: seq<byte> := [112]
  const DIV: seq<byte> := [100, 105, 118]
  const NEWLINE: byte := 10

  function OpenTag(tag: seq<byte>): seq<byte> {
    [LT] + tag + [GT]
  }

  function CloseTag(tag: seq<byte>): seq<byte> {
    [LT, 47] + tag + [GT]
  }

  // Three bytes that encode one of the white space characters of JavaScript.
  predicate WideSpace(a: byte, b: byte, c: byte) {
    || (a == 225 && b == 154 && c == 128)
    || (a == 226 && b == 128 && (128 <= c <= 138 || c == 168 || c == 169 || c == 175))
    || (a == 226 && b == 129 && c == 159)
    || (a == 227 && b == 128 && c == 128)
    || (a == 239 && b == 187 && c == 191)
  }

  // The length of the white space character at the end of a text, or 0.
  function LastSpace(t: seq<byte>): (r: nat)
    ensures r <= |t|
  {
    var n := |t|;
    if n == 0 then 0
    else if 9 <= t[n - 1] <= 13 || t[n - 1] == 32 then 1
    else if n >= 2 && t[n - 2] == 194 && t[n - 1] == 160 then 2
    else if n >= 3 && WideSpace(t[n - 3], t[n - 2], t[n - 1]) then 3
    else 0
  }

  // White space at the end is cut off.
  function TrimEnd(t: seq<byte>): (r: seq<byte>)
    ensures |r| <= |t| && r == t[..|r|]
  {
    if LastSpace(t) == 0 then t else TrimEnd(t[..|t| - LastSpace(t)])
  }

  // Escaping the bytes of a text.
  function EscapeText(t: seq<byte>): seq<byte> {
    Escape(t)
  }

  // The annotation of a mention of the document that was shown.
  type Annotations = nat -> Option<Value>

  // A paragraph starts on a new line.
  function ParagraphStart(d: Document): Document {
    d.(text := (if d.text == [] || d.text[|d.text| - 1] != NEWLINE then d.text + [NEWLINE] else d.text) + OpenTag(P))
  }

  function Traverse(node: Dom, notes: Annotations, d: Document): (r: Document)
    ensures |d.mentions| <= |r.mentions|
    decreases node
  {
    match node
    case TextNode(v) => d.(text := d.text + EscapeText(v))
    case MentionNode(i, children) =>
      var inner := TraverseAll(children, notes, d);
      inner.(mentions := inner.mentions + [Mention(|d.text|, |inner.text|, notes(i))])
    case Element(tag, children) =>
      if tag == SPAN then TraverseAll(children, notes, d)
      else if tag == P then
        var inner := TraverseAll(children, notes, ParagraphStart(d));
        inner.(text := TrimEnd(inner.text) + CloseTag(P))
      else if tag == DIV then
        var inner := TraverseAll(children, notes, d.(text := d.text + OpenTag(P)));
        inner.(text := inner.text + CloseTag(P) + [NEWLINE])
      else
        var inner := TraverseAll(children, notes, d.(text := d.text + OpenTag(tag)));
        inner.(text := inner.text + CloseTag(tag))
  }

  function TraverseAll(nodes: seq<Dom>, notes: Annotations, d: Document): (r: Document)
    ensures |d.mentions| <= |r.mentions|
    decreases nodes
  {
    if nodes == [] then d else TraverseAll(nodes[1..], notes, Traverse(nodes[0], notes, d))
  }

  // ----- what comes out -----

  predicate TagsClean(node: Dom)
    decreases node
  {
    match node
    case TextNode(_) => true
    case MentionNode(_, children) => forall i :: 0 <= i < |children| ==> TagsClean(children[i])
    case Element(tag, children) => Clean(tag) && forall i :: 0 <= i < |children| ==> TagsClean(children[i])
  }

  // No mention of a paragraph ends behind the text that is left when white space is cut off its end.
  predicate TrimSafe(node: Dom, notes: Annotations, d: Document)
    decreases node
  {
    match node
    case TextNode(_) => true
    case MentionNode(_, children) => AllSafe(children, notes, d)
    case Element(tag, children) =>
      if tag == SPAN then AllSafe(children, notes, d)
      else if tag == P then
        var start := ParagraphStart(d);
        var inner := TraverseAll(children, notes, start);
        && AllSafe(children, notes, start)
        && forall i :: 0 <= i < |inner.mentions| ==> inner.mentions[i].end <= |TrimEnd(inner.text)|
      else AllSafe(children, notes, d.(text := d.text + OpenTag(if tag == DIV then P else tag)))
  }

  predicate AllSafe(nodes: seq<Dom>, notes: Annotations, d: Document)
    decreases nodes
  {
    nodes == [] || (TrimSafe(nodes[0], notes, d) && AllSafe(nodes[1..], notes, Traverse(nodes[0], notes, d)))
  }

  /** Text without LEX characters, and nested mentions in it. */
  ghost predicate Good(d: Document) {
    && Clean(d.text) && Laminar(d.mentions)
    && forall i :: 0 <= i < |d.mentions| ==> d.mentions[i].begin <= d.mentions[i].end <= |d.text|
  }

  // New mentions lie behind the text that was there before.
  ghost predicate Adds(d: Document, d': Document) {
    && |d.text| <= |d'.text| && d.mentions <= d'.mentions
    && forall i :: |d.mentions| <= i < |d'.mentions| ==> d'.mentions[i].begin >= |d.text|
  }

  lemma AddsOn(a: Document, b: Document, c: Document)
    requires Adds(a, b) && Adds(b, c)
    ensures Adds(a, c)
  {
  }

  lemma CleanJoin(a: seq<byte>, b: seq<byte>)
    requires Clean(a) && Clean(b)
    ensures Clean(a + b)
  {
  }

  lemma EscapeClean(t: seq<byte>)
    ensures Clean(EscapeText(t))
  {
    EscapePlain(t);
  }

  lemma GoodText(d: Document, more: seq<byte>)
    requires Good(d) && Clean(more)
    ensures Good(d.(text := d.text + more)) && Adds(d, d.(text := d.text + more))
  {
    CleanJoin(d.text, more);
  }

  lemma GoodMention(d: Document, inner: Document, m: Mention)
    requires Good(d) && Good(inner) && Adds(d, inner) && m.begin == |d.text| && m.end == |inner.text|
    ensures Good(inner.(mentions := inner.mentions + [m])) && Adds(d, inner.(mentions := inner.mentions + [m]))
  {
    var all := inner.mentions + [m];
    forall i | 0 <= i < |inner.mentions|
      ensures Apart(all[i], m)
    {
      if i < |d.mentions| {
        assert inner.mentions[i] == d.mentions[i];
      }
    }
    forall i, j | 0 <= i < |all| && 0 <= j < |all|
      ensures Apart(all[i], all[j])
    {
      if i < |inner.mentions| && j < |inner.mentions| {
        assert Apart(inner.mentions[i], inner.mentions[j]);
      }
    }
  }

  lemma {:induction false} TrimKeeps(t: seq<byte>, k: nat)
    requires 0 < k <= |t| && t[k - 1] == GT
    ensures k <= |TrimEnd(t)|
  {
    if LastSpace(t) > 0 {
      TrimKeeps(t[..|t| - LastSpace(t)], k);
    }
  }

  lemma GoodTrim(d: Document, start: Document, inner: Document)
    requires Good(d) && Good(inner) && Adds(d, start) && Adds(start, inner) && start.text <= inner.text
    requires start.text != [] && start.text[|start.text| - 1] == GT
    requires forall i :: 0 <= i < |inner.mentions| ==> inner.mentions[i].end <= |TrimEnd(inner.text)|
    ensures var d' := inner.(text := TrimEnd(inner.text) + CloseTag(P)); Good(d') && Adds(d, d')
  {
    TrimKeeps(inner.text, |start.text|);
    var trimmed := TrimEnd(inner.text);
    assert Clean(trimmed) by {
      assert forall c :: c in trimmed ==> c in inner.text;
    }
    CleanJoin(trimmed, CloseTag(P));
    AddsOn(d, start, inner);
  }

  // What was there stays at the beginning; paragraphs only cut off what they added.
  lemma {:induction false} TextGrows(node: Dom, notes: Annotations, d: Document)
    ensures d.text <= Traverse(node, notes, d).text
    decreases node
  {
    match node
    case TextNode(_) =>
    case MentionNode(_, children) => AllGrow(children, notes, d);
    case Element(tag, children) =>
      if tag == P {
        var start := ParagraphStart(d);
        AllGrow(children, notes, start);
        TrimKeeps(TraverseAll(children, notes, start).text, |start.text|);
      } else if tag == SPAN {
        AllGrow(children, notes, d);
      } else {
        AllGrow(children, notes, d.(text := d.text + OpenTag(if tag == DIV then P else tag)));
      }
  }

  lemma {:induction false} AllGrow(nodes: seq<Dom>, notes: Annotations, d: Document)
    ensures d.text <= TraverseAll(nodes, notes, d).text
    decreases nodes
  {
    if nodes != [] {
      TextGrows(nodes[0], notes, d);
      AllGrow(nodes[1..], notes, Traverse(nodes[0], notes, d));
    }
  }

  /** The edited document is good when trimming is safe. */
  lemma {:induction false} TraverseGood(node: Dom, notes: Annotations, d: Document)
    requires Good(d) && TagsClean(node) && TrimSafe(node, notes, d)
    ensures Good(Traverse(node, notes, d)) && Adds(d, Traverse(node, notes, d))
    decreases node
  {
    match node
    case TextNode(v) =>
      EscapeClean(v);
      GoodText(d, EscapeText(v));
    case MentionNode(i, children) =>
      AllGood(children, notes, d);
      var inner := TraverseAll(children, notes, d);
      GoodMention(d, inner, Mention(|d.text|, |inner.text|, notes(i)));
    case Element(tag, children) =>
      if tag == SPAN {
        AllGood(children, notes, d);
      } else if tag == P {
        ParagraphGood(node, notes, d);
      } else {
        var name, close := if tag == DIV then P else tag, if tag == DIV then CloseTag(P) + [NEWLINE] else CloseTag(tag);
        var start := d.(text := d.text + OpenTag(name));
        assert Clean(OpenTag(name)) && Clean(close);
        GoodText(d, OpenTag(name));
        AllGood(children, notes, start);
        var inner := TraverseAll(children, notes, start);
        GoodText(inner, close);
        AddsOn(d, start, inner);
        AddsOn(d, inner, inner.(text := inner.text + close));
        assert inner.text + CloseTag(P) + [NEWLINE] == inner.text + (CloseTag(P) + [NEWLINE]);
      }
  }

  lemma {:induction false} ParagraphGood(node: Dom, notes: Annotations, d: Document)
    requires node.Element? && node.tag == P && Good(d) && TagsClean(node) && TrimSafe(node, notes, d)
    ensures Good(Traverse(node, notes, d)) && Adds(d, Traverse(node, notes, d))
    decreases node, 0
  {
    var gap := if d.text == [] || d.text[|d.text| - 1] != NEWLINE then [NEWLINE] else [];
    var start := ParagraphStart(d);
    assert start.text == d.text + (gap + OpenTag(P));
    assert Clean(gap + OpenTag(P));
    GoodText(d, gap + OpenTag(P));
    AllGood(node.children, notes, start);
    var inner := TraverseAll(node.children, notes, start);
    AllGrow(node.children, notes, start);
    GoodTrim(d, start, inner);
  }

  lemma {:induction false} AllGood(nodes: seq<Dom>, notes: Annotations, d: Document)
    requires Good(d) && (forall i :: 0 <= i < |nodes| ==> TagsClean(nodes[i])) && AllSafe(nodes, notes, d)
    ensures Good(TraverseAll(nodes, notes, d)) && Adds(d, TraverseAll(nodes, notes, d))
    decreases nodes
  {
    if nodes != [] {
      TraverseGood(nodes[0], notes, d);
      AllGood(nodes[1..], notes, Traverse(nodes[0], notes, d));
      AddsOn(d, Traverse(nodes[0], notes, d), TraverseAll(nodes, notes, d));
    }
  }

  // ----- what mentions cover -----

  /** The text that the node of a mention has produced, and when the end of a paragraph was cut off below the end of
      the mention, the length of the text that was left. */
  datatype Fate = Fate(text: seq<byte>, cut: Option<nat>)

  // Cutting the text down to `size`; the mentions are those that the fates are about.
  function Cut(fates: seq<Fate>, mentions: seq<Mention>, size: nat): (r: seq<Fate>)
    requires |fates| == |mentions|
    ensures |r| == |fates|
  {
    seq(|fates|, i requires 0 <= i < |fates| =>
      if fates[i].cut.None? && mentions[i].end > size then fates[i].(cut := Some(size)) else fates[i])
  }

  // The fates of the mentions that going over a node adds.
  function Fates(node: Dom, notes: Annotations, d: Document): (r: seq<Fate>)
    ensures |r| == |Traverse(node, notes, d).mentions| - |d.mentions|
    decreases node
  {
    match node
    case TextNode(_) => []
    case MentionNode(_, children) =>
      AllGrow(children, notes, d);
      AllFates(children, notes, d) + [Fate(TraverseAll(children, notes, d).text[|d.text|..], None)]
    case Element(tag, children) =>
      if tag == SPAN then AllFates(children, notes, d)
      else if tag == P then
        var start := ParagraphStart(d);
        var inner := TraverseAll(children, notes, start);
        var fates := AllFates(children, notes, start);
        Cut(fates, inner.mentions[|d.mentions|..], |TrimEnd(inner.text)|)
      else AllFates(children, notes, d.(text := d.text + OpenTag(if tag == DIV then P else tag)))
  }

  function AllFates(nodes: seq<Dom>, notes: Annotations, d: Document): (r: seq<Fate>)
    ensures |r| == |TraverseAll(nodes, notes, d).mentions| - |d.mentions|
    decreases nodes
  {
    if nodes == [] then []
    else Fates(nodes[0], notes, d) + AllFates(nodes[1..], notes, Traverse(nodes[0], notes, d))
  }

  // A byte of a white space character; none is part of a closing tag.
  predicate SpaceByte(c: byte) {
    9 <= c <= 13 || c == 32 || c >= 128
  }

  lemma {:induction false} TrimCutsSpace(t: seq<byte>)
    ensures forall j :: |TrimEnd(t)| <= j < |t| ==> SpaceByte(t[j])
  {
    if LastSpace(t) > 0 {
      TrimCutsSpace(t[..|t| - LastSpace(t)]);
    }
  }

  // The closing tag of a paragraph stands at n.
  predicate ClosedAt(text: seq<byte>, n: nat) {
    n + 4 <= |text| && text[n..n + 4] == CloseTag(P)
  }

  /** What is known of a mention. As long as its paragraph has not been cut below its end, it covers the text that its
      node has produced. After that, a closing tag stands where the text was cut off, and what it had produced from
      there on was white space. */
  ghost predicate Fated(text: seq<byte>, m: Mention, f: Fate) {
    && m.begin <= m.end && |f.text| == m.end - m.begin
    && match f.cut
       case None => m.end <= |text| && text[m.begin..m.end] == f.text
       case Some(n) =>
         && n < m.end && ClosedAt(text, n)
         && forall j :: 0 <= j < |f.text| && m.begin + j >= n ==> SpaceByte(f.text[j])
  }

  ghost predicate AllFated(text: seq<byte>, mentions: seq<Mention>, fates: seq<Fate>) {
    |mentions| == |fates| && forall i :: 0 <= i < |fates| ==> Fated(text, mentions[i], fates[i])
  }

  lemma FatedOn(text: seq<byte>, more: seq<byte>, mentions: seq<Mention>, fates: seq<Fate>)
    requires AllFated(text, mentions, fates)
    ensures AllFated(text + more, mentions, fates)
  {
    forall i | 0 <= i < |fates| ensures Fated(text + more, mentions[i], fates[i]) {
      var m := mentions[i];
      if fates[i].cut.None? {
        assert (text + more)[m.begin..m.end] == text[m.begin..m.end];
      } else {
        assert (text + more)[fates[i].cut.value..fates[i].cut.value + 4] ==
               text[fates[i].cut.value..fates[i].cut.value + 4];
      }
    }
  }

  lemma FatedBoth(text: seq<byte>, a: seq<Mention>, b: seq<Mention>, f: seq<Fate>, g: seq<Fate>)
    requires AllFated(text, a, f) && AllFated(text, b, g)
    ensures AllFated(text, a + b, f + g)
  {
  }

  // Cutting off the end of a paragraph and closing it.
  lemma FatedCut(text: seq<byte>, m: Mention, f: Fate)
    requires Fated(text, m, f)
    ensures var left := TrimEnd(text);
            Fated(left + CloseTag(P), m, if f.cut.None? && m.end > |left| then f.(cut := Some(|left|)) else f)
  {
    var left := TrimEnd(text);
    var closed := left + CloseTag(P);
    if f.cut.Some? {
      var n := f.cut.value;
      assert text[n + 3] == text[n..n + 4][3] == GT;
      TrimKeeps(text, n + 4);
      assert closed[n..n + 4] == text[n..n + 4];
    } else if m.end > |left| {
      TrimCutsSpace(text);
      assert closed[|left|..|left| + 4] == CloseTag(P);
      forall j | 0 <= j < |f.text| && m.begin + j >= |left| ensures SpaceByte(f.text[j]) {
        assert f.text[j] == text[m.begin + j];
      }
    } else {
      assert closed[m.begin..m.end] == text[m.begin..m.end];
    }
  }

  lemma AllCut(text: seq<byte>, mentions: seq<Mention>, fates: seq<Fate>)
    requires AllFated(text, mentions, fates)
    ensures AllFated(TrimEnd(text) + CloseTag(P), mentions, Cut(fates, mentions, |TrimEnd(text)|))
  {
    forall i | 0 <= i < |fates|
      ensures Fated(TrimEnd(text) + CloseTag(P), mentions[i], Cut(fates, mentions, |TrimEnd(text)|)[i])
    {
      FatedCut(text, mentions[i], fates[i]);
    }
  }

  // Mentions are only added.
  lemma {:induction false} MentionsGrow(node: Dom, notes: Annotations, d: Document)
    ensures d.mentions <= Traverse(node, notes, d).mentions
    decreases node
  {
    match node
    case TextNode(_) =>
    case MentionNode(_, children) => AllMentionsGrow(children, notes, d);
    case Element(tag, children) =>
      AllMentionsGrow(children, notes, if tag == SPAN then d else if tag == P then ParagraphStart(d)
                                       else d.(text := d.text + OpenTag(if tag == DIV then P else tag)));
  }

  lemma {:induction false} AllMentionsGrow(nodes: seq<Dom>, notes: Annotations, d: Document)
    ensures d.mentions <= TraverseAll(nodes, notes, d).mentions
    decreases nodes
  {
    if nodes != [] {
      MentionsGrow(nodes[0], notes, d);
      AllMentionsGrow(nodes[1..], notes, Traverse(nodes[0], notes, d));
    }
  }

  lemma {:induction false} TraverseFated(node: Dom, notes: Annotations, d: Document)
    ensures var r := Traverse(node, notes, d); AllFated(r.text, r.mentions[|d.mentions|..], Fates(node, notes, d))
    decreases node
  {
    hide Fated, TrimEnd;
    match node
    case TextNode(_) =>
    case MentionNode(i, children) =>
      AllTraverseFated(children, notes, d);
      var inner := TraverseAll(children, notes, d);
      AllGrow(children, notes, d);
      AllMentionsGrow(children, notes, d);
      var m, f := Mention(|d.text|, |inner.text|, notes(i)), Fate(inner.text[|d.text|..], None);
      OwnFated(inner.text, m, f);
      FatedBoth(inner.text, inner.mentions[|d.mentions|..], [m], AllFates(children, notes, d), [f]);
      assert (inner.mentions + [m])[|d.mentions|..] == inner.mentions[|d.mentions|..] + [m];
    case Element(tag, children) =>
      if tag == SPAN {
        AllTraverseFated(children, notes, d);
      } else if tag == P {
        var start := ParagraphStart(d);
        AllTraverseFated(children, notes, start);
        var inner := TraverseAll(children, notes, start);
        AllCut(inner.text, inner.mentions[|d.mentions|..], AllFates(children, notes, start));
      } else {
        var start := d.(text := d.text + OpenTag(if tag == DIV then P else tag));
        AllTraverseFated(children, notes, start);
        var inner := TraverseAll(children, notes, start);
        var close := if tag == DIV then CloseTag(P) + [NEWLINE] else CloseTag(tag);
        FatedOn(inner.text, close, inner.mentions[|d.mentions|..], AllFates(children, notes, start));
        assert inner.text + CloseTag(P) + [NEWLINE] == inner.text + (CloseTag(P) + [NEWLINE]);
      }
  }

  lemma OwnFated(text: seq<byte>, m: Mention, f: Fate)
    requires m.begin <= m.end == |text| && f == Fate(text[m.begin..], None)
    ensures AllFated(text, [m], [f])
  {
  }

  lemma {:induction false} AllTraverseFated(nodes: seq<Dom>, notes: Annotations, d: Document)
    ensures var r := TraverseAll(nodes, notes, d); AllFated(r.text, r.mentions[|d.mentions|..],
                                                            AllFates(nodes, notes, d))
    decreases nodes
  {
    hide Fated, Traverse, Fates;
    if nodes != [] {
      var next := Traverse(nodes[0], notes, d);
      TraverseFated(nodes[0], notes, d);
      AllTraverseFated(nodes[1..], notes, next);
      var r := TraverseAll(nodes[1..], notes, next);
      AllGrow(nodes[1..], notes, next);
      MentionsGrow(nodes[0], notes, d);
      AllMentionsGrow(nodes[1..], notes, next);
      assert r.text == next.text + r.text[|next.text|..];
      FatedOn(next.text, r.text[|next.text|..], next.mentions[|d.mentions|..], Fates(nodes[0], notes, d));
      FatedBoth(r.text, next.mentions[|d.mentions|..], r.mentions[|next.mentions|..], Fates(nodes[0], notes, d),
                AllFates(nodes[1..], notes, next));
      assert r.mentions[|d.mentions|..] == next.mentions[|d.mentions|..] + r.mentions[|next.mentions|..];
    }
  }

  // A slice as JavaScript takes it: positions behind the end count as the end.
  function Slice(text: seq<byte>, begin: nat, end: nat): seq<byte>
    requires begin <= end
  {
    text[if begin <= |text| then begin else |text|..if end <= |text| then end else |text|]
  }

  // The mention lies in white space that was cut off, behind the closing tag that stands there now.
  predicate Behind(m: Mention, f: Fate) {
    f.cut.Some? && m.begin >= f.cut.value + 4
  }

  lemma CutDiffers(text: seq<byte>, m: Mention, f: Fate)
    requires Fated(text, m, f) && f.cut.Some? && m.begin < f.cut.value + 4 && !IsEmpty(m)
    ensures Slice(text, m.begin, m.end) != f.text
  {
    var n := f.cut.value;
    var k := if m.begin < n then n else m.begin;
    assert text[n..n + 4][k - n] == text[k];
    assert !SpaceByte(text[k]);
    var covered := Slice(text, m.begin, m.end);
    assert covered[k - m.begin] == text[k];
    assert SpaceByte(f.text[k - m.begin]);
  }

  /** What mentions cover after editing, for every document: a mention covers the text that its node has produced if and
      only if it is empty, or no paragraph was cut off below its end. The one exception are mentions behind the closing
      tag of a paragraph that was cut: they had produced white space only, and cover what was written after the
      paragraph, whatever that is. */
  lemma MentionsExact(nodes: seq<Dom>, notes: Annotations, i: nat)
    requires i < |TraverseAll(nodes, notes, Document([], [])).mentions|
    ensures var d, f := TraverseAll(nodes, notes, Document([], [])), AllFates(nodes, notes, Document([], []))[i];
            var m := d.mentions[i];
            && m.begin <= m.end && |f.text| == m.end - m.begin
            && (!Behind(m, f) ==> (Slice(d.text, m.begin, m.end) == f.text <==> IsEmpty(m) || f.cut.None?))
            && (Behind(m, f) ==> ClosedAt(d.text, f.cut.value) && forall c :: c in f.text ==> SpaceByte(c))
  {
    var start := Document([], []);
    var d, f := TraverseAll(nodes, notes, start), AllFates(nodes, notes, start)[i];
    AllTraverseFated(nodes, notes, start);
    var m := d.mentions[i];
    assert d.mentions[|start.mentions|..][i] == m && Fated(d.text, m, f);
    if f.cut.Some? && !Behind(m, f) && !IsEmpty(m) {
      CutDiffers(d.text, m, f);
    }
  }

  // ----- cutting nothing -----

  predicate Uncut(fates: seq<Fate>) {
    forall f :: f in fates ==> f.cut.None?
  }

  lemma UncutBoth(a: seq<Fate>, b: seq<Fate>)
    ensures Uncut(a + b) <==> Uncut(a) && Uncut(b)
  {
    if Uncut(a + b) {
      forall f | f in a ensures f.cut.None? {
        assert f in a + b;
      }
      forall f | f in b ensures f.cut.None? {
        assert f in a + b;
      }
    }
  }

  lemma UncutCut(fates: seq<Fate>, mentions: seq<Mention>, size: nat)
    requires |fates| == |mentions|
    ensures Uncut(Cut(fates, mentions, size)) <==> Uncut(fates) && forall i :: 0 <= i < |mentions| ==>
            mentions[i].end <= size
  {
    var r := Cut(fates, mentions, size);
    if Uncut(r) {
      forall i | 0 <= i < |fates| ensures fates[i].cut.None? && mentions[i].end <= size {
        assert r[i] in r;
      }
    }
  }

  // Mentions end within the text.
  ghost predicate Within(d: Document) {
    forall i :: 0 <= i < |d.mentions| ==> d.mentions[i].end <= |d.text|
  }

  /** Trimming is safe if and only if it cuts no mention. */
  lemma {:induction false} SafeExact(node: Dom, notes: Annotations, d: Document)
    requires Within(d)
    ensures TrimSafe(node, notes, d) <==> Uncut(Fates(node, notes, d))
    ensures TrimSafe(node, notes, d) ==> Within(Traverse(node, notes, d))
    decreases node
  {
    match node
    case TextNode(_) =>
    case MentionNode(i, children) =>
      AllSafeExact(children, notes, d);
      AllGrow(children, notes, d);
      var f := Fate(TraverseAll(children, notes, d).text[|d.text|..], None);
      UncutBoth(AllFates(children, notes, d), [f]);
    case Element(tag, children) =>
      if tag == SPAN {
        AllSafeExact(children, notes, d);
      } else if tag == P {
        ParagraphSafeExact(node, notes, d);
      } else {
        AllSafeExact(children, notes, d.(text := d.text + OpenTag(if tag == DIV then P else tag)));
      }
  }

  lemma {:induction false} ParagraphSafeExact(node: Dom, notes: Annotations, d: Document)
    requires node.Element? && node.tag == P && Within(d)
    ensures TrimSafe(node, notes, d) <==> Uncut(Fates(node, notes, d))
    ensures TrimSafe(node, notes, d) ==> Within(Traverse(node, notes, d))
    decreases node, 0
  {
    var start := ParagraphStart(d);
    AllSafeExact(node.children, notes, start);
    AllMentionsGrow(node.children, notes, start);
    AllGrow(node.children, notes, start);
    var inner := TraverseAll(node.children, notes, start);
    var new' := inner.mentions[|d.mentions|..];
    UncutCut(AllFates(node.children, notes, start), new', |TrimEnd(inner.text)|);
    TrimKeeps(inner.text, |start.text|);
    forall i | 0 <= i < |inner.mentions| && i < |d.mentions| ensures inner.mentions[i].end <= |TrimEnd(inner.text)| {
      assert inner.mentions[i] == d.mentions[i];
    }
    assert forall i :: 0 <= i < |new'| ==> new'[i] == inner.mentions[|d.mentions| + i];
    assert forall i :: |d.mentions| <= i < |inner.mentions| ==> inner.mentions[i] == new'[i - |d.mentions|];
  }

  lemma {:induction false} AllSafeExact(nodes: seq<Dom>, notes: Annotations, d: Document)
    requires Within(d)
    ensures AllSafe(nodes, notes, d) <==> Uncut(AllFates(nodes, notes, d))
    ensures AllSafe(nodes, notes, d) ==> Within(TraverseAll(nodes, notes, d))
    decreases nodes
  {
    if nodes != [] {
      SafeExact(nodes[0], notes, d);
      UncutBoth(Fates(nodes[0], notes, d), AllFates(nodes[1..], notes, Traverse(nodes[0], notes, d)));
      if TrimSafe(nodes[0], notes, d) {
        AllSafeExact(nodes[1..], notes, Traverse(nodes[0], notes, d));
      }
    }
  }

  /** Saving an edited document: text, mentions and annotations are read back exactly when no mention is empty,
      none begins where another ends, and no annotation leads back to itself through anonymous frames. */
  lemma EditedReadBack(h: Heap, nodes: seq<Dom>, notes: Annotations, starts: seq<Mention>, ends: seq<Mention>)
    requires (forall i :: 0 <= i < |nodes| ==> TagsClean(nodes[i])) && AllSafe(nodes, notes, Document([], []))
    requires var d := TraverseAll(nodes, notes, Document([], []));
             && TextGraph(h) && ByStart(starts) && ByEnd(ends)
                && multiset(starts) == multiset(d.mentions) == multiset(ends)
             && forall m :: m in d.mentions && m.annotation.Some? ==> Taggable(h, m.annotation.value)
    ensures var d := TraverseAll(nodes, notes, Document([], []));
            var o := PrintLex(h, d.text, starts, ends);
            o.Success? && var r := ReadLex(o.value.text);
            (r.Some? && SameDocument(h, d.text, ends, r.value.0, r.value.1)) <==>
            (AllNonEmpty(ends) && NoneBeginsAtEnd(ends) && Acyclic(h, Roots(h, ends)))
  {
    hide TextGraph, Taggable, ByStart, ByEnd, TraverseAll, AllSafe, TagsClean, PrintLex, ReadLex, SameDocument, Acyclic,
         Roots;
    var d := TraverseAll(nodes, notes, Document([], []));
    AllGood(nodes, notes, Document([], []));
    SameFit(h, d, ends);
    RoundTripExact(h, d.text, starts, ends);
  }

  // The same mentions in another order.
  lemma SameFit(h: Heap, d: Document, ends: seq<Mention>)
    requires Good(d) && multiset(d.mentions) == multiset(ends)
    requires forall m :: m in d.mentions && m.annotation.Some? ==> Taggable(h, m.annotation.value)
    ensures Laminar(ends) && Fitting(h, d.text, ends)
  {
    hide Taggable;
    forall i | 0 <= i < |ends|
      ensures ends[i] in d.mentions
    {
      assert ends[i] in multiset(d.mentions);
    }
    forall i, j | 0 <= i < |ends| && 0 <= j < |ends|
      ensures Apart(ends[i], ends[j])
    {
      var a :| 0 <= a < |d.mentions| && d.mentions[a] == ends[i];
      var b :| 0 <= b < |d.mentions| && d.mentions[b] == ends[j];
      assert Apart(d.mentions[a], d.mentions[b]);
    }
  }

  /** A mention with a space at the end of a paragraph: trimming moves the text away, and the mention then
      covers the beginning of the closing tag. */
  lemma TrimMovesMention(notes: Annotations)
    ensures var d := Traverse(Element(P, [MentionNode(0, [TextNode([97, 32])])]), notes, Document([], []));
            && d.text == [10, 60, 112, 62, 97, 60, 47, 112, 62] && |d.mentions| == 1
            && d.text[d.mentions[0].begin..d.mentions[0].end] == [97, LT]
  {
    var start := Document([10, 60, 112, 62], []);
    assert Escape([97, 32]) == [97, 32] by {
      assert [97, 32][1..] == [32] && [32][1..] == [];
      assert Escape([32]) == [32] + Escape([]);
    }
    var text := [10, 60, 112, 62, 97, 32];
    var inner := Document(text, []);
    var leaf := TextNode([97, 32]);
    assert Traverse(leaf, notes, start) == inner;
    assert [leaf][1..] == [];
    assert TraverseAll([leaf], notes, start) == TraverseAll([], notes, inner);
    var m := MentionNode(0, [leaf]);
    var after := Document(text, [Mention(4, 6, notes(0))]);
    assert Traverse(m, notes, start) == after;
    assert [m][1..] == [];
    assert TraverseAll([m], notes, start) == TraverseAll([], notes, after);
    assert text[..5] == [10, 60, 112, 62, 97];
    assert TrimEnd(text[..5]) == text[..5];
    assert TrimEnd(text) == TrimEnd(text[..5]);
    var d := Traverse(Element(P, [m]), notes, Document([], []));
    assert [] + [NEWLINE] + OpenTag(P) == [10, 60, 112, 62];
    assert d.text == [10, 60, 112, 62, 97] + CloseTag(P);
    assert d.text == [10, 60, 112, 62, 97, 60, 47, 112, 62];
    assert d.text[4..6] == [97, LT];
  }
}
