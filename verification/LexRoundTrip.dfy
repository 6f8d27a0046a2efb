/**
  Reading back what was printed: the text and the mentions come back exactly when no mention is empty, the
  mentions are nested, and none begins where another ends.
 */
module LexRoundTrip {
  import opened Common
  import opened SlingGraph
  import opened SlingLexis
  import opened SlingText
  import opened LexEscape
  import opened Lex

  // ----- conditions -----

  ghost predicate AllNonEmpty(ms: seq<Mention>) {
    forall i :: 0 <= i < |ms| ==> !IsEmpty(ms[i])
  }

  predicate Apart(a: Mention, b: Mention) {
    || a.end <= b.begin || b.end <= a.begin
    || (a.begin <= b.begin && b.end <= a.end) || (b.begin <= a.begin && a.end <= b.end)
  }

  // Any two mentions are nested or do not overlap.
  ghost predicate Laminar(ms: seq<Mention>) {
    forall i, j :: 0 <= i < |ms| && 0 <= j < |ms| ==> Apart(ms[i], ms[j])
  }

  ghost predicate NoneBeginsAtEnd(ms: seq<Mention>) {
    forall i, j :: 0 <= i < |ms| && 0 <= j < |ms| ==> ms[i].begin != ms[j].end
  }

  // An id that is read as a symbol as it is.
  predicate IsSymbol(id: seq<byte>) {
    && id != [] && !IsDigit(id[0]) && id[0] != 45 && !Keyword(id)
    && forall i :: 0 <= i < |id| ==> IsName(id[i])
  }

  // A frame that has a text form as an annotation: an anonymous one, or one whose id is a symbol.
  predicate Taggable(h: Heap, v: Value) {
    v.Link? && v.frame < |h| && (h[v.frame].state.Anonymous?
                                 || (FrameId(h[v.frame]).Some? && IsSymbol(FrameId(h[v.frame]).value)))
  }

  // The mentions lie in the text, and annotations are frames with a text form.
  ghost predicate Fitting(h: Heap, text: seq<byte>, ms: seq<Mention>) {
    forall i :: 0 <= i < |ms| ==>
      ms[i].begin <= ms[i].end <= |text| && (ms[i].annotation.Some? ==> Taggable(h, ms[i].annotation.value))
  }

  // No character that means something to LEX. A closing brace means nothing outside a theme.
  predicate Clean(text: seq<byte>) {
    forall c :: c in text ==> c != OPEN && c != CLOSE && c != BAR && c != BRACE
  }

  // ----- lists of positions -----

  predicate Ascending(s: seq<nat>) {
    forall i, j :: 0 <= i < j < |s| ==> s[i] <= s[j]
  }

  lemma {:induction false} AscendingUnique(s: seq<nat>, t: seq<nat>)
    requires Ascending(s) && Ascending(t) && multiset(s) == multiset(t)
    ensures s == t
  {
    assert |s| == |multiset(s)| == |multiset(t)| == |t|;
    if s != [] {
      SmallestFirst(s, t);
      SmallestFirst(t, s);
      RestOf(s);
      RestOf(t);
      AscendingUnique(s[1..], t[1..]);
    }
  }

  lemma SmallestFirst(s: seq<nat>, t: seq<nat>)
    requires s != [] && t != [] && Ascending(t) && multiset(s) == multiset(t)
    ensures t[0] <= s[0]
  {
    assert s[0] in multiset(t);
    assert s[0] in t;
  }

  lemma RestOf<T>(s: seq<T>)
    requires s != []
    ensures s == [s[0]] + s[1..] && multiset(s[1..]) == multiset(s) - multiset{s[0]}
  {
    assert s == [s[0]] + s[1..];
    assert multiset(s) == multiset{s[0]} + multiset(s[1..]);
  }

  function Reversed(s: seq<nat>): (r: seq<nat>)
    ensures |r| == |s|
  {
    if s == [] then [] else Reversed(s[1..]) + [s[0]]
  }

  lemma {:induction false} ReversedFacts(s: seq<nat>)
    ensures multiset(Reversed(s)) == multiset(s)
    ensures Decreasing(s) ==> Ascending(Reversed(s))
  {
    if s != [] {
      ReversedFacts(s[1..]);
      assert s == [s[0]] + s[1..];
      if Decreasing(s) {
        var r := Reversed(s[1..]);
        forall i | 0 <= i < |r|
          ensures r[i] <= s[0]
        {
          assert r[i] in multiset(r);
          assert r[i] in s[1..];
        }
      }
    }
  }

  // ----- selecting mentions -----

  // Which mentions are open: begun before or at `last`, and ending at or after `first`.
  function Begins(ms: seq<Mention>, last: int, first: int): seq<nat> {
    if ms == [] then []
    else if ms[0].begin <= last && first <= ms[0].end then [ms[0].begin] + Begins(ms[1..], last, first)
    else Begins(ms[1..], last, first)
  }

  function EndingAt(ms: seq<Mention>, pos: nat): seq<Mention> {
    if ms == [] then [] else if ms[0].end == pos then [ms[0]] + EndingAt(ms[1..], pos) else EndingAt(ms[1..], pos)
  }

  function EndingBefore(ms: seq<Mention>, pos: nat): seq<Mention> {
    if ms == [] then [] else if ms[0].end < pos then [ms[0]] + EndingBefore(ms[1..], pos)
    else EndingBefore(ms[1..], pos)
  }

  function BeginsOf(ms: seq<Mention>): (r: seq<nat>)
    ensures |r| == |ms|
  {
    if ms == [] then [] else [ms[0].begin] + BeginsOf(ms[1..])
  }

  // A begin in the list is that of an open mention.
  lemma {:induction false} BeginsFrom(ms: seq<Mention>, last: int, first: int, b: nat) returns (i: nat)
    requires b in Begins(ms, last, first)
    ensures i < |ms| && ms[i].begin == b <= last && first <= ms[i].end
  {
    if ms[0].begin <= last && first <= ms[0].end && ms[0].begin == b {
      i := 0;
    } else {
      assert b in Begins(ms[1..], last, first);
      i := BeginsFrom(ms[1..], last, first, b);
      i := i + 1;
    }
  }

  lemma {:induction false} BeginsAscending(ms: seq<Mention>, last: int, first: int)
    requires ByStart(ms)
    ensures Ascending(Begins(ms, last, first))
  {
    if ms != [] {
      var rest := Begins(ms[1..], last, first);
      BeginsAscending(ms[1..], last, first);
      forall b | b in rest
        ensures ms[0].begin <= b
      {
        var i := BeginsFrom(ms[1..], last, first, b);
        assert ms[1..][i] == ms[i + 1];
      }
      AscendingCons(ms[0].begin, rest);
    }
  }

  lemma AscendingCons(b: nat, s: seq<nat>)
    requires Ascending(s) && forall x :: x in s ==> b <= x
    ensures Ascending([b] + s)
  {
    assert forall i :: 0 <= i < |s| ==> s[i] in s;
  }

  lemma AscendingJoin(s: seq<nat>, t: seq<nat>)
    requires Ascending(s) && Ascending(t) && forall x, y :: x in s && y in t ==> x <= y
    ensures Ascending(s + t)
  {
    assert forall i :: 0 <= i < |s| ==> s[i] in s;
    assert forall i :: 0 <= i < |t| ==> t[i] in t;
  }

  // Which begins there are depends only on which mentions there are.
  lemma {:induction false} BeginsCount(ms: seq<Mention>, ns: seq<Mention>, last: int, first: int)
    requires multiset(ms) == multiset(ns)
    ensures multiset(Begins(ms, last, first)) == multiset(Begins(ns, last, first))
  {
    if ms == [] {
      assert |multiset(ns)| == 0;
    } else {
      assert ms[0] in multiset(ns);
      assert ms[0] in ns;
      var k :| 0 <= k < |ns| && ns[k] == ms[0];
      RestOf(ms);
      Removed(ns, k);
      BeginsCount(ms[1..], ns[..k] + ns[k + 1..], last, first);
      BeginsRemoved(ns, k, last, first);
      BeginsFirst(ms, last, first);
    }
  }

  lemma Removed<T>(s: seq<T>, k: nat)
    requires k < |s|
    ensures multiset(s[..k] + s[k + 1..]) == multiset(s) - multiset{s[k]}
  {
    assert s == s[..k] + ([s[k]] + s[k + 1..]);
    assert multiset(s) == multiset(s[..k]) + multiset{s[k]} + multiset(s[k + 1..]);
  }

  // Counting the first mention of a list.
  function One(m: Mention, counted: bool): multiset<nat> {
    if counted then multiset{m.begin} else multiset{}
  }

  lemma BeginsFirst(ms: seq<Mention>, last: int, first: int)
    requires ms != []
    ensures multiset(Begins(ms, last, first)) ==
            One(ms[0], ms[0].begin <= last && first <= ms[0].end) + multiset(Begins(ms[1..], last, first))
  {
  }

  lemma EndingFirst(ms: seq<Mention>, pos: nat)
    requires ms != []
    ensures multiset(BeginsOf(EndingAt(ms, pos))) == One(ms[0], ms[0].end == pos) +
            multiset(BeginsOf(EndingAt(ms[1..], pos)))
  {
    if ms[0].end == pos {
      assert EndingAt(ms, pos)[1..] == EndingAt(ms[1..], pos);
    }
  }

  lemma BeginsRemoved(ns: seq<Mention>, k: nat, last: int, first: int)
    requires k < |ns|
    ensures multiset(Begins(ns, last, first)) ==
            One(ns[k], ns[k].begin <= last && first <= ns[k].end) + multiset(Begins(ns[..k] + ns[k + 1..], last, first))
  {
    var a, b := ns[..k], ns[k + 1..];
    assert ns == a + ([ns[k]] + b);
    BeginsSplit(a, b, last, first);
    BeginsSplit(a, [ns[k]] + b, last, first);
    BeginsFirst([ns[k]] + b, last, first);
    assert ([ns[k]] + b)[1..] == b;
  }

  lemma {:induction false} BeginsSplit(a: seq<Mention>, b: seq<Mention>, last: int, first: int)
    ensures Begins(a + b, last, first) == Begins(a, last, first) + Begins(b, last, first)
  {
    if a == [] {
      assert a + b == b;
    } else {
      BeginsSplit(a[1..], b, last, first);
      assert (a + b)[0] == a[0] && (a + b)[1..] == a[1..] + b;
      var x := [a[0].begin];
      assert x + (Begins(a[1..], last, first) + Begins(b, last, first)) == x + Begins(a[1..], last, first) +
             Begins(b, last, first);
    }
  }

  // The brackets of the mentions that begin at a position.
  function Begun(ms: seq<Mention>, pos: nat): seq<nat> {
    if ms == [] then []
    else if ms[0].begin == pos && !IsEmpty(ms[0]) then [pos] + Begun(ms[1..], pos) else Begun(ms[1..], pos)
  }

  lemma {:induction false} BegunAll(ms: seq<Mention>, pos: nat)
    ensures forall b :: b in Begun(ms, pos) ==> b == pos
    ensures Ascending(Begun(ms, pos))
    ensures Begun(ms, pos) == [] <==> forall i :: 0 <= i < |ms| && !IsEmpty(ms[i]) ==> ms[i].begin != pos
  {
    if ms != [] {
      BegunAll(ms[1..], pos);
      var f := Begun(ms[1..], pos);
      assert forall i :: 0 <= i < |f| ==> f[i] in f;
      assert forall i :: 0 <= i < |ms| - 1 ==> ms[1..][i] == ms[i + 1];
    }
  }

  lemma {:induction false} BegunCount(ms: seq<Mention>, pos: nat)
    requires forall i :: 0 <= i < |ms| ==> ms[i].begin < ms[i].end
    ensures multiset(Begins(ms, pos, pos)) == multiset(Begins(ms, pos - 1, pos)) + multiset(Begun(ms, pos))
  {
    if ms != [] {
      assert forall i :: 0 <= i < |ms| - 1 ==> ms[1..][i] == ms[i + 1];
      BegunCount(ms[1..], pos);
    }
  }

  // Opening the brackets at a position.
  lemma OpenedStack(starts: seq<Mention>, pos: nat)
    requires ByStart(starts) && forall i :: 0 <= i < |starts| ==> starts[i].begin < starts[i].end
    ensures Begins(starts, pos, pos) == Begins(starts, pos - 1, pos) + Begun(starts, pos)
  {
    var before, begun := Begins(starts, pos - 1, pos), Begun(starts, pos);
    BeginsAscending(starts, pos - 1, pos);
    BeginsAscending(starts, pos, pos);
    BegunAll(starts, pos);
    BegunCount(starts, pos);
    forall x, y | x in before && y in begun
      ensures x <= y
    {
      var i := BeginsFrom(starts, pos - 1, pos, x);
    }
    AscendingJoin(before, begun);
    AscendingUnique(Begins(starts, pos, pos), before + begun);
  }

  lemma {:induction false} EndingCount(ms: seq<Mention>, last: int, pos: nat)
    requires pos - 1 <= last && forall i :: 0 <= i < |ms| ==> ms[i].begin < ms[i].end
    ensures multiset(Begins(ms, last, pos)) ==
            multiset(Begins(ms, last, pos + 1)) + multiset(BeginsOf(EndingAt(ms, pos)))
  {
    if ms != [] {
      var m, rest := ms[0], ms[1..];
      assert forall i :: 0 <= i < |rest| ==> rest[i] == ms[i + 1];
      EndingCount(rest, last, pos);
      BeginsFirst(ms, last, pos);
      BeginsFirst(ms, last, pos + 1);
      EndingFirst(ms, pos);
    }
  }

  lemma {:induction false} EndingAtFrom(ms: seq<Mention>, pos: nat, k: nat) returns (i: nat)
    requires k < |EndingAt(ms, pos)|
    ensures i < |ms| && ms[i] == EndingAt(ms, pos)[k] && ms[i].end == pos
  {
    if ms[0].end != pos {
      i := EndingAtFrom(ms[1..], pos, k);
      i := i + 1;
    } else if k == 0 {
      i := 0;
    } else {
      i := EndingAtFrom(ms[1..], pos, k - 1);
      i := i + 1;
    }
  }

  predicate Decreasing(s: seq<nat>) {
    forall i, j :: 0 <= i < j < |s| ==> s[i] >= s[j]
  }

  lemma {:induction false} BeginsOfFrom(ms: seq<Mention>, b: nat) returns (k: nat)
    requires b in BeginsOf(ms)
    ensures k < |ms| && ms[k].begin == b
  {
    if ms[0].begin == b {
      k := 0;
    } else {
      k := BeginsOfFrom(ms[1..], b);
      k := k + 1;
    }
  }

  lemma {:induction false} EndingDescends(ends: seq<Mention>, pos: nat)
    requires ByEnd(ends)
    ensures Decreasing(BeginsOf(EndingAt(ends, pos)))
  {
    if ends != [] {
      var rest := ends[1..];
      assert forall i :: 0 <= i < |rest| ==> rest[i] == ends[i + 1];
      EndingDescends(rest, pos);
      if ends[0].end == pos {
        var c := EndingAt(rest, pos);
        var b := BeginsOf(c);
        forall k | 0 <= k < |b|
          ensures ends[0].begin >= b[k]
        {
          assert b[k] in b;
          var n := BeginsOfFrom(c, b[k]);
          var i := EndingAtFrom(rest, pos, n);
        }
        assert EndingAt(ends, pos) == [ends[0]] + c && ([ends[0]] + c)[1..] == c;
        assert BeginsOf(EndingAt(ends, pos)) == [ends[0].begin] + b;
      }
    }
  }

  ghost predicate NoneBeginsAt(ms: seq<Mention>, pos: nat) {
    forall i, j :: 0 <= i < |ms| && 0 <= j < |ms| && ms[i].begin == pos ==> ms[j].end != pos
  }

  // The same mentions in both orders, all of them proper.
  ghost predicate Orders(starts: seq<Mention>, ends: seq<Mention>) {
    && ByStart(starts) && ByEnd(ends) && multiset(starts) == multiset(ends)
    && (forall i :: 0 <= i < |starts| ==> starts[i].begin < starts[i].end)
    && (forall i :: 0 <= i < |ends| ==> ends[i].begin < ends[i].end)
  }

  lemma InBoth(starts: seq<Mention>, ends: seq<Mention>, i: nat) returns (j: nat)
    requires multiset(starts) == multiset(ends) && i < |starts|
    ensures j < |ends| && ends[j] == starts[i]
  {
    assert starts[i] in multiset(ends);
    assert starts[i] in ends;
    j :| 0 <= j < |ends| && ends[j] == starts[i];
  }

  /** The mentions that end at a position were opened last, in the opposite order. */
  lemma ClosedStack(starts: seq<Mention>, ends: seq<Mention>, last: int, pos: nat)
    requires Orders(starts, ends) && Laminar(ends) && NoneBeginsAt(ends, pos) && pos - 1 <= last <= pos
    ensures Begins(starts, last, pos) == Begins(starts, last, pos + 1) + Reversed(BeginsOf(EndingAt(ends, pos)))
  {
    var closed := BeginsOf(EndingAt(ends, pos));
    var open := Begins(starts, last, pos + 1);
    BeginsAscending(starts, last, pos);
    BeginsAscending(starts, last, pos + 1);
    EndingDescends(ends, pos);
    ReversedFacts(closed);
    EndingCount(ends, last, pos);
    BeginsCount(starts, ends, last, pos);
    BeginsCount(starts, ends, last, pos + 1);
    forall x, y | x in open && y in Reversed(closed)
      ensures x <= y
    {
      OpenFirst(starts, ends, last, pos, x, y);
    }
    AscendingJoin(open, Reversed(closed));
    AscendingUnique(Begins(starts, last, pos), open + Reversed(closed));
  }

  lemma OpenFirst(starts: seq<Mention>, ends: seq<Mention>, last: int, pos: nat, x: nat, y: nat)
    requires Orders(starts, ends) && Laminar(ends) && NoneBeginsAt(ends, pos) && pos - 1 <= last <= pos
    requires x in Begins(starts, last, pos + 1) && y in Reversed(BeginsOf(EndingAt(ends, pos)))
    ensures x <= y
  {
    var closed := BeginsOf(EndingAt(ends, pos));
    ReversedFacts(closed);
    assert y in multiset(closed);
    assert y in closed;
    var k := BeginsOfFrom(EndingAt(ends, pos), y);
    var i := EndingAtFrom(ends, pos, k);
    var n := BeginsFrom(starts, last, pos + 1, x);
    var j := InBoth(starts, ends, n);
    assert Apart(ends[i], ends[j]);
  }

  lemma {:induction false} EndingNext(ends: seq<Mention>, pos: nat)
    requires ByEnd(ends)
    ensures EndingBefore(ends, pos + 1) == EndingBefore(ends, pos) + EndingAt(ends, pos)
  {
    if ends != [] {
      var m, rest := ends[0], ends[1..];
      assert forall i :: 0 <= i < |rest| ==> rest[i] == ends[i + 1];
      EndingNext(rest, pos);
      var x, y := EndingBefore(rest, pos), EndingAt(rest, pos);
      if m.end == pos {
        NothingBefore(rest, pos);
        assert x == [] && [] + y == y && [] + ([m] + y) == [m] + y;
      } else if m.end < pos {
        assert [m] + (x + y) == [m] + x + y;
      }
    }
  }

  lemma {:induction false} NothingBefore(ends: seq<Mention>, pos: nat)
    requires forall i :: 0 <= i < |ends| ==> pos <= ends[i].end
    ensures EndingBefore(ends, pos) == []
  {
    if ends != [] {
      assert forall i :: 0 <= i < |ends| - 1 ==> ends[1..][i] == ends[i + 1];
      NothingBefore(ends[1..], pos);
    }
  }

  lemma {:induction false} AllBefore(ends: seq<Mention>, pos: nat)
    requires forall i :: 0 <= i < |ends| ==> ends[i].end < pos
    ensures EndingBefore(ends, pos) == ends
  {
    if ends != [] {
      assert forall i :: 0 <= i < |ends| - 1 ==> ends[1..][i] == ends[i + 1];
      AllBefore(ends[1..], pos);
      assert ends == [ends[0]] + ends[1..];
    }
  }
}
