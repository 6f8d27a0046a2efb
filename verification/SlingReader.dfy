/**
  The reader as the program runs it (app/lib/frame.js:1099-1456): the current character and the current token move
  over the input while the store and the table of indexed frames are filled.
 */
module SlingReader {
  import opened Common
  import opened SlingVarint
  import opened SlingGraph
  import opened SlingLexis
  import opened SlingText

  // What the JSON parser makes of a string literal with its quotes.
  function JsonString(t: seq<byte>): Option<seq<byte>> {
    if |t| < 2 || t[0] != 34 || t[|t| - 1] != 34 then None else Unescape(t[1..|t| - 1])
  }

  /** A literal at the end of the input loses its closing quote, and then is no string even if it ends with an
      escaped quote. */
  lemma {:induction false} CutLiteral(t: seq<byte>)
    requires LiteralLength(t + [34]) == |t|
    ensures t != [] && t[|t| - 1] == 34 ==> Unescape(t[..|t| - 1]) == None
    decreases |t|
  {
    if t != [] && t[|t| - 1] == 34 {
      var u := t[..|t| - 1];
      assert (t + [34])[0] == t[0];
      assert |t| > 1;
      if t[0] != 92 {
        assert (t + [34])[1..] == t[1..] + [34];
        CutLiteral(t[1..]);
        assert t[1..][..|t| - 2] == u[1..];
      } else if t[1] != 117 {
        assert (t + [34])[2..] == t[2..] + [34];
        if |t| > 2 {
          CutLiteral(t[2..]);
          assert t[2..][..|t| - 3] == u[2..];
        }
      } else if UnescapeChar(u).Some? {
        assert (t + [34])[2..] == t[2..6] + (t[6..] + [34]);
        PlainLiteral(t[2..6], t[6..] + [34]);
        CutLiteral(t[6..]);
        assert t[6..][..|t| - 7] == u[6..];
      }
    }
  }

  // Characters that are neither quotes nor backslashes come before the end of the literal.
  lemma LiteralSlice(s: seq<byte>, first: byte, n: nat, all: seq<byte>)
    requires n == LiteralLength(all) < |all| && all[n] == 34 && n + 1 < |all| && s == [first] + all[..n + 1]
    ensures JsonString(s) == if first == 34 then Literal(all).0 else None
  {
    hide Unescape, LiteralLength;
    assert s[1..|s| - 1] == all[..n];
    assert s[|s| - 1] == all[..n + 1][n];
  }

  lemma CutSlice(s: seq<byte>, first: byte, n: nat, all: seq<byte>)
    requires n == LiteralLength(all) && n + 1 == |all| && all[n] == 34 && s == [first] + all[..n]
    ensures JsonString(s) == None
  {
    hide Unescape, LiteralLength;
    assert all == all[..n] + [34];
    CutLiteral(all[..n]);
    if n > 0 {
      assert s[1..|s| - 1] == all[..n][..n - 1];
      assert s[|s| - 1] == all[..n][n - 1];
    }
  }

  // ----- the reader -----

  class Reader {
    const input: seq<byte>
    var pos: nat
    var ch: int
    var token: Token
    var heap: Heap
    var names: map<seq<byte>, nat>
    var refs: map<nat, nat>

    // The current character is the one before the position; after the last one it is -1.
    predicate Valid()
      reads this`pos, this`ch
    {
      && pos <= |input|
      && if ch == -1 then pos == |input| else pos > 0 && ch == input[pos - 1]
    }

    // The position of the current character.
    function At(): (r: nat)
      requires Valid()
      reads this`pos, this`ch
      ensures r <= |input|
    {
      if ch == -1 then pos else pos - 1
    }

    // The input from the current character on.
    function Rest(): (r: seq<byte>)
      requires Valid()
      reads this`pos, this`ch
      ensures r == [] <==> ch == -1
      ensures r != [] ==> r[0] == ch
    {
      input[At()..]
    }

    function State(): Shelf
      reads this`heap, this`names, this`refs
    {
      Shelf(heap, names, refs)
    }

    // The current token and the text after it.
    function Current(): Here
      requires Valid()
      reads this`pos, this`ch, this`token
    {
      Here(token, Rest())
    }

    // A new reader has read the first character; without `bare` it goes on to the first token with Next.
    constructor (input: seq<byte>)
      ensures this.input == input && Valid() && Rest() == input && State() == EmptyShelf()
    {
      this.input := input;
      ch, pos := if |input| > 0 then input[0] as int else -1, if |input| > 0 then 1 else 0;
      token := End;
      heap, names, refs := EmptyShelf().heap, EmptyShelf().names, map[];
    }

    // ----- characters -----

    method Read()
      requires Valid()
      modifies this`pos, this`ch
      ensures Valid() && At() == if old(ch) == -1 then old(At()) else old(At()) + 1
      ensures Rest() == if old(Rest()) == [] then [] else old(Rest())[1..]
    {
      if pos < |input| {
        ch := input[pos];
        pos := pos + 1;
      } else {
        ch := -1;
      }
    }

    method ReadDigits() returns (digits: seq<byte>)
      requires Valid()
      modifies this`pos, this`ch
      ensures Valid() && |digits| == DigitLength(old(Rest())) && digits == old(Rest())[..|digits|]
      ensures Rest() == old(Rest())[|digits|..]
    {
      var start := At();
      ghost var all := Rest();
      while 48 <= ch <= 57
        invariant Valid() && start <= At() && At() - start + DigitLength(input[At()..]) == DigitLength(all)
        decreases |input| - At()
      {
        DigitStep(input, At());
        Read();
      }
      digits := input[start..At()];
      Taken(input, start, At());
    }

    method ReadName() returns (name: seq<byte>)
      requires Valid()
      modifies this`pos, this`ch
      ensures Valid() && |name| == NameLength(old(Rest())) && name == old(Rest())[..|name|]
      ensures Rest() == old(Rest())[|name|..]
    {
      var start := At();
      ghost var all := Rest();
      while ch != -1 && IsName(ch)
        invariant Valid() && start <= At() && At() - start + NameLength(input[At()..]) == NameLength(all)
        decreases |input| - At()
      {
        NameStep(input, At());
        Read();
      }
      name := input[start..At()];
      Taken(input, start, At());
    }

    method SkipComment()
      requires Valid() && ch == 59
      modifies this`pos, this`ch
      ensures Valid() && Rest() == old(Rest())[1 + CommentLength(old(Rest())[1..])..]
    {
      ghost var t, start := Rest(), At() + 1;
      Read();
      while ch != -1 && ch != 10
        invariant Valid() && start <= At() && At() - start + CommentLength(input[At()..]) ==
                  CommentLength(input[start..])
        decreases |input| - At()
      {
        CommentStep(input, At());
        Read();
      }
      Taken(input, start - 1, At());
      assert t[1..] == input[start..];
    }

    // Going to the closing quote of a literal.
    method SkipLiteral()
      requires Valid()
      modifies this`pos, this`ch
      ensures Valid() && At() == old(At()) + LiteralLength(old(Rest())) && (ch == -1 || ch == 34)
    {
      ghost var start := At();
      while ch != -1 && ch != 34
        invariant Valid() && start <= At() && At() - start + LiteralLength(input[At()..]) ==
                  LiteralLength(input[start..])
        decreases |input| - At()
      {
        LiteralStep(input, At());
        if ch == 92 {
          Read();
        }
        Read();
      }
    }

    // ----- tokens -----

    // The reader has taken a token, or found something that is none.
    predicate Took(spec: Here, fault: Option<string>)
      requires Valid()
      reads this`pos, this`ch, this`token
    {
      if spec.token.Bad? then fault == Some(spec.token.error) else fault == None && Current() == spec
    }

    // The text that is parsed as a string: a literal with its quotes, but without the last when it ends the input.
    method ReadLiteral() returns (literal: Option<seq<byte>>)
      requires Valid() && ch != -1
      modifies this`pos, this`ch
      ensures Valid()
      ensures var all := old(Rest())[1..]; var n := LiteralLength(all);
              if n == |all| then literal == None
              else literal == Some([old(Rest())[0]] + if n + 1 < |all| then all[..n + 1] else all[..n]) && all[n] == 34
                   && Rest() == all[n + 1..]
    {
      hide LiteralLength;
      var start := At();
      ghost var t := Rest();
      Read();
      ghost var all := Rest();
      SkipLiteral();
      if ch == -1 {
        return None;
      }
      ghost var n := LiteralLength(all);
      From(input, start, n);
      Read();
      Slices(input, start, if n + 1 < |all| then n + 1 else n);
      return Some(input[start..pos - 1]);
    }

    // A string literal from its opening quote on.
    method ReadString() returns (fault: Option<string>)
      requires Valid()
      modifies this`pos, this`ch, this`token
      ensures Valid() && Took(StringToken(old(Rest())), fault)
    {
      hide Unescape, LiteralLength, JsonString;
      if ch == -1 {
        return Some("invalid string");
      }
      ghost var t := Rest();
      var literal := ReadLiteral();
      if literal.None? {
        return Some("invalid string");
      }
      ghost var all := t[1..];
      ghost var n := LiteralLength(all);
      if n + 1 < |all| {
        LiteralSlice(literal.value, t[0], n, all);
      } else {
        CutSlice(literal.value, t[0], n, all);
      }
      var text := JsonString(literal.value);
      if text.None? {
        return Some("invalid string");
      }
      token := Str(text.value);
      return None;
    }

    method ReadNumber(negative: bool) returns (fault: Option<string>)
      requires Valid()
      modifies this`pos, this`ch, this`token
      ensures Valid() && Took(NumberToken(negative, old(Rest())), fault)
    {
      var digits := ReadDigits();
      if digits == [] || ch == 46 || ch == 69 || ch == 101 {
        return Some("not an integer");
      }
      var value: int := DigitsValue(digits);
      token := Num(if negative then -value else value);
      return None;
    }

    // An index after its sign.
    method ReadIndex() returns (fault: Option<string>)
      requires Valid()
      modifies this`pos, this`ch, this`token
      ensures Valid() && Took(IndexToken(old(Rest())), fault)
    {
      var digits := ReadDigits();
      if digits == [] {
        return Some("invalid index");
      }
      token := Index(DigitsValue(digits));
      return None;
    }

    method ReadWord() returns (fault: Option<string>)
      requires Valid()
      modifies this`pos, this`ch, this`token
      ensures Valid() && Took(NameToken(old(Rest())), fault)
    {
      var name := ReadName();
      if name == [] {
        return Some("invalid character");
      }
      token := WordToken(name);
      return None;
    }

    // The token that starts with the current character.
    method ReadToken() returns (fault: Option<string>)
      requires Valid() && ch != -1
      modifies this`pos, this`ch, this`token
      ensures Valid() && Took(FirstToken(old(Rest())), fault)
    {
      hide NumberToken, IndexToken, NameToken, StringToken;
      if IsMark(ch) {
        token := Mark(ch);
        Read();
        return None;
      } else if ch == 34 {
        fault := ReadString();
      } else if IsDigit(ch) || ch == 46 || ch == 45 {
        var negative := ch == 45;
        if negative {
          Read();
        }
        fault := ReadNumber(negative);
      } else if ch == 35 {
        Read();
        fault := ReadIndex();
      } else if ch == 36 {
        Read();
        fault := ReadString();
        if fault == None {
          token := Symbol(token.text);
        }
      } else {
        fault := ReadWord();
      }
    }

    // Going on to the next token, past white space and comments.
    method Next() returns (fault: Option<string>)
      requires Valid()
      modifies this`pos, this`ch, this`token
      ensures Valid() && Took(Scan(old(Rest())), fault)
    {
      hide FirstToken;
      while true
        invariant Valid() && Scan(Rest()) == Scan(old(Rest()))
        decreases |Rest()|
      {
        ghost var here := Rest();
        while ch == 32 || ch == 9 || ch == 13 || ch == 10
          invariant Valid() && Scan(Rest()) == Scan(old(Rest())) && |Rest()| <= |here|
          decreases |Rest()|
        {
          Read();
        }
        if ch == -1 {
          token := End;
          return None;
        }
        if ch != 59 {
          fault := ReadToken();
          return;
        }
        SkipComment();
      }
    }

    // ----- objects -----

    // The reader is where the specification says it should be.
    predicate Obtained(spec: Result<Parsed, string>, r: Result<Value, string>)
      requires Valid()
      reads this
    {
      match spec
      case Success(p) => r == Success(p.value) && Current() == p.here && State() == p.shelf
      case Failure(e) => r == Failure(e)
    }

    // All objects of the input; the last one counts.
    method ReadAll() returns (r: Result<Value, string>)
      requires Valid()
      modifies this
      ensures Valid()
      ensures match ReadInto(old(Rest()), old(State()))
              case Success(p) => r == Success(p.0) && State() == p.1
              case Failure(e) => r == Failure(e)
    {
      hide Parse, Scan, Rest, At, Valid;
      var fault := Next();
      if fault.Some? {
        return Failure(fault.value);
      }
      ghost var whole := ParseAll(Current(), State());
      r := Object();
      while r.Success? && !token.End?
        invariant Valid()
        invariant r.Failure? ==> whole == Failure(r.error)
        invariant r.Success? ==> whole == if token.End? then Success((r.value, State()))
                  else ParseAll(Current(), State())
        decreases if r.Success? then 1 + Current().Size() else 0
      {
        r := Object();
      }
    }

    method Object() returns (r: Result<Value, string>)
      requires Valid()
      modifies this
      ensures Valid() && Obtained(Parse(old(Current()), old(State())), r)
      decreases Current().Size(), 0
    {
      hide Scan, ParseFrame, ParseArray, ParseQualifier, Rest, At, Valid;
      if token.End? {
        return Success(Undefined);
      }
      var k := token;
      var fault := Next();
      if fault.Some? {
        return Failure(fault.value);
      }
      match k
      case Nil => return Success(Null);
      case False => return Success(Truth(false));
      case True => return Success(Truth(true));
      case Num(n) => return Success(Number(n));
      case Str(text) => r := QualifiedString(text);
      case Index(n) =>
        var f := Indexed(n);
        return Success(Link(f));
      case Symbol(id) =>
        var f := Lookup(id);
        return Success(Link(f));
      case Mark(c) =>
        if c == 123 {
          r := FrameObject();
        } else if c == 91 {
          r := Array();
        } else {
          return Failure("syntax error");
        }
      case _ => return Failure("syntax error");
    }

    // The frame with an id, a new proxy if there is none.
    method Lookup(id: seq<byte>) returns (f: nat)
      modifies this`heap, this`names
      ensures (State(), f) == Find(old(State()), id)
    {
      if id in names {
        return names[id];
      }
      f := |heap|;
      heap := heap + [Frame(Proxy, Some([Slot(Link(ID), Text(id))]))];
      names := names[id := f];
    }

    // The frame with an index, a placeholder if there is none.
    method Indexed(n: nat) returns (f: nat)
      modifies this`heap, this`refs
      ensures (State(), f) == Placeholder(old(State()), n)
    {
      if n in refs {
        return refs[n];
      }
      f := |heap|;
      heap := heap + [Frame(Anonymous, None)];
      refs := refs[n := f];
    }

    // What comes after a string.
    method QualifiedString(text: seq<byte>) returns (r: Result<Value, string>)
      requires Valid()
      modifies this
      ensures Valid() && Obtained(ParseQualifier(old(Current()), text, old(State())), r)
      decreases Current().Size(), 1
    {
      hide Scan, Parse, ParseQualifier, Go, Rest, At, Valid;
      QualifierIs(Current(), text, State());
      if token != Mark(64) {
        return Success(Text(text));
      }
      var fault := Next();
      if fault.Some? {
        return Failure(fault.value);
      }
      r := Object();
      if r.Success? {
        r := Success(Qualified(text, r.value));
      }
    }

    method Array() returns (r: Result<Value, string>)
      requires Valid()
      modifies this
      ensures Valid() && Obtained(ParseArray(old(Current()), old(State())), r)
      decreases Current().Size(), 3
    {
      hide Scan, Parse, ParseElements, ParseArray, Go, Rest, At, Valid;
      ArrayEnds(Current(), State());
      var elements := Elements();
      if elements.Failure? {
        return Failure(elements.error);
      }
      var fault := Next();
      return if fault.Some? then Failure(fault.value) else Success(List(elements.value));
    }

    // The elements of an array up to its closing bracket.
    method Elements() returns (r: Result<seq<Value>, string>)
      requires Valid()
      modifies this
      ensures Valid()
      ensures match ParseElements(old(Current()), old(State()))
              case Success(p) => r == Success(p.0) && Current() == p.1 && State() == p.2
              case Failure(e) => r == Failure(e)
      decreases Current().Size(), 2
    {
      hide Scan, Parse, ParseElements, Into, Rest, At, Valid;
      var elements := [];
      ghost var whole := ParseElements(Current(), State());
      IntoNothing(whole);
      while token != Mark(93)
        invariant Valid() && Current().Size() <= old(Current().Size())
        invariant Into(elements, ParseElements(Current(), State())) == whole
        decreases Current().Size()
      {
        IntoStep(elements, Current(), State());
        if token.End? {
          return Failure("array is not closed");
        }
        var e := Object();
        if e.Failure? {
          return Failure(e.error);
        }
        elements := elements + [e.value];
        if token == Mark(44) {
          var fault := Next();
          if fault.Some? {
            return Failure(fault.value);
          }
        }
      }
      IntoLast(elements, Current(), State());
      return Success(elements);
    }

    // What has been read of the slots of a frame is what the specification says.
    predicate Got(spec: Result<Slots, string>, fault: Option<string>, slots: seq<Slot>, frame: Option<nat>,
                  index: Option<nat>)
      requires Valid()
      reads this
    {
      match spec
      case Success(g) =>
        fault == None && slots == g.slots && frame == g.frame && index == g.index && Current() == g.here
        && State() == g.shelf
      case Failure(e) => fault == Some(e)
    }

    // The slots of a frame up to its closing bracket.
    method FrameSlots() returns (fault: Option<string>, slots: seq<Slot>, frame: Option<nat>, index: Option<nat>)
      requires Valid()
      modifies this
      ensures Valid()
      ensures Got(ParseSlots(old(Current()), Slots([], None, None, old(Current()), old(State()))), fault, slots, frame,
                  index)
      decreases Current().Size(), 3
    {
      hide Scan, ParseSlots, ParseSlot, Go, Rest, At, Valid;
      slots, frame, index, fault := [], None, None, None;
      ghost var got := Slots([], None, None, Current(), State());
      ghost var whole := ParseSlots(Current(), got);
      while token != Mark(125)
        invariant Valid() && Current().Size() <= old(Current().Size()) && fault == None
        invariant got.slots == slots && got.frame == frame && got.index == index && got.shelf == State()
        invariant ParseSlots(Current(), got) == whole
        decreases Current().Size()
      {
        ghost var one := ParseSlot(Current(), got);
        SlotsStep(Current(), got);
        fault, slots, frame, index := OneSlot(slots, frame, index, got);
        if fault.Some? {
          return;
        }
        got := one.value;
        if token == Mark(44) {
          GoIs(Current());
          fault := Next();
          if fault.Some? {
            return;
          }
        }
      }
      SlotsLast(Current(), got);
    }

    // An index, an id or another slot.
    method OneSlot(slots: seq<Slot>, frame: Option<nat>, index: Option<nat>, ghost got: Slots)
      returns (fault: Option<string>, slots': seq<Slot>, frame': Option<nat>, index': Option<nat>)
      requires Valid() && got.slots == slots && got.frame == frame && got.index == index && got.shelf == State()
      modifies this
      ensures Valid() && Got(ParseSlot(old(Current()), got), fault, slots', frame', index')
      decreases Current().Size(), 2
    {
      hide Scan, Parse, ParseId, Go, Rest, At, Valid;
      GoIs(Current());
      slots', frame', index' := slots, frame, index;
      if token.End? {
        fault := Some("syntax error");
      } else if token == Mark(61) {
        fault := Next();
        if fault == None {
          fault, slots', frame', index' := SlotId(slots, frame, index, got);
        }
      } else if token == Mark(58) || token == Mark(43) {
        var name := Link(if token == Mark(58) then ISA else IS);
        fault := Next();
        if fault == None {
          fault, slots' := SlotValue(slots, name);
        }
      } else {
        var name := Object();
        if name.Failure? {
          fault := Some(name.error);
        } else if token != Mark(58) {
          fault := Some("missing colon");
        } else {
          GoIs(Current());
          fault := Next();
          if fault == None {
            fault, slots' := SlotValue(slots, name.value);
          }
        }
      }
    }

    // The value of a slot with a name.
    method SlotValue(slots: seq<Slot>, name: Value) returns (fault: Option<string>, slots': seq<Slot>)
      requires Valid()
      modifies this
      ensures Valid()
      ensures match Parse(old(Current()), old(State()))
              case Success(v) => fault == None && slots' == slots + [Slot(name, v.value)] && Current() == v.here
                                 && State() == v.shelf
              case Failure(e) => fault == Some(e)
      decreases Current().Size(), 1
    {
      hide Parse, Rest, At, Valid;
      var v := Object();
      if v.Failure? {
        return Some(v.error), slots;
      }
      return None, slots + [Slot(name, v.value)];
    }

    method SlotId(slots: seq<Slot>, frame: Option<nat>, index: Option<nat>, ghost got: Slots)
      returns (fault: Option<string>, slots': seq<Slot>, frame': Option<nat>, index': Option<nat>)
      requires Valid() && got.slots == slots && got.frame == frame && got.index == index && got.shelf == State()
      modifies this`pos, this`ch, this`token
      ensures Valid() && Got(ParseId(old(Current()), got), fault, slots', frame', index')
    {
      hide Scan, Rest, At, Valid;
      slots', frame', index' := slots, frame, index;
      var k := token;
      if !k.Index? && !k.Symbol? {
        fault := Some("frame id expected");
        return;
      }
      fault := Next();
      if k.Index? {
        if frame.None? && k.index in refs {
          frame' := Some(refs[k.index]);
        }
        index' := Some(k.index);
      } else {
        if frame.None? && k.name in names {
          frame' := Some(names[k.name]);
        }
        slots' := slots + [Slot(Link(ID), Text(k.name))];
      }
    }

    // A frame after its opening bracket.
    method FrameObject() returns (r: Result<Value, string>)
      requires Valid()
      modifies this
      ensures Valid() && Obtained(ParseFrame(old(Current()), old(State())), r)
      decreases Current().Size(), 4
    {
      hide Scan, ParseSlots, Finish, ParseFrame, Go, Rest, At, Valid;
      FrameEnds(Current(), State());
      var fault, slots, frame, index := FrameSlots();
      if fault.Some? {
        return Failure(fault.value);
      }
      fault := Next();
      if fault.Some? {
        return Failure(fault.value);
      }
      var f := FinishFrame(slots, frame, index);
      return Success(Link(f));
    }

    // The slots go to the frame that is known, or to a new one.
    method FinishFrame(slots: seq<Slot>, frame: Option<nat>, index: Option<nat>) returns (f: nat)
      modifies this`heap, this`names, this`refs
      ensures (State(), f) == Finish(slots, frame, index, old(State()))
    {
      hide AddIds, Scan, GiveSlots, Finish;
      FinishIs(slots, frame, index, State());
      if frame.Some? {
        f := frame.value;
        PutSlots(f, slots);
        AddToStore(f, slots);
      } else {
        f := |heap|;
        heap := heap + [Frame(Anonymous, Some(slots))];
        AddToStore(f, slots);
        if index.Some? {
          refs := refs[index.value := f];
        }
      }
    }

    method PutSlots(f: nat, slots: seq<Slot>)
      modifies this`heap
      ensures State() == GiveSlots(old(State()), f, slots)
    {
      if f < |heap| {
        heap := heap[f := heap[f].(slots := Some(slots))];
      }
    }

    // Registering a frame under its ids.
    method AddToStore(f: nat, slots: seq<Slot>)
      modifies this`heap, this`names
      ensures State() == AddIds(old(State()), f, slots)
    {
      hide AddIds, AddId;
      var n := 0;
      ghost var whole := AddIds(State(), f, slots);
      assert slots[0..] == slots;
      while n < |slots|
        invariant n <= |slots| && AddIds(State(), f, slots[n..]) == whole
      {
        AddIdsStep(State(), f, slots, n);
        if slots[n].name == Link(ID) {
          Register(slots[n].value, f);
        }
        n := n + 1;
      }
      NoMoreIds(State(), f, slots);
    }

    method Register(id: Value, f: nat)
      modifies this`heap, this`names
      ensures State() == AddId(old(State()), f, id)
    {
      if id.Text? {
        names := names[id.utf8 := f];
      }
      if f < |heap| {
        heap := heap[f := heap[f].(state := Public)];
      }
    }
  }

  // ----- steps of the loops -----

  lemma GoIs(k: Here)
    ensures var n := Scan(k.rest); Go(k) == if n.token.Bad? then Failure(n.token.error) else Success(n)
  {
  }

  lemma DigitStep(t: seq<byte>, i: nat)
    requires i < |t| && IsDigit(t[i])
    ensures DigitLength(t[i..]) == 1 + DigitLength(t[i + 1..])
  {
    assert t[i..][1..] == t[i + 1..];
  }

  lemma NameStep(t: seq<byte>, i: nat)
    requires i < |t| && IsName(t[i])
    ensures NameLength(t[i..]) == 1 + NameLength(t[i + 1..])
  {
    assert t[i..][1..] == t[i + 1..];
  }

  lemma CommentStep(t: seq<byte>, i: nat)
    requires i < |t| && t[i] != 10
    ensures CommentLength(t[i..]) == 1 + CommentLength(t[i + 1..])
  {
    assert t[i..][1..] == t[i + 1..];
  }

  lemma LiteralStep(t: seq<byte>, i: nat)
    requires i < |t| && t[i] != 34
    ensures var n := if t[i] == 92 && i + 1 < |t| then 2 else 1; LiteralLength(t[i..]) == n + LiteralLength(t[i + n..])
  {
    assert t[i..][1..] == t[i + 1..];
    if t[i] == 92 && i + 1 < |t| {
      assert t[i..][2..] == t[i + 2..];
    }
  }

  // The part of a text that has been taken, and what is left of it.
  lemma Taken(t: seq<byte>, start: nat, at: nat)
    requires start <= at <= |t|
    ensures t[start..at] == t[start..][..at - start] && t[at..] == t[start..][at - start..]
  {
  }

  // What comes after a position, from another one on.
  lemma From(t: seq<byte>, start: nat, n: nat)
    requires start + 1 + n < |t|
    ensures var all := t[start + 1..];
            |all| == |t| - start - 1 && all[n] == t[start + 1 + n] && all[n..] == t[start + 1 + n..]
            && all[n + 1..] == all[n..][1..]
  {
  }

  lemma Slices(t: seq<byte>, start: nat, n: nat)
    requires start + 1 + n <= |t|
    ensures t[start..start + 1 + n] == [t[start]] + t[start + 1..][..n]
  {
  }

  lemma AddIdsStep(s: Shelf, f: nat, slots: seq<Slot>, n: nat)
    requires n < |slots|
    ensures AddIds(s, f, slots[n..]) ==
              AddIds(if slots[n].name == Link(ID) then AddId(s, f, slots[n].value) else s, f, slots[n + 1..])
  {
    assert slots[n..][0] == slots[n] && slots[n..][1..] == slots[n + 1..];
  }

  lemma NoMoreIds(s: Shelf, f: nat, slots: seq<Slot>)
    ensures AddIds(s, f, slots[|slots|..]) == s
  {
  }

  function Into(es: seq<Value>, r: Result<(seq<Value>, Here, Shelf), string>): Result<(seq<Value>, Here, Shelf),
      string> {
    if r.Failure? then r else Success((es + r.value.0, r.value.1, r.value.2))
  }

  lemma IntoNothing(r: Result<(seq<Value>, Here, Shelf), string>)
    ensures Into([], r) == r
  {
    assert r.Success? ==> [] + r.value.0 == r.value.0;
  }

  // Reading one element and a comma leads to reading the others.
  lemma IntoStep(es: seq<Value>, k: Here, s: Shelf)
    requires k.token != Mark(93)
    ensures var whole, e := Into(es, ParseElements(k, s)), Parse(k, s);
            if k.token.End? then whole == Failure("array is not closed")
            else if e.Failure? then whole == Failure(e.error)
            else if e.value.here.token == Mark(44)
                 && Go(e.value.here).Failure? then whole == Failure(Go(e.value.here).error)
            else whole == Into(es + [e.value.value],
                               ParseElements(if e.value.here.token == Mark(44) then Go(e.value.here).value
                                             else e.value.here, e.value.shelf))
  {
    hide Parse, Scan;
    var e := Parse(k, s);
    if !k.token.End? && e.Success? && SkipComma(e.value.here).Success? {
      var rest := ParseElements(SkipComma(e.value.here).value, e.value.shelf);
      if rest.Success? {
        assert es + ([e.value.value] + rest.value.0) == es + [e.value.value] + rest.value.0;
      }
    }
  }

  lemma IntoLast(es: seq<Value>, k: Here, s: Shelf)
    requires k.token == Mark(93)
    ensures Into(es, ParseElements(k, s)) == Success((es, k, s))
  {
    assert es + [] == es;
  }

  lemma SlotsStep(k: Here, got: Slots)
    requires k.token != Mark(125)
    ensures var whole, one := ParseSlots(k, got), ParseSlot(k, got);
            if one.Failure? then whole == one
            else if one.value.here.token == Mark(44) then
              if Go(one.value.here).Failure? then whole == Failure(Go(one.value.here).error)
              else whole == ParseSlots(Go(one.value.here).value, one.value)
            else whole == ParseSlots(one.value.here, one.value)
  {
    hide ParseSlot, Scan;
  }

  lemma ArrayEnds(k: Here, s: Shelf)
    ensures ParseArray(k, s) == match ParseElements(k, s)
                                case Failure(e) => Failure(e)
                                case Success(p) =>
                                  var n := Scan(p.1.rest);
                                  if n.token.Bad? then Failure(n.token.error) else Success(Parsed(List(p.0), n, p.2))
  {
    hide Scan, ParseElements;
  }

  lemma FrameEnds(k: Here, s: Shelf)
    ensures ParseFrame(k, s) == match ParseSlots(k, Slots([], None, None, k, s))
                                case Failure(e) => Failure(e)
                                case Success(g) =>
                                  var n, r := Scan(g.here.rest), Finish(g.slots, g.frame, g.index, g.shelf);
                                  if n.token.Bad? then Failure(n.token.error) else Success(Parsed(Link(r.1), n, r.0))
  {
    hide Scan, ParseSlots, Finish;
  }

  lemma QualifierIs(k: Here, text: seq<byte>, s: Shelf)
    ensures ParseQualifier(k, text, s) ==
              if k.token != Mark(64) then Success(Parsed(Text(text), k, s))
              else
                var n := Scan(k.rest);
                if n.token.Bad? then Failure(n.token.error)
                else
                  var q := Parse(n, s);
                  if q.Failure? then Failure(q.error) else Success(q.value.(value := Qualified(text, q.value.value)))
  {
    hide Scan, Parse;
  }

  lemma FinishIs(slots: seq<Slot>, frame: Option<nat>, index: Option<nat>, s: Shelf)
    ensures var f := |s.heap|;
            var r := AddIds(s.(heap := s.heap + [Frame(Anonymous, Some(slots))]), f, slots);
            Finish(slots, frame, index, s) ==
              if frame.Some? then (AddIds(GiveSlots(s, frame.value, slots), frame.value, slots), frame.value)
              else (if index.Some? then r.(refs := r.refs[index.value := f]) else r, f)
  {
    hide AddIds, GiveSlots;
  }

  lemma SlotsLast(k: Here, got: Slots)
    requires k.token == Mark(125)
    ensures ParseSlots(k, got) == Success(got.(here := k))
  {
  }

  // Reading a text into an empty store, as a new reader does it.
  method ReadObjects(input: seq<byte>) returns (r: Result<(Value, Heap), string>)
    ensures match ReadText(input)
            case Success(p) => r == Success((p.0, p.1.heap))
            case Failure(e) => r == Failure(e)
  {
    var reader := new Reader(input);
    var v := reader.ReadAll();
    return if v.Success? then Success((v.value, reader.heap)) else Failure(v.error);
  }
}
