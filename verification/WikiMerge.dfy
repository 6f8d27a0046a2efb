/**
  Constants that common-subexpression elimination takes for one another: which pairs of them make it replace a constant
  by a different one (wikifunc/wikifunc.js:118-136, 435-471).
 */
module WikiMerge {
  import opened Common
  import opened WikiIR
  import opened WikiCse

  // Two instructions for different constants that the pass takes for the same.
  predicate Mixed(h: Host, x: Node, y: Node) {
    && x.Const? && y.Const? && x.via == y.via && ConstantTruthy(x.constant) && ConstantTruthy(y.constant)
    && LooseEqual(h, x.constant, y.constant) && x.constant != y.constant
  }

  // The constants of a block itself, without those of branches.
  function Own(nodes: seq<Node>): set<Node> {
    set n | n in nodes && n.Const?
  }

  ghost predicate ClearOf(h: Host, x: Node, before: set<Node>) {
    forall y :: y in before ==> !Mixed(h, x, y)
  }

  /** No constant comes after a loosely equal, different one in its own block, or after such a one in the part of an
      enclosing block before the branch. Constants of different branches are never compared. */
  ghost predicate ScopeSafe(h: Host, before: set<Node>, nodes: seq<Node>)
    decreases nodes
  {
    nodes != [] ==>
    && ClearOf(h, nodes[0], before)
    && (nodes[0].Conditional? ==> ScopeSafe(h, before, nodes[0].ifpart) && ScopeSafe(h, before, nodes[0].elsepart))
    && ScopeSafe(h, before + Own([nodes[0]]), nodes[1..])
  }

  // Some step of the pass replaces a constant by a different one.
  ghost predicate Merges(h: Host, done: seq<Node>, todo: seq<Node>, scope: seq<Node>)
    decreases Size(todo)
  {
    todo != [] &&
    var x, rest := todo[0], todo[1..];
    if x.Conditional? then
      MergesInside(h, x, scope + done) || Merges(h, done + [CseConditional(h, x, scope + done)], rest, scope)
    else
      var same := FirstSame(h, x, done + scope);
      if x.Empty? || same.None? then Merges(h, done + [x], rest, scope)
      else
        RedirectSize(rest, x, same.value);
        Mixed(h, x, same.value) || Merges(h, Redirect(done, x, same.value) + [Empty], Redirect(rest, x, same.value),
                                          scope)
  }

  ghost predicate MergesInside(h: Host, x: Node, scope: seq<Node>)
    requires x.Conditional?
    decreases NodeSize(x), 0
  {
    Merges(h, [], x.ifpart, scope) || Merges(h, [], x.elsepart, scope)
  }

  lemma {:induction false} RenameSafe(h: Host, before: set<Node>, nodes: seq<Node>, a: Variable, b: Variable)
    ensures ScopeSafe(h, before, Rename(nodes, a, b)) <==> ScopeSafe(h, before, nodes)
    decreases nodes
  {
    if nodes != [] {
      var n, m := nodes[0], RenameNode(nodes[0], a, b);
      assert Rename(nodes, a, b)[0] == m && Rename(nodes, a, b)[1..] == Rename(nodes[1..], a, b);
      RenameOwn([n], a, b);
      assert Rename([n], a, b) == [m];
      RenameSafe(h, before + Own([n]), nodes[1..], a, b);
      if n.Conditional? {
        RenameSafe(h, before, n.ifpart, a, b);
        RenameSafe(h, before, n.elsepart, a, b);
      }
    }
  }

  lemma {:induction false} RenameOwn(nodes: seq<Node>, a: Variable, b: Variable)
    ensures Own(Rename(nodes, a, b)) == Own(nodes)
  {
    if nodes != [] {
      RenameOwn(nodes[1..], a, b);
      assert nodes == [nodes[0]] + nodes[1..];
      assert Own(nodes) == Own([nodes[0]]) + Own(nodes[1..]);
      assert Own(Rename(nodes, a, b)) == Own([RenameNode(nodes[0], a, b)]) + Own(Rename(nodes[1..], a, b));
    }
  }

  lemma RedirectOwn(h: Host, before: set<Node>, nodes: seq<Node>, x: Node, y: Node)
    ensures Own(Redirect(nodes, x, y)) == Own(nodes)
    ensures ScopeSafe(h, before, Redirect(nodes, x, y)) <==> ScopeSafe(h, before, nodes)
  {
    if Target(x).Some? && Target(y).Some? {
      RenameOwn(nodes, Target(x).value, Target(y).value);
      RenameSafe(h, before, nodes, Target(x).value, Target(y).value);
    }
  }

  /** The constants that the pass has kept stand for all before: each is one of them, no two of them are mixed, and
      every constant that can be taken for another has one that is equal to it. */
  ghost predicate Standing(h: Host, kept: set<Node>, before: set<Node>) {
    && kept <= before
    && (forall v, w :: v in kept && w in kept ==> !Mixed(h, v, w))
    && forall y :: y in before && y.Const? && ConstantTruthy(y.constant) ==>
         exists w :: w in kept && w.Const? && w.constant == y.constant && w.via == y.via
  }

  // A constant is replaced by a different one at this step exactly when it is not clear of what stands before it.
  lemma ClearExact(h: Host, x: Node, nodes: seq<Node>, before: set<Node>)
    requires Standing(h, Own(nodes), before)
    ensures var same := FirstSame(h, x, nodes); ClearOf(h, x, before) <==> same.None? || !Mixed(h, x, same.value)
  {
    hide Standing, Mixed, FirstSame;
    FirstSameIn(h, x, nodes);
    StandingWithin(h, Own(nodes), before);
    if y :| y in before && Mixed(h, x, y) {
      NotClear(h, x, y, nodes, before);
    }
    var same := FirstSame(h, x, nodes);
    if same.Some? && Mixed(h, x, same.value) {
      MixedBoth(h, x, same.value);
      ConstSame(h, x, same.value);
      assert same.value in Own(nodes);
    }
  }

  lemma NotClear(h: Host, x: Node, y: Node, nodes: seq<Node>, before: set<Node>)
    requires Standing(h, Own(nodes), before) && y in before && Mixed(h, x, y)
    ensures FirstSame(h, x, nodes).Some? && Mixed(h, x, FirstSame(h, x, nodes).value)
  {
    var w :| w in Own(nodes) && w.Const? && w.constant == y.constant && w.via == y.via;
    MixedLike(h, x, y, x, w);
    MixedBoth(h, x, w);
    FirstSameIn(h, x, nodes);
    var v := FirstSame(h, x, nodes).value;
    MixedBoth(h, x, v);
    ConstSame(h, x, v);
    assert v in Own(nodes);
    hide Mixed, Same, LooseEqual;
    if !Mixed(h, x, v) {
      MixedLike(h, x, w, v, w);
      assert false;
    }
  }

  lemma MixedLike(h: Host, x: Node, y: Node, v: Node, w: Node)
    requires Mixed(h, x, y) && v.Const? && w.Const?
    requires v.constant == x.constant && v.via == x.via && w.constant == y.constant && w.via == y.via
    ensures Mixed(h, v, w)
  {
  }

  lemma MixedBoth(h: Host, x: Node, y: Node)
    ensures Mixed(h, x, y) <==> Mixed(h, y, x)
    ensures Mixed(h, x, y) ==> Same(h, x, y) && x.Const? && ConstantTruthy(x.constant)
    ensures x.Const? && ConstantTruthy(x.constant) && Same(h, x, y) && !Mixed(h, x, y) ==>
              y.Const? && y.constant == x.constant && y.via == x.via
  {
  }

  lemma StandingStays(h: Host, x: Node, y: Node, kept: set<Node>, before: set<Node>)
    requires Standing(h, kept, before) && x.Const? && y in kept && Same(h, x, y) && !Mixed(h, x, y)
    ensures Standing(h, kept, before + {x})
  {
    MixedBoth(h, x, y);
    hide Mixed, Same, ConstantTruthy;
  }

  lemma StandingGrows(h: Host, x: Node, kept: set<Node>, before: set<Node>)
    requires Standing(h, kept, before) && x.Const? && forall y :: y in kept ==> !Mixed(h, x, y)
    ensures Standing(h, kept + {x}, before + {x})
  {
    forall v | v in kept ensures !Mixed(h, v, x) {
      MixedBoth(h, v, x);
    }
    assert !Mixed(h, x, x);
    hide Mixed, ConstantTruthy;
  }

  // What stands after a constant that is clear of all before.
  lemma StandingAfter(h: Host, x: Node, nodes: seq<Node>, before: set<Node>)
    requires Standing(h, Own(nodes), before) && x.Const? && ClearOf(h, x, before)
    ensures Standing(h, if FirstSame(h, x, nodes).None? then Own(nodes) + {x} else Own(nodes), before + {x})
  {
    hide Standing, Mixed;
    FirstSameIn(h, x, nodes);
    StandingWithin(h, Own(nodes), before);
    var same := FirstSame(h, x, nodes);
    if same.None? {
      StandingGrows(h, x, Own(nodes), before);
    } else {
      ConstSame(h, x, same.value);
      StandingStays(h, x, same.value, Own(nodes), before);
    }
  }

  lemma StandingWithin(h: Host, kept: set<Node>, before: set<Node>)
    requires Standing(h, kept, before)
    ensures kept <= before
  {
  }

  lemma ConstSame(h: Host, x: Node, y: Node)
    requires x.Const? && Same(h, x, y)
    ensures y.Const?
  {
  }

  lemma OwnPush(done: seq<Node>, x: Node, scope: seq<Node>)
    ensures Own(done + [x] + scope) == Own(done + scope) + Own([x]) && Own(scope + done) == Own(done + scope)
    ensures !x.Const? ==> Own([x]) == {}
    ensures x.Const? ==> Own([x]) == {x}
  {
  }

  lemma {:induction false} MergesFrom(h: Host, done: seq<Node>, todo: seq<Node>, scope: seq<Node>, before: set<Node>)
    requires Standing(h, Own(done + scope), before)
    ensures ScopeSafe(h, before, todo) <==> !Merges(h, done, todo, scope)
    decreases Size(todo)
  {
    hide Standing, ClearOf, Own, Mixed, FirstSame;
    if todo != [] {
      var x, rest := todo[0], todo[1..];
      NotMixed(h, x, before);
      if x.Conditional? {
        var y := CseConditional(h, x, scope + done);
        assert Size(todo) == 1 + Size(x.ifpart) + Size(x.elsepart) + Size(rest);
        OwnPush(done, x, scope);
        OwnPush(done, y, scope);
        assert Own(done + scope) + {} == Own(done + scope);
        assert [] + (scope + done) == scope + done;
        MergesFrom(h, [], x.ifpart, scope + done, before);
        MergesFrom(h, [], x.elsepart, scope + done, before);
        MergesFrom(h, done + [y], rest, scope, before);
        assert before + Own([x]) == before;
      } else {
        MergesStep(h, done, todo, scope, before);
      }
    }
  }

  lemma NotMixed(h: Host, x: Node, before: set<Node>)
    ensures !x.Const? ==> ClearOf(h, x, before)
  {
  }

  lemma {:induction false} MergesStep(h: Host, done: seq<Node>, todo: seq<Node>, scope: seq<Node>, before: set<Node>)
    requires Standing(h, Own(done + scope), before) && todo != [] && !todo[0].Conditional?
    ensures ScopeSafe(h, before, todo) <==> !Merges(h, done, todo, scope)
    decreases Size(todo), 0
  {
    hide Standing, ClearOf, Own, Mixed, FirstSame;
    var x, rest := todo[0], todo[1..];
    var same := FirstSame(h, x, done + scope);
    NotMixed(h, x, before);
    ClearExact(h, x, done + scope, before);
    OwnPush(done, x, scope);
    if ClearOf(h, x, before) {
      if x.Const? {
        StandingAfter(h, x, done + scope, before);
      }
      if same.None? || x.Empty? {
        if !x.Const? {
          assert before + Own([x]) == before;
        }
        assert Own(done + scope) + {} == Own(done + scope);
        MergesFrom(h, done + [x], rest, scope, before + Own([x]));
      } else {
        var y := same.value;
        RedirectSize(rest, x, y);
        RedirectOwn(h, before + Own([x]), rest, x, y);
        OwnRedirected(h, done, scope, x, y);
        if !x.Const? {
          assert before + Own([x]) == before;
        }
        MergesFrom(h, Redirect(done, x, y) + [Empty], Redirect(rest, x, y), scope, before + Own([x]));
      }
    }
  }

  lemma OwnRedirected(h: Host, done: seq<Node>, scope: seq<Node>, x: Node, y: Node)
    ensures Own(Redirect(done, x, y) + [Empty] + scope) == Own(done + scope)
  {
    RedirectOwn(h, {}, done, x, y);
    assert Own(done + scope) == Own(done) + Own(scope);
    assert Own(Redirect(done, x, y) + [Empty] + scope) == Own(Redirect(done, x, y)) + Own(scope);
  }

  /** The exact condition for constants: the pass replaces one by a different one if and only if a loosely equal,
      different one comes before it in its block or in the part of an enclosing block before the branch. */
  lemma MergesExact(h: Host, block: seq<Node>)
    ensures ScopeSafe(h, {}, block) <==> !Merges(h, [], block, [])
  {
    var none: seq<Node> := [];
    assert none + none == [] && Own(none) == {};
    MergesFrom(h, none, block, none, {});
  }
}
