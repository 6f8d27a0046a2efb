/**
  What passes do to single instructions (wikifunc/wikifunc.js:138-175, 309-312, 427-439,
                                         484-488): every instruction is looked
  at, also those in branches, and nothing else counts.
 */
module WikiEach {
  import opened Common
  import opened WikiIR
  import opened WikiCse
  import opened WikiConst
  import opened WikiDce
  import opened WikiLinked
  import opened WikiReach

  // What an instruction needs in the output: a called function, or a converter, also one that has been used up.
  predicate Needs(n: Node, i: Item) {
    || (n.Call? && i == FuncItem(n.func))
    || (n.Convert? && i == ConvItem(n.conv))
    || (n.Const? && n.via.Some? && i == ConvItem(n.via.value))
  }

  /** What code refers to is what some instruction in it needs, in whichever branch it stands. */
  lemma {:induction false} ItemsExact(nodes: seq<Node>, i: Item)
    ensures i in Items(nodes) <==> exists n :: n in AllNodes(nodes) && Needs(n, i)
    decreases nodes
  {
    if nodes != [] {
      var n := nodes[0];
      ItemsExact(nodes[1..], i);
      if n.Conditional? {
        ItemsExact(n.ifpart, i);
        ItemsExact(n.elsepart, i);
      } else {
        assert n in Flat(n);
        assert i in NodeItems(n) <==> Needs(n, i);
      }
    }
  }

  // A conversion to a number that is known when the code is compiled.
  predicate Foldable(h: Host, marks: Marks, n: Node) {
    && n.Convert? && n.src in marks && marks[n.src].Natural? && marks[n.src].digits != ""
    && h.converterName(n.conv) == Z(13519)
  }

  /** Constant conversion puts the number into the place of every conversion of a constant by the number converter, in
      whichever branch it stands, and leaves all other instructions alone. */
  lemma {:induction false} AllFolded(h: Host, marks: Marks, nodes: seq<Node>, n: Node)
    ensures n in AllNodes(ConvertConstants(h, marks, nodes)) ==> !Foldable(h, marks, n)
    ensures n in AllNodes(nodes) && !Foldable(h, marks, n) ==> n in AllNodes(ConvertConstants(h, marks, nodes))
    ensures n in AllNodes(nodes) && Foldable(h, marks, n) ==>
              Const(n.dst, Number(marks[n.src].digits), Some(n.conv)) in AllNodes(ConvertConstants(h, marks, nodes))
    decreases nodes
  {
    if nodes != [] {
      var x, rest := nodes[0], nodes[1..];
      var y, all := ConvertNode(h, marks, x), ConvertConstants(h, marks, nodes);
      assert all[0] == y && all[1..] == ConvertConstants(h, marks, rest);
      assert AllNodes(all) == Flat(y) + AllNodes(all[1..]) && AllNodes(nodes) == Flat(x) + AllNodes(rest);
      AllFolded(h, marks, rest, n);
      if x.Conditional? {
        AllFolded(h, marks, x.ifpart, n);
        AllFolded(h, marks, x.elsepart, n);
        assert Flat(y) == AllNodes(y.ifpart) + AllNodes(y.elsepart);
      } else {
        assert Flat(x) == {x} && Flat(y) == {y};
      }
    }
  }

  /** Dead-code elimination of well-formed code leaves returns and the instructions that make or assign a variable of
      the live set it ends with, in whichever branch they stand, and no others. */
  lemma OnlyLiveKept(rule: ListRule, block: seq<Node>, live: set<Variable>, def: set<Variable>, n: Node)
    requires Wf(block, def, None, None) && !n.Empty?
    ensures var (code, need) := Dce(rule, block, live);
            n in AllNodes(code) <==> n in AllNodes(block) && (Target(n).Some? ==> Target(n).value in need)
  {
    var need := Dce(rule, block, live).1;
    DceGrows(rule, block, live);
    DceIsKeep(rule, block, live, need, def, None, None);
    KeptExact(block, need, n);
  }

  lemma {:induction false} KeptExact(nodes: seq<Node>, keep: set<Variable>, n: Node)
    requires !n.Empty?
    ensures n in AllNodes(Keep(nodes, keep)) <==>
            n in AllNodes(nodes) && (Target(n).Some? ==> Target(n).value in keep)
    decreases nodes
  {
    if nodes != [] {
      var x, rest := nodes[0], nodes[1..];
      var y, all := KeepNode(x, keep), Keep(nodes, keep);
      assert all[0] == y && all[1..] == Keep(rest, keep);
      assert AllNodes(all) == Flat(y) + AllNodes(all[1..]) && AllNodes(nodes) == Flat(x) + AllNodes(rest);
      KeptExact(rest, keep, n);
      if x.Conditional? {
        KeptExact(x.ifpart, keep, n);
        KeptExact(x.elsepart, keep, n);
        assert Flat(y) == AllNodes(y.ifpart) + AllNodes(y.elsepart);
      } else {
        assert Flat(x) == {x} && Flat(y) == {y};
      }
    }
  }
}
