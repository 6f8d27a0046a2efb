/**
  The compiler's mutable block: instructions are appended, overwritten with null and rewritten in place
  (wikifunc/wikifunc.js:319-494). Every method is tied to the function whose laws are proved elsewhere.
  A nested block is a value inside its conditional; a method works on it through a block of its own.
 */
module WikiBlock {
  import opened Common
  import opened WikiIR
  import opened WikiRun
  import opened WikiCse
  import opened WikiConst
  import opened WikiDce
  import opened WikiCompose

  lemma {:induction false} CseResume(h: Host, done: seq<Node>, n: Node, rest: seq<Node>, scope: seq<Node>)
    ensures Cse(h, done, [n] + rest, scope) ==
            if n.Conditional? then Cse(h, done + [CseConditional(h, n, scope + done)], rest, scope)
            else
              var same := FirstSame(h, n, done + scope);
              if n.Empty? || same.None? then Cse(h, done + [n], rest, scope)
              else Cse(h, Redirect(done, n, same.value) + [Empty], Redirect(rest, n, same.value), scope)
  {
    assert ([n] + rest)[0] == n && ([n] + rest)[1..] == rest;
  }

  lemma {:induction false} RenameAppend(a: seq<Node>, b: seq<Node>, x: Variable, y: Variable)
    ensures Rename(a + b, x, y) == Rename(a, x, y) + Rename(b, x, y)
  {
    if a == [] {
      assert a + b == b;
    } else {
      assert (a + b)[0] == a[0] && (a + b)[1..] == a[1..] + b;
      RenameAppend(a[1..], b, x, y);
    }
  }

  lemma {:induction false} ConvertAppend(h: Host, marks: Marks, a: seq<Node>, b: seq<Node>)
    ensures ConvertConstants(h, marks, a + b) == ConvertConstants(h, marks, a) + ConvertConstants(h, marks, b)
  {
    if a == [] {
      assert a + b == b;
    } else {
      assert (a + b)[0] == a[0] && (a + b)[1..] == a[1..] + b;
      ConvertAppend(h, marks, a[1..], b);
    }
  }

  lemma {:induction false} SizeAppend(a: seq<Node>, b: seq<Node>)
    ensures Size(a + b) == Size(a) + Size(b)
  {
    if a == [] {
      assert a + b == b;
    } else {
      assert (a + b)[0] == a[0] && (a + b)[1..] == a[1..] + b;
      SizeAppend(a[1..], b);
    }
  }

  lemma SizeOf(nodes: seq<Node>, i: nat)
    requires i < |nodes|
    ensures NodeSize(nodes[i]) <= Size(nodes)
  {
    SizeAppend(nodes[..i], nodes[i..]);
    assert nodes == nodes[..i] + nodes[i..] && nodes[i..][0] == nodes[i];
  }

  lemma {:induction false} FirstSameAt(h: Host, x: Node, nodes: seq<Node>, i: nat)
    requires i <= |nodes| && forall k :: 0 <= k < i ==> !Same(h, x, nodes[k])
    ensures FirstSame(h, x, nodes) == FirstSame(h, x, nodes[i..])
  {
    if i > 0 {
      FirstSameAt(h, x, nodes[1..], i - 1);
      assert nodes[1..][i - 1..] == nodes[i..];
    } else {
      assert nodes[i..] == nodes;
    }
  }

  lemma Split<T>(s: seq<T>, done: seq<T>, x: T, rest: seq<T>)
    requires s == done + [x] + rest
    ensures s[|done|] == x && s[..|done| + 1] == done + [x] && s[|done| + 1..] == rest && s[|done|..] == [x] + rest
  {
  }

  lemma UpdateAt<T>(pre: seq<T>, post: seq<T>, x: T)
    requires post != []
    ensures (pre + post)[|pre| := x] == (pre + [x]) + post[1..]
  {
  }

  lemma RenameNext(nodes: seq<Node>, i: nat, a: Variable, b: Variable)
    requires i < |nodes|
    ensures Rename(nodes[..i + 1], a, b) == Rename(nodes[..i], a, b) + [RenameNode(nodes[i], a, b)]
  {
    assert nodes[..i + 1] == nodes[..i] + [nodes[i]];
    RenameAppend(nodes[..i], [nodes[i]], a, b);
    assert Rename([nodes[i]], a, b) == [RenameNode(nodes[i], a, b)] + Rename([], a, b);
  }

  lemma ConvertNext(h: Host, marks: Marks, nodes: seq<Node>, i: nat)
    requires i < |nodes|
    ensures ConvertConstants(h, marks, nodes[..i + 1]) == ConvertConstants(h, marks, nodes[..i]) +
            [ConvertNode(h, marks, nodes[i])]
  {
    assert nodes[..i + 1] == nodes[..i] + [nodes[i]];
    ConvertAppend(h, marks, nodes[..i], [nodes[i]]);
    assert ConvertConstants(h, marks, [nodes[i]]) == [ConvertNode(h, marks, nodes[i])] + ConvertConstants(h, marks, []);
  }

  // Processing instruction i when everything after it has been processed.
  lemma DceStep(rule: ListRule, nodes: seq<Node>, i: nat, live: set<Variable>)
    requires i < |nodes|
    ensures var p := Dce(rule, nodes[i + 1..], live);
            var q := DceNode(rule, nodes[i], p.1);
            && Dce(rule, nodes[i..], live) == ([q.0] + p.0, q.1)
            && (nodes[..i + 1] + p.0)[i] == nodes[i]
            && (nodes[..i + 1] + p.0)[i := q.0] == nodes[..i] + Dce(rule, nodes[i..], live).0
  {
    assert nodes[i..][0] == nodes[i] && nodes[i..][1..] == nodes[i + 1..];
  }

  lemma RenameThree(done: seq<Node>, n: Node, rest: seq<Node>, a: Variable, b: Variable)
    ensures Rename(done + [n] + rest, a, b) == Rename(done, a, b) + [RenameNode(n, a, b)] + Rename(rest, a, b)
  {
    RenameAppend(done + [n], rest, a, b);
    RenameAppend(done, [n], a, b);
    assert Rename([n], a, b) == [RenameNode(n, a, b)] + Rename([], a, b);
  }

  class Block {
    var instructions: seq<Node>

    constructor (nodes: seq<Node>)
      ensures instructions == nodes
    {
      instructions := nodes;
    }

    method Emit(n: Node)
      modifies this
      ensures instructions == old(instructions) + [n]
    {
      instructions := instructions + [n];
    }

    // Uses of `a` become uses of `b`, in nested blocks too; tested variables are left alone.
    method Replace(a: Variable, b: Variable)
      modifies this
      ensures instructions == Rename(old(instructions), a, b)
    {
      ghost var was := instructions;
      var i := 0;
      while i < |instructions|
        invariant 0 <= i <= |instructions| == |was|
        invariant instructions == Rename(was[..i], a, b) + was[i..]
      {
        RenameNext(was, i, a, b);
        UpdateAt(Rename(was[..i], a, b), was[i..], RenameNode(was[i], a, b));
        instructions := instructions[i := RenameNode(instructions[i], a, b)];
        i := i + 1;
      }
      assert was[..i] == was;
    }

    // The first instruction before position i, then in the enclosing scope, that equals x.
    method FindSame(h: Host, x: Node, i: nat, scope: seq<Node>) returns (same: Option<Node>)
      requires i <= |instructions|
      ensures same == FirstSame(h, x, instructions[..i] + scope)
    {
      var nodes := instructions[..i] + scope;
      var j := 0;
      while j < |nodes|
        invariant 0 <= j <= |nodes|
        invariant forall k :: 0 <= k < j ==> !Same(h, x, nodes[k])
      {
        if Same(h, x, nodes[j]) {
          FirstSameAt(h, x, nodes, j);
          return Some(nodes[j]);
        }
        j := j + 1;
      }
      FirstSameAt(h, x, nodes, j);
      return None;
    }

    /** Common-subexpression elimination in place. */
    method EliminateCommonSubexpressions(h: Host, scope: seq<Node>)
      modifies this
      ensures instructions == Cse(h, [], old(instructions), scope)
      decreases Size(instructions), 1
    {
      ghost var was := instructions;
      var i := 0;
      assert instructions[..0] == [] && instructions[0..] == instructions;
      while i < |instructions|
        invariant 0 <= i <= |instructions| == |was|
        invariant Cse(h, [], was, scope) == Cse(h, instructions[..i], instructions[i..], scope)
        invariant Size(instructions[i..]) <= Size(was)
      {
        var n := instructions[i];
        ghost var done, rest := instructions[..i], instructions[i + 1..];
        Split(instructions, done, n, rest);
        CseResume(h, done, n, rest, scope);
        SizeAppend([n], rest);
        SizeOf([n] + rest, 0);
        if n.Conditional? {
          var c := EliminateInBranches(h, n, scope + instructions[..i]);
          instructions := instructions[i := c];
          Split(instructions, done, c, rest);
        } else if !n.Empty? {
          var same := FindSame(h, n, i, scope);
          if same.Some? {
            RedirectSize(rest, n, same.value);
            Overwrite(n, same.value, i);
            Split(instructions, Redirect(done, n, same.value), Empty, Redirect(rest, n, same.value));
          }
        }
        i := i + 1;
      }
      assert instructions[..i] == instructions && instructions[i..] == [];
    }

    static method EliminateInBranches(h: Host, n: Node, scope: seq<Node>) returns (r: Node)
      requires n.Conditional?
      ensures r == CseConditional(h, n, scope)
      decreases NodeSize(n), 0
    {
      var p := new Block(n.ifpart);
      p.EliminateCommonSubexpressions(h, scope);
      var q := new Block(n.elsepart);
      q.EliminateCommonSubexpressions(h, scope);
      r := Conditional(n.condition, p.instructions, q.instructions);
    }

    // A duplicate is overwritten with null after its variable has been replaced in the whole block.
    method Overwrite(x: Node, y: Node, i: nat)
      requires i < |instructions|
      modifies this
      ensures instructions ==
              Redirect(old(instructions[..i]), x, y) + [Empty] + Redirect(old(instructions[i + 1..]), x, y)
    {
      ghost var done, rest := instructions[..i], instructions[i + 1..];
      ghost var n := instructions[i];
      assert instructions == done + [n] + rest;
      if Target(x).Some? && Target(y).Some? {
        Replace(Target(x).value, Target(y).value);
        RenameThree(done, n, rest, Target(x).value, Target(y).value);
      }
      instructions := instructions[i := Empty];
    }

    /** Constant conversion in place. */
    method ConstantConversion(h: Host, marks: Marks)
      modifies this
      ensures instructions == ConvertConstants(h, marks, old(instructions))
      decreases Size(instructions), 1
    {
      ghost var was := instructions;
      var i := 0;
      while i < |instructions|
        invariant 0 <= i <= |instructions| == |was|
        invariant instructions == ConvertConstants(h, marks, was[..i]) + was[i..]
      {
        SizeOf(was, i);
        var n := ConvertedNode(h, marks, instructions[i]);
        ConvertNext(h, marks, was, i);
        UpdateAt(ConvertConstants(h, marks, was[..i]), was[i..], n);
        instructions := instructions[i := n];
        i := i + 1;
      }
      assert was[..i] == was;
    }

    static method ConvertedNode(h: Host, marks: Marks, n: Node) returns (r: Node)
      ensures r == ConvertNode(h, marks, n)
      decreases NodeSize(n), 0
    {
      r := n;
      if n.Conditional? {
        var p := new Block(n.ifpart);
        p.ConstantConversion(h, marks);
        var q := new Block(n.elsepart);
        q.ConstantConversion(h, marks);
        r := Conditional(n.condition, p.instructions, q.instructions);
      } else if n.Convert? && n.src in marks && marks[n.src].Natural? {
        if h.converterName(n.conv) == NUMBER_CONVERTER && marks[n.src].digits != "" {
          r := Const(n.dst, Number(marks[n.src].digits), Some(n.conv));
        }
      }
    }

    /** Dead-code elimination in place, last instruction first; returns the grown live set. */
    method EliminateDeadCode(rule: ListRule, live: set<Variable>) returns (grown: set<Variable>)
      modifies this
      ensures (instructions, grown) == Dce(rule, old(instructions), live)
      decreases Size(instructions), 1
    {
      ghost var was := instructions;
      grown := live;
      var i := |instructions|;
      assert was[i..] == [] && was[..i] == was;
      while i > 0
        invariant 0 <= i <= |was| == |instructions|
        invariant instructions == was[..i] + Dce(rule, was[i..], live).0
        invariant grown == Dce(rule, was[i..], live).1
      {
        i := i - 1;
        SizeOf(was, i);
        var n, l := EliminateInstruction(rule, instructions[i], grown);
        DceStep(rule, was, i, live);
        instructions, grown := instructions[i := n], l;
      }
      assert i == 0 && was[i..] == was && was[..i] == [];
      assert instructions == Dce(rule, was, live).0;
    }

    // What is left of one instruction; a dead one becomes null.
    static method EliminateInstruction(rule: ListRule, n: Node, live: set<Variable>)
      returns (r: Node, grown: set<Variable>)
      ensures (r, grown) == DceNode(rule, n, live)
      decreases NodeSize(n), 0
    {
      r, grown := n, live;
      if n.Conditional? {
        var p := new Block(n.ifpart);
        grown := p.EliminateDeadCode(rule, live + {n.condition});
        var q := new Block(n.elsepart);
        grown := q.EliminateDeadCode(rule, grown);
        r := Conditional(n.condition, p.instructions, q.instructions);
      } else if Target(n).Some? && Target(n).value !in live {
        r := Empty;
      } else if n.Call? || n.Convert? || n.Assign? || n.Return? || (n.Build? && rule.Elements?) {
        grown := live + Reads(n);
      }
    }
  }
}
