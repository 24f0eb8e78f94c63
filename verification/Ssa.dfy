// Operand enumeration (src/tb/iter.c) and the def-before-use discipline of the IR.

module Ssa {
  import opened Cfg
  import opened Ir

  // tb_next_node_input: the registers a node reads, in order.
  function Uses(n: Node): seq<Reg>
  {
    match n
    case Null => []
    case Local => []
    case Pure(_, args) => args
    case Effect(_, args) => args
    case ParamAddr(p) => [p]
    case Load(a) => [a]
    case Store(a, v) => [a, v]
    case Clear(a, s, n) => [a, s, n]
    case Pass(s) => [s]
    case Phi(ins) => InputRegs(ins)
  }

  function InputRegs(ins: seq<PhiInput>): (rs: seq<Reg>)
    ensures |rs| == |ins| && forall i :: 0 <= i < |ins| ==> rs[i] == ins[i].val
  {
    seq(|ins|, i requires 0 <= i < |ins| => ins[i].val)
  }

  // The register a terminator reads; a return without value reads the null register.
  function EndUses(t: Terminator): seq<Reg>
  {
    match t
    case Return(r) => if r == 0 then [] else [r]
    case If(c, _, _) => [c]
    case Switch(k, _, _) => [k]
    case _ => []
  }

  // r is computed before position k of block b is reached, on every way there: earlier in the
  // block or in a block that strictly dominates it.
  ghost predicate DefinedBefore(f: Function, r: Reg, b: Label, k: nat)
  {
    && b < |f.blocks| && k <= |f.blocks[b].body|
    && (r in f.blocks[b].body[..k]
        || exists d: Label :: d < |f.blocks| && Sdom(GraphOf(f), d, b) && r in f.blocks[d].body)
  }

  ghost predicate NodeDominated(f: Function, b: Label, k: nat)
    requires Shape(f) && b < |f.blocks| && k < |f.blocks[b].body|
  {
    var n := f.nodes[f.blocks[b].body[k]];
    if n.Phi? then
      forall i: nat :: i < |n.inputs| && Edge(GraphOf(f), n.inputs[i].from, b)
                       && Reachable(GraphOf(f), n.inputs[i].from) ==>
        DefinedBefore(f, n.inputs[i].val, n.inputs[i].from, |f.blocks[n.inputs[i].from].body|)
    else
      forall u :: u in Uses(n) ==> DefinedBefore(f, u, b, k)
  }

  // Definitions dominate uses in every reachable block.
  ghost predicate SsaForm(f: Function)
    requires Shape(f)
  {
    forall b: Label :: b < |f.blocks| && Reachable(GraphOf(f), b) ==> BlockDominated(f, b)
  }

  ghost predicate BlockDominated(f: Function, b: Label)
    requires Shape(f) && b < |f.blocks|
  {
    && (forall k: nat :: k < |f.blocks[b].body| ==> NodeDominated(f, b, k))
    && (forall u :: u in EndUses(f.blocks[b].end) ==> DefinedBefore(f, u, b, |f.blocks[b].body|))
  }

  // A register listed at position k of b is not defined before it.
  lemma NotBeforeItself(f: Function, b: Label, k: nat)
    requires Shape(f) && b < |f.blocks| && k < |f.blocks[b].body|
    ensures !DefinedBefore(f, f.blocks[b].body[k], b, k)
  {
  }

  // What is defined before a point stays defined further down the block.
  lemma DefinedLater(f: Function, r: Reg, b: Label, k: nat, j: nat)
    requires DefinedBefore(f, r, b, k) && b < |f.blocks| && k <= j <= |f.blocks[b].body|
    ensures DefinedBefore(f, r, b, j)
  {
    if r in f.blocks[b].body[..k] {
      var i :| 0 <= i < k && f.blocks[b].body[i] == r;
      assert f.blocks[b].body[..j][i] == r;
    }
  }

  // What is defined by the end of a strict dominator of b is defined before b.
  lemma DefinedBelow(f: Function, r: Reg, d: Label, b: Label)
    requires Shape(f) && d < |f.blocks| && b < |f.blocks| && Sdom(GraphOf(f), d, b)
    requires Reachable(GraphOf(f), b)
    requires DefinedBefore(f, r, d, |f.blocks[d].body|)
    ensures DefinedBefore(f, r, b, 0)
  {
    var g := GraphOf(f);
    if r !in f.blocks[d].body {
      assert f.blocks[d].body[..|f.blocks[d].body|] == f.blocks[d].body;
      var e: Label :| e < |f.blocks| && Sdom(g, e, d) && r in f.blocks[e].body;
      DomTrans(g, e, d, b);
      DomReachable(g, d, b);
      if e == b { DomAntisym(g, e, d); }
      assert Sdom(g, e, b);
    }
  }

  // What is defined at the start of b was defined at the end of every reachable predecessor.
  lemma DefinedAtPred(f: Function, r: Reg, p: Label, b: Label)
    requires Shape(f) && b < |f.blocks| && p < |f.blocks| && Edge(GraphOf(f), p, b)
    requires Reachable(GraphOf(f), p) && DefinedBefore(f, r, b, 0)
    ensures DefinedBefore(f, r, p, |f.blocks[p].body|)
  {
    var g := GraphOf(f);
    var d: Label :| d < |f.blocks| && Sdom(g, d, b) && r in f.blocks[d].body;
    SdomPred(g, d, p, b);
    assert f.blocks[p].body[..|f.blocks[p].body|] == f.blocks[p].body;
    if d != p { assert Sdom(g, d, p); }
  }
}
