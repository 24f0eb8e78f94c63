// src/tb/tb_internal.c:36-243: find-and-replace of a register, and src/tb/tb_internal.h:622:
// the removal of a node. What they do to the runs of a function.

module Replacing {
  import opened Cfg
  import opened Predecessors
  import opened Ir
  import opened Ssa
  import opened Equations

  // ----- Find and replace -----

  function Swap(q: Reg, r: Reg, s: Reg): Reg
  {
    if q == r then s else q
  }

  function SwapAll(qs: seq<Reg>, r: Reg, s: Reg): (out: seq<Reg>)
    ensures |out| == |qs| && forall i :: 0 <= i < |qs| ==> out[i] == Swap(qs[i], r, s)
  {
    seq(|qs|, i requires 0 <= i < |qs| => Swap(qs[i], r, s))
  }

  function SwapInputs(ins: seq<PhiInput>, r: Reg, s: Reg): (out: seq<PhiInput>)
    ensures |out| == |ins|
    ensures forall i :: 0 <= i < |ins| ==> out[i] == PhiInput(ins[i].from, Swap(ins[i].val, r, s))
  {
    seq(|ins|, i requires 0 <= i < |ins| => PhiInput(ins[i].from, Swap(ins[i].val, r, s)))
  }

  function SwapNode(n: Node, r: Reg, s: Reg): Node
  {
    match n
    case Null => n
    case Local => n
    case Pure(op, args) => Pure(op, SwapAll(args, r, s))
    case Effect(op, args) => Effect(op, SwapAll(args, r, s))
    case ParamAddr(p) => ParamAddr(Swap(p, r, s))
    case Load(a) => Load(Swap(a, r, s))
    case Store(a, v) => Store(Swap(a, r, s), Swap(v, r, s))
    case Clear(a, x, z) => Clear(Swap(a, r, s), Swap(x, r, s), Swap(z, r, s))
    case Pass(x) => Pass(Swap(x, r, s))
    case Phi(ins) => Phi(SwapInputs(ins, r, s))
  }

  function SwapEnd(t: Terminator, r: Reg, s: Reg): Terminator
  {
    match t
    case Return(v) => Return(Swap(v, r, s))
    case If(c, a, b) => If(Swap(c, r, s), a, b)
    case Switch(k, es, d) => Switch(Swap(k, r, s), es, d)
    case _ => t
  }

  ghost predicate Listed(f: Function, q: Reg)
  {
    exists b: Label, k: nat :: b < |f.blocks| && k < |f.blocks[b].body| && f.blocks[b].body[k] == q
  }

  // A position of the walk over all nodes of all blocks; (|f.blocks|, 0) is its end.
  ghost predicate Place(f: Function, b: nat, k: nat)
  {
    b <= |f.blocks| && if b < |f.blocks| then k <= |f.blocks[b].body| else k == 0
  }

  // q stands in a block that can be reached.
  ghost predicate InReach(f: Function, q: Reg)
  {
    exists b: Label :: b < |f.blocks| && q in f.blocks[b].body && Reachable(GraphOf(f), b)
  }

  // Where following at most n passes from q leads.
  ghost function Chase(nodes: seq<Node>, q: Reg, n: nat): Reg
    decreases n
  {
    if n == 0 || q >= |nodes| || !nodes[q].Pass? then q else Chase(nodes, nodes[q].src, n - 1)
  }

  // h is f with every use of r replaced by s.
  ghost predicate Swapped(f: Function, h: Function, r: Reg, s: Reg)
  {
    && |h.nodes| == |f.nodes| && |h.blocks| == |f.blocks| && h.types == f.types
    && (forall q: Reg :: q < |f.nodes| ==>
          h.nodes[q] == if Listed(f, q) then SwapNode(f.nodes[q], r, s) else f.nodes[q])
    && (forall b: Label :: b < |f.blocks| ==>
          h.blocks[b] == Block(f.blocks[b].body, SwapEnd(f.blocks[b].end, r, s)))
  }

  // h is f without node r.
  ghost predicate Killed(f: Function, h: Function, r: Reg)
  {
    r < |f.nodes| && h == f.(nodes := f.nodes[r := Null])
  }

  // The operations that the switch over the kinds of node lists; any other is a tb_todo().
  predicate Known(known: set<nat>, n: Node)
  {
    (n.Pure? || n.Effect?) ==> n.opcode in known
  }

  ghost predicate AllKnown(known: set<nat>, f: Function)
  {
    forall q: Reg :: Listed(f, q) && q < |f.nodes| ==> Known(known, f.nodes[q])
  }

  // Only arithmetic, conversions, calls and the like can be of a kind that is not listed.
  lemma UnknownIff(known: set<nat>, f: Function)
    ensures !AllKnown(known, f) <==>
              exists b: Label, k: nat :: b < |f.blocks| && k < |f.blocks[b].body| && f.blocks[b].body[k] < |f.nodes| &&
                UnlistedNode(known, f.nodes[f.blocks[b].body[k]])
  {
    if q: Reg :| Listed(f, q) && q < |f.nodes| && !Known(known, f.nodes[q]) {
      var b: Label, k: nat :| b < |f.blocks| && k < |f.blocks[b].body| && f.blocks[b].body[k] == q;
      assert UnlistedNode(known, f.nodes[f.blocks[b].body[k]]);
    }
  }

  predicate UnlistedNode(known: set<nat>, n: Node)
  {
    match n
    case Pure(op, _) => op !in known
    case Effect(op, _) => op !in known
    case _ => false
  }

  // tb_function_find_replace_reg
  method FindReplace(f: Function, r: Reg, s: Reg, known: set<nat>) returns (h: Option<Function>)
    requires Shape(f)
    ensures h.None? <==> !AllKnown(known, f)
    ensures h.Some? ==> Swapped(f, h.value, r, s)
  {
    var nodes, blocks := f.nodes, f.blocks;
    var bb: nat := 0;
    while bb < |f.blocks|
      invariant bb <= |f.blocks| && |nodes| == |f.nodes| && |blocks| == |f.blocks|
      invariant forall q: Reg :: q < |f.nodes| ==> nodes[q] == SwappedTo(f, q, bb, 0, r, s)
      invariant forall b: Label :: b < |f.blocks| ==>
                  blocks[b] == if b < bb then Block(f.blocks[b].body, SwapEnd(f.blocks[b].end, r, s)) else f.blocks[b]
      invariant forall q: Reg :: ListedTo(f, q, bb, 0) ==> q < |f.nodes| && Known(known, f.nodes[q])
    {
      var k: nat := 0;
      var body := f.blocks[bb].body;
      while k < |body|
        invariant k <= |body| && |nodes| == |f.nodes|
        invariant forall q: Reg :: q < |f.nodes| ==> nodes[q] == SwappedTo(f, q, bb, k, r, s)
        invariant forall q: Reg :: ListedTo(f, q, bb, k) ==> q < |f.nodes| && Known(known, f.nodes[q])
      {
        hide SwapNode;
        ListedStep(f, bb, k);
        if !Known(known, nodes[body[k]]) {
          assert Listed(f, body[k]);
          return None;
        }
        nodes := nodes[body[k] := SwapNode(nodes[body[k]], r, s)];
        k := k + 1;
      }
      ListedBlock(f, bb);
      blocks := blocks[bb := Block(body, SwapEnd(blocks[bb].end, r, s))];
      bb := bb + 1;
    }
    ListedAll(f);
    return Some(f.(nodes := nodes, blocks := blocks));
  }

  // A switch that knows a graph knows it after a replacement and the removal that follows.
  lemma StillKnown(known: set<nat>, f: Function, h: Function, r: Reg, s: Reg)
    requires AllKnown(known, f) && Swapped(f, h, r, s) && r < |f.nodes|
    ensures AllKnown(known, h.(nodes := h.nodes[r := Null]))
  {
    var g := h.(nodes := h.nodes[r := Null]);
    forall q: Reg | Listed(g, q) && q < |g.nodes| ensures Known(known, g.nodes[q]) {
      assert Listed(f, q);
    }
  }

  // Listed in the blocks before b or in the first k places of b.
  ghost predicate ListedTo(f: Function, q: Reg, b: nat, k: nat)
  {
    exists c: Label, j: nat :: c < |f.blocks| && j < |f.blocks[c].body| && (c < b || (c == b && j < k)) &&
      f.blocks[c].body[j] == q
  }

  ghost function SwappedTo(f: Function, q: Reg, b: nat, k: nat, r: Reg, s: Reg): Node
    requires q < |f.nodes|
  {
    if ListedTo(f, q, b, k) then SwapNode(f.nodes[q], r, s) else f.nodes[q]
  }

  lemma ListedStep(f: Function, b: Label, k: nat)
    requires Shape(f) && b < |f.blocks| && k < |f.blocks[b].body|
    ensures !ListedTo(f, f.blocks[b].body[k], b, k)
    ensures forall q: Reg :: ListedTo(f, q, b, k + 1) <==> ListedTo(f, q, b, k) || q == f.blocks[b].body[k]
  {
    forall q: Reg ensures ListedTo(f, q, b, k + 1) <==> ListedTo(f, q, b, k) || q == f.blocks[b].body[k] {
      if ListedTo(f, q, b, k + 1) {
        var c: Label, j: nat :| c < |f.blocks| && j < |f.blocks[c].body| && (c < b || (c == b && j < k + 1)) &&
          f.blocks[c].body[j] == q;
        assert (c == b && j == k) || ListedTo(f, q, b, k);
      }
    }
  }

  lemma ListedBlock(f: Function, b: Label)
    requires b < |f.blocks|
    ensures forall q: Reg :: ListedTo(f, q, b, |f.blocks[b].body|) <==> ListedTo(f, q, b + 1, 0)
  {
  }

  lemma ListedAll(f: Function)
    ensures forall q: Reg :: ListedTo(f, q, |f.blocks|, 0) <==> Listed(f, q)
  {
  }

  // ----- Shape and SSA form -----

  lemma SwapTargets(f: Function, h: Function, r: Reg, s: Reg)
    requires Swapped(f, h, r, s)
    ensures forall b: Label :: b < |f.blocks| ==> Targets(h.blocks[b].end) == Targets(f.blocks[b].end)
    ensures forall a: Label, b: Label :: Edge(GraphOf(h), a, b) <==> Edge(GraphOf(f), a, b)
  {
  }

  // Two graphs with the same edges have the same paths, and so the same dominators.
  lemma SamePaths(g: Graph, h: Graph)
    requires |g| == |h| && forall a: Label, b: Label :: Edge(g, a, b) <==> Edge(h, a, b)
    ensures forall p, b: Label :: PathTo(g, p, b) <==> PathTo(h, p, b)
  {
  }

  lemma SameDominance(g: Graph, h: Graph)
    requires |g| == |h| && forall a: Label, b: Label :: Edge(g, a, b) <==> Edge(h, a, b)
    ensures forall b: Label :: Reachable(g, b) <==> Reachable(h, b)
    ensures forall x: Label, b: Label :: Sdom(g, x, b) <==> Sdom(h, x, b)
  {
    SamePaths(g, h);
    hide PathTo, Edge;
    forall b: Label ensures Reachable(g, b) <==> Reachable(h, b) {
      if Reachable(g, b) { var p :| PathTo(g, p, b); assert PathTo(h, p, b); }
      if Reachable(h, b) { var p :| PathTo(h, p, b); assert PathTo(g, p, b); }
    }
    forall x: Label, b: Label ensures Sdom(g, x, b) <==> Sdom(h, x, b) {
      if Sdom(g, x, b) { forall p | PathTo(h, p, b) ensures x in p { assert PathTo(g, p, b); } }
      if Sdom(h, x, b) { forall p | PathTo(g, p, b) ensures x in p { assert PathTo(h, p, b); } }
    }
  }

  // The same blocks, bodies and edges.
  ghost predicate SameSkeleton(f: Function, h: Function)
  {
    && |h.nodes| == |f.nodes| && |h.blocks| == |f.blocks|
    && (forall b: Label :: b < |f.blocks| ==> h.blocks[b].body == f.blocks[b].body)
    && (forall b: Label :: b < |f.blocks| ==> Targets(h.blocks[b].end) == Targets(f.blocks[b].end))
  }

  lemma SkeletonShape(f: Function, h: Function)
    requires Shape(f) && SameSkeleton(f, h)
    ensures Shape(h)
    ensures forall a: Label, b: Label :: Edge(GraphOf(h), a, b) <==> Edge(GraphOf(f), a, b)
    ensures forall b: Label :: Reachable(GraphOf(h), b) <==> Reachable(GraphOf(f), b)
    ensures forall s: Reg, b: Label, k: nat :: DefinedBefore(h, s, b, k) <==> DefinedBefore(f, s, b, k)
  {
    SameDominance(GraphOf(f), GraphOf(h));
    forall s: Reg, b: Label, k: nat ensures DefinedBefore(h, s, b, k) <==> DefinedBefore(f, s, b, k) {
    }
  }

  lemma SwapSkeleton(f: Function, h: Function, r: Reg, s: Reg)
    requires Swapped(f, h, r, s)
    ensures SameSkeleton(f, h)
  {
    SwapTargets(f, h, r, s);
  }

  // r computes what s computes: the same operation on the same operands; or r is a PASS of s.
  ghost predicate SameValue(f: Function, r: Reg, s: Reg)
  {
    0 < r < |f.nodes| && ((f.nodes[r].Pure? && s < |f.nodes| && f.nodes[s] == f.nodes[r]) || f.nodes[r] == Pass(s))
  }

  // Wherever r is read, s is defined too.
  ghost predicate UsesCovered(f: Function, r: Reg, s: Reg)
    requires Shape(f)
  {
    forall b: Label :: b < |f.blocks| && Reachable(GraphOf(f), b) ==>
      && (forall k: nat :: k < |f.blocks[b].body| ==> NodeCovered(f, f.nodes[f.blocks[b].body[k]], b, k, r, s))
      && (r in EndUses(f.blocks[b].end) ==> DefinedBefore(f, s, b, |f.blocks[b].body|))
  }

  // The same for node n at position k of b.
  ghost predicate NodeCovered(f: Function, n: Node, b: Label, k: nat, r: Reg, s: Reg)
    requires Shape(f)
  {
    if n.Phi? then
      forall i: nat ::
        (i < |n.inputs| && Edge(GraphOf(f), n.inputs[i].from, b) && Reachable(GraphOf(f), n.inputs[i].from)
         && n.inputs[i].val == r) ==>
          DefinedBefore(f, s, n.inputs[i].from, |f.blocks[n.inputs[i].from].body|)
    else r in Uses(n) ==> DefinedBefore(f, s, b, k)
  }

  ghost predicate Stands(f: Function, r: Reg, s: Reg)
    requires Shape(f)
  {
    SameValue(f, r, s) && UsesCovered(f, r, s)
  }

  // r stands at position k of b, and s is defined before it; or r is a PASS of s.
  ghost predicate Twin(f: Function, r: Reg, s: Reg, b: Label, k: nat)
  {
    && SameValue(f, r, s) && b < |f.blocks| && k < |f.blocks[b].body| && f.blocks[b].body[k] == r
    && (f.nodes[r].Pure? ==> DefinedBefore(f, s, b, k))
  }

  lemma TwinBefore(f: Function, r: Reg, s: Reg, b0: Label, k0: nat, b: Label, k: nat)
    requires Shape(f) && SsaForm(f) && Twin(f, r, s, b0, k0)
    requires b < |f.blocks| && k <= |f.blocks[b].body| && Reachable(GraphOf(f), b) && DefinedBefore(f, r, b, k)
    ensures DefinedBefore(f, s, b, k)
  {
    var d, i := PlaceOf(f, r, b, k);
    assert d == b0 && i == k0;
    if f.nodes[r].Pure? {
      Carried(f, s, d, i, b, k);
    } else {
      UseBefore(f, r, b, k, s);
    }
  }

  lemma TwinSame(f: Function, r: Reg, s: Reg, b0: Label, k0: nat)
    requires Twin(f, r, s, b0, k0)
    ensures SameValue(f, r, s)
  {
  }

  // What comes before a node is defined wherever the node is read.
  lemma TwinStands(f: Function, r: Reg, s: Reg, b0: Label, k0: nat)
    requires Shape(f) && SsaForm(f) && Twin(f, r, s, b0, k0)
    ensures Stands(f, r, s)
  {
    hide DefinedBefore, Reachable, Edge, Twin, NodeCovered;
    assert SameValue(f, r, s) by { TwinSame(f, r, s, b0, k0); }
    forall b: Label | b < |f.blocks| && Reachable(GraphOf(f), b)
      ensures forall k: nat :: k < |f.blocks[b].body| ==> NodeCovered(f, f.nodes[f.blocks[b].body[k]], b, k, r, s)
      ensures r in EndUses(f.blocks[b].end) ==> DefinedBefore(f, s, b, |f.blocks[b].body|)
    {
      assert BlockDominated(f, b);
      if r in EndUses(f.blocks[b].end) { TwinBefore(f, r, s, b0, k0, b, |f.blocks[b].body|); }
      forall k: nat | k < |f.blocks[b].body| ensures NodeCovered(f, f.nodes[f.blocks[b].body[k]], b, k, r, s) {
        assert NodeDominated(f, b, k);
        TwinCovers(f, r, s, b0, k0, b, k);
      }
    }
  }

  lemma TwinCovers(f: Function, r: Reg, s: Reg, b0: Label, k0: nat, b: Label, k: nat)
    requires Shape(f) && SsaForm(f) && Twin(f, r, s, b0, k0) && b < |f.blocks| && Reachable(GraphOf(f), b)
    requires k < |f.blocks[b].body| && NodeDominated(f, b, k)
    ensures NodeCovered(f, f.nodes[f.blocks[b].body[k]], b, k, r, s)
  {
    hide DefinedBefore, Reachable, SsaForm, Twin;
    var n := f.nodes[f.blocks[b].body[k]];
    if n.Phi? {
      forall i: nat | i < |n.inputs| && Edge(GraphOf(f), n.inputs[i].from, b) && Reachable(GraphOf(f), n.inputs[i].from)
                      && n.inputs[i].val == r
        ensures DefinedBefore(f, s, n.inputs[i].from, |f.blocks[n.inputs[i].from].body|)
      {
        TwinBefore(f, r, s, b0, k0, n.inputs[i].from, |f.blocks[n.inputs[i].from].body|);
      }
    } else if r in Uses(n) {
      TwinBefore(f, r, s, b0, k0, b, k);
    }
  }

  lemma SwappedBefore(f: Function, r: Reg, s: Reg, b: Label, k: nat, us: seq<Reg>)
    requires (forall u :: u in us ==> DefinedBefore(f, u, b, k)) && (r in us ==> DefinedBefore(f, s, b, k))
    ensures forall u :: u in SwapAll(us, r, s) ==> DefinedBefore(f, u, b, k)
  {
    forall u | u in SwapAll(us, r, s) ensures DefinedBefore(f, u, b, k) {
      var i :| 0 <= i < |us| && SwapAll(us, r, s)[i] == u;
      assert us[i] in us;
    }
  }

  lemma SwapUses(n: Node, r: Reg, s: Reg)
    requires !n.Phi?
    ensures Uses(SwapNode(n, r, s)) == SwapAll(Uses(n), r, s)
  {
  }

  lemma SwapEndUses(t: Terminator, r: Reg, s: Reg)
    requires r != 0
    ensures forall u :: u in EndUses(SwapEnd(t, r, s)) ==> u in SwapAll(EndUses(t), r, s)
  {
    match t {
      case Return(v) => if v != 0 { assert SwapAll(EndUses(t), r, s)[0] == Swap(v, r, s); }
      case If(c, _, _) => assert SwapAll(EndUses(t), r, s)[0] == Swap(c, r, s);
      case Switch(k, _, _) => assert SwapAll(EndUses(t), r, s)[0] == Swap(k, r, s);
      case _ =>
    }
  }

  // What NodeDominated asks of a node at position k of b.
  ghost predicate NodeFits(f: Function, n: Node, b: Label, k: nat)
    requires Shape(f)
  {
    if n.Phi? then
      forall i: nat ::
        i < |n.inputs| && Edge(GraphOf(f), n.inputs[i].from, b) && Reachable(GraphOf(f), n.inputs[i].from) ==>
          DefinedBefore(f, n.inputs[i].val, n.inputs[i].from, |f.blocks[n.inputs[i].from].body|)
    else forall u :: u in Uses(n) ==> DefinedBefore(f, u, b, k)
  }

  lemma SwapNodeFits(f: Function, r: Reg, s: Reg, b: Label, k: nat, n: Node)
    requires Shape(f) && NodeFits(f, n, b, k) && NodeCovered(f, n, b, k, r, s)
    ensures NodeFits(f, SwapNode(n, r, s), b, k)
  {
    hide DefinedBefore, Reachable, Shape;
    if !n.Phi? {
      SwapUses(n, r, s);
      SwappedBefore(f, r, s, b, k, Uses(n));
    }
  }

  lemma FitsElsewhere(f: Function, h: Function, b: Label, k: nat)
    requires Shape(f) && Shape(h) && SameSkeleton(f, h) && b < |h.blocks| && k < |h.blocks[b].body|
    requires NodeFits(f, h.nodes[h.blocks[b].body[k]], b, k)
    ensures NodeDominated(h, b, k)
  {
    SkeletonShape(f, h);
    hide Shape, DefinedBefore, Reachable, Edge;
  }

  lemma SwapKeepsSsa(f: Function, h: Function, r: Reg, s: Reg)
    requires Shape(f) && SsaForm(f) && Stands(f, r, s) && Swapped(f, h, r, s)
    ensures Shape(h) && SsaForm(h)
  {
    SwapSkeleton(f, h, r, s);
    SkeletonShape(f, h);
    hide DefinedBefore, Reachable, Shape;
    forall b: Label | b < |h.blocks| && Reachable(GraphOf(h), b) ensures BlockDominated(h, b) {
      assert BlockDominated(f, b);
      forall k: nat | k < |h.blocks[b].body| ensures NodeDominated(h, b, k) {
        SwapNodeDominated(f, h, r, s, b, k);
      }
      SwapEndUses(f.blocks[b].end, r, s);
      SwappedBefore(f, r, s, b, |f.blocks[b].body|, EndUses(f.blocks[b].end));
    }
  }

  lemma SwapNodeDominated(f: Function, h: Function, r: Reg, s: Reg, b: Label, k: nat)
    requires Shape(f) && SsaForm(f) && Stands(f, r, s) && Swapped(f, h, r, s) && SameSkeleton(f, h) && Shape(h)
    requires b < |f.blocks| && k < |f.blocks[b].body| && Reachable(GraphOf(f), b)
    ensures NodeDominated(h, b, k)
  {
    hide DefinedBefore, Reachable;
    assert BlockDominated(f, b) && NodeDominated(f, b, k);
    var q := f.blocks[b].body[k];
    assert Listed(f, q) && q < |f.nodes|;
    assert NodeFits(f, f.nodes[q], b, k) && NodeCovered(f, f.nodes[q], b, k, r, s);
    hide SsaForm, Shape, NodeFits, NodeDominated, NodeCovered;
    SwapNodeFits(f, r, s, b, k, f.nodes[q]);
    FitsElsewhere(f, h, b, k);
  }

  // ----- Runs -----

  lemma TwinVal<V, W>(sem: Sem<V, W>, f: Function, r: Reg, s: Reg, b: Label, k: nat, st: State<V, W>)
    requires SameValue(f, r, s) && DefinedBefore(f, r, b, k) && DefinedBefore(f, s, b, k) && Holds(sem, f, b, k, st)
    ensures Val(sem, st, r) == Val(sem, st, s)
  {
    hide DefinedBefore;
    assert Equation(sem, f, r, st);
    if f.nodes[r].Pure? { assert Equation(sem, f, s, st); }
  }

  // Where r and s have the same value, swapping one for the other changes no node.
  lemma SwapNodeSame<V, W>(sem: Sem<V, W>, q: Reg, n: Node, r: Reg, s: Reg, st: State<V, W>)
    requires r in Uses(n) ==> Val(sem, st, r) == Val(sem, st, s)
    ensures ExecNode(sem, {}, q, SwapNode(n, r, s), st) == ExecNode(sem, {}, q, n, st)
  {
    match n {
      case Pure(_, args) => assert Vals(sem, st, SwapAll(args, r, s)) == Vals(sem, st, args);
      case Effect(_, args) => assert Vals(sem, st, SwapAll(args, r, s)) == Vals(sem, st, args);
      case _ =>
    }
  }

  lemma {:induction false} SwapPhiSame<V, W>(sem: Sem<V, W>, q: Reg, ins: seq<PhiInput>, from: Label, r: Reg, s: Reg,
                                             st: State<V, W>)
    requires forall i :: 0 <= i < |ins| && ins[i].from == from && ins[i].val == r ==> Val(sem, st, r) == Val(sem, st, s)
    ensures PhiVal(sem, q, SwapInputs(ins, r, s), from, st) == PhiVal(sem, q, ins, from, st)
  {
    if ins != [] {
      var rest := ins[..|ins| - 1];
      SwapPhiSame(sem, q, rest, from, r, s, st);
      assert SwapInputs(ins, r, s)[..|ins| - 1] == SwapInputs(rest, r, s);
    }
  }

  ghost predicate SwapContext(f: Function, h: Function, r: Reg, s: Reg)
  {
    Shape(f) && SsaForm(f) && Stands(f, r, s) && Swapped(f, h, r, s) && Shape(h)
  }

  // Where a node reads r, r and s have the same value.
  lemma ReadSame<V, W>(sem: Sem<V, W>, f: Function, h: Function, r: Reg, s: Reg, b: Label, k: nat, st: State<V, W>)
    requires SwapContext(f, h, r, s) && b < |f.blocks| && k < |f.blocks[b].body| && Reachable(GraphOf(f), b)
    requires Holds(sem, f, b, k, st) && !f.nodes[f.blocks[b].body[k]].Phi?
    ensures r in Uses(f.nodes[f.blocks[b].body[k]]) ==> Val(sem, st, r) == Val(sem, st, s)
  {
    assert BlockDominated(f, b) && NodeDominated(f, b, k);
    hide Shape, SsaForm, DefinedBefore, Holds, Reachable, SameValue;
    var n := f.nodes[f.blocks[b].body[k]];
    assert NodeCovered(f, n, b, k, r, s);
    if r in Uses(n) { TwinVal(sem, f, r, s, b, k, st); }
  }

  // Node k of block b.
  lemma SwapAt<V, W>(sem: Sem<V, W>, f: Function, h: Function, r: Reg, s: Reg, b: Label, k: nat, st: State<V, W>)
    requires SwapContext(f, h, r, s)
    requires b < |f.blocks| && k < |f.blocks[b].body| && Reachable(GraphOf(f), b) && Holds(sem, f, b, k, st)
    ensures var q := f.blocks[b].body[k];
            q < |f.nodes| == |h.nodes| && ExecNode(sem, {}, q, h.nodes[q], st) == ExecNode(sem, {}, q, f.nodes[q], st)
  {
    hide SsaForm, DefinedBefore, Holds, SwapNode, Reachable, Stands, WellFormed, ExecNode;
    var q := f.blocks[b].body[k];
    assert Listed(f, q);
    if f.nodes[q].Phi? {
      PhiIsIdle(sem, q, f.nodes[q], r, s, st);
    } else {
      ReadSame(sem, f, h, r, s, b, k, st);
      SwapNodeSame(sem, q, f.nodes[q], r, s, st);
    }
  }

  lemma SwapBodies(f: Function, h: Function, r: Reg, s: Reg, b: Label)
    requires SwapContext(f, h, r, s) && b < |f.blocks|
    ensures |h.blocks| == |f.blocks| && |h.nodes| == |f.nodes| && h.blocks[b].body == f.blocks[b].body
    ensures forall i :: 0 <= i < |f.blocks[b].body| ==> f.blocks[b].body[i] < |f.nodes|
    ensures Shape(f) && SsaForm(f)
  {
  }

  lemma {:induction false} SwapBodySame<V, W>(sem: Sem<V, W>, f: Function, h: Function, r: Reg, s: Reg,
                                              b: Label, k: nat, st: State<V, W>)
    requires SwapContext(f, h, r, s)
    requires b < |f.blocks| && k <= |f.blocks[b].body| && Reachable(GraphOf(f), b) && Holds(sem, f, b, 0, st)
    ensures h.blocks[b].body == f.blocks[b].body
    ensures ExecBody(sem, {}, h, f.blocks[b].body, k, st) == ExecBody(sem, {}, f, f.blocks[b].body, k, st)
  {
    hide SwapContext, Shape, SsaForm, Holds, Reachable, ExecNode;
    SwapBodies(f, h, r, s, b);
    if k > 0 {
      SwapBodySame(sem, f, h, r, s, b, k - 1, st);
      HoldsBody(sem, f, b, k - 1, st);
      SwapAt(sem, f, h, r, s, b, k - 1, ExecBody(sem, {}, f, f.blocks[b].body, k - 1, st));
    }
  }

  lemma PhiIsIdle<V, W>(sem: Sem<V, W>, q: Reg, n: Node, r: Reg, s: Reg, st: State<V, W>)
    requires n.Phi?
    ensures ExecNode(sem, {}, q, SwapNode(n, r, s), st) == ExecNode(sem, {}, q, n, st)
  {
  }

  lemma SwapPhiInput<V, W>(sem: Sem<V, W>, f: Function, h: Function, r: Reg, s: Reg, c: Config<V, W>, q: Reg)
    requires SwapContext(f, h, r, s) && c.At? && Arriving(sem, f, c)
    requires IsPhiAt(f, f.blocks[c.block].body, q)
    ensures PhiVal(sem, q, SwapInputs(f.nodes[q].inputs, r, s), c.from, c.st) ==
              PhiVal(sem, q, f.nodes[q].inputs, c.from, c.st)
  {
    var b, ins := c.block, f.nodes[q].inputs;
    var k: nat :| k < |f.blocks[b].body| && f.blocks[b].body[k] == q;
    assert BlockDominated(f, b) && NodeDominated(f, b, k) && NodeCovered(f, f.nodes[q], b, k, r, s);
    hide Shape, SsaForm, DefinedBefore, Holds, Reachable, Edge, SameValue;
    forall i | 0 <= i < |ins| && ins[i].from == c.from && ins[i].val == r
      ensures Val(sem, c.st, r) == Val(sem, c.st, s)
    {
      InputSame(sem, f, r, s, c, k, i);
    }
    SwapPhiSame(sem, q, ins, c.from, r, s, c.st);
  }

  lemma InputSame<V, W>(sem: Sem<V, W>, f: Function, r: Reg, s: Reg, c: Config<V, W>, k: nat, i: nat)
    requires Shape(f) && SameValue(f, r, s) && c.At? && Arriving(sem, f, c) && k < |f.blocks[c.block].body|
    requires NodeDominated(f, c.block, k) && NodeCovered(f, f.nodes[f.blocks[c.block].body[k]], c.block, k, r, s)
    requires var n := f.nodes[f.blocks[c.block].body[k]];
             n.Phi? && i < |n.inputs| && n.inputs[i].from == c.from && n.inputs[i].val == r
    ensures Val(sem, c.st, r) == Val(sem, c.st, s)
  {
    hide DefinedBefore, Holds, Reachable, Edge, SameValue;
    if c.from < |f.blocks| {
      TwinVal(sem, f, r, s, c.from, |f.blocks[c.from].body|, c.st);
    }
  }

  lemma SwapEnterSame<V, W>(sem: Sem<V, W>, f: Function, h: Function, r: Reg, s: Reg, c: Config<V, W>)
    requires SwapContext(f, h, r, s) && c.At? && Arriving(sem, f, c)
    ensures EnterBlock(sem, h, f.blocks[c.block].body, c.from, c.st) ==
              EnterBlock(sem, f, f.blocks[c.block].body, c.from, c.st)
  {
    hide Shape, SsaForm, Stands, Swapped, Holds, Reachable, Edge, PhiVal, SwapInputs;
    var body := f.blocks[c.block].body;
    forall q: Reg | q in body
      ensures IsPhiAt(h, body, q) <==> IsPhiAt(f, body, q)
      ensures IsPhiAt(f, body, q) ==>
                PhiVal(sem, q, h.nodes[q].inputs, c.from, c.st) == PhiVal(sem, q, f.nodes[q].inputs, c.from, c.st)
    {
      PhiBecomes(f, h, r, s, c.block, q);
      if IsPhiAt(f, body, q) { SwapPhiInput(sem, f, h, r, s, c, q); }
    }
    assert PhiMoves(sem, h, body, c.from, c.st) == PhiMoves(sem, f, body, c.from, c.st);
  }

  lemma PhiBecomes(f: Function, h: Function, r: Reg, s: Reg, b: Label, q: Reg)
    requires Shape(f) && Swapped(f, h, r, s) && b < |f.blocks| && q in f.blocks[b].body
    ensures IsPhiAt(h, f.blocks[b].body, q) <==> IsPhiAt(f, f.blocks[b].body, q)
    ensures IsPhiAt(f, f.blocks[b].body, q) ==> h.nodes[q].inputs == SwapInputs(f.nodes[q].inputs, r, s)
  {
    var k :| 0 <= k < |f.blocks[b].body| && f.blocks[b].body[k] == q;
    assert Listed(f, q);
  }

  lemma SwapLeaveSame<V, W>(sem: Sem<V, W>, f: Function, h: Function, r: Reg, s: Reg, b: Label, st: State<V, W>)
    requires SwapContext(f, h, r, s) && b < |f.blocks| && Reachable(GraphOf(f), b)
    requires Holds(sem, f, b, |f.blocks[b].body|, st)
    ensures Leave(sem, h.blocks[b].end, st) == Leave(sem, f.blocks[b].end, st)
  {
    assert BlockDominated(f, b);
    var t := f.blocks[b].end;
    hide Shape, SsaForm, DefinedBefore, Holds, Reachable, SameValue;
    if r in EndUses(t) { TwinVal(sem, f, r, s, b, |f.blocks[b].body|, st); }
    assert r != 0;
    match t {
      case Return(v) => assert v != 0 ==> v in EndUses(t);
      case If(c, _, _) => assert c in EndUses(t);
      case Switch(k, _, _) => assert k in EndUses(t);
      case _ =>
    }
  }

  // The theorem: replacing a register by one that computes the same and is defined at every use
  // changes no run at all.
  lemma {:induction false} SwapPreservesRuns<V, W>(sem: Sem<V, W>, f: Function, h: Function, r: Reg, s: Reg, w: W,
                                                   n: nat)
    requires Shape(f) && SsaForm(f) && Stands(f, r, s) && Swapped(f, h, r, s)
    ensures Shape(h) && Run(sem, {}, h, w, n) == Run(sem, {}, f, w, n)
  {
    hide SsaForm, Stands, Shape, Arriving, Step;
    SwapKeepsSsa(f, h, r, s);
    if n > 0 {
      SwapPreservesRuns(sem, f, h, r, s, w, n - 1);
      RunArrives(sem, f, w, n - 1);
      SwapStepOrStop(sem, f, h, r, s, Run(sem, {}, f, w, n - 1));
    }
  }

  lemma SwapStepOrStop<V, W>(sem: Sem<V, W>, f: Function, h: Function, r: Reg, s: Reg, c: Config<V, W>)
    requires SwapContext(f, h, r, s) && (c.At? ==> Arriving(sem, f, c))
    ensures Step(sem, {}, h, c) == Step(sem, {}, f, c)
  {
    if c.At? {
      hide Step;
      SwapStepSame(sem, f, h, r, s, c);
    }
  }

  lemma SwapStepSame<V, W>(sem: Sem<V, W>, f: Function, h: Function, r: Reg, s: Reg, c: Config<V, W>)
    requires SwapContext(f, h, r, s) && c.At? && Arriving(sem, f, c)
    ensures Step(sem, {}, h, c) == Step(sem, {}, f, c)
  {
    var b := c.block;
    var body := f.blocks[b].body;
    var st1 := EnterBlock(sem, f, body, c.from, c.st);
    SwapEnterSame(sem, f, h, r, s, c);
    ArrivingHolds(sem, f, c);
    SwapBodySame(sem, f, h, r, s, b, |body|, st1);
    HoldsBody(sem, f, b, |body|, st1);
    SwapLeaveSame(sem, f, h, r, s, b, ExecBody(sem, {}, f, body, |body|, st1));
    hide Holds, SsaForm, Stands;
  }

  // ----- When SSA form is kept -----

  // The function with every use of r replaced by s ...
  ghost function SwappedFunction(f: Function, r: Reg, s: Reg): (h: Function)
    ensures Swapped(f, h, r, s)
  {
    f.(nodes :=
      seq(|f.nodes|, q requires 0 <= q < |f.nodes| => if Listed(f, q) then SwapNode(f.nodes[q], r, s) else f.nodes[q]),
       blocks :=
      seq(|f.blocks|, b requires 0 <= b < |f.blocks| => Block(f.blocks[b].body, SwapEnd(f.blocks[b].end, r, s))))
  }

  // ... and node r dropped.
  ghost function MergedFunction(f: Function, r: Reg, s: Reg): (h: Function)
    requires r < |f.nodes|
    ensures Killed(SwappedFunction(f, r, s), h, r)
  {
    var h := SwappedFunction(f, r, s);
    h.(nodes := h.nodes[r := Null])
  }

  lemma SwappedIs(f: Function, h: Function, r: Reg, s: Reg)
    requires Swapped(f, h, r, s)
    ensures h == SwappedFunction(f, r, s)
  {
    var m := SwappedFunction(f, r, s);
    assert h.nodes == m.nodes && h.blocks == m.blocks;
  }

  lemma MergedSkeleton(f: Function, r: Reg, s: Reg)
    requires r < |f.nodes|
    ensures SameSkeleton(f, MergedFunction(f, r, s))
  {
    SwapSkeleton(f, SwappedFunction(f, r, s), r, s);
  }

  lemma EndReads(t: Terminator, r: Reg, s: Reg)
    requires r != 0 && s != 0 && r in EndUses(t)
    ensures s in EndUses(SwapEnd(t, r, s))
  {
  }

  lemma NodeReads(n: Node, r: Reg, s: Reg)
    requires r in Uses(n) && !n.Phi?
    ensures s in Uses(SwapNode(n, r, s))
  {
    SwapUses(n, r, s);
    var i :| 0 <= i < |Uses(n)| && Uses(n)[i] == r;
    assert SwapAll(Uses(n), r, s)[i] == s;
  }

  lemma SsaNodeCovered(f: Function, r: Reg, s: Reg, b: Label, k: nat)
    requires Shape(f) && r < |f.nodes| && f.nodes[r].Pure?
    requires Shape(MergedFunction(f, r, s)) && SameSkeleton(f, MergedFunction(f, r, s))
    requires b < |f.blocks| && k < |f.blocks[b].body|
    requires NodeDominated(f, b, k) && NodeDominated(MergedFunction(f, r, s), b, k)
    ensures NodeCovered(f, f.nodes[f.blocks[b].body[k]], b, k, r, s)
  {
    hide DefinedBefore, Reachable, Edge, SameSkeleton;
    var h, q := MergedFunction(f, r, s), f.blocks[b].body[k];
    SkeletonShape(f, h);
    NotBeforeItself(f, b, k);
    if q != r {
      assert Listed(f, q);
      CoveredBy(f, h, f.nodes[q], r, s, b, k);
    }
  }

  // A node that fits after the swap had its uses covered.
  lemma CoveredBy(f: Function, h: Function, n: Node, r: Reg, s: Reg, b: Label, k: nat)
    requires Shape(f) && Shape(h) && NodeFits(h, SwapNode(n, r, s), b, k) && |h.blocks| == |f.blocks|
    requires forall c: Label :: c < |f.blocks| ==> h.blocks[c].body == f.blocks[c].body
    requires forall a: Label, c: Label :: Edge(GraphOf(h), a, c) <==> Edge(GraphOf(f), a, c)
    requires forall c: Label :: Reachable(GraphOf(h), c) <==> Reachable(GraphOf(f), c)
    requires forall u: Reg, c: Label, j: nat :: DefinedBefore(h, u, c, j) <==> DefinedBefore(f, u, c, j)
    ensures NodeCovered(f, n, b, k, r, s)
  {
    hide DefinedBefore, Reachable, Shape, Edge, GraphOf;
    if n.Phi? {
      forall i: nat | i < |n.inputs| && Edge(GraphOf(f), n.inputs[i].from, b) && Reachable(GraphOf(f), n.inputs[i].from)
                      && n.inputs[i].val == r
        ensures n.inputs[i].from < |f.blocks|
        ensures DefinedBefore(f, s, n.inputs[i].from, |f.blocks[n.inputs[i].from].body|)
      {
        SwappedInput(n, r, s, i);
        EdgeFits(f, n.inputs[i].from, b);
      }
    } else if r in Uses(n) {
      NodeReads(n, r, s);
    }
  }

  lemma SwappedInput(n: Node, r: Reg, s: Reg, i: nat)
    requires n.Phi? && i < |n.inputs| && n.inputs[i].val == r
    ensures var m := SwapNode(n, r, s); m.Phi? && i < |m.inputs| && m.inputs[i] == PhiInput(n.inputs[i].from, s)
  {
  }

  lemma EdgeFits(f: Function, a: Label, b: Label)
    requires Edge(GraphOf(f), a, b)
    ensures a < |f.blocks|
  {
  }

  lemma SsaCovered(f: Function, r: Reg, s: Reg)
    requires Shape(f) && SsaForm(f) && 0 < r < |f.nodes| && f.nodes[r].Pure? && s != 0
    requires Shape(MergedFunction(f, r, s)) && SsaForm(MergedFunction(f, r, s))
    ensures UsesCovered(f, r, s)
  {
    var h := MergedFunction(f, r, s);
    MergedSkeleton(f, r, s);
    SkeletonShape(f, h);
    hide DefinedBefore, Reachable, Edge, Shape;
    forall b: Label | b < |f.blocks| && Reachable(GraphOf(f), b)
      ensures forall k: nat :: k < |f.blocks[b].body| ==> NodeCovered(f, f.nodes[f.blocks[b].body[k]], b, k, r, s)
      ensures r in EndUses(f.blocks[b].end) ==> DefinedBefore(f, s, b, |f.blocks[b].body|)
    {
      assert BlockDominated(h, b) && BlockDominated(f, b);
      if r in EndUses(f.blocks[b].end) { EndReads(f.blocks[b].end, r, s); }
      forall k: nat | k < |f.blocks[b].body| ensures NodeCovered(f, f.nodes[f.blocks[b].body[k]], b, k, r, s) {
        assert NodeDominated(f, b, k) && NodeDominated(h, b, k);
        SsaNodeCovered(f, r, s, b, k);
      }
    }
  }
}
