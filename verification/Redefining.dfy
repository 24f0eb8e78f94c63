// Giving a register another definition of the same value (src/tb/opt/canonical.c:322-557) and
// inserting a node behind another (src/tb/tb_internal.c:300-315).

module Redefining {
  import opened Cfg
  import opened Ir
  import opened Ssa
  import opened Equations
  import opened Replacing
  import opened Removal

  // ----- Another definition -----

  // h is f with n as the definition of r.
  ghost predicate Redefined(f: Function, h: Function, r: Reg, n: Node)
  {
    r < |f.nodes| && h == f.(nodes := f.nodes[r := n])
  }

  function Defined<V, W>(sem: Sem<V, W>, n: Node, st: State<V, W>): V
    requires n.Pure? || n.Pass?
  {
    if n.Pure? then sem.pure(n.opcode, Vals(sem, st, n.args)) else Val(sem, st, n.src)
  }

  // n can stand for the node at position k of b: it reads what is defined there, and has the
  // same value wherever the equations of the function hold.
  ghost predicate StandsFor<V(!new), W(!new)>(sem: Sem<V, W>, f: Function, b: Label, k: nat, n: Node)
    requires Shape(f)
  {
    && b < |f.blocks| && k < |f.blocks[b].body| && (n.Pure? || n.Pass?)
    && (var m := f.nodes[f.blocks[b].body[k]];
        && (m.Pure? || m.Pass?)
        && forall st: State<V, W> :: Holds(sem, f, b, k, st) ==> Defined(sem, n, st) == Defined(sem, m, st))
    && forall u :: u in Uses(n) ==> DefinedBefore(f, u, b, k)
  }

  lemma RedefinedShape(f: Function, h: Function, r: Reg, n: Node)
    requires Shape(f) && Redefined(f, h, r, n)
    ensures Shape(h) && SameSkeleton(f, h) && GraphOf(h) == GraphOf(f)
  {
    assert GraphOf(h) == GraphOf(f);
  }

  lemma RedefinedKeepsSsa<V(!new), W(!new)>(sem: Sem<V, W>, f: Function, h: Function, b0: Label, k0: nat, n: Node)
    requires Shape(f) && SsaForm(f) && StandsFor(sem, f, b0, k0, n) && Redefined(f, h, f.blocks[b0].body[k0], n)
    ensures Shape(h) && SsaForm(h)
  {
    RedefinedShape(f, h, f.blocks[b0].body[k0], n);
    SkeletonShape(f, h);
    forall b: Label | b < |h.blocks| && Reachable(GraphOf(h), b) ensures BlockDominated(h, b) {
      assert BlockDominated(f, b);
      forall k: nat | k < |h.blocks[b].body| ensures NodeDominated(h, b, k) {
        assert NodeDominated(f, b, k);
        if f.blocks[b].body[k] == f.blocks[b0].body[k0] { assert b == b0 && k == k0; }
      }
    }
  }

  ghost predicate Redefines<V(!new), W(!new)>(sem: Sem<V, W>, f: Function, h: Function, b0: Label, k0: nat, n: Node)
  {
    Shape(f) && SsaForm(f) && StandsFor(sem, f, b0, k0, n) && Redefined(f, h, f.blocks[b0].body[k0], n) && Shape(h)
  }

  // Node k of block b, where the equations hold.
  lemma RedefinedAt<V(!new), W(!new)>(sem: Sem<V, W>, f: Function, h: Function, b0: Label, k0: nat, n: Node,
                                      b: Label, k: nat, st: State<V, W>)
    requires Redefines(sem, f, h, b0, k0, n) && b < |f.blocks| && k < |f.blocks[b].body| && Holds(sem, f, b, k, st)
    ensures var q := f.blocks[b].body[k];
            q < |f.nodes| == |h.nodes| && ExecNode(sem, {}, q, h.nodes[q], st) == ExecNode(sem, {}, q, f.nodes[q], st)
  {
    hide SsaForm, Holds, Reachable, WellFormed, DefinedBefore;
    var q := f.blocks[b].body[k];
    if q == f.blocks[b0].body[k0] {
      assert b == b0 && k == k0;
      assert Defined(sem, n, st) == Defined(sem, f.nodes[q], st);
    }
  }

  lemma {:induction false} RedefinedBody<V(!new), W(!new)>(sem: Sem<V, W>, f: Function, h: Function, b0: Label, k0: nat,
                                                           n: Node,
                                                           b: Label, k: nat, st: State<V, W>)
    requires Redefines(sem, f, h, b0, k0, n) && b < |f.blocks| && k <= |f.blocks[b].body| && Reachable(GraphOf(f), b)
    requires Holds(sem, f, b, 0, st)
    ensures |h.nodes| == |f.nodes| && forall i :: 0 <= i < |f.blocks[b].body| ==> f.blocks[b].body[i] < |f.nodes|
    ensures ExecBody(sem, {}, h, f.blocks[b].body, k, st) == ExecBody(sem, {}, f, f.blocks[b].body, k, st)
  {
    hide Redefines, Shape, SsaForm, Holds, Reachable, ExecNode;
    RedefinesShape(sem, f, h, b0, k0, n);
    BodyFits(f, b);
    if k > 0 {
      RedefinedBody(sem, f, h, b0, k0, n, b, k - 1, st);
      HoldsBody(sem, f, b, k - 1, st);
      RedefinedAt(sem, f, h, b0, k0, n, b, k - 1, ExecBody(sem, {}, f, f.blocks[b].body, k - 1, st));
    }
  }

  lemma RedefinedStep<V(!new), W(!new)>(sem: Sem<V, W>, f: Function, h: Function, b0: Label, k0: nat, n: Node,
                                        c: Config<V, W>)
    requires Redefines(sem, f, h, b0, k0, n) && c.At? && Arriving(sem, f, c)
    ensures Step(sem, {}, h, c) == Step(sem, {}, f, c)
  {
    var body := f.blocks[c.block].body;
    ArrivingHolds(sem, f, c);
    RedefinedBody(sem, f, h, b0, k0, n, c.block, |body|, EnterBlock(sem, f, body, c.from, c.st));
    RedefinedEnter(sem, f, h, f.blocks[b0].body[k0], n, body, c.from, c.st);
    hide Holds, SsaForm, ExecBody, EnterBlock, StandsFor;
  }

  lemma RedefinedEnter<V, W>(sem: Sem<V, W>, f: Function, h: Function, r: Reg, n: Node, body: seq<Reg>, from: Label,
                             st: State<V, W>)
    requires Redefined(f, h, r, n) && !n.Phi? && !f.nodes[r].Phi?
    ensures EnterBlock(sem, h, body, from, st) == EnterBlock(sem, f, body, from, st)
  {
    forall q: Reg ensures IsPhiAt(h, body, q) <==> IsPhiAt(f, body, q) {
    }
    assert PhiMoves(sem, h, body, from, st) == PhiMoves(sem, f, body, from, st);
  }

  lemma RedefinedStepOrStop<V(!new), W(!new)>(sem: Sem<V, W>, f: Function, h: Function, b0: Label, k0: nat, n: Node,
                                              c: Config<V, W>)
    requires Redefines(sem, f, h, b0, k0, n) && (c.At? ==> Arriving(sem, f, c))
    ensures Shape(f) && Shape(h) && Step(sem, {}, h, c) == Step(sem, {}, f, c)
  {
    if c.At? {
      hide Step, StandsFor, Redefined;
      RedefinedStep(sem, f, h, b0, k0, n, c);
    }
  }

  // The theorem: another definition of the same value changes no run at all.
  lemma {:induction false} RedefiningPreservesRuns<V(!new), W(!new)>(sem: Sem<V, W>, f: Function, h: Function,
                                                                     b0: Label, k0: nat,
                                                                     n: Node, w: W, i: nat)
    requires Shape(f) && SsaForm(f) && StandsFor(sem, f, b0, k0, n) && Redefined(f, h, f.blocks[b0].body[k0], n)
    ensures Shape(h) && SsaForm(h) && Run(sem, {}, h, w, i) == Run(sem, {}, f, w, i)
  {
    RedefinedKeepsSsa(sem, f, h, b0, k0, n);
    assert |h.blocks| == |f.blocks| && Redefines(sem, f, h, b0, k0, n);
    RedefiningRuns(sem, f, h, b0, k0, n, w, i);
  }

  lemma {:induction false} RedefiningRuns<V(!new), W(!new)>(sem: Sem<V, W>, f: Function, h: Function, b0: Label,
                                                            k0: nat, n: Node,
                                                            w: W, i: nat)
    requires Redefines(sem, f, h, b0, k0, n) && |h.blocks| == |f.blocks|
    ensures Shape(f) && Shape(h) && Run(sem, {}, h, w, i) == Run(sem, {}, f, w, i)
    decreases i
  {
    hide Redefines, SsaForm, Shape, Arriving, Step;
    RedefinesShape(sem, f, h, b0, k0, n);
    if i > 0 {
      RedefiningRuns(sem, f, h, b0, k0, n, w, i - 1);
      RunArrives(sem, f, w, i - 1);
      RedefinedStepOrStop(sem, f, h, b0, k0, n, Run(sem, {}, f, w, i - 1));
    }
  }

  lemma RedefinesShape<V(!new), W(!new)>(sem: Sem<V, W>, f: Function, h: Function, b0: Label, k0: nat, n: Node)
    requires Redefines(sem, f, h, b0, k0, n)
    ensures Shape(f) && SsaForm(f) && Shape(h) && |h.nodes| == |f.nodes|
  {
  }

  // ----- Where no run comes -----

  // The node r stands at position k of block b, which cannot be reached.
  ghost predicate Aside(f: Function, h: Function, b: Label, k: nat, n: Node)
  {
    && Shape(f) && b < |f.blocks| && k < |f.blocks[b].body| && !Reachable(GraphOf(f), b)
    && Redefined(f, h, f.blocks[b].body[k], n)
  }

  lemma AsideSsa(f: Function, h: Function, b0: Label, k0: nat, n: Node)
    requires Aside(f, h, b0, k0, n) && SsaForm(f)
    ensures Shape(h) && SsaForm(h)
  {
    RedefinedShape(f, h, f.blocks[b0].body[k0], n);
    SkeletonShape(f, h);
    forall b: Label | b < |h.blocks| && Reachable(GraphOf(h), b) ensures BlockDominated(h, b) {
      assert BlockDominated(f, b);
      forall k: nat | k < |h.blocks[b].body| ensures NodeDominated(h, b, k) {
        assert NodeDominated(f, b, k);
        assert f.blocks[b].body[k] != f.blocks[b0].body[k0];
      }
    }
  }

  lemma AsideShape(f: Function, h: Function, b: Label, k: nat, n: Node)
    requires Aside(f, h, b, k, n)
    ensures Shape(f) && Shape(h) && |h.blocks| == |f.blocks|
  {
    RedefinedShape(f, h, f.blocks[b].body[k], n);
  }

  lemma {:induction false} BodyElsewhere<V, W>(sem: Sem<V, W>, f: Function, h: Function, r: Reg, n: Node,
                                               body: seq<Reg>, k: nat, st: State<V, W>)
    requires Redefined(f, h, r, n) && k <= |body| && forall i :: 0 <= i < |body| ==> body[i] < |f.nodes| && body[i] != r
    ensures ExecBody(sem, {}, h, body, k, st) == ExecBody(sem, {}, f, body, k, st)
  {
    if k > 0 { BodyElsewhere(sem, f, h, r, n, body, k - 1, st); }
  }

  lemma AsideStep<V, W>(sem: Sem<V, W>, f: Function, h: Function, b0: Label, k0: nat, n: Node, c: Config<V, W>)
    requires Aside(f, h, b0, k0, n) && Shape(h) && c.At? && Reachable(GraphOf(f), c.block)
    ensures Step(sem, {}, h, c) == Step(sem, {}, f, c)
  {
    if c.block < |f.blocks| {
      var body, r := f.blocks[c.block].body, f.blocks[b0].body[k0];
      assert PhiMoves(sem, h, body, c.from, c.st) == PhiMoves(sem, f, body, c.from, c.st);
      BodyElsewhere(sem, f, h, r, n, body, |body|, EnterBlock(sem, f, body, c.from, c.st));
    }
  }

  // Whatever becomes of a node that no run reaches, no run changes.
  lemma {:induction false} AsidePreservesRuns<V, W>(sem: Sem<V, W>, f: Function, h: Function, b: Label, k: nat, n: Node,
                                                    w: W, i: nat)
    requires Aside(f, h, b, k, n)
    ensures Shape(h) && Run(sem, {}, h, w, i) == Run(sem, {}, f, w, i)
  {
    hide Aside, Step, Shape;
    AsideShape(f, h, b, k, n);
    if i > 0 {
      AsidePreservesRuns(sem, f, h, b, k, n, w, i - 1);
      TraceIsPath(sem, {}, f, w, i - 1);
      var c := Run(sem, {}, f, w, i - 1);
      if c.At? {
        assert Reachable(GraphOf(f), c.block);
        AsideStep(sem, f, h, b, k, n, c);
      } else {
        StepHalted(sem, {}, f, c);
        StepHalted(sem, {}, h, c);
      }
    }
  }

  // ----- One node more -----

  // tb_function_insert_after: an empty node behind position i of block d.
  function WithGap(f: Function, d: Label, i: nat): Function
    requires d < |f.blocks| && i < |f.blocks[d].body|
  {
    var body := f.blocks[d].body;
    f.(nodes := f.nodes + [Null],
       blocks := f.blocks[d := f.blocks[d].(body := body[..i + 1] + [|f.nodes|] + body[i + 1..])])
  }

  // Where what stood before position k of block b now stands.
  function Shifted(d: Label, i: nat, b: Label, k: nat): nat
  {
    if b == d && k > i then k + 1 else k
  }

  // What stands at position k of block b once there is a gap.
  ghost function GapReg(f: Function, d: Label, i: nat, b: Label, k: nat): Reg
    requires d < |f.blocks| && i < |f.blocks[d].body| && b < |f.blocks|
    requires k < |f.blocks[b].body| + (if b == d then 1 else 0)
  {
    if b != d || k <= i then f.blocks[b].body[k] else if k == i + 1 then |f.nodes| else f.blocks[b].body[k - 1]
  }

  lemma GapAt(f: Function, d: Label, i: nat, b: Label, k: nat)
    requires d < |f.blocks| && i < |f.blocks[d].body| && b < |f.blocks| && k < |WithGap(f, d, i).blocks[b].body|
    ensures |WithGap(f, d, i).blocks[b].body| == |f.blocks[b].body| + (if b == d then 1 else 0)
    ensures WithGap(f, d, i).blocks[b].body[k] == GapReg(f, d, i, b, k)
  {
  }

  lemma GapOnce(f: Function, d: Label, i: nat, b: Label, k: nat, c: Label, j: nat)
    requires Shape(f) && d < |f.blocks| && i < |f.blocks[d].body| && b < |f.blocks| && c < |f.blocks|
    requires k < |f.blocks[b].body| + (if b == d then 1 else 0) && j < |f.blocks[c].body| + (if c == d then 1 else 0)
    ensures GapReg(f, d, i, b, k) <= |f.nodes| && (GapReg(f, d, i, b, k) == GapReg(f, d, i, c, j) ==> b == c && k == j)
  {
  }

  lemma GapShape(f: Function, d: Label, i: nat)
    requires Shape(f) && d < |f.blocks| && i < |f.blocks[d].body|
    ensures Shape(WithGap(f, d, i)) && GraphOf(WithGap(f, d, i)) == GraphOf(f)
    ensures var body, was := WithGap(f, d, i).blocks[d].body, f.blocks[d].body;
            && |body| == |was| + 1 && body[i + 1] == |f.nodes|
            && forall k: nat :: k < |was| ==> body[if k > i then k + 1 else k] == was[k]
  {
    var g := WithGap(f, d, i);
    assert GraphOf(g) == GraphOf(f);
    assert WellFormed(GraphOf(g));
    assert forall b: Label :: b < |f.blocks| ==> |g.blocks[b].body| == |f.blocks[b].body| + (if b == d then 1 else 0);
    forall b: Label, k: nat, c: Label, j: nat
      | b < |g.blocks| && k < |g.blocks[b].body| && c < |g.blocks| && j < |g.blocks[c].body|
      ensures g.blocks[b].body[k] < |g.nodes| && (g.blocks[b].body[k] == g.blocks[c].body[j] ==> b == c && k == j)
    {
      GapAt(f, d, i, b, k);
      GapAt(f, d, i, c, j);
      GapOnce(f, d, i, b, k, c, j);
      hide WithGap, GapReg;
    }
  }

  lemma GapMoves(f: Function, d: Label, i: nat, b: Label, j: nat)
    requires d < |f.blocks| && i < |f.blocks[d].body| && b < |f.blocks| && j < |f.blocks[b].body|
    ensures var g := WithGap(f, d, i); var x := Shifted(d, i, b, j);
            |g.blocks| == |f.blocks| && x < |g.blocks[b].body| && g.blocks[b].body[x] == f.blocks[b].body[j]
  {
  }

  lemma GapDefined(f: Function, d: Label, i: nat, s: Reg, b: Label, k: nat)
    requires Shape(f) && d < |f.blocks| && i < |f.blocks[d].body| && DefinedBefore(f, s, b, k)
    ensures DefinedBefore(WithGap(f, d, i), s, b, Shifted(d, i, b, k))
  {
    var g := WithGap(f, d, i);
    GapShape(f, d, i);
    assert |g.blocks| == |f.blocks| && Shifted(d, i, b, k) <= |g.blocks[b].body|;
    hide WithGap, Shape, WellFormed;
    if s in f.blocks[b].body[..k] {
      var j :| 0 <= j < k && f.blocks[b].body[j] == s;
      GapMoves(f, d, i, b, j);
      assert g.blocks[b].body[..Shifted(d, i, b, k)][Shifted(d, i, b, j)] == s;
    } else {
      var e: Label :| e < |f.blocks| && Sdom(GraphOf(f), e, b) && s in f.blocks[e].body;
      var j :| 0 <= j < |f.blocks[e].body| && f.blocks[e].body[j] == s;
      GapMoves(f, d, i, e, j);
      assert s in g.blocks[e].body;
    }
  }

  lemma GapKeepsSsa(f: Function, d: Label, i: nat)
    requires Shape(f) && SsaForm(f) && d < |f.blocks| && i < |f.blocks[d].body|
    ensures Shape(WithGap(f, d, i)) && SsaForm(WithGap(f, d, i))
  {
    var g := WithGap(f, d, i);
    GapShape(f, d, i);
    forall b: Label | b < |g.blocks| && Reachable(GraphOf(g), b) ensures BlockDominated(g, b) {
      assert BlockDominated(f, b);
      forall k: nat | k < |g.blocks[b].body| ensures NodeDominated(g, b, k) {
        GapNode(f, d, i, b, k);
      }
      forall u | u in EndUses(g.blocks[b].end) ensures DefinedBefore(g, u, b, |g.blocks[b].body|) {
        GapDefined(f, d, i, u, b, |f.blocks[b].body|);
      }
    }
  }

  lemma GapNode(f: Function, d: Label, i: nat, b: Label, k: nat)
    requires Shape(f) && d < |f.blocks| && i < |f.blocks[d].body| && Shape(WithGap(f, d, i))
    requires b < |f.blocks| && k < |WithGap(f, d, i).blocks[b].body| && BlockDominated(f, b)
    ensures NodeDominated(WithGap(f, d, i), b, k)
  {
    var g := WithGap(f, d, i);
    GapShape(f, d, i);
    if !(b == d && k == i + 1) {
      var j := if b == d && k > i then k - 1 else k;
      GapAt(f, d, i, b, k);
      var n := f.nodes[f.blocks[b].body[j]];
      assert g.nodes[g.blocks[b].body[k]] == n && NodeDominated(f, b, j);
      assert forall c: Label :: c < |f.blocks| ==> Shifted(d, i, c, |f.blocks[c].body|) == |g.blocks[c].body|;
      hide WithGap, Shape, DefinedBefore, Reachable, Edge;
      if n.Phi? {
        forall x: nat | x < |n.inputs| && Edge(GraphOf(g), n.inputs[x].from, b) &&
          Reachable(GraphOf(g), n.inputs[x].from)
          ensures DefinedBefore(g, n.inputs[x].val, n.inputs[x].from, |g.blocks[n.inputs[x].from].body|)
        {
          GapDefined(f, d, i, n.inputs[x].val, n.inputs[x].from, |f.blocks[n.inputs[x].from].body|);
        }
      } else {
        forall u | u in Uses(n) ensures DefinedBefore(g, u, b, k) {
          GapDefined(f, d, i, u, b, j);
        }
      }
    }
  }

  // One more node of the old body is one or two of the new.
  lemma GapNext<V, W>(sem: Sem<V, W>, f: Function, d: Label, i: nat, b: Label, k: nat, st: State<V, W>)
    requires Shape(f) && d < |f.blocks| && i < |f.blocks[d].body| && Shape(WithGap(f, d, i))
    requires b < |f.blocks| && k < |f.blocks[b].body|
    ensures var g := WithGap(f, d, i); var body, q := g.blocks[b].body, f.blocks[b].body[k];
            && Shifted(d, i, b, k) <= |body| && Shifted(d, i, b, k + 1) <= |body| && q < |f.nodes|
            && ExecBody(sem, {}, g, body, Shifted(d, i, b, k + 1), st)
            == ExecNode(sem, {}, q, f.nodes[q], ExecBody(sem, {}, g, body, Shifted(d, i, b, k), st))
  {
    hide WellFormed, GraphOf, ExecNode;
    var g := WithGap(f, d, i);
    GapMoves(f, d, i, b, k);
    if b == d && k == i { GapEmpty(sem, f, d, i, st); }
  }

  lemma GapEmpty<V, W>(sem: Sem<V, W>, f: Function, d: Label, i: nat, st: State<V, W>)
    requires Shape(f) && d < |f.blocks| && i < |f.blocks[d].body| && Shape(WithGap(f, d, i))
    ensures var g := WithGap(f, d, i); var body := g.blocks[d].body;
            |body| > i + 1 && ExecBody(sem, {}, g, body, i + 2, st) == ExecBody(sem, {}, g, body, i + 1, st)
  {
    hide WellFormed, GraphOf;
    GapAt(f, d, i, d, i + 1);
  }

  lemma {:induction false} GapBody<V, W>(sem: Sem<V, W>, f: Function, d: Label, i: nat, b: Label, k: nat,
                                         st: State<V, W>)
    requires Shape(f) && d < |f.blocks| && i < |f.blocks[d].body| && Shape(WithGap(f, d, i))
    requires b < |f.blocks| && k <= |f.blocks[b].body|
    ensures Shifted(d, i, b, k) <= |WithGap(f, d, i).blocks[b].body|
    ensures ExecBody(sem, {}, WithGap(f, d, i), WithGap(f, d, i).blocks[b].body, Shifted(d, i, b, k), st)
         == ExecBody(sem, {}, f, f.blocks[b].body, k, st)
    decreases k
  {
    hide Shape, WithGap, ExecNode;
    GapLength(f, d, i, b);
    if k > 0 {
      GapBody(sem, f, d, i, b, k - 1, st);
      GapNext(sem, f, d, i, b, k - 1, st);
    }
  }

  lemma GapLength(f: Function, d: Label, i: nat, b: Label)
    requires Shape(f) && d < |f.blocks| && i < |f.blocks[d].body| && Shape(WithGap(f, d, i)) && b < |f.blocks|
    ensures var g := WithGap(f, d, i);
            |g.blocks| == |f.blocks| && |g.blocks[b].body| == |f.blocks[b].body| + (if b == d then 1 else 0)
    ensures forall j :: 0 <= j < |WithGap(f, d, i).blocks[b].body| ==>
              WithGap(f, d, i).blocks[b].body[j] < |WithGap(f, d, i).nodes|
    ensures forall j :: 0 <= j < |f.blocks[b].body| ==> f.blocks[b].body[j] < |f.nodes|
  {
    hide WellFormed;
  }

  lemma GapEnter<V, W>(sem: Sem<V, W>, f: Function, d: Label, i: nat, b: Label, from: Label, st: State<V, W>)
    requires Shape(f) && d < |f.blocks| && i < |f.blocks[d].body| && b < |f.blocks|
    ensures EnterBlock(sem, WithGap(f, d, i), WithGap(f, d, i).blocks[b].body, from, st) ==
              EnterBlock(sem, f, f.blocks[b].body, from, st)
  {
    var g := WithGap(f, d, i);
    GapShape(f, d, i);
    forall q: Reg
      ensures IsPhiAt(g, g.blocks[b].body, q) <==> IsPhiAt(f, f.blocks[b].body, q)
    {
      GapHolds(f, d, i, b, q);
    }
    assert PhiMoves(sem, g, g.blocks[b].body, from, st) == PhiMoves(sem, f, f.blocks[b].body, from, st);
  }

  lemma GapHolds(f: Function, d: Label, i: nat, b: Label, q: Reg)
    requires Shape(f) && d < |f.blocks| && i < |f.blocks[d].body| && b < |f.blocks|
    ensures q in WithGap(f, d, i).blocks[b].body <==> q in f.blocks[b].body || (b == d && q == |f.nodes|)
  {
    var body := f.blocks[d].body;
    assert body == body[..i + 1] + body[i + 1..];
  }

  lemma GapStep<V, W>(sem: Sem<V, W>, f: Function, d: Label, i: nat, c: Config<V, W>)
    requires Shape(f) && d < |f.blocks| && i < |f.blocks[d].body| && Shape(WithGap(f, d, i))
    ensures Step(sem, {}, WithGap(f, d, i), c) == Step(sem, {}, f, c)
  {
    if c.At? && c.block < |f.blocks| {
      var b := c.block;
      var body := f.blocks[b].body;
      GapEnter(sem, f, d, i, b, c.from, c.st);
      var st := EnterBlock(sem, f, body, c.from, c.st);
      GapBody(sem, f, d, i, b, |body|, st);
      assert WithGap(f, d, i).blocks[b].end == f.blocks[b].end;
      assert Shifted(d, i, b, |body|) == |WithGap(f, d, i).blocks[b].body|;
      hide Shape, ExecBody, EnterBlock, WithGap, Leave;
    }
  }

  // An empty node changes no run.
  lemma {:induction false} GapPreservesRuns<V, W>(sem: Sem<V, W>, f: Function, d: Label, i: nat, w: W, n: nat)
    requires Shape(f) && d < |f.blocks| && i < |f.blocks[d].body|
    ensures Shape(WithGap(f, d, i)) && Run(sem, {}, WithGap(f, d, i), w, n) == Run(sem, {}, f, w, n)
    decreases n
  {
    hide Shape, Step, WithGap;
    GapShape(f, d, i);
    if n > 0 {
      GapPreservesRuns(sem, f, d, i, w, n - 1);
      GapStep(sem, f, d, i, Run(sem, {}, f, w, n - 1));
    }
  }

  // The gap filled with n.
  function Filled(f: Function, d: Label, i: nat, n: Node): Function
    requires d < |f.blocks| && i < |f.blocks[d].body|
  {
    f.(nodes := f.nodes + [n], blocks := WithGap(f, d, i).blocks)
  }

  // Nothing reads a register that is not there yet.
  lemma FreshUnread(f: Function, s: Reg, b: Label, k: nat)
    requires Shape(f) && DefinedBefore(f, s, b, k)
    ensures s < |f.nodes|
  {
  }

  lemma GapUnused(f: Function, d: Label, i: nat)
    requires Shape(f) && SsaForm(f) && d < |f.blocks| && i < |f.blocks[d].body|
    ensures Shape(WithGap(f, d, i)) && Unused(WithGap(f, d, i), |f.nodes|)
  {
    var g, q := WithGap(f, d, i), |f.nodes|;
    GapShape(f, d, i);
    forall b: Label | b < |g.blocks| && Reachable(GraphOf(g), b)
      ensures (forall k: nat :: k < |g.blocks[b].body| ==> NodeSkips(g, b, k, q)) && q !in EndUses(g.blocks[b].end)
    {
      assert BlockDominated(f, b);
      if q in EndUses(g.blocks[b].end) { FreshUnread(f, q, b, |f.blocks[b].body|); }
      forall k: nat | k < |g.blocks[b].body| ensures NodeSkips(g, b, k, q) {
        GapSkips(f, d, i, b, k);
      }
    }
  }

  lemma GapSkips(f: Function, d: Label, i: nat, b: Label, k: nat)
    requires Shape(f) && d < |f.blocks| && i < |f.blocks[d].body| && Shape(WithGap(f, d, i))
    requires b < |f.blocks| && k < |WithGap(f, d, i).blocks[b].body| && BlockDominated(f, b)
    ensures NodeSkips(WithGap(f, d, i), b, k, |f.nodes|)
  {
    var g, q := WithGap(f, d, i), |f.nodes|;
    GapShape(f, d, i);
    GapAt(f, d, i, b, k);
    if !(b == d && k == i + 1) {
      var j := if b == d && k > i then k - 1 else k;
      assert NodeDominated(f, b, j);
      var n := f.nodes[f.blocks[b].body[j]];
      if n.Phi? {
        forall x | 0 <= x < |n.inputs| && Edge(GraphOf(g), n.inputs[x].from, b) &&
          Reachable(GraphOf(g), n.inputs[x].from)
          ensures n.inputs[x].val != q
        {
          FreshUnread(f, n.inputs[x].val, n.inputs[x].from, |f.blocks[n.inputs[x].from].body|);
        }
      } else {
        forall u | u in Uses(n) ensures u != q { FreshUnread(f, u, b, j); }
      }
    }
  }

  lemma FilledKeepsSsa(f: Function, d: Label, i: nat, n: Node)
    requires Shape(f) && SsaForm(f) && d < |f.blocks| && i < |f.blocks[d].body| && n.Pure?
    requires Reachable(GraphOf(f), d) ==> forall u :: u in Uses(n) ==> DefinedBefore(f, u, d, i + 1)
    ensures Shape(Filled(f, d, i, n)) && SsaForm(Filled(f, d, i, n))
  {
    var g, h := WithGap(f, d, i), Filled(f, d, i, n);
    GapKeepsSsa(f, d, i);
    GapShape(f, d, i);
    assert Redefined(g, h, |f.nodes|, n);
    RedefinedShape(g, h, |f.nodes|, n);
    SkeletonShape(g, h);
    forall u | u in Uses(n) && Reachable(GraphOf(g), d) ensures DefinedBefore(g, u, d, i + 1) {
      GapDefined(f, d, i, u, d, i + 1);
      FreshUnread(f, u, d, i + 1);
      StillBefore(g, u, d, i + 1);
    }
    hide DefinedBefore, WithGap, Filled;
    forall b: Label | b < |h.blocks| && Reachable(GraphOf(h), b) ensures BlockDominated(h, b) {
      assert BlockDominated(g, b);
      forall k: nat | k < |h.blocks[b].body| ensures NodeDominated(h, b, k) {
        assert NodeDominated(g, b, k);
        if h.blocks[b].body[k] == |f.nodes| { assert b == d && k == i + 1; }
      }
    }
  }

  lemma FilledUnused(f: Function, d: Label, i: nat, n: Node)
    requires Shape(f) && SsaForm(f) && d < |f.blocks| && i < |f.blocks[d].body| && n.Pure?
    requires Reachable(GraphOf(f), d) ==> forall u :: u in Uses(n) ==> DefinedBefore(f, u, d, i + 1)
    ensures Shape(Filled(f, d, i, n)) && Unused(Filled(f, d, i, n), |f.nodes|)
  {
    var g, h, q := WithGap(f, d, i), Filled(f, d, i, n), |f.nodes|;
    GapUnused(f, d, i);
    RedefinedShape(g, h, q, n);
    if q in Uses(n) && Reachable(GraphOf(f), d) { FreshUnread(f, q, d, i + 1); }
    GapShape(f, d, i);
    hide WithGap, Shape, Reachable;
    forall b: Label, k: nat | b < |h.blocks| && Reachable(GraphOf(h), b) && k < |h.blocks[b].body|
      ensures NodeSkips(h, b, k, q)
    {
      assert NodeSkips(g, b, k, q);
    }
  }

  // A new node changes no run but for its own register.
  lemma FilledPreservesRuns<V(!new), W(!new)>(sem: Sem<V, W>, f: Function, d: Label, i: nat, n: Node, w: W, x: nat)
    requires Shape(f) && SsaForm(f) && d < |f.blocks| && i < |f.blocks[d].body| && n.Pure? && |f.nodes| > 0
    requires Reachable(GraphOf(f), d) ==> forall u :: u in Uses(n) ==> DefinedBefore(f, u, d, i + 1)
    ensures Shape(Filled(f, d, i, n)) && SsaForm(Filled(f, d, i, n))
    ensures SameBut(sem, {|f.nodes|}, Run(sem, {}, f, w, x), Run(sem, {}, Filled(f, d, i, n), w, x))
  {
    var g, h, q := WithGap(f, d, i), Filled(f, d, i, n), |f.nodes|;
    FilledKeepsSsa(f, d, i, n);
    FilledUnused(f, d, i, n);
    assert Killed(h, g, q);
    assert h.nodes[q] == n;
    hide Shape, SsaForm, Unused, WithGap, Filled, Killed;
    RemovalPreservesRuns(sem, h, g, q, w, x);
    GapPreservesRuns(sem, f, d, i, w, x);
  }

  // ----- Where things are once the gap is filled -----

  lemma FilledAt(f: Function, d: Label, i: nat, n: Node, b: Label, k: nat)
    requires Shape(f) && d < |f.blocks| && i < |f.blocks[d].body| && b < |f.blocks| && k < |f.blocks[b].body|
    ensures var h, x := Filled(f, d, i, n), Shifted(d, i, b, k);
            && GraphOf(h) == GraphOf(f) && |h.blocks| == |f.blocks| && x < |h.blocks[b].body| &&
              h.blocks[b].body[x] == f.blocks[b].body[k]
    ensures |Filled(f, d, i, n).nodes| == |f.nodes| + 1 && Filled(f, d, i, n).nodes[|f.nodes|] == n
    ensures forall q: Reg :: q < |f.nodes| ==> Filled(f, d, i, n).nodes[q] == f.nodes[q]
  {
    GapMoves(f, d, i, b, k);
    GapShape(f, d, i);
    assert GraphOf(Filled(f, d, i, n)) == GraphOf(f);
  }

  lemma FilledDefined(f: Function, d: Label, i: nat, n: Node, s: Reg, b: Label, k: nat)
    requires Shape(f) && d < |f.blocks| && i < |f.blocks[d].body| && DefinedBefore(f, s, b, k)
    ensures DefinedBefore(Filled(f, d, i, n), s, b, Shifted(d, i, b, k))
  {
    GapDefined(f, d, i, s, b, k);
    assert GraphOf(Filled(f, d, i, n)) == GraphOf(WithGap(f, d, i));
    hide Shape, WithGap;
  }

  // What stands behind a register is defined wherever the register is.
  lemma FilledBehind(f: Function, d: Label, i: nat, n: Node, b: Label, k: nat)
    requires Shape(f) && d < |f.blocks| && i < |f.blocks[d].body| && b < |f.blocks| && k < |f.blocks[b].body|
    requires Reachable(GraphOf(f), b) && DefinedBefore(f, f.blocks[d].body[i], b, k)
    ensures DefinedBefore(Filled(f, d, i, n), |f.nodes|, b, Shifted(d, i, b, k))
  {
    var h := Filled(f, d, i, n);
    var e, j := PlaceOf(f, f.blocks[d].body[i], b, k);
    assert e == d && j == i;
    FilledAt(f, d, i, n, b, k);
    GapShape(f, d, i);
    assert h.blocks[d].body[i + 1] == |f.nodes|;
    hide Shape, WithGap, Filled;
    if d == b && i < k {
      assert h.blocks[b].body[..k + 1][i + 1] == |f.nodes|;
    } else {
      assert Sdom(GraphOf(h), d, b) && |f.nodes| in h.blocks[d].body;
    }
  }
}
