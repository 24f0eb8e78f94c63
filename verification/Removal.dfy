// Removing a node that nothing reads (src/tb/tb_internal.h:622-628) changes nothing but its own
// register.

module Removal {
  import opened Cfg
  import opened Ir
  import opened Ssa
  import opened Equations
  import opened Replacing

  // No node or terminator that can run reads r.
  ghost predicate Unused(f: Function, r: Reg)
    requires Shape(f)
  {
    forall b: Label :: b < |f.blocks| && Reachable(GraphOf(f), b) ==>
      (forall k: nat :: k < |f.blocks[b].body| ==> NodeSkips(f, b, k, r)) && r !in EndUses(f.blocks[b].end)
  }

  ghost predicate NodeSkips(f: Function, b: Label, k: nat, r: Reg)
    requires Shape(f) && b < |f.blocks| && k < |f.blocks[b].body|
  {
    var n := f.nodes[f.blocks[b].body[k]];
    if n.Phi? then
      forall i ::
        0 <= i < |n.inputs| && Edge(GraphOf(f), n.inputs[i].from, b) && Reachable(GraphOf(f), n.inputs[i].from) ==>
          n.inputs[i].val != r
    else r !in Uses(n)
  }

  // A node whose only effect is its register; a load is one if loads leave the world alone.
  ghost predicate Removable<V(!new), W(!new)>(sem: Sem<V, W>, r: Reg, n: Node)
  {
    n.Pure? || n.Pass? || n.Local? || (n.Load? && QuietLoad(sem, r))
  }

  ghost predicate QuietLoad<V(!new), W(!new)>(sem: Sem<V, W>, r: Reg)
  {
    forall a: V, w: W :: sem.load(r, a, w).1 == w
  }

  // The same but for the registers in `gone`.
  ghost predicate Apart<V, W>(sem: Sem<V, W>, gone: set<Reg>, st: State<V, W>, tt: State<V, W>)
  {
    st.world == tt.world && st.slots == tt.slots && forall q: Reg :: q !in gone ==> Val(sem, st, q) == Val(sem, tt, q)
  }

  ghost predicate SameBut<V, W>(sem: Sem<V, W>, gone: set<Reg>, c: Config<V, W>, d: Config<V, W>)
  {
    && Apart(sem, gone, c.st, d.st)
    && (c.At? <==> d.At?)
    && (c.At? ==> c.block == d.block && c.from == d.from)
    && (c.Halted? ==> c.outcome == d.outcome)
  }

  lemma ApartVals<V, W>(sem: Sem<V, W>, gone: set<Reg>, n: Node, args: seq<Reg>, st: State<V, W>, tt: State<V, W>)
    requires Apart(sem, gone, st, tt) && Uses(n) == args && forall u :: u in Uses(n) ==> u !in gone
    ensures Vals(sem, st, args) == Vals(sem, tt, args)
  {
    SameVals(sem, args, st, tt);
  }

  lemma ApartNode<V, W>(sem: Sem<V, W>, gone: set<Reg>, q: Reg, n: Node, st: State<V, W>, tt: State<V, W>)
    requires Apart(sem, gone, st, tt) && forall u :: u in Uses(n) ==> u !in gone
    ensures Apart(sem, gone, ExecNode(sem, {}, q, n, st), ExecNode(sem, {}, q, n, tt))
  {
    match n {
      case Pure(_, args) => ApartVals(sem, gone, n, args, st, tt);
      case Effect(_, args) => ApartVals(sem, gone, n, args, st, tt);
      case Pass(s) => assert s in Uses(n);
      case ParamAddr(p) => ApartMemory(sem, gone, q, n, st, tt);
      case Load(a) => ApartMemory(sem, gone, q, n, st, tt);
      case Store(a, v) => ApartMemory(sem, gone, q, n, st, tt);
      case Clear(a, x, z) => ApartMemory(sem, gone, q, n, st, tt);
      case _ =>
    }
  }

  lemma ApartMemory<V, W>(sem: Sem<V, W>, gone: set<Reg>, q: Reg, n: Node, st: State<V, W>, tt: State<V, W>)
    requires Apart(sem, gone, st, tt) && (forall u :: u in Uses(n) ==> u !in gone)
    requires (n.ParamAddr? || n.Load? || n.Store? || n.Clear?)
    ensures Apart(sem, gone, ExecNode(sem, {}, q, n, st), ExecNode(sem, {}, q, n, tt))
  {
    match n {
      case Store(a, v) => assert a in Uses(n) && v in Uses(n);
      case Clear(a, x, z) => assert a in Uses(n) && x in Uses(n) && z in Uses(n);
      case Load(a) => assert a in Uses(n);
      case ParamAddr(p) => assert p in Uses(n);
    }
  }

  lemma ApartRemoved<V(!new), W(!new)>(sem: Sem<V, W>, r: Reg, n: Node, st: State<V, W>, tt: State<V, W>)
    requires Apart(sem, {r}, st, tt) && Removable(sem, r, n)
    ensures Apart(sem, {r}, ExecNode(sem, {}, r, n, st), tt)
  {
  }

  lemma {:induction false} ApartBody<V(!new), W(!new)>(sem: Sem<V, W>, f: Function, h: Function, r: Reg, b: Label,
                                                       k: nat,
                                           st: State<V, W>, tt: State<V, W>)
    requires Shape(f) && Killed(f, h, r) && Removable(sem, r, f.nodes[r]) && Unused(f, r)
    requires b < |f.blocks| && k <= |f.blocks[b].body| && Reachable(GraphOf(f), b) && Apart(sem, {r}, st, tt)
    ensures Apart(sem, {r}, ExecBody(sem, {}, f, f.blocks[b].body, k, st),
              ExecBody(sem, {}, h, f.blocks[b].body, k, tt))
  {
    if k > 0 {
      ApartBody(sem, f, h, r, b, k - 1, st, tt);
      var q := f.blocks[b].body[k - 1];
      var s1 := ExecBody(sem, {}, f, f.blocks[b].body, k - 1, st);
      var t1 := ExecBody(sem, {}, h, f.blocks[b].body, k - 1, tt);
      assert NodeSkips(f, b, k - 1, r);
      hide Shape, Unused, Apart, Removable, NodeSkips, Reachable;
      if q == r {
        ApartRemoved(sem, r, f.nodes[r], s1, t1);
      } else if !f.nodes[q].Phi? {
        SkipsUses(f, b, k - 1, r);
        ApartNode(sem, {r}, q, f.nodes[q], s1, t1);
      }
    }
  }

  lemma SkipsUses(f: Function, b: Label, k: nat, r: Reg)
    requires Shape(f) && b < |f.blocks| && k < |f.blocks[b].body| && NodeSkips(f, b, k, r)
    requires !f.nodes[f.blocks[b].body[k]].Phi?
    ensures forall u :: u in Uses(f.nodes[f.blocks[b].body[k]]) ==> u !in {r}
  {
  }

  lemma {:induction false} ApartPhi<V, W>(sem: Sem<V, W>, gone: set<Reg>, q: Reg, ins: seq<PhiInput>, from: Label,
                                          st: State<V, W>, tt: State<V, W>)
    requires Val(sem, st, q) == Val(sem, tt, q)
    requires forall i :: 0 <= i < |ins| && ins[i].from == from ==> Val(sem, st, ins[i].val) == Val(sem, tt, ins[i].val)
    ensures PhiVal(sem, q, ins, from, st) == PhiVal(sem, q, ins, from, tt)
  {
    if ins != [] { ApartPhi(sem, gone, q, ins[..|ins| - 1], from, st, tt); }
  }

  // How a run comes to a block.
  ghost predicate Comes<V, W>(f: Function, c: Config<V, W>)
    requires Shape(f) && c.At?
  {
    && c.block < |f.blocks| && Reachable(GraphOf(f), c.block)
    && if c.from < |f.blocks| then Edge(GraphOf(f), c.from, c.block) && Reachable(GraphOf(f), c.from)
       else c.st.regs == map[]
  }

  lemma {:induction false} RunComes<V, W>(sem: Sem<V, W>, f: Function, w: W, n: nat)
    requires Shape(f)
    ensures var c := Run(sem, {}, f, w, n); c.At? ==> Comes(f, c)
  {
    hide Step, Reachable, Edge;
    if n == 0 {
      EntryReachable(GraphOf(f));
    } else {
      RunComes(sem, f, w, n - 1);
      var c := Run(sem, {}, f, w, n - 1);
      if c.At? { StepComes(sem, f, c); }
      StepHalted(sem, {}, f, c);
    }
  }

  lemma StepComes<V, W>(sem: Sem<V, W>, f: Function, c: Config<V, W>)
    requires Shape(f) && c.At? && Comes(f, c)
    ensures var d := Step(sem, {}, f, c); d.At? ==> Comes(f, d)
  {
    var b := c.block;
    hide EnterBlock, ExecBody;
    var st2 :=
      ExecBody(sem, {}, f, f.blocks[b].body, |f.blocks[b].body|, EnterBlock(sem, f, f.blocks[b].body, c.from, c.st));
    if Leave(sem, f.blocks[b].end, st2).Next? {
      LeaveFollowsEdge(sem, f, b, st2);
      StepReachable(GraphOf(f), b, Leave(sem, f.blocks[b].end, st2).target);
    }
  }

  lemma ApartPhiAt<V, W>(sem: Sem<V, W>, f: Function, r: Reg, c: Config<V, W>, d: Config<V, W>, q: Reg)
    requires Shape(f) && Unused(f, r) && c.At? && d.At? && Comes(f, c) && SameBut(sem, {r}, c, d)
    requires c.from >= |f.blocks| ==> d.st.regs == map[]
    requires IsPhiAt(f, f.blocks[c.block].body, q) && q != r
    ensures PhiVal(sem, q, f.nodes[q].inputs, c.from, c.st) == PhiVal(sem, q, f.nodes[q].inputs, c.from, d.st)
  {
    var b, ins := c.block, f.nodes[q].inputs;
    var k :| 0 <= k < |f.blocks[b].body| && f.blocks[b].body[k] == q;
    assert NodeSkips(f, b, k, r);
    hide Shape, Unused, Reachable, Edge;
    ApartPhi(sem, {r}, q, ins, c.from, c.st, d.st);
  }

  lemma ApartEnter<V, W>(sem: Sem<V, W>, f: Function, h: Function, r: Reg, c: Config<V, W>, d: Config<V, W>)
    requires Shape(f) && Killed(f, h, r) && !f.nodes[r].Phi? && Unused(f, r)
    requires c.At? && d.At? && Comes(f, c) && SameBut(sem, {r}, c, d) && (c.from >= |f.blocks| ==> d.st.regs == map[])
    ensures Apart(sem, {r}, EnterBlock(sem, f, f.blocks[c.block].body, c.from, c.st),
                  EnterBlock(sem, h, f.blocks[c.block].body, c.from, d.st))
  {
    var body := f.blocks[c.block].body;
    forall q: Reg | q in body
      ensures IsPhiAt(h, body, q) <==> IsPhiAt(f, body, q)
      ensures IsPhiAt(f, body, q) ==> q != r && h.nodes[q] == f.nodes[q]
      ensures IsPhiAt(f, body, q) ==>
                PhiVal(sem, q, f.nodes[q].inputs, c.from, c.st) == PhiVal(sem, q, f.nodes[q].inputs, c.from, d.st)
    {
      if IsPhiAt(f, body, q) { ApartPhiAt(sem, f, r, c, d, q); }
    }
    hide Shape, Unused, Comes;
    assert PhiMoves(sem, f, body, c.from, c.st) == PhiMoves(sem, h, body, c.from, d.st);
    ApartMoves(sem, {r}, PhiMoves(sem, f, body, c.from, c.st), c.st, d.st);
  }

  lemma ApartMoves<V, W>(sem: Sem<V, W>, gone: set<Reg>, moves: map<Reg, V>, st: State<V, W>, tt: State<V, W>)
    requires Apart(sem, gone, st, tt)
    ensures Apart(sem, gone, st.(regs := st.regs + moves), tt.(regs := tt.regs + moves))
  {
  }

  lemma ApartLeave<V, W>(sem: Sem<V, W>, r: Reg, t: Terminator, st: State<V, W>, tt: State<V, W>)
    requires r != 0 && Apart(sem, {r}, st, tt) && r !in EndUses(t)
    ensures Leave(sem, t, st) == Leave(sem, t, tt)
  {
    match t {
      case Return(v) => assert v != 0 ==> v in EndUses(t);
      case If(c, _, _) => assert c in EndUses(t);
      case Switch(k, _, _) => assert k in EndUses(t);
      case _ =>
    }
  }

  lemma ApartStep<V(!new), W(!new)>(sem: Sem<V, W>, f: Function, h: Function, r: Reg, c: Config<V, W>, d: Config<V, W>)
    requires Shape(f) && Shape(h) && Killed(f, h, r) && r != 0 && Removable(sem, r, f.nodes[r]) && Unused(f, r)
    requires c.At? && d.At? && Comes(f, c) && SameBut(sem, {r}, c, d) && (c.from >= |f.blocks| ==> d.st.regs == map[])
    ensures SameBut(sem, {r}, Step(sem, {}, f, c), Step(sem, {}, h, d))
  {
    var b := c.block;
    var body := f.blocks[b].body;
    var s1, t1 := EnterBlock(sem, f, body, c.from, c.st), EnterBlock(sem, h, body, c.from, d.st);
    ApartEnter(sem, f, h, r, c, d);
    ApartBody(sem, f, h, r, b, |body|, s1, t1);
    ApartLeave(sem, r, f.blocks[b].end, ExecBody(sem, {}, f, body, |body|, s1), ExecBody(sem, {}, h, body, |body|, t1));
    hide Apart, EnterBlock, ExecBody, Unused, Leave, Shape;
  }

  ghost predicate Removes<V(!new), W(!new)>(sem: Sem<V, W>, f: Function, h: Function, r: Reg)
  {
    Shape(f) && Shape(h) && Killed(f, h, r) && r != 0 && Removable(sem, r, f.nodes[r]) && Unused(f, r)
  }

  lemma ApartStepOrStop<V(!new), W(!new)>(sem: Sem<V, W>, f: Function, h: Function, r: Reg, c: Config<V, W>,
                                          d: Config<V, W>)
    requires Shape(f) && Shape(h) && Removes(sem, f, h, r)
    requires SameBut(sem, {r}, c, d) && (c.At? ==> Comes(f, c)) && (d.At? ==> Comes(h, d))
    ensures SameBut(sem, {r}, Step(sem, {}, f, c), Step(sem, {}, h, d))
  {
    if c.At? {
      ApartStep(sem, f, h, r, c, d);
    }
  }

  lemma {:induction false} RemovalRuns<V(!new), W(!new)>(sem: Sem<V, W>, f: Function, h: Function, r: Reg, w: W, n: nat)
    requires Shape(f) && Shape(h) && Removes(sem, f, h, r)
    ensures SameBut(sem, {r}, Run(sem, {}, f, w, n), Run(sem, {}, h, w, n))
    decreases n
  {
    hide Removes, Shape, Step, Comes, SameBut;
    if n == 0 {
      StartSame(sem, f, h, r, w);
    } else {
      RemovalRuns(sem, f, h, r, w, n - 1);
      RunComes(sem, f, w, n - 1);
      RunComes(sem, h, w, n - 1);
      ApartStepOrStop(sem, f, h, r, Run(sem, {}, f, w, n - 1), Run(sem, {}, h, w, n - 1));
    }
  }

  lemma StartSame<V(!new), W(!new)>(sem: Sem<V, W>, f: Function, h: Function, r: Reg, w: W)
    requires Shape(f) && Shape(h) && Removes(sem, f, h, r)
    ensures SameBut(sem, {r}, Run(sem, {}, f, w, 0), Run(sem, {}, h, w, 0))
  {
  }

  // The theorem: without an unread node a function runs as before, all other registers included.
  lemma RemovalPreservesRuns<V(!new), W(!new)>(sem: Sem<V, W>, f: Function, h: Function, r: Reg, w: W, n: nat)
    requires Shape(f) && Killed(f, h, r) && r != 0 && Removable(sem, r, f.nodes[r]) && Unused(f, r)
    ensures Shape(h) && SameBut(sem, {r}, Run(sem, {}, f, w, n), Run(sem, {}, h, w, n))
  {
    KillShape(f, h, r);
    RemovalRuns(sem, f, h, r, w, n);
  }

  lemma KillShape(f: Function, h: Function, r: Reg)
    requires Shape(f) && Killed(f, h, r)
    ensures Shape(h) && SameSkeleton(f, h) && GraphOf(h) == GraphOf(f)
  {
    assert GraphOf(h) == GraphOf(f);
  }

  lemma KillKeepsSsa(f: Function, h: Function, r: Reg)
    requires Shape(f) && SsaForm(f) && Killed(f, h, r)
    ensures Shape(h) && SsaForm(h)
  {
    KillShape(f, h, r);
    SkeletonShape(f, h);
    forall b: Label | b < |h.blocks| && Reachable(GraphOf(h), b) ensures BlockDominated(h, b) {
      assert BlockDominated(f, b);
      forall k: nat | k < |h.blocks[b].body| ensures NodeDominated(h, b, k) {
        assert NodeDominated(f, b, k);
      }
    }
  }

  // ----- A register that has been replaced is unread -----

  lemma ReplacedUnused(f: Function, h: Function, r: Reg, s: Reg)
    requires Shape(f) && SsaForm(f) && Stands(f, r, s) && Swapped(f, h, r, s) && Shape(h)
    requires r != s || !InReach(f, r)
    ensures Unused(h, r)
  {
    SwapSkeleton(f, h, r, s);
    if r == s {
      SwapKeepsSsa(f, h, r, s);
      NeverBefore(f, h, r);
      UndefinedUnused(h, r);
    } else {
      hide Shape, SsaForm, Reachable, NodeSkips;
      forall b: Label | b < |h.blocks|
        ensures (forall k: nat :: k < |h.blocks[b].body| ==> NodeSkips(h, b, k, r)) && r !in EndUses(h.blocks[b].end)
      {
        SwapEndUses(f.blocks[b].end, r, s);
        forall k: nat | k < |h.blocks[b].body| ensures NodeSkips(h, b, k, r) {
          SwappedSkips(f, h, r, s, b, k);
        }
      }
    }
  }

  lemma UndefinedUnused(h: Function, r: Reg)
    requires Shape(h) && SsaForm(h)
    requires forall b: Label, k: nat :: Reachable(GraphOf(h), b) ==> !DefinedBefore(h, r, b, k)
    ensures Unused(h, r)
  {
    hide DefinedBefore, Reachable;
    forall b: Label | b < |h.blocks| && Reachable(GraphOf(h), b)
      ensures (forall k: nat :: k < |h.blocks[b].body| ==> NodeSkips(h, b, k, r)) && r !in EndUses(h.blocks[b].end)
    {
      assert BlockDominated(h, b);
      forall k: nat | k < |h.blocks[b].body| ensures NodeSkips(h, b, k, r) {
        assert NodeDominated(h, b, k);
        assert !DefinedBefore(h, r, b, k);
      }
      assert !DefinedBefore(h, r, b, |h.blocks[b].body|);
    }
  }

  lemma SwappedSkips(f: Function, h: Function, r: Reg, s: Reg, b: Label, k: nat)
    requires Shape(f) && Shape(h) && Swapped(f, h, r, s) && r != s && b < |h.blocks| && k < |h.blocks[b].body|
    ensures NodeSkips(h, b, k, r)
  {
    var q := f.blocks[b].body[k];
    assert Listed(f, q);
    SwapSkips(f.nodes[q], r, s);
    var n := h.nodes[q];
    if n.Phi? {
      forall i | 0 <= i < |n.inputs| ensures n.inputs[i].val != r {
        assert Uses(n)[i] == n.inputs[i].val;
      }
    }
  }

  lemma SwapSkips(n: Node, r: Reg, s: Reg)
    requires r != s
    ensures r !in Uses(SwapNode(n, r, s))
  {
    if n.Phi? {
      assert Uses(SwapNode(n, r, s)) == SwapAll(Uses(n), r, s);
    } else {
      SwapUses(n, r, s);
    }
  }

  // The definition of an unreachable register reaches nothing that runs.
  lemma NeverBefore(f: Function, h: Function, r: Reg)
    requires Shape(f) && Shape(h) && SameSkeleton(f, h) && !InReach(f, r)
    ensures forall b: Label, k: nat :: Reachable(GraphOf(h), b) ==> !DefinedBefore(h, r, b, k)
  {
    SkeletonShape(f, h);
    forall b: Label, k: nat | Reachable(GraphOf(h), b) ensures !DefinedBefore(h, r, b, k) {
      if DefinedBefore(h, r, b, k) {
        var d, i := PlaceOf(h, r, b, k);
      }
    }
  }

  // ----- An empty node at the start of a block -----

  // find-and-replace moves the start of a block past the node that gives way; that node is then
  // made empty. h is f without it in the list of its block.
  ghost predicate Dropped(f: Function, h: Function, b: Label)
  {
    && b < |f.blocks| && f.blocks[b].body != [] && f.blocks[b].body[0] < |f.nodes|
    && f.nodes[f.blocks[b].body[0]] == Null
    && h == f.(blocks := f.blocks[b := f.blocks[b].(body := f.blocks[b].body[1..])])
  }

  lemma DroppedShape(f: Function, h: Function, b: Label)
    requires Shape(f) && Dropped(f, h, b)
    ensures Shape(h) && GraphOf(h) == GraphOf(f)
  {
    assert GraphOf(h) == GraphOf(f);
    hide WellFormed, GraphOf;
    forall c, k | 0 <= c < |h.blocks| && 0 <= k < |h.blocks[c].body|
      ensures h.blocks[c].body[k] == f.blocks[c].body[if c == b then k + 1 else k]
    {
    }
  }

  lemma {:induction false} DroppedBody<V, W>(sem: Sem<V, W>, f: Function, h: Function, b: Label, k: nat,
                                             st: State<V, W>)
    requires Shape(f) && Shape(h) && Dropped(f, h, b) && k <= |h.blocks[b].body|
    ensures ExecBody(sem, {}, h, h.blocks[b].body, k, st) == ExecBody(sem, {}, f, f.blocks[b].body, k + 1, st)
  {
    if k > 0 { DroppedBody(sem, f, h, b, k - 1, st); }
  }

  lemma DroppedEnter<V, W>(sem: Sem<V, W>, f: Function, h: Function, b: Label, c: Label, from: Label, st: State<V, W>)
    requires Dropped(f, h, b) && c < |f.blocks|
    ensures EnterBlock(sem, h, h.blocks[c].body, from, st) == EnterBlock(sem, f, f.blocks[c].body, from, st)
  {
    var body, body1 := f.blocks[c].body, h.blocks[c].body;
    if c == b { assert body == [body[0]] + body1; }
    forall q: Reg ensures IsPhiAt(h, body1, q) <==> IsPhiAt(f, body, q) {
    }
    assert PhiMoves(sem, h, body1, from, st) == PhiMoves(sem, f, body, from, st);
  }

  lemma DroppedStep<V, W>(sem: Sem<V, W>, f: Function, h: Function, b: Label, c: Config<V, W>)
    requires Shape(f) && Shape(h) && Dropped(f, h, b)
    ensures Step(sem, {}, h, c) == Step(sem, {}, f, c)
  {
    hide EnterBlock, ExecBody, Leave, WellFormed;
    if c.At? && c.block < |f.blocks| {
      var body := f.blocks[c.block].body;
      DroppedEnter(sem, f, h, b, c.block, c.from, c.st);
      var st := EnterBlock(sem, f, body, c.from, c.st);
      if c.block == b {
        DroppedBody(sem, f, h, b, |body| - 1, st);
      } else {
        SameBody(sem, f, h, body, |body|, st);
      }
    }
  }

  // Leaving it out changes no run.
  lemma {:induction false} DroppingPreservesRuns<V, W>(sem: Sem<V, W>, f: Function, h: Function, b: Label, w: W, n: nat)
    requires Shape(f) && Dropped(f, h, b)
    ensures Shape(h) && Run(sem, {}, h, w, n) == Run(sem, {}, f, w, n)
  {
    hide Shape, Dropped, Step;
    DroppedShape(f, h, b);
    if n > 0 {
      DroppingPreservesRuns(sem, f, h, b, w, n - 1);
      DroppedStep(sem, f, h, b, Run(sem, {}, f, w, n - 1));
    } else {
      DroppedSize(f, h, b);
    }
  }

  lemma DroppedSize(f: Function, h: Function, b: Label)
    requires Dropped(f, h, b)
    ensures |h.blocks| == |f.blocks|
  {
  }
}
