// What SSA form is for: a pure node keeps the value of its operation for as long as its
// definition dominates, on every run.

module Equations {
  import opened Cfg
  import opened Ir
  import opened Ssa

  // ----- Definitions and uses -----

  // Where a node is defined, so is all it reads.
  lemma UseBefore(f: Function, s: Reg, b: Label, k: nat, u: Reg)
    requires Shape(f) && SsaForm(f) && b < |f.blocks| && k <= |f.blocks[b].body| && Reachable(GraphOf(f), b)
    requires s < |f.nodes| && !f.nodes[s].Phi? && DefinedBefore(f, s, b, k) && u in Uses(f.nodes[s])
    ensures DefinedBefore(f, u, b, k)
  {
    var d, i := PlaceOf(f, s, b, k);
    assert BlockDominated(f, d) && NodeDominated(f, d, i);
    Carried(f, u, d, i, b, k);
  }

  // Position i of block d comes before position k of block b on every way there.
  ghost predicate Precedes(f: Function, d: Label, i: nat, b: Label, k: nat)
  {
    && d < |f.blocks| && i < |f.blocks[d].body| && b < |f.blocks| && k <= |f.blocks[b].body|
    && ((d == b && i < k) || Sdom(GraphOf(f), d, b))
  }

  lemma PlaceOf(f: Function, s: Reg, b: Label, k: nat) returns (d: Label, i: nat)
    requires Shape(f) && DefinedBefore(f, s, b, k) && Reachable(GraphOf(f), b)
    ensures Precedes(f, d, i, b, k) && f.blocks[d].body[i] == s && Reachable(GraphOf(f), d)
  {
    if s in f.blocks[b].body[..k] {
      d := b;
      i :| 0 <= i < k && f.blocks[b].body[i] == s;
    } else {
      d :| d < |f.blocks| && Sdom(GraphOf(f), d, b) && s in f.blocks[d].body;
      i :| 0 <= i < |f.blocks[d].body| && f.blocks[d].body[i] == s;
      DomReachable(GraphOf(f), d, b);
    }
  }

  // What is defined before an earlier position is defined before a later one.
  lemma Carried(f: Function, u: Reg, d: Label, i: nat, b: Label, k: nat)
    requires Shape(f) && Reachable(GraphOf(f), b) && Precedes(f, d, i, b, k) && DefinedBefore(f, u, d, i)
    ensures DefinedBefore(f, u, b, k)
  {
    if d == b && i < k {
      DefinedLater(f, u, b, i, k);
    } else {
      DefinedLater(f, u, d, i, |f.blocks[d].body|);
      DefinedBelow(f, u, d, b);
      DefinedLater(f, u, b, 0, k);
    }
  }

  // ----- The equations -----

  ghost predicate Equation<V, W>(sem: Sem<V, W>, f: Function, s: Reg, st: State<V, W>)
    requires s < |f.nodes|
  {
    match f.nodes[s]
    case Pure(op, args) => Val(sem, st, s) == sem.pure(op, Vals(sem, st, args))
    case Pass(x) => Val(sem, st, s) == Val(sem, st, x)
    case _ => true
  }

  ghost predicate Holds<V, W>(sem: Sem<V, W>, f: Function, b: Label, k: nat, st: State<V, W>)
  {
    forall s: Reg :: s < |f.nodes| && DefinedBefore(f, s, b, k) ==> Equation(sem, f, s, st)
  }

  lemma SameVals<V, W>(sem: Sem<V, W>, args: seq<Reg>, st: State<V, W>, tt: State<V, W>)
    requires forall u :: u in args ==> Val(sem, st, u) == Val(sem, tt, u)
    ensures Vals(sem, st, args) == Vals(sem, tt, args)
  {
    assert forall i :: 0 <= i < |args| ==> args[i] in args;
  }

  lemma SameEquation<V, W>(sem: Sem<V, W>, f: Function, s: Reg, st: State<V, W>, tt: State<V, W>)
    requires s < |f.nodes| && Equation(sem, f, s, st) && Val(sem, st, s) == Val(sem, tt, s)
    requires forall u :: u in Uses(f.nodes[s]) ==> Val(sem, st, u) == Val(sem, tt, u)
    ensures Equation(sem, f, s, tt)
  {
    match f.nodes[s] {
      case Pure(_, args) => SameVals(sem, args, st, tt);
      case Pass(x) => assert x in Uses(f.nodes[s]);
      case _ =>
    }
  }

  lemma OnlyItself<V, W>(sem: Sem<V, W>, r: Reg, n: Node, st: State<V, W>, u: Reg)
    requires u != r
    ensures Val(sem, ExecNode(sem, {}, r, n, st), u) == Val(sem, st, u)
  {
  }

  lemma NewEquation<V, W>(sem: Sem<V, W>, f: Function, b: Label, k: nat, st: State<V, W>)
    requires Shape(f) && SsaForm(f) && b < |f.blocks| && Reachable(GraphOf(f), b) && k < |f.blocks[b].body|
    ensures var r := f.blocks[b].body[k]; Equation(sem, f, r, ExecNode(sem, {}, r, f.nodes[r], st))
  {
    var r := f.blocks[b].body[k];
    var n := f.nodes[r];
    var tt := ExecNode(sem, {}, r, n, st);
    assert BlockDominated(f, b) && NodeDominated(f, b, k);
    NotBeforeItself(f, b, k);
    hide Shape, SsaForm, DefinedBefore;
    match n {
      case Pure(_, args) => SameVals(sem, args, st, tt);
      case Pass(x) => assert x in Uses(n);
      case _ =>
    }
  }

  lemma HoldsStep<V, W>(sem: Sem<V, W>, f: Function, b: Label, k: nat, st: State<V, W>)
    requires Shape(f) && SsaForm(f) && b < |f.blocks| && Reachable(GraphOf(f), b) && k < |f.blocks[b].body|
    requires Holds(sem, f, b, k, st)
    ensures var r := f.blocks[b].body[k]; Holds(sem, f, b, k + 1, ExecNode(sem, {}, r, f.nodes[r], st))
  {
    var r := f.blocks[b].body[k];
    var tt := ExecNode(sem, {}, r, f.nodes[r], st);
    NotBeforeItself(f, b, k);
    NewEquation(sem, f, b, k, st);
    forall s: Reg | s < |f.nodes| && DefinedBefore(f, s, b, k + 1) ensures Equation(sem, f, s, tt) {
      if s != r {
        StillBefore(f, s, b, k);
        if !f.nodes[s].Phi? {
          forall u | u in Uses(f.nodes[s]) ensures Val(sem, st, u) == Val(sem, tt, u) {
            UseBefore(f, s, b, k, u);
            OnlyItself(sem, r, f.nodes[r], st, u);
          }
          OnlyItself(sem, r, f.nodes[r], st, s);
          SameEquation(sem, f, s, st, tt);
        }
      }
    }
  }

  lemma StillBefore(f: Function, s: Reg, b: Label, k: nat)
    requires b < |f.blocks| && k < |f.blocks[b].body| && DefinedBefore(f, s, b, k + 1) && s != f.blocks[b].body[k]
    ensures DefinedBefore(f, s, b, k)
  {
    if s in f.blocks[b].body[..k + 1] {
      var i :| 0 <= i < k + 1 && f.blocks[b].body[i] == s;
      assert f.blocks[b].body[..k][i] == s;
    }
  }

  // Arriving at a block changes only its own registers.
  lemma EnterKeeps<V, W>(sem: Sem<V, W>, f: Function, b: Label, from: Label, st: State<V, W>, u: Reg)
    requires b < |f.blocks| && u !in f.blocks[b].body
    ensures Val(sem, EnterBlock(sem, f, f.blocks[b].body, from, st), u) == Val(sem, st, u)
  {
  }

  lemma NotInBlock(f: Function, s: Reg, b: Label)
    requires Shape(f) && b < |f.blocks| && Reachable(GraphOf(f), b) && DefinedBefore(f, s, b, 0)
    ensures s !in f.blocks[b].body
  {
    var d, i := PlaceOf(f, s, b, 0);
  }

  lemma HoldsEnter<V, W>(sem: Sem<V, W>, f: Function, p: Label, b: Label, st: State<V, W>)
    requires Shape(f) && SsaForm(f) && Edge(GraphOf(f), p, b) && Reachable(GraphOf(f), p)
    requires Holds(sem, f, p, |f.blocks[p].body|, st)
    ensures Holds(sem, f, b, 0, EnterBlock(sem, f, f.blocks[b].body, p, st))
  {
    StepReachable(GraphOf(f), p, b);
    var tt := EnterBlock(sem, f, f.blocks[b].body, p, st);
    forall s: Reg | s < |f.nodes| && DefinedBefore(f, s, b, 0) ensures Equation(sem, f, s, tt) {
      DefinedAtPred(f, s, p, b);
      NotInBlock(f, s, b);
      EnterKeeps(sem, f, b, p, st, s);
      if !f.nodes[s].Phi? {
        forall u | u in Uses(f.nodes[s]) ensures Val(sem, st, u) == Val(sem, tt, u) {
          UseBefore(f, s, b, 0, u);
          NotInBlock(f, u, b);
          EnterKeeps(sem, f, b, p, st, u);
        }
        SameEquation(sem, f, s, st, tt);
      }
    }
  }

  lemma NothingBeforeEntry(f: Function, s: Reg)
    requires Shape(f)
    ensures !DefinedBefore(f, s, 0, 0)
  {
    forall d: Label | Sdom(GraphOf(f), d, 0) ensures false {
      DomEntry(GraphOf(f), d);
    }
  }

  lemma BodyFits(f: Function, b: Label)
    requires Shape(f) && b < |f.blocks|
    ensures forall i :: 0 <= i < |f.blocks[b].body| ==> f.blocks[b].body[i] < |f.nodes|
  {
  }

  lemma {:induction false} HoldsBody<V, W>(sem: Sem<V, W>, f: Function, b: Label, k: nat, st: State<V, W>)
    requires Shape(f) && SsaForm(f) && b < |f.blocks| && Reachable(GraphOf(f), b) && k <= |f.blocks[b].body|
    requires Holds(sem, f, b, 0, st)
    ensures Holds(sem, f, b, k, ExecBody(sem, {}, f, f.blocks[b].body, k, st))
  {
    hide Shape, SsaForm, Holds, Reachable, ExecNode;
    BodyFits(f, b);
    if k > 0 {
      HoldsBody(sem, f, b, k - 1, st);
      HoldsStep(sem, f, b, k - 1, ExecBody(sem, {}, f, f.blocks[b].body, k - 1, st));
    }
  }

  // ----- Along a run -----

  // A run arrives at a block with the equations of the block it comes from.
  ghost predicate Arriving<V, W>(sem: Sem<V, W>, f: Function, c: Config<V, W>)
    requires Shape(f) && c.At?
  {
    && c.block < |f.blocks| && Reachable(GraphOf(f), c.block)
    && if c.from < |f.blocks| then
         Edge(GraphOf(f), c.from, c.block) && Reachable(GraphOf(f), c.from)
         && Holds(sem, f, c.from, |f.blocks[c.from].body|, c.st)
       else c.block == 0 && c.st.regs == map[]
  }

  lemma ArrivingHolds<V, W>(sem: Sem<V, W>, f: Function, c: Config<V, W>)
    requires Shape(f) && SsaForm(f) && c.At? && Arriving(sem, f, c)
    ensures Holds(sem, f, c.block, 0, EnterBlock(sem, f, f.blocks[c.block].body, c.from, c.st))
  {
    if c.from < |f.blocks| {
      HoldsEnter(sem, f, c.from, c.block, c.st);
    } else {
      forall s: Reg ensures !DefinedBefore(f, s, 0, 0) { NothingBeforeEntry(f, s); }
    }
  }

  lemma {:induction false} RunArrives<V, W>(sem: Sem<V, W>, f: Function, w: W, n: nat)
    requires Shape(f) && SsaForm(f)
    ensures var c := Run(sem, {}, f, w, n); c.At? ==> Arriving(sem, f, c)
  {
    hide Step, Shape, SsaForm, Holds, Reachable, GraphOf;
    if n == 0 {
      EntryPath(f);
      EntryReachable(GraphOf(f));
    } else {
      var c := Run(sem, {}, f, w, n - 1);
      RunArrives(sem, f, w, n - 1);
      if c.At? { StepArrives(sem, f, c); } else { StepHalted(sem, {}, f, c); }
    }
  }

  lemma StepArrives<V, W>(sem: Sem<V, W>, f: Function, c: Config<V, W>)
    requires Shape(f) && SsaForm(f) && c.At? && Arriving(sem, f, c)
    ensures var d := Step(sem, {}, f, c); d.At? ==> Arriving(sem, f, d)
  {
    var b := c.block;
    var st1 := EnterBlock(sem, f, f.blocks[b].body, c.from, c.st);
    ArrivingHolds(sem, f, c);
    HoldsBody(sem, f, b, |f.blocks[b].body|, st1);
    var st2 := ExecBody(sem, {}, f, f.blocks[b].body, |f.blocks[b].body|, st1);
    hide Holds, EnterBlock, ExecBody, SsaForm;
    if Leave(sem, f.blocks[b].end, st2).Next? {
      LeaveFollowsEdge(sem, f, b, st2);
      StepReachable(GraphOf(f), b, Leave(sem, f.blocks[b].end, st2).target);
    }
  }
}
