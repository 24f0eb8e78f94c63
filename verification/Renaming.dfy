// src/tb/opt/mem2reg.c:116-225: what the renaming walk has done to the node table at each
// moment, and what each of its steps adds.

module Renaming {
  import opened Finite
  import opened Cfg
  import opened Predecessors
  import opened Ir
  import opened Dominators
  import opened Promotion
  import opened PhiInsertion
  import opened DomWalk
  import opened StackWalk

  // How far the walk is: `done` blocks are finished; of block cur the first k nodes, and the
  // phi inputs for the slot and successor pairs in `edges`.
  datatype Progress = Progress(done: set<Label>, cur: Label, k: nat, edges: set<(Reg, Label)>)

  // The definition on top of the stack at the end of p, or what reading below an empty stack
  // yields.
  ghost function TopReg(f: Function, pl: Plan, junk: Reg, a: Reg, p: Label): Reg
    requires PlanOk(f, pl) && p < |f.blocks|
  {
    ExitDef(f, pl, a, p).GetOr(junk)
  }

  // Entries for p are still as phase 1 left them.
  ghost predicate StartFor(f: Function, a: Reg, l: Label, ins: seq<PhiInput>, p: Label)
    requires Shape(f) && l < |f.blocks|
  {
    forall i, j :: 0 <= i < j < |ins| && ins[i].from == p && ins[j].from == p ==>
      p == l && LastStore(f, a, l) == Some(ins[i].val) == Some(ins[j].val)
  }

  ghost predicate EdgeDone(f: Function, pr: Progress, a: Reg, p: Label, l: Label)
  {
    Edge(GraphOf(f), p, l) && (p in pr.done || (p == pr.cur && (a, l) in pr.edges))
  }

  ghost predicate PhiState(f: Function, pl: Plan, junk: Reg, nodes: seq<Node>, pr: Progress, a: Reg, l: Label)
    requires PlanOk(f, pl) && (a, l) in pl.phi
  {
    var r := pl.phi[(a, l)];
    && r < |nodes| && nodes[r].Phi?
    && forall p: Label :: p < |f.blocks| ==> InputState(f, pl, junk, nodes[r].inputs, r, pr, a, p, l)
  }

  ghost predicate InputState(f: Function, pl: Plan, junk: Reg, ins: seq<PhiInput>, r: Reg, pr: Progress,
                             a: Reg, p: Label, l: Label)
    requires PlanOk(f, pl) && l < |f.blocks| && p < |f.blocks|
  {
    if EdgeDone(f, pr, a, p, l) then SelectsFirst(ins, p, TopReg(f, pl, junk, a, p), r, OwnStore(f, a, p, l))
    else StartFor(f, a, l, ins, p)
  }

  // The node now standing for position k of b.
  ghost function NewNode(f: Function, pl: Plan, junk: Reg, b: Label, k: nat): Node
    requires PlanOk(f, pl) && b < |f.blocks| && k < |f.blocks[b].body|
  {
    var r := f.blocks[b].body[k];
    match f.nodes[r]
    case Load(a) => if a in pl.slots then Pass(Def(f, pl, a, b, k).GetOr(junk)) else f.nodes[r]
    case Store(a, _) => if a in pl.slots then Null else f.nodes[r]
    case Clear(a, _, _) => if a in pl.slots then Pure(ZERO, []) else f.nodes[r]
    case _ => if r in pl.slots then Null else f.nodes[r]
  }

  ghost predicate NodeState(f: Function, pl: Plan, junk: Reg, nodes: seq<Node>, pr: Progress, b: Label, k: nat)
    requires PlanOk(f, pl) && b < |f.blocks| && k < |f.blocks[b].body| && |nodes| >= |f.nodes|
  {
    var r := f.blocks[b].body[k];
    nodes[r] == if b in pr.done || (b == pr.cur && k < pr.k) then NewNode(f, pl, junk, b, k)
                else StartNode(f.nodes[r], pl.slots, pl.lost)
  }

  ghost predicate RenameInv(f: Function, pl: Plan, junk: Reg, nodes: seq<Node>, pr: Progress)
    requires PlanOk(f, pl)
  {
    && |nodes| >= |f.nodes|
    && (forall r: Reg :: r < |f.nodes| ==> !nodes[r].Phi?)
    && (forall b: Label, k: nat :: b < |f.blocks| && k < |f.blocks[b].body| ==> NodeState(f, pl, junk, nodes, pr, b, k))
    && (forall a: Reg, l: Label :: (a, l) in pl.phi ==> PhiState(f, pl, junk, nodes, pr, a, l))
  }

  // ----- Before and after a block -----

  // Between blocks.
  ghost predicate Idle(f: Function, pr: Progress)
  {
    pr == Progress(pr.done, |f.blocks|, 0, {}) && forall b :: b in pr.done ==> b < |f.blocks|
  }

  lemma BeginBlock(f: Function, pl: Plan, junk: Reg, nodes: seq<Node>, pr: Progress, b: Label)
    requires PlanOk(f, pl) && RenameInv(f, pl, junk, nodes, pr) && Idle(f, pr) && b !in pr.done
    ensures RenameInv(f, pl, junk, nodes, Progress(pr.done, b, 0, {}))
  {
    var pr1 := Progress(pr.done, b, 0, {});
    forall c: Label, k: nat | c < |f.blocks| && k < |f.blocks[c].body|
      ensures NodeState(f, pl, junk, nodes, pr1, c, k)
    {
      assert NodeState(f, pl, junk, nodes, pr, c, k);
    }
    forall a: Reg, l: Label | (a, l) in pl.phi ensures PhiState(f, pl, junk, nodes, pr1, a, l) {
      SamePhis(f, pl, junk, nodes, pr, pr1, a, l);
    }
  }

  // Progress that counts the same edges leaves the phis as they are.
  lemma SamePhis(f: Function, pl: Plan, junk: Reg, nodes: seq<Node>, pr: Progress, pr1: Progress, a: Reg, l: Label)
    requires PlanOk(f, pl) && (a, l) in pl.phi && PhiState(f, pl, junk, nodes, pr, a, l)
    requires forall p: Label :: p < |f.blocks| ==> (EdgeDone(f, pr, a, p, l) <==> EdgeDone(f, pr1, a, p, l))
    ensures PhiState(f, pl, junk, nodes, pr1, a, l)
  {
    var r := pl.phi[(a, l)];
    forall p: Label | p < |f.blocks| ensures InputState(f, pl, junk, nodes[r].inputs, r, pr1, a, p, l) {
      assert InputState(f, pl, junk, nodes[r].inputs, r, pr, a, p, l);
    }
  }

  lemma EndBlock(f: Function, pl: Plan, junk: Reg, nodes: seq<Node>, pr: Progress)
    requires PlanOk(f, pl) && RenameInv(f, pl, junk, nodes, pr) && pr.cur < |f.blocks| && pr.cur !in pr.done
    requires pr.k == |f.blocks[pr.cur].body|
    requires forall a: Reg, l: Label :: (a, l) in pl.phi && Edge(GraphOf(f), pr.cur, l) ==> (a, l) in pr.edges
    ensures RenameInv(f, pl, junk, nodes, Progress(pr.done + {pr.cur}, |f.blocks|, 0, {}))
  {
    var pr1 := Progress(pr.done + {pr.cur}, |f.blocks|, 0, {});
    forall c: Label, k: nat | c < |f.blocks| && k < |f.blocks[c].body|
      ensures NodeState(f, pl, junk, nodes, pr1, c, k)
    {
      assert NodeState(f, pl, junk, nodes, pr, c, k);
    }
    forall a: Reg, l: Label | (a, l) in pl.phi ensures PhiState(f, pl, junk, nodes, pr1, a, l) {
      SamePhis(f, pl, junk, nodes, pr, pr1, a, l);
    }
  }

  // ----- One node -----

  lemma NodeStep(f: Function, pl: Plan, junk: Reg, nodes: seq<Node>, pr: Progress)
    requires PlanOk(f, pl) && RenameInv(f, pl, junk, nodes, pr) && pr.cur < |f.blocks| && pr.cur !in pr.done
    requires pr.k < |f.blocks[pr.cur].body| && forall r: Reg :: r < |f.nodes| ==> !f.nodes[r].Phi?
    ensures f.blocks[pr.cur].body[pr.k] < |nodes|
    ensures nodes[f.blocks[pr.cur].body[pr.k]] == StartNode(f.nodes[f.blocks[pr.cur].body[pr.k]], pl.slots, pl.lost)
    ensures RenameInv(f, pl, junk, nodes[f.blocks[pr.cur].body[pr.k] := NewNode(f, pl, junk, pr.cur, pr.k)],
                      pr.(k := pr.k + 1))
  {
    var b, r := pr.cur, f.blocks[pr.cur].body[pr.k];
    var nodes1, pr1 := nodes[r := NewNode(f, pl, junk, b, pr.k)], pr.(k := pr.k + 1);
    assert NodeState(f, pl, junk, nodes, pr, b, pr.k);
    forall c: Label, k: nat | c < |f.blocks| && k < |f.blocks[c].body|
      ensures NodeState(f, pl, junk, nodes1, pr1, c, k)
    {
      assert NodeState(f, pl, junk, nodes, pr, c, k);
      assert f.blocks[c].body[k] == r ==> c == b && k == pr.k;
    }
    forall a: Reg, l: Label | (a, l) in pl.phi ensures PhiState(f, pl, junk, nodes1, pr1, a, l) {
      assert PhiState(f, pl, junk, nodes, pr, a, l);
      SamePhis(f, pl, junk, nodes, pr, pr1, a, l);
    }
  }

  // ----- One phi input -----

  // n1 is what the walk makes of node n, register r.
  ghost predicate Rewrites(n: Node, n1: Node, r: Reg, slots: seq<Reg>, stack: seq<Stack>, junk: Reg)
    requires |stack| == |slots|
  {
    match n
    case Load(a) =>
      if a in slots then exists v :: 0 <= v < |slots| && slots[v] == a && n1 == Pass(TopOf(stack[v]).GetOr(junk))
      else n1 == n
    case Store(a, _) => n1 == if a in slots then Null else n
    case Clear(a, _, _) => n1 == if a in slots then Pure(ZERO, []) else n
    case Local => n1 == if r in slots then Null else n
    case ParamAddr(_) => n1 == if r in slots then Null else n
    case _ => n1 == n
  }

  lemma NewNodeIs(f: Function, slots: seq<Reg>, pl: Plan, junk: Reg, b: Label, k: nat, n1: Node, stack: seq<Stack>)
    requires PlanOk(f, pl) && pl.slots == Elems(slots) && b < |f.blocks| && k < |f.blocks[b].body|
    requires forall a :: a in slots ==> a < |f.nodes| && (f.nodes[a].Local? || f.nodes[a].ParamAddr?)
    requires TopsAt(f, slots, pl, stack, b, k)
    requires var r := f.blocks[b].body[k]; Rewrites(StartNode(f.nodes[r], pl.slots, pl.lost), n1, r, slots, stack, junk)
    ensures n1 == NewNode(f, pl, junk, b, k)
  {
    hide Def;
  }

  // The stacks show the definitions that reach position k of block b.
  ghost predicate TopsAt(f: Function, slots: seq<Reg>, pl: Plan, stack: seq<Stack>, b: Label, k: nat)
    requires PlanOk(f, pl) && b < |f.blocks| && k <= |f.blocks[b].body|
  {
    |stack| == |slots| && forall v: nat :: v < |slots| ==> TopOf(stack[v]) == Def(f, pl, slots[v], b, k)
  }

  // One more node of the body.
  lemma StacksStep(f: Function, slots: seq<Reg>, pl: Plan, b: Label, k: nat, before: seq<Stack>, stack: seq<Stack>,
                   stack1: seq<Stack>)
    requires PlanOk(f, pl) && pl.slots == Elems(slots) && b < |f.blocks| && k < |f.blocks[b].body|
    requires TopsAt(f, slots, pl, stack, b, k) && |before| == |stack1| == |slots|
    requires forall v: nat :: v < |slots| ==> stack[v] == BodyStack(f, pl.lost, slots[v], b, k, before[v])
    requires forall v: nat :: v < |slots| ==>
               var r := f.blocks[b].body[k];
               stack1[v] == Pushed(stack[v], StoredBy(StartNode(f.nodes[r], pl.slots, pl.lost), r, slots[v]))
    ensures TopsAt(f, slots, pl, stack1, b, k + 1)
    ensures forall v: nat :: v < |slots| ==> stack1[v] == BodyStack(f, pl.lost, slots[v], b, k + 1, before[v])
  {
    hide ExactDoms, Shape, Pushed, Def, BodyStack, StoredBy, StartNode;
    forall v: nat | v < |slots|
      ensures TopOf(stack1[v]) == Def(f, pl, slots[v], b, k + 1)
      ensures stack1[v] == BodyStack(f, pl.lost, slots[v], b, k + 1, before[v])
    {
      StackStep(f, pl, slots[v], b, k, before[v]);
    }
  }

  lemma StackStep(f: Function, pl: Plan, a: Reg, b: Label, k: nat, before: Stack)
    requires PlanOk(f, pl) && a in pl.slots && b < |f.blocks| && k < |f.blocks[b].body|
    requires TopOf(BodyStack(f, pl.lost, a, b, k, before)) == Def(f, pl, a, b, k)
    ensures var r := f.blocks[b].body[k];
            Pushed(BodyStack(f, pl.lost, a, b, k, before), StoredBy(StartNode(f.nodes[r], pl.slots, pl.lost), r, a))
            == BodyStack(f, pl.lost, a, b, k + 1, before)
    ensures TopOf(BodyStack(f, pl.lost, a, b, k + 1, before)) == Def(f, pl, a, b, k + 1)
  {
    hide ExactDoms, Pushed, WellFormed;
    TopOfPushed(BodyStack(f, pl.lost, a, b, k, before), PushedBy(f, pl.lost, f.blocks[b].body[k], a));
  }

  ghost function SetupOf(f: Function, slots: seq<Reg>, pl: Plan, asWritten: bool): Setup
  {
    Setup(f, slots, pl.phi, pl.doms, asWritten)
  }

  // With its own phis on top the stacks show what reaches the start of the block.
  lemma PhisPushed(f: Function, slots: seq<Reg>, pl: Plan, asWritten: bool, b: Label)
    requires PlanOk(f, pl) && b < |f.blocks| && AreEntryTops(SetupOf(f, slots, pl, asWritten), pl.tops)
    ensures var s := SetupOf(f, slots, pl, asWritten); TopsAt(f, slots, pl, Entered(s, b, Entry(s, b)).stacks, b, 0)
  {
    var s := SetupOf(f, slots, pl, asWritten);
    var w := Entry(s, b);
    assert forall a: Reg :: (a, 0) !in pl.phi;
    forall v: nat | v < |slots| ensures TopOf(Entered(s, b, w).stacks[v]) == Def(f, pl, slots[v], b, 0) {
      TopOfPushed(w.stacks[v], PhiAt(s, slots[v], b));
      if b > 0 { assert pl.tops[(slots[v], b)] == EntryTop(s, v, b); }
    }
  }

  lemma ChildPart(f: Function, pl: Plan, done0: set<Label>, b: Label, n: Label)
    requires PlanOk(f, pl) && b < |f.blocks| && 0 < n < |f.blocks| && pl.doms[n] == b
    requires Subtree(GraphOf(f), pl.doms, b) !! done0 && forall x :: x in done0 ==> x < |f.blocks|
    ensures var done := done0 + Part(GraphOf(f), pl.doms, b, n);
            Subtree(GraphOf(f), pl.doms, n) !! done && forall x :: x in done ==> x < |f.blocks|
    ensures Rank(GraphOf(f), b) < Rank(GraphOf(f), n) <= |f.blocks| + 1
  {
    var g, D := GraphOf(f), pl.doms;
    NewPart(g, D, b, n);
    IdomRank(g, D, n);
    RankBound(g, n);
    PartInRange(g, D, b, n);
  }

  // current_def names a phi exactly where one was placed.
  lemma CurrentIsPhi(f: Function, slots: seq<Reg>, pl: Plan, junk: Reg, nodes: seq<Node>, pr: Progress, a: Reg,
                     b: Label)
    requires PhiFree(f, slots) && PlanOk(f, pl) && RenameInv(f, pl, junk, nodes, pr) && b < |f.blocks|
    ensures Current(f, pl.phi, a, b) < |nodes|
    ensures nodes[Current(f, pl.phi, a, b)].Phi? <==> (a, b) in pl.phi
  {
    LocalDefFits(f, slots, a, b, |f.blocks[b].body|);
    if (a, b) in pl.phi {
      assert PhiState(f, pl, junk, nodes, pr, a, b);
    }
  }

  // What ssa_replace_phi_arg does to the inputs: the first entry for p is replaced; without
  // one an entry is added, unless it would name the phi itself.
  function ReplaceInput(ins: seq<PhiInput>, p: Label, top: Reg, r: Reg): seq<PhiInput>
  {
    ReplaceFrom(ins, 0, p, top, r)
  }

  function ReplaceFrom(ins: seq<PhiInput>, j: nat, p: Label, top: Reg, r: Reg): seq<PhiInput>
    requires j <= |ins|
    decreases |ins| - j
  {
    if j == |ins| then (if top == r then ins else ins + [PhiInput(p, top)])
    else if ins[j].from == p then ins[j := PhiInput(p, top)]
    else ReplaceFrom(ins, j + 1, p, top, r)
  }

  method ReplaceOrAdd(ins: seq<PhiInput>, p: Label, top: Reg, r: Reg) returns (out: seq<PhiInput>)
    ensures out == ReplaceInput(ins, p, top, r)
  {
    var found := false;
    var j: nat := 0;
    out := ins;
    while j < |ins|
      invariant j <= |ins| && !found && out == ins
      invariant ReplaceInput(ins, p, top, r) == ReplaceFrom(ins, j, p, top, r)
    {
      if ins[j].from == p {
        out := ins[j := PhiInput(p, top)];
        found := true;
        break;
      }
      j := j + 1;
    }
    if !found {
      out := AddPhiOperand(Phi(ins), r, p, top).inputs;
    }
  }

  // Either the first entry for p was replaced, or there was none.
  lemma {:induction false} ReplaceCases(ins: seq<PhiInput>, j: nat, p: Label, top: Reg, r: Reg)
    requires j <= |ins| && forall i :: 0 <= i < j ==> ins[i].from != p
    ensures var out := ReplaceFrom(ins, j, p, top, r);
            || (exists i :: 0 <= i < |ins| && ins[i].from == p && out == ins[i := PhiInput(p, top)])
            || ((forall i :: 0 <= i < |ins| ==> ins[i].from != p)
                && out == if top == r then ins else ins + [PhiInput(p, top)])
    decreases |ins| - j
  {
    if j < |ins| && ins[j].from != p {
      ReplaceCases(ins, j + 1, p, top, r);
    }
  }

  lemma ReplaceSelects(f: Function, a: Reg, l: Label, ins: seq<PhiInput>, p: Label, top: Reg, r: Reg)
    requires Shape(f) && l < |f.blocks|
    requires p < |f.blocks|
    requires SelectsFirst(ins, p, top, r, OwnStore(f, a, p, l)) || StartFor(f, a, l, ins, p)
    ensures SelectsFirst(ReplaceInput(ins, p, top, r), p, top, r, OwnStore(f, a, p, l))
  {
    hide LastStore, Shape;
    ReplaceCases(ins, 0, p, top, r);
    var out := ReplaceInput(ins, p, top, r);
    if i :| 0 <= i < |ins| && ins[i].from == p && out == ins[i := PhiInput(p, top)] {
      assert out[i].from == p;
      forall j | 0 <= j < |out| && out[j].from == p
        ensures out[j].val == top || Some(out[j].val) == OwnStore(f, a, p, l)
      {
        if j != i { assert ins[j] == out[j]; }
      }
    } else if top != r {
      assert out[|ins|] == PhiInput(p, top);
    }
  }

  // Two lists that agree on the inputs from q.
  ghost predicate AgreeOn(ins: seq<PhiInput>, out: seq<PhiInput>, q: Label)
  {
    && (forall j :: 0 <= j < |out| && out[j].from == q ==> j < |ins| && ins[j] == out[j])
    && (forall j :: 0 <= j < |ins| && ins[j].from == q ==> j < |out| && ins[j] == out[j])
  }

  lemma AgreeSelects(ins: seq<PhiInput>, out: seq<PhiInput>, q: Label, t: Reg, r: Reg, own: Option<Reg>)
    requires AgreeOn(ins, out, q) && SelectsFirst(ins, q, t, r, own)
    ensures SelectsFirst(out, q, t, r, own)
  {
  }

  lemma AgreeStart(f: Function, a: Reg, l: Label, ins: seq<PhiInput>, out: seq<PhiInput>, q: Label)
    requires Shape(f) && l < |f.blocks| && AgreeOn(ins, out, q) && StartFor(f, a, l, ins, q)
    ensures StartFor(f, a, l, out, q)
  {
    hide LastStore, Shape;
  }

  lemma ReplaceKeeps(f: Function, a: Reg, l: Label, ins: seq<PhiInput>, p: Label, top: Reg, r: Reg, q: Label, t: Reg,
                     own: Option<Reg>)
    requires Shape(f) && l < |f.blocks| && q != p
    ensures SelectsFirst(ins, q, t, r, own) ==> SelectsFirst(ReplaceInput(ins, p, top, r), q, t, r, own)
    ensures StartFor(f, a, l, ins, q) ==> StartFor(f, a, l, ReplaceInput(ins, p, top, r), q)
  {
    hide LastStore, Shape, SelectsFirst, StartFor, ReplaceInput;
    ReplaceAgrees(ins, p, top, r, q);
    var out := ReplaceInput(ins, p, top, r);
    if SelectsFirst(ins, q, t, r, own) { AgreeSelects(ins, out, q, t, r, own); }
    if StartFor(f, a, l, ins, q) { AgreeStart(f, a, l, ins, out, q); }
  }

  lemma ReplaceAgrees(ins: seq<PhiInput>, p: Label, top: Reg, r: Reg, q: Label)
    requires q != p
    ensures AgreeOn(ins, ReplaceInput(ins, p, top, r), q)
  {
    ReplaceCases(ins, 0, p, top, r);
  }

  lemma EdgeStep(f: Function, pl: Plan, junk: Reg, nodes: seq<Node>, pr: Progress, a: Reg, l: Label)
    requires PlanOk(f, pl) && RenameInv(f, pl, junk, nodes, pr) && pr.cur < |f.blocks| && pr.cur !in pr.done
    requires (a, l) in pl.phi && Edge(GraphOf(f), pr.cur, l)
    ensures pl.phi[(a, l)] < |nodes| && nodes[pl.phi[(a, l)]].Phi?
    ensures var r := pl.phi[(a, l)]; var top := TopReg(f, pl, junk, a, pr.cur);
            RenameInv(f, pl, junk, nodes[r := Phi(ReplaceInput(nodes[r].inputs, pr.cur, top, r))],
                      pr.(edges := pr.edges + {(a, l)}))
  {
    var r, top, p := pl.phi[(a, l)], TopReg(f, pl, junk, a, pr.cur), pr.cur;
    assert PhiState(f, pl, junk, nodes, pr, a, l);
    var ins := nodes[r].inputs;
    var nodes1, pr1 := nodes[r := Phi(ReplaceInput(ins, p, top, r))], pr.(edges := pr.edges + {(a, l)});
    forall c: Label, k: nat | c < |f.blocks| && k < |f.blocks[c].body|
      ensures NodeState(f, pl, junk, nodes1, pr1, c, k)
    {
      assert NodeState(f, pl, junk, nodes, pr, c, k);
    }
    forall a1: Reg, l1: Label | (a1, l1) in pl.phi ensures PhiState(f, pl, junk, nodes1, pr1, a1, l1) {
      assert PhiState(f, pl, junk, nodes, pr, a1, l1);
      if (a1, l1) == (a, l) {
        EdgeStepHere(f, pl, junk, nodes, pr, a, l);
      } else {
        assert pl.phi[(a1, l1)] != r;
        assert PhiState(f, pl, junk, nodes1, pr, a1, l1);
        SamePhis(f, pl, junk, nodes1, pr, pr1, a1, l1);
      }
    }
  }

  lemma EdgeStepHere(f: Function, pl: Plan, junk: Reg, nodes: seq<Node>, pr: Progress, a: Reg, l: Label)
    requires PlanOk(f, pl) && pr.cur < |f.blocks| && pr.cur !in pr.done
    requires (a, l) in pl.phi && Edge(GraphOf(f), pr.cur, l) && PhiState(f, pl, junk, nodes, pr, a, l)
    ensures var r := pl.phi[(a, l)]; var top := TopReg(f, pl, junk, a, pr.cur);
            PhiState(f, pl, junk, nodes[r := Phi(ReplaceInput(nodes[r].inputs, pr.cur, top, r))],
                     pr.(edges := pr.edges + {(a, l)}), a, l)
  {
    var r, top, p := pl.phi[(a, l)], TopReg(f, pl, junk, a, pr.cur), pr.cur;
    var ins := nodes[r].inputs;
    var out, pr1 := ReplaceInput(ins, p, top, r), pr.(edges := pr.edges + {(a, l)});
    assert InputState(f, pl, junk, ins, r, pr, a, p, l);
    ReplaceSelects(f, a, l, ins, p, top, r);
    forall q: Label | q < |f.blocks| ensures InputState(f, pl, junk, out, r, pr1, a, q, l) {
      if q != p {
        assert InputState(f, pl, junk, ins, r, pr, a, q, l);
        assert EdgeDone(f, pr, a, q, l) <==> EdgeDone(f, pr1, a, q, l);
        ReplaceKeeps(f, a, l, ins, p, top, r, q, TopReg(f, pl, junk, a, q), OwnStore(f, a, q, l));
      }
    }
  }

  // ----- The whole walk -----

  // The edges out of b, read off its terminator.
  lemma SuccessorEdges(f: Function, b: Label)
    requires Shape(f) && b < |f.blocks|
    ensures forall l: Label :: Edge(GraphOf(f), b, l) <==>
              match f.blocks[b].end
              case Goto(t) => l == t
              case If(_, t, e) => l == t || l == e
              case Switch(_, es, d) => l == d || exists i :: 0 <= i < |es| && es[i].target == l
              case _ => false
  {
    var t := f.blocks[b].end;
    assert GraphOf(f)[b] == t;
    forall l: Label ensures Edge(GraphOf(f), b, l) <==> l in Targets(t) {
    }
    if t.Switch? {
      forall l: Label
        ensures l in Targets(t) <==> l == t.default || exists i :: 0 <= i < |t.entries| && t.entries[i].target == l
      {
        InReverseTargets(t.entries, l);
      }
    }
  }

  // An entry of a body is a phi placed in front of it, or one of the nodes it had before.
  lemma BodyEntry(f: Function, pl: Plan, junk: Reg, nodes: seq<Node>, pr: Progress, bodies: seq<seq<Reg>>,
                  pre: seq<seq<Reg>>, b: Label, i: nat)
    requires PlanOk(f, pl) && RenameInv(f, pl, junk, nodes, pr) && b < |f.blocks| && |bodies| == |pre| == |f.blocks|
    requires BodyPlaced(f, bodies, pl.phi, pre, b) && i < |bodies[b]|
    ensures |bodies[b]| == |pre[b]| + |f.blocks[b].body| && bodies[b][i] < |nodes|
    ensures if i < |pre[b]| then nodes[bodies[b][i]].Phi? else bodies[b][i] == f.blocks[b].body[i - |pre[b]|]
  {
    if i < |pre[b]| {
      assert PhiOf(pl.phi, b, pre[b][i]);
      var a: Reg :| (a, b) in pl.phi && pl.phi[(a, b)] == pre[b][i];
      assert PhiState(f, pl, junk, nodes, pr, a, b);
    }
  }

  lemma StartRenaming(f: Function, slots: set<Reg>, nodes: seq<Node>, bodies: seq<seq<Reg>>, pre: seq<seq<Reg>>,
                      pl: Plan, junk: Reg)
    requires PlanOk(f, pl) && pl.slots == slots && PlaceInv(f, slots, nodes, bodies, pl.phi, pre)
    requires Begun(f, slots, pl.lost, nodes)
    ensures RenameInv(f, pl, junk, nodes, Progress({}, |f.blocks|, 0, {}))
  {
    var pr := Progress({}, |f.blocks|, 0, {});
    forall a: Reg, l: Label | (a, l) in pl.phi ensures PhiState(f, pl, junk, nodes, pr, a, l) {
      assert PhiPlaced(f, slots, nodes, pl.phi, pre, a, l);
    }
  }

  lemma WholeTree(f: Function, pl: Plan)
    requires PlanOk(f, pl)
    ensures |f.blocks| > 0 && Subtree(GraphOf(f), pl.doms, 0) == Range(|f.blocks|)
  {
    forall x: Label | x < |f.blocks| ensures Under(GraphOf(f), pl.doms, 0, x) {
      UnderEntry(GraphOf(f), pl.doms, x);
    }
  }

  // When every block is done the result is what Promotion asks for, but for the phis.
  lemma RenamingDone(f: Function, pl: Plan, junk: Reg, h: Function, pre: seq<seq<Reg>>, pr: Progress)
    requires PlanOk(f, pl) && RenameInv(f, pl, junk, h.nodes, pr) && forall b: Label :: b < |f.blocks| ==> b in pr.done
    requires |h.blocks| == |f.blocks| == |pre|
    requires forall b: Label :: b < |f.blocks| ==> h.blocks[b].end == f.blocks[b].end
    requires forall b: Label :: b < |f.blocks| ==> BodyPlaced(f, Bodies(h), pl.phi, pre, b)
    requires forall a: Reg, b: Label :: (a, b) in pl.phi ==> pl.phi[(a, b)] in pre[b]
    ensures Rewritten(f, h, pl, pre)
  {
    hide Def;
    forall b: Label | b < |f.blocks| ensures BlockRenamed(f, h, pl, pre, b) {
      assert BodyPlaced(f, Bodies(h), pl.phi, pre, b);
      forall i | 0 <= i < |pre[b]| ensures PlacedIn(pl, b, pre[b][i]) {
        assert PhiOf(pl.phi, b, pre[b][i]);
      }
    }
    forall b: Label, k: nat | b < |f.blocks| && k < |f.blocks[b].body| ensures NodeRenamed(f, h.nodes, pl, b, k) {
      assert NodeState(f, pl, junk, h.nodes, pr, b, k);
    }
    forall x: (Reg, Label) | x in pl.phi ensures pl.phi[x] < |h.nodes| && h.nodes[pl.phi[x]].Phi? {
      assert PhiState(f, pl, junk, h.nodes, pr, x.0, x.1);
    }
  }

  function Bodies(h: Function): (s: seq<seq<Reg>>)
    ensures |s| == |h.blocks| && forall b :: 0 <= b < |s| ==> s[b] == h.blocks[b].body
  {
    seq(|h.blocks|, b requires 0 <= b < |h.blocks| => h.blocks[b].body)
  }

  // No register is listed twice in the result.
  lemma ResultShape(f: Function, pl: Plan, junk: Reg, h: Function, pre: seq<seq<Reg>>, pr: Progress)
    requires PlanOk(f, pl) && RenameInv(f, pl, junk, h.nodes, pr)
    requires |h.blocks| == |f.blocks| == |pre|
    requires forall b: Label :: b < |f.blocks| ==> h.blocks[b].end == f.blocks[b].end
    requires forall b: Label :: b < |f.blocks| ==> BodyPlaced(f, Bodies(h), pl.phi, pre, b)
    ensures Shape(h)
  {
    hide RenameInv, BodyPlaced, ExactDoms, WellFormed;
    assert GraphOf(h) == GraphOf(f);
    forall b: Label, k: nat | b < |h.blocks| && k < |h.blocks[b].body|
      ensures EntryFits(f, pl, h, pre, b, k) && h.blocks[b].body[k] < |h.nodes|
    {
      ResultEntry(f, pl, junk, h, pre, pr, b, k);
    }
    forall b: Label, k: nat, c: Label, j: nat | b < |h.blocks| && k < |h.blocks[b].body| && c < |h.blocks|
      && j < |h.blocks[c].body| && h.blocks[b].body[k] == h.blocks[c].body[j] ensures b == c && k == j
    {
      ResultUnique(f, pl, h, pre, b, k, c, j);
    }
  }

  ghost predicate EntryFits(f: Function, pl: Plan, h: Function, pre: seq<seq<Reg>>, b: Label, k: nat)
    requires b < |h.blocks| == |f.blocks| == |pre| && k < |h.blocks[b].body|
  {
    var r := h.blocks[b].body[k];
    && r < |h.nodes| && |h.blocks[b].body| == |pre[b]| + |f.blocks[b].body|
    && Distinct(pre[b])
    && if k < |pre[b]| then r == pre[b][k] && r >= |f.nodes| && PhiOf(pl.phi, b, r)
       else r == f.blocks[b].body[k - |pre[b]|] && r < |f.nodes|
  }

  lemma ResultEntry(f: Function, pl: Plan, junk: Reg, h: Function, pre: seq<seq<Reg>>, pr: Progress, b: Label, k: nat)
    requires PlanOk(f, pl) && RenameInv(f, pl, junk, h.nodes, pr) && |h.blocks| == |f.blocks| == |pre|
    requires b < |h.blocks| && k < |h.blocks[b].body| && BodyPlaced(f, Bodies(h), pl.phi, pre, b)
    ensures EntryFits(f, pl, h, pre, b, k)
  {
    hide NodeState, ExactDoms, WellFormed;
    if k < |pre[b]| {
      assert PhiOf(pl.phi, b, pre[b][k]);
      var a: Reg :| (a, b) in pl.phi && pl.phi[(a, b)] == pre[b][k];
      assert PhiState(f, pl, junk, h.nodes, pr, a, b);
    }
  }

  lemma ResultUnique(f: Function, pl: Plan, h: Function, pre: seq<seq<Reg>>, b: Label, k: nat, c: Label, j: nat)
    requires PlanOk(f, pl) && |h.blocks| == |f.blocks| == |pre|
    requires b < |h.blocks| && k < |h.blocks[b].body| && c < |h.blocks| && j < |h.blocks[c].body|
    requires EntryFits(f, pl, h, pre, b, k) && EntryFits(f, pl, h, pre, c, j)
    requires h.blocks[b].body[k] == h.blocks[c].body[j]
    ensures b == c && k == j
  {
    hide ExactDoms, WellFormed;
    if k < |pre[b]| {
      var x: Reg :| (x, b) in pl.phi && pl.phi[(x, b)] == pre[b][k];
      var y: Reg :| (y, c) in pl.phi && pl.phi[(y, c)] == pre[c][j];
      assert (x, b) == (y, c);
    }
  }

  lemma RenamingFinished(f: Function, pl: Plan, junk: Reg, h: Function, pre: seq<seq<Reg>>)
    requires PlanOk(f, pl) && RenameInv(f, pl, junk, h.nodes, Progress(Range(|f.blocks|), |f.blocks|, 0, {}))
    requires |h.blocks| == |f.blocks| == |pre|
    requires forall b: Label :: b < |f.blocks| ==> h.blocks[b].end == f.blocks[b].end
    requires forall b: Label :: b < |f.blocks| ==> BodyPlaced(f, Bodies(h), pl.phi, pre, b)
    requires forall a: Reg, b: Label :: (a, b) in pl.phi ==> pl.phi[(a, b)] in pre[b]
    ensures Shape(h) && Rewritten(f, h, pl, pre) && ReadsExactly(f, h, pl, junk)
  {
    var pr := Progress(Range(|f.blocks|), |f.blocks|, 0, {});
    ResultShape(f, pl, junk, h, pre, pr);
    RenamingDone(f, pl, junk, h, pre, pr);
    AllRead(f, pl, junk, h, pr);
  }

  lemma AllRead(f: Function, pl: Plan, junk: Reg, h: Function, pr: Progress)
    requires PlanOk(f, pl) && RenameInv(f, pl, junk, h.nodes, pr) && forall b: Label :: b < |f.blocks| ==> b in pr.done
    ensures ReadsExactly(f, h, pl, junk)
  {
    hide Def, ExactDoms;
    forall a: Reg, b: Label, k: nat | a in pl.slots && LoadAt(f, a, b, k)
      ensures f.blocks[b].body[k] < |h.nodes|
      ensures h.nodes[f.blocks[b].body[k]] == Pass(Def(f, pl, a, b, k).GetOr(junk))
    {
      assert NodeState(f, pl, junk, h.nodes, pr, b, k);
    }
    forall a: Reg, p: Label, b: Label | (a, b) in pl.phi && Edge(GraphOf(f), p, b)
      ensures PhiReads(h, pl.phi[(a, b)], p, ExitDef(f, pl, a, p).GetOr(junk), OwnStore(f, a, p, b))
    {
      assert PhiState(f, pl, junk, h.nodes, pr, a, b);
      var r := pl.phi[(a, b)];
      assert InputState(f, pl, junk, h.nodes[r].inputs, r, pr, a, p, b);
    }
  }
}
