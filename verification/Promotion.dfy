// What src/tb/opt/mem2reg.c turns a function into: every load of a promoted stack slot
// becomes a PASS of the definition that reaches it, phis sit where definitions meet, and
// the stores are gone.

module Promotion {
  import opened Finite
  import opened Cfg
  import opened Predecessors
  import opened Ir
  import opened Ssa
  import opened DomTree
  import opened Dominators
  import opened Frontiers

  // slots: the stack slots to promote. phi: the register of the phi placed for a slot in a
  // block. tops: what the stack of a slot shows when the walk comes to a block; where it is left
  // out, what reaches the end of the block above. lost: whether a memset leaves its zero off the
  // stack.
  datatype Plan = Plan(slots: set<Reg>, phi: map<(Reg, Label), Reg>, doms: Doms, tops: map<(Reg, Label), Option<Reg>>,
                       lost: bool := false)

  // The register that node n, which is register r, stores to slot a: the value of a store, the
  // zero that a memset becomes, or the parameter when r is the address of the parameter's home.
  function StoredBy(n: Node, r: Reg, a: Reg): Option<Reg>
  {
    match n
    case Store(addr, v) => if addr == a then Some(v) else None
    case Clear(addr, _, _) => if addr == a then Some(r) else None
    case ParamAddr(p) => if r == a then Some(p) else None
    case _ => None
  }

  function Stored(f: Function, r: Reg, a: Reg): Option<Reg>
    requires r < |f.nodes|
  {
    StoredBy(f.nodes[r], r, a)
  }

  // What of this comes to the stack.
  function PushedBy(f: Function, lost: bool, r: Reg, a: Reg): Option<Reg>
    requires r < |f.nodes|
  {
    if lost && f.nodes[r].Clear? then None else Stored(f, r, a)
  }

  ghost predicate HasStore(f: Function, a: Reg, b: Label)
  {
    b < |f.blocks| && exists k :: 0 <= k < |f.blocks[b].body| && f.blocks[b].body[k] < |f.nodes|
                                  && Stored(f, f.blocks[b].body[k], a).Some?
  }

  // The definition a slot has at position k of block b from that block's own stores.
  ghost function LocalDef(f: Function, a: Reg, b: Label, k: nat): Option<Reg>
    requires Shape(f) && b < |f.blocks| && k <= |f.blocks[b].body|
  {
    if k == 0 then None
    else
      var s := Stored(f, f.blocks[b].body[k - 1], a);
      if s.Some? then s else LocalDef(f, a, b, k - 1)
  }

  ghost function LastStore(f: Function, a: Reg, b: Label): Option<Reg>
    requires Shape(f) && b < |f.blocks|
  {
    LocalDef(f, a, b, |f.blocks[b].body|)
  }

  // ----- The definition of a slot that reaches a point -----

  ghost function Rank(g: Graph, b: Label): nat
  {
    if Reachable(g, b) then Depth(g, b) else |g| + 1
  }

  lemma IdomRank(g: Graph, D: Doms, b: Label)
    requires ExactDoms(g, D) && 0 < b < |g|
    ensures Rank(g, D[b]) < Rank(g, b)
  {
    EntryReachable(g);
    if Reachable(g, b) {
      DomReachable(g, D[b], b);
      IdomShallower(g, D[b], b);
    } else {
      var s := set x: Label | x in Range(|g|) && Dom(g, x, 0);
      forall x | x in s ensures x == 0 { DomEntry(g, x); }
      SubsetSize(s, {0});
    }
  }

  // The register on top of the stack of slot a before position k of block b.
  ghost function Def(f: Function, pl: Plan, a: Reg, b: Label, k: nat): Option<Reg>
    requires Shape(f) && ExactDoms(GraphOf(f), pl.doms) && b < |f.blocks| && k <= |f.blocks[b].body|
    decreases Rank(GraphOf(f), b), k
  {
    if k > 0 then
      var s := PushedBy(f, pl.lost, f.blocks[b].body[k - 1], a);
      if s.Some? then s else Def(f, pl, a, b, k - 1)
    else if (a, b) in pl.phi then Some(pl.phi[(a, b)])
    else if b == 0 then None
    else if (a, b) in pl.tops then pl.tops[(a, b)]
    else
      IdomRank(GraphOf(f), pl.doms, b);
      var d: Label := pl.doms[b];
      Def(f, pl, a, d, |f.blocks[d].body|)
  }

  ghost function ExitDef(f: Function, pl: Plan, a: Reg, b: Label): Option<Reg>
    requires Shape(f) && ExactDoms(GraphOf(f), pl.doms) && b < |f.blocks|
  {
    Def(f, pl, a, b, |f.blocks[b].body|)
  }

  // ----- What the pass asks of its input -----

  // A promoted slot is the address of a local or of a parameter's home, and is used only as
  // the address of loads, stores and memsets.
  ghost predicate Coherent(f: Function, slots: set<Reg>)
    requires Shape(f)
  {
    && (forall a :: a in slots ==> a < |f.nodes| && (f.nodes[a].Local? || f.nodes[a].ParamAddr?))
    && OnlyAddresses(f, slots)
  }

  ghost predicate OnlyAddresses(f: Function, slots: set<Reg>)
    requires Shape(f)
  {
    && (forall b: Label, k: nat :: b < |f.blocks| && k < |f.blocks[b].body| ==>
          NodeCoherent(f.nodes[f.blocks[b].body[k]], slots))
    && (forall b: Label, u :: b < |f.blocks| && u in EndUses(f.blocks[b].end) ==> u !in slots)
  }

  ghost predicate NodeCoherent(n: Node, slots: set<Reg>)
  {
    match n
    case Load(_) => true
    case Store(_, v) => v !in slots
    case Clear(_, v, z) => v !in slots && z !in slots
    case _ => forall u :: u in Uses(n) ==> u !in slots
  }

  ghost predicate Input(f: Function, slots: set<Reg>)
  {
    && Shape(f) && SsaForm(f) && Coherent(f, slots)
    && |f.nodes| > 0 && f.nodes[0] == Null
    && (forall r: Reg :: r < |f.nodes| ==> !f.nodes[r].Phi?)
  }

  // On every path to position k of b a store to slot a comes first.
  ghost predicate StoredBefore(f: Function, a: Reg, b: Label, k: nat)
    requires Shape(f) && b < |f.blocks| && k <= |f.blocks[b].body|
  {
    || (exists j :: 0 <= j < k && Stored(f, f.blocks[b].body[j], a).Some?)
    || forall p :: PathTo(GraphOf(f), p, b) ==> PassesStore(f, a, p)
  }

  ghost predicate PassesStore(f: Function, a: Reg, p: seq<Label>)
  {
    exists i :: 0 <= i < |p| - 1 && HasStore(f, a, p[i])
  }

  ghost predicate LoadsInitialised(f: Function, slots: set<Reg>)
    requires Shape(f)
  {
    forall b: Label, k :: b < |f.blocks| && 0 <= k < |f.blocks[b].body| && Reachable(GraphOf(f), b) ==>
      var n := f.nodes[f.blocks[b].body[k]];
      n.Load? && n.address in slots ==> StoredBefore(f, n.address, b, k)
  }

  // ----- What it produces -----

  ghost predicate IsDef(f: Function, pl: Plan, a: Reg, b: Label)
  {
    HasStore(f, a, b) || (a, b) in pl.phi
  }

  // Phis at the whole frontier of every definition of a, but for the entry ...
  ghost predicate PhiComplete(f: Function, pl: Plan, a: Reg)
  {
    forall x: Label, y: Label :: Reachable(GraphOf(f), x) && IsDef(f, pl, a, x) && InFrontier(GraphOf(f), x, y) && y > 0
      ==> (a, y) in pl.phi
  }

  // ... or a is stored in one block only and has no phis.
  ghost predicate SingleStore(f: Function, pl: Plan, a: Reg)
  {
    && (forall x: Label, y: Label :: HasStore(f, a, x) && HasStore(f, a, y) ==> x == y)
    && (forall b: Label :: (a, b) !in pl.phi)
  }

  ghost predicate PlanOk(f: Function, pl: Plan)
  {
    && Shape(f) && ExactDoms(GraphOf(f), pl.doms)
    && (forall a: Reg, b: Label :: (a, b) in pl.phi ==>
      a in pl.slots && 0 < b < |f.blocks| && pl.phi[(a, b)] >= |f.nodes|)
    && (forall x, y :: x in pl.phi && y in pl.phi && pl.phi[x] == pl.phi[y] ==> x == y)
  }

  ghost predicate Placed(f: Function, pl: Plan)
  {
    forall a :: a in pl.slots ==> PhiComplete(f, pl, a) || SingleStore(f, pl, a)
  }

  // The inputs of phi r for predecessor p all name t; there is one unless t is r itself.
  ghost predicate Selects(ins: seq<PhiInput>, p: Label, t: Reg, r: Reg)
  {
    && (forall i :: 0 <= i < |ins| && ins[i].from == p ==> ins[i].val == t)
    && (t == r || exists i :: 0 <= i < |ins| && ins[i].from == p)
  }

  // The node that takes the place of r.
  ghost predicate NodeRenamed(f: Function, nodes: seq<Node>, pl: Plan, b: Label, k: nat)
    requires PlanOk(f, pl) && b < |f.blocks| && k < |f.blocks[b].body| && |nodes| >= |f.nodes|
  {
    var r := f.blocks[b].body[k];
    match f.nodes[r]
    case Load(a) =>
      if a in pl.slots then
        var d := Def(f, pl, a, b, k);
        nodes[r].Pass? && (d.Some? ==> nodes[r].src == d.value)
      else nodes[r] == f.nodes[r]
    case Store(a, _) => nodes[r] == if a in pl.slots then Null else f.nodes[r]
    case Clear(a, _, _) => nodes[r] == if a in pl.slots then Pure(ZERO, []) else f.nodes[r]
    case _ => nodes[r] == if r in pl.slots then Null else f.nodes[r]
  }

  ghost predicate PhiRenamed(f: Function, nodes: seq<Node>, pl: Plan, a: Reg, b: Label)
    requires PlanOk(f, pl) && (a, b) in pl.phi
  {
    var r := pl.phi[(a, b)];
    && r < |nodes| && nodes[r].Phi?
    && forall p: Label :: Edge(GraphOf(f), p, b) && Reachable(GraphOf(f), p) && ExitDef(f, pl, a, p).Some? ==>
         Selects(nodes[r].inputs, p, ExitDef(f, pl, a, p).value, r)
  }

  // Block b of the result starts with the phis placed there.
  ghost predicate BlockRenamed(f: Function, h: Function, pl: Plan, pre: seq<seq<Reg>>, b: Label)
    requires PlanOk(f, pl) && b < |f.blocks|
  {
    && b < |pre| && b < |h.blocks|
    && h.blocks[b] == Block(pre[b] + f.blocks[b].body, f.blocks[b].end)
    && (forall a: Reg :: (a, b) in pl.phi ==> pl.phi[(a, b)] in pre[b])
    && (forall i :: 0 <= i < |pre[b]| ==> PlacedIn(pl, b, pre[b][i]))
  }

  // r is a phi placed in block b.
  ghost predicate PlacedIn(pl: Plan, b: Label, r: Reg)
  {
    exists a: Reg :: (a, b) in pl.phi && pl.phi[(a, b)] == r
  }

  // All but the inputs of the phis.
  ghost predicate Rewritten(f: Function, h: Function, pl: Plan, pre: seq<seq<Reg>>)
    requires PlanOk(f, pl)
  {
    && |h.blocks| == |f.blocks| == |pre| && |h.nodes| >= |f.nodes|
    && (forall b: Label :: b < |f.blocks| ==> BlockRenamed(f, h, pl, pre, b))
    && (forall b: Label, k: nat :: b < |f.blocks| && k < |f.blocks[b].body| ==> NodeRenamed(f, h.nodes, pl, b, k))
    && (forall x: (Reg, Label) :: x in pl.phi ==> pl.phi[x] < |h.nodes| && h.nodes[pl.phi[x]].Phi?)
  }

  ghost predicate Renamed(f: Function, h: Function, pl: Plan, pre: seq<seq<Reg>>)
    requires PlanOk(f, pl)
  {
    && Rewritten(f, h, pl, pre)
    && (forall a: Reg, b: Label :: (a, b) in pl.phi ==> PhiRenamed(f, h.nodes, pl, a, b))
  }

  // Node k of block b reads slot a.
  ghost predicate LoadAt(f: Function, a: Reg, b: Label, k: nat)
  {
    && b < |f.blocks| && k < |f.blocks[b].body| && f.blocks[b].body[k] < |f.nodes|
    && f.nodes[f.blocks[b].body[k]] == Load(a)
  }

  // All that is read is what the plan says, or junk where it says nothing.
  ghost predicate ReadsExactly(f: Function, h: Function, pl: Plan, junk: Reg)
    requires PlanOk(f, pl)
  {
    && (forall a: Reg, b: Label, k: nat :: a in pl.slots && LoadAt(f, a, b, k) ==>
         f.blocks[b].body[k] < |h.nodes| && h.nodes[f.blocks[b].body[k]] == Pass(Def(f, pl, a, b, k).GetOr(junk)))
    && (forall a: Reg, p: Label, b: Label :: (a, b) in pl.phi && Edge(GraphOf(f), p, b) ==>
         PhiReads(h, pl.phi[(a, b)], p, ExitDef(f, pl, a, p).GetOr(junk), OwnStore(f, a, p, b)))
  }

  // The phi r has t for p, or nothing when t is r itself. When p is its own block phase 1 may have
  // entered the block's last store twice, of which the renaming replaces the first.
  ghost predicate PhiReads(h: Function, r: Reg, p: Label, t: Reg, own: Option<Reg>)
  {
    r < |h.nodes| && h.nodes[r].Phi? && SelectsFirst(h.nodes[r].inputs, p, t, r, own)
  }

  ghost predicate SelectsFirst(ins: seq<PhiInput>, p: Label, t: Reg, r: Reg, own: Option<Reg>)
  {
    && (forall i :: 0 <= i < |ins| && ins[i].from == p ==> ins[i].val == t || Some(ins[i].val) == own)
    && ((exists i :: 0 <= i < |ins| && ins[i].from == p && ins[i].val == t)
        || (t == r && forall i :: 0 <= i < |ins| ==> ins[i].from != p))
  }

  ghost function OwnStore(f: Function, a: Reg, p: Label, b: Label): Option<Reg>
    requires Shape(f) && p < |f.blocks|
  {
    if p == b then LastStore(f, a, b) else None
  }
}
