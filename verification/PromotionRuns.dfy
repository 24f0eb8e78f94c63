// Promoting stack slots keeps the meaning of a function: its runs before and after go through
// the same blocks with the same world and the same register values, and each former load
// yields what the slot held in memory.

module PromotionRuns {
  import opened Cfg
  import opened Ir
  import opened Ssa
  import opened DomTree
  import opened Dominators
  import opened Frontiers
  import opened Promotion

  ghost predicate Setting(f: Function, pl: Plan)
  {
    Input(f, pl.slots) && PlanOk(f, pl) && Placed(f, pl) && pl.tops == map[] && !pl.lost
  }

  // ----- Facts about reaching definitions -----

  // The register that reaches a point is a phi of the slot or was computed before the point.
  ghost predicate DefKnown(f: Function, pl: Plan, a: Reg, r: Reg, b: Label, k: nat)
    requires Shape(f)
  {
    (exists c: Label :: (a, c) in pl.phi && pl.phi[(a, c)] == r) || (DefinedBefore(f, r, b, k) && r !in pl.slots)
  }

  lemma StoredUse(f: Function, pl: Plan, a: Reg, b: Label, k: nat)
    requires Input(f, pl.slots) && a in pl.slots && b < |f.blocks| && k < |f.blocks[b].body|
    requires Reachable(GraphOf(f), b) && Stored(f, f.blocks[b].body[k], a).Some?
    ensures DefinedBefore(f, Stored(f, f.blocks[b].body[k], a).value, b, k + 1)
    ensures Stored(f, f.blocks[b].body[k], a).value !in pl.slots
  {
    var r := f.blocks[b].body[k];
    var n := f.nodes[r];
    assert BlockDominated(f, b) && NodeDominated(f, b, k) && NodeCoherent(n, pl.slots);
    if n.Clear? {
      assert f.blocks[b].body[..k + 1][k] == r;
    } else {
      assert Stored(f, r, a).value in Uses(n);
      DefinedLater(f, Stored(f, r, a).value, b, k, k + 1);
    }
  }

  lemma KnownLater(f: Function, pl: Plan, a: Reg, r: Reg, b: Label, k: nat)
    requires Shape(f) && b < |f.blocks| && k < |f.blocks[b].body| && DefKnown(f, pl, a, r, b, k)
    ensures DefKnown(f, pl, a, r, b, k + 1)
  {
    hide Shape, DefinedBefore;
    if DefinedBefore(f, r, b, k) { DefinedLater(f, r, b, k, k + 1); }
  }

  lemma KnownBelow(f: Function, pl: Plan, a: Reg, r: Reg, d: Label, b: Label)
    requires Shape(f) && d < |f.blocks| && b < |f.blocks| && Sdom(GraphOf(f), d, b) && Reachable(GraphOf(f), b)
    requires DefKnown(f, pl, a, r, d, |f.blocks[d].body|)
    ensures DefKnown(f, pl, a, r, b, 0)
  {
    hide Shape, DefinedBefore, Sdom, Reachable;
    if DefinedBefore(f, r, d, |f.blocks[d].body|) { DefinedBelow(f, r, d, b); }
  }

  // Where the definition that reaches a point comes from.
  lemma DefFrom(f: Function, pl: Plan, a: Reg, b: Label, k: nat)
    requires Setting(f, pl) && b < |f.blocks| && k <= |f.blocks[b].body|
    ensures Input(f, pl.slots) && Shape(f) && ExactDoms(GraphOf(f), pl.doms)
    ensures k > 0 ==> f.blocks[b].body[k - 1] < |f.nodes|
    ensures k > 0 ==>
              var s := Stored(f, f.blocks[b].body[k - 1], a);
              Def(f, pl, a, b, k) == if s.Some? then s else Def(f, pl, a, b, k - 1)
    ensures k == 0 && (a, b) in pl.phi ==>
              var d := Def(f, pl, a, b, k);
              d.Some? && d.value == pl.phi[(a, b)] && DefKnown(f, pl, a, d.value, b, k)
    ensures k == 0 && (a, b) !in pl.phi && b == 0 ==> Def(f, pl, a, b, k).None?
    ensures k == 0 && (a, b) !in pl.phi && b > 0 ==>
              b < |pl.doms| && 0 <= pl.doms[b] < |f.blocks| &&
                Def(f, pl, a, b, k) == Def(f, pl, a, pl.doms[b], |f.blocks[pl.doms[b]].body|)
  {
    hide Placed, Coherent, SsaForm, Reachable, IsIdom, DefinedBefore;
  }

  lemma AboveReachable(g: Graph, D: Doms, b: Label)
    requires ExactDoms(g, D) && 0 < b < |g| && Reachable(g, b)
    ensures 0 <= D[b] < |g| && Rank(g, D[b]) < Rank(g, b) && Sdom(g, D[b], b) && Reachable(g, D[b])
  {
    hide Sdom, Dom, Reachable, Rank;
    IdomRank(g, D, b);
    assert IsIdom(g, D[b], b);
    IdomDominates(g, D[b], b);
  }

  lemma IdomDominates(g: Graph, d: Label, b: Label)
    requires IsIdom(g, d, b) && Reachable(g, b)
    ensures Sdom(g, d, b) && Reachable(g, d)
  {
    DomReachable(g, d, b);
  }

  lemma {:induction false} DefIsKnown(f: Function, pl: Plan, a: Reg, b: Label, k: nat)
    requires Setting(f, pl) && a in pl.slots && b < |f.blocks| && k <= |f.blocks[b].body|
    requires Reachable(GraphOf(f), b) && Def(f, pl, a, b, k).Some?
    ensures DefKnown(f, pl, a, Def(f, pl, a, b, k).value, b, k)
    decreases Rank(GraphOf(f), b), k
  {
    hide *;
    DefFrom(f, pl, a, b, k);
    if k > 0 {
      if Stored(f, f.blocks[b].body[k - 1], a).Some? {
        StoredUse(f, pl, a, b, k - 1);
        KnownHere(f, pl, a, Stored(f, f.blocks[b].body[k - 1], a).value, b, k);
      } else {
        DefIsKnown(f, pl, a, b, k - 1);
        KnownLater(f, pl, a, Def(f, pl, a, b, k).value, b, k - 1);
      }
    } else if (a, b) !in pl.phi {
      var d: Label := pl.doms[b];
      AboveReachable(GraphOf(f), pl.doms, b);
      DefIsKnown(f, pl, a, d, |f.blocks[d].body|);
      KnownBelow(f, pl, a, Def(f, pl, a, b, k).value, d, b);
    }
  }

  lemma KnownHere(f: Function, pl: Plan, a: Reg, r: Reg, b: Label, k: nat)
    requires Shape(f) && DefinedBefore(f, r, b, k) && r !in pl.slots
    ensures DefKnown(f, pl, a, r, b, k)
  {
  }

  // The definition that reaches position k is not the node at k.
  lemma DefNotOverwritten(f: Function, pl: Plan, a: Reg, b: Label, k: nat)
    requires Setting(f, pl) && a in pl.slots && b < |f.blocks| && k < |f.blocks[b].body|
    requires Reachable(GraphOf(f), b) && Def(f, pl, a, b, k).Some?
    ensures Def(f, pl, a, b, k).value != f.blocks[b].body[k]
  {
    DefIsKnown(f, pl, a, b, k);
    NotBeforeItself(f, b, k);
  }

  lemma {:induction false} DefNoStore(f: Function, pl: Plan, a: Reg, b: Label, k: nat)
    requires Shape(f) && ExactDoms(GraphOf(f), pl.doms) && b < |f.blocks| && k <= |f.blocks[b].body|
    requires !HasStore(f, a, b)
    ensures Def(f, pl, a, b, k) == Def(f, pl, a, b, 0)
  {
    if k > 0 {
      assert f.blocks[b].body[k - 1] < |f.nodes|;
      DefNoStore(f, pl, a, b, k - 1);
    }
  }

  // Between a predecessor p of b and the immediate dominator of b no definition is passed, so
  // what reaches the end of p is what reaches the end of the immediate dominator.
  lemma {:induction false} NoDefBetween(f: Function, pl: Plan, a: Reg, p: Label, b: Label, x: Label)
    requires Setting(f, pl) && b < |f.blocks| && p < |f.blocks| && 0 < b && x < |f.blocks|
    requires Reachable(GraphOf(f), p) && Edge(GraphOf(f), p, b)
    requires Dom(GraphOf(f), x, p) && Dom(GraphOf(f), pl.doms[b], x)
    requires forall y: Label :: y != pl.doms[b] && Dom(GraphOf(f), y, p) && Dom(GraphOf(f), pl.doms[b], y)
               ==> !IsDef(f, pl, a, y)
    ensures ExitDef(f, pl, a, x) == ExitDef(f, pl, a, pl.doms[b])
    decreases Rank(GraphOf(f), x)
  {
    var g := GraphOf(f);
    if x != pl.doms[b] {
      assert !IsDef(f, pl, a, x);
      DomReachable(g, x, p);
      if x == 0 { DomEntry(g, pl.doms[b]); }
      DefNoStore(f, pl, a, x, |f.blocks[x].body|);
      IdomRank(g, pl.doms, x);
      SdomIsDomOfIdom(g, pl.doms, pl.doms[b], x);
      var d: Label := pl.doms[x];
      assert IsIdom(g, d, x);
      DomTrans(g, d, x, p);
      NoDefBetween(f, pl, a, p, b, d);
    }
  }

  // A block on the way from p up to the immediate dominator has b in its frontier.
  lemma BetweenIsFrontier(g: Graph, D: Doms, p: Label, b: Label, x: Label)
    requires ExactDoms(g, D) && 0 < b < |g| && Reachable(g, p) && Edge(g, p, b)
    requires x != D[b] && Dom(g, x, p) && Dom(g, D[b], x)
    ensures Reachable(g, x) && InFrontier(g, x, b)
  {
    DomReachable(g, x, p);
    StepReachable(g, p, b);
    if Sdom(g, x, b) {
      SdomIsDomOfIdom(g, D, x, b);
      DomReachable(g, D[b], x);
      DomAntisym(g, x, D[b]);
    }
  }

  lemma BetweenNotDef(f: Function, pl: Plan, a: Reg, p: Label, b: Label, y: Label)
    requires Setting(f, pl) && a in pl.slots && b < |f.blocks| && p < |f.blocks| && b != 0
    requires Reachable(GraphOf(f), p) && Edge(GraphOf(f), p, b) && (a, b) !in pl.phi
    requires PhiComplete(f, pl, a) || Def(f, pl, a, b, 0).Some?
    requires y != pl.doms[b] && Dom(GraphOf(f), y, p) && Dom(GraphOf(f), pl.doms[b], y)
    ensures !IsDef(f, pl, a, y)
  {
    hide Input, ExactDoms, Def, Reachable, InFrontier, Dom;
    var g := GraphOf(f);
    BetweenIsFrontier(g, pl.doms, p, b, y);
    if !PhiComplete(f, pl, a) && HasStore(f, a, y) {
      EntryDefSource(f, pl, a, b, p, y);
    }
  }

  // With a single store block, that block cannot lie strictly below the immediate dominator
  // of a block its definition reaches.
  lemma EntryDefSource(f: Function, pl: Plan, a: Reg, b: Label, p: Label, y: Label)
    requires Setting(f, pl) && b < |f.blocks| && b != 0 && Reachable(GraphOf(f), p) && Edge(GraphOf(f), p, b)
    requires SingleStore(f, pl, a) && Def(f, pl, a, b, 0).Some?
    requires Dom(GraphOf(f), y, p) && Dom(GraphOf(f), pl.doms[b], y)
    requires y != pl.doms[b]
    ensures !HasStore(f, a, y)
  {
    var g := GraphOf(f);
    var d: Label := pl.doms[b];
    StepReachable(g, p, b);
    assert IsIdom(g, d, b);
    DomReachable(g, d, b);
    IdomRank(g, pl.doms, b);
    var s := DefSource(f, pl, a, d, |f.blocks[d].body|);
    if HasStore(f, a, y) {
      DomAntisym(g, y, d);
    }
  }

  // Without a phi, what reaches the start of b has reached the end of its predecessors.
  lemma ReachesFromPred(f: Function, pl: Plan, a: Reg, p: Label, b: Label)
    requires Setting(f, pl) && a in pl.slots && b < |f.blocks| && p < |f.blocks| && b != 0
    requires Reachable(GraphOf(f), p) && Edge(GraphOf(f), p, b) && (a, b) !in pl.phi
    requires PhiComplete(f, pl, a) || Def(f, pl, a, b, 0).Some?
    ensures ExitDef(f, pl, a, p) == Def(f, pl, a, b, 0)
  {
    var g := GraphOf(f);
    var d: Label := pl.doms[b];
    StepReachable(g, p, b);
    assert IsIdom(g, d, b);
    SdomPred(g, d, p, b);
    forall y: Label | y != d && Dom(g, y, p) && Dom(g, d, y) ensures !IsDef(f, pl, a, y) {
      BetweenNotDef(f, pl, a, p, b, y);
    }
    hide IsDef, Input, Placed;
    assert Dom(g, p, p);
    NoDefBetween(f, pl, a, p, b, p);
  }

  // Where the definition of a slot without phis comes from: a store in a dominating block.
  lemma {:induction false} DefSource(f: Function, pl: Plan, a: Reg, b: Label, k: nat) returns (s: Label)
    requires Setting(f, pl) && b < |f.blocks| && k <= |f.blocks[b].body| && Reachable(GraphOf(f), b)
    requires SingleStore(f, pl, a) && Def(f, pl, a, b, k).Some?
    ensures HasStore(f, a, s) && Dom(GraphOf(f), s, b)
    decreases Rank(GraphOf(f), b), k
  {
    var g := GraphOf(f);
    if k > 0 {
      if Stored(f, f.blocks[b].body[k - 1], a).Some? {
        s := b;
      } else {
        s := DefSource(f, pl, a, b, k - 1);
      }
    } else {
      IdomRank(g, pl.doms, b);
      var d: Label := pl.doms[b];
      DomReachable(g, d, b);
      s := DefSource(f, pl, a, d, |f.blocks[d].body|);
      DomTrans(g, s, d, b);
    }
  }

  // A store in a strictly dominating block reaches b.
  lemma {:induction false} StoreReaches(f: Function, pl: Plan, a: Reg, s: Label, b: Label)
    requires Setting(f, pl) && b < |f.blocks| && Reachable(GraphOf(f), b)
    requires HasStore(f, a, s) && Sdom(GraphOf(f), s, b)
    ensures Def(f, pl, a, b, 0).Some?
    decreases Rank(GraphOf(f), b)
  {
    hide HasStore, Stored, Reachable, Dom;
    var g := GraphOf(f);
    if b == 0 { DomEntry(g, s); }
    if (a, b) !in pl.phi {
      IdomRank(g, pl.doms, b);
      var d: Label := pl.doms[b];
      SdomIsDomOfIdom(g, pl.doms, s, b);
      DomReachable(g, d, b);
      if s != d {
        StoreReaches(f, pl, a, s, d);
        DefStaysSome(f, pl, a, d, |f.blocks[d].body|);
      } else {
        StoreStays(f, pl, a, d);
      }
    }
  }

  lemma StoreStays(f: Function, pl: Plan, a: Reg, d: Label)
    requires Shape(f) && ExactDoms(GraphOf(f), pl.doms) && d < |f.blocks| && HasStore(f, a, d) && !pl.lost
    ensures Def(f, pl, a, d, |f.blocks[d].body|).Some?
  {
    var k :| 0 <= k < |f.blocks[d].body| && Stored(f, f.blocks[d].body[k], a).Some?;
    assert Def(f, pl, a, d, k + 1).Some?;
    DefStaysSome2(f, pl, a, d, k + 1, |f.blocks[d].body|);
  }

  lemma DefStaysSome(f: Function, pl: Plan, a: Reg, b: Label, k: nat)
    requires Shape(f) && ExactDoms(GraphOf(f), pl.doms) && b < |f.blocks| && k <= |f.blocks[b].body|
    requires Def(f, pl, a, b, 0).Some?
    ensures Def(f, pl, a, b, k).Some?
  {
    DefStaysSome2(f, pl, a, b, 0, k);
  }

  lemma {:induction false} DefStaysSome2(f: Function, pl: Plan, a: Reg, b: Label, j: nat, k: nat)
    requires Shape(f) && ExactDoms(GraphOf(f), pl.doms) && b < |f.blocks| && j <= k <= |f.blocks[b].body|
    requires Def(f, pl, a, b, j).Some?
    ensures Def(f, pl, a, b, k).Some?
  {
    if j < k { DefStaysSome2(f, pl, a, b, j, k - 1); }
  }

  // ----- One node -----

  // Same world, same value in every register but the promoted slots' own.
  ghost predicate Agree<V, W>(sem: Sem<V, W>, f: Function, pl: Plan, st: State<V, W>, tt: State<V, W>)
  {
    && st.world == tt.world
    && forall r: Reg :: r < |f.nodes| && r !in pl.slots ==> Val(sem, st, r) == Val(sem, tt, r)
  }

  // Where every path has stored to the slot, the register that reaches the point holds what the
  // slot holds in memory.
  ghost predicate SlotOk<V, W>(sem: Sem<V, W>, f: Function, pl: Plan, a: Reg, b: Label, k: nat,
                               st: State<V, W>, tt: State<V, W>)
    requires Shape(f) && ExactDoms(GraphOf(f), pl.doms) && b < |f.blocks| && k <= |f.blocks[b].body|
  {
    StoredBefore(f, a, b, k) ==>
      a in st.slots && Def(f, pl, a, b, k).Some? && Val(sem, tt, Def(f, pl, a, b, k).value) == st.slots[a]
  }

  ghost predicate Sim<V, W>(sem: Sem<V, W>, f: Function, pl: Plan, b: Label, k: nat,
                            st: State<V, W>, tt: State<V, W>)
    requires Shape(f) && ExactDoms(GraphOf(f), pl.doms) && b < |f.blocks| && k <= |f.blocks[b].body|
  {
    && Agree(sem, f, pl, st, tt)
    && forall a :: a in pl.slots ==> SlotOk(sem, f, pl, a, b, k, st, tt)
  }

  lemma UseInRange(f: Function, u: Reg, b: Label, k: nat)
    requires Shape(f) && DefinedBefore(f, u, b, k)
    ensures u < |f.nodes|
  {
    if u in f.blocks[b].body[..k] {
      var j :| 0 <= j < k && f.blocks[b].body[j] == u;
    } else {
      var d: Label :| d < |f.blocks| && Sdom(GraphOf(f), d, b) && u in f.blocks[d].body;
      var j :| 0 <= j < |f.blocks[d].body| && f.blocks[d].body[j] == u;
    }
  }

  lemma NodeUses(f: Function, pl: Plan, b: Label, k: nat)
    requires Input(f, pl.slots) && b < |f.blocks| && k < |f.blocks[b].body| && Reachable(GraphOf(f), b)
    ensures f.blocks[b].body[k] < |f.nodes|
    ensures !f.nodes[f.blocks[b].body[k]].Phi?
    ensures NodeCoherent(f.nodes[f.blocks[b].body[k]], pl.slots)
    ensures forall u :: u in Uses(f.nodes[f.blocks[b].body[k]]) ==> u < |f.nodes|
  {
    var n := f.nodes[f.blocks[b].body[k]];
    assert BlockDominated(f, b) && NodeDominated(f, b, k);
    forall u | u in Uses(n) ensures u < |f.nodes| {
      UseInRange(f, u, b, k);
    }
  }

  lemma ValsAgree<V, W>(sem: Sem<V, W>, f: Function, pl: Plan, args: seq<Reg>, st: State<V, W>, tt: State<V, W>)
    requires Agree(sem, f, pl, st, tt) && forall u :: u in args ==> u < |f.nodes| && u !in pl.slots
    ensures Vals(sem, st, args) == Vals(sem, tt, args)
  {
    forall i | 0 <= i < |args| ensures Vals(sem, st, args)[i] == Vals(sem, tt, args)[i] {
      assert args[i] in args;
    }
  }

  // If the node is a promoted load, every path has stored to its slot.
  ghost predicate LoadReady(f: Function, pl: Plan, b: Label, k: nat)
    requires Shape(f) && b < |f.blocks| && k < |f.blocks[b].body|
  {
    var n := f.nodes[f.blocks[b].body[k]];
    n.Load? && n.address in pl.slots ==> StoredBefore(f, n.address, b, k)
  }

  // A node that the pass leaves alone does the same in both programs.
  lemma SameNodeAgrees<V, W>(sem: Sem<V, W>, f: Function, pl: Plan, r: Reg, n: Node, st: State<V, W>, tt: State<V, W>)
    requires r < |f.nodes| && r !in pl.slots && !n.Phi? && NodeCoherent(n, pl.slots)
    requires Agree(sem, f, pl, st, tt) && forall u :: u in Uses(n) ==> u < |f.nodes|
    requires n.Load? || n.Store? || n.Clear? ==> n.address !in pl.slots
    ensures Agree(sem, f, pl, ExecNode(sem, pl.slots, r, n, st), ExecNode(sem, {}, r, n, tt))
    ensures ExecNode(sem, pl.slots, r, n, st).slots == st.slots
  {
    match n {
      case Pure(_, args) =>
        assert Uses(n) == args;
        ValsAgree(sem, f, pl, Uses(n), st, tt);
      case Effect(_, args) =>
        assert Uses(n) == args;
        ValsAgree(sem, f, pl, Uses(n), st, tt);
      case Pass(s) => assert s in Uses(n);
      case Local =>
      case Null =>
      case _ => SameAccessAgrees(sem, f, pl, r, n, st, tt);
    }
  }

  lemma SameAccessAgrees<V, W>(sem: Sem<V, W>, f: Function, pl: Plan, r: Reg, n: Node, st: State<V, W>, tt: State<V, W>)
    requires r < |f.nodes| && r !in pl.slots && NodeCoherent(n, pl.slots)
    requires n.Load? || n.Store? || n.Clear? || n.ParamAddr?
    requires Agree(sem, f, pl, st, tt) && forall u :: u in Uses(n) ==> u < |f.nodes|
    requires n.Load? || n.Store? || n.Clear? ==> n.address !in pl.slots
    ensures Agree(sem, f, pl, ExecNode(sem, pl.slots, r, n, st), ExecNode(sem, {}, r, n, tt))
    ensures ExecNode(sem, pl.slots, r, n, st).slots == st.slots
  {
    match n {
      case Store(a, v) => assert a in Uses(n) && v in Uses(n);
      case Clear(a, v, z) => assert a in Uses(n) && v in Uses(n) && z in Uses(n);
      case Load(a) => assert a in Uses(n);
      case ParamAddr(p) => assert p in Uses(n);
    }
  }

  // A node assigns no register but its own.
  lemma OtherRegs<V, W>(sem: Sem<V, W>, promoted: set<Reg>, r: Reg, n: Node, st: State<V, W>, q: Reg)
    requires q != r
    ensures Val(sem, ExecNode(sem, promoted, r, n, st), q) == Val(sem, st, q)
  {
  }

  lemma NodeAgrees<V, W>(sem: Sem<V, W>, f: Function, h: Function, pl: Plan, b: Label, k: nat,
                         st: State<V, W>, tt: State<V, W>)
    requires Setting(f, pl) && |h.nodes| >= |f.nodes| && b < |f.blocks| && k < |f.blocks[b].body|
    requires Reachable(GraphOf(f), b) && NodeRenamed(f, h.nodes, pl, b, k)
    requires Sim(sem, f, pl, b, k, st, tt) && LoadReady(f, pl, b, k)
    ensures var r := f.blocks[b].body[k];
            Agree(sem, f, pl, ExecNode(sem, pl.slots, r, f.nodes[r], st), ExecNode(sem, {}, r, h.nodes[r], tt))
  {
    hide Def, ExactDoms, Input, Placed;
    var r := f.blocks[b].body[k];
    var n := f.nodes[r];
    NodeUses(f, pl, b, k);
    if n.Load? && n.address in pl.slots {
      assert SlotOk(sem, f, pl, n.address, b, k, st, tt);
    } else if n.Store? && n.address in pl.slots {
    } else if n.Clear? && n.address in pl.slots {
      ValsAgree(sem, f, pl, [], st, tt);
    } else if r in pl.slots {
      SlotIsAddress(f, pl, r);
    } else {
      SameNodeAgrees(sem, f, pl, r, n, st, tt);
    }
  }

  lemma SlotIsAddress(f: Function, pl: Plan, r: Reg)
    requires Input(f, pl.slots) && r in pl.slots
    ensures r < |f.nodes| && (f.nodes[r].Local? || f.nodes[r].ParamAddr?)
  {
  }

  lemma NodeSlot<V, W>(sem: Sem<V, W>, f: Function, h: Function, pl: Plan, b: Label, k: nat, a: Reg,
                       st: State<V, W>, tt: State<V, W>)
    requires Setting(f, pl) && |h.nodes| >= |f.nodes| && b < |f.blocks| && k < |f.blocks[b].body| && a in pl.slots
    requires Reachable(GraphOf(f), b) && NodeRenamed(f, h.nodes, pl, b, k)
    requires Sim(sem, f, pl, b, k, st, tt)
    ensures var r := f.blocks[b].body[k];
            SlotOk(sem, f, pl, a, b, k + 1, ExecNode(sem, pl.slots, r, f.nodes[r], st),
                   ExecNode(sem, {}, r, h.nodes[r], tt))
  {
    var r := f.blocks[b].body[k];
    NodeUses(f, pl, b, k);
    DefNext(f, pl, a, b, k);
    if Stored(f, r, a).Some? {
      StoredUse(f, pl, a, b, k);
      UseInRange(f, Stored(f, r, a).value, b, k + 1);
      hide Def, ExactDoms, Input, Placed, StoredBefore;
      SlotStored(sem, f, h, pl, b, k, a, st, tt);
    } else if StoredBefore(f, a, b, k + 1) {
      BeforeToo(f, a, b, k);
      assert SlotOk(sem, f, pl, a, b, k, st, tt);
      DefNotOverwritten(f, pl, a, b, k);
      hide Def, ExactDoms, Input, Placed, StoredBefore;
      SlotKept(sem, f, h, pl, b, k, a, st, tt);
    }
  }

  lemma BeforeToo(f: Function, a: Reg, b: Label, k: nat)
    requires Shape(f) && b < |f.blocks| && k < |f.blocks[b].body|
    requires StoredBefore(f, a, b, k + 1) && Stored(f, f.blocks[b].body[k], a).None?
    ensures StoredBefore(f, a, b, k)
  {
  }

  lemma DefNext(f: Function, pl: Plan, a: Reg, b: Label, k: nat)
    requires Shape(f) && ExactDoms(GraphOf(f), pl.doms) && b < |f.blocks| && k < |f.blocks[b].body| && !pl.lost
    ensures var s := Stored(f, f.blocks[b].body[k], a);
            Def(f, pl, a, b, k + 1) == if s.Some? then s else Def(f, pl, a, b, k)
  {
  }

  lemma SlotStored<V, W>(sem: Sem<V, W>, f: Function, h: Function, pl: Plan, b: Label, k: nat, a: Reg,
                         st: State<V, W>, tt: State<V, W>)
    requires PlanOk(f, pl) && |h.nodes| >= |f.nodes| && b < |f.blocks| && k < |f.blocks[b].body| && a in pl.slots
    requires NodeRenamed(f, h.nodes, pl, b, k) && Agree(sem, f, pl, st, tt)
    requires Stored(f, f.blocks[b].body[k], a).Some?
    requires Def(f, pl, a, b, k + 1) == Stored(f, f.blocks[b].body[k], a)
    requires Stored(f, f.blocks[b].body[k], a).value !in pl.slots
    requires Stored(f, f.blocks[b].body[k], a).value < |f.nodes|
    ensures var r := f.blocks[b].body[k];
            SlotOk(sem, f, pl, a, b, k + 1, ExecNode(sem, pl.slots, r, f.nodes[r], st),
                   ExecNode(sem, {}, r, h.nodes[r], tt))
  {
    hide Def, ExactDoms, StoredBefore;
  }

  lemma SlotKept<V, W>(sem: Sem<V, W>, f: Function, h: Function, pl: Plan, b: Label, k: nat, a: Reg,
                       st: State<V, W>, tt: State<V, W>)
    requires PlanOk(f, pl) && |h.nodes| >= |f.nodes| && b < |f.blocks| && k < |f.blocks[b].body| && a in pl.slots
    requires SlotOk(sem, f, pl, a, b, k, st, tt) && StoredBefore(f, a, b, k)
    requires Stored(f, f.blocks[b].body[k], a).None?
    requires Def(f, pl, a, b, k + 1) == Def(f, pl, a, b, k)
    requires Def(f, pl, a, b, k).Some? ==> Def(f, pl, a, b, k).value != f.blocks[b].body[k]
    ensures var r := f.blocks[b].body[k];
            SlotOk(sem, f, pl, a, b, k + 1, ExecNode(sem, pl.slots, r, f.nodes[r], st),
                   ExecNode(sem, {}, r, h.nodes[r], tt))
  {
    hide Def, ExactDoms, StoredBefore;
    var r := f.blocks[b].body[k];
    OtherSlot(sem, f, pl, r, a, st);
    OtherRegs(sem, {}, r, h.nodes[r], tt, Def(f, pl, a, b, k).value);
  }

  lemma OtherSlot<V, W>(sem: Sem<V, W>, f: Function, pl: Plan, r: Reg, a: Reg, st: State<V, W>)
    requires r < |f.nodes| && Stored(f, r, a).None?
    ensures var su := ExecNode(sem, pl.slots, r, f.nodes[r], st);
            (a in su.slots <==> a in st.slots) && (a in st.slots ==> su.slots[a] == st.slots[a])
  {
  }

  // One node, executed in both programs.
  lemma NodeSim<V, W>(sem: Sem<V, W>, f: Function, h: Function, pl: Plan, b: Label, k: nat,
                      st: State<V, W>, tt: State<V, W>)
    requires Setting(f, pl) && |h.nodes| >= |f.nodes| && b < |f.blocks| && k < |f.blocks[b].body|
    requires Reachable(GraphOf(f), b) && NodeRenamed(f, h.nodes, pl, b, k)
    requires Sim(sem, f, pl, b, k, st, tt) && LoadReady(f, pl, b, k)
    ensures var r := f.blocks[b].body[k];
            Sim(sem, f, pl, b, k + 1, ExecNode(sem, pl.slots, r, f.nodes[r], st), ExecNode(sem, {}, r, h.nodes[r], tt))
  {
    hide Def, ExactDoms, Input, Placed, SlotOk, Agree, NodeRenamed, LoadReady;
    var r := f.blocks[b].body[k];
    NodeAgrees(sem, f, h, pl, b, k, st, tt);
    forall a | a in pl.slots
      ensures SlotOk(sem, f, pl, a, b, k + 1, ExecNode(sem, pl.slots, r, f.nodes[r], st),
                ExecNode(sem, {}, r, h.nodes[r], tt))
    {
      NodeSlot(sem, f, h, pl, b, k, a, st, tt);
    }
  }

  // ----- Arriving at a block -----

  lemma {:induction false} PhiTakes<V, W>(sem: Sem<V, W>, r: Reg, ins: seq<PhiInput>, p: Label, t: Reg, st: State<V, W>)
    requires Selects(ins, p, t, r)
    ensures PhiVal(sem, r, ins, p, st) == Val(sem, st, t)
  {
    if ins != [] && ins[|ins| - 1].from != p {
      PhiTakes(sem, r, ins[..|ins| - 1], p, t, st);
    }
  }

  lemma EntersPlain<V, W>(sem: Sem<V, W>, f: Function, slots: set<Reg>, body: seq<Reg>, from: Label, st: State<V, W>)
    requires Input(f, slots)
    ensures EnterBlock(sem, f, body, from, st) == st
  {
    var m := PhiMoves(sem, f, body, from, st);
    assert forall r :: !IsPhiAt(f, body, r);
    assert m.Keys == {};
    assert st.regs + m == st.regs;
  }

  // The phis of the result in block b are those the plan placed there.
  lemma ResultPhis(f: Function, h: Function, pl: Plan, pre: seq<seq<Reg>>, b: Label, r: Reg)
    requires Setting(f, pl) && Renamed(f, h, pl, pre) && b < |f.blocks|
    requires IsPhiAt(h, h.blocks[b].body, r)
    ensures PlacedIn(pl, b, r)
  {
    assert BlockRenamed(f, h, pl, pre, b);
    if r in f.blocks[b].body {
      BodyHasNoPhi(f, h, pl, pre, b, r);
    }
    assert r in pre[b];
    var i :| 0 <= i < |pre[b]| && pre[b][i] == r;
  }

  lemma BodyHasNoPhi(f: Function, h: Function, pl: Plan, pre: seq<seq<Reg>>, b: Label, r: Reg)
    requires Setting(f, pl) && Renamed(f, h, pl, pre) && b < |f.blocks| && r in f.blocks[b].body
    ensures r < |h.nodes| && !h.nodes[r].Phi?
  {
    var k: nat :| k < |f.blocks[b].body| && f.blocks[b].body[k] == r;
    assert NodeRenamed(f, h.nodes, pl, b, k) && !f.nodes[r].Phi?;
  }

  lemma ArriveAgrees<V, W>(sem: Sem<V, W>, f: Function, h: Function, pl: Plan, pre: seq<seq<Reg>>, p: Label, b: Label,
                           st: State<V, W>, tt: State<V, W>)
    requires Setting(f, pl) && Renamed(f, h, pl, pre) && b < |f.blocks| && Agree(sem, f, pl, st, tt)
    ensures Agree(sem, f, pl, st, EnterBlock(sem, h, h.blocks[b].body, p, tt))
  {
    var tu := EnterBlock(sem, h, h.blocks[b].body, p, tt);
    forall r: Reg | r < |f.nodes| && r !in pl.slots ensures Val(sem, st, r) == Val(sem, tu, r) {
      if IsPhiAt(h, h.blocks[b].body, r) {
        ResultPhis(f, h, pl, pre, b, r);
      }
    }
  }

  lemma ArriveKeeps<V, W>(sem: Sem<V, W>, f: Function, h: Function, pl: Plan, pre: seq<seq<Reg>>, p: Label, b: Label,
                          a: Reg, r: Reg, tt: State<V, W>)
    requires Setting(f, pl) && Renamed(f, h, pl, pre) && b < |f.blocks| && (a, b) !in pl.phi
    requires r < |f.nodes| || exists c: Label :: (a, c) in pl.phi && pl.phi[(a, c)] == r
    ensures Val(sem, EnterBlock(sem, h, h.blocks[b].body, p, tt), r) == Val(sem, tt, r)
  {
    if IsPhiAt(h, h.blocks[b].body, r) {
      ResultPhis(f, h, pl, pre, b, r);
    }
  }

  lemma ArrivePhi<V, W>(sem: Sem<V, W>, f: Function, h: Function, pl: Plan, pre: seq<seq<Reg>>, p: Label, b: Label,
                        a: Reg, tt: State<V, W>)
    requires Setting(f, pl) && Renamed(f, h, pl, pre) && b < |f.blocks| && (a, b) in pl.phi
    requires p < |f.blocks| && Reachable(GraphOf(f), p) && Edge(GraphOf(f), p, b) && ExitDef(f, pl, a, p).Some?
    ensures Val(sem, EnterBlock(sem, h, h.blocks[b].body, p, tt), pl.phi[(a, b)]) ==
            Val(sem, tt, ExitDef(f, pl, a, p).value)
  {
    hide ExitDef;
    var r := pl.phi[(a, b)];
    assert PhiRenamed(f, h.nodes, pl, a, b) && BlockRenamed(f, h, pl, pre, b);
    assert IsPhiAt(h, h.blocks[b].body, r);
    PhiTakes(sem, r, h.nodes[r].inputs, p, ExitDef(f, pl, a, p).value, tt);
  }

  lemma ArriveSlot<V, W>(sem: Sem<V, W>, f: Function, h: Function, pl: Plan, pre: seq<seq<Reg>>, p: Label, b: Label,
                         a: Reg, st: State<V, W>, tt: State<V, W>)
    requires Setting(f, pl) && Renamed(f, h, pl, pre) && b < |f.blocks| && a in pl.slots && b != 0
    requires p < |f.blocks| && Reachable(GraphOf(f), p) && Edge(GraphOf(f), p, b)
    requires SlotOk(sem, f, pl, a, p, |f.blocks[p].body|, st, tt)
    ensures SlotOk(sem, f, pl, a, b, 0, st, EnterBlock(sem, h, h.blocks[b].body, p, tt))
  {
    StepReachable(GraphOf(f), p, b);
    if StoredBefore(f, a, b, 0) {
      StoredAtPred(f, a, p, b);
      if (a, b) in pl.phi {
        ArrivePhi(sem, f, h, pl, pre, p, b, a, tt);
      } else {
        if !PhiComplete(f, pl, a) { SingleReaches(f, pl, a, b); }
        ReachesFromPred(f, pl, a, p, b);
        var r := Def(f, pl, a, b, 0).value;
        DefIsKnown(f, pl, a, b, 0);
        if DefinedBefore(f, r, b, 0) { UseInRange(f, r, b, 0); }
        ArriveKeeps(sem, f, h, pl, pre, p, b, a, r, tt);
      }
    }
  }

  // What every path to b has stored to, every path through a predecessor has.
  lemma StoredAtPred(f: Function, a: Reg, p: Label, b: Label)
    requires Shape(f) && b < |f.blocks| && p < |f.blocks| && Edge(GraphOf(f), p, b) && StoredBefore(f, a, b, 0)
    ensures StoredBefore(f, a, p, |f.blocks[p].body|)
  {
    if !HasStore(f, a, p) {
      forall q | PathTo(GraphOf(f), q, p) ensures PassesStore(f, a, q) {
        ExtendPath(GraphOf(f), q, p, b);
        assert PassesStore(f, a, q + [b]);
        var i :| 0 <= i < |q + [b]| - 1 && HasStore(f, a, (q + [b])[i]);
        assert i < |q| - 1;
      }
    }
  }

  // No path to the entry has stored to anything.
  lemma NothingAtEntry(f: Function, a: Reg)
    requires Shape(f)
    ensures !StoredBefore(f, a, 0, 0)
  {
    assert PathTo(GraphOf(f), [0], 0);
    assert !PassesStore(f, a, [0]);
  }

  // From the end of p to the start of b, along an edge.
  lemma ArriveSim<V, W>(sem: Sem<V, W>, f: Function, h: Function, pl: Plan, pre: seq<seq<Reg>>, p: Label, b: Label,
                        st: State<V, W>, tt: State<V, W>)
    requires Setting(f, pl) && Renamed(f, h, pl, pre) && b < |f.blocks|
    requires p < |f.blocks| && Reachable(GraphOf(f), p) && Edge(GraphOf(f), p, b)
    requires Sim(sem, f, pl, p, |f.blocks[p].body|, st, tt)
    ensures Sim(sem, f, pl, b, 0, st, EnterBlock(sem, h, h.blocks[b].body, p, tt))
  {
    var tu := EnterBlock(sem, h, h.blocks[b].body, p, tt);
    hide Def, ExactDoms, Input, Placed, Agree, Renamed, StoredBefore;
    ArriveAgrees(sem, f, h, pl, pre, p, b, st, tt);
    forall a | a in pl.slots ensures SlotOk(sem, f, pl, a, b, 0, st, tu) {
      if b == 0 {
        NothingAtEntry(f, a);
        assert SlotOk(sem, f, pl, a, 0, 0, st, tu);
      } else {
        ArriveSlot(sem, f, h, pl, pre, p, b, a, st, tt);
      }
    }
  }

  // ----- A whole block -----

  // With one store block, that block lies on every path before b, so its value reaches b.
  lemma SingleReaches(f: Function, pl: Plan, a: Reg, b: Label)
    requires Setting(f, pl) && a in pl.slots && b < |f.blocks| && Reachable(GraphOf(f), b)
    requires SingleStore(f, pl, a)
    requires forall p :: PathTo(GraphOf(f), p, b) ==> PassesStore(f, a, p)
    ensures Def(f, pl, a, b, 0).Some?
  {
    hide HasStore, ExactDoms, Input, Placed, Def;
    var g := GraphOf(f);
    var p0 :| PathTo(g, p0, b);
    var i0 := FirstOf(p0, b, b);
    PrefixPath(g, p0, b, i0);
    var q := p0[..i0 + 1];
    var i :| 0 <= i < |q| - 1 && HasStore(f, a, q[i]);
    var s := q[i];
    assert s != b by { assert q[i] in p0[..i0]; }
    forall p | PathTo(g, p, b) ensures s in p {
      var j :| 0 <= j < |p| - 1 && HasStore(f, a, p[j]);
      assert p[j] == s;
    }
    StoreReaches(f, pl, a, s, b);
  }

  lemma ExecNone<V, W>(sem: Sem<V, W>, promoted: set<Reg>, f: Function, body: seq<Reg>, st: State<V, W>)
    requires forall i :: 0 <= i < |body| ==> body[i] < |f.nodes|
    ensures ExecBody(sem, promoted, f, body, 0, st) == st
  {
  }

  // Position k of block b in both programs.
  lemma SamePosition(f: Function, h: Function, pl: Plan, pre: seq<seq<Reg>>, b: Label, k: nat)
    requires PlanOk(f, pl) && Renamed(f, h, pl, pre) && b < |f.blocks| && k < |f.blocks[b].body|
    ensures |h.blocks[b].body| == |pre[b]| + |f.blocks[b].body|
    ensures h.blocks[b].body[|pre[b]| + k] == f.blocks[b].body[k]
    ensures NodeRenamed(f, h.nodes, pl, b, k)
  {
    hide NodeRenamed, PhiRenamed;
    assert BlockRenamed(f, h, pl, pre, b);
  }

  // Node k of b in both programs.
  lemma BodyStep<V, W>(sem: Sem<V, W>, f: Function, h: Function, pl: Plan, pre: seq<seq<Reg>>, b: Label, k: nat,
                       su: State<V, W>, tu: State<V, W>)
    requires Setting(f, pl) && Renamed(f, h, pl, pre) && Shape(h) && LoadsInitialised(f, pl.slots)
    requires b < |f.blocks| && k < |f.blocks[b].body| && Reachable(GraphOf(f), b)
    requires Sim(sem, f, pl, b, k, su, tu)
    ensures |h.blocks[b].body| == |pre[b]| + |f.blocks[b].body|
    ensures h.blocks[b].body[|pre[b]| + k] == f.blocks[b].body[k]
    ensures var r := f.blocks[b].body[k];
            Sim(sem, f, pl, b, k + 1, ExecNode(sem, pl.slots, r, f.nodes[r], su), ExecNode(sem, {}, r, h.nodes[r], tu))
  {
    SamePosition(f, h, pl, pre, b, k);
    hide Input, ExactDoms, Placed, Sim, NodeRenamed, ExecNode, StoredBefore;
    assert LoadReady(f, pl, b, k);
    NodeSim(sem, f, h, pl, b, k, su, tu);
  }

  // The k nodes of b, after the phis in front of them in the result.
  lemma {:induction false} BodySim<V, W>(sem: Sem<V, W>, f: Function, h: Function, pl: Plan, pre: seq<seq<Reg>>,
                                         b: Label, k: nat, st: State<V, W>, tt: State<V, W>)
    requires Setting(f, pl) && Renamed(f, h, pl, pre) && Shape(h) && LoadsInitialised(f, pl.slots)
    requires b < |f.blocks| && k <= |f.blocks[b].body| && Reachable(GraphOf(f), b)
    requires Sim(sem, f, pl, b, 0, st, tt)
    requires |h.blocks[b].body| == |pre[b]| + |f.blocks[b].body|
    ensures Sim(sem, f, pl, b, k, ExecBody(sem, pl.slots, f, f.blocks[b].body, k, st),
                ExecBody(sem, {}, h, h.blocks[b].body, |pre[b]| + k, tt))
  {
    hide Input, ExactDoms, Placed, Sim, ExecNode, LoadsInitialised, NodeRenamed, PhiRenamed, BlockRenamed;
    if k == 0 {
      PhisSkipped(sem, f, h, pl, pre, b, |pre[b]|, tt);
      ExecNone(sem, pl.slots, f, f.blocks[b].body, st);
    } else {
      BodySim(sem, f, h, pl, pre, b, k - 1, st, tt);
      var su := ExecBody(sem, pl.slots, f, f.blocks[b].body, k - 1, st);
      var tu := ExecBody(sem, {}, h, h.blocks[b].body, |pre[b]| + (k - 1), tt);
      BodyStep(sem, f, h, pl, pre, b, k - 1, su, tu);
      ExecOne(sem, {}, h, h.blocks[b].body, |pre[b]| + k, tt);
      ExecOne(sem, pl.slots, f, f.blocks[b].body, k, st);
    }
  }

  lemma ExecOne<V, W>(sem: Sem<V, W>, promoted: set<Reg>, f: Function, body: seq<Reg>, k: nat, st: State<V, W>)
    requires 0 < k <= |body| && forall i :: 0 <= i < |body| ==> body[i] < |f.nodes|
    ensures ExecBody(sem, promoted, f, body, k, st) ==
            ExecNode(sem, promoted, body[k - 1], f.nodes[body[k - 1]], ExecBody(sem, promoted, f, body, k - 1, st))
  {
  }

  lemma PreIsPhi(f: Function, h: Function, pl: Plan, pre: seq<seq<Reg>>, b: Label, i: nat)
    requires PlanOk(f, pl) && Renamed(f, h, pl, pre) && b < |f.blocks| && i < |pre[b]|
    ensures i < |h.blocks[b].body| && h.blocks[b].body[i] == pre[b][i]
    ensures pre[b][i] < |h.nodes| && h.nodes[pre[b][i]].Phi?
  {
    hide NodeRenamed;
    assert BlockRenamed(f, h, pl, pre, b);
    assert PlacedIn(pl, b, pre[b][i]);
    var a: Reg :| (a, b) in pl.phi && pl.phi[(a, b)] == pre[b][i];
    assert PhiRenamed(f, h.nodes, pl, a, b);
  }

  lemma {:induction false} PhisSkipped<V, W>(sem: Sem<V, W>, f: Function, h: Function, pl: Plan, pre: seq<seq<Reg>>,
                                             b: Label, k: nat, tt: State<V, W>)
    requires PlanOk(f, pl) && Renamed(f, h, pl, pre) && Shape(h) && b < |f.blocks| && k <= |pre[b]|
    requires |h.blocks[b].body| == |pre[b]| + |f.blocks[b].body|
    ensures ExecBody(sem, {}, h, h.blocks[b].body, k, tt) == tt
  {
    hide Renamed, PlanOk;
    if k > 0 {
      PhisSkipped(sem, f, h, pl, pre, b, k - 1, tt);
      PreIsPhi(f, h, pl, pre, b, k - 1);
    }
  }

  // ----- Whole runs -----

  // Control leaves a block the same way in both programs.
  lemma LeaveAgrees<V, W>(sem: Sem<V, W>, f: Function, pl: Plan, b: Label, st: State<V, W>, tt: State<V, W>)
    requires Input(f, pl.slots) && b < |f.blocks| && Reachable(GraphOf(f), b) && Agree(sem, f, pl, st, tt)
    ensures Leave(sem, f.blocks[b].end, st) == Leave(sem, f.blocks[b].end, tt)
  {
    var t := f.blocks[b].end;
    assert BlockDominated(f, b);
    forall u | u in EndUses(t) ensures Val(sem, st, u) == Val(sem, tt, u) {
      UseInRange(f, u, b, |f.blocks[b].body|);
    }
    assert Val(sem, st, 0) == Val(sem, tt, 0);
    match t
    case Return(r) => assert r != 0 ==> r in EndUses(t);
    case If(c, _, _) => assert c in EndUses(t);
    case Switch(k, _, _) => assert k in EndUses(t);
    case _ =>
  }

  // Both programs are about to enter the same block, with related states.
  ghost predicate Entering<V, W>(sem: Sem<V, W>, f: Function, h: Function, pl: Plan, c: Config<V, W>, d: Config<V, W>)
    requires Shape(f) && ExactDoms(GraphOf(f), pl.doms)
  {
    && c.At? && d.At? && c.block == d.block && c.from == d.from && c.block < |f.blocks| && c.block < |h.blocks|
    && Reachable(GraphOf(f), c.block) && Agree(sem, f, pl, c.st, d.st)
    && Sim(sem, f, pl, c.block, 0, c.st, EnterBlock(sem, h, h.blocks[c.block].body, c.from, d.st))
  }

  // What runs of the two programs have in common at every moment.
  ghost predicate SameRun<V, W>(sem: Sem<V, W>, f: Function, pl: Plan, c: Config<V, W>, d: Config<V, W>)
  {
    && (c.At? <==> d.At?)
    && (c.At? ==> c.block == d.block && c.from == d.from)
    && (c.Halted? ==> c.outcome == d.outcome)
    && Agree(sem, f, pl, c.st, d.st)
  }

  function Onward<V, W>(o: Outcome<V>, b: Label, st: State<V, W>): Config<V, W>
  {
    if o.Next? then At(o.target, b, st) else Halted(o, st)
  }

  // The whole of a block.
  lemma BlockSim<V, W>(sem: Sem<V, W>, f: Function, h: Function, pl: Plan, pre: seq<seq<Reg>>, c: Config<V, W>,
                       d: Config<V, W>)
    returns (su: State<V, W>, tu: State<V, W>)
    requires Setting(f, pl) && Renamed(f, h, pl, pre) && Shape(h) && LoadsInitialised(f, pl.slots)
    requires Entering(sem, f, h, pl, c, d)
    ensures c.At? && c.block < |f.blocks| && Reachable(GraphOf(f), c.block)
    ensures var b := c.block; var o := Leave(sem, f.blocks[b].end, su);
            && Sim(sem, f, pl, b, |f.blocks[b].body|, su, tu) && Agree(sem, f, pl, su, tu)
            && Step(sem, pl.slots, f, c) == Onward(o, b, su) && Step(sem, {}, h, d) == Onward(o, b, tu)
  {
    hide Renamed, Placed, LoadsInitialised, ExecBody, EnterBlock, ExactDoms, Step, Leave;
    var b := c.block;
    EntersPlain(sem, f, pl.slots, f.blocks[b].body, c.from, c.st);
    var tt := EnterBlock(sem, h, h.blocks[b].body, c.from, d.st);
    SameEnd(f, h, pl, pre, b);
    BodySim(sem, f, h, pl, pre, b, |f.blocks[b].body|, c.st, tt);
    InputShape(f, pl.slots, b);
    su := ExecBody(sem, pl.slots, f, f.blocks[b].body, |f.blocks[b].body|, c.st);
    tu := ExecBody(sem, {}, h, h.blocks[b].body, |h.blocks[b].body|, tt);
    LeaveAgrees(sem, f, pl, b, su, tu);
    StepIs(sem, pl.slots, f, c, c.st, su);
    StepIs(sem, {}, h, d, tt, tu);
  }

  lemma InputShape(f: Function, slots: set<Reg>, b: Label)
    requires Input(f, slots) && b < |f.blocks|
    ensures Shape(f) && forall i :: 0 <= i < |f.blocks[b].body| ==> f.blocks[b].body[i] < |f.nodes|
  {
  }

  lemma StepSim<V, W>(sem: Sem<V, W>, f: Function, h: Function, pl: Plan, pre: seq<seq<Reg>>,
                      c: Config<V, W>, d: Config<V, W>)
    requires Setting(f, pl) && Renamed(f, h, pl, pre) && Shape(h) && LoadsInitialised(f, pl.slots)
    requires Entering(sem, f, h, pl, c, d)
    ensures var c1, d1 := Step(sem, pl.slots, f, c), Step(sem, {}, h, d);
            SameRun(sem, f, pl, c1, d1) && (c1.At? ==> Entering(sem, f, h, pl, c1, d1))
  {
    hide Renamed, Placed, ExactDoms, LoadsInitialised, Step, Leave, EnterBlock, Sim, Shape, Agree;
    var b := c.block;
    var su, tu := BlockSim(sem, f, h, pl, pre, c, d);
    if Leave(sem, f.blocks[b].end, su).Next? {
      var l := Leave(sem, f.blocks[b].end, su).target;
      LeaveFollowsEdge(sem, f, b, su);
      StepReachable(GraphOf(f), b, l);
      RenamedSize(f, h, pl, pre);
      ArriveSim(sem, f, h, pl, pre, b, l, su, tu);
    }
  }

  lemma RenamedSize(f: Function, h: Function, pl: Plan, pre: seq<seq<Reg>>)
    requires PlanOk(f, pl) && Renamed(f, h, pl, pre)
    ensures |h.blocks| == |f.blocks|
  {
  }

  lemma SameEnd(f: Function, h: Function, pl: Plan, pre: seq<seq<Reg>>, b: Label)
    requires PlanOk(f, pl) && Renamed(f, h, pl, pre) && b < |f.blocks|
    ensures |h.blocks| == |f.blocks| == |pre| && h.blocks[b].end == f.blocks[b].end
    ensures |h.blocks[b].body| == |pre[b]| + |f.blocks[b].body|
  {
    hide NodeRenamed, PhiRenamed;
    assert BlockRenamed(f, h, pl, pre, b);
  }

  lemma StepIs<V, W>(sem: Sem<V, W>, promoted: set<Reg>, f: Function, c: Config<V, W>, st1: State<V, W>,
                     st2: State<V, W>)
    requires Shape(f) && c.At? && c.block < |f.blocks|
    requires st1 == EnterBlock(sem, f, f.blocks[c.block].body, c.from, c.st)
    requires st2 == ExecBody(sem, promoted, f, f.blocks[c.block].body, |f.blocks[c.block].body|, st1)
    ensures Step(sem, promoted, f, c) ==
              var o := Leave(sem, f.blocks[c.block].end, st2);
              if o.Next? then At(o.target, c.block, st2) else Halted(o, st2)
  {
  }

  // The theorem: after any number of steps, the function and its promoted form are at the same
  // block with the same world and registers, or have stopped with the same outcome.
  lemma {:induction false} PromotionPreservesRuns<V, W>(sem: Sem<V, W>, f: Function, h: Function, pl: Plan,
                                                        pre: seq<seq<Reg>>, w: W, n: nat)
    requires Setting(f, pl) && Renamed(f, h, pl, pre) && Shape(h) && LoadsInitialised(f, pl.slots)
    ensures SameRun(sem, f, pl, Run(sem, pl.slots, f, w, n), Run(sem, {}, h, w, n))
    ensures Run(sem, pl.slots, f, w, n).At? ==>
              Entering(sem, f, h, pl, Run(sem, pl.slots, f, w, n), Run(sem, {}, h, w, n))
  {
    hide Renamed, LoadsInitialised, Placed, ExactDoms, Entering, EnterBlock, ExecBody, Leave;
    if n == 0 {
      StartSim(sem, f, h, pl, pre, w);
    } else {
      PromotionPreservesRuns(sem, f, h, pl, pre, w, n - 1);
      var c, d := Run(sem, pl.slots, f, w, n - 1), Run(sem, {}, h, w, n - 1);
      if c.At? {
        StepSim(sem, f, h, pl, pre, c, d);
      }
    }
  }

  lemma StartSim<V, W>(sem: Sem<V, W>, f: Function, h: Function, pl: Plan, pre: seq<seq<Reg>>, w: W)
    requires Setting(f, pl) && Renamed(f, h, pl, pre) && Shape(h)
    ensures SameRun(sem, f, pl, Run(sem, pl.slots, f, w, 0), Run(sem, {}, h, w, 0))
    ensures Entering(sem, f, h, pl, Run(sem, pl.slots, f, w, 0), Run(sem, {}, h, w, 0))
  {
    var st: State<V, W> := State(map[], map[], w);
    SameEnd(f, h, pl, pre, 0);
    EntryReachable(GraphOf(f));
    forall a ensures !StoredBefore(f, a, 0, 0) { NothingAtEntry(f, a); }
    ArriveAgrees(sem, f, h, pl, pre, |f.blocks|, 0, st, st);
  }
}
