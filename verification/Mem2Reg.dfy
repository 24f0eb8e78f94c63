// src/tb/opt/mem2reg.c: phi placement by worklist over the dominance frontiers, and renaming
// of loads and stores along the dominator tree.

module Mem2Reg {
  import opened Finite
  import opened Cfg
  import opened Predecessors
  import opened Ir
  import opened Ssa
  import opened DomTree
  import opened Dominators
  import opened Frontiers
  import opened Promotion
  import opened PhiInsertion
  import opened Renaming
  import opened DomWalk
  import opened StackWalk
  import opened Coherency
  import opened PlacedPhis

  class Promoter {
    ghost const f: Function
    const slots: seq<Reg>             // to_promote
    const bbCount: nat
    const ends: seq<Terminator>
    const types: Typing
    const doms: array<int>
    const asWritten: bool             // as the source stands, or as it is meant
    const junk: Reg                   // what reading below an empty stack yields
    const currentDef: array2<Reg>     // [to_promote_count][bb_count]
    var nodes: seq<Node>
    var bodies: seq<seq<Reg>>
    var stack: seq<Stack>
    var heights: map<nat, nat>        // the temporary storage,
    var used: nat                     // and how much of it is in use
    ghost var phi: map<(Reg, Label), Reg>
    ghost var pre: seq<seq<Reg>>

    constructor (f: Function, slots: seq<Reg>, doms: array<int>, asWritten: bool, junk: Reg)
      requires PhiFree(f, slots)
      ensures Fixed() && this.f == f && this.slots == slots && this.doms == doms && this.asWritten == asWritten
      ensures this.junk == junk
      ensures fresh(currentDef) && nodes == f.nodes && phi == map[] && |bodies| == |pre| == |f.blocks|
      ensures forall b: Label :: b < |f.blocks| ==> bodies[b] == f.blocks[b].body && pre[b] == []
    {
      this.f, this.slots, this.doms, this.asWritten, this.junk := f, slots, doms, asWritten, junk;
      bbCount, types := |f.blocks|, f.types;
      ends := seq(|f.blocks|, b requires 0 <= b < |f.blocks| => f.blocks[b].end);
      currentDef := new Reg[|slots|, |f.blocks|]((_, _) => 0);
      nodes, phi := f.nodes, map[];
      bodies := seq(|f.blocks|, b requires 0 <= b < |f.blocks| => f.blocks[b].body);
      pre := seq(|f.blocks|, _ => []);
      stack, heights, used := seq(|slots|, _ => Stack([], 0)), map[], 0;
    }

    ghost predicate Fixed()
    {
      && PhiFree(f, slots) && bbCount == |f.blocks| == |ends|
      && (forall b: Label :: b < bbCount ==> ends[b] == f.blocks[b].end)
      && currentDef.Length0 == |slots| && currentDef.Length1 == bbCount
    }

    ghost predicate Placing()
      reads this, currentDef
    {
      Fixed() && PlaceInv(f, Elems(slots), nodes, bodies, phi, pre) && Begun(f, Elems(slots), asWritten, nodes) &&
        CurrentOk(phi)
    }

    ghost predicate CurrentOk(phi: map<(Reg, Label), Reg>)
      requires Fixed()
      reads currentDef
    {
      forall v: nat, b: nat :: v < |slots| && b < bbCount ==>
        currentDef[v, b] == Current(f, phi, slots[v], b)
    }

    // get_variable_id
    method VariableId(r: Reg) returns (v: int)
      ensures -1 <= v < |slots|
      ensures v >= 0 ==> slots[v] == r
      ensures v == -1 ==> r !in slots
    {
      for i := 0 to |slots|
        invariant r !in slots[..i]
      {
        if slots[i] == r {
          return i;
        }
      }
      return -1;
    }

    // The first half of phase 1: the last definition of every slot in every block.
    method CollectDefs()
      requires Fixed() && nodes == f.nodes && |bodies| == bbCount
      requires forall b: Label :: b < bbCount ==> bodies[b] == f.blocks[b].body
      modifies `nodes, currentDef
      ensures Begun(f, Elems(slots), asWritten, nodes)
      ensures forall v: nat, b: nat :: v < |slots| && b < bbCount ==>
                currentDef[v, b] == LastStore(f, slots[v], b).GetOr(0)
    {
      forall v, b | 0 <= v < |slots| && 0 <= b < bbCount {
        currentDef[v, b] := 0;
      }
      NoneBegun(f, Elems(slots), asWritten);
      var bb: nat := 0;
      while bb < bbCount
        invariant bb <= bbCount && BegunTo(f, Elems(slots), asWritten, nodes, bb, 0)
        invariant forall v: nat, b: nat :: v < |slots| && b < bbCount ==>
                    currentDef[v, b] == if b < bb then LastStore(f, slots[v], b).GetOr(0) else 0
      {
        CollectBlock(bb);
        BlockBegun(f, Elems(slots), asWritten, nodes, bb);
        bb := bb + 1;
      }
    }

    method CollectBlock(bb: Label)
      requires Fixed() && |bodies| == bbCount && bb < bbCount && BegunTo(f, Elems(slots), asWritten, nodes, bb, 0)
      requires bodies[bb] == f.blocks[bb].body
      requires forall v: nat :: v < |slots| ==> currentDef[v, bb] == 0
      modifies `nodes, currentDef
      ensures BegunTo(f, Elems(slots), asWritten, nodes, bb, |f.blocks[bb].body|)
      ensures forall v: nat, b: nat :: v < |slots| && b < bbCount ==>
                currentDef[v, b] == if b == bb then LastStore(f, slots[v], b).GetOr(0) else old(currentDef[v, b])
    {
      var body := bodies[bb];
      var k: nat := 0;
      while k < |body|
        invariant k <= |body| && BegunTo(f, Elems(slots), asWritten, nodes, bb, k)
        invariant forall v: nat, b: nat :: v < |slots| && b < bbCount ==>
                    currentDef[v, b] == if b == bb then LocalDef(f, slots[v], b, k).GetOr(0) else old(currentDef[v, b])
      {
        CollectNode(bb, k);
        k := k + 1;
      }
    }

    method CollectNode(bb: Label, k: nat)
      requires Fixed() && |bodies| == bbCount && bb < bbCount && k < |f.blocks[bb].body|
      requires bodies[bb] == f.blocks[bb].body && BegunTo(f, Elems(slots), asWritten, nodes, bb, k)
      modifies `nodes, currentDef
      ensures BegunTo(f, Elems(slots), asWritten, nodes, bb, k + 1)
      ensures forall v: nat, b: nat :: v < |slots| && b < bbCount ==>
                var s := Stored(f, f.blocks[bb].body[k], slots[v]);
                currentDef[v, b] == if b == bb && s.Some? then s.value else old(currentDef[v, b])
    {
      var r := bodies[bb][k];
      NodeBegun(f, Elems(slots), asWritten, nodes, bb, k);
      hide BegunTo, Shape;
      match nodes[r] {
        case ParamAddr(p) =>
          var v := VariableId(r);
          if v >= 0 { currentDef[v, bb] := p; }
        case Store(a, x) =>
          var v := VariableId(a);
          if v >= 0 { currentDef[v, bb] := x; }
        case Clear(a, _, _) =>
          var v := VariableId(a);
          if v >= 0 {
            if asWritten { nodes := nodes[r := Pure(ZERO, [])]; }
            currentDef[v, bb] := r;
          }
        case _ =>
      }
      assert nodes == old(nodes)[r := StartNode(old(nodes)[r], Elems(slots), asWritten)];
    }

    // A phi for slot v in block l with its first inputs: the block's own definition, if any,
    // and the definition of block bb whose frontier l is in.
    method NewPhi(v: nat, bb: Label, value: Reg, l: Label) returns (node: Node)
      requires Placing() && v < |slots| && 0 < l < bbCount && bb < bbCount && (slots[v], l) !in phi
      requires 0 < value < |nodes|
      requires bb == l ==> LastStore(f, slots[v], l) == Some(value)
      ensures |bodies| == |pre| == bbCount
      ensures PlaceInv(f, Elems(slots), nodes + [node], bodies[l := [|nodes|] + bodies[l]],
                       phi[(slots[v], l) := |nodes|], pre[l := [|nodes|] + pre[l]])
    {
      hide LastStore, StartInputs, LocalDef;
      var phiReg := |nodes|;
      var cur := currentDef[v, l];
      assert cur == Current(f, phi, slots[v], l);
      FirstInputs(f, slots, nodes, bodies, phi, pre, slots[v], l, bb, value);
      node := Null;
      if cur != 0 {
        node := AddPhiOperand(node, phiReg, l, cur);
      }
      node := AddPhiOperand(node, phiReg, bb, value);
      PlaceStep(f, Elems(slots), nodes, bodies, phi, pre, slots[v], l, node.inputs);
    }

    method PlaceAt(v: nat, bb: Label, value: Reg, l: Label)
      requires Placing() && v < |slots| && 0 < l < bbCount && bb < bbCount && (slots[v], l) !in phi
      requires 0 < value < |nodes|
      requires bb == l ==> LastStore(f, slots[v], l) == Some(value)
      modifies this, currentDef
      ensures Placing()
      ensures phi == old(phi)[(slots[v], l) := |old(nodes)|] && |nodes| == |old(nodes)| + 1
    {
      hide PlaceInv, LastStore, PhiFree, Current;
      PlacingShape();
      ghost var phi0 := phi;
      var phiReg := |nodes|;
      var node := NewPhi(v, bb, value, l);
      nodes := nodes + [node];
      bodies := bodies[l := [phiReg] + bodies[l]];
      pre := pre[l := [phiReg] + pre[l]];
      phi := phi[(slots[v], l) := phiReg];
      currentDef[v, l] := phiReg;
      forall u: nat, b: nat | u < |slots| && b < bbCount ensures currentDef[u, b] == Current(f, phi, slots[u], b) {
        CurrentOne(f, phi0, slots[v], l, phiReg, slots[u], b);
        if u != v { DifferentSlots(slots, u, v); }
      }
    }

    // The blocks the slot is defined in, in block order.
    method CollectQueue(v: nat, everWorked: array<bool>) returns (queue: seq<Label>)
      requires Placing() && v < |slots| && everWorked.Length == bbCount
      requires forall b: Label :: (slots[v], b) !in phi
      requires forall b :: 0 <= b < bbCount ==> !everWorked[b]
      modifies everWorked
      ensures Distinct(queue) && forall b: Label :: b in queue <==> b in StoreBlocks(f, slots[v])
      ensures forall b :: 0 <= b < bbCount ==> (everWorked[b] <==> b in queue)
    {
      queue := [];
      var bb: nat := 0;
      while bb < bbCount
        invariant bb <= bbCount
        invariant Distinct(queue)
        invariant forall b: Label :: b in queue <==> b < bb && b in StoreBlocks(f, slots[v])
        invariant forall b :: 0 <= b < bbCount ==> (everWorked[b] <==> b in queue)
      {
        assert currentDef[v, bb] == Current(f, phi, slots[v], bb);
        LocalDefFits(f, slots, slots[v], bb, |f.blocks[bb].body|);
        if currentDef[v, bb] != 0 {
          everWorked[bb] := true;
          PushDistinct(queue, bb);
          queue := queue + [bb];
        }
        bb := bb + 1;
      }
    }

    // The queue and the two marker sets for one slot.
    method StartQueue(v: nat, df: seq<seq<Label>>)
      returns (queue: seq<Label>, everWorked: array<bool>, hasAlready: array<bool>)
      requires Placing() && v < |slots| && |df| == bbCount
      requires forall b: Label :: (slots[v], b) !in phi
      ensures fresh(everWorked) && fresh(hasAlready) && everWorked != hasAlready
      ensures everWorked.Length == hasAlready.Length == bbCount
      ensures |queue| == |StoreBlocks(f, slots[v])| && PhiBlocks(f, phi, slots[v]) == {}
      ensures WorkInv(df, StoreBlocks(f, slots[v]), {}, queue, 0) && Marks(queue, {}, everWorked[..], hasAlready[..])
    {
      hide Placing, PlaceInv, WorkInv, PhiFree, StoreBlocks, PhiBlocks;
      PlacingShape();
      StoresBelow(f, slots[v]);
      everWorked := new bool[bbCount](_ => false);
      hasAlready := new bool[bbCount](_ => false);
      queue := CollectQueue(v, everWorked);
      QueueSize(queue, StoreBlocks(f, slots[v]));
      WorkStarts(df, StoreBlocks(f, slots[v]), queue);
      assert PhiBlocks(f, phi, slots[v]) == {};
    }

    lemma PlacingShape()
      requires Placing()
      ensures Fixed() && Shape(f) && Distinct(slots)
    {
      hide PlaceInv, CurrentOk;
    }

    // One slot of the worklist. The phis end up exactly at the iterated dominance frontier of
    // the blocks that store to the slot, when there are two or more; otherwise none is needed.
    method InsertPhis(v: nat, df: seq<seq<Label>>)
      requires Placing() && v < |slots| && |df| == bbCount
      requires forall x, y: Label :: 0 <= x < bbCount && y in df[x] ==> 0 < y < bbCount
      requires forall b: Label :: (slots[v], b) !in phi
      modifies this, currentDef
      ensures Placing()
      ensures Grown(old(phi), phi, slots[v]) && PhisAtIdf(f, df, phi, slots[v])
    {
      assert Shape(f);
      hide Placing, PlaceInv, WorkInv, Marks, IsIdf, PhiFree, StoreBlocks, PhiBlocks;
      var queue, everWorked, hasAlready := StartQueue(v, df);
      ghost var defs := StoreBlocks(f, slots[v]);
      if |queue| > 1 {
        var i: nat := 0;
        while i < |queue|
          invariant Placing() && i <= |queue|
          invariant Grown(old(phi), phi, slots[v])
          invariant WorkInv(df, defs, PhiBlocks(f, phi, slots[v]), queue, i)
          invariant Marks(queue, PhiBlocks(f, phi, slots[v]), everWorked[..], hasAlready[..])
          decreases bbCount - i
        {
          QueueFits(df, defs, PhiBlocks(f, phi, slots[v]), queue, i);
          queue := TreatBlock(v, df, queue, i, everWorked, hasAlready, old(phi));
          i := i + 1;
          QueueFits(df, defs, PhiBlocks(f, phi, slots[v]), queue, i);
        }
        WorkDone(df, defs, PhiBlocks(f, phi, slots[v]), queue);
      }
    }

    // All entries of the frontier of queue[i].
    method TreatBlock(v: nat, df: seq<seq<Label>>, queue0: seq<Label>, i: nat,
                      everWorked: array<bool>, hasAlready: array<bool>, ghost phi0: map<(Reg, Label), Reg>)
      returns (queue: seq<Label>)
      requires Placing() && v < |slots| && |df| == bbCount && i < |queue0|
      requires forall x, y: Label :: 0 <= x < bbCount && y in df[x] ==> 0 < y < bbCount
      requires everWorked.Length == hasAlready.Length == bbCount && everWorked != hasAlready
      requires Grown(phi0, phi, slots[v])
      requires WorkInv(df, StoreBlocks(f, slots[v]), PhiBlocks(f, phi, slots[v]), queue0, i)
      requires Marks(queue0, PhiBlocks(f, phi, slots[v]), everWorked[..], hasAlready[..])
      modifies this, currentDef, everWorked, hasAlready
      ensures Placing() && Grown(phi0, phi, slots[v]) && |queue| > i
      ensures WorkInv(df, StoreBlocks(f, slots[v]), PhiBlocks(f, phi, slots[v]), queue, i + 1)
      ensures Marks(queue, PhiBlocks(f, phi, slots[v]), everWorked[..], hasAlready[..])
    {
      queue := queue0;
      ghost var defs := StoreBlocks(f, slots[v]);
      WorkBlock(df, defs, PhiBlocks(f, phi, slots[v]), queue, i);
      var bb := queue[i];
      var value := currentDef[v, bb];
      ValueKnown(f, slots, nodes, bodies, phi, pre, slots[v], bb);
      WorkEnters(df, defs, PhiBlocks(f, phi, slots[v]), queue, i);
      var k: nat := 0;
      hide WorkInvAt, PlaceInv, PhiFree, Marks, Current, WorkInv;
      while k < |df[bb]|
        invariant k <= |df[bb]| && Treating(v, df, queue, i, k, bb, value, everWorked, hasAlready, phi0)
      {
        hide Treating;
        queue := TreatEntry(v, df, queue, i, k, bb, value, everWorked, hasAlready, phi0);
        k := k + 1;
      }
      WorkNext(df, defs, PhiBlocks(f, phi, slots[v]), queue, i);
    }

    // The state of the worklist at entry k of the frontier of bb == queue[i].
    ghost predicate Treating(v: nat, df: seq<seq<Label>>, queue: seq<Label>, i: nat, k: nat, bb: Label, value: Reg,
                             everWorked: array<bool>, hasAlready: array<bool>, phi0: map<(Reg, Label), Reg>)
      reads this, currentDef, everWorked, hasAlready
    {
      && Placing() && v < |slots| && |df| == bbCount && bb < bbCount && 0 < value < |nodes|
      && everWorked.Length == hasAlready.Length == bbCount && everWorked != hasAlready
      && Grown(phi0, phi, slots[v]) && i < |queue| && queue[i] == bb
      && ((slots[v], bb) !in phi ==> LastStore(f, slots[v], bb) == Some(value))
      && WorkInvAt(df, StoreBlocks(f, slots[v]), PhiBlocks(f, phi, slots[v]), queue, i, k)
      && Marks(queue, PhiBlocks(f, phi, slots[v]), everWorked[..], hasAlready[..])
    }

    // One entry of a frontier.
    method TreatEntry(v: nat, df: seq<seq<Label>>, queue0: seq<Label>, i: nat, k: nat, bb: Label, value: Reg,
                      everWorked: array<bool>, hasAlready: array<bool>, ghost phi0: map<(Reg, Label), Reg>)
      returns (queue: seq<Label>)
      requires Treating(v, df, queue0, i, k, bb, value, everWorked, hasAlready, phi0) && k < |df[bb]|
      requires forall x, y: Label :: 0 <= x < bbCount && y in df[x] ==> 0 < y < bbCount
      modifies this, currentDef, everWorked, hasAlready
      ensures Treating(v, df, queue, i, k + 1, bb, value, everWorked, hasAlready, phi0)
    {
      var l := df[bb][k];
      assert l in df[bb];
      ghost var defs := StoreBlocks(f, slots[v]);
      WorkCovers(df, defs, PhiBlocks(f, phi, slots[v]), queue0, i, k);
      queue := MarkEntry(v, bb, value, l, queue0, everWorked, hasAlready, phi0);
      hide PlaceInv, PhiFree, Current, LastStore;
      WorkOne(df, defs, PhiBlocks(f, old(phi), slots[v]), queue0, i, k, l, queue);
    }

    method MarkEntry(v: nat, bb: Label, value: Reg, l: Label, queue0: seq<Label>,
                      everWorked: array<bool>, hasAlready: array<bool>, ghost phi0: map<(Reg, Label), Reg>)
      returns (queue: seq<Label>)
      requires Placing() && v < |slots| && bb < bbCount && 0 < l < bbCount && 0 < value < |nodes|
      requires everWorked.Length == hasAlready.Length == bbCount && everWorked != hasAlready
      requires Grown(phi0, phi, slots[v])
      requires (slots[v], bb) !in phi ==> LastStore(f, slots[v], bb) == Some(value)
      requires l in PhiBlocks(f, phi, slots[v]) ==> l in queue0
      requires Marks(queue0, PhiBlocks(f, phi, slots[v]), everWorked[..], hasAlready[..])
      modifies this, currentDef, everWorked, hasAlready
      ensures Placing() && Grown(phi0, phi, slots[v]) && |nodes| >= |old(nodes)|
      ensures forall x :: x in old(phi) ==> x in phi
      ensures PhiBlocks(f, phi, slots[v]) == PhiBlocks(f, old(phi), slots[v]) + {l}
      ensures queue == if l in queue0 then queue0 else queue0 + [l]
      ensures Marks(queue, PhiBlocks(f, phi, slots[v]), everWorked[..], hasAlready[..])
    {
      MorePhis(f, phi, slots[v], l, |nodes|);
      MoreMarks(PhiBlocks(f, phi, slots[v]), l, queue0, everWorked[..], hasAlready[..]);
      GrownMore(phi0, phi, slots[v], l, |nodes|);
      hide PlaceInv, PhiFree, Current, LastStore, PhiBlocks, Grown, Marks;
      queue := queue0;
      if !hasAlready[l] {
        hasAlready[l] := true;
        PlaceAt(v, bb, value, l);
        if !everWorked[l] {
          everWorked[l] := true;
          queue := queue + [l];
        }
        assert everWorked[..] == old(everWorked[..])[l := true];
        assert hasAlready[..] == old(hasAlready[..])[l := true];
      }
    }

    // ----- Phase 2 -----

    // What stays as it is during the walk.
    ghost predicate Static(pl: Plan)
      reads `bodies, `phi, `pre, currentDef, doms
    {
      && Fixed() && PlanOk(f, pl) && doms.Length == bbCount && pl.doms == doms[..] && pl.slots == Elems(slots) &&
        pl.phi == phi && pl.lost == asWritten && CurrentOk(phi)
      && AreEntryTops(SetupOf(f, slots, pl, asWritten), pl.tops)
      && |bodies| == |pre| == |f.blocks|
      && (forall b: Label :: b < |f.blocks| ==> BodyPlaced(f, bodies, phi, pre, b))
      && (forall v: nat :: v < |slots| ==>
            slots[v] < |f.nodes| && (f.nodes[slots[v]].Local? || f.nodes[slots[v]].ParamAddr?))
    }

    lemma StaticFacts(pl: Plan)
      requires Static(pl)
      ensures Fixed() && PlanOk(f, pl) && doms.Length == bbCount == |f.blocks| && pl.doms == doms[..] && pl.phi == phi
      ensures ExactDoms(GraphOf(f), pl.doms) && |GraphOf(f)| == bbCount == |bodies| == |pre|
    {
      hide ExactDoms, PhiPlaced, PhiFree, BodyPlaced, CurrentOk, AreEntryTops;
    }

    ghost predicate Walking(pl: Plan, pr: Progress)
      reads `nodes, `bodies, `phi, `pre, currentDef, doms
    {
      Static(pl) && RenameInv(f, pl, junk, nodes, pr)
    }

    // The stacks show the definitions that reach position k of block b.
    ghost predicate Tops(pl: Plan, b: Label, k: nat)
      reads `stack
    {
      PlanOk(f, pl) && b < |f.blocks| && k <= |f.blocks[b].body| && TopsAt(f, slots, pl, stack, b, k)
    }

    ghost predicate TopsAtEnd(pl: Plan, b: Label)
      reads `stack
    {
      b < |f.blocks| && Tops(pl, b, |f.blocks[b].body|)
    }

    ghost function Now(): Moment
      reads `stack, `heights, `used
    {
      Moment(stack, heights, used)
    }

    ghost function Su(pl: Plan): Setup
    {
      SetupOf(f, slots, pl, asWritten)
    }

    lemma BlockCount(pl: Plan, pr: Progress)
      requires Walking(pl, pr)
      ensures bbCount == |f.blocks|
    {
    }

    // tb_tls_push: room for the heights, where the calls made from here have theirs behind it.
    // Then the block's phis.
    method PushPhis(bb: Label, ghost pl: Plan, ghost pr: Progress) returns (oldLen: nat)
      requires Walking(pl, pr) && bb < bbCount && |stack| == |slots|
      modifies `stack, `heights, `used
      ensures oldLen == old(used) && Now() == Entered(Su(pl), bb, old(Now()))
    {
      hide Static, Fixed, PlanOk, RenameInv, Walking, EnteredTo, Entered;
      BlockCount(pl, pr);
      ghost var w := Now();
      EnteredStart(Su(pl), bb, w);
      oldLen := used;
      used := used + if asWritten then bbCount else |slots|;
      var v: nat := 0;
      while v < |slots|
        invariant v <= |slots| && used == w.used + Area(Su(pl)) && EnteredTo(Su(pl), bb, w, v, stack, heights)
      {
        PushPhi(v, bb, oldLen, pl, pr, w);
        v := v + 1;
      }
      EnteredAll(Su(pl), bb, w, stack, heights);
    }

    method PushPhi(v: nat, bb: Label, oldLen: nat, ghost pl: Plan, ghost pr: Progress, ghost w: Moment)
      requires Walking(pl, pr) && bb < bbCount && v < |slots| && oldLen == w.used
      requires EnteredTo(Su(pl), bb, w, v, stack, heights)
      modifies `stack, `heights
      ensures EnteredTo(Su(pl), bb, w, v + 1, stack, heights)
    {
      hide Walking, Static, PlanOk, RenameInv, EnteredTo, PhiAt, Put;
      EnteredStep(Su(pl), bb, w, v, stack, heights);
      PhiFact(pl, pr, v, bb);
      var before := stack[v].len;
      var value := currentDef[v, bb];
      if nodes[value].Phi? {
        stack := stack[v := Put(stack[v], value)];
      }
      assert stack == old(stack)[v := Pushed(old(stack)[v], PhiAt(Su(pl), slots[v], bb))];
      heights := heights[oldLen + v := if asWritten then stack[v].len else before];
    }

    lemma PhiFact(pl: Plan, pr: Progress, v: nat, b: Label)
      requires Walking(pl, pr) && v < |slots| && b < bbCount
      ensures Fixed() && currentDef[v, b] < |nodes|
      ensures PhiAt(Su(pl), slots[v], b) == if nodes[currentDef[v, b]].Phi? then Some(currentDef[v, b]) else None
    {
      CurrentFact(pl, v, b);
      CurrentIsPhi(f, slots, pl, junk, nodes, pr, slots[v], b);
    }

    lemma CurrentFact(pl: Plan, v: nat, b: Label)
      requires Static(pl) && v < |slots| && b < bbCount
      ensures Fixed() && PhiFree(f, slots) && currentDef[v, b] == Current(f, phi, slots[v], b)
    {
      hide PlanOk, BodyPlaced, PhiFree, Current;
    }

    method RewriteNode(r: Reg)
      requires r < |nodes| && |stack| == |slots| && Distinct(slots)
      modifies `nodes, `stack
      ensures |nodes| == |old(nodes)| && nodes == old(nodes)[r := nodes[r]]
      ensures Rewrites(old(nodes)[r], nodes[r], r, slots, old(stack), junk)
      ensures |stack| == |slots| && forall v: nat :: v < |slots| ==>
                stack[v] == Pushed(old(stack)[v], StoredBy(old(nodes)[r], r, slots[v]))
    {
      match nodes[r] {
        case Local =>
          var v := VariableId(r);
          if v >= 0 { nodes := nodes[r := Null]; }
        case ParamAddr(p) =>
          var v := VariableId(r);
          if v >= 0 {
            stack := stack[v := Put(stack[v], p)];
            nodes := nodes[r := Null];
          }
        case Store(a, x) =>
          var v := VariableId(a);
          if v >= 0 {
            stack := stack[v := Put(stack[v], x)];
            nodes := nodes[r := Null];
          }
        case Clear(a, _, _) =>
          var v := VariableId(a);
          if v >= 0 {
            stack := stack[v := Put(stack[v], r)];
            nodes := nodes[r := Pure(ZERO, [])];
          }
        case Load(a) =>
          var v := VariableId(a);
          if v >= 0 {
            nodes := nodes[r := Pass(TopOf(stack[v]).GetOr(junk))];
          }
        case _ =>
      }
    }

    // The stacks after the first k nodes of the body.
    ghost predicate BodyStacks(bb: Label, k: nat, before: seq<Stack>)
      reads `stack
    {
      && Shape(f) && bb < |f.blocks| && k <= |f.blocks[bb].body| && |stack| == |before| == |slots|
      && forall v: nat :: v < |slots| ==> stack[v] == BodyStack(f, asWritten, slots[v], bb, k, before[v])
    }

    // One node of the body; a phi stays as it is.
    method RenameNode(bb: Label, r: Reg, ghost isPhi: bool, ghost pl: Plan, ghost pr: Progress,
                      ghost before: seq<Stack>)
      requires Walking(pl, pr) && pr.cur == bb < bbCount && bb !in pr.done
      requires r < |nodes| && (isPhi ==> nodes[r].Phi?)
      requires !isPhi ==> pr.k < |f.blocks[bb].body| && r == f.blocks[bb].body[pr.k]
      requires Tops(pl, bb, pr.k) && BodyStacks(bb, pr.k, before)
      modifies `nodes, `stack
      ensures var k := pr.k + if isPhi then 0 else 1;
              Walking(pl, pr.(k := k)) && Tops(pl, bb, k) && BodyStacks(bb, k, before)
    {
      hide RenameInv, PlanOk, TopsAt, BodyStack, BodyPlaced, CurrentOk, AreEntryTops;
      if !isPhi { NodeStep(f, pl, junk, nodes, pr); }
      RewriteNode(r);
      if !isPhi {
        NewNodeIs(f, slots, pl, junk, bb, pr.k, nodes[r], old(stack));
        StacksStep(f, slots, pl, bb, pr.k, before, old(stack), stack);
      } else {
        assert nodes == old(nodes) && stack == old(stack);
      }
    }

    lemma BodySplit(pl: Plan, bb: Label)
      requires Static(pl) && bb < bbCount
      ensures |bodies| == |pre| == bbCount == |f.blocks| && BodyPlaced(f, bodies, phi, pre, bb)
      ensures |bodies[bb]| == |pre[bb]| + |f.blocks[bb].body|
    {
      hide PlanOk, CurrentOk;
    }

    lemma BodyStarts(pl: Plan, bb: Label)
      requires Tops(pl, bb, 0)
      ensures BodyStacks(bb, 0, stack) && bb < |f.blocks|
    {
    }

    // Before entry i of the body; the phis in front are no nodes of the source.
    ghost predicate AtEntry(bb: Label, i: nat, pl: Plan, pr: Progress, before: seq<Stack>)
      reads `nodes, `bodies, `phi, `pre, currentDef, doms, `stack
    {
      bb < |pre| &&
      var k: nat := if i <= |pre[bb]| then 0 else i - |pre[bb]|;
      Walking(pl, pr.(k := k)) && Tops(pl, bb, k) && BodyStacks(bb, k, before)
    }

    method RenameEntry(bb: Label, i: nat, ghost pl: Plan, ghost pr: Progress, ghost before: seq<Stack>)
      requires AtEntry(bb, i, pl, pr, before) && pr.cur == bb < bbCount && bb !in pr.done
      requires bb < |bodies| && i < |bodies[bb]|
      modifies `nodes, `stack
      ensures AtEntry(bb, i + 1, pl, pr, before)
    {
      hide Walking, Tops, BodyStacks, Shape, Static, Fixed, RenameInv;
      ghost var k: nat := if i <= |pre[bb]| then 0 else i - |pre[bb]|;
      EntryFacts(bb, i, pl, pr.(k := k));
      RenameNode(bb, bodies[bb][i], i < |pre[bb]|, pl, pr.(k := k), before);
    }

    lemma EntryFacts(bb: Label, i: nat, pl: Plan, pr: Progress)
      requires Walking(pl, pr) && bb < bbCount && bb < |bodies| && i < |bodies[bb]|
      ensures bb < |pre| && bb < |f.blocks| && |bodies[bb]| == |pre[bb]| + |f.blocks[bb].body|
      ensures bodies[bb][i] < |nodes| && (i < |pre[bb]| ==> nodes[bodies[bb][i]].Phi?)
      ensures i >= |pre[bb]| ==> bodies[bb][i] == f.blocks[bb].body[i - |pre[bb]|]
    {
      hide Static, Fixed, RenameInv, PlanOk, BodyPlaced;
      StaticFacts(pl);
      BodySplit(pl, bb);
      BodyEntry(f, pl, junk, nodes, pr, bodies, pre, bb, i);
    }

    method RenameBody(bb: Label, ghost pl: Plan, ghost pr: Progress)
      requires Walking(pl, pr) && pr.cur == bb < bbCount && bb !in pr.done && pr.k == 0 && Tops(pl, bb, 0)
      modifies `nodes, `stack
      ensures Walking(pl, pr.(k := |f.blocks[bb].body|)) && TopsAtEnd(pl, bb)
      ensures BodyStacks(bb, |f.blocks[bb].body|, old(stack))
    {
      BodyStarts(pl, bb);
      BodySplit(pl, bb);
      hide Walking, Tops, BodyStacks, BodyPlaced;
      assert pr.(k := 0) == pr;
      var i: nat := 0;
      while i < |bodies[bb]|
        invariant i <= |bodies[bb]| && AtEntry(bb, i, pl, pr, old(stack))
      {
        hide AtEntry;
        RenameEntry(bb, i, pl, pr, old(stack));
        i := i + 1;
      }
    }

    lemma PhiSlots(pl: Plan, pr: Progress)
      requires Walking(pl, pr)
      ensures forall a: Reg, b: Label :: (a, b) in pl.phi ==> a in slots
    {
    }

    // ssa_replace_phi_arg
    method ReplacePhiArg(bb: Label, dst: Label, ghost pl: Plan, ghost pr0: Progress) returns (ghost pr: Progress)
      requires Walking(pl, pr0) && pr0.cur == bb < bbCount && bb !in pr0.done && Edge(GraphOf(f), bb, dst)
      requires TopsAtEnd(pl, bb)
      modifies `nodes
      ensures Walking(pl, pr) && pr == pr0.(edges := pr.edges) && pr0.edges <= pr.edges
      ensures forall a: Reg :: (a, dst) in pl.phi ==> (a, dst) in pr.edges
    {
      hide RenameInv, Def, AreEntryTops, Static;
      PhiSlots(pl, pr0);
      pr := pr0;
      var v: nat := 0;
      while v < |slots|
        invariant v <= |slots| && Walking(pl, pr) && pr == pr0.(edges := pr.edges) && pr0.edges <= pr.edges
        invariant forall u: nat :: u < v && (slots[u], dst) in pl.phi ==> (slots[u], dst) in pr.edges
      {
        pr := ReplaceOne(bb, dst, v, pl, pr);
        v := v + 1;
      }
      forall a: Reg | (a, dst) in pl.phi ensures (a, dst) in pr.edges {
        assert a in slots;
      }
    }

    method ReplaceOne(bb: Label, dst: Label, v: nat, ghost pl: Plan, ghost pr0: Progress) returns (ghost pr: Progress)
      requires Walking(pl, pr0) && pr0.cur == bb < bbCount && bb !in pr0.done && Edge(GraphOf(f), bb, dst)
      requires v < |slots|
      requires TopsAtEnd(pl, bb)
      modifies `nodes
      ensures Walking(pl, pr) && pr == pr0.(edges := pr.edges) && pr0.edges <= pr.edges
      ensures (slots[v], dst) in pl.phi ==> (slots[v], dst) in pr.edges
    {
      hide RenameInv, Def, AreEntryTops;
      pr := pr0;
      var phiReg := currentDef[v, dst];
      assert phiReg == Current(f, phi, slots[v], dst);
      CurrentIsPhi(f, slots, pl, junk, nodes, pr, slots[v], dst);
      if nodes[phiReg].Phi? {
        EdgeStep(f, pl, junk, nodes, pr, slots[v], dst);
        var top := TopOf(stack[v]).GetOr(junk);
        assert top == TopReg(f, pl, junk, slots[v], bb);
        var ins := ReplaceOrAdd(nodes[phiReg].inputs, bb, top, phiReg);
        nodes := nodes[phiReg := Phi(ins)];
        pr := pr.(edges := pr.edges + {(slots[v], dst)});
      }
    }

    lemma EndsAre(pl: Plan, bb: Label)
      requires Static(pl) && bb < bbCount
      ensures bb < |ends| && PlanOk(f, pl) && Shape(f) && bb < |f.blocks| && ends[bb] == f.blocks[bb].end
    {
      hide AreEntryTops, BodyPlaced, CurrentOk, ExactDoms, Shape;
    }

    method RenameSuccessors(bb: Label, ghost pl: Plan, ghost pr0: Progress) returns (ghost pr: Progress)
      requires Walking(pl, pr0) && pr0.cur == bb < bbCount && bb !in pr0.done
      requires TopsAtEnd(pl, bb)
      modifies `nodes
      ensures Walking(pl, pr) && pr == pr0.(edges := pr.edges)
      ensures forall a: Reg, l: Label :: (a, l) in pl.phi && Edge(GraphOf(f), bb, l) ==> (a, l) in pr.edges
    {
      hide RenameInv, Def, PlanOk, Edge, GraphOf, Static, TopsAtEnd, Targets;
      EndsAre(pl, bb);
      SuccessorEdges(f, bb);
      pr := pr0;
      match ends[bb] {
        case Goto(l) =>
          pr := ReplacePhiArg(bb, l, pl, pr);
        case If(_, a, b) =>
          pr := ReplacePhiArg(bb, a, pl, pr);
          pr := ReplacePhiArg(bb, b, pl, pr);
        case Switch(_, entries, d) =>
          pr := RenameSwitch(bb, entries, d, pl, pr);
        case _ =>
      }
    }

    method RenameSwitch(bb: Label, entries: seq<SwitchEntry>, d: Label, ghost pl: Plan, ghost pr0: Progress)
      returns (ghost pr: Progress)
      requires Walking(pl, pr0) && pr0.cur == bb < bbCount && bb !in pr0.done
      requires TopsAtEnd(pl, bb)
      requires Edge(GraphOf(f), bb, d) && forall i :: 0 <= i < |entries| ==> Edge(GraphOf(f), bb, entries[i].target)
      modifies `nodes
      ensures Walking(pl, pr) && pr == pr0.(edges := pr.edges)
      ensures forall a: Reg :: (a, d) in pl.phi ==> (a, d) in pr.edges
      ensures forall j, a: Reg :: 0 <= j < |entries| && (a, entries[j].target) in pl.phi ==>
                (a, entries[j].target) in pr.edges
    {
      hide RenameInv, Def, PlanOk, Edge, GraphOf, Static, TopsAtEnd, Targets;
      pr := ReplacePhiArg(bb, d, pl, pr0);
      var i := |entries|;
      while i > 0
        invariant 0 <= i <= |entries|
        invariant Walking(pl, pr) && TopsAtEnd(pl, bb) && pr == pr0.(edges := pr.edges)
        invariant forall a: Reg :: (a, d) in pl.phi ==> (a, d) in pr.edges
        invariant forall j, a: Reg :: i <= j < |entries| && (a, entries[j].target) in pl.phi ==>
                    (a, entries[j].target) in pr.edges
      {
        i := i - 1;
        pr := ReplacePhiArg(bb, entries[i].target, pl, pr);
      }
    }

    // ssa_rename
    method SsaRename(bb: Label, ghost pl: Plan, ghost pr: Progress)
      requires Walking(pl, pr) && Idle(f, pr) && bb < bbCount && Now() == Entry(Su(pl), bb)
      requires Subtree(GraphOf(f), pl.doms, bb) !! pr.done
      modifies `nodes, `stack, `heights, `used
      ensures Walking(pl, Progress(pr.done + Subtree(GraphOf(f), pl.doms, bb), |f.blocks|, 0, {}))
      ensures |stack| == |slots| && Now() == Visit(Su(pl), bb, old(Now()))
      decreases |f.blocks| + 1 - Rank(GraphOf(f), bb), 1
    {
      assert bb in Subtree(GraphOf(f), pl.doms, bb);
      assert SetupOk(Su(pl));
      hide RenameInv, Def, ExactDoms, PlanOk, TopsAt, PhiFree, BodyPlaced, Subtree, Entry, Children, Worked;
      var oldLen := RenameBlock(bb, pl, pr);
      RenameChildren(bb, pl, pr.done);
      Truncate(oldLen, pl);
    }

    lemma RenameFacts(pl: Plan, bb: Label)
      requires Static(pl) && bb < bbCount
      ensures PlanOk(f, pl) && AreEntryTops(Su(pl), pl.tops) && SetupOk(Su(pl)) && |f.blocks| == bbCount
    {
      hide AreEntryTops, ExactDoms, BodyPlaced, CurrentOk;
    }

    // The block itself. Returns where the heights are that its stacks go back to.
    method RenameBlock(bb: Label, ghost pl: Plan, ghost pr: Progress) returns (oldLen: nat)
      requires Walking(pl, pr) && Idle(f, pr) && bb < bbCount && bb !in pr.done && Now() == Entry(Su(pl), bb)
      modifies `nodes, `stack, `heights, `used
      ensures Walking(pl, Progress(pr.done + {bb}, |f.blocks|, 0, {})) && TopsAtEnd(pl, bb)
      ensures oldLen == old(used) && |stack| == |slots| && Now() == Worked(Su(pl), bb, old(Now()))
    {
      hide RenameInv, Def, PlanOk, TopsAt, Static, Entry, Entered, AreEntryTops, ExactDoms;
      RenameFacts(pl, bb);
      ghost var w := Now();
      ghost var pr1 := Progress(pr.done, bb, 0, {});
      BeginBlock(f, pl, junk, nodes, pr, bb);
      oldLen := PushPhis(bb, pl, pr1);
      PhisPushed(f, slots, pl, asWritten, bb);
      RenameBody(bb, pl, pr1);
      BodyWorked(Su(pl), bb, w, stack);
      ghost var pr2 := RenameSuccessors(bb, pl, pr1.(k := |f.blocks[bb].body|));
      EndBlock(f, pl, junk, nodes, pr2);
    }

    // dyn_array_set_length, and tb_tls_restore
    method Truncate(oldLen: nat, ghost pl: Plan)
      requires |stack| == |slots|
      modifies `stack, `used
      ensures Now() == Left(Su(pl), oldLen, old(Now()))
    {
      var v: nat := 0;
      while v < |slots|
        invariant v <= |slots| == |stack| && used == old(used)
        invariant forall u :: 0 <= u < |slots| ==>
                    stack[u] == if u < v then Left(Su(pl), oldLen, old(Now())).stacks[u] else old(stack)[u]
      {
        stack := stack[v := stack[v].(len := HeightAt(Moment(stack, heights, used), oldLen + v))];
        v := v + 1;
      }
      used := oldLen;
      assert stack == Left(Su(pl), oldLen, old(Now())).stacks;
    }

    // For every block whose immediate dominator is bb.
    method RenameChildren(bb: Label, ghost pl: Plan, ghost done0: set<Label>)
      requires Static(pl) && bb < bbCount && Subtree(GraphOf(f), pl.doms, bb) !! done0
      requires forall x :: x in done0 ==> x < |f.blocks|
      requires RenameInv(f, pl, junk, nodes, Progress(done0 + {bb}, |f.blocks|, 0, {}))
      requires SetupOk(Su(pl)) && Now() == Worked(Su(pl), bb, Entry(Su(pl), bb))
      modifies `nodes, `stack, `heights, `used
      ensures Walking(pl, Progress(done0 + Subtree(GraphOf(f), pl.doms, bb), |f.blocks|, 0, {}))
      ensures |stack| == |slots| == |old(stack)| && Now() == Children(Su(pl), bb, bbCount, old(Now()))
      decreases |f.blocks| + 1 - Rank(GraphOf(f), bb), 0
    {
      ghost var g, D := GraphOf(f), pl.doms;
      hide RenameInv, Def, ExactDoms, Subtree, Entry, Worked;
      ghost var w := Now();
      var s: nat := 1;
      while s < bbCount
        invariant 1 <= s <= bbCount
        invariant Walking(pl, Progress(done0 + Part(g, D, bb, s), |f.blocks|, 0, {}))
        invariant |stack| == |slots| && Now() == Children(Su(pl), bb, s, w)
      {
        hide Part, Children;
        RenameChild(bb, s, pl, done0);
        s := s + 1;
      }
      WholePart(g, D, bb);
    }

    method RenameChild(bb: Label, s: Label, ghost pl: Plan, ghost done0: set<Label>)
      requires 0 < s < bbCount && bb < bbCount && Static(pl) && Subtree(GraphOf(f), pl.doms, bb) !! done0
      requires forall x :: x in done0 ==> x < |f.blocks|
      requires Walking(pl, Progress(done0 + Part(GraphOf(f), pl.doms, bb, s), |f.blocks|, 0, {}))
      requires SetupOk(Su(pl)) && Now() == Children(Su(pl), bb, s, Worked(Su(pl), bb, Entry(Su(pl), bb)))
      modifies `nodes, `stack, `heights, `used
      ensures Walking(pl, Progress(done0 + Part(GraphOf(f), pl.doms, bb, s + 1), |f.blocks|, 0, {}))
      ensures |stack| == |slots|
      ensures Now() == Children(Su(pl), bb, s + 1, Worked(Su(pl), bb, Entry(Su(pl), bb)))
      decreases |f.blocks| + 1 - Rank(GraphOf(f), bb), 0, 0
    {
      hide Static, Fixed, RenameInv, ExactDoms, Subtree, PlanOk, Part, Rank, Worked;
      ghost var g, D := GraphOf(f), pl.doms;
      StaticFacts(pl);
      if doms[s] == bb {
        ghost var done := done0 + Part(g, D, bb, s);
        ChildPart(f, pl, done0, bb, s);
        SsaRename(s, pl, Progress(done, |f.blocks|, 0, {}));
        PartGrows(g, D, bb, s, done0);
      } else {
        PartGrows(g, D, bb, s, done0);
        assert done0 + Part(g, D, bb, s) + {} == done0 + Part(g, D, bb, s);
      }
    }

    method StartPlacing()
      requires Fixed() && nodes == f.nodes && phi == map[] && |bodies| == |pre| == |f.blocks|
      requires forall b: Label :: b < |f.blocks| ==> bodies[b] == f.blocks[b].body && pre[b] == []
      modifies `nodes, currentDef
      ensures Placing()
    {
      hide PlaceInv, LastStore, BegunTo;
      CollectDefs();
      NothingBegun(f, Elems(slots), asWritten, nodes);
      NothingPlaced(f, Elems(slots), nodes, bodies, pre);
    }

    // Phase 1.
    method InsertAllPhis(df: seq<seq<Label>>)
      requires Fixed() && nodes == f.nodes && phi == map[] && |bodies| == |pre| == |f.blocks| && |df| == bbCount
      requires forall b: Label :: b < |f.blocks| ==> bodies[b] == f.blocks[b].body && pre[b] == []
      requires forall x, y: Label :: 0 <= x < bbCount && y in df[x] ==> 0 < y < bbCount
      modifies this, currentDef
      ensures Placing()
      ensures forall v: nat :: v < |slots| ==> PhisAtIdf(f, df, phi, slots[v])
    {
      assert Shape(f) && Distinct(slots);
      hide IsIdf, PlaceInv, PhiFree, PhisAtIdf, Placing, Fixed, Grown;
      StartPlacing();
      var v: nat := 0;
      while v < |slots|
        invariant v <= |slots| && Placing()
        invariant forall u: nat :: u < v ==> PhisAtIdf(f, df, phi, slots[u])
        invariant forall u: nat, b: Label :: v <= u < |slots| ==> (slots[u], b) !in phi
      {
        ghost var phi0 := phi;
        InsertPhis(v, df);
        OtherPhis(f, slots, df, phi0, phi, v);
        v := v + 1;
      }
    }

    lemma PlacedIsStatic(pl: Plan)
      requires Placing() && doms.Length == bbCount && PlanOk(f, pl) && Coherent(f, Elems(slots))
      requires pl == Plan(Elems(slots), phi, doms[..], pl.tops, asWritten) && AreEntryTops(Su(pl), pl.tops)
      ensures Static(pl)
    {
      hide ExactDoms, BodyPlaced, PhiPlaced, OnlyAddresses, WellFormed, StoredFits, AreEntryTops;
      forall v: nat | v < |slots| ensures slots[v] in Elems(slots) {
      }
    }

    // Phase 2.
    method RenameAll(ghost pl: Plan)
      requires Placing() && doms.Length == bbCount && PlanOk(f, pl) && Coherent(f, Elems(slots))
      requires pl == Plan(Elems(slots), phi, doms[..], pl.tops, asWritten) && AreEntryTops(Su(pl), pl.tops)
      modifies `nodes, `stack, `heights, `used
      ensures Walking(pl, Progress(Range(|f.blocks|), |f.blocks|, 0, {}))
    {
      hide Placing, PlanOk, Walking, Subtree, AreEntryTops, Coherent, Entry, Visit, SetupOk, ExactDoms;
      WalkStarts(pl);
      stack, heights, used := seq(|slots|, _ => Stack([], 0)), map[], 0;
      assert Now() == Start(Su(pl));
      assert {} + Subtree(GraphOf(f), pl.doms, 0) == Range(|f.blocks|);
      SsaRename(0, pl, Progress({}, |f.blocks|, 0, {}));
    }

    lemma WalkStarts(pl: Plan)
      requires Placing() && doms.Length == bbCount && PlanOk(f, pl) && Coherent(f, Elems(slots))
      requires pl == Plan(Elems(slots), phi, doms[..], pl.tops, asWritten) && AreEntryTops(Su(pl), pl.tops)
      ensures Walking(pl, Progress({}, |f.blocks|, 0, {}))
      ensures 0 < bbCount == |f.blocks| && SetupOk(Su(pl)) && Entry(Su(pl), 0) == Start(Su(pl))
      ensures ExactDoms(GraphOf(f), pl.doms) && Subtree(GraphOf(f), pl.doms, 0) == Range(|f.blocks|)
    {
      PlacedIsStatic(pl);
      StartRenaming(f, Elems(slots), nodes, bodies, pre, pl, junk);
      WholeTree(f, pl);
      hide AreEntryTops, ExactDoms, Coherent, PhiFree, RenameInv, PlaceInv;
    }

    // The function as it is now.
    function Result(): Function
      requires |bodies| == |ends|
      reads `nodes, `bodies
    {
      var bs := bodies;
      Function(nodes, seq(|bs|, b requires 0 <= b < |bs| => Block(bs[b], ends[b])), types)
    }
  }

  // No dominance frontier is computed for ever.
  ghost predicate FrontiersEnd(g: Graph)
    requires |g| > 0
  {
    forall D :: ExactDoms(g, D) ==> AllRunnersStop(g, PredTable(g), D)
  }

  // In particular when every block is reachable.
  lemma ReachableFrontiersEnd(g: Graph)
    requires |g| > 0 && forall b: Label :: b < |g| ==> Reachable(g, b)
    ensures FrontiersEnd(g)
  {
    var preds := PredTable(g);
    hide PredTable;
    forall D | ExactDoms(g, D) ensures AllRunnersStop(g, preds, D) {
      AllRunnersStopIff(g, preds, D);
      forall b: Label, k | 0 < b < |g| && |preds[b]| >= 2 && 0 <= k < |preds[b]| ensures Reachable(g, preds[b][k]) {
        assert preds[b][k] in preds[b];
      }
    }
  }

  // mem2reg. None is a tb_todo() or an assert on the way: a TRAP among the terminators, more
  // predecessors than blocks, or a first predecessor that the dominator sweep has not reached.
  method PromoteSlots(f: Function, asWritten: bool, junk: Reg)
    returns (r: Option<Function>)
    requires Ready(f) && FrontiersEnd(GraphOf(f))
    ensures SlotsOf(f) == {} ==> r == Some(f)
    ensures SlotsOf(f) != {} ==> (r.None? <==> Unsupported(GraphOf(f)))
    ensures SlotsOf(f) != {} && r.Some? ==> Promoted(f, asWritten, junk, r.value)
  {
    assert Shape(f);
    hide ExactDoms, FirstPredsLater, PhiFree, SsaForm, IsPredTable, AllRunnersStop, PassResult, Coherent,
         Promoted, Promotable, SlotsOf;
    var g := GraphOf(f);
    var slots := ChooseSlots(f);
    NoSlots(f, slots);
    if |slots| == 0 {
      return Some(f);
    }
    var ps := GetPredecessors(g);
    if ps.None? {
      return None;
    }
    var doms := new int[|g|];
    var ok := GetDominators(g, ps.value, doms);
    if !ok {
      return None;
    }
    var df := GetDominanceFrontiers(g, ps.value, doms);
    assert df[..] == FrontierTable(f);
    var h := Promote(f, slots, asWritten, junk, doms, df[..]);
    return Some(h);
  }

  lemma NoSlots(f: Function, slots: seq<Reg>)
    requires Shape(f) && SlotsOf(f) == Elems(slots)
    ensures SlotsOf(f) == {} <==> |slots| == 0
  {
    hide SlotsOf, Shape;
    if |slots| > 0 { assert slots[0] in SlotsOf(f); }
  }

  method Promote(f: Function, slots: seq<Reg>, asWritten: bool, junk: Reg, doms: array<int>, df: seq<seq<Label>>)
    returns (h: Function)
    requires Ready(f) && slots == SlotList(f)
    requires ExactDoms(GraphOf(f), doms[..]) && df == FrontierTable(f)
    ensures Promoted(f, asWritten, junk, h)
  {
    hide ExactDoms, FrontierTable, PhisExact, PhiFree, Coherent, Rewritten, ReadsExactly, PlanOk, Ready, WellFormed,
         SlotList,
         PlaceInv, AreEntryTops;
    PromoteStart(f, slots, doms[..]);
    FrontiersFit(f, df);
    var p := new Promoter(f, slots, doms, asWritten, junk);
    p.InsertAllPhis(df);
    ghost var pl := Plan(Elems(slots), p.phi, doms[..], EntryTops(Setup(f, slots, p.phi, doms[..], asWritten)),
                           asWritten);
    PlanFits(f, slots, pl, p.nodes, p.bodies, p.pre);
    WorklistExact(f, slots, pl);
    p.RenameAll(pl);
    h := p.Result();
    assert Bodies(h) == p.bodies;
    RenamingFinished(f, pl, junk, h, p.pre);
    assert PassResult(f, asWritten, junk, h, pl, p.pre);
  }

  lemma PromoteStart(f: Function, slots: seq<Reg>, D: Doms)
    requires Ready(f) && slots == SlotList(f) && ExactDoms(GraphOf(f), D)
    ensures Shape(f) && |D| == |f.blocks| && Distinct(slots) && Coherent(f, Elems(slots)) && PhiFree(f, slots)
  {
  }
}
