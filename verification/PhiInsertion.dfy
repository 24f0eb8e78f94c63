// src/tb/opt/mem2reg.c:496-548: the worklist that places phis over the dominance frontiers,
// and what the node table looks like while it runs.

module PhiInsertion {
  import opened Finite
  import opened Cfg
  import opened Predecessors
  import opened Ir
  import opened Promotion

  lemma {:induction false} LocalDefSome(f: Function, a: Reg, b: Label, k: nat)
    requires Shape(f) && b < |f.blocks| && k <= |f.blocks[b].body|
    ensures LocalDef(f, a, b, k).Some? <==>
              exists j :: 0 <= j < k && Stored(f, f.blocks[b].body[j], a).Some?
  {
    if k > 0 { LocalDefSome(f, a, b, k - 1); }
  }

  lemma LastStoreSome(f: Function, a: Reg, b: Label)
    requires Shape(f) && b < |f.blocks|
    ensures LastStore(f, a, b).Some? <==> HasStore(f, a, b)
  {
    LocalDefSome(f, a, b, |f.blocks[b].body|);
    if HasStore(f, a, b) {
      var k :| 0 <= k < |f.blocks[b].body| && f.blocks[b].body[k] < |f.nodes|
               && Stored(f, f.blocks[b].body[k], a).Some?;
    }
    if LastStore(f, a, b).Some? {
      var j :| 0 <= j < |f.blocks[b].body| && Stored(f, f.blocks[b].body[j], a).Some?;
      assert f.blocks[b].body[j] < |f.nodes|;
    }
  }

  // ----- The iterated dominance frontier -----

  // T holds the frontier of every block in defs and of its own blocks.
  ghost predicate FrontierClosed(df: seq<seq<Label>>, defs: set<Label>, T: set<Label>)
  {
    forall x: Label, y :: x < |df| && (x in defs || x in T) && y in df[x] ==> y in T
  }

  // The least such set.
  ghost predicate IsIdf(df: seq<seq<Label>>, defs: set<Label>, T: set<Label>)
  {
    FrontierClosed(df, defs, T) && forall S: set<Label> :: FrontierClosed(df, defs, S) ==> T <= S
  }

  // ----- The worklist -----

  // `queue` holds the blocks that define the slot, each once; the first i have been treated.
  ghost predicate WorkInv(df: seq<seq<Label>>, defs: set<Label>, phis: set<Label>, queue: seq<Label>, i: nat)
  {
    && i <= |queue|
    && Distinct(queue)
    && (forall x :: x in queue <==> x in defs || x in phis)
    && (forall k :: 0 <= k < |queue| ==> queue[k] < |df|)
    && (forall k, y :: 0 <= k < i && y in df[queue[k]] ==> y in phis)
    && (forall S: set<Label> :: FrontierClosed(df, defs, S) ==> phis <= S)
  }

  // Treating queue[i] has come to entry k of its frontier.
  ghost predicate WorkInvAt(df: seq<seq<Label>>, defs: set<Label>, phis: set<Label>, queue: seq<Label>, i: nat, k: nat)
  {
    && WorkInv(df, defs, phis, queue, i)
    && i < |queue| && queue[i] < |df| && k <= |df[queue[i]]|
    && forall j :: 0 <= j < k ==> df[queue[i]][j] in phis
  }

  lemma WorkOne(df: seq<seq<Label>>, defs: set<Label>, phis: set<Label>, queue: seq<Label>, i: nat, k: nat,
                l: Label, queue': seq<Label>)
    requires i < |queue| && queue[i] < |df| && k < |df[queue[i]]| && l == df[queue[i]][k] && l < |df|
    requires WorkInvAt(df, defs, phis, queue, i, k)
    requires queue' == if l in queue then queue else queue + [l]
    ensures WorkInvAt(df, defs, phis + {l}, queue', i, k + 1)
  {
    var x := queue[i];
    assert queue'[i] == x;
    forall S: set<Label> | FrontierClosed(df, defs, S) ensures phis + {l} <= S {
      assert phis <= S;
      assert x in queue;
      assert l in df[x];
    }
  }

  lemma WorkNext(df: seq<seq<Label>>, defs: set<Label>, phis: set<Label>, queue: seq<Label>, i: nat)
    requires i < |queue| && queue[i] < |df| && WorkInvAt(df, defs, phis, queue, i, |df[queue[i]]|)
    ensures WorkInv(df, defs, phis, queue, i + 1)
  {
    forall y | y in df[queue[i]] ensures y in phis {
      var j :| 0 <= j < |df[queue[i]]| && df[queue[i]][j] == y;
    }
  }

  lemma WorkDone(df: seq<seq<Label>>, defs: set<Label>, phis: set<Label>, queue: seq<Label>)
    requires WorkInv(df, defs, phis, queue, |queue|)
    ensures IsIdf(df, defs, phis)
  {
    forall x: Label, y | x < |df| && (x in defs || x in phis) && y in df[x] ensures y in phis {
      assert x in queue;
      var k :| 0 <= k < |queue| && queue[k] == x;
    }
  }

  // The queue never outgrows the array of bb_count entries.
  lemma QueueFits(df: seq<seq<Label>>, defs: set<Label>, phis: set<Label>, queue: seq<Label>, i: nat)
    requires WorkInv(df, defs, phis, queue, i)
    ensures |queue| <= |df|
  {
    forall x | x in queue ensures x in Range(|df|) {
      var k :| 0 <= k < |queue| && queue[k] == x;
    }
    DistinctBounded(queue, Range(|df|));
  }

  // ----- Inserting phis -----

  // Two inputs for the same predecessor are only ever the block's own last store, twice.
  ghost predicate StartInputs(f: Function, a: Reg, l: Label, ins: seq<PhiInput>)
    requires Shape(f) && l < |f.blocks|
  {
    forall i, j :: 0 <= i < j < |ins| && ins[i].from == ins[j].from ==>
      ins[i].from == l && LastStore(f, a, l) == Some(ins[i].val) == Some(ins[j].val)
  }

  // The node table and the block bodies while phis are inserted.
  ghost predicate PlaceInv(f: Function, slots: set<Reg>, nodes: seq<Node>, bodies: seq<seq<Reg>>,
                           phi: map<(Reg, Label), Reg>, pre: seq<seq<Reg>>)
    requires Shape(f)
  {
    && |nodes| >= |f.nodes|
    && |bodies| == |pre| == |f.blocks|
    && (forall b: Label :: b < |f.blocks| ==> BodyPlaced(f, bodies, phi, pre, b))
    && (forall a: Reg, b: Label :: (a, b) in phi ==> PhiPlaced(f, slots, nodes, phi, pre, a, b))
    && (forall x, y :: x in phi && y in phi && phi[x] == phi[y] ==> x == y)
  }

  ghost predicate BodyPlaced(f: Function, bodies: seq<seq<Reg>>, phi: map<(Reg, Label), Reg>, pre: seq<seq<Reg>>,
                             b: Label)
    requires b < |f.blocks| && b < |bodies| && b < |pre|
  {
    && bodies[b] == pre[b] + f.blocks[b].body
    && Distinct(pre[b])
    && forall i :: 0 <= i < |pre[b]| ==> PhiOf(phi, b, pre[b][i])
  }

  ghost predicate PhiOf(phi: map<(Reg, Label), Reg>, b: Label, r: Reg)
  {
    exists a: Reg :: (a, b) in phi && phi[(a, b)] == r
  }

  ghost predicate PhiPlaced(f: Function, slots: set<Reg>, nodes: seq<Node>, phi: map<(Reg, Label), Reg>,
                            pre: seq<seq<Reg>>, a: Reg, b: Label)
    requires Shape(f) && (a, b) in phi && |pre| == |f.blocks|
  {
    var r := phi[(a, b)];
    && a in slots && 0 < b < |f.blocks|
    && |f.nodes| <= r < |nodes|
    && r in pre[b]
    && nodes[r].Phi? && StartInputs(f, a, b, nodes[r].inputs)
  }

  lemma NothingPlaced(f: Function, slots: set<Reg>, nodes: seq<Node>, bodies: seq<seq<Reg>>, pre: seq<seq<Reg>>)
    requires Shape(f) && |bodies| == |pre| == |f.blocks| && |nodes| >= |f.nodes|
    requires forall b: Label :: b < |f.blocks| ==> bodies[b] == f.blocks[b].body && pre[b] == []
    ensures PlaceInv(f, slots, nodes, bodies, map[], pre)
  {
    forall b: Label | b < |f.blocks| ensures BodyPlaced(f, bodies, map[], pre, b) {
      assert [] + f.blocks[b].body == f.blocks[b].body;
    }
  }

  // A phi for slot a goes to the front of block l.
  lemma PlaceStep(f: Function, slots: set<Reg>, nodes: seq<Node>, bodies: seq<seq<Reg>>,
                  phi: map<(Reg, Label), Reg>, pre: seq<seq<Reg>>, a: Reg, l: Label, ins: seq<PhiInput>)
    requires Shape(f) && PlaceInv(f, slots, nodes, bodies, phi, pre)
    requires a in slots && 0 < l < |f.blocks| && (a, l) !in phi && StartInputs(f, a, l, ins)
    ensures PlaceInv(f, slots, nodes + [Phi(ins)], bodies[l := [|nodes|] + bodies[l]],
                     phi[(a, l) := |nodes|], pre[l := [|nodes|] + pre[l]])
  {
    var r := |nodes|;
    var nodes1, bodies1 := nodes + [Phi(ins)], bodies[l := [r] + bodies[l]];
    var phi1, pre1 := phi[(a, l) := r], pre[l := [r] + pre[l]];
    forall c: Reg, b: Label | (c, b) in phi1 ensures PhiPlaced(f, slots, nodes1, phi1, pre1, c, b) {
      if (c, b) != (a, l) {
        assert PhiPlaced(f, slots, nodes, phi, pre, c, b);
      }
    }
    forall b: Label | b < |f.blocks| ensures BodyPlaced(f, bodies1, phi1, pre1, b) {
      PlaceBody(f, slots, nodes, bodies, phi, pre, a, l, r, ins, b);
    }
    forall x, y | x in phi1 && y in phi1 && phi1[x] == phi1[y] ensures x == y {
      assert x != (a, l) ==> PhiPlaced(f, slots, nodes, phi, pre, x.0, x.1);
      assert y != (a, l) ==> PhiPlaced(f, slots, nodes, phi, pre, y.0, y.1);
    }
  }

  lemma PlaceBody(f: Function, slots: set<Reg>, nodes: seq<Node>, bodies: seq<seq<Reg>>,
                  phi: map<(Reg, Label), Reg>, pre: seq<seq<Reg>>, a: Reg, l: Label, r: Reg, ins: seq<PhiInput>,
                    b: Label)
    requires Shape(f) && PlaceInv(f, slots, nodes, bodies, phi, pre)
    requires 0 < l < |f.blocks| && (a, l) !in phi && r == |nodes| && b < |f.blocks|
    ensures BodyPlaced(f, bodies[l := [r] + bodies[l]],
                       phi[(a, l) := r], pre[l := [r] + pre[l]], b)
  {
    var phi1, pre1 := phi[(a, l) := r], pre[l := [r] + pre[l]];
    assert BodyPlaced(f, bodies, phi, pre, b);
    forall i | 0 <= i < |pre[b]| ensures PhiOf(phi1, b, pre[b][i]) && pre[b][i] < r {
      assert PhiOf(phi, b, pre[b][i]);
      var c: Reg :| (c, b) in phi && phi[(c, b)] == pre[b][i];
      assert PhiPlaced(f, slots, nodes, phi, pre, c, b);
      assert (c, b) in phi1 && phi1[(c, b)] == pre[b][i];
    }
    assert b == l ==> (a, b) in phi1 && phi1[(a, b)] == r;
    assert [r] + pre[l] + f.blocks[l].body == [r] + (pre[l] + f.blocks[l].body);
  }

  // current_def: the phi of a block if it has one, else its last store, else 0.
  ghost function Current(f: Function, phi: map<(Reg, Label), Reg>, a: Reg, b: Label): Reg
    requires Shape(f) && b < |f.blocks|
  {
    if (a, b) in phi then phi[(a, b)] else LastStore(f, a, b).GetOr(0)
  }

  lemma CurrentOne(f: Function, phi: map<(Reg, Label), Reg>, a: Reg, l: Label, r: Reg, c: Reg, b: Label)
    requires Shape(f) && b < |f.blocks|
    ensures Current(f, phi[(a, l) := r], c, b) == if c == a && b == l then r else Current(f, phi, c, b)
  {
    hide LastStore, Shape;
    assert (c, b) == (a, l) <==> c == a && b == l;
  }

  lemma DifferentSlots(slots: seq<Reg>, u: nat, v: nat)
    requires Distinct(slots) && u < |slots| && v < |slots| && u != v
    ensures slots[u] != slots[v]
  {
  }

  // The node that phase 1 leaves: as written, it turns the memset of a slot into a constant.
  function StartNode(n: Node, slots: set<Reg>, asWritten: bool): Node
  {
    if asWritten && n.Clear? && n.address in slots then Pure(ZERO, []) else n
  }

  // Phase 1 has come to position k of block b.
  ghost predicate BegunTo(f: Function, slots: set<Reg>, asWritten: bool, nodes: seq<Node>, b: nat, k: nat)
    requires Shape(f)
  {
    && |nodes| >= |f.nodes| && (forall r: Reg :: r < |f.nodes| ==> !nodes[r].Phi?)
    && forall c: Label, j: nat :: c < |f.blocks| && j < |f.blocks[c].body| ==>
         var r := f.blocks[c].body[j];
         nodes[r] == if c < b || (c == b && j < k) then StartNode(f.nodes[r], slots, asWritten) else f.nodes[r]
  }

  ghost predicate Begun(f: Function, slots: set<Reg>, asWritten: bool, nodes: seq<Node>)
    requires Shape(f)
  {
    BegunTo(f, slots, asWritten, nodes, |f.blocks|, 0)
  }

  lemma NoneBegun(f: Function, slots: set<Reg>, asWritten: bool)
    requires Shape(f) && forall r: Reg :: r < |f.nodes| ==> !f.nodes[r].Phi?
    ensures BegunTo(f, slots, asWritten, f.nodes, 0, 0)
  {
  }

  lemma NothingBegun(f: Function, slots: set<Reg>, asWritten: bool, nodes: seq<Node>)
    requires Shape(f) && Begun(f, slots, asWritten, nodes)
    ensures |nodes| >= |f.nodes|
  {
  }

  lemma BlockBegun(f: Function, slots: set<Reg>, asWritten: bool, nodes: seq<Node>, b: Label)
    requires Shape(f) && b < |f.blocks| && BegunTo(f, slots, asWritten, nodes, b, |f.blocks[b].body|)
    ensures BegunTo(f, slots, asWritten, nodes, b + 1, 0)
  {
    hide StartNode;
  }

  lemma NodeBegun(f: Function, slots: set<Reg>, asWritten: bool, nodes: seq<Node>, b: Label, k: nat)
    requires Shape(f) && b < |f.blocks| && k < |f.blocks[b].body| && BegunTo(f, slots, asWritten, nodes, b, k)
    ensures f.blocks[b].body[k] < |f.nodes| <= |nodes|
    ensures nodes[f.blocks[b].body[k]] == f.nodes[f.blocks[b].body[k]]
    ensures BegunTo(f, slots, asWritten,
                    nodes[f.blocks[b].body[k] := StartNode(f.nodes[f.blocks[b].body[k]], slots, asWritten)], b, k + 1)
  {
    var r := f.blocks[b].body[k];
    var nodes1 := nodes[r := StartNode(f.nodes[r], slots, asWritten)];
    forall c: Label, j: nat | c < |f.blocks| && j < |f.blocks[c].body|
      ensures var q := f.blocks[c].body[j];
              nodes1[q] == if c < b || (c == b && j < k + 1) then StartNode(f.nodes[q], slots, asWritten)
                           else f.nodes[q]
    {
      if f.blocks[c].body[j] == r { assert c == b && j == k; }
    }
  }

  // What phase 1 asks of the function: no phis, no null operands, slots listed once. A memset has
  // no value that could be stored.
  ghost predicate PhiFree(f: Function, slots: seq<Reg>)
  {
    && Shape(f) && |f.nodes| > 0 && f.nodes[0] == Null
    && (forall r: Reg :: r < |f.nodes| ==> !f.nodes[r].Phi?)
    && (forall b: Label, k: nat, a: Reg :: b < |f.blocks| && k < |f.blocks[b].body| ==> StoredFits(f, b, k, a))
    && Distinct(slots)
  }

  ghost predicate StoredFits(f: Function, b: Label, k: nat, a: Reg)
    requires Shape(f) && b < |f.blocks| && k < |f.blocks[b].body|
  {
    var r := f.blocks[b].body[k];
    var s := Stored(f, r, a);
    s.Some? ==> 0 < s.value < |f.nodes| && (f.nodes[s.value].Clear? ==> f.nodes[r].Clear?)
  }

  lemma {:induction false} LocalDefFits(f: Function, slots: seq<Reg>, a: Reg, b: Label, k: nat)
    requires PhiFree(f, slots) && b < |f.blocks| && k <= |f.blocks[b].body|
    ensures LocalDef(f, a, b, k).Some? ==> 0 < LocalDef(f, a, b, k).value < |f.nodes|
  {
    if k > 0 {
      assert StoredFits(f, b, k - 1, a);
      LocalDefFits(f, slots, a, b, k - 1);
    }
  }

  ghost function StoreBlocks(f: Function, a: Reg): (s: set<Label>)
    requires Shape(f)
    ensures forall b: Label :: b in s <==> b < |f.blocks| && LastStore(f, a, b).Some?
  {
    set b | b in Range(|f.blocks|) && LastStore(f, a, b).Some?
  }

  ghost function PhiBlocks(f: Function, phi: map<(Reg, Label), Reg>, a: Reg): (s: set<Label>)
    ensures forall b: Label :: b in s <==> b < |f.blocks| && (a, b) in phi
  {
    set b | b in Range(|f.blocks|) && (a, b) in phi
  }

  // add_phi_operand: a Null node is a phi without inputs, and a phi never names itself.
  function AddPhiOperand(n: Node, phiReg: Reg, from: Label, val: Reg): Node
    requires n.Null? || n.Phi?
  {
    if val == phiReg then n
    else if n.Null? then Phi([PhiInput(from, val)])
    else Phi(n.inputs + [PhiInput(from, val)])
  }

  // The inputs a new phi starts with.
  lemma FirstInputs(f: Function, slots: seq<Reg>, nodes: seq<Node>, bodies: seq<seq<Reg>>, phi: map<(Reg, Label), Reg>,
                    pre: seq<seq<Reg>>, a: Reg, l: Label, bb: Label, value: Reg)
    requires PhiFree(f, slots) && PlaceInv(f, Elems(slots), nodes, bodies, phi, pre) && l < |f.blocks|
    requires (a, l) !in phi && 0 < value < |nodes| && (bb == l ==> LastStore(f, a, l) == Some(value))
    ensures var cur := Current(f, phi, a, l);
            var n0 := if cur != 0 then AddPhiOperand(Null, |nodes|, l, cur) else Null;
            (n0.Null? || n0.Phi?) && var n1 := AddPhiOperand(n0, |nodes|, bb, value);
            n1.Phi? && StartInputs(f, a, l, n1.inputs)
  {
    LocalDefFits(f, slots, a, l, |f.blocks[l].body|);
  }

  lemma PushDistinct(s: seq<Label>, x: Label)
    requires Distinct(s) && x !in s
    ensures Distinct(s + [x])
  {
  }

  lemma WorkStarts(df: seq<seq<Label>>, defs: set<Label>, queue: seq<Label>)
    requires Distinct(queue) && (forall b :: b in queue <==> b in defs) && forall b :: b in defs ==> b < |df|
    ensures WorkInv(df, defs, {}, queue, 0)
  {
    forall k | 0 <= k < |queue| ensures queue[k] < |df| {
      assert queue[k] in queue;
    }
  }

  lemma WorkBlock(df: seq<seq<Label>>, defs: set<Label>, phis: set<Label>, queue: seq<Label>, i: nat)
    requires WorkInv(df, defs, phis, queue, i) && i < |queue|
    ensures queue[i] < |df| && (queue[i] in defs || queue[i] in phis)
  {
    assert queue[i] in queue;
  }

  lemma WorkCovers(df: seq<seq<Label>>, defs: set<Label>, phis: set<Label>, queue: seq<Label>, i: nat, k: nat)
    requires WorkInvAt(df, defs, phis, queue, i, k)
    ensures forall x :: x in phis ==> x in queue
  {
  }

  lemma WorkEnters(df: seq<seq<Label>>, defs: set<Label>, phis: set<Label>, queue: seq<Label>, i: nat)
    requires WorkInv(df, defs, phis, queue, i) && i < |queue|
    ensures WorkInvAt(df, defs, phis, queue, i, 0)
  {
  }

  ghost predicate Grown(phi0: map<(Reg, Label), Reg>, phi: map<(Reg, Label), Reg>, a: Reg)
  {
    && (forall x :: x in phi0 ==> x in phi && phi[x] == phi0[x])
    && (forall x :: x in phi ==> x in phi0 || x.0 == a)
  }

  // The two marker sets.
  ghost predicate Marks(queue: seq<Label>, phis: set<Label>, ever: seq<bool>, has: seq<bool>)
  {
    && (forall b: Label :: b < |ever| ==> (ever[b] <==> b in queue))
    && (forall b: Label :: b < |has| ==> (has[b] <==> b in phis))
  }

  lemma GrownMore(phi0: map<(Reg, Label), Reg>, phi: map<(Reg, Label), Reg>, a: Reg, l: Label, r: Reg)
    requires Grown(phi0, phi, a)
    ensures (a, l) !in phi ==> Grown(phi0, phi[(a, l) := r], a)
  {
  }

  lemma MorePhis(f: Function, phi: map<(Reg, Label), Reg>, a: Reg, l: Label, r: Reg)
    requires l < |f.blocks|
    ensures l in PhiBlocks(f, phi, a) <==> (a, l) in phi
    ensures PhiBlocks(f, phi[(a, l) := r], a) == PhiBlocks(f, phi, a) + {l}
  {
  }

  // Block l gets its phi and joins the queue if it is not there.
  lemma MoreMarks(phis: set<Label>, l: Label, queue: seq<Label>, ever: seq<bool>, has: seq<bool>)
    requires l < |ever| && l < |has| && Marks(queue, phis, ever, has) && (l in phis ==> l in queue)
    ensures (has[l] <==> l in phis) && (ever[l] <==> l in queue)
    ensures l in phis ==> phis + {l} == phis
    ensures ever[l] ==> ever[l := true] == ever
    ensures Marks(if l in queue then queue else queue + [l], phis + {l}, ever[l := true], has[l := true])
  {
  }

  lemma StoresBelow(f: Function, a: Reg)
    requires Shape(f)
    ensures forall b :: b in StoreBlocks(f, a) ==> b < |f.blocks|
  {
  }

  lemma QueueSize(queue: seq<Label>, defs: set<Label>)
    requires Distinct(queue) && forall b :: b in queue <==> b in defs
    ensures |queue| == |defs|
  {
    assert Elems(queue) == defs;
    DistinctSize(queue);
  }

  // A queued block has a definition to hand on.
  lemma ValueKnown(f: Function, slots: seq<Reg>, nodes: seq<Node>, bodies: seq<seq<Reg>>,
                   phi: map<(Reg, Label), Reg>, pre: seq<seq<Reg>>, a: Reg, b: Label)
    requires PhiFree(f, slots) && PlaceInv(f, Elems(slots), nodes, bodies, phi, pre) && b < |f.blocks|
    requires LastStore(f, a, b).Some? || (a, b) in phi
    ensures 0 < Current(f, phi, a, b) < |nodes|
    ensures (a, b) !in phi ==> LastStore(f, a, b) == Some(Current(f, phi, a, b))
  {
    LocalDefFits(f, slots, a, b, |f.blocks[b].body|);
    if (a, b) in phi {
      assert PhiPlaced(f, Elems(slots), nodes, phi, pre, a, b);
    }
  }

  // Where phase 1 leaves phis for slot a: at the iterated frontier of the blocks that store to
  // it, if there are two or more.
  ghost predicate PhisAtIdf(f: Function, df: seq<seq<Label>>, phi: map<(Reg, Label), Reg>, a: Reg)
    requires Shape(f)
  {
    if |StoreBlocks(f, a)| > 1 then IsIdf(df, StoreBlocks(f, a), PhiBlocks(f, phi, a)) else PhiBlocks(f, phi, a) == {}
  }

  lemma OtherPhis(f: Function, slots: seq<Reg>, df: seq<seq<Label>>, phi: map<(Reg, Label), Reg>,
                  phi1: map<(Reg, Label), Reg>, v: nat)
    requires Shape(f) && Distinct(slots) && v < |slots|
    requires Grown(phi, phi1, slots[v]) && PhisAtIdf(f, df, phi1, slots[v])
    requires forall u: nat :: u < v ==> PhisAtIdf(f, df, phi, slots[u])
    requires forall u: nat, b: Label :: v <= u < |slots| ==> (slots[u], b) !in phi
    ensures forall u: nat :: u <= v ==> PhisAtIdf(f, df, phi1, slots[u])
    ensures forall u: nat, b: Label :: v < u < |slots| ==> (slots[u], b) !in phi1
  {
    hide IsIdf;
    forall u: nat | u < v ensures PhisAtIdf(f, df, phi1, slots[u]) {
      assert PhisAtIdf(f, df, phi, slots[u]);
      assert slots[u] != slots[v];
      assert PhiBlocks(f, phi1, slots[u]) == PhiBlocks(f, phi, slots[u]);
    }
  }
}
