// src/tb/opt/canonical.c:81-305: PASS removal by a table, in one sweep over all nodes, on any graph.

module PassSweep {
  import opened Finite
  import opened Cfg
  import opened Predecessors
  import opened Ir
  import opened Ssa
  import opened Replacing
  import opened Coherency
  import opened Passes

  // ----- Chains of passes -----

  // The nodes that stand in some block.
  ghost function ListedNodes(f: Function): (ns: seq<Node>)
    ensures |ns| == |f.nodes|
    ensures forall q: Reg :: q < |ns| ==> ns[q] == if Listed(f, q) then f.nodes[q] else Null
  {
    seq(|f.nodes|, q requires 0 <= q < |f.nodes| => if Listed(f, q) then f.nodes[q] else Null)
  }

  // How many passes are followed from u, if at most n.
  ghost function LenTo(f: Function, u: Reg, n: nat): nat
    decreases n
  {
    if n == 0 || !IsPass(f, u) then 0 else 1 + LenTo(f, f.nodes[u].src, n - 1)
  }

  // No PASS leads round in a circle, which the source might follow for ever.
  ghost predicate ChainsStop(f: Function)
  {
    forall u: Reg :: !IsPass(f, Chase(ListedNodes(f), u, |f.nodes|))
  }

  ghost function Len(f: Function, u: Reg): nat
  {
    LenTo(f, u, |f.nodes|)
  }

  lemma {:induction false} LenEnough(f: Function, u: Reg, n: nat)
    requires !IsPass(f, Chase(ListedNodes(f), u, n))
    ensures LenTo(f, u, n + 1) == LenTo(f, u, n)
    decreases n
  {
    if n > 0 && IsPass(f, u) { LenEnough(f, f.nodes[u].src, n - 1); }
  }

  lemma LenStep(f: Function, u: Reg)
    requires ChainsStop(f) && IsPass(f, u)
    ensures Len(f, u) == Len(f, f.nodes[u].src) + 1
  {
    LenEnough(f, u, |f.nodes|);
  }

  // The first register on the chain from u that is no PASS visited before position k of block b.
  ghost function Skip(f: Function, u: Reg, b: nat, k: nat): Reg
    requires ChainsStop(f)
    decreases Len(f, u)
  {
    if IsPass(f, u) && Earlier(f, u, b, k) then
      LenStep(f, u);
      Skip(f, f.nodes[u].src, b, k)
    else u
  }

  lemma {:induction false} SkipShorter(f: Function, u: Reg, b: nat, k: nat)
    requires ChainsStop(f)
    ensures Len(f, Skip(f, u, b, k)) <= Len(f, u)
    ensures !(IsPass(f, Skip(f, u, b, k)) && Earlier(f, Skip(f, u, b, k), b, k))
    decreases Len(f, u)
  {
    hide Earlier, Listed;
    if IsPass(f, u) && Earlier(f, u, b, k) {
      LenStep(f, u);
      SkipShorter(f, f.nodes[u].src, b, k);
    }
  }

  ghost predicate Until(c: nat, j: nat, b: nat, k: nat)
  {
    c < b || (c == b && j <= k)
  }

  // Going on from where one stopped earlier.
  lemma {:induction false} SkipOn(f: Function, u: Reg, c: nat, j: nat, b: nat, k: nat)
    requires ChainsStop(f) && Until(c, j, b, k)
    ensures Skip(f, Skip(f, u, c, j), b, k) == Skip(f, u, b, k)
    decreases Len(f, u)
  {
    if IsPass(f, u) && Earlier(f, u, c, j) {
      EarlierOn(f, u, c, j, b, k);
      LenStep(f, u);
      SkipOn(f, f.nodes[u].src, c, j, b, k);
    }
  }

  lemma EarlierOn(f: Function, u: Reg, c: nat, j: nat, b: nat, k: nat)
    requires Until(c, j, b, k) && Earlier(f, u, c, j)
    ensures Earlier(f, u, b, k)
  {
    var d: Label, i: nat :| Before(f, d, i, c, j) && f.blocks[d].body[i] == u;
    assert Before(f, d, i, b, k);
  }

  // ----- Which chains stop -----

  // A strict order in which every PASS comes after its source, if that is a PASS too.
  ghost predicate OrdersPasses(f: Function, r: (Reg, Reg) -> bool)
  {
    && (forall u: Reg :: IsPass(f, u) ==> !r(u, u))
    && (forall p: Reg, q: Reg, u: Reg ::
         IsPass(f, p) && IsPass(f, q) && IsPass(f, u) && r(p, q) && r(q, u) ==> r(p, u))
    && (forall u: Reg :: IsPass(f, u) && IsPass(f, f.nodes[u].src) ==> r(f.nodes[u].src, u))
  }

  ghost function Ahead(f: Function, r: (Reg, Reg) -> bool, u: Reg): set<Reg>
  {
    set q: Reg | q < |f.nodes| && IsPass(f, q) && r(q, u)
  }

  lemma {:induction false} OrderStops(f: Function, r: (Reg, Reg) -> bool, u: Reg, n: nat)
    requires OrdersPasses(f, r) && (IsPass(f, u) ==> |Ahead(f, r, u)| < n)
    ensures !IsPass(f, Chase(ListedNodes(f), u, n))
    decreases n
  {
    if IsPass(f, u) {
      var s := f.nodes[u].src;
      if IsPass(f, s) { SmallerSet(Ahead(f, r, s), Ahead(f, r, u), s); }
      OrderStops(f, r, s, n - 1);
    }
  }

  lemma OrderedStop(f: Function, r: (Reg, Reg) -> bool)
    requires OrdersPasses(f, r)
    ensures ChainsStop(f)
  {
    forall u: Reg ensures !IsPass(f, Chase(ListedNodes(f), u, |f.nodes|)) {
      if IsPass(f, u) { SmallerSet(Ahead(f, r, u), Range(|f.nodes|), u); }
      OrderStops(f, r, u, |f.nodes|);
    }
  }

  ghost predicate ListedAt(f: Function, q: Reg, b: Label, k: nat)
  {
    b < |f.blocks| && k < |f.blocks[b].body| && f.blocks[b].body[k] == q
  }

  ghost predicate ListedAhead(f: Function, p: Reg, q: Reg)
  {
    exists b: Label, k: nat :: ListedAt(f, q, b, k) && Earlier(f, p, b, k)
  }

  // No chain is circular where no operand names a PASS that comes later.
  lemma FirstStops(f: Function)
    requires Shape(f) && PassesFirst(f)
    ensures ChainsStop(f)
  {
    var r := (p: Reg, q: Reg) => ListedAhead(f, p, q);
    forall u: Reg | IsPass(f, u) ensures !r(u, u) && (IsPass(f, f.nodes[u].src) ==> r(f.nodes[u].src, u)) {
      var b: Label, k: nat :| b < |f.blocks| && k < |f.blocks[b].body| && f.blocks[b].body[k] == u;
      assert ListedAt(f, u, b, k);
      forall c: Label, j: nat | ListedAt(f, u, c, j) ensures !Earlier(f, u, c, j) { EarlierStep(f, u, c, j); }
      SourceFirst(f, b, k);
    }
    forall p: Reg, q: Reg, u: Reg | r(p, q) && r(q, u) ensures r(p, u) { ListedOn(f, p, q, u); }
    OrderedStop(f, r);
  }

  lemma ListedOn(f: Function, p: Reg, q: Reg, u: Reg)
    requires Shape(f) && ListedAhead(f, p, q) && ListedAhead(f, q, u)
    ensures ListedAhead(f, p, u)
  {
    var c: Label, j: nat :| ListedAt(f, q, c, j) && Earlier(f, p, c, j);
    var b: Label, k: nat :| ListedAt(f, u, b, k) && Earlier(f, q, b, k);
    var d: Label, i: nat :| Before(f, d, i, b, k) && f.blocks[d].body[i] == q;
    EarlierOn(f, p, c, j, b, k);
  }

  ghost predicate DefinedAhead(f: Function, p: Reg, q: Reg)
  {
    exists b: Label, k: nat :: ListedAt(f, q, b, k) && Reachable(GraphOf(f), b) && DefinedBefore(f, p, b, k)
  }

  // Nor in SSA form, unless in blocks that are never reached.
  lemma ReachedStop(f: Function)
    requires Shape(f) && SsaForm(f) && forall u: Reg :: IsPass(f, u) ==> InReach(f, u)
    ensures ChainsStop(f)
  {
    var r := (p: Reg, q: Reg) => DefinedAhead(f, p, q);
    forall u: Reg | IsPass(f, u) ensures !r(u, u) && (IsPass(f, f.nodes[u].src) ==> r(f.nodes[u].src, u)) {
      ReachedSource(f, u);
      if r(u, u) {
        var c: Label, j: nat :| ListedAt(f, u, c, j) && DefinedBefore(f, u, c, j);
        NotBeforeItself(f, c, j);
      }
    }
    forall p: Reg, q: Reg, u: Reg | r(p, q) && r(q, u) ensures r(p, u) { DefinedOn(f, p, q, u); }
    OrderedStop(f, r);
  }

  lemma ReachedSource(f: Function, u: Reg)
    requires Shape(f) && SsaForm(f) && IsPass(f, u) && InReach(f, u)
    ensures DefinedAhead(f, f.nodes[u].src, u)
  {
    var b: Label :| b < |f.blocks| && u in f.blocks[b].body && Reachable(GraphOf(f), b);
    var k: nat :| k < |f.blocks[b].body| && f.blocks[b].body[k] == u;
    assert BlockDominated(f, b) && NodeDominated(f, b, k) && ListedAt(f, u, b, k);
    assert f.nodes[u].src in Uses(f.nodes[u]);
  }

  lemma DefinedOn(f: Function, p: Reg, q: Reg, u: Reg)
    requires Shape(f) && DefinedAhead(f, p, q) && DefinedAhead(f, q, u)
    ensures DefinedAhead(f, p, u)
  {
    var c: Label, j: nat :| ListedAt(f, q, c, j) && Reachable(GraphOf(f), c) && DefinedBefore(f, p, c, j);
    var b: Label, k: nat :| ListedAt(f, u, b, k) && Reachable(GraphOf(f), b) && DefinedBefore(f, q, b, k);
    hide Reachable, Sdom;
    if q in f.blocks[b].body[..k] {
      var i: nat :| i < k && f.blocks[b].body[i] == q;
      DefinedLater(f, p, b, j, k);
    } else {
      var d: Label :| d < |f.blocks| && Sdom(GraphOf(f), d, b) && q in f.blocks[d].body;
      var i: nat :| i < |f.blocks[d].body| && f.blocks[d].body[i] == q;
      DefinedLater(f, p, c, j, |f.blocks[c].body|);
      DefinedBelow(f, p, c, b);
      DefinedLater(f, p, b, 0, k);
    }
  }

  // ----- The table -----

  // def_table before position k of block b is visited.
  ghost function SweepTable(f: Function, b: nat, k: nat): Table
    requires Shape(f) && ChainsStop(f) && Place(f, b, k)
    decreases b, k
  {
    if k > 0 then
      var t, r := SweepTable(f, b, k - 1), f.blocks[b].body[k - 1];
      if f.nodes[r].Pass? then t[r := Skip(f, f.nodes[r].src, b, k - 1)] else t
    else if b == 0 then map[]
    else SweepTable(f, b - 1, |f.blocks[b - 1].body|)
  }

  // It holds exactly the passes so far, each with where its chain led when it was visited.
  ghost predicate SweepOk(f: Function, t: Table, b: nat, k: nat)
    requires Shape(f) && ChainsStop(f)
  {
    && (forall r: Reg :: r in t <==> IsPass(f, r) && Earlier(f, r, b, k))
    && (forall c: Label, j: nat :: Before(f, c, j, b, k) && IsPass(f, f.blocks[c].body[j]) ==>
         Entered(f, t, c, j))
  }

  ghost predicate Entered(f: Function, t: Table, c: Label, j: nat)
    requires Shape(f) && ChainsStop(f) && c < |f.blocks| && j < |f.blocks[c].body|
  {
    var r := f.blocks[c].body[j];
    f.nodes[r].Pass? && r in t && t[r] == Skip(f, f.nodes[r].src, c, j)
  }

  lemma {:induction false} SweepIs(f: Function, b: nat, k: nat)
    requires Shape(f) && ChainsStop(f) && Place(f, b, k)
    ensures SweepOk(f, SweepTable(f, b, k), b, k)
    decreases b, k
  {
    hide SweepOk, ChainsStop, Shape, Skip;
    if k > 0 {
      SweepIs(f, b, k - 1);
      SweepStep(f, b, k - 1);
    } else if b > 0 {
      SweepIs(f, b - 1, |f.blocks[b - 1].body|);
      SweepNext(f, SweepTable(f, b, 0), b - 1);
    } else {
      NoneSwept(f);
    }
  }

  lemma NoneSwept(f: Function)
    requires Shape(f) && ChainsStop(f)
    ensures SweepOk(f, map[], 0, 0)
  {
    hide ChainsStop, Shape;
  }

  lemma SweepStep(f: Function, b: Label, k: nat)
    requires Shape(f) && ChainsStop(f) && b < |f.blocks| && k < |f.blocks[b].body|
    requires SweepOk(f, SweepTable(f, b, k), b, k)
    ensures SweepOk(f, SweepTable(f, b, k + 1), b, k + 1)
  {
    hide SweepTable, Earlier, ChainsStop, Skip, Shape, Listed;
    var t, t1, r := SweepTable(f, b, k), SweepTable(f, b, k + 1), f.blocks[b].body[k];
    SweepOne(f, b, k);
    forall q: Reg ensures Earlier(f, q, b, k + 1) <==> Earlier(f, q, b, k) || q == r { EarlierStep(f, q, b, k); }
    EarlierStep(f, r, b, k);
    forall c: Label, j: nat | Before(f, c, j, b, k + 1) && IsPass(f, f.blocks[c].body[j]) ensures Entered(f, t1, c, j) {
      if c == b && j == k {
      } else {
        assert Before(f, c, j, b, k) && Entered(f, t, c, j);
      }
    }
  }

  lemma SweepOne(f: Function, b: Label, k: nat)
    requires Shape(f) && ChainsStop(f) && b < |f.blocks| && k < |f.blocks[b].body|
    ensures var t, r := SweepTable(f, b, k), f.blocks[b].body[k];
            && r < |f.nodes| && (IsPass(f, r) <==> f.nodes[r].Pass?)
            && SweepTable(f, b, k + 1) == if f.nodes[r].Pass? then t[r := Skip(f, f.nodes[r].src, b, k)] else t
  {
    assert Listed(f, f.blocks[b].body[k]);
  }

  lemma SweepNext(f: Function, t: Table, b: Label)
    requires Shape(f) && ChainsStop(f) && b < |f.blocks| && SweepOk(f, t, b, |f.blocks[b].body|)
    ensures SweepOk(f, t, b + 1, 0)
  {
    hide Earlier, Shape, ChainsStop, Skip;
    forall q: Reg ensures Earlier(f, q, b + 1, 0) <==> Earlier(f, q, b, |f.blocks[b].body|) { EarlierNext(f, q, b); }
    forall c: Label, j: nat | Before(f, c, j, b + 1, 0) && IsPass(f, f.blocks[c].body[j]) ensures Entered(f, t, c, j) {
      assert Before(f, c, j, b, |f.blocks[b].body|);
    }
  }

  // One step along the table is some steps along the chain.
  lemma TableStep(f: Function, t: Table, b: nat, k: nat, u: Reg)
    requires Shape(f) && ChainsStop(f) && SweepOk(f, t, b, k) && u in t
    ensures Skip(f, t[u], b, k) == Skip(f, u, b, k) && Len(f, t[u]) < Len(f, u)
  {
    var c: Label, j: nat :| Before(f, c, j, b, k) && f.blocks[c].body[j] == u;
    assert Entered(f, t, c, j);
    SkipOn(f, f.nodes[u].src, c, j, b, k);
    SkipShorter(f, f.nodes[u].src, c, j);
    LenStep(f, u);
  }

  // ----- The sweep -----

  // h is f after the sweep: every operand looked up once, when it was visited.
  ghost predicate Swept(f: Function, h: Function)
    requires Shape(f) && ChainsStop(f)
  {
    && |h.nodes| == |f.nodes| && |h.blocks| == |f.blocks| && h.types == f.types
    && (forall b: Label, k: nat :: b < |f.blocks| && k < |f.blocks[b].body| ==> SweptNode(f, h.nodes, b, k))
    && (forall q: Reg :: q < |f.nodes| && !Listed(f, q) ==> h.nodes[q] == f.nodes[q])
    && (forall b: Label :: b < |f.blocks| ==> h.blocks[b] == SweptBlock(f, b))
  }

  ghost predicate SweptNode(f: Function, nodes: seq<Node>, b: Label, k: nat)
    requires Shape(f) && ChainsStop(f) && |nodes| == |f.nodes| && b < |f.blocks| && k < |f.blocks[b].body|
  {
    var r := f.blocks[b].body[k];
    nodes[r] == if f.nodes[r].Pass? then Null else LookNode(SweepTable(f, b, k), f.nodes[r])
  }

  ghost function SweptBlock(f: Function, b: Label): Block
    requires Shape(f) && ChainsStop(f) && b < |f.blocks|
  {
    var k := |f.blocks[b].body|;
    Block(f.blocks[b].body, LookEnd(SweepTable(f, b, k), f.blocks[b].end))
  }

  // Before position k of block b is visited.
  ghost predicate Sweeping(f: Function, nodes: seq<Node>, t: Table, b: nat, k: nat)
    requires Shape(f) && ChainsStop(f)
  {
    && Place(f, b, k) && |nodes| == |f.nodes| && t == SweepTable(f, b, k)
    && (forall c: Label, j: nat :: Before(f, c, j, b, k) ==> SweptNode(f, nodes, c, j))
    && (forall q: Reg :: q < |f.nodes| && !Earlier(f, q, b, k) ==> nodes[q] == f.nodes[q])
  }

  lemma SweepingStep(f: Function, nodes: seq<Node>, t: Table, b: Label, k: nat)
    requires Shape(f) && ChainsStop(f) && Sweeping(f, nodes, t, b, k) && b < |f.blocks| && k < |f.blocks[b].body|
    ensures f.blocks[b].body[k] < |nodes| && nodes[f.blocks[b].body[k]] == f.nodes[f.blocks[b].body[k]]
    ensures t == SweepTable(f, b, k)
    ensures var r := f.blocks[b].body[k];
            Sweeping(f, nodes[r := if f.nodes[r].Pass? then Null else LookNode(t, f.nodes[r])],
                     if f.nodes[r].Pass? then t[r := Skip(f, f.nodes[r].src, b, k)] else t, b, k + 1)
  {
    hide SweepTable, Earlier, ChainsStop, Skip, LookNode, Shape, Listed;
    SweepOne(f, b, k);
    var r := f.blocks[b].body[k];
    var nodes1 := nodes[r := if f.nodes[r].Pass? then Null else LookNode(t, f.nodes[r])];
    EarlierStep(f, r, b, k);
    forall q: Reg ensures Earlier(f, q, b, k + 1) <==> Earlier(f, q, b, k) || q == r { EarlierStep(f, q, b, k); }
    forall c: Label, j: nat | Before(f, c, j, b, k + 1) ensures SweptNode(f, nodes1, c, j) {
      if c == b && j == k {
      } else {
        EarlierAt(f, c, j, b, k);
        assert Before(f, c, j, b, k) && SweptNode(f, nodes, c, j);
      }
    }
  }

  lemma EarlierAt(f: Function, c: Label, j: nat, b: nat, k: nat)
    requires Shape(f) && Before(f, c, j, b, k + 1) && !(c == b && j == k)
    ensures f.blocks[c].body[j] < |f.nodes| && Earlier(f, f.blocks[c].body[j], b, k)
  {
    assert Before(f, c, j, b, k);
  }

  lemma SweepingNext(f: Function, nodes: seq<Node>, t: Table, b: Label)
    requires Shape(f) && ChainsStop(f) && b < |f.blocks| && Sweeping(f, nodes, t, b, |f.blocks[b].body|)
    ensures Sweeping(f, nodes, t, b + 1, 0)
  {
    assert SweepTable(f, b + 1, 0) == SweepTable(f, b, |f.blocks[b].body|);
    hide SweepTable, Earlier, ChainsStop;
    forall q: Reg ensures Earlier(f, q, b + 1, 0) <==> Earlier(f, q, b, |f.blocks[b].body|) { EarlierNext(f, q, b); }
    forall c: Label, j: nat | Before(f, c, j, b + 1, 0) ensures SweptNode(f, nodes, c, j) {
      assert Before(f, c, j, b, |f.blocks[b].body|);
    }
  }

  // It stops at the first kind of node that its switch does not list.
  method RemoveByTable(f: Function, known: set<nat>) returns (h: Option<Function>)
    requires Shape(f) && ChainsStop(f)
    ensures h.None? <==> !AllKnown(known, f)
    ensures h.Some? ==> Swept(f, h.value)
  {
    hide Shape, ChainsStop, Sweeping, SweptBlock, AllKnown, BodyKnown;
    var nodes, blocks := f.nodes, f.blocks;
    var defTable: Table := map[];
    var bb: nat := 0;
    SweepStarts(f);
    BodiesKnown(known, f);
    while bb < |f.blocks|
      invariant bb <= |f.blocks| == |blocks| && Sweeping(f, nodes, defTable, bb, 0)
      invariant forall c: Label :: c < |blocks| ==> blocks[c] == if c < bb then SweptBlock(f, c) else f.blocks[c]
      invariant forall c: Label :: c < bb ==> BodyKnown(known, f, c, |f.blocks[c].body|)
    {
      var ok: bool;
      ok, nodes, defTable := SweepBody(f, nodes, defTable, bb, known);
      if !ok {
        return None;
      }
      SweepEnd(f, nodes, defTable, bb);
      blocks := blocks[bb := Block(f.blocks[bb].body, LookEnd(defTable, blocks[bb].end))];
      bb := bb + 1;
    }
    SweepDone(f, nodes, blocks, defTable);
    return Some(f.(nodes := nodes, blocks := blocks));
  }

  // The first k nodes of block b are of kinds that are listed.
  ghost predicate BodyKnown(known: set<nat>, f: Function, b: Label, k: nat)
    requires Shape(f) && b < |f.blocks|
  {
    forall j :: 0 <= j < k && j < |f.blocks[b].body| ==> Known(known, f.nodes[f.blocks[b].body[j]])
  }

  lemma BodiesKnown(known: set<nat>, f: Function)
    requires Shape(f)
    ensures AllKnown(known, f) <==>
              forall c: Label :: c < |f.blocks| ==> BodyKnown(known, f, c, |f.blocks[c].body|)
  {
    if AllKnown(known, f) {
      forall c: Label, j | c < |f.blocks| && 0 <= j < |f.blocks[c].body|
        ensures Known(known, f.nodes[f.blocks[c].body[j]])
      {
        assert Listed(f, f.blocks[c].body[j]);
      }
    }
  }

  lemma SweepStarts(f: Function)
    requires Shape(f) && ChainsStop(f)
    ensures Sweeping(f, f.nodes, map[], 0, 0)
  {
  }

  lemma SweepEnd(f: Function, nodes: seq<Node>, t: Table, b: Label)
    requires Shape(f) && ChainsStop(f) && b < |f.blocks| && Sweeping(f, nodes, t, b, |f.blocks[b].body|)
    ensures Sweeping(f, nodes, t, b + 1, 0)
    ensures SweptBlock(f, b) == Block(f.blocks[b].body, LookEnd(t, f.blocks[b].end))
  {
    SweepingNext(f, nodes, t, b);
  }

  lemma SweepDone(f: Function, nodes: seq<Node>, blocks: seq<Block>, t: Table)
    requires Shape(f) && ChainsStop(f) && Sweeping(f, nodes, t, |f.blocks|, 0) && |blocks| == |f.blocks|
    requires forall c: Label :: c < |blocks| ==> blocks[c] == SweptBlock(f, c)
    ensures Swept(f, f.(nodes := nodes, blocks := blocks))
  {
    hide SweepTable, ChainsStop, SweptBlock, SweptNode;
    forall b: Label, k: nat | b < |f.blocks| && k < |f.blocks[b].body| ensures SweptNode(f, nodes, b, k) {
      assert Before(f, b, k, |f.blocks|, 0);
    }
  }

  // The nodes of one block.
  method SweepBody(f: Function, nodes0: seq<Node>, t0: Table, b: Label, known: set<nat>)
    returns (ok: bool, nodes: seq<Node>, defTable: Table)
    requires Shape(f) && ChainsStop(f) && b < |f.blocks| && Sweeping(f, nodes0, t0, b, 0)
    ensures ok <==> BodyKnown(known, f, b, |f.blocks[b].body|)
    ensures ok ==> Sweeping(f, nodes, defTable, b, |f.blocks[b].body|)
  {
    hide Shape, ChainsStop, Sweeping, Skip;
    nodes, defTable := nodes0, t0;
    var k: nat := 0;
    while k < |f.blocks[b].body|
      invariant k <= |f.blocks[b].body| && Sweeping(f, nodes, defTable, b, k)
      invariant BodyKnown(known, f, b, k)
    {
      SweepingStep(f, nodes, defTable, b, k);
      var r := f.blocks[b].body[k];
      if !Known(known, nodes[r]) {
        return false, nodes, defTable;
      }
      var n := LookNode(defTable, nodes[r]);
      if n.Pass? {
        var pointee := Pointee(f, defTable, b, k, n.src, nodes[r].src);
        defTable := defTable[r := pointee];
        n := Null;
      }
      nodes := nodes[r := n];
      k := k + 1;
    }
    return true, nodes, defTable;
  }

  // If the node pointed to is in the table too, what that points to.
  method Pointee(f: Function, defTable: Table, ghost b: Label, ghost k: nat, looked: Reg, ghost src: Reg)
    returns (pointee: Reg)
    requires Shape(f) && ChainsStop(f) && b < |f.blocks| && k < |f.blocks[b].body|
    requires defTable == SweepTable(f, b, k) && looked == Look(defTable, src)
    ensures pointee == Skip(f, src, b, k)
  {
    SweepIs(f, b, k);
    hide Shape, ChainsStop, SweepTable, Skip, Earlier, Len;
    pointee := looked;
    if src in defTable { TableStep(f, defTable, b, k, src); }
    while pointee in defTable
      invariant Skip(f, pointee, b, k) == Skip(f, src, b, k)
      decreases Len(f, pointee)
    {
      TableStep(f, defTable, b, k, pointee);
      pointee := defTable[pointee];
    }
    SkipNone(f, pointee, b, k);
  }

  lemma SkipNone(f: Function, u: Reg, b: nat, k: nat)
    requires ChainsStop(f) && !(IsPass(f, u) && Earlier(f, u, b, k))
    ensures Skip(f, u, b, k) == u
  {
  }

  // ----- When no operand names a PASS afterwards -----

  // Every PASS on the chain from u is visited before position k of block b.
  ghost predicate ChainBefore(f: Function, u: Reg, b: nat, k: nat)
    requires ChainsStop(f)
    decreases Len(f, u)
  {
    IsPass(f, u) ==> Earlier(f, u, b, k) && (LenStep(f, u); ChainBefore(f, f.nodes[u].src, b, k))
  }

  lemma {:induction false} ChainSkipped(f: Function, u: Reg, b: nat, k: nat)
    requires ChainsStop(f)
    ensures ChainBefore(f, u, b, k) <==> !IsPass(f, Skip(f, u, b, k))
    decreases Len(f, u)
  {
    hide Earlier, Listed, ChainsStop;
    if IsPass(f, u) && Earlier(f, u, b, k) {
      LenStep(f, u);
      ChainSkipped(f, f.nodes[u].src, b, k);
    }
  }

  // A PASS read at position k of block b is visited before it, and when it was visited all passes
  // behind it on its chain had been.
  ghost predicate Settled(f: Function, u: Reg, b: nat, k: nat)
    requires Shape(f) && ChainsStop(f)
  {
    IsPass(f, u) ==> exists c: Label, j: nat :: Before(f, c, j, b, k) && SettledAt(f, u, c, j)
  }

  ghost predicate SettledAt(f: Function, u: Reg, c: Label, j: nat)
    requires ChainsStop(f)
  {
    && IsPass(f, u) && c < |f.blocks| && j < |f.blocks[c].body| && f.blocks[c].body[j] == u
    && ChainBefore(f, f.nodes[u].src, c, j)
  }

  ghost predicate Tidy(f: Function)
    requires Shape(f) && ChainsStop(f)
  {
    && (forall b: Label, k: nat, u ::
         (b < |f.blocks| && k < |f.blocks[b].body| && !f.nodes[f.blocks[b].body[k]].Pass? &&
           u in Uses(f.nodes[f.blocks[b].body[k]])) ==>
           Settled(f, u, b, k))
    && (forall b: Label, u :: b < |f.blocks| && u in EndUses(f.blocks[b].end) ==>
         Settled(f, u, b, |f.blocks[b].body|))
  }

  lemma SettledLook(f: Function, t: Table, b: nat, k: nat, u: Reg)
    requires Shape(f) && ChainsStop(f) && SweepOk(f, t, b, k)
    ensures Settled(f, u, b, k) <==> !IsPass(f, Look(t, u))
  {
    hide ChainsStop, Skip, ChainBefore, Listed;
    if u in t {
      var c: Label, j: nat :| Before(f, c, j, b, k) && f.blocks[c].body[j] == u;
      assert Entered(f, t, c, j);
      ChainSkipped(f, f.nodes[u].src, c, j);
      forall d: Label, i: nat | Before(f, d, i, b, k) && f.blocks[d].body[i] == u ensures d == c && i == j {
      }
    }
  }

  // No operand of h names a PASS of f.
  ghost predicate NoneNamed(f: Function, h: Function)
  {
    forall q: Reg :: IsPass(f, q) ==> !Named(h, q)
  }

  lemma LookUses(t: Table, n: Node)
    ensures forall q :: q in Uses(LookNode(t, n)) <==> exists u :: u in Uses(n) && Look(t, u) == q
  {
    var us, vs := Uses(n), Uses(LookNode(t, n));
    assert |us| == |vs| && forall i :: 0 <= i < |us| ==> vs[i] == Look(t, us[i]);
    forall q ensures q in vs <==> exists u :: u in us && Look(t, u) == q {
      if q in vs {
        var i :| 0 <= i < |vs| && vs[i] == q;
        assert us[i] in us;
      }
      if u :| u in us && Look(t, u) == q {
        var i :| 0 <= i < |us| && us[i] == u;
        assert vs[i] == q;
      }
    }
  }

  lemma LookEndUses(t: Table, e: Terminator, q: Reg)
    requires q != 0 && 0 !in t
    ensures q in EndUses(LookEnd(t, e)) <==> exists u :: u in EndUses(e) && Look(t, u) == q
  {
    match e {
      case Return(v) => if v != 0 { assert v in EndUses(e); }
      case If(c, _, _) => assert c in EndUses(e);
      case Switch(k, _, _) => assert k in EndUses(e);
      case _ =>
    }
  }

  // The theorem: the sweep leaves no operand that names a PASS if and only if every PASS that is
  // read has been visited before, after all others on its chain.
  lemma SweepTidies(f: Function, h: Function)
    requires Shape(f) && ChainsStop(f) && |f.nodes| > 0 && f.nodes[0] == Null && Swept(f, h)
    ensures NoneNamed(f, h) <==> Tidy(f)
  {
    hide ChainsStop, Settled, SweepTable, SweepOk, LookNode, LookEnd, WellFormed;
    forall b: Label, k: nat | b < |f.blocks| && k < |f.blocks[b].body| && !f.nodes[f.blocks[b].body[k]].Pass?
      ensures NodeNames(f, h, b, k) <==>
                forall u :: u in Uses(f.nodes[f.blocks[b].body[k]]) ==> Settled(f, u, b, k)
    {
      NodeTidy(f, h, b, k);
    }
    forall b: Label | b < |f.blocks|
      ensures EndNames(f, h, b) <==>
                forall u :: u in EndUses(f.blocks[b].end) ==> Settled(f, u, b, |f.blocks[b].body|)
    {
      EndTidy(f, h, b);
    }
    NamesIff(f, h);
  }

  // No operand of this node names a PASS of f.
  ghost predicate NodeNames(f: Function, h: Function, b: Label, k: nat)
    requires Shape(f) && |h.nodes| == |f.nodes| && b < |f.blocks| && k < |f.blocks[b].body|
  {
    forall q :: q in Uses(h.nodes[f.blocks[b].body[k]]) ==> !IsPass(f, q)
  }

  ghost predicate EndNames(f: Function, h: Function, b: Label)
    requires |h.blocks| == |f.blocks| && b < |f.blocks|
  {
    forall q :: q in EndUses(h.blocks[b].end) ==> !IsPass(f, q)
  }

  lemma NamesIff(f: Function, h: Function)
    requires Shape(f) && ChainsStop(f) && Swept(f, h)
    ensures NoneNamed(f, h) <==>
              (forall b: Label, k: nat ::
                (b < |f.blocks| && k < |f.blocks[b].body| && !f.nodes[f.blocks[b].body[k]].Pass?) ==>
                  NodeNames(f, h, b, k))
              && forall b: Label :: b < |f.blocks| ==> EndNames(f, h, b)
  {
    hide ChainsStop, LookNode, LookEnd, SweepTable, IsPass, WellFormed;
    forall q: Reg ensures Listed(h, q) <==> Listed(f, q) { SameListed(f, h, q); }
    if NoneNamed(f, h) {
      forall b: Label, k: nat | b < |f.blocks| && k < |f.blocks[b].body| ensures NodeNames(f, h, b, k) {
        assert Listed(f, f.blocks[b].body[k]);
      }
    } else {
      var q: Reg :| IsPass(f, q) && Named(h, q);
      if r: Reg :| Listed(h, r) && r < |h.nodes| && q in Uses(h.nodes[r]) {
        var b: Label, k: nat :| b < |f.blocks| && k < |f.blocks[b].body| && f.blocks[b].body[k] == r;
        assert SweptNode(f, h.nodes, b, k);
        assert !NodeNames(f, h, b, k);
      } else {
        var b: Label :| b < |h.blocks| && q in EndUses(h.blocks[b].end);
        assert !EndNames(f, h, b);
      }
    }
  }

  lemma SameListed(f: Function, h: Function, q: Reg)
    requires Shape(f) && ChainsStop(f) && Swept(f, h)
    ensures Listed(h, q) <==> Listed(f, q)
  {
    hide ChainsStop, LookEnd, SweepTable, SweptNode;
    assert forall b: Label :: b < |f.blocks| ==> h.blocks[b].body == f.blocks[b].body;
  }

  lemma NodeTidy(f: Function, h: Function, b: Label, k: nat)
    requires Shape(f) && ChainsStop(f) && Swept(f, h) && b < |f.blocks| && k < |f.blocks[b].body|
    requires !f.nodes[f.blocks[b].body[k]].Pass?
    ensures NodeNames(f, h, b, k) <==> forall u :: u in Uses(f.nodes[f.blocks[b].body[k]]) ==> Settled(f, u, b, k)
  {
    var n, t := f.nodes[f.blocks[b].body[k]], SweepTable(f, b, k);
    assert SweptNode(f, h.nodes, b, k);
    SweepIs(f, b, k);
    LookUses(t, n);
    hide ChainsStop, Settled, SweepTable, SweepOk, LookNode, IsPass, WellFormed, Look;
    forall u | u in Uses(n) ensures Settled(f, u, b, k) <==> !IsPass(f, Look(t, u)) { SettledLook(f, t, b, k, u); }
    if NodeNames(f, h, b, k) {
      forall u | u in Uses(n) ensures Settled(f, u, b, k) { assert Look(t, u) in Uses(LookNode(t, n)); }
    }
  }

  lemma EndTidy(f: Function, h: Function, b: Label)
    requires Shape(f) && ChainsStop(f) && Swept(f, h) && b < |f.blocks| && |f.nodes| > 0 && f.nodes[0] == Null
    ensures EndNames(f, h, b) <==>
              forall u :: u in EndUses(f.blocks[b].end) ==> Settled(f, u, b, |f.blocks[b].body|)
  {
    var k := |f.blocks[b].body|;
    var e, t := f.blocks[b].end, SweepTable(f, b, k);
    assert h.blocks[b] == SweptBlock(f, b);
    SweepIs(f, b, k);
    assert !IsPass(f, 0) && 0 !in t;
    hide ChainsStop, Settled, SweepTable, SweepOk, LookEnd, IsPass, WellFormed, Look;
    forall u | u in EndUses(e) ensures Settled(f, u, b, k) <==> !IsPass(f, Look(t, u)) { SettledLook(f, t, b, k, u); }
    forall q | q != 0 ensures q in EndUses(LookEnd(t, e)) <==> exists u :: u in EndUses(e) && Look(t, u) == q {
      LookEndUses(t, e, q);
    }
    if EndNames(f, h, b) {
      forall u | u in EndUses(e) ensures Settled(f, u, b, k) {
        if Look(t, u) != 0 { assert Look(t, u) in EndUses(LookEnd(t, e)); }
      }
    } else {
      var q :| q in EndUses(h.blocks[b].end) && IsPass(f, q);
      var u :| u in EndUses(e) && Look(t, u) == q;
    }
  }

  // ----- With every PASS ahead of its uses -----

  // Nothing is left to follow then: one look is enough.
  lemma {:induction false} SameTable(f: Function, b: nat, k: nat)
    requires Shape(f) && PassesFirst(f) && ChainsStop(f) && Place(f, b, k)
    ensures SweepTable(f, b, k) == Visited(f, b, k)
    decreases b, k
  {
    hide Shape, PassesFirst, ChainsStop, SweepTable, Visited, Earlier;
    if k > 0 {
      SameTable(f, b, k - 1);
      SweepOne(f, b, k - 1);
      VisitedMore(f, b, k - 1);
      if f.nodes[f.blocks[b].body[k - 1]].Pass? { OneLook(f, b, k - 1, f.nodes[f.blocks[b].body[k - 1]].src); }
    } else if b > 0 {
      SameTable(f, b - 1, |f.blocks[b - 1].body|);
      SweepOver(f, b - 1);
      VisitedOver(f, b - 1);
    } else {
      SweepNone(f);
      VisitedNone(f);
    }
  }

  lemma SweepOver(f: Function, b: Label)
    requires Shape(f) && ChainsStop(f) && b < |f.blocks|
    ensures SweepTable(f, b + 1, 0) == SweepTable(f, b, |f.blocks[b].body|)
  {
  }

  lemma SweepNone(f: Function)
    requires Shape(f) && ChainsStop(f)
    ensures SweepTable(f, 0, 0) == map[]
  {
  }

  lemma OneLook(f: Function, b: Label, k: nat, u: Reg)
    requires Shape(f) && PassesFirst(f) && ChainsStop(f) && Place(f, b, k) && SweepTable(f, b, k) == Visited(f, b, k)
    ensures Skip(f, u, b, k) == Look(Visited(f, b, k), u)
  {
    var t := Visited(f, b, k);
    SweepIs(f, b, k);
    VisitedOk(f, b, k);
    if u in t { TableStep(f, t, b, k, u); }
  }

  lemma SweptResolves(f: Function, h: Function)
    requires Shape(f) && PassesFirst(f) && ChainsStop(f) && Swept(f, h) && |f.nodes| > 0 && f.nodes[0] == Null
    ensures h == Resolved(f)
  {
    hide SweptNode, LookNode, LookEnd, PassesFirst, ChainsStop, Visited, SweepTable;
    var e, t := Resolved(f), Visited(f, |f.blocks|, 0);
    forall q: Reg | q < |f.nodes| ensures h.nodes[q] == e.nodes[q] {
      if Listed(f, q) {
        var b: Label, k: nat :| b < |f.blocks| && k < |f.blocks[b].body| && f.blocks[b].body[k] == q;
        NodeResolved(f, h, b, k);
      }
    }
    assert h.nodes == e.nodes;
    forall b: Label | b < |f.blocks| ensures SweptBlock(f, b).end == LookEnd(t, f.blocks[b].end) {
      SameTable(f, b, |f.blocks[b].body|);
      LookedUpEnd(f, b);
    }
    assert h.blocks == e.blocks;
  }

  lemma NodeResolved(f: Function, h: Function, b: Label, k: nat)
    requires Shape(f) && PassesFirst(f) && ChainsStop(f) && Swept(f, h) && b < |f.blocks| && k < |f.blocks[b].body|
    ensures var q := f.blocks[b].body[k];
            h.nodes[q] == if f.nodes[q].Pass? then Null else LookNode(Visited(f, |f.blocks|, 0), f.nodes[q])
  {
    assert SweptNode(f, h.nodes, b, k);
    hide LookNode, PassesFirst, ChainsStop, Visited, SweepTable;
    SameTable(f, b, k);
    LookedUp(f, b, k);
  }

  lemma {:induction false} ChainFirst(f: Function, u: Reg, b: nat, k: nat)
    requires Shape(f) && PassesFirst(f) && ChainsStop(f) && (IsPass(f, u) ==> Earlier(f, u, b, k))
    ensures ChainBefore(f, u, b, k)
    decreases Len(f, u)
  {
    hide Shape, PassesFirst, ChainsStop, Listed;
    if IsPass(f, u) {
      var c: Label, j: nat :| Before(f, c, j, b, k) && f.blocks[c].body[j] == u;
      SourceFirst(f, c, j);
      if IsPass(f, f.nodes[u].src) { EarlierOn(f, f.nodes[u].src, c, j, b, k); }
      LenStep(f, u);
      ChainFirst(f, f.nodes[u].src, b, k);
    }
  }

  lemma FirstSettled(f: Function, u: Reg, b: nat, k: nat)
    requires Shape(f) && PassesFirst(f) && ChainsStop(f) && (IsPass(f, u) ==> Earlier(f, u, b, k))
    ensures Settled(f, u, b, k)
  {
    hide Shape, PassesFirst, ChainsStop, Listed, ChainBefore;
    if IsPass(f, u) {
      var c: Label, j: nat :| Before(f, c, j, b, k) && f.blocks[c].body[j] == u;
      SourceFirst(f, c, j);
      ChainFirst(f, f.nodes[u].src, c, j);
      assert SettledAt(f, u, c, j);
    }
  }

  // The theorem: with every PASS ahead of its uses no chain is circular, the sweep gives what the
  // other form gives, and no operand names a PASS.
  lemma FirstSwept(f: Function)
    requires Shape(f) && PassesFirst(f) && |f.nodes| > 0 && f.nodes[0] == Null
    ensures ChainsStop(f) && Tidy(f) && forall h :: Swept(f, h) ==> h == Resolved(f)
  {
    FirstStops(f);
    hide Shape, ChainsStop, Settled, Swept, Resolved, IsPass, Earlier;
    forall b: Label, k: nat, u |
      b < |f.blocks| && k < |f.blocks[b].body| && u in Uses(f.nodes[f.blocks[b].body[k]])
      ensures Settled(f, u, b, k)
    {
      FirstSettled(f, u, b, k);
    }
    forall b: Label, u | b < |f.blocks| && u in EndUses(f.blocks[b].end)
      ensures Settled(f, u, b, |f.blocks[b].body|)
    {
      FirstSettled(f, u, b, |f.blocks[b].body|);
    }
    forall h | Swept(f, h) ensures h == Resolved(f) { SweptResolves(f, h); }
  }

  // ----- A phi that names a later PASS -----

  // 0: x = 10; goto 1    1: p = phi(0: x, 1: q); q = PASS x; goto 1
  function Round(): Function
  {
    Function([Null, Pure(10, []), Phi([PhiInput(0, 1), PhiInput(1, 3)]), Pass(1)],
             [Block([1], Goto(1)), Block([2, 3], Goto(1))])
  }

  lemma RoundParts()
    ensures |Round().nodes| == 4 && Round().nodes[0] == Null && Round().nodes[1] == Pure(10, [])
    ensures Round().nodes[2] == Phi([PhiInput(0, 1), PhiInput(1, 3)]) && Round().nodes[3] == Pass(1)
    ensures |Round().blocks| == 2 && Round().blocks[0] == Block([1], Goto(1))
    ensures Round().blocks[1] == Block([2, 3], Goto(1)) && GraphOf(Round()) == [Goto(1), Goto(1)]
  {
  }

  lemma RoundShape()
    ensures Shape(Round())
  {
    var f := Round();
    RoundParts();
    hide Round, Targets;
    forall b: Label | b < 2 ensures Targets(GraphOf(f)[b]) == [1] { OneTarget(); }
    hide GraphOf;
  }

  lemma OneTarget()
    ensures Targets(Goto(1)) == [1]
  {
  }

  // Every register a node reads is defined there.
  lemma RoundDefined()
    requires Shape(Round())
    ensures NodeDominated(Round(), 0, 0) && NodeDominated(Round(), 1, 0) && NodeDominated(Round(), 1, 1)
  {
    var f := Round();
    RoundParts();
    hide Round, Shape;
    EntryDominates(GraphOf(f), 1);
    assert Sdom(GraphOf(f), 0, 1);
    hide Sdom, Edge, Reachable;
    assert f.blocks[1].body[..2] == [2, 3] && f.blocks[0].body[..1] == [1] && 1 in f.blocks[0].body;
    assert DefinedBefore(f, 1, 1, 1) && DefinedBefore(f, 3, 1, 2);
    assert DefinedBefore(f, 1, 0, 1);
  }

  lemma RoundSsa()
    requires Shape(Round())
    ensures SsaForm(Round())
  {
    hide Round, Shape, NodeDominated, DefinedBefore, Reachable, BlockDominated;
    RoundParts();
    forall b: Label | b < |Round().blocks| ensures BlockDominated(Round(), b) { RoundBlock(b); }
  }

  lemma RoundBlock(b: Label)
    requires Shape(Round()) && b < |Round().blocks|
    ensures BlockDominated(Round(), b)
  {
    hide Round, Shape, NodeDominated, DefinedBefore;
    RoundDefined();
    RoundParts();
    forall k: nat | k < |Round().blocks[b].body| ensures NodeDominated(Round(), b, k) {
      if b == 0 {
        assert k == 0;
      } else {
        assert k == 0 || k == 1;
      }
    }
  }

  lemma RoundStops()
    ensures ChainsStop(Round())
  {
    var f := Round();
    RoundParts();
    hide Round, Listed;
    forall u: Reg ensures !IsPass(f, Chase(ListedNodes(f), u, 4)) {
      if IsPass(f, u) { assert u == 3 && !IsPass(f, 1); }
    }
  }

  // The function is in SSA form, and the sweep leaves the phi naming the PASS it removes.
  lemma RoundUntidy(h: Function)
    ensures Shape(Round()) && SsaForm(Round()) && ChainsStop(Round())
    ensures Swept(Round(), h) ==> !NoneNamed(Round(), h)
  {
    RoundShape();
    RoundSsa();
    RoundStops();
    RoundParts();
    RoundLate();
    if Swept(Round(), h) { SweepTidies(Round(), h); }
  }

  lemma RoundLate()
    requires Shape(Round()) && ChainsStop(Round())
    ensures !Tidy(Round())
  {
    var f := Round();
    RoundParts();
    hide Round, Shape, ChainsStop, ChainBefore;
    assert f.blocks[1].body[0] == 2 && InputRegs(f.nodes[2].inputs)[1] == 3 && 3 in Uses(f.nodes[2]);
    assert f.blocks[1].body[1] == 3 && IsPass(f, 3);
    assert !Settled(f, 3, 1, 0);
  }
}
