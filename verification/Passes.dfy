// src/tb/opt/canonical.c:78-321: the two forms of PASS removal.

module Passes {
  import opened Cfg
  import opened Predecessors
  import opened Ir
  import opened Ssa
  import opened Replacing
  import opened Removal
  import opened Merging
  import opened Coherency

  type Table = map<Reg, Reg>

  // ----- Renaming by a table -----

  function Look(t: Table, u: Reg): Reg
  {
    if u in t then t[u] else u
  }

  function LookAll(t: Table, us: seq<Reg>): (out: seq<Reg>)
    ensures |out| == |us| && forall i :: 0 <= i < |us| ==> out[i] == Look(t, us[i])
  {
    seq(|us|, i requires 0 <= i < |us| => Look(t, us[i]))
  }

  function LookInputs(t: Table, ins: seq<PhiInput>): (out: seq<PhiInput>)
    ensures |out| == |ins|
    ensures forall i :: 0 <= i < |ins| ==> out[i] == PhiInput(ins[i].from, Look(t, ins[i].val))
  {
    seq(|ins|, i requires 0 <= i < |ins| => PhiInput(ins[i].from, Look(t, ins[i].val)))
  }

  function LookNode(t: Table, n: Node): Node
  {
    match n
    case Null => n
    case Local => n
    case Pure(op, args) => Pure(op, LookAll(t, args))
    case Effect(op, args) => Effect(op, LookAll(t, args))
    case ParamAddr(p) => ParamAddr(Look(t, p))
    case Load(a) => Load(Look(t, a))
    case Store(a, v) => Store(Look(t, a), Look(t, v))
    case Clear(a, x, z) => Clear(Look(t, a), Look(t, x), Look(t, z))
    case Pass(x) => Pass(Look(t, x))
    case Phi(ins) => Phi(LookInputs(t, ins))
  }

  function LookEnd(t: Table, e: Terminator): Terminator
  {
    match e
    case Return(v) => Return(Look(t, v))
    case If(c, a, b) => If(Look(t, c), a, b)
    case Switch(k, es, d) => Switch(Look(t, k), es, d)
    case _ => e
  }

  // Replacing r by s after renaming by t is renaming by t with r added, when t leads to no r.
  lemma SwapLook(t: Table, r: Reg, s: Reg, n: Node)
    requires forall u :: u in t ==> t[u] != r
    requires r !in t
    ensures SwapNode(LookNode(t, n), r, s) == LookNode(t[r := s], n)
  {
    match n {
      case Pure(_, args) => assert SwapAll(LookAll(t, args), r, s) == LookAll(t[r := s], args);
      case Effect(_, args) => assert SwapAll(LookAll(t, args), r, s) == LookAll(t[r := s], args);
      case Phi(ins) => assert SwapInputs(LookInputs(t, ins), r, s) == LookInputs(t[r := s], ins);
      case _ =>
    }
  }

  lemma SwapLookEnd(t: Table, r: Reg, s: Reg, e: Terminator)
    requires (forall u :: u in t ==> t[u] != r) && r !in t
    ensures SwapEnd(LookEnd(t, e), r, s) == LookEnd(t[r := s], e)
  {
  }

  // Adding what a node does not name changes nothing.
  lemma LookMore(t: Table, t1: Table, n: Node)
    requires forall u :: u in Uses(n) ==> Look(t, u) == Look(t1, u)
    ensures LookNode(t, n) == LookNode(t1, n)
  {
    match n {
      case Pure(_, args) => assert LookAll(t, args) == LookAll(t1, args);
      case Effect(_, args) => assert LookAll(t, args) == LookAll(t1, args);
      case Phi(ins) =>
        assert forall i :: 0 <= i < |ins| ==> Uses(n)[i] == ins[i].val;
        assert LookInputs(t, ins) == LookInputs(t1, ins);
      case Load(a) => assert a in Uses(n);
      case Store(a, v) => assert a in Uses(n) && v in Uses(n);
      case Clear(a, x, z) => assert a in Uses(n) && x in Uses(n) && z in Uses(n);
      case Pass(x) => assert x in Uses(n);
      case ParamAddr(p) => assert p in Uses(n);
      case _ =>
    }
  }

  lemma LookMoreEnd(t: Table, t1: Table, e: Terminator)
    requires forall u :: u in EndUses(e) ==> Look(t, u) == Look(t1, u)
    requires Look(t, 0) == Look(t1, 0)
    ensures LookEnd(t, e) == LookEnd(t1, e)
  {
    match e {
      case Return(v) => assert v != 0 ==> v in EndUses(e);
      case If(c, _, _) => assert c in EndUses(e);
      case Switch(k, _, _) => assert k in EndUses(e);
      case _ =>
    }
  }

  // ----- The table of the passes visited so far -----

  // def_table before position k of block b is visited.
  function Visited(f: Function, b: nat, k: nat): Table
    requires Shape(f) && b <= |f.blocks| && (if b < |f.blocks| then k <= |f.blocks[b].body| else k == 0)
    decreases b, k
  {
    if k > 0 then
      var t, r := Visited(f, b, k - 1), f.blocks[b].body[k - 1];
      if f.nodes[r].Pass? then t[r := Look(t, f.nodes[r].src)] else t
    else if b == 0 then map[]
    else Visited(f, b - 1, |f.blocks[b - 1].body|)
  }

  // Register r stands before position k of block b, in the order in which the blocks are listed.
  ghost predicate Earlier(f: Function, r: Reg, b: nat, k: nat)
  {
    exists c: Label, j: nat :: Before(f, c, j, b, k) && f.blocks[c].body[j] == r
  }

  ghost predicate IsPass(f: Function, r: Reg)
  {
    r < |f.nodes| && f.nodes[r].Pass? && Listed(f, r)
  }

  // No operand that names a PASS is visited before that PASS.
  ghost predicate PassesFirst(f: Function)
    requires Shape(f)
  {
    && (forall b: Label, k: nat, u ::
          (b < |f.blocks| && k < |f.blocks[b].body| && u in Uses(f.nodes[f.blocks[b].body[k]]) && IsPass(f, u)) ==>
            Earlier(f, u, b, k))
    && (forall b: Label, u :: b < |f.blocks| && u in EndUses(f.blocks[b].end) && IsPass(f, u) ==>
          Earlier(f, u, b, |f.blocks[b].body|))
  }

  // The table holds exactly the passes before this point, and leads to no pass.
  ghost predicate TableOk(f: Function, t: Table, b: nat, k: nat)
  {
    && (forall r: Reg :: r in t <==> IsPass(f, r) && Earlier(f, r, b, k))
    && (forall r: Reg :: r in t ==> !IsPass(f, t[r]))
  }

  lemma EarlierStep(f: Function, r: Reg, b: Label, k: nat)
    requires Shape(f) && b < |f.blocks| && k < |f.blocks[b].body|
    ensures Earlier(f, r, b, k + 1) <==> Earlier(f, r, b, k) || r == f.blocks[b].body[k]
    ensures Earlier(f, f.blocks[b].body[k], b, k) <==> false
  {
    if Earlier(f, r, b, k + 1) {
      var c: Label, j: nat :| Before(f, c, j, b, k + 1) && f.blocks[c].body[j] == r;
      assert (c == b && j == k) || Before(f, c, j, b, k);
    }
    if Earlier(f, r, b, k) {
      var c: Label, j: nat :| Before(f, c, j, b, k) && f.blocks[c].body[j] == r;
      assert Before(f, c, j, b, k + 1);
    }
    if r == f.blocks[b].body[k] { assert Before(f, b, k, b, k + 1); }
  }

  lemma EarlierNext(f: Function, r: Reg, b: Label)
    requires b < |f.blocks|
    ensures Earlier(f, r, b + 1, 0) <==> Earlier(f, r, b, |f.blocks[b].body|)
  {
    if Earlier(f, r, b + 1, 0) {
      var c: Label, j: nat :| Before(f, c, j, b + 1, 0) && f.blocks[c].body[j] == r;
      assert Before(f, c, j, b, |f.blocks[b].body|);
    }
    if Earlier(f, r, b, |f.blocks[b].body|) {
      var c: Label, j: nat :| Before(f, c, j, b, |f.blocks[b].body|) && f.blocks[c].body[j] == r;
      assert Before(f, c, j, b + 1, 0);
    }
  }

  lemma ListedEarlier(f: Function, q: Reg)
    requires Listed(f, q)
    ensures Earlier(f, q, |f.blocks|, 0)
  {
    var c: Label, j: nat :| c < |f.blocks| && j < |f.blocks[c].body| && f.blocks[c].body[j] == q;
    assert Before(f, c, j, |f.blocks|, 0);
  }

  lemma {:induction false} VisitedOk(f: Function, b: nat, k: nat)
    requires Shape(f) && PassesFirst(f) && Place(f, b, k)
    ensures TableOk(f, Visited(f, b, k), b, k)
    decreases b, k
  {
    hide Visited, TableOk, PassesFirst, Shape;
    if k > 0 {
      VisitedOk(f, b, k - 1);
      VisitedStep(f, b, k - 1);
    } else if b > 0 {
      VisitedOk(f, b - 1, |f.blocks[b - 1].body|);
      VisitedNext(f, b - 1);
    } else {
      VisitedNone(f);
    }
  }

  lemma VisitedNone(f: Function)
    requires Shape(f)
    ensures Visited(f, 0, 0) == map[] && TableOk(f, map[], 0, 0)
  {
  }

  lemma VisitedNext(f: Function, b: Label)
    requires Shape(f) && b < |f.blocks| && TableOk(f, Visited(f, b, |f.blocks[b].body|), b, |f.blocks[b].body|)
    ensures TableOk(f, Visited(f, b + 1, 0), b + 1, 0)
  {
    hide Visited, Earlier, IsPass, Shape;
    VisitedOver(f, b);
    forall r: Reg ensures Earlier(f, r, b + 1, 0) <==> Earlier(f, r, b, |f.blocks[b].body|) {
      EarlierNext(f, r, b);
    }
  }

  lemma VisitedOver(f: Function, b: Label)
    requires Shape(f) && b < |f.blocks|
    ensures Visited(f, b + 1, 0) == Visited(f, b, |f.blocks[b].body|)
  {
  }

  // One node more.
  lemma VisitedMore(f: Function, b: Label, k: nat)
    requires Shape(f) && b < |f.blocks| && k < |f.blocks[b].body|
    ensures var t, r := Visited(f, b, k), f.blocks[b].body[k];
            && r < |f.nodes| && (IsPass(f, r) <==> f.nodes[r].Pass?)
            && Visited(f, b, k + 1) == if f.nodes[r].Pass? then t[r := Look(t, f.nodes[r].src)] else t
  {
    assert Listed(f, f.blocks[b].body[k]);
  }

  lemma SourceFirst(f: Function, b: Label, k: nat)
    requires Shape(f) && PassesFirst(f) && b < |f.blocks| && k < |f.blocks[b].body|
    ensures var n := f.nodes[f.blocks[b].body[k]]; n.Pass? && IsPass(f, n.src) ==> Earlier(f, n.src, b, k)
  {
    hide Earlier, IsPass;
    var n := f.nodes[f.blocks[b].body[k]];
    if n.Pass? { assert n.src in Uses(n); }
  }

  lemma VisitedStep(f: Function, b: Label, k: nat)
    requires Shape(f) && PassesFirst(f) && b < |f.blocks| && k < |f.blocks[b].body|
    requires TableOk(f, Visited(f, b, k), b, k)
    ensures TableOk(f, Visited(f, b, k + 1), b, k + 1)
  {
    hide Visited, Shape, PassesFirst, Earlier, IsPass;
    VisitedMore(f, b, k);
    SourceFirst(f, b, k);
    var r := f.blocks[b].body[k];
    forall q: Reg ensures Earlier(f, q, b, k + 1) <==> Earlier(f, q, b, k) || q == r {
      EarlierStep(f, q, b, k);
    }
  }

  // The table only grows.
  ghost predicate Extends(t: Table, t1: Table)
  {
    forall r :: r in t ==> r in t1 && t1[r] == t[r]
  }

  lemma {:induction false} VisitedGrows(f: Function, b: nat, k: nat, b1: nat, k1: nat)
    requires Shape(f) && PassesFirst(f) && Place(f, b, k) && Place(f, b1, k1) && (b < b1 || (b == b1 && k <= k1))
    ensures Extends(Visited(f, b, k), Visited(f, b1, k1))
    decreases b1, k1
  {
    hide Shape, PassesFirst, TableOk;
    if b == b1 && k == k1 {
    } else if k1 > 0 {
      VisitedGrows(f, b, k, b1, k1 - 1);
      GrowStep(f, b1, k1 - 1);
    } else {
      VisitedGrows(f, b, k, b1 - 1, |f.blocks[b1 - 1].body|);
    }
  }

  lemma GrowStep(f: Function, b: Label, k: nat)
    requires Shape(f) && PassesFirst(f) && b < |f.blocks| && k < |f.blocks[b].body|
    ensures Extends(Visited(f, b, k), Visited(f, b, k + 1))
  {
    hide Shape, PassesFirst, Earlier;
    VisitedOk(f, b, k);
    EarlierStep(f, f.blocks[b].body[k], b, k);
  }

  // ----- What both forms come to -----

  // Every operand renamed by the whole table, and no PASS left.
  ghost function Resolved(f: Function): Function
    requires Shape(f)
  {
    var t := Visited(f, |f.blocks|, 0);
    f.(nodes :=
      seq(|f.nodes|, q requires 0 <= q < |f.nodes| =>
        if !Listed(f, q) then f.nodes[q] else if f.nodes[q].Pass? then Null else LookNode(t, f.nodes[q])),
       blocks :=
      seq(|f.blocks|, b requires 0 <= b < |f.blocks| => Block(f.blocks[b].body, LookEnd(t, f.blocks[b].end))))
  }

  // An operand that is looked up when it is visited is looked up for good.
  lemma LookedUp(f: Function, b: Label, k: nat)
    requires Shape(f) && PassesFirst(f) && b < |f.blocks| && k < |f.blocks[b].body|
    ensures var n := f.nodes[f.blocks[b].body[k]];
            LookNode(Visited(f, b, k), n) == LookNode(Visited(f, |f.blocks|, 0), n)
  {
    var n, t, t1 := f.nodes[f.blocks[b].body[k]], Visited(f, b, k), Visited(f, |f.blocks|, 0);
    VisitedOk(f, b, k);
    VisitedOk(f, |f.blocks|, 0);
    VisitedGrows(f, b, k, |f.blocks|, 0);
    hide Visited, Shape;
    forall u | u in Uses(n) ensures Look(t, u) == Look(t1, u) {
    }
    LookMore(t, t1, n);
  }

  lemma LookedUpEnd(f: Function, b: Label)
    requires Shape(f) && PassesFirst(f) && b < |f.blocks| && |f.nodes| > 0 && f.nodes[0] == Null
    ensures LookEnd(Visited(f, b, |f.blocks[b].body|), f.blocks[b].end) ==
              LookEnd(Visited(f, |f.blocks|, 0), f.blocks[b].end)
  {
    var e, t, t1 := f.blocks[b].end, Visited(f, b, |f.blocks[b].body|), Visited(f, |f.blocks|, 0);
    VisitedOk(f, b, |f.blocks[b].body|);
    VisitedOk(f, |f.blocks|, 0);
    VisitedGrows(f, b, |f.blocks[b].body|, |f.blocks|, 0);
    hide Visited, Shape;
    forall u | u in EndUses(e) ensures Look(t, u) == Look(t1, u) {
    }
    LookMoreEnd(t, t1, e);
  }

  // ----- The form that searches and replaces, for small functions -----

  // What replacing has made of f when the passes in t are done.
  ghost predicate Partly(f: Function, h: Function, t: Table)
  {
    && |h.nodes| == |f.nodes| && |h.blocks| == |f.blocks| && h.types == f.types
    && (forall q: Reg :: q < |f.nodes| ==> h.nodes[q] == PartlyNode(f, t, q))
    && (forall b: Label :: b < |f.blocks| ==> h.blocks[b] == Block(f.blocks[b].body, LookEnd(t, f.blocks[b].end)))
  }

  ghost function PartlyNode(f: Function, t: Table, q: Reg): Node
    requires q < |f.nodes|
  {
    if !Listed(f, q) then f.nodes[q]
    else if f.nodes[q].Pass? && q in t then Null
    else LookNode(t, f.nodes[q])
  }

  lemma PartlyStep(f: Function, h: Function, m: Function, t: Table, r: Reg, s: Reg)
    requires Partly(f, h, t) && IsPass(f, r) && r !in t && s == Look(t, f.nodes[r].src)
    requires (forall u :: u in t ==> t[u] != r) && Swapped(h, m, r, s)
    ensures h.nodes[r] == Pass(s) && r < |m.nodes|
    ensures Partly(f, m.(nodes := m.nodes[r := Null]), t[r := s])
  {
    assert forall q: Reg :: Listed(h, q) <==> Listed(f, q);
    var g, t1 := m.(nodes := m.nodes[r := Null]), t[r := s];
    forall q: Reg | q < |f.nodes| ensures g.nodes[q] == PartlyNode(f, t1, q) {
      SwapLook(t, r, s, f.nodes[q]);
    }
    forall b: Label | b < |f.blocks| ensures g.blocks[b] == Block(f.blocks[b].body, LookEnd(t1, f.blocks[b].end)) {
      SwapLookEnd(t, r, s, f.blocks[b].end);
    }
  }

  // Some operand still names u.
  ghost predicate Named(h: Function, u: Reg)
  {
    || (exists q: Reg :: Listed(h, q) && q < |h.nodes| && u in Uses(h.nodes[q]))
    || (exists b: Label :: b < |h.blocks| && u in EndUses(h.blocks[b].end))
  }

  // The registers in gone are the passes that h has lost; if reached at all, they are not named.
  ghost predicate PassesLost(f: Function, h: Function, gone: set<Reg>)
  {
    && (forall q: Reg :: IsPass(f, q) <==> q in gone || IsPass(h, q))
    && (forall q: Reg :: q in gone && InReach(f, q) ==> !Named(h, q))
  }

  lemma SwappedUses(n: Node, r: Reg, s: Reg, u: Reg)
    requires u in Uses(SwapNode(n, r, s))
    ensures u == s || (u in Uses(n) && u != r)
  {
    match n {
      case Pure(_, args) =>
      case Effect(_, args) =>
      case Phi(ins) =>
        var i :| 0 <= i < |ins| && SwapInputs(ins, r, s)[i].val == u;
        assert Uses(n)[i] == ins[i].val;
      case _ =>
    }
  }

  lemma SwappedNames(h: Function, m: Function, r: Reg, s: Reg, u: Reg)
    requires Swapped(h, m, r, s) && r != 0 && r < |m.nodes| && Named(m.(nodes := m.nodes[r := Null]), u)
    ensures u == s || (Named(h, u) && u != r)
  {
    var g := m.(nodes := m.nodes[r := Null]);
    if q: Reg :| Listed(g, q) && q < |g.nodes| && u in Uses(g.nodes[q]) {
      assert Listed(h, q);
      SwappedUses(h.nodes[q], r, s, u);
    } else {
      var b: Label :| b < |g.blocks| && u in EndUses(g.blocks[b].end);
      SwapEndUses(h.blocks[b].end, r, s);
    }
  }

  lemma PassesAfter(h: Function, m: Function, r: Reg, s: Reg, q: Reg)
    requires IsPass(h, r) && Swapped(h, m, r, s)
    ensures r < |m.nodes| && (IsPass(m.(nodes := m.nodes[r := Null]), q) <==> IsPass(h, q) && q != r)
  {
    hide SwapEnd;
    var g := m.(nodes := m.nodes[r := Null]);
    assert Listed(g, q) <==> Listed(h, q);
  }

  lemma LoseOne(f: Function, h: Function, m: Function, gone: set<Reg>, r: Reg, s: Reg)
    requires PassesLost(f, h, gone) && IsPass(h, r) && r != 0 && h.nodes[r] == Pass(s) && Swapped(h, m, r, s)
    requires InReach(f, r) ==> r != s
    ensures r < |m.nodes| && PassesLost(f, m.(nodes := m.nodes[r := Null]), gone + {r})
  {
    hide InReach, Swapped, Named, Listed;
    NamesItsSource(h, r, s);
    PassesAfter(h, m, r, s, r);
    var g := m.(nodes := m.nodes[r := Null]);
    forall q: Reg ensures r < |m.nodes| && (IsPass(g, q) <==> IsPass(h, q) && q != r) { PassesAfter(h, m, r, s, q); }
    forall q: Reg | q in gone + {r} && InReach(f, q) ensures !Named(g, q) {
      if Named(g, q) { SwappedNames(h, m, r, s, q); }
    }
  }

  lemma NamesItsSource(h: Function, r: Reg, s: Reg)
    requires IsPass(h, r) && h.nodes[r] == Pass(s)
    ensures Named(h, s)
  {
    assert s in Uses(h.nodes[r]);
  }

  ghost predicate NoPassBefore(f: Function, b: nat, k: nat)
  {
    forall q: Reg :: q < |f.nodes| && Earlier(f, q, b, k) ==> !f.nodes[q].Pass?
  }

  // It stops with the first PASS in a graph that holds a kind of node which is not listed.
  method RemoveOneByOne(f: Function, known: set<nat>) returns (r: Option<Function>, ghost steps: seq<Merge>)
    requires Shape(f) && SsaForm(f) && |f.nodes| > 0 && f.nodes[0] == Null
    ensures r.None? <==> !AllKnown(known, f) && exists q: Reg :: IsPass(f, q)
    ensures r.Some? ==> Merged(f, r.value, steps) && forall q: Reg :: q in Gone(steps) <==> IsPass(f, q)
    ensures r.Some? ==> forall q: Reg :: IsPass(f, q) && InReach(f, q) ==> !Named(r.value, q)
    ensures r.Some? && PassesFirst(f) ==> r.value == Resolved(f)
  {
    hide SsaForm, Shape, Merged, PassesFirst, Visited, Partly, NoPassBefore, Resolved, PassesLost, Named, InReach,
         AllKnown;
    var h := f;
    steps := [];
    SmallStarts(f);
    var bb: nat := 0;
    while bb < |f.blocks|
      invariant bb <= |f.blocks| && Small(f, h, steps, bb, 0) && SmallKnown(known, f, h, steps)
    {
      var k: nat := 0;
      while k < |f.blocks[bb].body|
        invariant k <= |f.blocks[bb].body| && Small(f, h, steps, bb, k) && SmallKnown(known, f, h, steps)
      {
        hide Small;
        SmallFits(f, h, steps, bb, k);
        var r := h.blocks[bb].body[k];
        if h.nodes[r].Pass? {
          var m := FindReplace(h, r, h.nodes[r].src, known);
          if m.None? {
            assert steps == [] && f.blocks[bb].body[k] == r && IsPass(f, r);
            return None, steps;
          }
          SmallPass(f, h, steps, bb, k, m.value);
          StillKnown(known, h, m.value, r, h.nodes[r].src);
          steps := steps + [Merge(r, h.nodes[r].src)];
          h := m.value.(nodes := m.value.nodes[r := Null]);
        } else {
          SmallSkip(f, h, steps, bb, k);
        }
        k := k + 1;
      }
      SmallNext(f, h, steps, bb);
      bb := bb + 1;
    }
    SmallDone(f, h, steps);
    return Some(h), steps;
  }

  // Either nothing has been done or every kind is listed.
  ghost predicate SmallKnown(known: set<nat>, f: Function, h: Function, steps: seq<Merge>)
  {
    if steps == [] then h == f else AllKnown(known, f) && AllKnown(known, h)
  }

  // The state of the search-and-replace form before position k of block b.
  ghost predicate Small(f: Function, h: Function, steps: seq<Merge>, b: nat, k: nat)
    requires Shape(f)
  {
    && Place(f, b, k) && SsaForm(f) && Merged(f, h, steps) && NoPassBefore(h, b, k)
    && PassesLost(f, h, Gone(steps))
    && |h.nodes| > 0 && h.nodes[0] == Null
    && (PassesFirst(f) ==> Partly(f, h, Visited(f, b, k)))
  }

  lemma SmallStarts(f: Function)
    requires Shape(f) && SsaForm(f) && |f.nodes| > 0 && f.nodes[0] == Null
    ensures Small(f, f, [], 0, 0)
  {
    forall q: Reg | q < |f.nodes| ensures f.nodes[q] == PartlyNode(f, map[], q) {
      EmptyLook(f.nodes[q]);
    }
    forall b: Label | b < |f.blocks| ensures LookEnd(map[], f.blocks[b].end) == f.blocks[b].end {
    }
  }

  lemma EmptyLook(n: Node)
    ensures LookNode(map[], n) == n
  {
    match n {
      case Pure(_, args) => assert LookAll(map[], args) == args;
      case Effect(_, args) => assert LookAll(map[], args) == args;
      case Phi(ins) => assert LookInputs(map[], ins) == ins;
      case _ =>
    }
  }

  lemma SmallFits(f: Function, h: Function, steps: seq<Merge>, b: Label, k: nat)
    requires Shape(f) && Small(f, h, steps, b, k) && b < |f.blocks| && k < |f.blocks[b].body|
    ensures Shape(h) && SsaForm(h) && SameSkeleton(f, h)
    ensures |h.blocks| == |f.blocks| && h.blocks[b].body == f.blocks[b].body
    ensures f.blocks[b].body[k] < |h.nodes| == |f.nodes|
  {
    hide SsaForm, Merged, PassesFirst, Visited, Partly;
    MergedShape(f, h, steps);
  }

  // A PASS in a reachable block is not its own source.
  lemma NotItself(h: Function, b: Label, k: nat)
    requires Shape(h) && SsaForm(h) && b < |h.blocks| && k < |h.blocks[b].body| && h.nodes[h.blocks[b].body[k]].Pass?
    ensures h.blocks[b].body[k] != h.nodes[h.blocks[b].body[k]].src || !Reachable(GraphOf(h), b)
  {
    if Reachable(GraphOf(h), b) {
      assert BlockDominated(h, b) && NodeDominated(h, b, k);
      NotBeforeItself(h, b, k);
    }
  }

  lemma SmallPass(f: Function, h: Function, steps: seq<Merge>, b: Label, k: nat, m: Function)
    requires Shape(f) && Small(f, h, steps, b, k) && b < |f.blocks| && k < |f.blocks[b].body|
    requires |h.blocks| == |f.blocks|
    requires f.blocks[b].body[k] < |h.nodes| && h.nodes[f.blocks[b].body[k]].Pass?
    requires Swapped(h, m, f.blocks[b].body[k], h.nodes[f.blocks[b].body[k]].src)
    ensures f.blocks[b].body[k] < |m.nodes|
    ensures var r := f.blocks[b].body[k];
            Small(f, m.(nodes := m.nodes[r := Null]), steps + [Merge(r, h.nodes[r].src)], b, k + 1)
  {
    var r := f.blocks[b].body[k];
    var s := h.nodes[r].src;
    var g := m.(nodes := m.nodes[r := Null]);
    SmallFits(f, h, steps, b, k);
    NotItself(h, b, k);
    MergeAt(h, m, g, r, s, b, k);
    MergeMore(f, h, g, steps, Merge(r, s));
    PassGone(f, h, m, r, s, b, k);
    LostHere(f, h, m, Gone(steps), r, s, b, k);
    if PassesFirst(f) { SmallTable(f, h, m, b, k); }
  }

  lemma PassGone(f: Function, h: Function, m: Function, r: Reg, s: Reg, b: Label, k: nat)
    requires Shape(f) && SameSkeleton(f, h) && Swapped(h, m, r, s) && r < |h.nodes|
    requires b < |f.blocks| && k < |f.blocks[b].body| && f.blocks[b].body[k] == r && r != 0
    requires NoPassBefore(h, b, k) && |h.nodes| > 0 && h.nodes[0] == Null
    ensures NoPassBefore(m.(nodes := m.nodes[r := Null]), b, k + 1) && |m.nodes| > 0
    ensures m.nodes[r := Null][0] == Null
  {
    hide Shape, Earlier;
    var g := m.(nodes := m.nodes[r := Null]);
    forall q: Reg | q < |g.nodes| && Earlier(g, q, b, k + 1) ensures !g.nodes[q].Pass? {
      SkeletonEarlier(f, g, q, b, k + 1);
      EarlierStep(f, q, b, k);
      if q != r { SkeletonEarlier(f, h, q, b, k); }
    }
  }

  // What stands before a place does not depend on what it is.
  lemma SkeletonEarlier(f: Function, h: Function, q: Reg, b: nat, k: nat)
    requires |h.blocks| == |f.blocks| && forall c: Label :: c < |f.blocks| ==> h.blocks[c].body == f.blocks[c].body
    ensures Earlier(h, q, b, k) <==> Earlier(f, q, b, k)
  {
    if Earlier(f, q, b, k) {
      var c: Label, j: nat :| Before(f, c, j, b, k) && f.blocks[c].body[j] == q;
      assert Before(h, c, j, b, k);
    }
    if Earlier(h, q, b, k) {
      var c: Label, j: nat :| Before(h, c, j, b, k) && h.blocks[c].body[j] == q;
      assert Before(f, c, j, b, k);
    }
  }

  lemma LostHere(f: Function, h: Function, m: Function, gone: set<Reg>, r: Reg, s: Reg, b: Label, k: nat)
    requires Shape(f) && SameSkeleton(f, h) && PassesLost(f, h, gone) && Swapped(h, m, r, s)
    requires b < |f.blocks| && k < |f.blocks[b].body| && f.blocks[b].body[k] == r && r < |h.nodes|
    requires h.nodes[r] == Pass(s)
    requires r != 0 && (r != s || !Reachable(GraphOf(h), b))
    ensures r < |m.nodes| && PassesLost(f, m.(nodes := m.nodes[r := Null]), gone + {r})
  {
    hide Reachable, PassesLost;
    assert h.blocks[b].body[k] == r;
    assert Listed(h, r);
    if InReach(f, r) {
      var c: Label :| c < |f.blocks| && r in f.blocks[c].body && Reachable(GraphOf(f), c);
      SamePlace(f, b, c, r);
      SkeletonShape(f, h);
    }
    LoseOne(f, h, m, gone, r, s);
  }

  lemma SamePlace(f: Function, b: Label, c: Label, r: Reg)
    requires Shape(f) && b < |f.blocks| && c < |f.blocks| && r in f.blocks[b].body && r in f.blocks[c].body
    ensures b == c
  {
  }

  lemma PassWas(f: Function, h: Function, t: Table, b: Label, k: nat)
    requires Shape(f) && Partly(f, h, t) && b < |f.blocks| && k < |f.blocks[b].body|
    ensures f.blocks[b].body[k] < |f.nodes| == |h.nodes|
    ensures h.nodes[f.blocks[b].body[k]].Pass? ==> IsPass(f, f.blocks[b].body[k])
  {
    assert Listed(f, f.blocks[b].body[k]);
  }

  lemma SmallTable(f: Function, h: Function, m: Function, b: Label, k: nat)
    requires Shape(f) && PassesFirst(f) && b < |f.blocks| && k < |f.blocks[b].body| && |h.blocks| == |f.blocks|
    requires Partly(f, h, Visited(f, b, k)) && f.blocks[b].body[k] < |h.nodes| && h.nodes[f.blocks[b].body[k]].Pass?
    requires Swapped(h, m, f.blocks[b].body[k], h.nodes[f.blocks[b].body[k]].src)
    ensures f.blocks[b].body[k] < |m.nodes|
    ensures Partly(f, m.(nodes := m.nodes[f.blocks[b].body[k] := Null]), Visited(f, b, k + 1))
  {
    hide Visited, Shape, PassesFirst, Earlier, IsPass, Partly, Swapped;
    var r, t := f.blocks[b].body[k], Visited(f, b, k);
    VisitedOk(f, b, k);
    VisitedMore(f, b, k);
    EarlierStep(f, r, b, k);
    PassWas(f, h, t, b, k);
    PartlySource(f, h, t, r);
    PartlyStep(f, h, m, t, r, Look(t, f.nodes[r].src));
  }

  lemma PartlySource(f: Function, h: Function, t: Table, r: Reg)
    requires Partly(f, h, t) && IsPass(f, r) && r !in t
    ensures r < |h.nodes| && h.nodes[r] == Pass(Look(t, f.nodes[r].src))
  {
  }

  lemma SmallSkip(f: Function, h: Function, steps: seq<Merge>, b: Label, k: nat)
    requires Shape(f) && Small(f, h, steps, b, k) && b < |f.blocks| && k < |f.blocks[b].body|
    requires |h.blocks| == |f.blocks|
    requires f.blocks[b].body[k] < |h.nodes| && !h.nodes[f.blocks[b].body[k]].Pass?
    ensures Small(f, h, steps, b, k + 1)
  {
    hide Visited, Earlier, SsaForm, Merged, PassesLost, Partly, NoPassBefore, PassesFirst;
    SmallFits(f, h, steps, b, k);
    SkipKeeps(h, b, k);
    if PassesFirst(f) { SkipTable(f, h, b, k); }
  }

  lemma SkipKeeps(h: Function, b: Label, k: nat)
    requires Shape(h) && b < |h.blocks| && k < |h.blocks[b].body| && NoPassBefore(h, b, k)
    requires !h.nodes[h.blocks[b].body[k]].Pass?
    ensures NoPassBefore(h, b, k + 1)
  {
    hide Earlier, Shape;
    forall q: Reg | q < |h.nodes| && Earlier(h, q, b, k + 1) ensures !h.nodes[q].Pass? {
      EarlierStep(h, q, b, k);
    }
  }

  lemma SkipTable(f: Function, h: Function, b: Label, k: nat)
    requires Shape(f) && PassesFirst(f) && b < |f.blocks| && k < |f.blocks[b].body| && Partly(f, h, Visited(f, b, k))
    requires f.blocks[b].body[k] < |h.nodes| && !h.nodes[f.blocks[b].body[k]].Pass?
    ensures Partly(f, h, Visited(f, b, k + 1))
  {
    hide Earlier, PassesFirst;
    var r := f.blocks[b].body[k];
    VisitedOk(f, b, k);
    EarlierStep(f, r, b, k);
    assert Listed(f, r);
    assert !f.nodes[r].Pass?;
  }

  lemma SmallNext(f: Function, h: Function, steps: seq<Merge>, b: Label)
    requires Shape(f) && b < |f.blocks| && Small(f, h, steps, b, |f.blocks[b].body|)
    ensures Small(f, h, steps, b + 1, 0)
  {
    MergedShape(f, h, steps);
    forall q: Reg | q < |h.nodes| && Earlier(h, q, b + 1, 0) ensures !h.nodes[q].Pass? {
      EarlierNext(h, q, b);
    }
  }

  lemma SmallDone(f: Function, h: Function, steps: seq<Merge>)
    requires Shape(f) && Small(f, h, steps, |f.blocks|, 0)
    ensures Merged(f, h, steps) && forall q: Reg :: q in Gone(steps) <==> IsPass(f, q)
    ensures forall q: Reg :: IsPass(f, q) && InReach(f, q) ==> !Named(h, q)
    ensures PassesFirst(f) ==> h == Resolved(f)
  {
    hide Shape, SsaForm, Merged, PassesFirst, Visited, LookNode, LookEnd, Earlier, Gone, Named, InReach;
    MergedShape(f, h, steps);
    forall q: Reg ensures !IsPass(h, q) {
      if IsPass(h, q) { ListedEarlier(h, q); }
    }
    if PassesFirst(f) {
      VisitedOk(f, |f.blocks|, 0);
      forall q: Reg | q < |f.nodes| ensures h.nodes[q] == Resolved(f).nodes[q] {
        if Listed(f, q) { ListedEarlier(f, q); }
      }
      assert h.nodes == Resolved(f).nodes;
      assert h.blocks == Resolved(f).blocks;
    }
  }

  // ----- What either form does to a run -----

  lemma SmallStep(f: Function, h: Function, steps: seq<Merge>, b: Label, k: nat) returns (g: Function, more: seq<Merge>)
    requires Shape(f) && b < |f.blocks| && k < |f.blocks[b].body| && Small(f, h, steps, b, k)
    ensures Small(f, g, more, b, k + 1)
  {
    hide *;
    SmallFits(f, h, steps, b, k);
    var r := f.blocks[b].body[k];
    if h.nodes[r].Pass? {
      var m := SwappedFunction(h, r, h.nodes[r].src);
      SmallPass(f, h, steps, b, k, m);
      g, more := m.(nodes := m.nodes[r := Null]), steps + [Merge(r, h.nodes[r].src)];
    } else {
      SmallSkip(f, h, steps, b, k);
      g, more := h, steps;
    }
  }

  lemma {:induction false} SmallReach(f: Function, b: nat, k: nat) returns (h: Function, steps: seq<Merge>)
    requires Shape(f) && SsaForm(f) && |f.nodes| > 0 && f.nodes[0] == Null
    requires b <= |f.blocks| && if b < |f.blocks| then k <= |f.blocks[b].body| else k == 0
    ensures Small(f, h, steps, b, k)
    decreases b, k
  {
    hide *;
    if k > 0 {
      h, steps := SmallReach(f, b, k - 1);
      h, steps := SmallStep(f, h, steps, b, k - 1);
    } else if b > 0 {
      h, steps := SmallReach(f, b - 1, |f.blocks[b - 1].body|);
      SmallNext(f, h, steps, b - 1);
    } else {
      SmallStarts(f);
      h, steps := f, [];
    }
  }

  // The theorem: with the passes ahead of their uses, both forms end with Resolved(f), on which
  // every run goes as on f, but for the registers of the passes, which are no longer written.
  lemma ResolvedPreservesRuns<V(!new), W(!new)>(sem: Sem<V, W>, f: Function, w: W, n: nat)
    requires Shape(f) && SsaForm(f) && PassesFirst(f) && |f.nodes| > 0 && f.nodes[0] == Null
    ensures Shape(Resolved(f)) && SsaForm(Resolved(f)) && SameSkeleton(f, Resolved(f))
    ensures var passes := set q: Reg | q < |f.nodes| && IsPass(f, q);
            SameBut(sem, passes, Run(sem, {}, f, w, n), Run(sem, {}, Resolved(f), w, n))
    ensures forall q: Reg :: IsPass(f, q) && InReach(f, q) ==> !Named(Resolved(f), q)
  {
    var h, steps := SmallReach(f, |f.blocks|, 0);
    SmallDone(f, h, steps);
    MergingPreservesRuns(sem, f, h, steps, w, n);
    assert Gone(steps) == set q: Reg | q < |f.nodes| && IsPass(f, q);
  }
}
