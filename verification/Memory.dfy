// What promoting slots in src/tb/opt/mem2reg.c:359-564 takes for granted: that a slot's memory is a
// cell, which only the slot's own loads and stores get at, and all in the same size.

module Memory {
  import opened Cfg
  import opened Ir
  import opened Ssa
  import opened Equations
  import opened Promotion
  import opened Coherency
  import opened DomTree
  import opened Dominators
  import opened PlacedPhis
  import opened Leak

  // ----- Slots in memory -----

  // What the memory holds for a slot, and which worlds are the same but for the slots.
  datatype Layout<!V, !W> = Layout(peek: (W, Reg) -> V, same: (W, W) -> bool)

  ghost predicate IsHome<V, W>(sem: Sem<V, W>, slots: set<Reg>, x: V)
  {
    exists a: Reg :: a in slots && sem.local(a) == x
  }

  ghost predicate Keeps<V, W>(l: Layout<V, W>, slots: set<Reg>, w: W, u: W)
  {
    forall a: Reg :: a in slots ==> l.peek(u, a) == l.peek(w, a)
  }

  // Slot a gets the value, the other slots and all the rest stay.
  ghost predicate Puts<V, W>(l: Layout<V, W>, slots: set<Reg>, a: Reg, v: V, w: W, u: W, w2: W)
  {
    l.same(u, w2) && l.peek(u, a) == v && forall b: Reg :: b in slots && b != a ==> l.peek(u, b) == l.peek(w, b)
  }

  // The same result for worlds that are the same but for the slots, and no slot changes.
  ghost predicate Blind<V, W>(l: Layout<V, W>, slots: set<Reg>, w: W, r: (V, W), r2: (V, W))
  {
    r.0 == r2.0 && l.same(r.1, r2.1) && Keeps(l, slots, w, r.1)
  }

  // A load of a slot gives what its memory holds and a store or memset sets that, which takes
  // accesses of one size; what is at no slot's address leaves the slots alone.
  ghost predicate Tame<V(!new), W(!new)>(sem: Sem<V, W>, l: Layout<V, W>, slots: set<Reg>, r: Reg, n: Node)
  {
    match n
    case Load(a) =>
      if a in slots then forall w: W :: sem.load(r, sem.local(a), w) == (l.peek(w, a), w)
      else forall x: V, w: W, w2: W :: !IsHome(sem, slots, x) && l.same(w, w2) ==>
             Blind(l, slots, w, sem.load(r, x, w), sem.load(r, x, w2))
    case Store(a, _) =>
      if a in slots then forall v: V, w: W, w2: W :: l.same(w, w2) ==>
        Puts(l, slots, a, v, w, sem.store(r, sem.local(a), v, w), w2)
      else forall x: V, v: V, w: W, w2: W :: !IsHome(sem, slots, x) && l.same(w, w2) ==>
             l.same(sem.store(r, x, v, w), sem.store(r, x, v, w2)) && Keeps(l, slots, w, sem.store(r, x, v, w))
    case Clear(a, _, _) =>
      if a in slots then forall w: W, w2: W :: l.same(w, w2) ==>
        Puts(l, slots, a, sem.pure(ZERO, []), w, sem.clear(r, sem.local(a), w), w2)
      else forall x: V, w: W, w2: W :: !IsHome(sem, slots, x) && l.same(w, w2) ==>
             l.same(sem.clear(r, x, w), sem.clear(r, x, w2)) && Keeps(l, slots, w, sem.clear(r, x, w))
    case Effect(op, _) =>
      forall vs: seq<V>, w: W, w2: W :: l.same(w, w2) ==>
        Blind(l, slots, w, sem.effect(op, vs, w), sem.effect(op, vs, w2))
    case ParamAddr(_) =>
      if r in slots then forall v: V, w: W, w2: W :: l.same(w, w2) ==>
        sem.paramAddr(r, v, w).0 == sem.local(r) && Puts(l, slots, r, v, w, sem.paramAddr(r, v, w).1, w2)
      else forall v: V, w: W, w2: W :: l.same(w, w2) ==>
             Blind(l, slots, w, sem.paramAddr(r, v, w), sem.paramAddr(r, v, w2))
    case _ => true
  }

  ghost predicate AllTame<V(!new), W(!new)>(sem: Sem<V, W>, l: Layout<V, W>, f: Function, slots: set<Reg>)
    requires Shape(f)
  {
    forall b: Label, k: nat :: b < |f.blocks| && k < |f.blocks[b].body| ==>
      Tame(sem, l, slots, f.blocks[b].body[k], f.nodes[f.blocks[b].body[k]])
  }

  // The states of a run with the slots in memory and of one with the slots apart.
  ghost predicate Alike<V, W>(sem: Sem<V, W>, l: Layout<V, W>, slots: set<Reg>, st: State<V, W>, tt: State<V, W>)
  {
    && l.same(st.world, tt.world)
    && (forall r: Reg :: r !in slots ==> Val(sem, st, r) == Val(sem, tt, r))
    && (forall a: Reg :: a in slots && a in st.regs ==> st.regs[a] == sem.local(a))
    && (forall a: Reg :: a in slots && a in tt.slots ==> l.peek(st.world, a) == tt.slots[a])
  }

  // A load, store or memset that is not of a slot finds no slot's address in its register.
  ghost predicate Fair<V, W>(sem: Sem<V, W>, slots: set<Reg>, n: Node, st: State<V, W>)
  {
    (n.Load? || n.Store? || n.Clear?) && n.address !in slots ==> !IsHome(sem, slots, Val(sem, st, n.address))
  }

  // ----- One node -----

  // What a slot's access needs: its address is there, and a load comes after a store.
  ghost predicate AccessReady<V, W>(slots: set<Reg>, n: Node, st: State<V, W>, tt: State<V, W>)
  {
    && ((n.Load? || n.Store? || n.Clear?) && n.address in slots ==> n.address in st.regs)
    && (n.Load? && n.address in slots ==> n.address in tt.slots)
  }

  lemma AssignAlike<V, W>(sem: Sem<V, W>, l: Layout<V, W>, slots: set<Reg>, r: Reg, v: V, w: W, w2: W,
                          st: State<V, W>, tt: State<V, W>)
    requires Alike(sem, l, slots, st, tt) && r !in slots && l.same(w, w2) && Keeps(l, slots, st.world, w)
    ensures Alike(sem, l, slots, Assign(st.(world := w), r, v), Assign(tt.(world := w2), r, v))
  {
  }

  lemma PutAlike<V, W>(sem: Sem<V, W>, l: Layout<V, W>, slots: set<Reg>, a: Reg, v: V, w: W,
                       st: State<V, W>, tt: State<V, W>)
    requires Alike(sem, l, slots, st, tt) && a in slots && Puts(l, slots, a, v, st.world, w, tt.world)
    ensures Alike(sem, l, slots, st.(world := w), tt.(slots := tt.slots[a := v]))
  {
  }

  // The address of a slot.
  lemma HomeAlike<V, W>(sem: Sem<V, W>, l: Layout<V, W>, slots: set<Reg>, a: Reg, st: State<V, W>, tt: State<V, W>)
    requires Alike(sem, l, slots, st, tt) && a in slots
    ensures Alike(sem, l, slots, Assign(st, a, sem.local(a)), tt)
  {
  }

  lemma LoadAlike<V(!new), W(!new)>(sem: Sem<V, W>, l: Layout<V, W>, slots: set<Reg>, r: Reg, a: Reg,
                                    st: State<V, W>, tt: State<V, W>)
    requires Alike(sem, l, slots, st, tt) && Tame(sem, l, slots, r, Load(a)) && r !in slots
    requires Fair(sem, slots, Load(a), tt) && AccessReady(slots, Load(a), st, tt)
    ensures Alike(sem, l, slots, ExecNode(sem, {}, r, Load(a), st), ExecNode(sem, slots, r, Load(a), tt))
  {
    var x := Val(sem, st, a);
    if a in slots {
      assert x == sem.local(a) && sem.load(r, x, st.world) == (l.peek(st.world, a), st.world);
      AssignAlike(sem, l, slots, r, l.peek(st.world, a), st.world, tt.world, st, tt);
    } else {
      var (v, w) := sem.load(r, x, st.world);
      var (v2, w2) := sem.load(r, x, tt.world);
      assert Blind(l, slots, st.world, sem.load(r, x, st.world), sem.load(r, x, tt.world));
      AssignAlike(sem, l, slots, r, v, w, w2, st, tt);
    }
  }

  lemma StoreAlike<V(!new), W(!new)>(sem: Sem<V, W>, l: Layout<V, W>, slots: set<Reg>, r: Reg, a: Reg, u: Reg,
                                     st: State<V, W>, tt: State<V, W>)
    requires Alike(sem, l, slots, st, tt) && Tame(sem, l, slots, r, Store(a, u)) && u !in slots
    requires Fair(sem, slots, Store(a, u), tt) && AccessReady(slots, Store(a, u), st, tt)
    ensures Alike(sem, l, slots, ExecNode(sem, {}, r, Store(a, u), st), ExecNode(sem, slots, r, Store(a, u), tt))
  {
    var x, v := Val(sem, st, a), Val(sem, st, u);
    assert v == Val(sem, tt, u);
    var w := sem.store(r, x, v, st.world);
    if a in slots {
      assert x == sem.local(a) && Puts(l, slots, a, v, st.world, w, tt.world);
      PutAlike(sem, l, slots, a, v, w, st, tt);
    } else {
      assert l.same(w, sem.store(r, x, v, tt.world)) && Keeps(l, slots, st.world, w);
    }
  }

  lemma ClearAlike<V(!new), W(!new)>(sem: Sem<V, W>, l: Layout<V, W>, slots: set<Reg>, r: Reg, a: Reg, u: Reg, z: Reg,
                                     st: State<V, W>, tt: State<V, W>)
    requires Alike(sem, l, slots, st, tt) && Tame(sem, l, slots, r, Clear(a, u, z)) && r !in slots
    requires Fair(sem, slots, Clear(a, u, z), tt) && AccessReady(slots, Clear(a, u, z), st, tt)
    ensures Alike(sem, l, slots, ExecNode(sem, {}, r, Clear(a, u, z), st), ExecNode(sem, slots, r, Clear(a, u, z), tt))
  {
    var x, zero := Val(sem, st, a), sem.pure(ZERO, []);
    var w := sem.clear(r, x, st.world);
    if a in slots {
      assert x == sem.local(a) && Puts(l, slots, a, zero, st.world, w, tt.world);
      PutAlike(sem, l, slots, a, zero, w, st, tt);
      var st1, tt1 := st.(world := w), tt.(slots := tt.slots[a := zero]);
      AssignAlike(sem, l, slots, r, zero, st1.world, tt1.world, st1, tt1);
    } else {
      var w2 := sem.clear(r, x, tt.world);
      assert l.same(w, w2) && Keeps(l, slots, st.world, w);
      AssignAlike(sem, l, slots, r, zero, w, w2, st, tt);
    }
  }

  lemma EffectAlike<V(!new), W(!new)>(sem: Sem<V, W>, l: Layout<V, W>, slots: set<Reg>, r: Reg, op: nat,
                                      args: seq<Reg>, st: State<V, W>, tt: State<V, W>)
    requires Alike(sem, l, slots, st, tt) && Tame(sem, l, slots, r, Effect(op, args)) && r !in slots
    requires forall u :: u in args ==> u !in slots
    ensures Alike(sem, l, slots, ExecNode(sem, {}, r, Effect(op, args), st),
                  ExecNode(sem, slots, r, Effect(op, args), tt))
  {
    SameVals2(sem, slots, args, st, tt);
    var vs := Vals(sem, st, args);
    var (v, w) := sem.effect(op, vs, st.world);
      var (v2, w2) := sem.effect(op, vs, tt.world);
    assert Blind(l, slots, st.world, sem.effect(op, vs, st.world), sem.effect(op, vs, tt.world));
    AssignAlike(sem, l, slots, r, v, w, w2, st, tt);
  }

  lemma ParamAlike<V(!new), W(!new)>(sem: Sem<V, W>, l: Layout<V, W>, slots: set<Reg>, r: Reg, p: Reg,
                                     st: State<V, W>, tt: State<V, W>)
    requires Alike(sem, l, slots, st, tt) && Tame(sem, l, slots, r, ParamAddr(p)) && p !in slots
    ensures Alike(sem, l, slots, ExecNode(sem, {}, r, ParamAddr(p), st), ExecNode(sem, slots, r, ParamAddr(p), tt))
  {
    var x := Val(sem, st, p);
    assert x == Val(sem, tt, p);
    var (v, w) := sem.paramAddr(r, x, st.world);
      var (v2, w2) := sem.paramAddr(r, x, tt.world);
    if r in slots {
      assert v == sem.local(r) && Puts(l, slots, r, x, st.world, w, tt.world);
      PutAlike(sem, l, slots, r, x, w, st, tt);
      HomeAlike(sem, l, slots, r, st.(world := w), tt.(slots := tt.slots[r := x]));
    } else {
      assert Blind(l, slots, st.world, sem.paramAddr(r, x, st.world), sem.paramAddr(r, x, tt.world));
      AssignAlike(sem, l, slots, r, v, w, w2, st, tt);
    }
  }

  lemma NodeAlike<V(!new), W(!new)>(sem: Sem<V, W>, l: Layout<V, W>, slots: set<Reg>, r: Reg, n: Node,
                                    st: State<V, W>, tt: State<V, W>)
    requires Alike(sem, l, slots, st, tt) && Tame(sem, l, slots, r, n) && NodeCoherent(n, slots)
    requires Fair(sem, slots, n, tt) && AccessReady(slots, n, st, tt)
    requires r in slots ==> n.Local? || n.ParamAddr?
    ensures Alike(sem, l, slots, ExecNode(sem, {}, r, n, st), ExecNode(sem, slots, r, n, tt))
  {
    hide Tame, Fair, AccessReady;
    match n {
      case Null =>
      case Phi(_) =>
      case Local => if r in slots { HomeAlike(sem, l, slots, r, st, tt); }
      case Pure(_, args) => SameVals2(sem, slots, args, st, tt);
      case Pass(x) => assert x in Uses(n);
      case Effect(op, args) => EffectAlike(sem, l, slots, r, op, args, st, tt);
      case ParamAddr(p) =>
        assert p in Uses(n);
        ParamAlike(sem, l, slots, r, p, st, tt);
      case Load(a) => LoadAlike(sem, l, slots, r, a, st, tt);
      case Store(a, u) => StoreAlike(sem, l, slots, r, a, u, st, tt);
      case Clear(a, u, z) => ClearAlike(sem, l, slots, r, a, u, z, st, tt);
    }
  }

  lemma SameVals2<V, W>(sem: Sem<V, W>, slots: set<Reg>, args: seq<Reg>, st: State<V, W>, tt: State<V, W>)
    requires forall r: Reg :: r !in slots ==> Val(sem, st, r) == Val(sem, tt, r)
    requires forall u :: u in args ==> u !in slots
    ensures Vals(sem, st, args) == Vals(sem, tt, args)
  {
    SameVals(sem, args, st, tt);
  }

  // ----- What has been done before a point -----

  // The addresses of the slots that are defined before position k of block b are in registers.
  ghost predicate Assigned<V, W>(f: Function, slots: set<Reg>, b: Label, k: nat, st: State<V, W>)
  {
    forall a: Reg :: a in slots && DefinedBefore(f, a, b, k) ==> a in st.regs
  }

  lemma AssignedStep<V, W>(sem: Sem<V, W>, f: Function, slots: set<Reg>, b: Label, k: nat, st: State<V, W>)
    requires Shape(f) && Coherent(f, slots) && b < |f.blocks| && k < |f.blocks[b].body| && Assigned(f, slots, b, k, st)
    ensures var r := f.blocks[b].body[k];
            r < |f.nodes| && Assigned(f, slots, b, k + 1, ExecNode(sem, {}, r, f.nodes[r], st))
  {
    hide ExecNode, DefinedBefore, OnlyAddresses;
    var r := f.blocks[b].body[k];
    NodeFits(f, slots, b, k);
    NodeAssigns(sem, r, f.nodes[r], st);
    forall a: Reg | a in slots && DefinedBefore(f, a, b, k + 1) ensures a in ExecNode(sem, {}, r, f.nodes[r], st).regs {
      if a != r { StillBefore(f, a, b, k); }
    }
  }

  lemma NodeAssigns<V, W>(sem: Sem<V, W>, r: Reg, n: Node, st: State<V, W>)
    ensures forall q: Reg :: q in st.regs ==> q in ExecNode(sem, {}, r, n, st).regs
    ensures n.Local? || n.ParamAddr? ==> r in ExecNode(sem, {}, r, n, st).regs
  {
  }

  lemma NodeFits(f: Function, slots: set<Reg>, b: Label, k: nat)
    requires Shape(f) && Coherent(f, slots) && b < |f.blocks| && k < |f.blocks[b].body|
    ensures var r := f.blocks[b].body[k];
            && r < |f.nodes| && NodeCoherent(f.nodes[r], slots)
            && (r in slots ==> f.nodes[r].Local? || f.nodes[r].ParamAddr?)
  {
  }

  lemma AssignedEnter<V, W>(sem: Sem<V, W>, f: Function, slots: set<Reg>, b: Label, from: Label, st: State<V, W>)
    requires Shape(f) && b < |f.blocks|
    requires if from < |f.blocks| then Edge(GraphOf(f), from, b) && Reachable(GraphOf(f), from) &&
                                       Assigned(f, slots, from, |f.blocks[from].body|, st) else b == 0
    ensures Assigned(f, slots, b, 0, EnterBlock(sem, f, f.blocks[b].body, from, st))
  {
    forall a: Reg | a in slots && DefinedBefore(f, a, b, 0)
      ensures a in EnterBlock(sem, f, f.blocks[b].body, from, st).regs
    {
      if from < |f.blocks| { DefinedAtPred(f, a, from, b); } else { NothingBeforeEntry(f, a); }
    }
  }

  lemma NodeFills<V, W>(sem: Sem<V, W>, slots: set<Reg>, r: Reg, n: Node, tt: State<V, W>)
    ensures forall a: Reg :: a in tt.slots ==> a in ExecNode(sem, slots, r, n, tt).slots
    ensures forall a: Reg :: a in slots && StoredBy(n, r, a).Some? ==> a in ExecNode(sem, slots, r, n, tt).slots
  {
  }

  // A slot that has been stored to has contents from then on.
  lemma {:induction false} BodyFills<V, W>(sem: Sem<V, W>, f: Function, slots: set<Reg>, b: Label, k: nat,
                                           tt: State<V, W>)
    requires Shape(f) && b < |f.blocks| && k <= |f.blocks[b].body|
    ensures var uu := ExecBody(sem, slots, f, f.blocks[b].body, k, tt);
            && (forall a: Reg :: a in tt.slots ==> a in uu.slots)
            && forall a: Reg, j :: a in slots && 0 <= j < k && Stored(f, f.blocks[b].body[j], a).Some? ==> a in uu.slots
  {
    hide ExecNode, StoredBy, WellFormed;
    if k > 0 {
      BodyFills(sem, f, slots, b, k - 1, tt);
      var r := f.blocks[b].body[k - 1];
      NodeFills(sem, slots, r, f.nodes[r], ExecBody(sem, slots, f, f.blocks[b].body, k - 1, tt));
    }
  }

  // On the way to where the run is.
  ghost predicate Filled<V, W>(f: Function, slots: set<Reg>, p: seq<Label>, tt: State<V, W>)
  {
    forall a: Reg :: a in slots && PassesStore(f, a, p) ==> a in tt.slots
  }

  lemma FilledStep<V, W>(sem: Sem<V, W>, f: Function, slots: set<Reg>, p: seq<Label>, b: Label, next: Label,
                         tt: State<V, W>)
    requires Shape(f) && b < |f.blocks| && |p| > 0 && p[|p| - 1] == b && Filled(f, slots, p, tt)
    ensures var uu := ExecBody(sem, slots, f, f.blocks[b].body, |f.blocks[b].body|, tt);
            Filled(f, slots, p + [next], uu)
  {
    hide ExecBody;
    BodyFills(sem, f, slots, b, |f.blocks[b].body|, tt);
    var uu := ExecBody(sem, slots, f, f.blocks[b].body, |f.blocks[b].body|, tt);
    forall a: Reg | a in slots && PassesStore(f, a, p + [next]) ensures a in uu.slots {
      var i :| 0 <= i < |p| && HasStore(f, a, (p + [next])[i]);
      if i < |p| - 1 { assert HasStore(f, a, p[i]); }
    }
  }

  // ----- One block -----

  ghost predicate BlockFair<V, W>(sem: Sem<V, W>, f: Function, slots: set<Reg>, b: Label, tt: State<V, W>)
    requires Shape(f) && b < |f.blocks|
  {
    forall k: nat :: k < |f.blocks[b].body| ==>
      Fair(sem, slots, f.nodes[f.blocks[b].body[k]], ExecBody(sem, slots, f, f.blocks[b].body, k, tt))
  }

  ghost predicate LoadsFilled<V, W>(sem: Sem<V, W>, f: Function, slots: set<Reg>, b: Label, tt: State<V, W>)
    requires Shape(f) && b < |f.blocks|
  {
    forall k: nat :: k < |f.blocks[b].body| ==>
      var n := f.nodes[f.blocks[b].body[k]];
      n.Load? && n.address in slots ==> n.address in ExecBody(sem, slots, f, f.blocks[b].body, k, tt).slots
  }

  lemma LoadsAreFilled<V, W>(sem: Sem<V, W>, f: Function, slots: set<Reg>, b: Label, p: seq<Label>, tt: State<V, W>)
    requires Shape(f) && b < |f.blocks| && PathTo(GraphOf(f), p, b) && LoadsInitialised(f, slots)
    requires Filled(f, slots, p, tt)
    ensures LoadsFilled(sem, f, slots, b, tt)
  {
    hide ExecBody;
    forall k: nat | k < |f.blocks[b].body| && f.nodes[f.blocks[b].body[k]].Load? &&
      f.nodes[f.blocks[b].body[k]].address in slots
      ensures f.nodes[f.blocks[b].body[k]].address in ExecBody(sem, slots, f, f.blocks[b].body, k, tt).slots
    {
      var a := f.nodes[f.blocks[b].body[k]].address;
      assert StoredBefore(f, a, b, k);
      BodyFills(sem, f, slots, b, k, tt);
    }
  }

  lemma {:induction false} BodyAlike<V(!new), W(!new)>(sem: Sem<V, W>, l: Layout<V, W>, f: Function, slots: set<Reg>,
                                                       b: Label, k: nat, st: State<V, W>, tt: State<V, W>)
    requires Input(f, slots) && AllTame(sem, l, f, slots) && b < |f.blocks| && k <= |f.blocks[b].body|
    requires Reachable(GraphOf(f), b)
    requires Alike(sem, l, slots, st, tt) && Assigned(f, slots, b, 0, st)
    requires BlockFair(sem, f, slots, b, tt) && LoadsFilled(sem, f, slots, b, tt)
    ensures var body := f.blocks[b].body;
            && Alike(sem, l, slots, ExecBody(sem, {}, f, body, k, st), ExecBody(sem, slots, f, body, k, tt))
            && Assigned(f, slots, b, k, ExecBody(sem, {}, f, body, k, st))
  {
    hide Alike, Tame, Fair, ExecNode, Assigned, Shape, SsaForm, Coherent, Reachable, AllTame, BlockFair, LoadsFilled;
    BodyFits(f, b);
    if k > 0 {
      BodyAlike(sem, l, f, slots, b, k - 1, st, tt);
      var r := f.blocks[b].body[k - 1];
      var st1, tt1 := ExecBody(sem, {}, f, f.blocks[b].body, k - 1, st),
                      ExecBody(sem, slots, f, f.blocks[b].body, k - 1, tt);
      NodeFits(f, slots, b, k - 1);
      NodeFair(sem, l, f, slots, b, k - 1, tt);
      IsReady(f, slots, b, k - 1, st1, tt1);
      NodeAlike(sem, l, slots, r, f.nodes[r], st1, tt1);
      AssignedStep(sem, f, slots, b, k - 1, st1);
    }
  }

  lemma NodeFair<V(!new), W(!new)>(sem: Sem<V, W>, l: Layout<V, W>, f: Function, slots: set<Reg>, b: Label, k: nat,
                                   tt: State<V, W>)
    requires Shape(f) && AllTame(sem, l, f, slots) && b < |f.blocks| && k < |f.blocks[b].body|
    requires BlockFair(sem, f, slots, b, tt) && LoadsFilled(sem, f, slots, b, tt)
    ensures var r := f.blocks[b].body[k];
            && r < |f.nodes| && Tame(sem, l, slots, r, f.nodes[r])
            && Fair(sem, slots, f.nodes[r], ExecBody(sem, slots, f, f.blocks[b].body, k, tt))
            && (f.nodes[r].Load? && f.nodes[r].address in slots ==>
                  f.nodes[r].address in ExecBody(sem, slots, f, f.blocks[b].body, k, tt).slots)
  {
    hide Tame, Fair, ExecBody;
  }

  lemma IsReady<V, W>(f: Function, slots: set<Reg>, b: Label, k: nat, st: State<V, W>, tt: State<V, W>)
    requires Shape(f) && SsaForm(f) && b < |f.blocks| && k < |f.blocks[b].body| && Reachable(GraphOf(f), b)
    requires Assigned(f, slots, b, k, st)
    requires var n := f.nodes[f.blocks[b].body[k]]; n.Load? && n.address in slots ==> n.address in tt.slots
    ensures AccessReady(slots, f.nodes[f.blocks[b].body[k]], st, tt)
  {
    hide Reachable, DefinedBefore;
    var n := f.nodes[f.blocks[b].body[k]];
    assert BlockDominated(f, b) && NodeDominated(f, b, k);
    if n.Load? || n.Store? || n.Clear? { assert n.address in Uses(n); }
  }

  // Without phis nothing moves on arrival.
  lemma PlainEnter<V, W>(sem: Sem<V, W>, f: Function, slots: set<Reg>, b: Label, from: Label, st: State<V, W>)
    requires Input(f, slots) && b < |f.blocks|
    ensures EnterBlock(sem, f, f.blocks[b].body, from, st) == st
  {
    assert PhiMoves(sem, f, f.blocks[b].body, from, st) == map[];
    assert st.regs + map[] == st.regs;
  }

  lemma LeaveAlike<V, W>(sem: Sem<V, W>, l: Layout<V, W>, f: Function, slots: set<Reg>, b: Label, st: State<V, W>,
                         tt: State<V, W>)
    requires Input(f, slots) && b < |f.blocks| && Alike(sem, l, slots, st, tt)
    ensures Leave(sem, f.blocks[b].end, st) == Leave(sem, f.blocks[b].end, tt)
  {
    var e := f.blocks[b].end;
    match e {
      case Return(r) =>
        if r != 0 { assert r in EndUses(e); } else { assert f.nodes[0] == Null; }
      case If(c, _, _) => assert c in EndUses(e);
      case Switch(x, _, _) => assert x in EndUses(e);
      case _ =>
    }
  }

  // ----- Runs -----

  // No load, store or memset off the slots ever finds the address of one.
  ghost predicate Honest<V, W>(sem: Sem<V, W>, f: Function, slots: set<Reg>, w: W, n: nat)
    requires Shape(f)
  {
    forall m: nat :: m < n ==>
      var c := Run(sem, slots, f, w, m);
      c.At? && c.block < |f.blocks| ==>
        BlockFair(sem, f, slots, c.block, EnterBlock(sem, f, f.blocks[c.block].body, c.from, c.st))
  }

  ghost predicate SameProgress<V, W>(sem: Sem<V, W>, l: Layout<V, W>, slots: set<Reg>, c: Config<V, W>,
                                     d: Config<V, W>)
  {
    && (c.At? <==> d.At?) && (c.At? ==> c.block == d.block && c.from == d.from)
    && (c.Halted? ==> c.outcome == d.outcome) && Alike(sem, l, slots, c.st, d.st)
  }

  ghost predicate Here<V, W>(f: Function, slots: set<Reg>, p: seq<Label>, c: Config<V, W>, d: Config<V, W>)
    requires Shape(f)
  {
    c.At? && d.At? ==>
      && c.block < |f.blocks| && PathTo(GraphOf(f), p, c.block) && Filled(f, slots, p, d.st)
      && (if c.from < |f.blocks| then Edge(GraphOf(f), c.from, c.block) && Reachable(GraphOf(f), c.from) &&
            Assigned(f, slots, c.from, |f.blocks[c.from].body|, c.st) else c.block == 0)
  }

  // The theorem: with the slots in memory the function does what it does with the slots apart.
  lemma {:induction false} MemoryRunsAlike<V(!new), W(!new)>(sem: Sem<V, W>, l: Layout<V, W>, f: Function,
                                                             slots: set<Reg>, w: W, w2: W, n: nat)
    requires Shape(f) && Input(f, slots) && AllTame(sem, l, f, slots) && LoadsInitialised(f, slots) && l.same(w, w2)
    requires Honest(sem, f, slots, w2, n)
    ensures SameProgress(sem, l, slots, Run(sem, {}, f, w, n), Run(sem, slots, f, w2, n))
    ensures Here(f, slots, Trace(sem, slots, f, w2, n), Run(sem, {}, f, w, n), Run(sem, slots, f, w2, n))
    decreases n
  {
    hide Input, AllTame, LoadsInitialised, Step, Here, SameProgress, BlockFair, Shape;
    if n == 0 {
      StartsAlike(sem, l, f, slots, w, w2);
    } else {
      MemoryRunsAlike(sem, l, f, slots, w, w2, n - 1);
      StepAlike(sem, l, f, slots, Trace(sem, slots, f, w2, n - 1), Run(sem, {}, f, w, n - 1),
                Run(sem, slots, f, w2, n - 1));
    }
  }

  lemma StartsAlike<V, W>(sem: Sem<V, W>, l: Layout<V, W>, f: Function, slots: set<Reg>, w: W, w2: W)
    requires Shape(f) && l.same(w, w2)
    ensures SameProgress(sem, l, slots, Run(sem, {}, f, w, 0), Run(sem, slots, f, w2, 0))
    ensures Here(f, slots, Trace(sem, slots, f, w2, 0), Run(sem, {}, f, w, 0), Run(sem, slots, f, w2, 0))
  {
  }

  lemma StepAlike<V(!new), W(!new)>(sem: Sem<V, W>, l: Layout<V, W>, f: Function, slots: set<Reg>, p: seq<Label>,
                                    c: Config<V, W>, d: Config<V, W>)
    requires Input(f, slots) && AllTame(sem, l, f, slots) && LoadsInitialised(f, slots)
    requires SameProgress(sem, l, slots, c, d) && Here(f, slots, p, c, d)
    requires d.At? && d.block < |f.blocks| ==>
               BlockFair(sem, f, slots, d.block, EnterBlock(sem, f, f.blocks[d.block].body, d.from, d.st))
    ensures var c1, d1 := Step(sem, {}, f, c), Step(sem, slots, f, d);
            SameProgress(sem, l, slots, c1, d1) && Here(f, slots, p + (if d1.At? then [d1.block] else []), c1, d1)
  {
    if c.At? {
      var b := c.block;
      hide Alike, Assigned, LoadsInitialised, AllTame, BlockFair, Coherent, SsaForm, Filled;
      PlainEnter(sem, f, slots, b, c.from, c.st);
      PlainEnter(sem, f, slots, b, d.from, d.st);
      AssignedEnter(sem, f, slots, b, c.from, c.st);
      LoadsAreFilled(sem, f, slots, b, p, d.st);
      assert Reachable(GraphOf(f), b);
      var k := |f.blocks[b].body|;
      BodyAlike(sem, l, f, slots, b, k, c.st, d.st);
      var st, tt := ExecBody(sem, {}, f, f.blocks[b].body, k, c.st), ExecBody(sem, slots, f, f.blocks[b].body, k, d.st);
      LeaveAlike(sem, l, f, slots, b, st, tt);
      var o := Leave(sem, f.blocks[b].end, st);
      if o.Next? {
        LeaveFollowsEdge(sem, f, b, st);
        ExtendPath(GraphOf(f), p, b, o.target);
        FilledStep(sem, f, slots, p, b, o.target, d.st);
      }
    }
  }

  // ----- The pass and memory -----

  lemma SlotsFit(f: Function)
    requires Ready(f)
    ensures Shape(f) && Input(f, SlotsOf(f))
  {
    hide SsaForm, Coherent, Promotable;
  }

  // The theorem: what the pass makes of a function does what the function does with its slots in
  // memory, as meant always and as written where what it reads is what is meant.
  lemma PromotedInMemory<V(!new), W(!new)>(sem: Sem<V, W>, l: Layout<V, W>, f: Function, asWritten: bool, junk: Reg,
                                           h: Function, w: W, w2: W, n: nat)
    requires Ready(f) && Promoted(f, asWritten, junk, h) && LoadsInitialised(f, SlotsOf(f))
    requires asWritten ==>
      && |SlotList(f)| <= |f.blocks| && !IsZero(f, junk)
      && forall D: Doms :: ExactDoms(GraphOf(f), D) ==> NothingRead(f, D) && NothingZeroed(f, D)
    requires AllTame(sem, l, f, SlotsOf(f)) && Honest(sem, f, SlotsOf(f), w2, n) && l.same(w, w2)
    ensures var c, d := Run(sem, {}, f, w, n), Run(sem, {}, h, w2, n);
            && (c.At? <==> d.At?) && (c.At? ==> c.block == d.block && c.from == d.from)
            && (c.Halted? ==> c.outcome == d.outcome) && l.same(c.st.world, d.st.world)
            && forall r: Reg :: r < |f.nodes| && r !in SlotsOf(f) ==> Val(sem, c.st, r) == Val(sem, d.st, r)
  {
    SlotsFit(f);
    hide Ready, Promoted, LoadsInitialised, NothingRead, NothingZeroed, AllTame, Honest, SlotsOf, SlotList, Run,
         Input, Here;
    PromotedRunsAlike(sem, f, asWritten, junk, h, w2, n);
    MemoryRunsAlike(sem, l, f, SlotsOf(f), w, w2, n);
  }
}
