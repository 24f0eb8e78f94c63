// The node graph of a function and what running it means.

module Ir {
  import opened Cfg

  datatype PhiInput = PhiInput(from: Label, val: Reg)

  // Node kinds. `Pure` stands for the arithmetic, conversion, comparison and address nodes,
  // `Effect` for the calls, atomics and other nodes that act on the world, `Clear` for a memset to
  // zero of a constant size.
  datatype Node =
    | Null
    | Pure(opcode: nat, args: seq<Reg>)
    | Effect(opcode: nat, args: seq<Reg>)
    | Local
    | ParamAddr(param: Reg)
    | Load(address: Reg)
    | Store(address: Reg, value: Reg)
    | Clear(address: Reg, src: Reg, size: Reg)
    | Pass(src: Reg)
    | Phi(inputs: seq<PhiInput>)

  // `body` lists the registers of a block in the order of their `next` links.
  datatype Block = Block(body: seq<Reg>, end: Terminator)

  // What the nodes say beside their kind and operands: the size in bits of a data type, or of what
  // is cleared, and which loads and stores are volatile.
  datatype Typing = Typing(bits: map<Reg, nat>, volatile: set<Reg>)

  const PLAIN: Typing := Typing(map[], {})

  // The opcode of the constant 0.
  const ZERO: nat := 0

  datatype Function = Function(nodes: seq<Node>, blocks: seq<Block>, types: Typing := PLAIN)

  function GraphOf(f: Function): (g: Graph)
    ensures |g| == |f.blocks| && forall b :: 0 <= b < |g| ==> g[b] == f.blocks[b].end
  {
    seq(|f.blocks|, b requires 0 <= b < |f.blocks| => f.blocks[b].end)
  }

  // Every register in a body has a node, no register is listed twice, labels exist.
  ghost predicate Shape(f: Function)
  {
    && WellFormed(GraphOf(f))
    && (forall b, k :: 0 <= b < |f.blocks| && 0 <= k < |f.blocks[b].body| ==>
          f.blocks[b].body[k] < |f.nodes|)
    && (forall b, k, c, j ::
          (0 <= b < |f.blocks| && 0 <= k < |f.blocks[b].body|
           && 0 <= c < |f.blocks| && 0 <= j < |f.blocks[c].body|
           && f.blocks[b].body[k] == f.blocks[c].body[j]) ==> b == c && k == j)
  }

  // ----- Running a function -----

  // What the opaque parts of a program do. `W` is everything outside the registers and the
  // promoted slots: memory, devices, the caller. What depends on a node's data type, the size of an
  // access say, depends on its register here.
  datatype Sem<!V, !W> = Sem(
    pure: (nat, seq<V>) -> V,
    effect: (nat, seq<V>, W) -> (V, W),
    local: Reg -> V,
    paramAddr: (Reg, V, W) -> (V, W),
    load: (Reg, V, W) -> (V, W),
    store: (Reg, V, V, W) -> W,
    clear: (Reg, V, W) -> W,
    truth: V -> bool,
    key: V -> int,
    undef: V)

  // `slots` holds the contents of the promoted stack slots that have been stored to.
  datatype State<V, W> = State(regs: map<Reg, V>, slots: map<Reg, V>, world: W)

  function Val<V, W>(sem: Sem<V, W>, st: State<V, W>, r: Reg): V
  {
    if r in st.regs then st.regs[r] else sem.undef
  }

  function Vals<V, W>(sem: Sem<V, W>, st: State<V, W>, args: seq<Reg>): (vs: seq<V>)
    ensures |vs| == |args| && forall i :: 0 <= i < |args| ==> vs[i] == Val(sem, st, args[i])
  {
    seq(|args|, i requires 0 <= i < |args| => Val(sem, st, args[i]))
  }

  function Assign<V, W>(st: State<V, W>, r: Reg, v: V): State<V, W>
  {
    st.(regs := st.regs[r := v])
  }

  // One node. Loads and stores of a promoted slot act on the slot, others on the world. The register
  // of a memset, which nothing reads, is given the zero.
  function ExecNode<V, W>(sem: Sem<V, W>, promoted: set<Reg>, r: Reg, n: Node, st: State<V, W>): State<V, W>
  {
    match n
    case Null => st
    case Phi(_) => st
    case Pure(op, args) => Assign(st, r, sem.pure(op, Vals(sem, st, args)))
    case Effect(op, args) =>
      var (v, w) := sem.effect(op, Vals(sem, st, args), st.world);
      Assign(st.(world := w), r, v)
    case Local => if r in promoted then st else Assign(st, r, sem.local(r))
    case ParamAddr(p) =>
      if r in promoted then st.(slots := st.slots[r := Val(sem, st, p)])
      else
        var (v, w) := sem.paramAddr(r, Val(sem, st, p), st.world);
        Assign(st.(world := w), r, v)
    case Load(a) =>
      if a in promoted then Assign(st, r, if a in st.slots then st.slots[a] else sem.undef)
      else
        var (v, w) := sem.load(r, Val(sem, st, a), st.world);
        Assign(st.(world := w), r, v)
    case Store(a, v) =>
      if a in promoted then st.(slots := st.slots[a := Val(sem, st, v)])
      else st.(world := sem.store(r, Val(sem, st, a), Val(sem, st, v), st.world))
    case Clear(a, _, _) =>
      var zero := sem.pure(ZERO, []);
      if a in promoted then Assign(st.(slots := st.slots[a := zero]), r, zero)
      else Assign(st.(world := sem.clear(r, Val(sem, st, a), st.world)), r, zero)
    case Pass(s) => Assign(st, r, Val(sem, st, s))
  }

  // The first k nodes of a body.
  function ExecBody<V, W>(sem: Sem<V, W>, promoted: set<Reg>, f: Function, body: seq<Reg>, k: nat,
                          st: State<V, W>): State<V, W>
    requires k <= |body| && forall i :: 0 <= i < |body| ==> body[i] < |f.nodes|
  {
    if k == 0 then st
    else
      var r := body[k - 1];
      ExecNode(sem, promoted, r, f.nodes[r], ExecBody(sem, promoted, f, body, k - 1, st))
  }

  // What a body does depends on the nodes alone.
  lemma {:induction false} SameBody<V, W>(sem: Sem<V, W>, f: Function, h: Function, body: seq<Reg>, k: nat,
                                          st: State<V, W>)
    requires h.nodes == f.nodes && k <= |body| && forall i :: 0 <= i < |body| ==> body[i] < |f.nodes|
    ensures ExecBody(sem, {}, h, body, k, st) == ExecBody(sem, {}, f, body, k, st)
  {
    if k > 0 { SameBody(sem, f, h, body, k - 1, st); }
  }

  // The value a phi takes on arrival from a block: a lowering of the phi moves one input after
  // the other into it, so the last input for that block decides, and with none it keeps its value.
  function PhiVal<V, W>(sem: Sem<V, W>, r: Reg, inputs: seq<PhiInput>, from: Label, st: State<V, W>): V
  {
    if inputs == [] then Val(sem, st, r)
    else if inputs[|inputs| - 1].from == from then Val(sem, st, inputs[|inputs| - 1].val)
    else PhiVal(sem, r, inputs[..|inputs| - 1], from, st)
  }

  predicate IsPhiAt(f: Function, body: seq<Reg>, r: Reg)
  {
    r in body && r < |f.nodes| && f.nodes[r].Phi?
  }

  function PhiMoves<V, W>(sem: Sem<V, W>, f: Function, body: seq<Reg>, from: Label, st: State<V, W>): map<Reg, V>
  {
    map r | r in body && IsPhiAt(f, body, r) :: PhiVal(sem, r, f.nodes[r].inputs, from, st)
  }

  // All phis of a block take their values at once.
  function EnterBlock<V, W>(sem: Sem<V, W>, f: Function, body: seq<Reg>, from: Label, st: State<V, W>): State<V, W>
  {
    st.(regs := st.regs + PhiMoves(sem, f, body, from, st))
  }

  datatype Outcome<V> = Next(target: Label) | Returned(value: V) | Trapped | Stuck

  function SwitchTarget(es: seq<SwitchEntry>, default: Label, key: int): Label
  {
    if es == [] then default
    else if es[0].key == key then es[0].target
    else SwitchTarget(es[1..], default, key)
  }

  function Leave<V, W>(sem: Sem<V, W>, t: Terminator, st: State<V, W>): Outcome<V>
  {
    match t
    case NoEnd => Stuck
    case Unreachable => Stuck
    case Trap => Trapped
    case Return(r) => Returned(Val(sem, st, r))
    case Goto(l) => Next(l)
    case If(c, a, b) => Next(if sem.truth(Val(sem, st, c)) then a else b)
    case Switch(k, es, d) => Next(SwitchTarget(es, d, sem.key(Val(sem, st, k))))
  }

  datatype Config<V, W> =
    | At(block: Label, from: Label, st: State<V, W>)
    | Halted(outcome: Outcome<V>, st: State<V, W>)

  // From the arrival at a block to the arrival at the next one.
  function Step<V, W>(sem: Sem<V, W>, promoted: set<Reg>, f: Function, c: Config<V, W>): Config<V, W>
    requires Shape(f)
  {
    if c.Halted? || c.block >= |f.blocks| then c
    else
      var blk := f.blocks[c.block];
      var st1 := EnterBlock(sem, f, blk.body, c.from, c.st);
      var st2 := ExecBody(sem, promoted, f, blk.body, |blk.body|, st1);
      match Leave(sem, blk.end, st2)
      case Next(l) => At(l, c.block, st2)
      case o => Halted(o, st2)
  }

  // A run of n blocks. The entry is entered from nowhere.
  function Run<V, W>(sem: Sem<V, W>, promoted: set<Reg>, f: Function, w: W, n: nat): Config<V, W>
    requires Shape(f)
  {
    if n == 0 then At(0, |f.blocks|, State(map[], map[], w))
    else Step(sem, promoted, f, Run(sem, promoted, f, w, n - 1))
  }

  // The blocks arrived at in the first n steps.
  ghost function Trace<V, W>(sem: Sem<V, W>, promoted: set<Reg>, f: Function, w: W, n: nat): seq<Label>
    requires Shape(f)
  {
    if n == 0 then [0]
    else
      var c := Run(sem, promoted, f, w, n);
      Trace(sem, promoted, f, w, n - 1) + (if c.At? then [c.block] else [])
  }

  lemma {:induction false} SwitchTargetIsTarget(es: seq<SwitchEntry>, d: Label, key: int)
    ensures SwitchTarget(es, d, key) == d || SwitchTarget(es, d, key) in ReverseTargets(es)
  {
    if es != [] && es[0].key != key {
      SwitchTargetIsTarget(es[1..], d, key);
      InReverseTargets(es[1..], SwitchTarget(es[1..], d, key));
    }
    if es != [] {
      InReverseTargets(es, SwitchTarget(es, d, key));
    }
  }

  lemma InReverseTargets(es: seq<SwitchEntry>, l: Label)
    ensures l in ReverseTargets(es) <==> exists i :: 0 <= i < |es| && es[i].target == l
  {
    if l in ReverseTargets(es) {
      var i :| 0 <= i < |es| && ReverseTargets(es)[i] == l;
      assert es[|es| - 1 - i].target == l;
    }
    if i :| 0 <= i < |es| && es[i].target == l {
      assert ReverseTargets(es)[|es| - 1 - i] == l;
    }
  }

  // Control leaves a block along an edge of the graph.
  lemma LeaveFollowsEdge<V, W>(sem: Sem<V, W>, f: Function, b: Label, st: State<V, W>)
    requires Shape(f) && b < |f.blocks| && Leave(sem, f.blocks[b].end, st).Next?
    ensures Edge(GraphOf(f), b, Leave(sem, f.blocks[b].end, st).target)
  {
    var t := f.blocks[b].end;
    if t.Switch? {
      SwitchTargetIsTarget(t.entries, t.default, sem.key(Val(sem, st, t.switchKey)));
    }
    assert Leave(sem, t, st).target in Targets(GraphOf(f)[b]);
  }

  // A run walks along a path of the graph.
  lemma {:induction false} TraceIsPath<V, W>(sem: Sem<V, W>, promoted: set<Reg>, f: Function, w: W, n: nat)
    requires Shape(f)
    ensures var c := Run(sem, promoted, f, w, n); var t := Trace(sem, promoted, f, w, n);
            c.At? ==> (PathTo(GraphOf(f), t, c.block) && |t| == n + 1
                       && (n > 0 ==> Run(sem, promoted, f, w, n - 1).At? && c.from == t[n - 1]))
  {
    hide Step, Shape, PathTo, Edge, GraphOf;
    if n == 0 {
      EntryPath(f);
    } else {
      TraceIsPath(sem, promoted, f, w, n - 1);
      var c0 := Run(sem, promoted, f, w, n - 1);
      if c0.At? && Step(sem, promoted, f, c0).At? {
        StepFollowsEdge(sem, promoted, f, c0, Trace(sem, promoted, f, w, n - 1));
      }
      StepHalted(sem, promoted, f, c0);
    }
  }

  lemma EntryPath(f: Function)
    requires Shape(f)
    ensures |f.blocks| > 0 && PathTo(GraphOf(f), [0], 0)
  {
  }

  lemma StepHalted<V, W>(sem: Sem<V, W>, promoted: set<Reg>, f: Function, c: Config<V, W>)
    requires Shape(f)
    ensures c.Halted? ==> Step(sem, promoted, f, c) == c
  {
  }

  lemma StepFollowsEdge<V, W>(sem: Sem<V, W>, promoted: set<Reg>, f: Function, c: Config<V, W>, p: seq<Label>)
    requires Shape(f) && c.At? && PathTo(GraphOf(f), p, c.block) && Step(sem, promoted, f, c).At?
    ensures Step(sem, promoted, f, c).from == c.block
    ensures PathTo(GraphOf(f), p + [Step(sem, promoted, f, c).block], Step(sem, promoted, f, c).block)
  {
    hide ExecBody, EnterBlock, Leave;
    assert c.block < |f.blocks|;
    var blk := f.blocks[c.block];
    var st2 := ExecBody(sem, promoted, f, blk.body, |blk.body|, EnterBlock(sem, f, blk.body, c.from, c.st));
    LeaveFollowsEdge(sem, f, c.block, st2);
    ExtendPath(GraphOf(f), p, c.block, Leave(sem, blk.end, st2).target);
  }
}
