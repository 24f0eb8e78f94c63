// src/tb/opt/canonical.c:353-545 and src/tb/opt/fold.h:517-563: the rewrites of addresses, of
// comparisons, and of multiplication and remainder by a power of two.

module Rewrites {
  import opened Cfg
  import opened Ir
  import opened Ssa
  import opened Equations
  import opened Replacing
  import opened Removal
  import opened Merging
  import opened Redefining
  import opened Words

  // ----- Operations with a meaning -----

  datatype Cmp = EQ | NE | ULT | ULE | SLT | SLE

  // Widths are in bits. Member adds its offset to an address, Array a multiple of its index.
  datatype PureOp =
    | Const(value: Word)
    | Add(bits: nat)
    | Mul(bits: nat)
    | Shl(bits: nat)
    | UMod(bits: nat)
    | And(bits: nat)
    | Member(offset: int)
    | Array(stride: nat)
    | Compare(cmp: Cmp, bits: nat)
    | Zext(from: nat, bits: nat)
    | Sext(from: nat, bits: nat)
    | Other(id: nat)

  function Arity(op: PureOp): nat
  {
    match op
    case Const(_) => 0
    case Member(_) => 1
    case Zext(_, _) => 1
    case Sext(_, _) => 1
    case _ => 2
  }

  predicate WidthOk(op: PureOp)
  {
    match op
    case Add(w) => 1 <= w <= 64
    case Mul(w) => 1 <= w <= 64
    case Shl(w) => 1 <= w <= 64
    case UMod(w) => 1 <= w <= 64
    case And(w) => 1 <= w <= 64
    case Member(o) => -0x8000_0000 <= o < 0x8000_0000
    case Array(s) => s < 0x1_0000_0000
    case Compare(_, w) => 1 <= w <= 64
    case Zext(v, w) => 1 <= v < w <= 64
    case Sext(v, w) => 1 <= v < w <= 64
    case Other(_) => false
    case Const(_) => true
  }

  // The low bits as a signed number.
  function Signed(x: int, bits: nat): int
    requires 1 <= bits <= 64
  {
    var u := Low(x, bits);
    if u < Two(bits - 1) then u else u - Two(bits)
  }

  // An address, or any other 64-bit number.
  function Mod(x: int): Word
  {
    x % W
  }

  function BitAnd(x: nat, y: nat): (r: nat)
    ensures r <= x
  {
    if x == 0 then 0 else 2 * BitAnd(x / 2, y / 2) + (if x % 2 == 1 && y % 2 == 1 then 1 else 0)
  }

  predicate Compares(c: Cmp, bits: nat, x: int, y: int)
    requires 1 <= bits <= 64
  {
    match c
    case EQ => Low(x, bits) == Low(y, bits)
    case NE => Low(x, bits) != Low(y, bits)
    case ULT => Low(x, bits) < Low(y, bits)
    case ULE => Low(x, bits) <= Low(y, bits)
    case SLT => Signed(x, bits) < Signed(y, bits)
    case SLE => Signed(x, bits) <= Signed(y, bits)
  }

  function Eval(op: PureOp, vs: seq<Word>): Word
    requires WidthOk(op) && |vs| == Arity(op)
  {
    match op
    case Const(v) => v
    case Add(w) => Low(vs[0] as int + vs[1], w)
    case Mul(w) => Low(vs[0] as int * vs[1], w)
    case Shl(w) => if vs[1] < w then Low(vs[0] * Two(vs[1]), w) else 0
    case UMod(w) => if Low(vs[1], w) == 0 then 0 else Low(vs[0], w) % Low(vs[1], w)
    case And(w) => BitAnd(Low(vs[0], w), Low(vs[1], w))
    case Member(o) => Mod(vs[0] as int + o)
    case Array(s) => Mod(vs[0] as int + s * vs[1])
    case Compare(c, w) => if Compares(c, w, vs[0], vs[1]) then 1 else 0
    case Zext(v, w) => Low(vs[0], v)
    case Sext(v, w) => Low(Signed(vs[0], v), w)
    case Other(_) => 0
  }

  // The opcodes of the graph and their meaning.
  datatype Codes = Codes(ops: nat -> PureOp, code: PureOp -> nat)

  ghost predicate Inverse(c: Codes)
  {
    forall p: PureOp :: c.ops(c.code(p)) == p
  }

  ghost predicate Arithmetic<V(!new)>(c: Codes, sem: Sem<Word, V>)
  {
    forall o: nat, vs: seq<Word> :: WidthOk(c.ops(o)) && |vs| == Arity(c.ops(o)) ==>
      sem.pure(o, vs) == Eval(c.ops(o), vs)
  }

  // ----- What the pass does to one node -----

  // A 32-bit number read as signed, as in an assignment to an int32_t.
  function Wrap32(x: int): (r: int)
    ensures -0x8000_0000 <= r < 0x8000_0000
  {
    var u := x % 0x1_0000_0000;
    if u < 0x8000_0000 then u else u - 0x1_0000_0000
  }

  // TB_FITS_INTO(int32_t, x) for a 64-bit x: it is not changed by the cast there and back.
  predicate Fits32(x: Word)
  {
    Mod(Wrap32(x)) == x
  }

  // Insert: `extra` goes behind register `after`; the node becomes opcode(front..., extra).
  datatype Rewrite = Keep | Redefine(n: Node) | Insert(after: Reg, extra: Node, opcode: nat, front: seq<Reg>)

  // The node of register x as an operation of the table with its operands.
  predicate IsOp(c: Codes, f: Function, x: Reg)
  {
    x < |f.nodes| && f.nodes[x].Pure? && WidthOk(c.ops(f.nodes[x].opcode)) &&
      |f.nodes[x].args| == Arity(c.ops(f.nodes[x].opcode))
  }

  function OpOf(c: Codes, f: Function, x: Reg): PureOp
    requires IsOp(c, f, x)
  {
    c.ops(f.nodes[x].opcode)
  }

  function Combine(c: Codes, f: Function, r: Reg): Rewrite
  {
    if !IsOp(c, f, r) then Keep
    else
      var args := f.nodes[r].args;
      match OpOf(c, f, r)
      case Member(o) => CombineMember(c, f, o, args[0])
      case Array(s) => CombineArray(c, f, s, args[0], args[1])
      case Compare(k, _) => CombineCompare(c, f, k, args[0], args[1])
      case Mul(w) => CombineMul(c, f, w, args[0], args[1])
      case UMod(w) => CombineMod(c, f, w, args[0], args[1])
      case _ => Keep
  }

  // The sum is a uint32_t, so that the test whether it fits an int32_t never fails.
  function CombineMember(c: Codes, f: Function, o: int, x: Reg): Rewrite
  {
    if IsOp(c, f, x) && OpOf(c, f, x).Member? then
      Redefine(Pure(c.code(Member(Wrap32(o + OpOf(c, f, x).offset))), [f.nodes[x].args[0]]))
    else if o == 0 then Redefine(Pass(x))
    else Keep
  }

  function CombineArray(c: Codes, f: Function, s: nat, x: Reg, i: Reg): Rewrite
  {
    if !IsOp(c, f, i) then Keep
    else
      match OpOf(c, f, i)
      case Const(v) =>
        var res := Mod(s * v);
        if Fits32(res) then Redefine(Pure(c.code(Member(Wrap32(res))), [x])) else Keep
      case Mul(_) =>
        var factor := ConstOf(c, f, f.nodes[i].args[1]);
        if factor.Some? && Fits32(factor.v) && Fits32(Mod(s * factor.v)) then
          Redefine(Pure(c.code(Array(Mod(s * factor.v) % 0x1_0000_0000)), [x, f.nodes[i].args[0]]))
        else Keep
      case Add(_) =>
        var added := ConstOf(c, f, f.nodes[i].args[1]);
        if added.Some? && Mod(s * added.v) < 0xFFFF_FFFF then
          Insert(i, Pure(c.code(Array(s)), [x, f.nodes[i].args[0]]), c.code(Member(Wrap32(Mod(s * added.v)))), [])
        else Keep
      case _ => Keep
  }

  datatype MaybeWord = None | Some(v: Word)

  function ConstOf(c: Codes, f: Function, x: Reg): MaybeWord
  {
    if IsOp(c, f, x) && OpOf(c, f, x).Const? then Some(OpOf(c, f, x).value) else None
  }

  function CombineCompare(c: Codes, f: Function, k: Cmp, x: Reg, y: Reg): Rewrite
  {
    if IsOp(c, f, x) && IsOp(c, f, y)
       && ((OpOf(c, f, x).Sext? && OpOf(c, f, y).Sext?) || (OpOf(c, f, x).Zext? && OpOf(c, f, y).Zext?)) then
      Redefine(Pure(c.code(Compare(k, OpOf(c, f, x).from)), [f.nodes[x].args[0], f.nodes[y].args[0]]))
    else Keep
  }

  // The position of the lowest bit that is set.
  function LowestBit(v: nat): nat
    requires v > 0
  {
    if v % 2 == 1 then 0 else 1 + LowestBit(v / 2)
  }

  function CombineMul(c: Codes, f: Function, w: nat, x: Reg, y: Reg): Rewrite
  {
    var v := ConstOf(c, f, y);
    if v.Some? && v.v > 1 && v.v == Two(LowestBit(v.v)) then
      Insert(x, Pure(c.code(Const(Mod(LowestBit(v.v)))), []), c.code(Shl(w)), [x])
    else Keep
  }

  // tb_is_power_of_two, which is true of 0 too.
  predicate PowerOfTwo(v: nat)
  {
    v == 0 || v == Two(LowestBit(v))
  }

  function CombineMod(c: Codes, f: Function, w: nat, x: Reg, y: Reg): Rewrite
  {
    var v := ConstOf(c, f, y);
    if v.Some? && PowerOfTwo(v.v) then Insert(x, Pure(c.code(Const(Mod(v.v - 1))), []), c.code(And(w)), [x]) else Keep
  }

  // ----- Which nodes are rewritten -----

  // The constant that register x is.
  ghost predicate IsConst(c: Codes, f: Function, x: Reg, v: int)
  {
    IsOp(c, f, x) && OpOf(c, f, x).Const? && OpOf(c, f, x).value == v
  }

  // Register x is 2 to some power, of at least so many.
  ghost predicate IsPower(c: Codes, f: Function, x: Reg, least: nat)
  {
    exists n: nat :: least <= n && IsConst(c, f, x, Two(n))
  }

  // As a signed 64-bit number x is one of 32 bits.
  predicate Small(x: int)
  {
    x % W < 0x8000_0000 || x % W >= W - 0x8000_0000
  }

  // An index that is a constant, a multiple or a sum of something and a constant.
  ghost predicate ArrayMatches(c: Codes, f: Function, s: nat, i: Reg)
  {
    IsOp(c, f, i) &&
      match OpOf(c, f, i)
      case Const(v) => Small(s * v)
      case Mul(_) => exists v: Word :: IsConst(c, f, f.nodes[i].args[1], v) && Small(v) && Small(s * v)
      case Add(_) => exists v: Word :: IsConst(c, f, f.nodes[i].args[1], v) && (s * v) % W < 0xFFFF_FFFF
      case _ => false
  }

  // The node that the branches are for.
  ghost predicate Matches(c: Codes, f: Function, r: Reg)
    requires IsOp(c, f, r)
  {
    var args := f.nodes[r].args;
    match OpOf(c, f, r)
    case Member(o) => o == 0 || (IsOp(c, f, args[0]) && OpOf(c, f, args[0]).Member?)
    case Array(s) => ArrayMatches(c, f, s, args[1])
    case Compare(_, _) =>
      && IsOp(c, f, args[0]) && IsOp(c, f, args[1])
      && ((OpOf(c, f, args[0]).Sext? && OpOf(c, f, args[1]).Sext?)
          || (OpOf(c, f, args[0]).Zext? && OpOf(c, f, args[1]).Zext?))
    case Mul(_) => IsPower(c, f, args[1], 1)
    case UMod(_) => IsConst(c, f, args[1], 0) || IsPower(c, f, args[1], 0)
    case _ => false
  }

  lemma {:induction false} LowestOfTwo(n: nat)
    ensures LowestBit(Two(n)) == n
  {
    if n > 0 { LowestOfTwo(n - 1); }
  }

  lemma SmallFits(x: int)
    ensures Fits32(Mod(x)) <==> Small(x)
  {
  }

  lemma WordFits(v: Word)
    ensures Mod(v) == v
  {
  }

  lemma ConstIs(c: Codes, f: Function, x: Reg, v: Word)
    ensures IsConst(c, f, x, v) <==> ConstOf(c, f, x) == Some(v)
  {
  }

  // The theorem: a node is rewritten if and only if it is one of them.
  lemma CombineIff(c: Codes, f: Function, r: Reg)
    requires IsOp(c, f, r)
    ensures !Combine(c, f, r).Keep? <==> Matches(c, f, r)
  {
    hide Fits32, Small, LowestBit, Two, Wrap32, CombineMul, CombineMod, CombineArray, IsConst, IsPower, ArrayMatches;
    var args := f.nodes[r].args;
    match OpOf(c, f, r) {
      case Array(s) => ArrayIff(c, f, s, args[0], args[1]);
      case Mul(w) => MulIff(c, f, w, args[0], args[1]);
      case UMod(w) => ModIff(c, f, w, args[0], args[1]);
      case _ =>
    }
  }

  lemma ArrayIff(c: Codes, f: Function, s: nat, x: Reg, i: Reg)
    ensures !CombineArray(c, f, s, x, i).Keep? <==> ArrayMatches(c, f, s, i)
  {
    hide Fits32, Small, Wrap32;
    forall v: Word ensures Fits32(Mod(s * v)) <==> Small(s * v) { SmallFits(s * v); }
    forall v: Word ensures Fits32(v) <==> Small(v) {
      SmallFits(v);
      WordFits(v);
    }
    if IsOp(c, f, i) && (OpOf(c, f, i).Mul? || OpOf(c, f, i).Add?) {
      var y := f.nodes[i].args[1];
      forall v: Word ensures IsConst(c, f, y, v) <==> ConstOf(c, f, y) == Some(v) { ConstIs(c, f, y, v); }
    }
  }

  lemma MulIff(c: Codes, f: Function, w: nat, x: Reg, y: Reg)
    ensures !CombineMul(c, f, w, x, y).Keep? <==> IsPower(c, f, y, 1)
  {
    hide LowestBit;
    var v := ConstOf(c, f, y);
    if IsPower(c, f, y, 1) {
      var n: nat :| 1 <= n && IsConst(c, f, y, Two(n));
      LowestOfTwo(n);
      assert Two(n) == 2 * Two(n - 1);
    }
    if v.Some? && v.v > 1 && v.v == Two(LowestBit(v.v)) {
      assert IsConst(c, f, y, Two(LowestBit(v.v)));
    }
  }

  lemma ModIff(c: Codes, f: Function, w: nat, x: Reg, y: Reg)
    ensures !CombineMod(c, f, w, x, y).Keep? <==>
              IsConst(c, f, y, 0) || IsPower(c, f, y, 0)
  {
    hide LowestBit, Two;
    var v := ConstOf(c, f, y);
    if IsPower(c, f, y, 0) {
      var n: nat :| 0 <= n && IsConst(c, f, y, Two(n));
      LowestOfTwo(n);
    }
    if v.Some? && v.v > 0 && v.v == Two(LowestBit(v.v)) {
      assert IsConst(c, f, y, Two(LowestBit(v.v)));
    }
  }

  // ----- When the value is kept -----

  // The condition under which the rewrite of one node is right: no wrap-around of the folded
  // offset or stride, none of the index that shows in the address, extensions from the same width,
  // no signed comparison of zero extensions, no remainder by zero.
  predicate Sound(c: Codes, f: Function, r: Reg)
    requires IsOp(c, f, r)
  {
    var args := f.nodes[r].args;
    match OpOf(c, f, r)
    case Member(o) => IsOp(c, f, args[0]) && OpOf(c, f, args[0]).Member? ==>
      -0x8000_0000 <= o + OpOf(c, f, args[0]).offset < 0x8000_0000
    case Array(s) => SoundArray(c, f, s, args[1])
    case Compare(k, w) => SoundCompare(c, f, k, w, args[0], args[1])
    case Mul(w) => ConstOf(c, f, args[1]).Some? ==> ConstOf(c, f, args[1]).v < Two(w)
    case UMod(w) => ConstOf(c, f, args[1]).Some? ==> 0 < ConstOf(c, f, args[1]).v < Two(w)
    case _ => true
  }

  predicate SoundArray(c: Codes, f: Function, s: nat, i: Reg)
  {
    if !IsOp(c, f, i) then true
    else
      match OpOf(c, f, i)
      case Mul(w) =>
        var v := ConstOf(c, f, f.nodes[i].args[1]);
        v.Some? ==> Mod(s * v.v) < 0x8000_0000 && (Unseen(s, w) || (v.v <= 1 && Bounded(c, f, f.nodes[i].args[0], w)))
      case Add(w) =>
        var v := ConstOf(c, f, f.nodes[i].args[1]);
        v.Some? ==> Mod(s * v.v) < 0x8000_0000 && (Unseen(s, w) || (v.v == 0 && Bounded(c, f, f.nodes[i].args[0], w)))
      case _ => true
  }

  // An index that wraps round at w bits makes no difference to an address.
  predicate Unseen(s: nat, w: nat)
    requires w <= 64
  {
    Mod(s * Two(w)) == 0
  }

  // Register x is an operation whose results have no more than w bits.
  predicate Bounded(c: Codes, f: Function, x: Reg, w: nat)
    requires 1 <= w <= 64
  {
    IsOp(c, f, x) && ResultFits(OpOf(c, f, x), w)
  }

  predicate ResultFits(op: PureOp, w: nat)
    requires 1 <= w <= 64
  {
    match op
    case Const(v) => v < Two(w)
    case Add(u) => u <= w
    case Mul(u) => u <= w
    case Shl(u) => u <= w
    case UMod(u) => u <= w
    case And(u) => u <= w
    case Compare(_, _) => true
    case Zext(v, _) => v <= w
    case Sext(_, u) => u <= w
    case _ => false
  }

  predicate SoundCompare(c: Codes, f: Function, k: Cmp, w: nat, x: Reg, y: Reg)
  {
    IsOp(c, f, x) && IsOp(c, f, y) ==>
      match OpOf(c, f, x)
      case Sext(v, u) => OpOf(c, f, y).Sext? ==> OpOf(c, f, y) == Sext(v, u) && u == w
      case Zext(v, u) => OpOf(c, f, y).Zext? ==> OpOf(c, f, y) == Zext(v, u) && u == w && !k.SLT? && !k.SLE?
      case _ => true
  }

  // ----- Addresses -----

  lemma ModSame(a: int, b: int, q: int)
    requires a == b + q * W
    ensures Mod(a) == Mod(b)
  {
  }

  lemma ModIs(a: int)
    ensures exists q: int :: a == Mod(a) + q * W
    ensures 0 <= a < W ==> Mod(a) == a
  {
    assert a == Mod(a) + (a / W) * W;
  }

  lemma ModOfSum(a: int, b: int)
    ensures Mod(Mod(a) + b) == Mod(a + b)
  {
    ModIs(a);
    var q: int :| a == Mod(a) + q * W;
    ModSame(a + b, Mod(a) + b, q);
  }

  lemma ModTimes(x: int, s: int, y: int)
    ensures Mod(x + s * Mod(y)) == Mod(x + s * y)
  {
    ModIs(y);
    var q: int :| y == Mod(y) + q * W;
    TimesSum(s, Mod(y), q, W);
    ModSame(x + s * y, x + s * Mod(y), s * q);
  }

  lemma TimesSum(s: int, m: int, q: int, w: int)
    ensures s * (m + q * w) == s * m + s * q * w
  {
  }

  lemma Wrapped(res: int)
    ensures 0 <= res < 0x8000_0000 ==> Wrap32(res) == res
    ensures -0x8000_0000 <= res < 0x8000_0000 <==> Wrap32(res) == res
  {
  }

  // Exactly when a folded offset does not wrap round is every address kept.
  lemma MemberIff(o: int, p: int)
    requires -0x8000_0000 <= o < 0x8000_0000 && -0x8000_0000 <= p < 0x8000_0000
    ensures (forall x: Word :: Eval(Member(Wrap32(o + p)), [x]) == Eval(Member(o), [Eval(Member(p), [x])]))
        <==> -0x8000_0000 <= o + p < 0x8000_0000
  {
    hide Eval, Mod, Wrap32;
    Wrapped(o + p);
    WrapBound(o + p);
    forall x: Word
      ensures Eval(Member(Wrap32(o + p)), [x]) == Mod(x + Wrap32(o + p))
      ensures Eval(Member(o), [Eval(Member(p), [x])]) == Mod(x + (o + p))
    {
      MemberTwice(o, p, Wrap32(o + p), x);
    }
    if Wrap32(o + p) != o + p {
      Differs(o + p, Wrap32(o + p));
      assert Eval(Member(Wrap32(o + p)), [0]) != Eval(Member(o), [Eval(Member(p), [0])]);
    }
  }

  lemma WrapBound(res: int)
    requires -0x1_0000_0000 <= res < 0x1_0000_0000
    ensures -W < res - Wrap32(res) < W
  {
  }

  lemma MemberTwice(o: int, p: int, q: int, x: Word)
    requires WidthOk(Member(o)) && WidthOk(Member(p)) && WidthOk(Member(q))
    ensures Eval(Member(q), [x]) == Mod(x + q) && Eval(Member(o), [Eval(Member(p), [x])]) == Mod(x + (o + p))
  {
    ModOfSum(x + p, o);
  }

  lemma Differs(a: int, b: int)
    requires a != b && -W < a - b < W
    ensures Mod(a) != Mod(b)
  {
  }

  lemma ArrayConst(x: Word, s: nat, v: Word)
    requires Fits32(Mod(s * v))
    ensures Mod(x + Wrap32(Mod(s * v))) == Mod(x + s * v)
  {
    hide Mod, Wrap32;
    ModOfSum(Wrap32(Mod(s * v)), x);
    ModOfSum(s * v, x);
  }

  // A folded stride is the product if it is below 2 to the 31.
  lemma ArrayMul(x: int, s: nat, i: int, v: Word)
    requires Mod(s * v) < 0x8000_0000
    ensures Mod(x + (Mod(s * v) % 0x1_0000_0000) * i) == Mod(x + s * (i * v))
  {
    hide Mod;
    Regroup(s, i, v);
    ModTimes(x, i, s * v);
    Commute(i, Mod(s * v));
  }

  lemma Regroup(s: int, i: int, v: int)
    ensures s * (i * v) == i * (s * v)
  {
  }

  // Such multiples are not seen if Mod(s * p) is 0.
  lemma Vanishes(x: int, s: nat, y: int, q: int, p: nat)
    requires Mod(s * p) == 0 || q == 0
    ensures Mod(x + s * (y - q * p)) == Mod(x + s * y)
  {
    var m := (s * p) / W;
    if q != 0 {
      assert s * p == m * W;
      Gather(s, y, q, p, m);
      ModSame(x + s * y, x + s * (y - q * p), q * m);
    } else {
      assert q * p == 0;
    }
  }

  lemma Gather(s: int, y: int, q: int, p: int, m: int)
    requires s * p == m * W
    ensures s * y == s * (y - q * p) + q * m * W
  {
    assert s * (y - q * p) == s * y - q * (s * p) by { Spread3(s, y, q, p); }
    assert q * (m * W) == q * m * W;
  }

  lemma Spread3(s: int, y: int, q: int, p: int)
    ensures s * (y - q * p) == s * y - q * (s * p)
  {
    assert s * (q * p) == q * (s * p);
  }

  predicate StrideFolds(w: nat, s: nat, v: Word, x: Word, i: Word)
    requires w <= 64
  {
    Mod(x + (Mod(s * v) % 0x1_0000_0000) * i) == Mod(x + s * Low(i as int * v, w))
  }

  lemma StrideKept(w: nat, s: nat, v: Word, x: Word, i: Word)
    requires 1 <= w <= 64 && Mod(s * v) < 0x8000_0000 && (Unseen(s, w) || (v <= 1 && i < Two(w)))
    ensures StrideFolds(w, s, v, x, i)
  {
    var y := i as int * v;
    LowSplit(y, w);
    ArrayMul(x, s, i, v);
    hide Mod, Low;
    if !Unseen(s, w) { assert 0 <= y < Two(w); }
    Vanishes(x, s, y, y / Two(w), Two(w));
  }

  // The theorem, for indices of w bits: folding a factor keeps every address exactly if the stride
  // stays below 2 to the 31 and a product that wraps round is not seen, or there is none.
  lemma ArrayMulIff(w: nat, s: nat, v: Word)
    requires 1 <= w <= 64 && s < 0x1_0000_0000 && v < Two(w) && Fits32(Mod(s * v))
    ensures (forall x: Word, i: Word :: i < Two(w) ==> StrideFolds(w, s, v, x, i)) <==>
              Mod(s * v) < 0x8000_0000 && (v <= 1 || Unseen(s, w))
  {
    hide Mod, Fits32;
    if Mod(s * v) < 0x8000_0000 && (v <= 1 || Unseen(s, w)) {
      forall x: Word, i: Word | i < Two(w) ensures StrideFolds(w, s, v, x, i) { StrideKept(w, s, v, x, i); }
    } else if Mod(s * v) >= 0x8000_0000 {
      StrideLost(w, s, v);
      assert !StrideFolds(w, s, v, 0, 1);
    } else {
      var i := WrapSeen(w, s, v);
      assert !StrideFolds(w, s, v, 0, i);
    }
  }

  // The first index whose product wraps round.
  lemma WrapSeen(w: nat, s: nat, v: Word) returns (i: Word)
    requires 1 <= w <= 64 && 1 < v < Two(w) && Mod(s * v) < 0x8000_0000 && !Unseen(s, w)
    ensures i < Two(w) && !StrideFolds(w, s, v, 0, i)
  {
    hide Mod, Low, Two;
    LowFits(0, w);
    i := FirstAbove(Two(w), v);
    LowOnce(i as int * v, w);
    ArrayMul(0, s, i, v);
    if StrideFolds(w, s, v, 0, i) { SameFolds(s, i as int * v, Two(w)); }
  }

  lemma SameFolds(s: int, y: int, p: int)
    requires Mod(0 + s * y) == Mod(0 + s * (y - p))
    ensures Mod(s * p) == 0
  {
    hide Mod;
    Spread(s, y, p);
    SameMod(s * y, s * p);
  }

  lemma Spread(s: int, y: int, p: int)
    ensures 0 + s * y == s * y && 0 + s * (y - p) == s * y - s * p
  {
  }

  lemma LowOnce(y: int, w: nat)
    requires 1 <= w <= 64 && Two(w) <= y < 2 * Two(w)
    ensures Low(y, w) == y - Two(w)
  {
    LowSplit(y, w);
  }

  lemma SameMod(a: int, b: int)
    requires Mod(a) == Mod(a - b)
    ensures Mod(b) == 0
  {
  }

  lemma FirstAbove(p: nat, v: nat) returns (i: nat)
    requires 1 < v < p
    ensures i < p && p <= i * v < 2 * p
  {
    i := (p - 1) / v + 1;
    var q := (p - 1) / v;
    assert p - 1 == q * v + (p - 1) % v;
    assert i * v == q * v + v;
    if q + 1 >= p { assert q * v >= 2 * q by { Grows(q, v); } }
  }

  lemma Grows(q: nat, v: nat)
    requires v >= 2
    ensures q * v >= 2 * q
  {
  }

  // A 32-bit index that wraps round: element 0 of stride 4 becomes an address 16 GB further on.
  lemma NarrowIndex()
    ensures Eval(Mul(32), [0x8000_0000, 2]) == 0
    ensures Eval(Array(4), [0, Eval(Mul(32), [0x8000_0000, 2])]) == 0
    ensures Eval(Array(8), [0, 0x8000_0000]) == 0x4_0000_0000
  {
    TwoWord();
    assert Low(0x1_0000_0000, 32) == 0;
  }

  lemma StrideLost(w: nat, s: nat, v: Word)
    requires 1 <= w <= 64 && v < Two(w) && Fits32(Mod(s * v)) && Mod(s * v) >= 0x8000_0000
    ensures 1 < Two(w) && !StrideFolds(w, s, v, 0, 1)
  {
    TwoMono(1, w);
    var res := Mod(s * v);
    LargeFits(res);
    ModIs(res % 0x1_0000_0000);
    LowSplit(v, w);
    hide Mod, Fits32, Low;
    var one: int, none: int := 1, 0;
    assert one * v == v;
    assert none + (res % 0x1_0000_0000) * one == res % 0x1_0000_0000;
    assert none + s * Low(one * v, w) == s * v;
  }

  lemma LargeFits(res: Word)
    requires Fits32(res) && res >= 0x8000_0000
    ensures res >= 0x1_0000_0000 && Mod(res % 0x1_0000_0000) < 0x1_0000_0000
  {
  }

  lemma ArrayAdd(x: int, s: nat, i: int, v: Word)
    requires Mod(s * v) < 0x8000_0000
    ensures Mod(Mod(x + s * i) + Wrap32(Mod(s * v))) == Mod(x + s * (i + v))
  {
    hide Mod;
    Wrapped(Mod(s * v));
    Distribute(s, i, v);
    ModOfSum(x + s * i, Mod(s * v));
    ModOfSum(s * v, x + s * i);
  }

  lemma Distribute(s: int, i: int, v: int)
    ensures s * (i + v) == s * i + s * v
  {
  }

  predicate OffsetFolds(w: nat, s: nat, v: Word, x: Word, i: Word)
    requires w <= 64
  {
    Mod(Mod(x + s * i) + Wrap32(Mod(s * v))) == Mod(x + s * Low(i as int + v, w))
  }

  lemma OffsetKept(w: nat, s: nat, v: Word, x: Word, i: Word)
    requires 1 <= w <= 64 && Mod(s * v) < 0x8000_0000 && (Unseen(s, w) || (v == 0 && i < Two(w)))
    ensures OffsetFolds(w, s, v, x, i)
  {
    hide Mod, Low, Wrap32, Two;
    var y := i as int + v;
    LowSplit(y, w);
    ArrayAdd(x, s, i, v);
    if !Unseen(s, w) { NoQuotient(i, Two(w)); }
    Vanishes(x, s, y, y / Two(w), Two(w));
  }

  lemma NoQuotient(i: nat, p: nat)
    requires i < p
    ensures i / p == 0
  {
  }

  // The theorem for an added constant.
  lemma ArrayAddIff(w: nat, s: nat, v: Word)
    requires 1 <= w <= 64 && v < Two(w) && Mod(s * v) < 0xFFFF_FFFF
    ensures (forall x: Word, i: Word :: i < Two(w) ==> OffsetFolds(w, s, v, x, i)) <==>
              Mod(s * v) < 0x8000_0000 && (v == 0 || Unseen(s, w))
  {
    hide Mod, Wrap32;
    if Mod(s * v) < 0x8000_0000 && (v == 0 || Unseen(s, w)) {
      forall x: Word, i: Word | i < Two(w) ensures OffsetFolds(w, s, v, x, i) { OffsetKept(w, s, v, x, i); }
    } else if Mod(s * v) >= 0x8000_0000 {
      OffsetLost(w, s, v);
      assert !OffsetFolds(w, s, v, 0, 0);
    } else {
      LowFits(0, w);
      var i: Word := Two(w) - v;
      SumSeen(w, s, v);
      assert !OffsetFolds(w, s, v, 0, i);
    }
  }

  // The first index whose sum wraps round.
  lemma SumSeen(w: nat, s: nat, v: Word)
    requires 1 <= w <= 64 && 0 < v < Two(w) <= W && Mod(s * v) < 0x8000_0000 && !Unseen(s, w)
    ensures !OffsetFolds(w, s, v, 0, Two(w) - v)
  {
    hide Mod, Low, Wrap32;
    var p := Two(w);
    var i := p - v;
    LowOnce(p, w);
    ArrayAdd(0, s, i, v);
    var none: int := 0;
    assert none + s * (i + v) == s * p && none + s * none == none;
    ModIs(none);
  }

  lemma OffsetLost(w: nat, s: nat, v: Word)
    requires 1 <= w <= 64 && v < Two(w) && 0x8000_0000 <= Mod(s * v) < 0xFFFF_FFFF
    ensures !OffsetFolds(w, s, v, 0, 0)
  {
    var res := Mod(s * v);
    Wrapped(res);
    ModIs(0);
    ModIs(res);
    Differs(Wrap32(res), res);
    LowSplit(v, w);
    hide Mod, Wrap32, Low;
    var none: int := 0;
    assert none + s * none == none;
    assert none + v == v;
  }

  // ----- Comparisons of extended numbers -----

  // What an extension does to the two readings of a number.
  lemma ZextReads(x: int, v: nat, w: nat)
    requires 1 <= v < w <= 64
    ensures Low(Low(x, v), w) == Low(x, v) && Signed(Low(x, v), w) == Low(x, v)
  {
    LowFits(x, v);
    TwoMono(v, w - 1);
    hide Low;
    LowIs(Low(x, v), Low(x, v), w);
  }

  lemma SextReads(x: int, v: nat, w: nat)
    requires 1 <= v < w <= 64
    ensures var wide := Low(Signed(x, v), w);
            && Signed(wide, w) == Signed(x, v)
            && Low(wide, w) == if Low(x, v) < Two(v - 1) then Low(x, v) else Low(x, v) + (Two(w) - Two(v))
    ensures Low(x, v) < Two(v)
  {
    LowFits(x, v);
    TwoMono(v, w - 1);
    hide Low;
    var u := Low(x, v);
    var z := if u < Two(v - 1) then u else u + (Two(w) - Two(v));
    LowIs(Signed(x, v), z, w);
    LowIs(z, z, w);
  }

  predicate Unsigned(k: Cmp)
  {
    !k.SLT? && !k.SLE?
  }

  predicate ZextDrops(k: Cmp, v: nat, w: nat, x: Word, y: Word)
    requires 1 <= v < w <= 64
  {
    Compares(k, w, Low(x, v), Low(y, v)) <==> Compares(k, v, x, y)
  }

  // Zero extensions may be dropped from exactly the comparisons that are not signed.
  lemma ZextIff(k: Cmp, v: nat, w: nat)
    requires 1 <= v < w <= 64
    ensures (forall x: Word, y: Word :: ZextDrops(k, v, w, x, y)) <==> Unsigned(k)
  {
    if Unsigned(k) {
      forall x: Word, y: Word ensures ZextDrops(k, v, w, x, y) {
        ZextReads(x, v, w);
        ZextReads(y, v, w);
      }
    } else {
      ZextFails(k, v, w);
    }
  }

  lemma ZextFails(k: Cmp, v: nat, w: nat)
    requires 1 <= v < w <= 64 && !Unsigned(k)
    ensures exists x: Word, y: Word :: !ZextDrops(k, v, w, x, y)
  {
    LowFits(0, v);
    TwoMono(v, 64);
    TwoWord();
    var x: Word := Two(v - 1);
    ZextReads(x, v, w);
    ZextReads(0, v, w);
    LowIs(x, x, v);
    LowIs(0, 0, v);
    hide Low, Two;
    assert !ZextDrops(k, v, w, x, 0);
  }

  // Sign extensions may be dropped from all.
  lemma SextDrops(k: Cmp, v: nat, w: nat, x: Word, y: Word)
    requires 1 <= v < w <= 64
    ensures Compares(k, w, Low(Signed(x, v), w), Low(Signed(y, v), w)) <==> Compares(k, v, x, y)
  {
    SextReads(x, v, w);
    SextReads(y, v, w);
    TwoMono(v, w);
    assert Two(v) == 2 * Two(v - 1);
    hide Low, Two;
  }

  // ----- Powers of two -----

  lemma ShiftIs(x: Word, v: Word, w: nat)
    requires 1 <= w <= 64 && v > 0 && v == Two(LowestBit(v)) && v < Two(w)
    ensures LowestBit(v) < w && Mod(LowestBit(v)) == LowestBit(v)
    ensures Eval(Shl(w), [x, Mod(LowestBit(v))]) == Eval(Mul(w), [x, v])
  {
    if LowestBit(v) >= w { TwoMono(w, LowestBit(v)); }
  }

  lemma {:induction false} AndMask(a: nat, k: nat)
    ensures BitAnd(a, Two(k) - 1) == a % Two(k)
    decreases k
  {
    if a == 0 {
      assert a % Two(k) == 0 by { DivUnique(0, Two(k), 0, 0); }
    } else if k > 0 {
      var t := Two(k - 1);
      AndMask(a / 2, k - 1);
      assert (2 * t - 1) / 2 == t - 1;
      HalfMod(a, t);
    } else {
      NoBits(a);
    }
  }

  lemma {:induction false} NoBits(a: nat)
    ensures BitAnd(a, 0) == 0
  {
    if a > 0 { NoBits(a / 2); }
  }

  lemma HalfMod(a: nat, t: nat)
    requires t > 0
    ensures a % (2 * t) == 2 * (a / 2 % t) + a % 2
  {
    var q, r := a / 2 / t, a / 2 % t;
    assert a / 2 == q * t + r;
    Doubling(q, t);
    DivUnique(a, 2 * t, q, 2 * r + a % 2);
  }

  lemma Doubling(q: nat, t: nat)
    ensures 2 * (q * t) == q * (2 * t)
  {
  }

  lemma MaskIs(x: Word, v: Word, w: nat)
    requires 1 <= w <= 64 && v > 0 && v == Two(LowestBit(v)) && v < Two(w)
    ensures Eval(And(w), [x, Mod(v as int - 1)]) == Eval(UMod(w), [x, v])
  {
    hide Low, Two, BitAnd, LowestBit, Mod;
    var m: int := v as int - 1;
    ModIs(m);
    LowIs(v, v, w);
    LowIs(m, m, w);
    var a := Low(x, w);
    AndMask(a, LowestBit(v));
    assert Eval(And(w), [x, Mod(m)]) == BitAnd(a, m);
  }

  // ----- One node of a graph -----

  ghost predicate Setting<V(!new)>(c: Codes, sem: Sem<Word, V>, f: Function, b: Label, k: nat)
  {
    && Inverse(c) && Arithmetic(c, sem) && Shape(f) && SsaForm(f) && |f.nodes| > 0
    && b < |f.blocks| && k < |f.blocks[b].body| && Reachable(GraphOf(f), b) && IsOp(c, f, f.blocks[b].body[k])
  }

  // A register of an operation has the value of the operation.
  lemma OpVal<V(!new)>(c: Codes, sem: Sem<Word, V>, f: Function, b: Label, k: nat, x: Reg, st: State<Word, V>)
    requires Arithmetic(c, sem) && Holds(sem, f, b, k, st) && IsOp(c, f, x) && DefinedBefore(f, x, b, k)
    ensures Val(sem, st, x) == Eval(OpOf(c, f, x), Vals(sem, st, f.nodes[x].args))
  {
    hide DefinedBefore, Eval;
    assert Equation(sem, f, x, st);
  }

  lemma NodeVal<V(!new)>(c: Codes, sem: Sem<Word, V>, f: Function, x: Reg, st: State<Word, V>)
    requires Arithmetic(c, sem) && IsOp(c, f, x)
    ensures Defined(sem, f.nodes[x], st) == Eval(OpOf(c, f, x), Vals(sem, st, f.nodes[x].args))
  {
    hide Eval;
  }

  lemma NewVal<V(!new)>(c: Codes, sem: Sem<Word, V>, op: PureOp, args: seq<Reg>, st: State<Word, V>)
    requires Inverse(c) && Arithmetic(c, sem) && WidthOk(op) && |args| == Arity(op)
    ensures Defined(sem, Pure(c.code(op), args), st) == Eval(op, Vals(sem, st, args))
  {
    hide Eval;
  }

  // What a node reads, and what its operands read, is defined before it.
  lemma ReadsBefore<V(!new)>(c: Codes, sem: Sem<Word, V>, f: Function, b: Label, k: nat)
    requires Setting(c, sem, f, b, k)
    ensures var args := f.nodes[f.blocks[b].body[k]].args;
            forall x :: x in args ==> DefinedBefore(f, x, b, k)
                                      && (IsOp(c, f, x) ==> forall y :: y in f.nodes[x].args ==>
                                        DefinedBefore(f, y, b, k))
  {
    assert BlockDominated(f, b) && NodeDominated(f, b, k);
    var n := f.nodes[f.blocks[b].body[k]];
    forall x | x in n.args
      ensures DefinedBefore(f, x, b, k)
      ensures (IsOp(c, f, x) ==> forall y :: y in f.nodes[x].args ==> DefinedBefore(f, y, b, k))
    {
      assert x in Uses(n);
      if IsOp(c, f, x) {
        forall y | y in f.nodes[x].args ensures DefinedBefore(f, y, b, k) {
          assert y in Uses(f.nodes[x]);
          UseBefore(f, x, b, k, y);
        }
      }
    }
  }

  lemma MemberStands<V(!new)>(c: Codes, sem: Sem<Word, V>, f: Function, b: Label, k: nat, n: Node)
    requires Setting(c, sem, f, b, k)
    requires var r := f.blocks[b].body[k]; OpOf(c, f, r).Member? && Combine(c, f, r) == Redefine(n) && Sound(c, f, r)
    ensures StandsFor(sem, f, b, k, n)
  {
    hide Shape, SsaForm, Reachable, Mod, DefinedBefore, Holds, Inverse, Arithmetic, Wrap32, Eval;
    ReadsBefore(c, sem, f, b, k);
    var r := f.blocks[b].body[k];
    assert f.nodes[r].args[0] in f.nodes[r].args;
    forall st: State<Word, V> | Holds(sem, f, b, k, st) ensures Defined(sem, n, st) == Defined(sem, f.nodes[r], st) {
      MemberVal(c, sem, f, b, k, n, st);
    }
  }

  lemma MemberForm(c: Codes, f: Function, r: Reg, n: Node)
    requires IsOp(c, f, r) && OpOf(c, f, r).Member? && Combine(c, f, r) == Redefine(n) && Sound(c, f, r)
    ensures |f.nodes[r].args| == 1
    ensures var o, x := OpOf(c, f, r).offset, f.nodes[r].args[0];
            if IsOp(c, f, x) && OpOf(c, f, x).Member? then
              var p := OpOf(c, f, x).offset;
              && |f.nodes[x].args| == 1 && WidthOk(Member(o)) && WidthOk(Member(p)) && WidthOk(Member(o + p))
              && n == Pure(c.code(Member(o + p)), [f.nodes[x].args[0]])
            else o == 0 && n == Pass(x)
  {
    var o, x := OpOf(c, f, r).offset, f.nodes[r].args[0];
    if IsOp(c, f, x) && OpOf(c, f, x).Member? { Wrapped(o + OpOf(c, f, x).offset); }
  }

  lemma MemberVal<V(!new)>(c: Codes, sem: Sem<Word, V>, f: Function, b: Label, k: nat, n: Node, st: State<Word, V>)
    requires Setting(c, sem, f, b, k) && Holds(sem, f, b, k, st)
    requires var r := f.blocks[b].body[k]; OpOf(c, f, r).Member? && Combine(c, f, r) == Redefine(n) && Sound(c, f, r)
    ensures (n.Pure? || n.Pass?) && Defined(sem, n, st) == Defined(sem, f.nodes[f.blocks[b].body[k]], st)
  {
    hide Shape, SsaForm, Reachable, Mod, DefinedBefore, Holds, Inverse, Arithmetic, Wrap32, Eval, Combine, Sound;
    ReadsBefore(c, sem, f, b, k);
    var r := f.blocks[b].body[k];
    MemberForm(c, f, r, n);
    var o, x := OpOf(c, f, r).offset, f.nodes[r].args[0];
    assert x in f.nodes[r].args;
    NodeVal(c, sem, f, r, st);
    assert Vals(sem, st, f.nodes[r].args) == [Val(sem, st, x)];
    if IsOp(c, f, x) && OpOf(c, f, x).Member? {
      OpVal(c, sem, f, b, k, x, st);
      var y, p := f.nodes[x].args[0], OpOf(c, f, x).offset;
      assert Vals(sem, st, f.nodes[x].args) == [Val(sem, st, y)] == Vals(sem, st, [y]);
      NewVal(c, sem, Member(o + p), [y], st);
      MemberTwice(o, p, o + p, Val(sem, st, y));
    } else {
      MemberZero(Val(sem, st, x));
    }
  }

  lemma MemberZero(v: Word)
    ensures Eval(Member(0), [v]) == v
  {
    ModIs(v);
  }

  lemma ArrayStands<V(!new)>(c: Codes, sem: Sem<Word, V>, f: Function, b: Label, k: nat, n: Node)
    requires Setting(c, sem, f, b, k)
    requires var r := f.blocks[b].body[k]; OpOf(c, f, r).Array? && Combine(c, f, r) == Redefine(n) && Sound(c, f, r)
    ensures StandsFor(sem, f, b, k, n)
  {
    hide Shape, SsaForm, Reachable, Mod, DefinedBefore, Holds, Inverse, Arithmetic, Fits32, Wrap32, Eval;
    ReadsBefore(c, sem, f, b, k);
    var r := f.blocks[b].body[k];
    var args := f.nodes[r].args;
    assert args[0] in args && args[1] in args;
    forall st: State<Word, V> | Holds(sem, f, b, k, st) ensures Defined(sem, n, st) == Defined(sem, f.nodes[r], st) {
      ArrayVal(c, sem, f, b, k, n, st);
    }
  }

  lemma ArrayVal<V(!new)>(c: Codes, sem: Sem<Word, V>, f: Function, b: Label, k: nat, n: Node, st: State<Word, V>)
    requires Setting(c, sem, f, b, k) && Holds(sem, f, b, k, st)
    requires var r := f.blocks[b].body[k]; OpOf(c, f, r).Array? && Combine(c, f, r) == Redefine(n) && Sound(c, f, r)
    ensures n.Pure? && Defined(sem, n, st) == Defined(sem, f.nodes[f.blocks[b].body[k]], st)
  {
    hide Shape, SsaForm, Reachable, Mod, DefinedBefore, Holds, Inverse, Arithmetic, Fits32, Wrap32, Eval;
    ReadsBefore(c, sem, f, b, k);
    var r := f.blocks[b].body[k];
    var args := f.nodes[r].args;
    assert args[0] in args && args[1] in args;
    NodeVal(c, sem, f, r, st);
    OpVal(c, sem, f, b, k, args[1], st);
    var s, x, i := OpOf(c, f, r).stride, Val(sem, st, args[0]), Val(sem, st, args[1]);
    assert Vals(sem, st, args) == [x, i];
    match OpOf(c, f, args[1]) {
      case Const(v) =>
        NewVal(c, sem, Member(Wrap32(Mod(s * v))), [args[0]], st);
        assert Vals(sem, st, [args[0]]) == [x];
        ConstIndex(s, v, x);
      case Mul(w) =>
        var inner := f.nodes[args[1]].args;
        assert inner[1] in inner;
        OpVal(c, sem, f, b, k, inner[1], st);
        var v, a := ConstOf(c, f, inner[1]).v, Val(sem, st, inner[0]);
        ConstVal(v, Vals(sem, st, f.nodes[inner[1]].args));
        assert Vals(sem, st, inner) == [a, v];
        NewVal(c, sem, Array(Mod(s * v) % 0x1_0000_0000), [args[0], inner[0]], st);
        assert Vals(sem, st, [args[0], inner[0]]) == [x, a];
        if Bounded(c, f, inner[0], w) {
          assert inner[0] in inner;
          OpVal(c, sem, f, b, k, inner[0], st);
          ResultBound(OpOf(c, f, inner[0]), Vals(sem, st, f.nodes[inner[0]].args), w);
        }
        MulIndex(s, v, x, a, w);
      case _ =>
    }
  }

  lemma ConstVal(v: Word, vs: seq<Word>)
    requires |vs| == 0
    ensures Eval(Const(v), vs) == v
  {
  }

  lemma ConstIndex(s: nat, v: Word, x: Word)
    requires s < 0x1_0000_0000 && Fits32(Mod(s * v))
    ensures Eval(Member(Wrap32(Mod(s * v))), [x]) == Eval(Array(s), [x, Eval(Const(v), [])])
  {
    hide Mod, Wrap32, Fits32;
    ArrayConst(x, s, v);
  }

  lemma MulIndex(s: nat, v: Word, x: Word, a: Word, w: nat)
    requires 1 <= w <= 64 && s < 0x1_0000_0000 && Mod(s * v) < 0x8000_0000
    requires Unseen(s, w) || (v <= 1 && a < Two(w))
    ensures Eval(Array(Mod(s * v) % 0x1_0000_0000), [x, a]) == Eval(Array(s), [x, Eval(Mul(w), [a, v])])
  {
    hide Mod, Low, Unseen;
    StrideKept(w, s, v, x, a);
  }

  lemma ResultBound(op: PureOp, vs: seq<Word>, w: nat)
    requires WidthOk(op) && |vs| == Arity(op) && 1 <= w <= 64 && ResultFits(op, w)
    ensures Eval(op, vs) < Two(w)
  {
    TwoMono(1, w);
    match op {
      case Add(u) => TwoMono(u, w); LowFits(vs[0] as int + vs[1], u);
      case Mul(u) => TwoMono(u, w); LowFits(vs[0] as int * vs[1], u);
      case Shl(u) => TwoMono(u, w); LowFits(vs[0] * Two(vs[1]), u);
      case UMod(u) => TwoMono(u, w); RemainderBound(vs[0], vs[1], u);
      case And(u) => TwoMono(u, w); LowFits(vs[0], u);
      case Zext(v, _) => TwoMono(v, w); LowFits(vs[0], v);
      case Sext(v, u) => TwoMono(u, w); LowFits(Signed(vs[0], v), u);
      case _ =>
    }
  }

  lemma RemainderBound(x: Word, y: Word, u: nat)
    requires 1 <= u <= 64
    ensures Low(y, u) != 0 ==> Low(x, u) % Low(y, u) < Two(u)
  {
    LowFits(x, u);
    LowFits(y, u);
    hide Low;
    if Low(y, u) != 0 { assert Low(x, u) % Low(y, u) < Low(y, u); }
  }

  lemma CompareStands<V(!new)>(c: Codes, sem: Sem<Word, V>, f: Function, b: Label, k: nat, n: Node)
    requires Setting(c, sem, f, b, k)
    requires var r := f.blocks[b].body[k]; OpOf(c, f, r).Compare? && Combine(c, f, r) == Redefine(n) && Sound(c, f, r)
    ensures StandsFor(sem, f, b, k, n)
  {
    hide Shape, SsaForm, Reachable, DefinedBefore, Holds, Inverse, Arithmetic, Eval;
    ReadsBefore(c, sem, f, b, k);
    var r := f.blocks[b].body[k];
    var args := f.nodes[r].args;
    assert args[0] in args && args[1] in args;
    forall st: State<Word, V> | Holds(sem, f, b, k, st) ensures Defined(sem, n, st) == Defined(sem, f.nodes[r], st) {
      CompareVal(c, sem, f, b, k, n, st);
    }
  }

  lemma CompareVal<V(!new)>(c: Codes, sem: Sem<Word, V>, f: Function, b: Label, k: nat, n: Node, st: State<Word, V>)
    requires Setting(c, sem, f, b, k) && Holds(sem, f, b, k, st)
    requires var r := f.blocks[b].body[k]; OpOf(c, f, r).Compare? && Combine(c, f, r) == Redefine(n) && Sound(c, f, r)
    ensures n.Pure? && Defined(sem, n, st) == Defined(sem, f.nodes[f.blocks[b].body[k]], st)
  {
    hide Shape, SsaForm, Reachable, DefinedBefore, Holds, Inverse, Arithmetic, Low, Signed, Compares;
    ReadsBefore(c, sem, f, b, k);
    var r := f.blocks[b].body[k];
    var args, cmp, w := f.nodes[r].args, OpOf(c, f, r).cmp, OpOf(c, f, r).bits;
    var x, y := args[0], args[1];
    assert x in args && y in args;
    NodeVal(c, sem, f, r, st);
    OpVal(c, sem, f, b, k, x, st);
    OpVal(c, sem, f, b, k, y, st);
    var a, e := Val(sem, st, f.nodes[x].args[0]), Val(sem, st, f.nodes[y].args[0]);
    var v := OpOf(c, f, x).from;
    NewVal(c, sem, Compare(cmp, v), [f.nodes[x].args[0], f.nodes[y].args[0]], st);
    if OpOf(c, f, x).Sext? {
      SextDrops(cmp, v, w, a, e);
    } else {
      ZextIff(cmp, v, w);
      assert ZextDrops(cmp, v, w, a, e);
    }
  }

  // ----- With a node inserted -----

  // The graph once the extra node stands behind position i of block d.
  function Extended(f: Function, d: Label, i: nat, rw: Rewrite): Function
    requires rw.Insert? && d < |f.blocks| && i < |f.blocks[d].body|
  {
    Filled(f, d, i, rw.extra)
  }

  function Last(f: Function, rw: Rewrite): Node
    requires rw.Insert?
  {
    Pure(rw.opcode, rw.front + [|f.nodes|])
  }

  // Where the extra node goes, and that what it reads is defined there if that can be reached.
  ghost predicate Spot(c: Codes, f: Function, b: Label, k: nat, d: Label, i: nat)
    requires b < |f.blocks| && k < |f.blocks[b].body|
  {
    var rw := Combine(c, f, f.blocks[b].body[k]);
    && rw.Insert? && d < |f.blocks| && i < |f.blocks[d].body| && f.blocks[d].body[i] == rw.after
    && (Reachable(GraphOf(f), d) ==> forall u :: u in Uses(rw.extra) ==> DefinedBefore(f, u, d, i + 1))
  }

  lemma InsertReads<V(!new)>(c: Codes, sem: Sem<Word, V>, f: Function, b: Label, k: nat, d: Label, i: nat)
    requires Setting(c, sem, f, b, k) && Spot(c, f, b, k, d, i)
    ensures var rw := Combine(c, f, f.blocks[b].body[k]); var g, x := Extended(f, d, i, rw), Shifted(d, i, b, k);
            && rw.extra.Pure? && x < |g.blocks[b].body| && g.blocks[b].body[x] == f.blocks[b].body[k]
            && (forall s: Reg :: DefinedBefore(f, s, b, k) ==> DefinedBefore(g, s, b, x))
            && (forall u :: u in Uses(Last(f, rw)) ==> DefinedBefore(g, u, b, x))
  {
    hide Shape, SsaForm, Reachable, DefinedBefore, Inverse, Arithmetic, Filled;
    var rw := Combine(c, f, f.blocks[b].body[k]);
    ReadsBefore(c, sem, f, b, k);
    FilledAt(f, d, i, rw.extra, b, k);
    var args := f.nodes[f.blocks[b].body[k]].args;
    assert args[0] in args && args[1] in args;
    FilledBehind(f, d, i, rw.extra, b, k);
    forall s: Reg | DefinedBefore(f, s, b, k) ensures DefinedBefore(Extended(f, d, i, rw), s, b, Shifted(d, i, b, k)) {
      FilledDefined(f, d, i, rw.extra, s, b, k);
    }
  }

  lemma InsertStands<V(!new)>(c: Codes, sem: Sem<Word, V>, f: Function, b: Label, k: nat, d: Label, i: nat)
    requires Setting(c, sem, f, b, k) && Spot(c, f, b, k, d, i) && Sound(c, f, f.blocks[b].body[k])
    ensures var rw := Combine(c, f, f.blocks[b].body[k]); var g, x := Extended(f, d, i, rw), Shifted(d, i, b, k);
            Shape(g) && SsaForm(g) && x < |g.blocks[b].body| && g.blocks[b].body[x] == f.blocks[b].body[k]
            && StandsFor(sem, g, b, x, Last(f, rw))
  {
    var r := f.blocks[b].body[k];
    var rw := Combine(c, f, r);
    var g, x := Extended(f, d, i, rw), Shifted(d, i, b, k);
    InsertReads(c, sem, f, b, k, d, i);
    FilledKeepsSsa(f, d, i, rw.extra);
    FilledAt(f, d, i, rw.extra, b, k);
    hide Shape, SsaForm, Reachable, DefinedBefore, Inverse, Arithmetic, Filled, Sound, Combine, Holds, Defined;
    forall st: State<Word, V> | Holds(sem, g, b, x, st)
      ensures Defined(sem, Last(f, rw), st) == Defined(sem, g.nodes[r], st)
    {
      InsertVal(c, sem, f, b, k, d, i, st);
    }
  }

  // The state before the node, with the extra node among what is defined.
  ghost predicate Ahead<V(!new)>(c: Codes, sem: Sem<Word, V>, f: Function, g: Function, b: Label, k: nat, x: nat,
                                 extra: Node,
                                 st: State<Word, V>)
  {
    && Inverse(c) && Arithmetic(c, sem) && Holds(sem, g, b, x, st) && g.nodes == f.nodes + [extra]
    && (forall s: Reg :: DefinedBefore(f, s, b, k) ==> DefinedBefore(g, s, b, x)) && DefinedBefore(g, |f.nodes|, b, x)
  }

  lemma OldVal<V(!new)>(c: Codes, sem: Sem<Word, V>, f: Function, g: Function, b: Label, k: nat, x: nat, extra: Node,
                        st: State<Word, V>, s: Reg)
    requires Ahead(c, sem, f, g, b, k, x, extra, st) && IsOp(c, f, s) && DefinedBefore(f, s, b, k)
    ensures Val(sem, st, s) == Eval(OpOf(c, f, s), Vals(sem, st, f.nodes[s].args))
  {
    hide DefinedBefore, Eval, Inverse, Arithmetic, Holds;
    assert g.nodes[s] == f.nodes[s];
    OpVal(c, sem, g, b, x, s, st);
  }

  lemma ExtraVal<V(!new)>(c: Codes, sem: Sem<Word, V>, f: Function, g: Function, b: Label, k: nat, x: nat, op: PureOp,
                          args: seq<Reg>,
                          st: State<Word, V>)
    requires Ahead(c, sem, f, g, b, k, x, Pure(c.code(op), args), st) && WidthOk(op) && |args| == Arity(op)
    ensures Val(sem, st, |f.nodes|) == Eval(op, Vals(sem, st, args))
  {
    hide DefinedBefore, Eval, Arithmetic, Holds;
    assert g.nodes[|f.nodes|] == Pure(c.code(op), args);
    assert IsOp(c, g, |f.nodes|);
    OpVal(c, sem, g, b, x, |f.nodes|, st);
  }

  lemma InsertVal<V(!new)>(c: Codes, sem: Sem<Word, V>, f: Function, b: Label, k: nat, d: Label, i: nat,
                           st: State<Word, V>)
    requires Setting(c, sem, f, b, k) && Spot(c, f, b, k, d, i) && Sound(c, f, f.blocks[b].body[k])
    requires Holds(sem, Extended(f, d, i, Combine(c, f, f.blocks[b].body[k])), b, Shifted(d, i, b, k), st)
    ensures Defined(sem, Last(f, Combine(c, f, f.blocks[b].body[k])), st) ==
              Defined(sem, f.nodes[f.blocks[b].body[k]], st)
  {
    var r := f.blocks[b].body[k];
    var rw := Combine(c, f, r);
    var g, x := Extended(f, d, i, rw), Shifted(d, i, b, k);
    InsertReads(c, sem, f, b, k, d, i);
    ReadsBefore(c, sem, f, b, k);
    hide Shape, SsaForm, Reachable, DefinedBefore, Inverse, Arithmetic, Holds, Eval, Mod, Wrap32, Fits32, Two,
         LowestBit, Defined;
    assert |f.nodes| in Uses(Last(f, rw));
    assert Ahead(c, sem, f, g, b, k, x, rw.extra, st);
    hide Ahead;
    match OpOf(c, f, r) {
      case Array(_) => InsertArray(c, sem, f, g, b, k, x, st);
      case Mul(_) => InsertShift(c, sem, f, g, b, k, x, st);
      case UMod(_) => InsertMask(c, sem, f, g, b, k, x, st);
      case _ =>
    }
  }

  ghost predicate Inserting<V(!new)>(c: Codes, sem: Sem<Word, V>, f: Function, g: Function, b: Label, k: nat, x: nat,
                                     st: State<Word, V>)
  {
    && Setting(c, sem, f, b, k) && Combine(c, f, f.blocks[b].body[k]).Insert? && Sound(c, f, f.blocks[b].body[k])
    && Ahead(c, sem, f, g, b, k, x, Combine(c, f, f.blocks[b].body[k]).extra, st)
  }

  lemma InsertArray<V(!new)>(c: Codes, sem: Sem<Word, V>, f: Function, g: Function, b: Label, k: nat, x: nat,
                             st: State<Word, V>)
    requires Inserting(c, sem, f, g, b, k, x, st) && OpOf(c, f, f.blocks[b].body[k]).Array?
    ensures Defined(sem, Last(f, Combine(c, f, f.blocks[b].body[k])), st) ==
              Defined(sem, f.nodes[f.blocks[b].body[k]], st)
  {
    hide Shape, SsaForm, Reachable, DefinedBefore, Inverse, Arithmetic, Holds, Eval, Mod, Wrap32, Fits32, Ahead,
         Defined;
    var r, q := f.blocks[b].body[k], |f.nodes|;
    var args, s := f.nodes[r].args, OpOf(c, f, r).stride;
    ReadsBefore(c, sem, f, b, k);
    assert args[0] in args && args[1] in args;
    var inner, w := f.nodes[args[1]].args, OpOf(c, f, args[1]).bits;
    assert inner[1] in inner;
    var v := ConstOf(c, f, inner[1]).v;
    var rw := Combine(c, f, r);
    assert rw == Insert(args[1], Pure(c.code(Array(s)), [args[0], inner[0]]), c.code(Member(Wrap32(Mod(s * v)))), []);
    OldVal(c, sem, f, g, b, k, x, rw.extra, st, args[1]);
    OldVal(c, sem, f, g, b, k, x, rw.extra, st, inner[1]);
    ExtraVal(c, sem, f, g, b, k, x, Array(s), [args[0], inner[0]], st);
    ConstVal(v, Vals(sem, st, f.nodes[inner[1]].args));
    NodeVal(c, sem, f, r, st);
    var u, a := Val(sem, st, args[0]), Val(sem, st, inner[0]);
    assert Vals(sem, st, args) == [u, Val(sem, st, args[1])] && Vals(sem, st, inner) == [a, v];
    assert Vals(sem, st, [args[0], inner[0]]) == [u, a];
    assert [] + [q] == [q];
    NewVal(c, sem, Member(Wrap32(Mod(s * v))), [q], st);
    assert Vals(sem, st, [q]) == [Val(sem, st, q)];
    if Bounded(c, f, inner[0], w) {
      assert inner[0] in inner;
      OldVal(c, sem, f, g, b, k, x, rw.extra, st, inner[0]);
      ResultBound(OpOf(c, f, inner[0]), Vals(sem, st, f.nodes[inner[0]].args), w);
    }
    AddIndex(s, v, u, a, w);
  }

  lemma AddIndex(s: nat, v: Word, u: Word, a: Word, w: nat)
    requires 1 <= w <= 64 && s < 0x1_0000_0000 && Mod(s * v) < 0x8000_0000
    requires Unseen(s, w) || (v == 0 && a < Two(w))
    ensures Eval(Member(Wrap32(Mod(s * v))), [Eval(Array(s), [u, a])]) == Eval(Array(s), [u, Eval(Add(w), [a, v])])
  {
    hide Mod, Wrap32, Low, Unseen;
    OffsetKept(w, s, v, u, a);
  }

  lemma InsertShift<V(!new)>(c: Codes, sem: Sem<Word, V>, f: Function, g: Function, b: Label, k: nat, x: nat,
                             st: State<Word, V>)
    requires Inserting(c, sem, f, g, b, k, x, st) && OpOf(c, f, f.blocks[b].body[k]).Mul?
    ensures Defined(sem, Last(f, Combine(c, f, f.blocks[b].body[k])), st) ==
              Defined(sem, f.nodes[f.blocks[b].body[k]], st)
  {
    hide Shape, SsaForm, Reachable, DefinedBefore, Inverse, Arithmetic, Holds, Eval, Mod, Two, LowestBit, Ahead,
         Defined;
    var r, q := f.blocks[b].body[k], |f.nodes|;
    var args, w := f.nodes[r].args, OpOf(c, f, r).bits;
    ReadsBefore(c, sem, f, b, k);
    assert args[0] in args && args[1] in args;
    var v := ConstOf(c, f, args[1]).v;
    var rw, m := Combine(c, f, r), Mod(LowestBit(v));
    assert rw == Insert(args[0], Pure(c.code(Const(m)), []), c.code(Shl(w)), [args[0]]);
    ConstOperand(c, sem, f, g, b, k, x, v, m, args[1], st);
    NodeVal(c, sem, f, r, st);
    var u := Val(sem, st, args[0]);
    assert Vals(sem, st, args) == [u, v];
    assert [args[0]] + [q] == [args[0], q];
    NewVal(c, sem, Shl(w), [args[0], q], st);
    assert Vals(sem, st, [args[0], q]) == [u, m];
    ShiftIs(u, v, w);
  }

  lemma ConstOperand<V(!new)>(c: Codes, sem: Sem<Word, V>, f: Function, g: Function, b: Label, k: nat, x: nat, v: Word,
                              m: Word, y: Reg,
                              st: State<Word, V>)
    requires Ahead(c, sem, f, g, b, k, x, Pure(c.code(Const(m)), []), st) && ConstOf(c, f, y) == Some(v)
    requires DefinedBefore(f, y, b, k)
    ensures Val(sem, st, |f.nodes|) == m && Val(sem, st, y) == v
  {
    hide DefinedBefore, Inverse, Arithmetic, Holds, Eval;
    OldVal(c, sem, f, g, b, k, x, Pure(c.code(Const(m)), []), st, y);
    ExtraVal(c, sem, f, g, b, k, x, Const(m), [], st);
    ConstVal(v, Vals(sem, st, f.nodes[y].args));
    ConstVal(m, Vals(sem, st, []));
  }

  lemma InsertMask<V(!new)>(c: Codes, sem: Sem<Word, V>, f: Function, g: Function, b: Label, k: nat, x: nat,
                            st: State<Word, V>)
    requires Inserting(c, sem, f, g, b, k, x, st) && OpOf(c, f, f.blocks[b].body[k]).UMod?
    ensures Defined(sem, Last(f, Combine(c, f, f.blocks[b].body[k])), st) ==
              Defined(sem, f.nodes[f.blocks[b].body[k]], st)
  {
    hide Shape, SsaForm, Reachable, DefinedBefore, Inverse, Arithmetic, Holds, Eval, Mod, Two, LowestBit, Ahead,
         Defined;
    var r, q := f.blocks[b].body[k], |f.nodes|;
    var args, w := f.nodes[r].args, OpOf(c, f, r).bits;
    ReadsBefore(c, sem, f, b, k);
    assert args[0] in args && args[1] in args;
    var v := ConstOf(c, f, args[1]).v;
    var rw, m := Combine(c, f, r), Mod(v as int - 1);
    assert rw == Insert(args[0], Pure(c.code(Const(m)), []), c.code(And(w)), [args[0]]);
    ConstOperand(c, sem, f, g, b, k, x, v, m, args[1], st);
    NodeVal(c, sem, f, r, st);
    var u := Val(sem, st, args[0]);
    assert Vals(sem, st, args) == [u, v];
    assert [args[0]] + [q] == [args[0], q];
    NewVal(c, sem, And(w), [args[0], q], st);
    assert Vals(sem, st, [args[0], q]) == [u, m];
    MaskIs(u, v, w);
  }

  // ----- The rewrite of a graph -----

  // The graph after the node at position k of b has been treated; an extra node goes behind
  // position i of block d.
  function Applied(c: Codes, f: Function, b: Label, k: nat, d: Label, i: nat): Function
    requires b < |f.blocks| && k < |f.blocks[b].body| && f.blocks[b].body[k] < |f.nodes|
    requires Combine(c, f, f.blocks[b].body[k]).Insert? ==> d < |f.blocks| && i < |f.blocks[d].body|
  {
    var r := f.blocks[b].body[k];
    match Combine(c, f, r)
    case Keep => f
    case Redefine(n) => f.(nodes := f.nodes[r := n])
    case Insert(_, _, _, _) =>
      var g := Extended(f, d, i, Combine(c, f, r));
      g.(nodes := g.nodes[r := Last(f, Combine(c, f, r))])
  }

  // A step of the pass. What becomes of a node that cannot be reached need not be sound.
  ghost predicate Rewrote(c: Codes, f: Function, h: Function, b: Label, k: nat, d: Label, i: nat)
  {
    && b < |f.blocks| && k < |f.blocks[b].body| && IsOp(c, f, f.blocks[b].body[k])
    && (Reachable(GraphOf(f), b) ==> Sound(c, f, f.blocks[b].body[k]))
    && (Combine(c, f, f.blocks[b].body[k]).Insert? ==> Spot(c, f, b, k, d, i))
    && h == Applied(c, f, b, k, d, i)
  }

  lemma RedefineStands<V(!new)>(c: Codes, sem: Sem<Word, V>, f: Function, b: Label, k: nat, n: Node)
    requires Setting(c, sem, f, b, k) && Combine(c, f, f.blocks[b].body[k]) == Redefine(n)
    requires Sound(c, f, f.blocks[b].body[k])
    ensures StandsFor(sem, f, b, k, n)
  {
    hide Shape, SsaForm, Reachable, Inverse, Arithmetic, StandsFor, Sound;
    assert IsOp(c, f, f.blocks[b].body[k]);
    match OpOf(c, f, f.blocks[b].body[k]) {
      case Member(_) => MemberStands(c, sem, f, b, k, n);
      case Array(_) => ArrayStands(c, sem, f, b, k, n);
      case Compare(_, _) => CompareStands(c, sem, f, b, k, n);
      case _ =>
    }
  }

  // The registers that a rewrite has added.
  ghost function Between(lo: nat, hi: nat): (s: set<Reg>)
    ensures forall q: Reg :: q in s <==> lo <= q < hi
  {
    if hi <= lo then {} else Between(lo, hi - 1) + {hi - 1}
  }

  lemma ExtraIsPure(c: Codes, f: Function, r: Reg)
    ensures Combine(c, f, r).Insert? ==> Combine(c, f, r).extra.Pure?
  {
  }

  // A node in a block that no run reaches.
  lemma CombineAside<V(!new)>(c: Codes, sem: Sem<Word, V>, f: Function, h: Function, b: Label, k: nat, d: Label, i: nat,
                              w: V, n: nat)
    requires Shape(f) && SsaForm(f) && |f.nodes| > 0 && Rewrote(c, f, h, b, k, d, i) && !Reachable(GraphOf(f), b)
    ensures Shape(h) && SsaForm(h) && |f.nodes| <= |h.nodes| <= |f.nodes| + 1
    ensures SameBut(sem, Between(|f.nodes|, |h.nodes|), Run(sem, {}, f, w, n), Run(sem, {}, h, w, n))
  {
    hide Shape, SsaForm, Reachable, Combine, Sound, Run, Filled, SameBut, DefinedBefore;
    var r, rw := f.blocks[b].body[k], Combine(c, f, f.blocks[b].body[k]);
    SameItself(sem, Run(sem, {}, f, w, n));
    match rw {
      case Keep =>
      case Redefine(m) =>
        AsideSsa(f, h, b, k, m);
        AsidePreservesRuns(sem, f, h, b, k, m, w, n);
      case Insert(_, _, _, _) =>
        var g := Extended(f, d, i, rw);
        ExtraIsPure(c, f, r);
        FilledPreservesRuns(sem, f, d, i, rw.extra, w, n);
        FilledAt(f, d, i, rw.extra, b, k);
        AsideSsa(g, h, b, Shifted(d, i, b, k), Last(f, rw));
        AsidePreservesRuns(sem, g, h, b, Shifted(d, i, b, k), Last(f, rw), w, n);
        assert Between(|f.nodes|, |h.nodes|) == {|f.nodes|};
    }
  }

  // The theorem for one node: a sound rewrite changes no run but for the register it adds.
  lemma CombinePreservesRuns<V(!new)>(c: Codes, sem: Sem<Word, V>, f: Function, h: Function, b: Label, k: nat, d: Label,
                                      i: nat,
                                      w: V, n: nat)
    requires Inverse(c) && Arithmetic(c, sem) && Shape(f) && SsaForm(f) && |f.nodes| > 0 && Rewrote(c, f, h, b, k, d, i)
    ensures Shape(h) && SsaForm(h) && |f.nodes| <= |h.nodes| <= |f.nodes| + 1
    ensures SameBut(sem, Between(|f.nodes|, |h.nodes|), Run(sem, {}, f, w, n), Run(sem, {}, h, w, n))
  {
    hide Shape, SsaForm, Reachable, Inverse, Arithmetic, Combine, Sound, Run, StandsFor, Filled, Spot, Extended,
         SameBut;
    var r := f.blocks[b].body[k];
    if !Reachable(GraphOf(f), b) {
      CombineAside(c, sem, f, h, b, k, d, i, w, n);
      return;
    }
    match Combine(c, f, r) {
      case Keep => SameItself(sem, Run(sem, {}, f, w, n));
      case Redefine(m) =>
        RedefineStands(c, sem, f, b, k, m);
        RedefiningPreservesRuns(sem, f, h, b, k, m, w, n);
        SameItself(sem, Run(sem, {}, f, w, n));
      case Insert(_, _, _, _) => InsertPreservesRuns(c, sem, f, h, b, k, d, i, w, n);
    }
  }

  lemma SameItself<V(!new)>(sem: Sem<Word, V>, c: Config<Word, V>)
    ensures SameBut(sem, {}, c, c)
  {
  }

  // What the insertion and the new definition each need.
  ghost predicate TwoSteps<V(!new)>(sem: Sem<Word, V>, f: Function, h: Function, b: Label, x: nat, d: Label, i: nat,
                                    n: Node, m: Node)
  {
    && Shape(f) && SsaForm(f) && |f.nodes| > 0 && d < |f.blocks| && i < |f.blocks[d].body| && n.Pure?
    && (Reachable(GraphOf(f), d) ==> forall u :: u in Uses(n) ==> DefinedBefore(f, u, d, i + 1))
    && (var g := Filled(f, d, i, n);
        && Shape(g) && SsaForm(g) && StandsFor(sem, g, b, x, m) && Redefined(g, h, g.blocks[b].body[x], m)
        && |h.nodes| == |f.nodes| + 1)
  }

  lemma InsertIsTwoSteps<V(!new)>(c: Codes, sem: Sem<Word, V>, f: Function, h: Function, b: Label, k: nat, d: Label,
                                  i: nat)
    requires Setting(c, sem, f, b, k) && Spot(c, f, b, k, d, i) && Sound(c, f, f.blocks[b].body[k])
    requires h == Applied(c, f, b, k, d, i)
    ensures var rw := Combine(c, f, f.blocks[b].body[k]);
            rw.Insert? && TwoSteps(sem, f, h, b, Shifted(d, i, b, k), d, i, rw.extra, Last(f, rw))
  {
    hide Shape, SsaForm, Reachable, Inverse, Arithmetic, Combine, Sound, StandsFor, WithGap, DefinedBefore;
    InsertReads(c, sem, f, b, k, d, i);
    InsertStands(c, sem, f, b, k, d, i);
  }

  lemma TwoStepsRun<V(!new)>(sem: Sem<Word, V>, f: Function, h: Function, b: Label, x: nat, d: Label, i: nat, n: Node,
                             m: Node, w: V, j: nat)
    requires TwoSteps(sem, f, h, b, x, d, i, n, m)
    ensures Shape(f) && Shape(h) && SsaForm(h) && |h.nodes| == |f.nodes| + 1
    ensures SameBut(sem, {|f.nodes|}, Run(sem, {}, f, w, j), Run(sem, {}, h, w, j))
  {
    hide Shape, SsaForm, StandsFor, Filled, DefinedBefore, SameBut, Run, Redefined;
    FilledPreservesRuns(sem, f, d, i, n, w, j);
    RedefiningPreservesRuns(sem, Filled(f, d, i, n), h, b, x, m, w, j);
  }

  lemma InsertPreservesRuns<V(!new)>(c: Codes, sem: Sem<Word, V>, f: Function, h: Function, b: Label, k: nat, d: Label,
                                     i: nat,
                                     w: V, n: nat)
    requires Setting(c, sem, f, b, k) && Spot(c, f, b, k, d, i) && Sound(c, f, f.blocks[b].body[k])
    requires h == Applied(c, f, b, k, d, i)
    ensures Shape(h) && SsaForm(h) && |h.nodes| == |f.nodes| + 1
    ensures SameBut(sem, Between(|f.nodes|, |h.nodes|), Run(sem, {}, f, w, n), Run(sem, {}, h, w, n))
  {
    hide Shape, SsaForm, Reachable, Combine, Sound, Applied, SameBut, Run, TwoSteps;
    InsertIsTwoSteps(c, sem, f, h, b, k, d, i);
    var rw := Combine(c, f, f.blocks[b].body[k]);
    TwoStepsRun(sem, f, h, b, Shifted(d, i, b, k), d, i, rw.extra, Last(f, rw), w, n);
    assert Between(|f.nodes|, |h.nodes|) == {|f.nodes|};
  }

  datatype Change = Change(b: Label, k: nat, d: Label, i: nat)

  ghost predicate AllRewrote(c: Codes, f: Function, h: Function, changes: seq<Change>)
    decreases |changes|
  {
    if changes == [] then h == f
    else
      var last := changes[|changes| - 1];
      exists m :: AllRewrote(c, f, m, changes[..|changes| - 1]) && Rewrote(c, m, h, last.b, last.k, last.d, last.i)
  }

  // The theorem: after any number of rewrites every run visits the same blocks with the same
  // effects and outcome, and every register of the graph as it was keeps its value.
  lemma {:induction false} RewritesPreserveRuns<V(!new)>(c: Codes, sem: Sem<Word, V>, f: Function, h: Function,
                                                         changes: seq<Change>,
                                                         w: V, n: nat)
    requires Inverse(c) && Arithmetic(c, sem) && Shape(f) && SsaForm(f) && |f.nodes| > 0 && AllRewrote(c, f, h, changes)
    ensures Shape(h) && SsaForm(h) && |f.nodes| <= |h.nodes|
    ensures SameBut(sem, Between(|f.nodes|, |h.nodes|), Run(sem, {}, f, w, n), Run(sem, {}, h, w, n))
    decreases |changes|
  {
    hide Shape, SsaForm, Run, Rewrote, Inverse, Arithmetic;
    if changes != [] {
      var l := |changes| - 1;
      var last := changes[l];
      var m :| AllRewrote(c, f, m, changes[..l]) && Rewrote(c, m, h, last.b, last.k, last.d, last.i);
      RewritesPreserveRuns(c, sem, f, m, changes[..l], w, n);
      CombinePreservesRuns(c, sem, m, h, last.b, last.k, last.d, last.i, w, n);
      SameButWider(sem, |f.nodes|, |m.nodes|, |h.nodes|, Run(sem, {}, f, w, n), Run(sem, {}, m, w, n),
                   Run(sem, {}, h, w, n));
    }
  }

  lemma SameButWider<V(!new)>(sem: Sem<Word, V>, a: nat, b: nat, h: nat, c: Config<Word, V>, d: Config<Word, V>,
                              e: Config<Word, V>)
    requires a <= b <= h && SameBut(sem, Between(a, b), c, d) && SameBut(sem, Between(b, h), d, e)
    ensures SameBut(sem, Between(a, h), c, e)
  {
    SameButTrans(sem, Between(a, b), Between(b, h), c, d, e);
    assert Between(a, b) + Between(b, h) == Between(a, h);
  }

  // ----- Where the extra node may go -----

  lemma GapDefinedBack(f: Function, d: Label, i: nat, n: Node, u: Reg)
    requires Shape(f) && d < |f.blocks| && i < |f.blocks[d].body| && u < |f.nodes|
    requires DefinedBefore(Filled(f, d, i, n), u, d, i + 1)
    ensures DefinedBefore(f, u, d, i + 1)
  {
    var g := Filled(f, d, i, n);
    assert GraphOf(g) == GraphOf(f);
    if u in g.blocks[d].body[..i + 1] {
      assert g.blocks[d].body[..i + 1] == f.blocks[d].body[..i + 1];
    } else {
      var e: Label :| e < |g.blocks| && Sdom(GraphOf(g), e, d) && u in g.blocks[e].body;
      GapHolds(f, d, i, e, u);
    }
  }

  // The new array access of (array A (add B O)) is put behind the addition: exactly if the base is
  // defined there too do definitions still dominate uses.
  lemma InsertIff(f: Function, d: Label, i: nat, extra: Node)
    requires Shape(f) && SsaForm(f) && d < |f.blocks| && i < |f.blocks[d].body| && Reachable(GraphOf(f), d)
    requires extra.Pure?
    requires forall u :: u in Uses(extra) ==> u < |f.nodes|
    ensures Shape(Filled(f, d, i, extra))
    ensures SsaForm(Filled(f, d, i, extra)) <==> forall u :: u in Uses(extra) ==> DefinedBefore(f, u, d, i + 1)
  {
    var g := Filled(f, d, i, extra);
    GapShape(f, d, i);
    RedefinedShape(WithGap(f, d, i), g, |f.nodes|, extra);
    if forall u :: u in Uses(extra) ==> DefinedBefore(f, u, d, i + 1) {
      FilledKeepsSsa(f, d, i, extra);
    }
    if SsaForm(g) {
      assert BlockDominated(g, d) && NodeDominated(g, d, i + 1);
      forall u | u in Uses(extra) ensures DefinedBefore(f, u, d, i + 1) { GapDefinedBack(f, d, i, extra, u); }
    }
  }

  // tb_find_label_from_reg, and the position.
  method FindPlace(f: Function, r: Reg) returns (d: Label, i: nat)
    requires Listed(f, r)
    ensures d < |f.blocks| && i < |f.blocks[d].body| && f.blocks[d].body[i] == r
  {
    d := 0;
    while d < |f.blocks|
      invariant d <= |f.blocks|
      invariant forall e: Label, j: nat :: e < d && j < |f.blocks[e].body| ==> f.blocks[e].body[j] != r
    {
      i := 0;
      while i < |f.blocks[d].body|
        invariant i <= |f.blocks[d].body|
        invariant forall j: nat :: j < i ==> f.blocks[d].body[j] != r
      {
        if f.blocks[d].body[i] == r { return; }
        i := i + 1;
      }
      d := d + 1;
    }
    assert false;
  }

  // The node at position k of block b.
  method CombineNode(c: Codes, f: Function, b: Label, k: nat) returns (h: Function, d: Label, i: nat)
    requires Shape(f) && b < |f.blocks| && k < |f.blocks[b].body|
    requires Combine(c, f, f.blocks[b].body[k]).Insert? ==> Listed(f, Combine(c, f, f.blocks[b].body[k]).after)
    ensures var rw := Combine(c, f, f.blocks[b].body[k]);
            rw.Insert? ==> d < |f.blocks| && i < |f.blocks[d].body| && f.blocks[d].body[i] == rw.after
    ensures h == Applied(c, f, b, k, d, i)
  {
    d, i := 0, 0;
    var r := f.blocks[b].body[k];
    var rw := Combine(c, f, r);
    var nodes, blocks := f.nodes, f.blocks;
    if rw.Redefine? {
      nodes := nodes[r := rw.n];
    } else if rw.Insert? {
      d, i := FindPlace(f, rw.after);
      var body, q := blocks[d].body, |nodes|;
      blocks := blocks[d := blocks[d].(body := body[..i + 1] + [q] + body[i + 1..])];
      nodes := nodes + [rw.extra];
      nodes := nodes[r := Pure(rw.opcode, rw.front + [q])];
    }
    h := f.(nodes := nodes, blocks := blocks);
  }
}
