// src/tb/x64/x64_emitter.h:1-213: two-operand integer instructions as bytes, and a decoder after
// sections 2.1.5 and 2.2.1 of volume 2A of the Intel 64 and IA-32 Architectures Software
// Developer's Manual that reads them back.

module X64Encode {
  import opened Bytes
  import opened Predecessors

  type Gpr = r: nat | r < 16
  const RSP: nat := 4
  const RBP: nat := 5

  // High(r) is AH, CH, DH or BH, which only the decoder speaks of.
  datatype Operand =
    | Reg(r: Gpr)
    | Imm(imm: int)
    | Mem(base: Gpr, index: Option<Gpr>, scale: nat, disp: int)
    | Global(disp: int)
    | High(half: nat)

  datatype Op =
    | ADD | AND | OR | SUB | XOR | CMP | MOV | TEST | LEA | IMUL | XCHG | XADD
    | MOVSXB | MOVSXW | MOVSXD | MOVZXB | MOVZXW

  datatype Inst = Inst(op: Op, a: Operand, b: Operand, bits: nat)

  // ----- The table -----

  datatype Ext = NoExt | Def | Def2
  datatype Entry = Entry(op: Byte, opI: Byte, rxI: nat, ext: Ext)

  // inst2_tbl
  function Table(op: Op): (e: Entry)
    ensures e.rxI < 8
  {
    match op
    case ADD => Entry(0x00, 0x80, 0, NoExt)
    case AND => Entry(0x20, 0x80, 4, NoExt)
    case OR => Entry(0x08, 0x80, 1, NoExt)
    case SUB => Entry(0x28, 0x80, 5, NoExt)
    case XOR => Entry(0x30, 0x80, 6, NoExt)
    case CMP => Entry(0x38, 0x80, 7, NoExt)
    case MOV => Entry(0x88, 0xC6, 0, NoExt)
    case TEST => Entry(0x84, 0xF6, 0, NoExt)
    case XCHG => Entry(0x86, 0, 0, NoExt)
    case XADD => Entry(0xC0, 0, 0, Def)
    case LEA => Entry(0x8D, 0, 0, NoExt)
    case IMUL => Entry(0xAF, 0, 0, Def)
    case MOVSXB => Entry(0xBE, 0, 0, Def2)
    case MOVSXW => Entry(0xBF, 0, 0, Def2)
    case MOVSXD => Entry(0x63, 0, 0, NoExt)
    case MOVZXB => Entry(0xB6, 0, 0, Def2)
    case MOVZXW => Entry(0xB7, 0, 0, Def2)
  }

  // ----- What inst2 is given -----

  predicate Fits(o: Operand)
  {
    match o
    case Reg(_) => true
    case Imm(v) => -0x8000_0000 <= v < 0x8000_0000
    case Mem(_, _, s, d) => s < 4 && -0x8000_0000 <= d < 0x8000_0000
    case Global(d) => -0x8000 <= d < 0x8000
    case High(_) => false
  }

  predicate InMemory(o: Operand)
  {
    o.Mem? || o.Global?
  }

  // The operands and widths that the instructions have.
  predicate Accepted(i: Inst)
  {
    && Fits(i.a) && Fits(i.b) && (i.bits == 8 || i.bits == 16 || i.bits == 32 || i.bits == 64)
    && match i.op
       case XCHG => !i.a.Imm? && i.b.Reg?
       case XADD => !i.a.Imm? && i.b.Reg?
       case LEA => i.a.Reg? && InMemory(i.b) && i.bits != 8
       case IMUL => i.a.Reg? && !i.b.Imm? && i.bits != 8
       case MOVSXB => i.a.Reg? && !i.b.Imm? && i.bits >= 32
       case MOVSXW => i.a.Reg? && !i.b.Imm? && i.bits >= 32
       case MOVSXD => i.a.Reg? && !i.b.Imm? && i.bits >= 32
       case MOVZXB => i.a.Reg? && !i.b.Imm? && i.bits >= 32
       case MOVZXW => i.a.Reg? && !i.b.Imm? && i.bits >= 32
       case _ =>
         && ((i.a.Reg? && InMemory(i.b)) || (!i.a.Imm? && (i.b.Reg? || i.b.Imm?)))
         && (i.bits == 16 && i.b.Imm? ==> -0x1_0000 <= i.b.imm < 0x1_0000)
  }

  // ----- The bytes -----

  function ModRxRm(mod: nat, rx: nat, rm: nat): Byte
  {
    mod % 4 * 64 + rx % 8 * 8 + rm % 8
  }

  function Rex(is64: bool, rx: Gpr, base: Gpr, index: Gpr): Byte
  {
    0x40 + (if is64 then 8 else 0) + base / 8 + index / 8 * 2 + rx / 8 * 4
  }

  // x | 1 and x | 2
  function Or1(x: Byte): Byte
  {
    if x % 2 == 1 then x else x + 1
  }

  function Or2(x: Byte): Byte
  {
    if x / 2 % 2 == 1 then x else x + 2
  }

  function Le8(v: int): Byte
  {
    v % 256
  }

  predicate Short(v: int)
  {
    -128 <= v < 128
  }

  function ModOf(base: Gpr, disp: int): (m: nat)
    ensures m < 3
  {
    if disp == 0 && base % 8 != RBP then 0 else if Short(disp) then 1 else 2
  }

  function DispBytes(mod: nat, disp: int): seq<Byte>
  {
    if mod == 1 then [Le8(disp)] else if mod == 2 then Le32(disp) else []
  }

  // emit_memory_operand. `imms` bytes of immediate follow, which a displacement from the
  // instruction pointer has to allow for.
  function RmBytes(rx: Gpr, o: Operand, imms: nat): (bs: seq<Byte>)
    requires o.Reg? || InMemory(o)
    ensures |bs| > 0
  {
    match o
    case Reg(r) => [ModRxRm(3, rx, r)]
    case Mem(base, index, scale, disp) =>
      var mod := ModOf(base, disp);
      if index.Some? || base % 8 == RSP then
        [ModRxRm(mod, rx, RSP), ModRxRm(scale, if base % 8 == RSP then RSP else index.value, base)] +
          DispBytes(mod, disp)
      else [ModRxRm(mod, rx, base)] + DispBytes(mod, disp)
    case Global(disp) => [ModRxRm(0, rx, RBP)] + Le32(disp - imms)
  }

  predicate Swaps(i: Inst)
  {
    InMemory(i.b) || i.op.MOVSXD? || i.op.IMUL? || Table(i.op).ext == Def2
  }

  // The operand in the rm field, and the other one.
  function RmOf(i: Inst): Operand
  {
    if Swaps(i) then i.b else i.a
  }

  function OtherOf(i: Inst): Operand
  {
    if Swaps(i) then i.a else i.b
  }

  function RxOf(i: Inst): Gpr
  {
    var o := OtherOf(i);
    if o.Reg? then o.r else Table(i.op).rxI
  }

  function BaseOf(o: Operand): Gpr
  {
    match o
    case Reg(r) => r
    case Mem(b, _, _, _) => b
    case _ => RBP
  }

  function IndexOf(o: Operand): Gpr
  {
    if o.Mem? && o.index.Some? then o.index.value else 0
  }

  predicate NeedsRex(i: Inst)
  {
    var rx, base, index := RxOf(i), BaseOf(RmOf(i)), IndexOf(RmOf(i));
    base >= 8 || rx >= 8 || index >= 8 || i.bits == 64 || (i.bits == 8 && (base >= 4 || rx >= 4 || index >= 4))
  }

  predicate ShortImm(i: Inst)
  {
    i.bits != 8 && i.b.Imm? && Short(i.b.imm) && Table(i.op).opI == 0x80
  }

  function ImmBytes(i: Inst): seq<Byte>
  {
    if !i.b.Imm? then []
    else if i.bits <= 8 || ShortImm(i) then [Le8(i.b.imm)]
    else if i.bits <= 16 then Le16(i.b.imm)
    else Le32(i.b.imm)
  }

  // The opcode of the second operand's kind, with the width and direction bits set.
  function OpcodeFor(op: Op, imm: bool, short: bool, wide: bool, mem: bool): Byte
  {
    var e := Table(op);
    var o := if imm then (if short then Or2(e.opI) else e.opI) else e.op;
    var o1 := if wide && (e.ext == NoExt || op.XADD?) then Or1(o) else o;
    if mem != (e.op % 2 == 1) then Or2(o1) else o1
  }

  function Opcode(i: Inst): Byte
  {
    OpcodeFor(i.op, i.b.Imm?, ShortImm(i), i.bits != 8, InMemory(i.b))
  }

  function OpBytes(i: Inst): seq<Byte>
  {
    if Table(i.op).ext != NoExt then [0x0F, Opcode(i)] else [Opcode(i)]
  }

  function Encoding(i: Inst): seq<Byte>
    requires Accepted(i)
  {
    (if i.bits == 16 && Table(i.op).ext != Def2 then [0x66] else [])
    + (if NeedsRex(i) then [Rex(i.bits == 64, RxOf(i), BaseOf(RmOf(i)), IndexOf(RmOf(i)))] else [])
    + OpBytes(i) + RmBytes(RxOf(i), RmOf(i), |ImmBytes(i)|) + ImmBytes(i)
  }

  // ----- How long it is -----

  // The registers that an instruction names. An address without a base counts as RBP, and the
  // operation that goes with an immediate as a register.
  function Named(i: Inst): set<nat>
  {
    var rm := RmOf(i);
    var inAddress := match rm
                     case Reg(r) => {r}
                     case Mem(base, index, _, _) => if index.Some? then {base, index.value} else {base}
                     case _ => {5};
    var other := if OtherOf(i).Reg? then {OtherOf(i).r} else {Table(i.op).rxI};
    inAddress + other
  }

  function Bool(b: bool): nat
  {
    if b then 1 else 0
  }

  // A displacement of zero is left out, but on RBP and R13; a short one takes one byte.
  function DispSize(o: Operand): nat
  {
    match o
    case Mem(base, _, _, disp) =>
      if disp == 0 && base != 5 && base != 13 then 0 else if -128 <= disp < 128 then 1 else 4
    case Global(_) => 4
    case _ => 0
  }

  // The theorem. A REX prefix is there only for 64 bits, registers from 8 on, and in byte operations
  // from 4 on; an index or a base of RSP or R12 takes a SIB byte; immediates of arithmetic that fit one
  // byte take one, others those of the operation, four at most.
  lemma EncodedSize(i: Inst)
    requires Accepted(i)
    ensures |Encoding(i)| ==
              Bool(i.bits == 16 && i.op !in {MOVSXB, MOVSXW, MOVZXB, MOVZXW})
              + Bool(i.bits == 64 || exists r :: r in Named(i) && r >= if i.bits == 8 then 4 else 8)
              + 1 + Bool(i.op in {XADD, IMUL, MOVSXB, MOVSXW, MOVZXB, MOVZXW})
              + 1 + Bool(RmOf(i).Mem? && (RmOf(i).index.Some? || RmOf(i).base in {4, 12})) + DispSize(RmOf(i))
              + if !i.b.Imm? then 0
                else if i.bits == 8 || (-128 <= i.b.imm < 128 && i.op !in {MOV, TEST}) then 1
                else if i.bits == 16 then 2 else 4
  {
    PrefixSize(i);
    AddressSize(RxOf(i), RmOf(i), |ImmBytes(i)|);
    ImmediateSize(i);
    hide Le32, Le16, RmBytes, ImmBytes, NeedsRex, Named, Opcode, RxOf, Rex, DispSize;
  }

  lemma PrefixSize(i: Inst)
    requires Accepted(i)
    ensures NeedsRex(i) <==> i.bits == 64 || exists r :: r in Named(i) && r >= if i.bits == 8 then 4 else 8
    ensures Table(i.op).ext == Def2 <==> i.op in {MOVSXB, MOVSXW, MOVZXB, MOVZXW}
    ensures Table(i.op).ext != NoExt <==> i.op in {XADD, IMUL, MOVSXB, MOVSXW, MOVZXB, MOVZXW}
  {
    var rx, base, index := RxOf(i), BaseOf(RmOf(i)), IndexOf(RmOf(i));
    assert rx in Named(i) && base in Named(i) && (index != 0 ==> index in Named(i));
  }

  lemma AddressSize(rx: Gpr, o: Operand, imms: nat)
    requires o.Reg? || InMemory(o)
    ensures |RmBytes(rx, o, imms)| ==
              1 + Bool(o.Mem? && (o.index.Some? || o.base in {4, 12})) + DispSize(o)
  {
    hide Le32, ModRxRm;
  }

  lemma ImmediateSize(i: Inst)
    requires Accepted(i)
    ensures |ImmBytes(i)| == if !i.b.Imm? then 0
                             else if i.bits == 8 || (-128 <= i.b.imm < 128 && i.op !in {MOV, TEST}) then 1
                             else if i.bits == 16 then 2 else 4
  {
    hide Le32;
  }

  // ----- The decoder -----

  datatype Flags = Flags(present: bool, w: bool, r: nat, x: nat, b: nat)

  function NoRex(): Flags
  {
    Flags(false, false, 0, 0, 0)
  }

  // The REX prefix: 0100WRXB.
  function RexFlags(x: Byte): Flags
  {
    Flags(true, x / 8 % 2 == 1, x / 4 % 2, x / 2 % 2, x % 2)
  }

  function Signed8(x: Byte): int
  {
    if x < 128 then x else x - 256
  }

  function Signed16(bs: seq<Byte>): int
    requires |bs| == 2
  {
    var lo: int, hi: int := bs[0], bs[1];
    var u := lo + 256 * hi;
    if u < 0x8000 then u else u - 0x1_0000
  }

  datatype Rm = Rm(reg: nat, operand: Operand, rest: seq<Byte>)

  function AddDisp(reg: nat, base: Gpr, index: Option<Gpr>, scale: nat, mod: nat, bs: seq<Byte>): Option<Rm>
  {
    if mod == 0 then Some(Rm(reg, Mem(base, index, scale, 0), bs))
    else if mod == 1 && |bs| >= 1 then Some(Rm(reg, Mem(base, index, scale, Signed8(bs[0])), bs[1..]))
    else if mod == 2 && |bs| >= 4 then Some(Rm(reg, Mem(base, index, scale, Signed32(bs[..4])), bs[4..]))
    else None
  }

  // ModRM, SIB and displacement. A displacement from the instruction pointer counts from the end
  // of the instruction, which comes `imms` bytes after the displacement.
  function DecodeRm(bs: seq<Byte>, f: Flags): Option<Rm>
    requires f.r < 2 && f.x < 2 && f.b < 2
  {
    if |bs| == 0 then None
    else
      var mod, reg, rm := bs[0] / 64, bs[0] / 8 % 8 + 8 * f.r, bs[0] % 8;
      if mod == 3 then Some(Rm(reg, Reg(rm + 8 * f.b), bs[1..]))
      else if rm == RSP then
        if |bs| == 1 then None
        else
          var scale, index, base := bs[1] / 64, bs[1] / 8 % 8 + 8 * f.x, bs[1] % 8;
          if base == RBP && mod == 0 then None
          else if index == RSP then AddDisp(reg, base + 8 * f.b, None, 0, mod, bs[2..])
          else AddDisp(reg, base + 8 * f.b, Some(index), scale, mod, bs[2..])
      else if rm == RBP && mod == 0 then
        if |bs| < 5 then None else Some(Rm(reg, Global(Signed32(bs[1..5])), bs[5..]))
      else AddDisp(reg, rm + 8 * f.b, None, 0, mod, bs[1..])
  }

  datatype ImmKind = NoImm | Byte8 | Full
  datatype Form = Form(op: Op, byteOp: bool, toReg: bool, imm: ImmKind)

  function AluOf(n: nat): Option<Op>
  {
    match n
    case 0 => Some(ADD)
    case 1 => Some(OR)
    case 4 => Some(AND)
    case 5 => Some(SUB)
    case 6 => Some(XOR)
    case 7 => Some(CMP)
    case _ => None
  }

  function FormOfAlu(o: Option<Op>, byteOp: bool, toReg: bool, imm: ImmKind): Option<Form>
  {
    if o.Some? then Some(Form(o.value, byteOp, toReg, imm)) else None
  }

  // The opcode maps; `reg` is the reg field of ModRM, without its REX bit.
  function FormOf(two: bool, x: Byte, reg: nat): Option<Form>
  {
    if two then
      if x == 0xAF then Some(Form(IMUL, false, true, NoImm))
      else if x == 0xB6 then Some(Form(MOVZXB, false, true, NoImm))
      else if x == 0xB7 then Some(Form(MOVZXW, false, true, NoImm))
      else if x == 0xBE then Some(Form(MOVSXB, false, true, NoImm))
      else if x == 0xBF then Some(Form(MOVSXW, false, true, NoImm))
      else if x == 0xC0 || x == 0xC1 then Some(Form(XADD, x == 0xC0, false, NoImm))
      else None
    else if x < 0x40 && x % 8 < 4 then FormOfAlu(AluOf(x / 8), x % 2 == 0, x / 2 % 2 == 1, NoImm)
    else if x == 0x63 then Some(Form(MOVSXD, false, true, NoImm))
    else if x == 0x80 || x == 0x81 then FormOfAlu(AluOf(reg), x == 0x80, false, Full)
    else if x == 0x83 then FormOfAlu(AluOf(reg), false, false, Byte8)
    else if x == 0x84 || x == 0x85 then Some(Form(TEST, x == 0x84, false, NoImm))
    else if x == 0x86 || x == 0x87 then Some(Form(XCHG, x == 0x86, false, NoImm))
    else if 0x88 <= x < 0x8C then Some(Form(MOV, x % 2 == 0, x >= 0x8A, NoImm))
    else if x == 0x8D then Some(Form(LEA, false, true, NoImm))
    else if (x == 0xC6 || x == 0xC7) && reg == 0 then Some(Form(MOV, x == 0xC6, false, Full))
    else if (x == 0xF6 || x == 0xF7) && reg == 0 then Some(Form(TEST, x == 0xF6, false, Full))
    else None
  }

  // Without a REX prefix, the byte registers 4 to 7 are the high halves of registers 0 to 3.
  function ByteReg(o: Operand, rex: bool): Operand
  {
    if o.Reg? && !rex && 4 <= o.r < 8 then High(o.r - 4) else o
  }

  function ImmSize(k: ImmKind, bits: nat): nat
  {
    match k
    case NoImm => 0
    case Byte8 => 1
    case Full => if bits == 8 then 1 else if bits == 16 then 2 else 4
  }

  function DecodeImm(bs: seq<Byte>): int
    requires |bs| == 1 || |bs| == 2 || |bs| == 4
  {
    if |bs| == 1 then Signed8(bs[0]) else if |bs| == 2 then Signed16(bs) else Signed32(bs)
  }

  // Widths of the two operands of the decoded instruction.
  predicate ByteSource(op: Op)
  {
    op.MOVSXB? || op.MOVZXB?
  }

  function Assemble(form: Form, bits: nat, rm: Rm, rex: bool, imms: nat): Option<(Inst, seq<Byte>)>
    requires imms == ImmSize(form.imm, bits) && rm.reg < 16
  {
    var operand := if rm.operand.Global? then Global(rm.operand.disp + imms) else rm.operand;
    var o := if form.byteOp || ByteSource(form.op) then ByteReg(operand, rex) else operand;
    var r := if form.byteOp then ByteReg(Reg(rm.reg), rex) else Reg(rm.reg);
    if |rm.rest| < imms || (form.op.LEA? && !InMemory(o)) then None
    else if form.imm != NoImm then Some((Inst(form.op, o, Imm(DecodeImm(rm.rest[..imms])), bits), rm.rest[imms..]))
    else if form.toReg then Some((Inst(form.op, r, o, bits), rm.rest))
    else Some((Inst(form.op, o, r, bits), rm.rest))
  }

  function AfterRex(bs: seq<Byte>, p16: bool, f: Flags): Option<(Inst, seq<Byte>)>
    requires f.r < 2 && f.x < 2 && f.b < 2
  {
    if |bs| < 2 then None
    else
      var two := bs[0] == 0x0F;
      var x := if two then bs[1] else bs[0];
      var rm := DecodeRm(if two then bs[2..] else bs[1..], f);
      if rm.None? then None
      else
        RegBound(if two then bs[2..] else bs[1..], f);
        var form := FormOf(two, x, rm.value.reg % 8);
        if form.None? then None
        else
          var bits := if form.value.byteOp then 8 else if f.w then 64 else if p16 then 16 else 32;
          Assemble(form.value, bits, rm.value, f.present, ImmSize(form.value.imm, bits))
  }

  lemma RegBound(bs: seq<Byte>, f: Flags)
    requires f.r < 2 && f.x < 2 && f.b < 2
    ensures DecodeRm(bs, f).Some? ==> DecodeRm(bs, f).value.reg < 16
  {
  }

  function AfterPrefix(bs: seq<Byte>, p16: bool): Option<(Inst, seq<Byte>)>
  {
    if |bs| > 0 && 0x40 <= bs[0] < 0x50 then AfterRex(bs[1..], p16, RexFlags(bs[0])) else AfterRex(bs, p16, NoRex())
  }

  // One instruction and what follows it.
  function DecodeOne(bs: seq<Byte>): Option<(Inst, seq<Byte>)>
  {
    if |bs| > 0 && bs[0] == 0x66 then AfterPrefix(bs[1..], true) else AfterPrefix(bs, false)
  }

  // ----- What the processor sees -----

  // A base of RSP or R12 takes the place of the low bits of the index; RSP is no index at all.
  function SeenMem(o: Operand): Operand
    requires o.Mem?
  {
    var x: Gpr := if o.base % 8 == RSP then RSP + IndexOf(o) / 8 * 8 else if o.index.Some? then o.index.value else RSP;
    if x == RSP then Mem(o.base, None, 0, o.disp) else Mem(o.base, Some(x), o.scale, o.disp)
  }

  function SeenRm(o: Operand): Operand
  {
    if o.Mem? then SeenMem(o) else o
  }

  function SeenImm(v: int, bits: nat): int
  {
    if bits == 8 then Signed8(Le8(v)) else if bits == 16 then Signed16(Le16(v)) else v
  }

  function Seen(i: Inst): Inst
  {
    var o := SeenRm(RmOf(i));
    var rm := if ByteSource(i.op) then ByteReg(o, NeedsRex(i)) else o;
    if i.op.TEST? && InMemory(i.b) then Inst(XCHG, rm, i.a, i.bits)
    else if Swaps(i) then Inst(i.op, i.a, rm, i.bits)
    else Inst(i.op, rm, if i.b.Imm? then Imm(SeenImm(i.b.imm, i.bits)) else i.b, i.bits)
  }

  // ----- Layer by layer -----

  function FlagsOf(i: Inst): (f: Flags)
    ensures f.r == RxOf(i) / 8 && f.b == BaseOf(RmOf(i)) / 8 && f.x == IndexOf(RmOf(i)) / 8
    ensures f.w <==> i.bits == 64
    ensures f.present <==> NeedsRex(i)
  {
    if NeedsRex(i) then Flags(true, i.bits == 64, RxOf(i) / 8, IndexOf(RmOf(i)) / 8, BaseOf(RmOf(i)) / 8) else NoRex()
  }

  lemma RexRead(w: bool, rx: Gpr, base: Gpr, index: Gpr)
    ensures 0x40 <= Rex(w, rx, base, index) < 0x50
    ensures RexFlags(Rex(w, rx, base, index)) == Flags(true, w, rx / 8, index / 8, base / 8)
  {
    var a, b, c := base / 8, index / 8, rx / 8;
    assert a < 2 && b < 2 && c < 2;
  }

  lemma DispRead(reg: nat, base: Gpr, index: Option<Gpr>, scale: nat, disp: int, mod: nat, rest: seq<Byte>)
    requires -0x8000_0000 <= disp < 0x8000_0000 && mod < 3
    requires (mod == 0 ==> disp == 0) && (mod == 1 ==> Short(disp))
    ensures AddDisp(reg, base, index, scale, mod, DispBytes(mod, disp) + rest) ==
              Some(Rm(reg, Mem(base, index, scale, disp), rest))
  {
    var bs := DispBytes(mod, disp) + rest;
    if mod == 2 {
      Displacement(disp);
      assert bs[..4] == Le32(disp) && bs[4..] == rest;
    } else if mod == 1 {
      assert bs[1..] == rest;
    } else {
      assert bs == rest;
    }
  }

  lemma Fields(m: nat, x: nat, y: nat)
    requires m < 4 && x < 8 && y < 8
    ensures var b := m * 64 + x * 8 + y; b / 64 == m && b / 8 % 8 == x && b % 8 == y
  {
    assert (m * 64 + x * 8 + y) / 8 == m * 8 + x;
  }

  lemma ModRead(mod: nat, rx: nat, rm: nat)
    requires mod < 4
    ensures ModRxRm(mod, rx, rm) / 64 == mod && ModRxRm(mod, rx, rm) / 8 % 8 == rx % 8
    ensures ModRxRm(mod, rx, rm) % 8 == rm % 8
  {
    Fields(mod, rx % 8, rm % 8);
  }

  lemma RmRead(rx: Gpr, o: Operand, imms: nat, rest: seq<Byte>, f: Flags)
    requires (o.Reg? || InMemory(o)) && Fits(o) && imms <= 4
    requires f.r == rx / 8 && (o.Global? || f.b == BaseOf(o) / 8) && f.b < 2 && f.x == IndexOf(o) / 8
    ensures DecodeRm(RmBytes(rx, o, imms) + rest, f)
         == Some(Rm(rx, if o.Global? then Global(o.disp - imms) else SeenRm(o), rest))
  {
    hide Le32, Signed32, ModRxRm, AddDisp, DispBytes;
    var bs := RmBytes(rx, o, imms) + rest;
    assert rx == rx % 8 + 8 * (rx / 8);
    match o {
      case Reg(r) =>
        ModRead(3, rx, r);
        assert bs[1..] == rest;
      case Global(d) =>
        ModRead(0, rx, RBP);
        Displacement(d - imms);
        assert bs[1..5] == Le32(d - imms) && bs[5..] == rest;
      case Mem(base, index, scale, disp) =>
        MemRead(rx, o, rest, f);
    }
  }

  lemma MemRead(rx: Gpr, o: Operand, rest: seq<Byte>, f: Flags)
    requires o.Mem? && Fits(o) && f.r == rx / 8 && f.b == BaseOf(o) / 8 && f.x == IndexOf(o) / 8
    ensures DecodeRm(RmBytes(rx, o, 0) + rest, f) == Some(Rm(rx, SeenRm(o), rest))
    ensures forall imms: nat :: RmBytes(rx, o, imms) == RmBytes(rx, o, 0)
  {
    hide ModRxRm, AddDisp, DispBytes, DecodeRm;
    var mod := ModOf(o.base, o.disp);
    assert rx == rx % 8 + 8 * (rx / 8) && o.base == o.base % 8 + 8 * (o.base / 8);
    assert mod == 0 ==> o.base % 8 != RBP;
    if o.index.Some? || o.base % 8 == RSP {
      var x: Gpr := if o.base % 8 == RSP then RSP else o.index.value;
      var first, second := ModRxRm(mod, rx, RSP), ModRxRm(o.scale, x, o.base);
      ModRead(mod, rx, RSP);
      ModRead(o.scale, x, o.base);
      assert x == x % 8 + 8 * (x / 8);
      assert RmBytes(rx, o, 0) + rest == [first, second] + (DispBytes(mod, o.disp) + rest);
      SibRead(first, second, DispBytes(mod, o.disp) + rest, f);
      DispRead(rx, o.base, SeenMem(o).index, SeenMem(o).scale, o.disp, mod, rest);
    } else {
      ModRead(mod, rx, o.base);
      var first := ModRxRm(mod, rx, o.base);
      assert RmBytes(rx, o, 0) + rest == [first] + (DispBytes(mod, o.disp) + rest);
      BaseRead(first, DispBytes(mod, o.disp) + rest, f);
      DispRead(rx, o.base, None, 0, o.disp, mod, rest);
    }
  }

  function SibOperand(first: Byte, second: Byte, tail: seq<Byte>, f: Flags): Option<Rm>
    requires f.r < 2 && f.x < 2 && f.b < 2
  {
    var x, reg, base := second / 8 % 8 + 8 * f.x, first / 8 % 8 + 8 * f.r, second % 8 + 8 * f.b;
    if x == RSP then AddDisp(reg, base, None, 0, first / 64, tail)
    else AddDisp(reg, base, Some(x), second / 64, first / 64, tail)
  }

  lemma SibRead(first: Byte, second: Byte, tail: seq<Byte>, f: Flags)
    requires f.r < 2 && f.x < 2 && f.b < 2 && first / 64 != 3 && first % 8 == RSP
    requires !(second % 8 == RBP && first / 64 == 0)
    ensures DecodeRm([first, second] + tail, f) == SibOperand(first, second, tail, f)
  {
    hide AddDisp;
    assert ([first, second] + tail)[2..] == tail;
  }

  lemma BaseRead(first: Byte, tail: seq<Byte>, f: Flags)
    requires f.r < 2 && f.x < 2 && f.b < 2 && first / 64 != 3 && first % 8 != RSP
    requires !(first % 8 == RBP && first / 64 == 0)
    ensures DecodeRm([first] + tail, f) ==
              AddDisp(first / 8 % 8 + 8 * f.r, first % 8 + 8 * f.b, None, 0, first / 64, tail)
  {
    hide AddDisp;
    assert ([first] + tail)[1..] == tail;
  }

  function FormFor(op: Op, imm: bool, short: bool, wide: bool, mem: bool): Form
  {
    var toReg := match op
      case TEST => false
      case XCHG => false
      case XADD => false
      case LEA => true
      case IMUL => true
      case MOVSXD => true
      case _ => mem || Table(op).ext == Def2;
    Form(if op.TEST? && mem then XCHG else op, !wide, toReg, if !imm then NoImm else if short then Byte8 else Full)
  }

  function SeenForm(i: Inst): Form
  {
    FormFor(i.op, i.b.Imm?, ShortImm(i), i.bits != 8, InMemory(i.b))
  }

  // Which combinations there are.
  predicate Possible(op: Op, imm: bool, short: bool, wide: bool, mem: bool)
  {
    && (short ==> imm && wide && Table(op).opI == 0x80) && !(imm && mem)
    && match op
       case XCHG => !imm && !mem
       case XADD => !imm && !mem
       case LEA => mem && wide
       case IMUL => !imm && wide
       case _ => Table(op).ext == Def2 || op.MOVSXD? ==> !imm && wide
  }

  ghost predicate ReadsBack(op: Op, imm: bool, short: bool, wide: bool, mem: bool, reg: nat)
  {
    var x := OpcodeFor(op, imm, short, wide, mem);
    && FormOf(Table(op).ext != NoExt, x, reg) == Some(FormFor(op, imm, short, wide, mem))
    && (Table(op).ext == NoExt ==> x != 0x0F && x != 0x66 && !(0x40 <= x < 0x50))
  }

  predicate Alu(op: Op)
  {
    op.ADD? || op.AND? || op.OR? || op.SUB? || op.XOR? || op.CMP?
  }

  lemma AluTable(op: Op)
    requires Alu(op)
    ensures var e := Table(op);
            e.opI == 0x80 && e.ext == NoExt && e.op % 8 == 0 && e.op < 0x40 && AluOf(e.op / 8) == Some(op) &&
              AluOf(e.rxI) == Some(op)
  {
  }

  lemma AluRead(op: Op, imm: bool, short: bool, wide: bool, mem: bool, reg: nat)
    requires Alu(op) && Possible(op, imm, short, wide, mem) && (imm ==> reg == Table(op).rxI)
    ensures ReadsBack(op, imm, short, wide, mem, reg)
  {
    hide Table, AluOf;
    AluTable(op);
    if imm { AluImmediate(op, short, wide, mem, reg); } else { AluPlain(op, short, wide, mem, reg); }
  }

  lemma AluImmediate(op: Op, short: bool, wide: bool, mem: bool, reg: nat)
    requires Alu(op) && Possible(op, true, short, wide, mem) && reg == Table(op).rxI
    requires var e := Table(op);
            e.opI == 0x80 && e.ext == NoExt && e.op % 8 == 0 && e.op < 0x40 && AluOf(e.rxI) == Some(op)
    ensures ReadsBack(op, true, short, wide, mem, reg)
  {
    hide Table, AluOf;
  }

  lemma AluPlain(op: Op, short: bool, wide: bool, mem: bool, reg: nat)
    requires Alu(op) && Possible(op, false, short, wide, mem)
    requires var e := Table(op);
            e.opI == 0x80 && e.ext == NoExt && e.op % 8 == 0 && e.op < 0x40 && AluOf(e.op / 8) == Some(op)
    ensures ReadsBack(op, false, short, wide, mem, reg)
  {
    hide Table, AluOf;
  }

  lemma OtherRead(op: Op, imm: bool, short: bool, wide: bool, mem: bool, reg: nat)
    requires !Alu(op) && Possible(op, imm, short, wide, mem) && (imm ==> reg == Table(op).rxI)
    ensures ReadsBack(op, imm, short, wide, mem, reg)
  {
    hide ReadsBack, Possible;
    if op.MOV? || op.TEST? || op.XCHG? {
      MoveRead(op, imm, short, wide, mem, reg);
    } else {
      ExtendRead(op, imm, short, wide, mem, reg);
    }
  }

  lemma MoveRead(op: Op, imm: bool, short: bool, wide: bool, mem: bool, reg: nat)
    requires op.MOV? || op.TEST? || op.XCHG?
    requires Possible(op, imm, short, wide, mem) && (imm ==> reg == Table(op).rxI)
    ensures ReadsBack(op, imm, short, wide, mem, reg)
  {
  }

  lemma ExtendRead(op: Op, imm: bool, short: bool, wide: bool, mem: bool, reg: nat)
    requires !Alu(op) && !op.MOV? && !op.TEST? && !op.XCHG?
    requires Possible(op, imm, short, wide, mem) && (imm ==> reg == Table(op).rxI)
    ensures ReadsBack(op, imm, short, wide, mem, reg)
  {
  }

  lemma OpcodeRead(i: Inst)
    requires Accepted(i)
    ensures FormOf(Table(i.op).ext != NoExt, Opcode(i), RxOf(i) % 8) == Some(SeenForm(i))
    ensures Table(i.op).ext == NoExt ==> Opcode(i) != 0x0F && Opcode(i) != 0x66 && !(0x40 <= Opcode(i) < 0x50)
  {
    hide OpcodeFor, FormOf, FormFor, Or1, Or2;
    var op := i.op;
    if Alu(op) {
      AluRead(op, i.b.Imm?, ShortImm(i), i.bits != 8, InMemory(i.b), RxOf(i) % 8);
    } else {
      OtherRead(op, i.b.Imm?, ShortImm(i), i.bits != 8, InMemory(i.b), RxOf(i) % 8);
    }
  }

  lemma ImmRead(i: Inst)
    requires Accepted(i) && i.b.Imm?
    ensures |ImmBytes(i)| == ImmSize(SeenForm(i).imm, i.bits) > 0 && |ImmBytes(i)| <= 4
    ensures DecodeImm(ImmBytes(i)) == SeenImm(i.b.imm, i.bits)
  {
    hide Le32, Signed32, Opcode;
    var v := i.b.imm;
    if i.bits <= 8 || ShortImm(i) {
      if i.bits == 16 { Short16(v); }
    } else if i.bits > 16 {
      Displacement(v);
    }
  }

  lemma Short16(v: int)
    requires Short(v)
    ensures Signed16(Le16(v)) == v && Signed8(Le8(v)) == v
  {
  }

  // ----- The theorem for one instruction -----

  // The rm operand as DecodeRm finds it.
  function ReadRm(i: Inst, rest: seq<Byte>): Rm
  {
    var o := RmOf(i);
    Rm(RxOf(i), if o.Global? then Global(o.disp - |ImmBytes(i)|) else SeenRm(o), ImmBytes(i) + rest)
  }

  lemma AssembleSeen(i: Inst, rest: seq<Byte>)
    requires Accepted(i)
    ensures |ImmBytes(i)| == ImmSize(SeenForm(i).imm, i.bits) <= 4
    ensures Assemble(SeenForm(i), i.bits, ReadRm(i, rest), NeedsRex(i), |ImmBytes(i)|) == Some((Seen(i), rest))
  {
    hide Opcode, OpcodeFor, FormOf, ImmBytes, DecodeImm, SeenImm;
    if i.b.Imm? {
      ImmRead(i);
      assert (ImmBytes(i) + rest)[..|ImmBytes(i)|] == ImmBytes(i);
      assert (ImmBytes(i) + rest)[|ImmBytes(i)|..] == rest;
    } else {
      NoImmediate(i);
      assert ImmBytes(i) + rest == rest;
    }
  }

  lemma NoImmediate(i: Inst)
    requires !i.b.Imm?
    ensures ImmBytes(i) == []
  {
  }

  lemma AfterRexIs(two: bool, x: Byte, bs: seq<Byte>, p16: bool, f: Flags, rm: Rm, form: Form, bits: nat)
    requires f.r < 2 && f.x < 2 && f.b < 2 && |bs| > 0 && (!two ==> x != 0x0F)
    requires DecodeRm(bs, f) == Some(rm) && rm.reg < 16 && FormOf(two, x, rm.reg % 8) == Some(form)
    requires bits == if form.byteOp then 8 else if f.w then 64 else if p16 then 16 else 32
    ensures AfterRex((if two then [0x0F, x] else [x]) + bs, p16, f) ==
              Assemble(form, bits, rm, f.present, ImmSize(form.imm, bits))
  {
    hide DecodeRm, FormOf, Assemble;
    var all := (if two then [0x0F, x] else [x]) + bs;
    if two {
      assert all[2..] == bs;
    } else {
      assert all[1..] == bs;
    }
  }

  // What comes after the prefixes.
  function Tail(i: Inst, rest: seq<Byte>): (t: seq<Byte>)
    requires Accepted(i)
    ensures |t| > 0
  {
    OpBytes(i) + (RmBytes(RxOf(i), RmOf(i), |ImmBytes(i)|) + (ImmBytes(i) + rest))
  }

  predicate Prefixed(i: Inst)
  {
    i.bits == 16 && Table(i.op).ext != Def2
  }

  // The rm operand, the other one, and where an immediate can stand.
  lemma Roles(i: Inst)
    requires Accepted(i)
    ensures Swaps(i) <==> InMemory(i.b) || Table(i.op).op == 0x63 || Table(i.op).op == 0xAF || Table(i.op).ext == Def2
    ensures (RmOf(i).Reg? || InMemory(RmOf(i))) && Fits(RmOf(i)) && (OtherOf(i).Reg? || OtherOf(i).Imm?)
    ensures (OtherOf(i).Imm? <==> i.b.Imm?) && (i.b.Imm? ==> OtherOf(i) == i.b)
  {
  }

  lemma WidthSeen(i: Inst)
    requires Accepted(i)
    ensures i.bits == if SeenForm(i).byteOp then 8 else if i.bits == 64 then 64 else if Prefixed(i) then 16 else 32
  {
  }

  lemma AfterRexSeen(i: Inst, rest: seq<Byte>)
    requires Accepted(i)
    ensures AfterRex(Tail(i, rest), Prefixed(i), FlagsOf(i)) == Some((Seen(i), rest))
  {
    hide Opcode, FormOf, Assemble, DecodeRm, ImmBytes, RmBytes, Seen, SeenRm, Accepted, Fits, RxOf, RmOf, SeenForm,
         ImmSize, Table, Prefixed;
    OpcodeRead(i);
    Roles(i);
    WidthSeen(i);
    AssembleSeen(i, rest);
    RmRead(RxOf(i), RmOf(i), |ImmBytes(i)|, ImmBytes(i) + rest, FlagsOf(i));
    AfterRexIs(Table(i.op).ext != NoExt, Opcode(i), RmBytes(RxOf(i), RmOf(i), |ImmBytes(i)|) + (ImmBytes(i) + rest),
               Prefixed(i), FlagsOf(i), ReadRm(i, rest), SeenForm(i), i.bits);
  }

  lemma FirstByte(i: Inst, rest: seq<Byte>)
    requires Accepted(i)
    ensures var t := Tail(i, rest); t[0] != 0x66 && !(0x40 <= t[0] < 0x50)
  {
    OpcodeRead(i);
    hide Opcode, FormOf;
  }

  function RexBytes(i: Inst): seq<Byte>
  {
    if NeedsRex(i) then [Rex(i.bits == 64, RxOf(i), BaseOf(RmOf(i)), IndexOf(RmOf(i)))] else []
  }

  lemma AfterPrefixSeen(i: Inst, tail: seq<Byte>, p16: bool)
    requires |tail| > 0 && tail[0] != 0x66 && !(0x40 <= tail[0] < 0x50)
    ensures AfterPrefix(RexBytes(i) + tail, p16) == AfterRex(tail, p16, FlagsOf(i))
    ensures (RexBytes(i) + tail)[0] != 0x66
  {
    hide AfterRex, NeedsRex, Rex, RexFlags;
    RexRead(i.bits == 64, RxOf(i), BaseOf(RmOf(i)), IndexOf(RmOf(i)));
    if NeedsRex(i) {
      assert (RexBytes(i) + tail)[1..] == tail;
    } else {
      assert RexBytes(i) + tail == tail;
    }
  }

  // What inst2 writes is read as Seen(i), whatever follows.
  lemma DecodeSeen(i: Inst, rest: seq<Byte>)
    requires Accepted(i)
    ensures DecodeOne(Encoding(i) + rest) == Some((Seen(i), rest))
  {
    hide Encoding, AfterRex, AfterPrefix, Seen, FlagsOf, RexBytes, Tail, Prefixed;
    AfterRexSeen(i, rest);
    FirstByte(i, rest);
    AfterPrefixSeen(i, Tail(i, rest), Prefixed(i));
    EncodingParts(i, rest);
    assert ([0x66] + (RexBytes(i) + Tail(i, rest)))[1..] == RexBytes(i) + Tail(i, rest);
  }

  lemma EncodingParts(i: Inst, rest: seq<Byte>)
    requires Accepted(i)
    ensures Encoding(i) + rest ==
              (if Prefixed(i) then [0x66] + (RexBytes(i) + Tail(i, rest)) else RexBytes(i) + Tail(i, rest))
  {
    hide Opcode, ImmBytes, RmBytes, OpBytes, NeedsRex, Rex;
  }

  // ----- When that is what was meant -----

  function Plain(o: Operand, bits: nat): Operand
  {
    match o
    case Mem(base, None, _, disp) => Mem(base, None, 0, disp)
    case Imm(v) => Imm(SeenImm(v, bits))
    case _ => o
  }

  // The instruction itself, with the scale of no index and the bits beyond the width left out.
  function Meant(i: Inst): Inst
  {
    Inst(i.op, Plain(i.a, i.bits), Plain(i.b, i.bits), i.bits)
  }

  // TEST of a memory operand comes out as XCHG; an index is lost on RSP and R12, and RSP is none;
  // MOVSX and MOVZX to 32 bits read AH for SPL, and so on, as they write no REX prefix for them.
  predicate Faithful(i: Inst)
  {
    && !(i.op.TEST? && InMemory(i.b))
    && (var o := RmOf(i); o.Mem? && o.index.Some? ==>
      o.index.value != RSP && (o.base % 8 == RSP ==> o.index.value == 12))
    && !(ByteSource(i.op) && i.b.Reg? && 4 <= i.b.r < 8 && i.a.Reg? && i.a.r < 8 && i.bits == 32)
  }

  lemma SeenIff(i: Inst)
    requires Accepted(i)
    ensures Seen(i) == Meant(i) <==> Faithful(i)
  {
    hide NeedsRex, ByteReg, SeenMem, SeenImm, Short;
    var o := RmOf(i);
    if o.Mem? { MemIff(o); }
    if ByteSource(i.op) { SourceIff(i); }
  }

  // What the processor makes of an address.
  lemma MemIff(o: Operand)
    requires o.Mem?
    ensures SeenMem(o).Mem?
    ensures SeenMem(o) == Plain(o, 8) <==>
              (o.index.Some? ==> o.index.value != RSP && (o.base % 8 == RSP ==> o.index.value == 12))
  {
  }

  // ... and of the source of MOVZX and MOVSX.
  lemma SourceIff(i: Inst)
    requires Accepted(i) && ByteSource(i.op)
    ensures var o := SeenRm(RmOf(i)); RmOf(i) == i.b && (!o.Reg? ==> ByteReg(o, NeedsRex(i)) == o)
    ensures i.b.Reg? ==>
              (ByteReg(i.b, NeedsRex(i)) == i.b <==> !(4 <= i.b.r < 8 && i.a.Reg? && i.a.r < 8 && i.bits == 32))
  {
  }

  // The theorem for one instruction: its bytes are read as what was meant if and only if it is
  // none of the three that go wrong.
  lemma InstRoundTrip(i: Inst, rest: seq<Byte>)
    requires Accepted(i)
    ensures DecodeOne(Encoding(i) + rest) == Some((Meant(i), rest)) <==> Faithful(i)
  {
    hide Encoding, DecodeOne, Seen, Meant, Faithful, Accepted;
    DecodeSeen(i, rest);
    SeenIff(i);
  }

  // ----- A whole list -----

  function EncodeAll(list: seq<Inst>): seq<Byte>
    requires forall k :: 0 <= k < |list| ==> Accepted(list[k])
  {
    if list == [] then [] else Encoding(list[0]) + EncodeAll(list[1..])
  }

  function MeantAll(list: seq<Inst>): (out: seq<Inst>)
    ensures |out| == |list| && forall k :: 0 <= k < |list| ==> out[k] == Meant(list[k])
  {
    seq(|list|, k requires 0 <= k < |list| => Meant(list[k]))
  }

  // Reads instructions until nothing is left.
  function DecodeAll(bs: seq<Byte>): Option<seq<Inst>>
    decreases |bs|
  {
    if bs == [] then Some([])
    else
      match DecodeOne(bs)
      case None => None
      case Some((i, rest)) =>
        if |rest| >= |bs| then None
        else
          match DecodeAll(rest)
          case None => None
          case Some(list) => Some([i] + list)
  }

  lemma EncodingNonempty(i: Inst)
    requires Accepted(i)
    ensures |Encoding(i)| > 0
  {
    hide Opcode, RmBytes, ImmBytes, Rex, NeedsRex;
  }

  // The theorem: what is written for any list of such instructions is read back as that list.
  lemma {:induction false} ListRoundTrip(list: seq<Inst>)
    requires forall k :: 0 <= k < |list| ==> Accepted(list[k]) && Faithful(list[k])
    ensures DecodeAll(EncodeAll(list)) == Some(MeantAll(list))
  {
    hide Encoding, DecodeOne, Meant, Faithful, Accepted;
    if list != [] {
      var bs, rest := EncodeAll(list), EncodeAll(list[1..]);
      ListRoundTrip(list[1..]);
      InstRoundTrip(list[0], rest);
      EncodingNonempty(list[0]);
      assert MeantAll(list) == [Meant(list[0])] + MeantAll(list[1..]);
    } else {
      assert MeantAll(list) == [];
    }
  }

  // ----- The emitter -----

  // The pieces in order are the encoding.
  lemma Joined(i: Inst, d0: seq<Byte>, d1: seq<Byte>, d2: seq<Byte>, d3: seq<Byte>, d4: seq<Byte>)
    requires Accepted(i)
    requires d1 == d0 + if Prefixed(i) then [0x66] else []
    requires d2 == d1 + RexBytes(i) && d3 == d2 + OpBytes(i)
    requires d4 == d3 + RmBytes(RxOf(i), RmOf(i), |ImmBytes(i)|) + ImmBytes(i)
    ensures d4 == d0 + Encoding(i)
  {
    hide Opcode, RmBytes, ImmBytes, Rex, NeedsRex, OpBytes;
  }

  class Coder {
    var data: seq<Byte>

    method Emit1(x: Byte)
      modifies this
      ensures data == old(data) + [x]
    {
      data := data + [x];
    }

    method Emit2(v: int)
      modifies this
      ensures data == old(data) + Le16(v)
    {
      data := data + Le16(v);
    }

    method Emit4(v: int)
      modifies this
      ensures data == old(data) + Le32(v)
    {
      data := data + Le32(v);
    }

    // RELOC4 for the four bytes emitted last.
    method Reloc4(ghost front: seq<Byte>, ghost v: int, change: int)
      requires data == front + Le32(v) && -0x8000_0000 <= v < 0x8000_0000
      modifies this
      ensures data == front + Le32(v + change)
    {
      Displacement(v);
      assert data[|data| - 4..] == Le32(v) && data[..|data| - 4] == front;
      data := data[..|data| - 4] + Le32(Signed32(data[|data| - 4..]) + change);
    }

    // emit_memory_operand
    method MemoryOperand(rx: Gpr, o: Operand)
      requires o.Reg? || InMemory(o)
      modifies this
      ensures data == old(data) + RmBytes(rx, o, 0)
    {
      hide ModRxRm, Le32;
      if o.Reg? {
        Emit1(ModRxRm(3, rx, o.r));
      } else if o.Mem? {
        var needsIndex := o.index.Some? || o.base % 8 == RSP;
        var mod := 2;
        if o.disp == 0 && o.base % 8 != RBP { mod := 0; } else if Short(o.disp) { mod := 1; }
        Emit1(ModRxRm(mod, rx, if needsIndex then RSP else o.base));
        if needsIndex {
          Emit1(ModRxRm(o.scale, if o.base % 8 == RSP then RSP else o.index.value, o.base));
        }
        if mod == 1 {
          Emit1(Le8(o.disp));
        } else if mod == 2 {
          Emit4(o.disp);
        }
      } else {
        Emit1(ModRxRm(0, rx, RBP));
        Emit4(o.disp);
      }
    }

    // inst2
    method Inst2(op: Op, a0: Operand, b0: Operand, bits: nat)
      requires Accepted(Inst(op, a0, b0, bits))
      modifies this
      ensures data == old(data) + Encoding(Inst(op, a0, b0, bits))
    {
      ghost var i := Inst(op, a0, b0, bits);
      hide Rex, RmBytes, Or1, Or2, Le8, Le16, Le32, Accepted, Fits, Table, Encoding, OpcodeFor, BaseOf, IndexOf, Short;
      Roles(i);
      var inst := Table(op);
      var a, b := a0, b0;
      var dir := b.Mem? || b.Global?;
      if dir || inst.op == 0x63 || inst.op == 0xAF || inst.ext == Def2 {
        a, b := b, a;
      }
      var shortImm := bits != 8 && b.Imm? && Short(b.imm) && inst.opI == 0x80;
      if bits == 16 && inst.ext != Def2 { Emit1(0x66); }
      ghost var d1 := data;
      var rx: Gpr := if b.Reg? then b.r else inst.rxI;
      EmitRex(rx, a, bits);
      ghost var d2 := data;
      EmitOpcode(op, b.Imm?, shortImm, bits, dir);
      ghost var front := data;
      MemoryOperand(rx, a);
      if b.Imm? { EmitImm(front, rx, a, b.imm, bits, shortImm); }
      Joined(i, old(data), d1, d2, front, data);
    }

    method EmitOpcode(op: Op, imm: bool, shortImm: bool, bits: nat, dir: bool)
      modifies this
      ensures data == old(data) + (if Table(op).ext != NoExt then [0x0F] else []) +
                [OpcodeFor(op, imm, shortImm, bits != 8, dir)]
    {
      hide Or1, Or2, Table;
      var inst := Table(op);
      var sz := bits != 8;
      var dirFlag := dir != (inst.op % 2 == 1);
      if inst.ext != NoExt {
        if op != XADD { sz := false; }
        Emit1(0x0F);
      }
      var opcode := if imm then inst.opI else inst.op;
      if imm && shortImm { opcode := Or2(opcode); }
      if sz { opcode := Or1(opcode); }
      if dirFlag { opcode := Or2(opcode); }
      Emit1(opcode);
    }

    method EmitRex(rx: Gpr, a: Operand, bits: nat)
      requires a.Reg? || InMemory(a)
      modifies this
      ensures var base, index := BaseOf(a), IndexOf(a);
              data == old(data)
                      + if base >= 8 || rx >= 8 || index >= 8 || bits == 64 ||
                        (bits == 8 && (base >= 4 || rx >= 4 || index >= 4))
                        then [Rex(bits == 64, rx, base, index)] else []
    {
      if a.Reg? {
        if a.r >= 8 || rx >= 8 || bits == 64 {
          Emit1(Rex(bits == 64, rx, a.r, 0));
        } else if bits == 8 && (a.r >= 4 || rx >= 4) {
          Emit1(Rex(false, rx, a.r, 0));
        }
      } else if a.Mem? {
        var rexIndex: Gpr := if a.index.Some? then a.index.value else 0;
        if a.base >= 8 || rx >= 8 || rexIndex >= 8 || bits == 64 {
          Emit1(Rex(bits == 64, rx, a.base, rexIndex));
        } else if bits == 8 && (a.base >= 4 || rx >= 4 || rexIndex >= 4) {
          Emit1(Rex(false, rx, a.base, 0));
        }
      } else {
        if rx >= 8 || bits == 64 {
          Emit1(Rex(bits == 64, rx, RBP, 0));
        } else if bits == 8 {
          Emit1(Rex(false, rx, RBP, 0));
        }
      }
    }

    // The immediate. It moves the end of the instruction away from a displacement that is
    // measured from there.
    method EmitImm(ghost front: seq<Byte>, rx: Gpr, a: Operand, imm: int, bits: nat, shortImm: bool)
      requires (a.Reg? || InMemory(a)) && Fits(a) && data == front + RmBytes(rx, a, 0)
      modifies this
      ensures var bytes := if bits <= 8 || shortImm then [Le8(imm)] else if bits <= 16 then Le16(imm) else Le32(imm);
              data == front + RmBytes(rx, a, |bytes|) + bytes
    {
      hide ModRxRm, Le32, Signed32, Le8, Le16;
      if bits <= 8 || shortImm {
        if a.Global? { Reloc4(front + [ModRxRm(0, rx, RBP)], a.disp, -1); }
        Emit1(Le8(imm));
      } else if bits <= 16 {
        if a.Global? { Reloc4(front + [ModRxRm(0, rx, RBP)], a.disp, -2); }
        Emit2(imm);
      } else {
        if a.Global? { Reloc4(front + [ModRxRm(0, rx, RBP)], a.disp, -4); }
        Emit4(imm);
      }
    }
  }
}
