// src/tb/objects/coff.c: the object file of a module, from the file header to the string table.

module Coff {
  import opened Bytes
  import opened Predecessors

  // What is put in at an address: the address of a symbol with 64 or 32 bits, also without the base
  // of the image, the distance to it from some bytes behind the field, the number of its section, or
  // its place in there.
  datatype PatchKind =
    | Address64
    | Address32
    | Address32NoBase
    | Distance(behind: nat)
    | SectionNumber
    | PlaceInSection

  datatype Reloc = Reloc(address: int, symbol: int, kind: PatchKind)

  // A function with its code, an external, or a global with its data.
  datatype Entity =
    | Code(pos: int, exported: bool)
    | External
    | Data(pos: int, exported: bool, threadLocal: bool)

  datatype Sym = Sym(name: seq<Byte>, entity: Entity)

  datatype Target = Amd64 | Arm64

  // A section. `counted` says that the writer puts their number before relocations that are too
  // many for the header, as it does for .pdata only.
  datatype Part = Part(name: seq<Byte>, flags: int, data: seq<Byte>, relocs: seq<Reloc>, counted: bool)

  // The symbols are in the order of their ids. `slack` is room at the end of the file for the names
  // of functions without code.
  datatype Unit = Unit(target: Target, time: int, parts: seq<Part>, symbols: seq<Sym>, slack: seq<Byte>)

  const MANY: int := 0xFFFF
  const OVERFLOW: int := 0x0100_0000      // IMAGE_SCN_LNK_NRELOC_OVFL
  const EXTERNAL: Byte := 2               // IMAGE_SYM_CLASS_EXTERNAL
  const STATIC: Byte := 3                 // IMAGE_SYM_CLASS_STATIC
  const TEXT: nat := 1                    // The numbers of the sections.
  const DATA: nat := 3
  const TLS: nat := 6

  predicate Overflows(p: Part)
  {
    |p.relocs| >= MANY
  }

  function NumReloc(p: Part): nat
  {
    if Overflows(p) then MANY else |p.relocs|
  }

  predicate LongName(s: Sym)
  {
    |s.name| >= 8
  }

  // Where names are emitted, each must be shorter than UINT16_MAX.
  ghost predicate NamesFit(u: Unit, n: nat)
    requires n <= |u.symbols|
  {
    forall k :: 0 <= k < n ==> |u.symbols[k].name| < MANY
  }

  // ----- The layout -----

  // What the layout leaves for the relocations of a section.
  function RelocRoom(p: Part): nat
  {
    10 * |p.relocs| + if Overflows(p) then 10 else 0
  }

  function RawPos(u: Unit, i: nat): nat
    requires i <= |u.parts|
  {
    if i == 0 then 20 + 40 * |u.parts| else RawPos(u, i - 1) + |u.parts[i - 1].data|
  }

  function RelPos(u: Unit, i: nat): nat
    requires i <= |u.parts|
  {
    if i == 0 then RawPos(u, |u.parts|) else RelPos(u, i - 1) + RelocRoom(u.parts[i - 1])
  }

  function SymPos(u: Unit): nat
  {
    RelPos(u, |u.parts|)
  }

  function SymCount(u: Unit): nat
  {
    2 * |u.parts| + |u.symbols|
  }

  function StringPos(u: Unit): nat
  {
    SymPos(u) + 18 * SymCount(u)
  }

  // string_table_mark before symbol k.
  function MarkAt(u: Unit, k: nat): nat
    requires k <= |u.symbols|
  {
    if k == 0 then 4
    else MarkAt(u, k - 1) + if LongName(u.symbols[k - 1]) then |u.symbols[k - 1].name| + 1 else 0
  }

  // ----- Numbers in the file -----

  // IMAGE_REL_AMD64_*
  function RelocType(k: PatchKind): nat
  {
    match k
    case Address64 => 1
    case Address32 => 2
    case Address32NoBase => 3
    case Distance(behind) => 4 + behind
    case SectionNumber => 10
    case PlaceInSection => 11
  }

  function MachineOf(t: Target): nat
  {
    match t
    case Amd64 => 0x8664
    case Arm64 => 0xAA64
  }

  function SymValue(e: Entity): int
  {
    match e
    case Code(pos, _) => pos
    case External => 0
    case Data(pos, _, _) => pos
  }

  function SymSection(e: Entity): nat
  {
    match e
    case Code(_, _) => TEXT
    case External => 0
    case Data(_, _, threadLocal) => if threadLocal then TLS else DATA
  }

  function SymClass(e: Entity): Byte
  {
    match e
    case Code(_, exported) => if exported then EXTERNAL else STATIC
    case External => EXTERNAL
    case Data(_, exported, _) => if exported then EXTERNAL else STATIC
  }

  // ----- The bytes -----

  function Zeros(n: nat): (z: seq<Byte>)
    ensures |z| == n && forall i :: 0 <= i < n ==> z[i] == 0
  {
    seq(n, _ => 0)
  }

  function Padded(name: seq<Byte>): (bs: seq<Byte>)
    requires |name| <= 8
    ensures |bs| == 8
  {
    name + Zeros(8 - |name|)
  }

  function FileHeader(u: Unit): (bs: seq<Byte>)
    ensures |bs| == 20
  {
    Le16(MachineOf(u.target)) + Le16(|u.parts|) + Le32(u.time) + Le32(SymPos(u)) + Le32(SymCount(u)) + Le16(0) + Le16(4)
  }

  function SectionHeader(p: Part, raw: nat, rel: nat): (bs: seq<Byte>)
    requires |p.name| <= 8
    ensures |bs| == 40
  {
    Padded(p.name) + Le32(0) + Le32(0) + Le32(|p.data|) + Le32(raw) + Le32(rel) + Le32(0) + Le16(NumReloc(p)) + Le16(0)
    + Le32(p.flags + if Overflows(p) then OVERFLOW else 0)
  }

  function RelocRecord(address: int, symbol: int, kind: int): (bs: seq<Byte>)
    ensures |bs| == 10
  {
    Le32(address) + Le32(symbol) + Le16(kind)
  }

  function RelocBytes(r: Reloc): (bs: seq<Byte>)
    ensures |bs| == 10
  {
    RelocRecord(r.address, r.symbol, RelocType(r.kind))
  }

  // The first k relocations.
  function RelocList(rs: seq<Reloc>, k: nat): (bs: seq<Byte>)
    requires k <= |rs|
    ensures |bs| == 10 * k
  {
    if k == 0 then [] else RelocList(rs, k - 1) + RelocBytes(rs[k - 1])
  }

  // The relocations of a section as they are written.
  function PartRelocs(p: Part): (bs: seq<Byte>)
    ensures |bs| == 10 * |p.relocs| + if p.counted && Overflows(p) then 10 else 0
  {
    (if p.counted && Overflows(p) then RelocRecord(|p.relocs|, 0, 0) else []) + RelocList(p.relocs, |p.relocs|)
  }

  // The symbol of a section and its auxiliary record.
  function SectionSym(p: Part, number: nat): (bs: seq<Byte>)
    requires |p.name| <= 8
    ensures |bs| == 36
  {
    Padded(p.name) + Le32(0) + Le16(number) + Le16(0) + [STATIC, 1]
    + (Le32(|p.data|) + Le16(NumReloc(p)) + Le16(0) + Le32(0) + Le16(number) + [0, 0] + Le16(0))
  }

  function NameField(name: seq<Byte>, mark: nat): (bs: seq<Byte>)
    ensures |bs| == 8
  {
    if |name| >= 8 then Le32(0) + Le32(mark) else Padded(name)
  }

  function SymBytes(s: Sym, mark: nat): (bs: seq<Byte>)
    ensures |bs| == 18
  {
    NameField(s.name, mark) + Le32(SymValue(s.entity)) + Le16(SymSection(s.entity)) + Le16(0) + [SymClass(s.entity), 0]
  }

  // ----- Part after part -----

  ghost predicate Named(u: Unit)
  {
    forall i :: 0 <= i < |u.parts| ==> |u.parts[i].name| <= 8
  }

  ghost function HeadersTo(u: Unit, i: nat): (bs: seq<Byte>)
    requires i <= |u.parts| && Named(u)
    ensures |bs| == 40 * i
  {
    if i == 0 then []
    else HeadersTo(u, i - 1) + SectionHeader(u.parts[i - 1], RawPos(u, i - 1), RelPos(u, i - 1))
  }

  ghost function DataTo(u: Unit, i: nat): (bs: seq<Byte>)
    requires i <= |u.parts|
    ensures RawPos(u, 0) + |bs| == RawPos(u, i)
  {
    if i == 0 then [] else DataTo(u, i - 1) + u.parts[i - 1].data
  }

  ghost function RelocsTo(u: Unit, i: nat): seq<Byte>
    requires i <= |u.parts|
  {
    if i == 0 then [] else RelocsTo(u, i - 1) + PartRelocs(u.parts[i - 1])
  }

  ghost function SectionSymsTo(u: Unit, i: nat): (bs: seq<Byte>)
    requires i <= |u.parts| && Named(u)
    ensures |bs| == 36 * i
  {
    if i == 0 then [] else SectionSymsTo(u, i - 1) + SectionSym(u.parts[i - 1], i)
  }

  ghost function SymsTo(u: Unit, k: nat): (bs: seq<Byte>)
    requires k <= |u.symbols|
    ensures |bs| == 18 * k
  {
    if k == 0 then [] else SymsTo(u, k - 1) + SymBytes(u.symbols[k - 1], MarkAt(u, k - 1))
  }

  ghost function NamesTo(u: Unit, k: nat): (bs: seq<Byte>)
    requires k <= |u.symbols|
    ensures 4 + |bs| == MarkAt(u, k)
  {
    if k == 0 then []
    else NamesTo(u, k - 1) + if LongName(u.symbols[k - 1]) then u.symbols[k - 1].name + [0] else []
  }

  // The file up to the relocations, and the rest.
  ghost function Front(u: Unit): (bs: seq<Byte>)
    requires Named(u)
    ensures |bs| == RelPos(u, 0)
  {
    FileHeader(u) + HeadersTo(u, |u.parts|) + DataTo(u, |u.parts|)
  }

  ghost function Back(u: Unit): (bs: seq<Byte>)
    requires Named(u)
    ensures |bs| == 18 * SymCount(u) + MarkAt(u, |u.symbols|) + |u.slack|
  {
    SectionSymsTo(u, |u.parts|) + SymsTo(u, |u.symbols|) + Le32(MarkAt(u, |u.symbols|)) + NamesTo(u, |u.symbols|) +
      u.slack
  }

  ghost function Image(u: Unit): seq<Byte>
    requires Named(u)
  {
    Front(u) + RelocsTo(u, |u.parts|) + Back(u)
  }

  // ----- When the writer gets through -----

  // The relocations of the first i sections fill the room left for them.
  ghost predicate FilledTo(u: Unit, i: nat)
    requires i <= |u.parts|
  {
    forall j :: 0 <= j < i ==> !Overflows(u.parts[j]) || u.parts[j].counted
  }

  lemma {:induction false} RelocsFill(u: Unit, i: nat)
    requires i <= |u.parts|
    ensures RelPos(u, 0) + |RelocsTo(u, i)| <= RelPos(u, i)
    ensures RelPos(u, 0) + |RelocsTo(u, i)| == RelPos(u, i) <==> FilledTo(u, i)
  {
    hide RawPos, PartRelocs;
    if i > 0 { RelocsFill(u, i - 1); }
  }

  // ----- The writer -----

  // The positions of raw data and relocations, and of the symbol table.
  method LayOut(u: Unit) returns (raw: array<nat>, rel: array<nat>, symbolTable: nat)
    ensures fresh(raw) && fresh(rel) && raw.Length == rel.Length == |u.parts| && symbolTable == SymPos(u)
    ensures forall i: nat :: i < |u.parts| ==> raw[i] == RawPos(u, i) && rel[i] == RelPos(u, i)
  {
    hide RelocRoom, RawPos, RelPos;
    raw, rel := new nat[|u.parts|], new nat[|u.parts|];
    var counter: nat := 20 + 40 * |u.parts|;
    PosStart(u);
    var i: nat := 0;
    while i < |u.parts|
      invariant i <= |u.parts| && counter == RawPos(u, i)
      invariant forall j: nat :: j < i ==> raw[j] == RawPos(u, j)
    {
      PosStep(u, i);
      raw[i] := counter;
      counter := counter + |u.parts[i].data|;
      i := i + 1;
    }
    i := 0;
    while i < |u.parts|
      invariant i <= |u.parts| && counter == RelPos(u, i)
      invariant forall j: nat :: j < |u.parts| ==> raw[j] == RawPos(u, j)
      invariant forall j: nat :: j < i ==> rel[j] == RelPos(u, j)
    {
      PosStep(u, i);
      rel[i] := counter;
      counter := counter + RelocRoom(u.parts[i]);
      i := i + 1;
    }
    symbolTable := counter;
  }

  lemma PosStart(u: Unit)
    ensures RawPos(u, 0) == 20 + 40 * |u.parts| && RelPos(u, 0) == RawPos(u, |u.parts|)
  {
  }

  lemma PosStep(u: Unit, i: nat)
    requires i < |u.parts|
    ensures RawPos(u, i + 1) == RawPos(u, i) + |u.parts[i].data|
    ensures RelPos(u, i + 1) == RelPos(u, i) + RelocRoom(u.parts[i])
  {
  }

  class Exporter {
    var output: seq<Byte>           // write_pos is its length
    var stringTable: seq<seq<Byte>>
    var mark: nat

    constructor ()
      ensures output == [] && stringTable == [] && mark == 4
    {
      output, stringTable, mark := [], [], 4;
    }

    method WriteData(bytes: seq<Byte>)
      modifies `output
      ensures output == old(output) + bytes
    {
      output := output + bytes;
    }

    method WriteHeaders(u: Unit, raw: array<nat>, rel: array<nat>, symbolTable: nat)
      requires Named(u) && output == [] && raw.Length == rel.Length == |u.parts| && symbolTable == SymPos(u)
      requires forall i: nat :: i < |u.parts| ==> raw[i] == RawPos(u, i) && rel[i] == RelPos(u, i)
      modifies `output
      ensures output == FileHeader(u) + HeadersTo(u, |u.parts|)
    {
      hide RawPos, RelPos, SectionHeader, SymPos;
      WriteData(FileHeader(u));
      var i: nat := 0;
      while i < |u.parts|
        invariant i <= |u.parts| && output == FileHeader(u) + HeadersTo(u, i)
      {
        ghost var before := output;
        WriteData(SectionHeader(u.parts[i], raw[i], rel[i]));
        Joined(FileHeader(u), HeadersTo(u, i), SectionHeader(u.parts[i], raw[i], rel[i]));
        i := i + 1;
      }
    }

    method WriteSections(u: Unit, raw: array<nat>)
      requires Named(u) && output == FileHeader(u) + HeadersTo(u, |u.parts|) && raw.Length == |u.parts|
      requires forall i: nat :: i < |u.parts| ==> raw[i] == RawPos(u, i)
      modifies `output
      ensures output == Front(u)
    {
      ghost var start := output;
      assert start + DataTo(u, 0) == start;
      var i: nat := 0;
      while i < |u.parts|
        invariant i <= |u.parts| && output == start + DataTo(u, i)
      {
        assert |output| == raw[i];
        WriteData(u.parts[i].data);
        Joined(start, DataTo(u, i), u.parts[i].data);
        i := i + 1;
      }
    }

    // Whether every list of relocations starts where the headers say, and the symbol table too.
    method WriteRelocs(u: Unit, rel: array<nat>, symbolTable: nat) returns (ok: bool)
      requires Named(u) && output == Front(u) && rel.Length == |u.parts| && symbolTable == SymPos(u)
      requires forall i: nat :: i < |u.parts| ==> rel[i] == RelPos(u, i)
      modifies `output
      ensures ok <==> FilledTo(u, |u.parts|)
      ensures ok ==> output == Front(u) + RelocsTo(u, |u.parts|)
    {
      hide RelPos, PartRelocs, Front;
      ghost var start := output;
      assert start + RelocsTo(u, 0) == start;
      var i: nat := 0;
      while i < |u.parts|
        invariant i <= |u.parts| && output == start + RelocsTo(u, i)
      {
        RelocsFill(u, i);
        if |output| != rel[i] {
          return false;
        }
        WriteData(PartRelocs(u.parts[i]));
        Joined(start, RelocsTo(u, i), PartRelocs(u.parts[i]));
        i := i + 1;
      }
      RelocsFill(u, i);
      ok := |output| == symbolTable;
    }

    method WriteSectionSyms(u: Unit)
      requires Named(u)
      modifies `output
      ensures output == old(output) + SectionSymsTo(u, |u.parts|)
    {
      hide SectionSym;
      ghost var start := output;
      assert start + SectionSymsTo(u, 0) == start;
      var i: nat := 0;
      while i < |u.parts|
        invariant i <= |u.parts| && output == start + SectionSymsTo(u, i)
      {
        WriteData(SectionSym(u.parts[i], i + 1));
        Joined(start, SectionSymsTo(u, i), SectionSym(u.parts[i], i + 1));
        i := i + 1;
      }
    }

    // The symbols; the long names are put by for the string table.
    method WriteSyms(u: Unit) returns (ok: bool)
      requires stringTable == [] && mark == 4
      modifies this
      ensures ok <==> NamesFit(u, |u.symbols|)
      ensures ok ==> output == old(output) + SymsTo(u, |u.symbols|)
      ensures ok ==> mark == MarkAt(u, |u.symbols|) && Strings(stringTable, |stringTable|) == NamesTo(u, |u.symbols|)
    {
      hide SymBytes, Strings;
      ghost var start := output;
      assert start + SymsTo(u, 0) == start;
      StringsMore([], []);
      var k: nat := 0;
      while k < |u.symbols|
        invariant k <= |u.symbols| && output == start + SymsTo(u, k)
        invariant mark == MarkAt(u, k) && Strings(stringTable, |stringTable|) == NamesTo(u, k) && NamesFit(u, k)
      {
        var s := u.symbols[k];
        if |s.name| >= MANY {
          return false;
        }
        WriteData(SymBytes(s, mark));
        Joined(start, SymsTo(u, k), SymBytes(s, mark));
        if LongName(s) {
          StringsMore(stringTable, s.name);
          stringTable := stringTable + [s.name];
          mark := mark + |s.name| + 1;
        }
        k := k + 1;
      }
      return true;
    }

    method WriteStrings()
      modifies `output
      ensures output == old(output) + Le32(mark) + Strings(stringTable, |stringTable|)
    {
      ghost var start := output + Le32(mark);
      WriteData(Le32(mark));
      assert start + Strings(stringTable, 0) == start;
      var i: nat := 0;
      while i < |stringTable|
        invariant i <= |stringTable| && output == start + Strings(stringTable, i)
      {
        WriteData(stringTable[i] + [0]);
        Joined(start, Strings(stringTable, i), stringTable[i] + [0]);
        i := i + 1;
      }
    }
  }

  // The first i names, each with a zero behind it.
  ghost function Strings(names: seq<seq<Byte>>, i: nat): seq<Byte>
    requires i <= |names|
  {
    if i == 0 then [] else Strings(names, i - 1) + (names[i - 1] + [0])
  }

  lemma StringsStep(names: seq<seq<Byte>>, i: nat)
    requires i < |names|
    ensures Strings(names, i + 1) == Strings(names, i) + (names[i] + [0]) && Strings(names, 0) == []
  {
  }

  lemma {:induction false} StringsPrefix(names: seq<seq<Byte>>, name: seq<Byte>, i: nat)
    requires i <= |names|
    ensures Strings(names + [name], i) == Strings(names, i)
  {
    hide Strings;
    StringsStep(names + [name], 0);
    if i == 0 {
      StringsNone(names);
    } else {
      StringsPrefix(names, name, i - 1);
      StringsStep(names + [name], i - 1);
      StringsStep(names, i - 1);
    }
  }

  lemma StringsNone(names: seq<seq<Byte>>)
    ensures Strings(names, 0) == []
  {
  }

  lemma StringsMore(names: seq<seq<Byte>>, name: seq<Byte>)
    ensures Strings(names + [name], |names| + 1) == Strings(names, |names|) + (name + [0])
    ensures Strings([], 0) == []
  {
    hide Strings;
    StringsNone([]);
    StringsPrefix(names, name, |names|);
    StringsStep(names + [name], |names|);
  }

  lemma Joined(a: seq<Byte>, b: seq<Byte>, c: seq<Byte>)
    ensures a + b + c == a + (b + c)
  {
  }

  // The asserts of the writer hold.
  ghost predicate Writes(u: Unit)
  {
    FilledTo(u, |u.parts|) && NamesFit(u, |u.symbols|)
  }

  // tb_coff_write_output. None is an assert that fails: relocations are not where they should be,
  // or a name is too long.
  method WriteOutput(u: Unit) returns (r: Option<seq<Byte>>)
    requires Named(u)
    ensures r == if Writes(u) then Some(Image(u)) else None
  {
    hide FilledTo, Front, RelocsTo, SectionSymsTo, SymsTo, NamesTo, FileHeader, HeadersTo, RawPos, RelPos, SymPos;
    var raw, rel, symbolTable := LayOut(u);
    var e := new Exporter();
    e.WriteHeaders(u, raw, rel, symbolTable);
    e.WriteSections(u, raw);
    var ok := e.WriteRelocs(u, rel, symbolTable);
    if !ok {
      return None;
    }
    e.WriteSectionSyms(u);
    ok := e.WriteSyms(u);
    if !ok {
      return None;
    }
    e.WriteStrings();
    e.WriteData(u.slack);
    ImageIs(u);
    return Some(e.output);
  }

  lemma ImageIs(u: Unit)
    requires Named(u)
    ensures Image(u) == Front(u) + RelocsTo(u, |u.parts|) + SectionSymsTo(u, |u.parts|) + SymsTo(u, |u.symbols|)
                        + Le32(MarkAt(u, |u.symbols|)) + NamesTo(u, |u.symbols|) + u.slack
  {
    hide Front, RelocsTo, SectionSymsTo, SymsTo, NamesTo, MarkAt, Le32;
    var m := |u.symbols|;
    FiveJoined(Front(u) + RelocsTo(u, |u.parts|), SectionSymsTo(u, |u.parts|), SymsTo(u, m), Le32(MarkAt(u, m)),
      NamesTo(u, m),
               u.slack);
  }

  lemma FiveJoined(x: seq<Byte>, a: seq<Byte>, b: seq<Byte>, c: seq<Byte>, d: seq<Byte>, e: seq<Byte>)
    ensures x + (a + b + c + d + e) == x + a + b + c + d + e
  {
    Joined(x, a + b + c + d, e);
    Joined(x, a + b + c, d);
    Joined(x, a + b, c);
    Joined(x, a, b);
  }
}
