// The numbers that stand in a written object file, field by field, by sections 3.3, 4, 5.2, 5.2.1,
// 5.4 and 5.5.5 of the Microsoft PE and COFF specification. They come from
// src/tb/objects/coff.c:43-66, 103-262 and 395-672.

module CoffFields {
  import opened Bytes
  import opened Predecessors
  import opened Coff
  import opened CoffParse
  import opened CoffRoundTrip

  // ----- Reading a field -----

  ghost predicate Is16(file: seq<Byte>, pos: nat, v: int)
  {
    pos + 2 <= |file| && Get16(file, pos) == v
  }

  ghost predicate Is32(file: seq<Byte>, pos: nat, v: int)
  {
    pos + 4 <= |file| && Get32(file, pos) == v
  }

  ghost predicate Is8(file: seq<Byte>, pos: nat, v: int)
  {
    pos < |file| && file[pos] == v
  }

  // The name, and zeros up to eight bytes.
  ghost predicate IsName(file: seq<Byte>, pos: nat, name: seq<Byte>)
  {
    && pos + 8 <= |file| && |name| <= 8 && file[pos..pos + |name|] == name
    && forall i :: pos + |name| <= i < pos + 8 ==> file[i] == 0
  }

  // ----- What is to stand there -----

  ghost predicate FileHeaderSays(u: Unit, file: seq<Byte>)
  {
    && Is16(file, 0, if u.target == Amd64 then 0x8664 else 0xAA64) && Is16(file, 2, |u.parts|) && Is32(file, 4, u.time)
    && Is32(file, 8, SymPos(u)) && Is32(file, 12, 2 * |u.parts| + |u.symbols|) && Is16(file, 16, 0) && Is16(file, 18, 4)
  }

  function Cut(n: nat): nat
  {
    if n < 0xFFFF then n else 0xFFFF
  }

  ghost predicate SectionHeaderSays(u: Unit, file: seq<Byte>, i: nat)
    requires i < |u.parts|
  {
    var pos, p := 20 + 40 * i, u.parts[i];
    && IsName(file, pos, p.name) && Is32(file, pos + 8, 0) && Is32(file, pos + 12, 0) && Is32(file, pos + 16, |p.data|)
    && Is32(file, pos + 20, RawPos(u, i)) && Is32(file, pos + 24, RelPos(u, i)) && Is32(file, pos + 28, 0)
    && Is16(file, pos + 32, Cut(|p.relocs|)) && Is16(file, pos + 34, 0)
    && Is32(file, pos + 36, if |p.relocs| < 0xFFFF then p.flags else p.flags + 0x0100_0000)
  }

  // The symbol of a section, its number, and what the record behind it says of the section.
  ghost predicate SectionSymSays(u: Unit, file: seq<Byte>, i: nat)
    requires i < |u.parts|
  {
    var pos, p := SymPos(u) + 36 * i, u.parts[i];
    && IsName(file, pos, p.name) && Is32(file, pos + 8, 0) && Is16(file, pos + 12, i + 1) && Is16(file, pos + 14, 0)
    && Is8(file, pos + 16, 3) && Is8(file, pos + 17, 1)
    && Is32(file, pos + 18, |p.data|) && Is16(file, pos + 22, Cut(|p.relocs|)) && Is16(file, pos + 24, 0)
    && Is32(file, pos + 26, 0) && Is16(file, pos + 30, i + 1) && Is8(file, pos + 32, 0) && Is8(file, pos + 33, 0)
    && Is16(file, pos + 34, 0)
  }

  // Where the code or data of a symbol is. The first section has the code, the third the data and
  // the sixth what is local to a thread; other files have what is external.
  ghost predicate EntitySays(file: seq<Byte>, pos: nat, e: Entity)
  {
    match e
    case Code(at, exported) =>
      Is32(file, pos + 8, at) && Is16(file, pos + 12, 1) && Is8(file, pos + 16, if exported then 2 else 3)
    case External =>
      Is32(file, pos + 8, 0) && Is16(file, pos + 12, 0) && Is8(file, pos + 16, 2)
    case Data(at, exported, threadLocal) =>
      && Is32(file, pos + 8, at) && Is16(file, pos + 12, if threadLocal then 6 else 3)
      && Is8(file, pos + 16, if exported then 2 else 3)
  }

  // A name of eight bytes or more is in the string table.
  ghost predicate SymSays(u: Unit, file: seq<Byte>, k: nat)
    requires k < |u.symbols|
  {
    var pos, s := SymPos(u) + 36 * |u.parts| + 18 * k, u.symbols[k];
    && EntitySays(file, pos, s.entity) && Is16(file, pos + 14, 0) && Is8(file, pos + 17, 0)
    && if |s.name| < 8 then IsName(file, pos, s.name)
       else Is32(file, pos, 0) && Is32(file, pos + 4, MarkAt(u, k)) &&
            At(file, StringPos(u) + MarkAt(u, k), s.name + [0])
  }

  // Relocation j of section i; the number of relocations stands before them where it is put there.
  ghost predicate RelocSays(u: Unit, file: seq<Byte>, i: nat, j: nat)
    requires i < |u.parts| && j < |u.parts[i].relocs|
  {
    var p, r := u.parts[i], u.parts[i].relocs[j];
    var pos := RelPos(u, i) + 10 * j + if |p.relocs| < 0xFFFF then 0 else 10;
    && Is32(file, pos, r.address) && Is32(file, pos + 4, r.symbol)
    && Is16(file, pos + 8,
            match r.kind
            case Address64 => 0x0001
            case Address32 => 0x0002
            case Address32NoBase => 0x0003
            case Distance(behind) => 0x0004 + behind
            case SectionNumber => 0x000A
            case PlaceInSection => 0x000B)
  }

  ghost predicate CountSays(u: Unit, file: seq<Byte>, i: nat)
    requires i < |u.parts|
  {
    |u.parts[i].relocs| >= 0xFFFF ==>
      && Is32(file, RelPos(u, i), |u.parts[i].relocs|) && Is32(file, RelPos(u, i) + 4, 0)
      && Is16(file, RelPos(u, i) + 8, 0)
  }

  // ----- It does -----

  lemma Byte8(file: seq<Byte>, pos: nat, bs: seq<Byte>, i: nat)
    requires At(file, pos, bs) && i < |bs|
    ensures Is8(file, pos + i, bs[i])
  {
    ByteAt(file, pos, bs, i);
  }

  lemma PaddedSays(file: seq<Byte>, pos: nat, name: seq<Byte>)
    requires |name| <= 8 && At(file, pos, Padded(name))
    ensures IsName(file, pos, name)
  {
    AtJoin(file, pos, name, Zeros(8 - |name|));
    forall i | pos + |name| <= i < pos + 8 ensures file[i] == 0 {
      assert file[i] == file[pos..pos + 8][i - pos];
    }
  }

  lemma NameSays(file: seq<Byte>, pos: nat, bs: seq<Byte>, name: seq<Byte>)
    requires At(file, pos, bs) && |bs| >= 8 && |name| <= 8 && bs[0..8] == Padded(name)
    ensures IsName(file, pos, name)
  {
    HeadAt(file, pos, bs, 8);
    PaddedSays(file, pos, name);
  }

  lemma FileSlicesAll(u: Unit)
    ensures var h := FileHeader(u);
            && h[0..2] == Le16(MachineOf(u.target)) && h[2..4] == Le16(|u.parts|) && h[4..8] == Le32(u.time)
            && h[8..12] == Le32(SymPos(u)) && h[12..16] == Le32(SymCount(u)) && h[16..18] == Le16(0)
            && h[18..20] == Le16(4)
  {
    hide Le32, Le16, SymPos, MachineOf, SymCount;
  }

  lemma FileHeaderStands(u: Unit)
    requires UnitOk(u) && Named(u) && FilledTo(u, |u.parts|) && 0 <= u.time < TWO32
    ensures FileHeaderSays(u, Image(u))
  {
    hide At, FileHeader, Le32, Le16, Get32, Get16, SymPos, Image, FilledTo, Placed, MarkAt;
    var file, h := Image(u), FileHeader(u);
    ImagePlaced(u);
    StartsWithHeader(u, file);
    FileSlicesAll(u);
    Field16(file, 0, h, 0, MachineOf(u.target));
    Field16(file, 0, h, 2, |u.parts|);
    Field32(file, 0, h, 4, u.time);
    Field32(file, 0, h, 8, SymPos(u));
    Field32(file, 0, h, 12, SymCount(u));
    Field16(file, 0, h, 16, 0);
    Field16(file, 0, h, 18, 4);
  }

  lemma HeaderSlicesAll(p: Part, raw: nat, rel: nat)
    requires |p.name| <= 8
    ensures var h := SectionHeader(p, raw, rel);
            && h[0..8] == Padded(p.name) && h[8..12] == Le32(0) && h[12..16] == Le32(0) && h[16..20] == Le32(|p.data|)
            && h[20..24] == Le32(raw) && h[24..28] == Le32(rel) && h[28..32] == Le32(0)
            && h[32..34] == Le16(NumReloc(p)) && h[34..36] == Le16(0)
            && h[36..40] == Le32(p.flags + if Overflows(p) then OVERFLOW else 0)
  {
    hide Le32, Le16, Padded;
  }

  lemma SectionHeaderStands(u: Unit, i: nat)
    requires UnitOk(u) && Named(u) && FilledTo(u, |u.parts|) && i < |u.parts|
    ensures SectionHeaderSays(u, Image(u), i)
  {
    hide At, SectionHeader, Le32, Le16, Get32, Get16, RawPos, RelPos, Image, FilledTo, MarkAt, HeadersTo, DataTo,
         RelocsTo, SectionSymsTo, SymsTo, NamesTo, FileHeader, Padded, IsName;
    var file, p, pos := Image(u), u.parts[i], 20 + 40 * i;
    var h := SectionHeader(p, RawPos(u, i), RelPos(u, i));
    ImagePlaced(u);
    HeaderAt(file, 20, u, |u.parts|, i);
    PosBelow(u, i);
    HeaderSlicesAll(p, RawPos(u, i), RelPos(u, i));
    NameSays(file, pos, h, p.name);
    Field32(file, pos, h, 8, 0);
    Field32(file, pos, h, 12, 0);
    Field32(file, pos, h, 16, |p.data|);
    Field32(file, pos, h, 20, RawPos(u, i));
    Field32(file, pos, h, 24, RelPos(u, i));
    Field32(file, pos, h, 28, 0);
    Field16(file, pos, h, 32, NumReloc(p));
    Field16(file, pos, h, 34, 0);
    Field32(file, pos, h, 36, p.flags + if Overflows(p) then OVERFLOW else 0);
  }

  lemma SectionSymSlicesAll(p: Part, number: nat)
    requires |p.name| <= 8
    ensures var b := SectionSym(p, number);
            && b[0..8] == Padded(p.name) && b[8..12] == Le32(0) && b[12..14] == Le16(number) && b[14..16] == Le16(0)
            && b[16] == 3 && b[17] == 1 && b[18..22] == Le32(|p.data|) && b[22..24] == Le16(NumReloc(p))
            && b[24..26] == Le16(0) && b[26..30] == Le32(0) && b[30..32] == Le16(number) && b[32] == 0 && b[33] == 0
            && b[34..36] == Le16(0)
  {
    hide Le32, Le16, Padded;
  }

  lemma SectionSymStands(u: Unit, i: nat)
    requires UnitOk(u) && Named(u) && FilledTo(u, |u.parts|) && i < |u.parts|
    ensures SectionSymSays(u, Image(u), i)
  {
    hide At, SectionSym, Le32, Le16, Get32, Get16, RawPos, RelPos, SymPos, Image, FilledTo, MarkAt, HeadersTo, DataTo,
         RelocsTo, SectionSymsTo, SymsTo, NamesTo, FileHeader, Padded, IsName;
    var file, p, pos := Image(u), u.parts[i], SymPos(u) + 36 * i;
    var b := SectionSym(p, i + 1);
    WhereHeadersSay(u, i);
    PosBelow(u, i);
    SectionSymSlicesAll(p, i + 1);
    NameSays(file, pos, b, p.name);
    Field32(file, pos, b, 8, 0);
    Field16(file, pos, b, 12, i + 1);
    Field16(file, pos, b, 14, 0);
    Byte8(file, pos, b, 16);
    Byte8(file, pos, b, 17);
    Field32(file, pos, b, 18, |p.data|);
    Field16(file, pos, b, 22, NumReloc(p));
    Field16(file, pos, b, 24, 0);
    Field32(file, pos, b, 26, 0);
    Field16(file, pos, b, 30, i + 1);
    Byte8(file, pos, b, 32);
    Byte8(file, pos, b, 33);
    Field16(file, pos, b, 34, 0);
  }

  lemma SymSlicesAll(s: Sym, mark: nat)
    ensures var b := SymBytes(s, mark);
            && b[8..12] == Le32(SymValue(s.entity)) && b[12..14] == Le16(SymSection(s.entity)) && b[14..16] == Le16(0)
            && b[16] == SymClass(s.entity) && b[17] == 0
            && if |s.name| >= 8 then b[0..4] == Le32(0) && b[4..8] == Le32(mark) else b[0..8] == Padded(s.name)
  {
    hide Le32, Le16, Padded, SymValue, SymSection, SymClass;
  }

  predicate EntityOk(e: Entity)
  {
    e.External? || 0 <= e.pos < TWO32
  }

  lemma SymStands(u: Unit, k: nat)
    requires UnitOk(u) && Named(u) && FilledTo(u, |u.parts|) && k < |u.symbols| && EntityOk(u.symbols[k].entity)
    ensures SymSays(u, Image(u), k)
  {
    hide At, SymBytes, Le32, Le16, Get32, Get16, RawPos, RelPos, Image, FilledTo, MarkAt, HeadersTo, DataTo,
         RelocsTo, SectionSymsTo, SymsTo, NamesTo, FileHeader, Padded, IsName;
    var file, s, pos, mark := Image(u), u.symbols[k], SymPos(u) + 36 * |u.parts| + 18 * k, MarkAt(u, k);
    var b := SymBytes(s, mark);
    ImagePlaced(u);
    SymAt(file, SymPos(u) + 36 * |u.parts|, u, |u.symbols|, k);
    SymSlicesAll(s, mark);
    Field32(file, pos, b, 8, SymValue(s.entity));
    Field16(file, pos, b, 12, SymSection(s.entity));
    Field16(file, pos, b, 14, 0);
    Byte8(file, pos, b, 16);
    Byte8(file, pos, b, 17);
    if |s.name| < 8 {
      NameSays(file, pos, b, s.name);
    } else {
      MarkGrows(u, k, |u.symbols|);
      Field32(file, pos, b, 0, 0);
      Field32(file, pos, b, 4, mark);
      NameAt(file, StringPos(u), u, |u.symbols|, k);
    }
  }

  lemma {:induction false} RelocInList(file: seq<Byte>, pos: nat, rs: seq<Reloc>, n: nat, j: nat)
    requires j < n <= |rs| && At(file, pos, RelocList(rs, n))
    ensures At(file, pos + 10 * j, RelocBytes(rs[j]))
  {
    hide At, RelocBytes;
    AtJoin(file, pos, RelocList(rs, n - 1), RelocBytes(rs[n - 1]));
    if j < n - 1 { RelocInList(file, pos, rs, n - 1, j); }
  }

  lemma OverflowCounted(u: Unit, i: nat)
    requires FilledTo(u, |u.parts|) && i < |u.parts| && |u.parts[i].relocs| >= 0xFFFF
    ensures u.parts[i].counted
  {
  }

  // A file of less than 4 GB has room for fewer relocations.
  lemma FewRelocs(u: Unit, i: nat)
    requires UnitOk(u) && i < |u.parts|
    ensures |u.parts[i].relocs| < TWO32
  {
    hide RelPos, MarkAt;
    PosStep(u, i);
    RelGrows(u, i + 1, |u.parts|);
  }

  lemma PartRelocsStand(u: Unit, i: nat)
    requires UnitOk(u) && Named(u) && FilledTo(u, |u.parts|) && i < |u.parts|
    ensures var p := u.parts[i];
            At(Image(u), RelPos(u, i) + if |p.relocs| < 0xFFFF then 0 else 10, RelocList(p.relocs, |p.relocs|))
    ensures |u.parts[i].relocs| >= 0xFFFF ==> At(Image(u), RelPos(u, i), RelocRecord(|u.parts[i].relocs|, 0, 0))
  {
    hide At, Image, RelPos, RelocList, RelocRecord, FilledTo, UnitOk, Named, SectionSym;
    var p := u.parts[i];
    if |p.relocs| >= 0xFFFF { OverflowCounted(u, i); }
    WhereHeadersSay(u, i);
    if |p.relocs| >= 0xFFFF {
      AtJoin(Image(u), RelPos(u, i), RelocRecord(|p.relocs|, 0, 0), RelocList(p.relocs, |p.relocs|));
    } else {
      assert [] + RelocList(p.relocs, |p.relocs|) == RelocList(p.relocs, |p.relocs|);
    }
  }

  lemma RelocStands(u: Unit, i: nat, j: nat)
    requires UnitOk(u) && Named(u) && FilledTo(u, |u.parts|) && i < |u.parts| && j < |u.parts[i].relocs|
    ensures RelocSays(u, Image(u), i, j)
  {
    hide At, Image, RelPos, RelocList, RelocBytes, FilledTo, Le16, Le32, Get16, Get32, StringPos, MarkAt;
    var file, p, r := Image(u), u.parts[i], u.parts[i].relocs[j];
    var start: nat := RelPos(u, i) + if |p.relocs| < 0xFFFF then 0 else 10;
    PartRelocsStand(u, i);
    RelocInList(file, start, p.relocs, |p.relocs|, j);
    RelocSlices(r);
    assert RelocOk(r);
    Field32(file, start + 10 * j, RelocBytes(r), 0, r.address);
    Field32(file, start + 10 * j, RelocBytes(r), 4, r.symbol);
    Field16(file, start + 10 * j, RelocBytes(r), 8, RelocType(r.kind));
  }

  lemma CountStands(u: Unit, i: nat)
    requires UnitOk(u) && Named(u) && FilledTo(u, |u.parts|) && i < |u.parts|
    ensures CountSays(u, Image(u), i)
  {
    hide At, Image, RelPos, RelocList, RelocRecord, FilledTo, Le16, Le32, Get16, Get32, StringPos, MarkAt;
    var p, b := u.parts[i], RelocRecord(|u.parts[i].relocs|, 0, 0);
    PartRelocsStand(u, i);
    FewRelocs(u, i);
    RecordSlices(|p.relocs|, 0, 0);
    if |p.relocs| >= 0xFFFF {
      Field32(Image(u), RelPos(u, i), b, 0, |p.relocs|);
      Field32(Image(u), RelPos(u, i), b, 4, 0);
      Field16(Image(u), RelPos(u, i), b, 8, 0);
    }
  }

  // The theorem: in the file that is written every field of every header, symbol and relocation has
  // the number that the format asks for.
  lemma FieldsStand(u: Unit)
    requires UnitOk(u) && Named(u) && FilledTo(u, |u.parts|) && 0 <= u.time < TWO32
    requires forall k :: 0 <= k < |u.symbols| ==> EntityOk(u.symbols[k].entity)
    ensures FileHeaderSays(u, Image(u))
    ensures forall i: nat :: i < |u.parts| ==>
              SectionHeaderSays(u, Image(u), i) && SectionSymSays(u, Image(u), i) && CountSays(u, Image(u), i)
    ensures forall i: nat, j: nat :: i < |u.parts| && j < |u.parts[i].relocs| ==> RelocSays(u, Image(u), i, j)
    ensures forall k: nat :: k < |u.symbols| ==> SymSays(u, Image(u), k)
  {
    hide Image, UnitOk, Named, FilledTo, EntityOk, FileHeaderSays, SectionHeaderSays, SectionSymSays, CountSays,
         RelocSays, SymSays;
    FileHeaderStands(u);
    forall i: nat | i < |u.parts|
      ensures SectionHeaderSays(u, Image(u), i) && SectionSymSays(u, Image(u), i) && CountSays(u, Image(u), i)
    {
      SectionHeaderStands(u, i);
      SectionSymStands(u, i);
      CountStands(u, i);
    }
    forall i: nat, j: nat | i < |u.parts| && j < |u.parts[i].relocs| ensures RelocSays(u, Image(u), i, j) {
      RelocStands(u, i, j);
    }
    forall k: nat | k < |u.symbols| ensures SymSays(u, Image(u), k) {
      SymStands(u, k);
    }
  }

  // ----- What is read from any file -----

  // Relocation j of the section whose header is at pos.
  ghost predicate RelocFrom(file: seq<Byte>, pos: nat, j: nat, r: ObjReloc)
  {
    && pos + 40 <= |file| && var at := Get32(file, pos + 24) + 10 * j;
    && at + 10 <= |file| && r.address == Get32(file, at) && r.symbol == Get32(file, at + 4)
    && var t := Get16(file, at + 8);
    && 0x0001 <= t <= 0x000B && (r.kind == ADDR64 <==> t == 0x0001) && (r.kind == ADDR32 <==> t == 0x0002)
    && (r.kind == ADDR32NB <==> t == 0x0003) && (r.kind == REL32 <==> 0x0004 <= t <= 0x0009)
    && (r.kind == SECTION <==> t == 0x000A) && (r.kind == SECREL <==> t == 0x000B)
    && r.addend == if r.kind == REL32 then t - 4 else 0
  }

  ghost predicate SectionFrom(file: seq<Byte>, pos: nat, s: ObjSection)
  {
    && pos + 40 <= |file| && CString(file, pos) == Some(s.name) && Get32(file, pos) != 0
    && Is32(file, pos + 8, s.virtualSize) && Is32(file, pos + 12, s.virtualAddress) && Is32(file, pos + 36, s.flags)
    && Is32(file, pos + 16, |s.data|)
    && (s.data != [] ==> var raw := Get32(file, pos + 20);
                         raw + |s.data| < |file| && s.data == file[raw..raw + |s.data|])
    && Is16(file, pos + 32, |s.relocs|) && forall j: nat :: j < |s.relocs| ==> RelocFrom(file, pos, j, s.relocs[j])
  }

  lemma {:induction false} RelocOf(file: seq<Byte>, pos: nat, n: nat, j: nat)
    requires j < n && RelocsAt(file, pos, n).Some?
    ensures |RelocsAt(file, pos, n).value| == n && pos + 10 * j + 10 <= |file|
    ensures RelocAt(file, pos + 10 * j) == Some(RelocsAt(file, pos, n).value[j])
  {
    hide RelocAt;
    if j < n - 1 {
      RelocOf(file, pos, n - 1, j);
    } else {
      RelocCount(file, pos, n - 1);
    }
  }

  lemma {:induction false} RelocCount(file: seq<Byte>, pos: nat, n: nat)
    requires RelocsAt(file, pos, n).Some?
    ensures |RelocsAt(file, pos, n).value| == n
  {
    hide RelocAt;
    if n > 0 { RelocCount(file, pos, n - 1); }
  }

  lemma RelocIsFrom(file: seq<Byte>, pos: nat, j: nat, r: ObjReloc)
    requires pos + 40 <= |file| && Get32(file, pos + 24) + 10 * j + 10 <= |file|
    requires RelocAt(file, Get32(file, pos + 24) + 10 * j) == Some(r)
    ensures RelocFrom(file, pos, j, r)
  {
    hide Get32, Get16;
  }

  lemma SectionIsFrom(file: seq<Byte>, pos: nat)
    requires SectionAt(file, pos).Some?
    ensures SectionFrom(file, pos, SectionAt(file, pos).value)
  {
    hide Get32, Get16, CString, RelocFrom, RelocsAt;
    var s := SectionAt(file, pos).value;
    var at, n := Get32(file, pos + 24), Get16(file, pos + 32);
    assert RelocsAt(file, at, n) == Some(s.relocs);
    RelocCount(file, at, n);
    forall j: nat | j < |s.relocs| ensures RelocFrom(file, pos, j, s.relocs[j]) {
      RelocOf(file, at, n, j);
      RelocIsFrom(file, pos, j, s.relocs[j]);
    }
  }

  lemma {:induction false} SectionOf(file: seq<Byte>, n: nat, i: nat)
    requires i < n && SectionsTo(file, n).Some?
    ensures |SectionsTo(file, n).value| == n && SectionAt(file, 20 + 40 * i) == Some(SectionsTo(file, n).value[i])
  {
    hide SectionAt;
    if i < n - 1 {
      SectionOf(file, n - 1, i);
    } else {
      SectionCount(file, n - 1);
    }
  }

  lemma {:induction false} SectionCount(file: seq<Byte>, n: nat)
    requires SectionsTo(file, n).Some?
    ensures |SectionsTo(file, n).value| == n
  {
    hide SectionAt;
    if n > 0 { SectionCount(file, n - 1); }
  }

  // ----- Which files are read -----

  ghost predicate Ends(file: seq<Byte>, pos: nat)
  {
    exists k: nat :: pos <= k < |file| && file[k] == 0
  }

  lemma {:induction false} StringEnds(file: seq<Byte>, pos: nat)
    ensures CString(file, pos).Some? <==> Ends(file, pos)
    decreases |file| - pos
  {
    if pos < |file| && file[pos] != 0 {
      StringEnds(file, pos + 1);
    }
  }

  ghost predicate RelocReadable(file: seq<Byte>, at: nat)
  {
    at + 10 <= |file| && 0x0001 <= Get16(file, at + 8) <= 0x000B
  }

  ghost predicate SectionReadable(file: seq<Byte>, pos: nat)
  {
    && pos + 40 <= |file| && Get32(file, pos) != 0 && Ends(file, pos)
    && (forall j: nat :: j < Get16(file, pos + 32) ==> RelocReadable(file, Get32(file, pos + 24) + 10 * j))
    && (Get32(file, pos + 16) > 0 ==> Get32(file, pos + 20) + Get32(file, pos + 16) < |file|)
  }

  lemma {:induction false} RelocsReadable(file: seq<Byte>, pos: nat, n: nat)
    ensures RelocsAt(file, pos, n).Some? <==> forall j: nat :: j < n ==> RelocReadable(file, pos + 10 * j)
  {
    hide Get16, Get32;
    if n > 0 {
      RelocsReadable(file, pos, n - 1);
      assert RelocReadable(file, pos + 10 * (n - 1)) <==>
             pos + 10 * n <= |file| && RelocAt(file, pos + 10 * (n - 1)).Some?;
    }
  }

  lemma SectionReads(file: seq<Byte>, pos: nat)
    ensures SectionAt(file, pos).Some? <==> SectionReadable(file, pos)
  {
    hide Get16, Get32, RelocReadable, Ends, CString;
    if pos + 40 <= |file| {
      StringEnds(file, pos);
      RelocsReadable(file, Get32(file, pos + 24), Get16(file, pos + 32));
    }
  }

  lemma {:induction false} SectionsReadable(file: seq<Byte>, n: nat)
    ensures SectionsTo(file, n).Some? <==> forall i: nat :: i < n ==> SectionReadable(file, 20 + 40 * i)
  {
    hide SectionAt, SectionReadable;
    if n > 0 {
      SectionsReadable(file, n - 1);
      SectionReads(file, 20 + 40 * (n - 1));
    }
  }

  // The record that symbol k begins with; a symbol says how many records of its own follow it. None
  // is outside the file.
  function RecordOf(file: seq<Byte>, table: nat, k: nat): Option<nat>
  {
    if k == 0 then Some(0)
    else
      var id := RecordOf(file, table, k - 1);
      if id.None? || table + 18 * id.value + 18 > |file| then None
      else Some(id.value + 1 + file[table + 18 * id.value + 17])
  }

  // A name of its own, or one in the strings behind the symbols.
  ghost predicate NameFrom(file: seq<Byte>, table: nat, count: nat, pos: nat, name: seq<Byte>)
  {
    && pos + 18 <= |file|
    && Some(name) == CString(file, if Get32(file, pos) != 0 then pos else table + 18 * count + Get32(file, pos + 4))
  }

  // Symbol i has the name that the list from symbol k on gives it.
  ghost predicate SymbolFrom(file: seq<Byte>, table: nat, count: nat, k: nat, names: seq<seq<Byte>>, i: nat)
    requires k <= i < k + |names|
  {
    var id := RecordOf(file, table, i);
    id.Some? && id.value < count && NameFrom(file, table, count, table + 18 * id.value, names[i - k])
  }

  // The names are those of the symbols from k on, up to the end of the table.
  ghost predicate NamesFrom(file: seq<Byte>, table: nat, count: nat, k: nat, names: seq<seq<Byte>>)
  {
    && (forall i: nat :: k <= i < k + |names| ==> SymbolFrom(file, table, count, k, names, i))
    && RecordOf(file, table, k + |names|).Some? && RecordOf(file, table, k + |names|).value >= count
  }

  lemma RecordNext(file: seq<Byte>, table: nat, k: nat)
    ensures var id := RecordOf(file, table, k);
            id.Some? && table + 18 * id.value + 18 <= |file| ==>
              RecordOf(file, table, k + 1) == Some(id.value + file[table + 18 * id.value + 17] + 1)
  {
  }

  lemma {:induction false} NamesAreFrom(file: seq<Byte>, table: nat, count: nat, k: nat, id: nat)
    requires RecordOf(file, table, k) == Some(id) && Names(file, table, count, id).Some?
    ensures NamesFrom(file, table, count, k, Names(file, table, count, id).value)
    decreases if id < count then count - id else 0
  {
    hide CString, Get32, Names, RecordOf;
    NamesAt(file, table, count, id);
    if id < count {
      var next := id + file[table + 18 * id + 17] + 1;
      RecordNext(file, table, k);
      NamesAreFrom(file, table, count, k + 1, next);
      var names, rest := Names(file, table, count, id).value, Names(file, table, count, next).value;
      forall i: nat | k <= i < k + |names| ensures SymbolFrom(file, table, count, k, names, i) {
        if i > k {
          assert SymbolFrom(file, table, count, k + 1, rest, i);
          assert names[i - k] == rest[i - (k + 1)];
        }
      }
      assert k + |names| == k + 1 + |rest|;
    }
  }

  // With a name for every symbol there is nothing to stop at.
  lemma {:induction false} NamesRead(file: seq<Byte>, table: nat, count: nat, names: seq<seq<Byte>>, k: nat)
    requires NamesFrom(file, table, count, 0, names) && k <= |names|
    ensures RecordOf(file, table, k).Some? && Names(file, table, count, RecordOf(file, table, k).value).Some?
    decreases |names| - k
  {
    hide CString, Get32, Names, RecordOf;
    if k < |names| {
      assert SymbolFrom(file, table, count, 0, names, k);
      RecordNext(file, table, k);
      NamesRead(file, table, count, names, k + 1);
    }
    NamesAt(file, table, count, RecordOf(file, table, k).value);
  }

  lemma TableReads(file: seq<Byte>, table: nat, count: nat)
    ensures Names(file, table, count, 0).Some? <==> exists names :: NamesFrom(file, table, count, 0, names)
    ensures Names(file, table, count, 0).Some? ==>
              NamesFrom(file, table, count, 0, Names(file, table, count, 0).value)
  {
    hide CString, Get32, Names;
    if Names(file, table, count, 0).Some? {
      NamesAreFrom(file, table, count, 0, 0);
    }
    if names :| NamesFrom(file, table, count, 0, names) {
      NamesRead(file, table, count, names, 0);
    }
  }

  ghost predicate Readable(file: seq<Byte>)
  {
    && |file| >= 20 && (forall i: nat :: i < Get16(file, 2) ==> SectionReadable(file, 20 + 40 * i))
    && exists names :: NamesFrom(file, Get32(file, 8), Get32(file, 12), 0, names)
  }

  // The theorem: the reader stops exactly where the file has no section, relocation or name to be
  // read ...
  lemma ReadsIff(file: seq<Byte>)
    ensures ParseOf(file).Some? <==> Readable(file)
  {
    hide Names, SectionsTo, Get32, Get16, SectionReadable, NamesFrom;
    if |file| >= 20 {
      SectionsReadable(file, Get16(file, 2));
      TableReads(file, Get32(file, 8), Get32(file, 12));
    }
  }

  // ... and otherwise gives what stands in it.
  lemma ReadFrom(file: seq<Byte>)
    requires ParseOf(file).Some?
    ensures |file| >= 20 && Is16(file, 2, |ParseOf(file).value.sections|)
    ensures var arch, machine := ParseOf(file).value.arch, Get16(file, 0);
            (arch == X86_64 <==> machine == 0x8664) && (arch == AArch64 <==> machine == 0xAA64)
    ensures var o := ParseOf(file).value;
            && (forall i: nat :: i < |o.sections| ==> SectionFrom(file, 20 + 40 * i, o.sections[i]))
            && NamesFrom(file, Get32(file, 8), Get32(file, 12), 0, o.symbols)
  {
    hide Names, SectionAt, SectionFrom, Get32, Get16, SectionsTo, NamesFrom;
    TableReads(file, Get32(file, 8), Get32(file, 12));
    var o, n := ParseOf(file).value, Get16(file, 2);
    SectionCount(file, n);
    forall i: nat | i < |o.sections| ensures SectionFrom(file, 20 + 40 * i, o.sections[i]) {
      SectionOf(file, n, i);
      SectionIsFrom(file, 20 + 40 * i);
    }
  }
}
