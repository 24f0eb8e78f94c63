// Reading back what was written: src/tb/objects/coff_parse.c after src/tb/objects/coff.c, by
// sections 4, 5.2, 5.4.1 and 5.6 of the Microsoft PE and COFF specification.

module CoffRoundTrip {
  import opened Bytes
  import opened Predecessors
  import opened Coff
  import opened CoffParse

  // ----- What a module is -----

  // Neither empty nor with a zero inside.
  predicate NameOk(name: seq<Byte>)
  {
    name != [] && forall i :: 0 <= i < |name| ==> name[i] != 0
  }

  predicate PartOk(p: Part)
  {
    && NameOk(p.name) && |p.name| < 8 && 0 <= p.flags < TWO32 - OVERFLOW
    && forall i :: 0 <= i < |p.relocs| ==> RelocOk(p.relocs[i])
  }

  predicate RelocOk(r: Reloc)
  {
    0 <= r.address < TWO32 && 0 <= r.symbol < TWO32 && (r.kind.Distance? ==> r.kind.behind <= 5)
  }

  // Names without zeros, numbers that fit their fields, and a file of less than 4 GB.
  ghost predicate UnitOk(u: Unit)
  {
    && 0 < |u.parts| < 0x8000
    && (forall i :: 0 <= i < |u.parts| ==> PartOk(u.parts[i]))
    && (forall k :: 0 <= k < |u.symbols| ==> NameOk(u.symbols[k].name))
    && StringPos(u) + MarkAt(u, |u.symbols|) + |u.slack| < TWO32
  }

  // ----- What it should be read as -----

  function RelocMeans(r: Reloc): ObjReloc
    requires RelocOk(r)
  {
    var kind := match r.kind
                case Address64 => ADDR64
                case Address32 => ADDR32
                case Address32NoBase => ADDR32NB
                case Distance(_) => REL32
                case SectionNumber => SECTION
                case PlaceInSection => SECREL;
    ObjReloc(kind, if r.kind.Distance? then r.kind.behind else 0, r.symbol, r.address)
  }

  function RelocsMean(rs: seq<Reloc>): (out: seq<ObjReloc>)
    requires forall i :: 0 <= i < |rs| ==> RelocOk(rs[i])
    ensures |out| == |rs| && forall i :: 0 <= i < |rs| ==> out[i] == RelocMeans(rs[i])
  {
    seq(|rs|, i requires 0 <= i < |rs| => RelocMeans(rs[i]))
  }

  function PartMeans(p: Part): ObjSection
    requires PartOk(p)
  {
    ObjSection(p.name, p.flags, 0, 0, p.data, RelocsMean(p.relocs))
  }

  function PartsMean(u: Unit, i: nat): (out: seq<ObjSection>)
    requires i <= |u.parts| && forall j :: 0 <= j < |u.parts| ==> PartOk(u.parts[j])
  {
    if i == 0 then [] else PartsMean(u, i - 1) + [PartMeans(u.parts[i - 1])]
  }

  // The names from section i on, and from symbol k on.
  function PartNames(u: Unit, i: nat): seq<seq<Byte>>
    requires i <= |u.parts|
    decreases |u.parts| - i
  {
    if i == |u.parts| then SymNames(u, 0) else [u.parts[i].name] + PartNames(u, i + 1)
  }

  function SymNames(u: Unit, k: nat): seq<seq<Byte>>
    requires k <= |u.symbols|
    decreases |u.symbols| - k
  {
    if k == |u.symbols| then [] else [u.symbols[k].name] + SymNames(u, k + 1)
  }

  ghost function Meaning(u: Unit): Object
    requires UnitOk(u)
  {
    Object(match u.target case Amd64 => X86_64 case Arm64 => AArch64, PartNames(u, 0), PartsMean(u, |u.parts|))
  }

  // ----- Places in the file -----

  ghost predicate At(file: seq<Byte>, pos: nat, bs: seq<Byte>)
  {
    pos + |bs| <= |file| && file[pos..pos + |bs|] == bs
  }

  lemma AtJoin(file: seq<Byte>, pos: nat, a: seq<Byte>, b: seq<Byte>)
    requires At(file, pos, a + b)
    ensures At(file, pos, a) && At(file, pos + |a|, b)
  {
    assert (a + b)[..|a|] == a && (a + b)[|a|..] == b;
    assert file[pos..pos + |a + b|][..|a|] == file[pos..pos + |a|];
    assert file[pos..pos + |a + b|][|a|..] == file[pos + |a|..pos + |a| + |b|];
  }

  // Bytes i to j of what stands at pos.
  lemma AtSlice(file: seq<Byte>, pos: nat, bs: seq<Byte>, i: nat, j: nat)
    requires At(file, pos, bs) && i <= j <= |bs|
    ensures file[pos + i..pos + j] == bs[i..j]
  {
    var a, b := file[pos..pos + |bs|][i..j], file[pos + i..pos + j];
    forall k | 0 <= k < j - i ensures a[k] == b[k] {
    }
    assert a == b;
  }

  lemma {:induction false} HeaderAt(file: seq<Byte>, pos: nat, u: Unit, n: nat, i: nat)
    requires Named(u) && i < n <= |u.parts| && At(file, pos, HeadersTo(u, n))
    ensures At(file, pos + 40 * i, SectionHeader(u.parts[i], RawPos(u, i), RelPos(u, i)))
  {
    hide SectionHeader, RawPos, RelPos, At;
    AtJoin(file, pos, HeadersTo(u, n - 1), SectionHeader(u.parts[n - 1], RawPos(u, n - 1), RelPos(u, n - 1)));
    if i < n - 1 { HeaderAt(file, pos, u, n - 1, i); }
  }

  lemma {:induction false} DataAt(file: seq<Byte>, u: Unit, n: nat, i: nat)
    requires i < n <= |u.parts| && At(file, RawPos(u, 0), DataTo(u, n))
    ensures At(file, RawPos(u, i), u.parts[i].data)
  {
    hide RawPos, At;
    AtJoin(file, RawPos(u, 0), DataTo(u, n - 1), u.parts[n - 1].data);
    if i < n - 1 { DataAt(file, u, n - 1, i); }
  }

  lemma {:induction false} PartRelocsAt(file: seq<Byte>, u: Unit, n: nat, i: nat)
    requires i < n <= |u.parts| && FilledTo(u, n) && At(file, RelPos(u, 0), RelocsTo(u, n))
    ensures At(file, RelPos(u, i), PartRelocs(u.parts[i]))
  {
    hide RelPos, At, PartRelocs;
    RelocsFill(u, n - 1);
    AtJoin(file, RelPos(u, 0), RelocsTo(u, n - 1), PartRelocs(u.parts[n - 1]));
    if i < n - 1 { PartRelocsAt(file, u, n - 1, i); }
  }

  lemma {:induction false} SectionSymAt(file: seq<Byte>, pos: nat, u: Unit, n: nat, i: nat)
    requires Named(u) && i < n <= |u.parts| && At(file, pos, SectionSymsTo(u, n))
    ensures At(file, pos + 36 * i, SectionSym(u.parts[i], i + 1))
  {
    hide SectionSym, At;
    AtJoin(file, pos, SectionSymsTo(u, n - 1), SectionSym(u.parts[n - 1], n));
    if i < n - 1 { SectionSymAt(file, pos, u, n - 1, i); }
  }

  lemma {:induction false} SymAt(file: seq<Byte>, pos: nat, u: Unit, n: nat, k: nat)
    requires k < n <= |u.symbols| && At(file, pos, SymsTo(u, n))
    ensures At(file, pos + 18 * k, SymBytes(u.symbols[k], MarkAt(u, k)))
  {
    hide SymBytes, At, MarkAt;
    AtJoin(file, pos, SymsTo(u, n - 1), SymBytes(u.symbols[n - 1], MarkAt(u, n - 1)));
    if k < n - 1 { SymAt(file, pos, u, n - 1, k); }
  }

  // pos is where the string table begins.
  lemma {:induction false} NameAt(file: seq<Byte>, pos: nat, u: Unit, n: nat, k: nat)
    requires k < n <= |u.symbols| && LongName(u.symbols[k]) && At(file, pos + 4, NamesTo(u, n))
    ensures At(file, pos + MarkAt(u, k), u.symbols[k].name + [0])
  {
    hide At, MarkAt;
    AtJoin(file, pos + 4, NamesTo(u, n - 1), if LongName(u.symbols[n - 1]) then u.symbols[n - 1].name + [0] else []);
    if k < n - 1 { NameAt(file, pos, u, n - 1, k); }
  }

  // Where everything is.
  ghost predicate Placed(u: Unit, file: seq<Byte>)
    requires Named(u)
  {
    && At(file, 0, FileHeader(u)) && At(file, 20, HeadersTo(u, |u.parts|)) &&
      At(file, RawPos(u, 0), DataTo(u, |u.parts|))
    && At(file, RelPos(u, 0), RelocsTo(u, |u.parts|))
    && At(file, SymPos(u), SectionSymsTo(u, |u.parts|)) && At(file, SymPos(u) + 36 * |u.parts|, SymsTo(u, |u.symbols|))
    && At(file, StringPos(u) + 4, NamesTo(u, |u.symbols|))
    && |file| == StringPos(u) + MarkAt(u, |u.symbols|) + |u.slack|
  }

  lemma ImagePlaced(u: Unit)
    requires Named(u) && FilledTo(u, |u.parts|)
    ensures Placed(u, Image(u))
  {
    hide At, FileHeader, HeadersTo, DataTo, RelocsTo, SectionSymsTo, SymsTo, NamesTo, Le32, FilledTo, MarkAt;
    var file, n, m := Image(u), |u.parts|, |u.symbols|;
    RelocsFill(u, n);
    WholeAt(file);
    AtJoin(file, 0, Coff.Front(u) + RelocsTo(u, n), Back(u));
    AtJoin(file, 0, Coff.Front(u), RelocsTo(u, n));
    AtJoin(file, 0, FileHeader(u) + HeadersTo(u, n), DataTo(u, n));
    AtJoin(file, 0, FileHeader(u), HeadersTo(u, n));
    BackPlaced(u, file);
  }

  lemma WholeAt(file: seq<Byte>)
    ensures At(file, 0, file)
  {
  }

  lemma BackPlaced(u: Unit, file: seq<Byte>)
    requires Named(u) && At(file, SymPos(u), Back(u))
    ensures At(file, SymPos(u), SectionSymsTo(u, |u.parts|))
    ensures At(file, SymPos(u) + 36 * |u.parts|, SymsTo(u, |u.symbols|))
    ensures At(file, StringPos(u) + 4, NamesTo(u, |u.symbols|))
  {
    hide At, SectionSymsTo, SymsTo, NamesTo, Le32, MarkAt;
    var a, b, c, d := SectionSymsTo(u, |u.parts|), SymsTo(u, |u.symbols|), Le32(MarkAt(u, |u.symbols|)),
      NamesTo(u, |u.symbols|);
    AtJoin(file, SymPos(u), a + b + c + d, u.slack);
    AtJoin(file, SymPos(u), a + b + c, d);
    AtJoin(file, SymPos(u), a + b, c);
    AtJoin(file, SymPos(u), a, b);
  }

  // ----- Fields -----

  lemma Field32(file: seq<Byte>, pos: nat, bs: seq<Byte>, i: nat, v: int)
    requires At(file, pos, bs) && i + 4 <= |bs| && bs[i..i + 4] == Le32(v) && 0 <= v < TWO32
    ensures pos + i + 4 <= |file| && Get32(file, pos + i) == v
  {
    hide Le32, U32;
    AtSlice(file, pos, bs, i, i + 4);
    Read32(v);
  }

  lemma Field16(file: seq<Byte>, pos: nat, bs: seq<Byte>, i: nat, v: int)
    requires At(file, pos, bs) && i + 2 <= |bs| && bs[i..i + 2] == Le16(v) && 0 <= v < 0x1_0000
    ensures pos + i + 2 <= |file| && Get16(file, pos + i) == v
  {
    hide Le16, U16;
    AtSlice(file, pos, bs, i, i + 2);
    Read16(v);
  }

  // A name with a zero behind it.
  lemma StringAt(file: seq<Byte>, pos: nat, name: seq<Byte>)
    requires NameOk(name) && At(file, pos, name + [0])
    ensures CString(file, pos) == Some(name)
  {
    AtJoin(file, pos, name, [0]);
    forall k | pos <= k < pos + |name| ensures file[k] != 0 {
      assert file[k] == file[pos..pos + |name|][k - pos];
    }
    assert file[pos + |name|] == file[pos + |name|..pos + |name| + 1][0];
    CStringIs(file, pos, |name|);
  }

  // A short name in a field of eight bytes.
  lemma ShortNameAt(file: seq<Byte>, pos: nat, name: seq<Byte>)
    requires NameOk(name) && |name| < 8 && At(file, pos, Padded(name))
    ensures CString(file, pos) == Some(name) && pos + 4 <= |file| && Get32(file, pos) != 0
  {
    var z := Zeros(8 - |name|);
    assert z == [0] + z[1..];
    assert Padded(name) == (name + [0]) + z[1..];
    AtJoin(file, pos, name + [0], z[1..]);
    StringAt(file, pos, name);
    assert file[pos..pos + 8][0] == name[0];
    assert file[pos..pos + 4][0] == file[pos] == name[0] != 0;
  }

  // ----- Section headers -----

  lemma HeaderSlices(p: Part, raw: nat, rel: nat)
    requires |p.name| <= 8
    ensures var h := SectionHeader(p, raw, rel);
            && h[0..8] == Padded(p.name) && h[8..12] == Le32(0) && h[12..16] == Le32(0) && h[16..20] == Le32(|p.data|)
            && h[20..24] == Le32(raw) && h[24..28] == Le32(rel) && h[32..34] == Le16(NumReloc(p))
            && h[36..40] == Le32(p.flags + if Overflows(p) then OVERFLOW else 0)
  {
    hide Le32, Le16, Padded;
  }

  // What the parser finds in the header of a section.
  lemma HeaderFields(file: seq<Byte>, pos: nat, p: Part, raw: nat, rel: nat)
    requires PartOk(p) && At(file, pos, SectionHeader(p, raw, rel)) && |p.data| < TWO32 && raw < TWO32 && rel < TWO32
    ensures pos + 40 <= |file| && CString(file, pos) == Some(p.name) && Get32(file, pos) != 0
    ensures Get32(file, pos + 8) == 0 && Get32(file, pos + 12) == 0 && Get32(file, pos + 16) == |p.data|
    ensures Get32(file, pos + 20) == raw && Get32(file, pos + 24) == rel && Get16(file, pos + 32) == NumReloc(p)
    ensures Get32(file, pos + 36) == p.flags + if Overflows(p) then OVERFLOW else 0
  {
    hide At, SectionHeader, Le32, Le16, CString, Get32, Get16, Padded;
    var h := SectionHeader(p, raw, rel);
    HeaderSlices(p, raw, rel);
    HeadAt(file, pos, h, 8);
    ShortNameAt(file, pos, p.name);
    Field32(file, pos, h, 8, 0);
    Field32(file, pos, h, 12, 0);
    Field32(file, pos, h, 16, |p.data|);
    Field32(file, pos, h, 20, raw);
    Field32(file, pos, h, 24, rel);
    Field16(file, pos, h, 32, NumReloc(p));
    Field32(file, pos, h, 36, p.flags + if Overflows(p) then OVERFLOW else 0);
  }

  lemma HeadAt(file: seq<Byte>, pos: nat, bs: seq<Byte>, n: nat)
    requires At(file, pos, bs) && n <= |bs|
    ensures At(file, pos, bs[0..n]) && pos + |bs| <= |file|
  {
    AtSlice(file, pos, bs, 0, n);
  }

  // ----- Relocations -----

  lemma RecordSlices(address: int, symbol: int, kind: int)
    ensures var b := RelocRecord(address, symbol, kind);
            b[0..4] == Le32(address) && b[4..8] == Le32(symbol) && b[8..10] == Le16(kind)
  {
    hide Le32, Le16;
  }

  lemma RelocSlices(r: Reloc)
    ensures var b := RelocBytes(r);
            b[0..4] == Le32(r.address) && b[4..8] == Le32(r.symbol) && b[8..10] == Le16(RelocType(r.kind))
  {
    hide Le32, Le16;
  }

  lemma RelocRead(file: seq<Byte>, pos: nat, r: Reloc)
    requires RelocOk(r) && At(file, pos, RelocBytes(r))
    ensures pos + 10 <= |file| && RelocAt(file, pos) == Some(RelocMeans(r))
  {
    hide At, RelocBytes, Le32, Le16, Get32, Get16;
    RelocSlices(r);
    Field32(file, pos, RelocBytes(r), 0, r.address);
    Field32(file, pos, RelocBytes(r), 4, r.symbol);
    Field16(file, pos, RelocBytes(r), 8, RelocType(r.kind));
  }

  lemma {:induction false} RelocsRead(file: seq<Byte>, pos: nat, rs: seq<Reloc>, j: nat)
    requires (forall i :: 0 <= i < |rs| ==> RelocOk(rs[i])) && j <= |rs| && At(file, pos, RelocList(rs, j))
    ensures RelocsAt(file, pos, j) == Some(RelocsMean(rs)[..j])
  {
    hide At, RelocBytes, RelocAt, RelocMeans;
    if j > 0 {
      AtJoin(file, pos, RelocList(rs, j - 1), RelocBytes(rs[j - 1]));
      RelocsRead(file, pos, rs, j - 1);
      RelocRead(file, pos + 10 * (j - 1), rs[j - 1]);
      assert RelocsMean(rs)[..j] == RelocsMean(rs)[..j - 1] + [RelocMeans(rs[j - 1])];
    }
  }

  // The number in place of a first relocation has a type that the parser does not know.
  lemma DummyUnread(file: seq<Byte>, pos: nat, count: int, n: nat)
    requires At(file, pos, RelocRecord(count, 0, 0)) && n > 0
    ensures RelocsAt(file, pos, n).None?
  {
    hide At, RelocRecord, Le16, Le32, RelocsAt;
    RecordSlices(count, 0, 0);
    HeadAt(file, pos, RelocRecord(count, 0, 0), 10);
    Field16(file, pos, RelocRecord(count, 0, 0), 8, 0);
    FirstUnread(file, pos);
    RelocsStop(file, pos, 1, n);
  }

  lemma FirstUnread(file: seq<Byte>, pos: nat)
    requires pos + 10 <= |file| && RelocAt(file, pos).None?
    ensures RelocsAt(file, pos, 1).None?
  {
  }

  // ----- Sections -----

  lemma {:induction false} PosBelow(u: Unit, i: nat)
    requires i < |u.parts|
    ensures RawPos(u, i) + |u.parts[i].data| <= RawPos(u, |u.parts|) <= RelPos(u, i) <= SymPos(u)
  {
    RawGrows(u, i + 1, |u.parts|);
    RelGrows(u, 0, i);
    RelGrows(u, i, |u.parts|);
  }

  lemma {:induction false} RawGrows(u: Unit, i: nat, j: nat)
    requires i <= j <= |u.parts|
    ensures RawPos(u, i) <= RawPos(u, j)
  {
    if i < j { RawGrows(u, i, j - 1); }
  }

  lemma {:induction false} RelGrows(u: Unit, i: nat, j: nat)
    requires i <= j <= |u.parts|
    ensures RelPos(u, i) <= RelPos(u, j)
  {
    hide RawPos, RelocRoom;
    if i < j { RelGrows(u, i, j - 1); }
  }

  // What the parser makes of section i.
  lemma SectionRead(u: Unit, file: seq<Byte>, i: nat)
    requires UnitOk(u) && Named(u) && Placed(u, file) && FilledTo(u, |u.parts|) && i < |u.parts|
    ensures SectionAt(file, 20 + 40 * i) == if Overflows(u.parts[i]) then None else Some(PartMeans(u.parts[i]))
  {
    hide At, SectionHeader, CString, Get32, Get16, RawPos, RelPos, HeadersTo, DataTo, RelocsTo, SectionSymsTo, SymsTo,
         NamesTo,
         FileHeader, MarkAt, FilledTo, PartRelocs, RelocsAt;
    var p := u.parts[i];
    HeaderAt(file, 20, u, |u.parts|, i);
    PosBelow(u, i);
    HeaderFields(file, 20 + 40 * i, p, RawPos(u, i), RelPos(u, i));
    DataAt(file, u, |u.parts|, i);
    DataRead(file, RawPos(u, i), p.data);
    PartRelocsAt(file, u, |u.parts|, i);
    PartRelocsRead(u, file, i);
    MarkPositive(u, |u.symbols|);
  }

  lemma {:induction false} MarkPositive(u: Unit, k: nat)
    requires k <= |u.symbols|
    ensures MarkAt(u, k) >= 4
  {
    if k > 0 { MarkPositive(u, k - 1); }
  }

  lemma DataRead(file: seq<Byte>, pos: nat, data: seq<Byte>)
    requires At(file, pos, data)
    ensures pos + |data| <= |file| && file[pos..pos + |data|] == data
  {
  }

  lemma PartRelocsRead(u: Unit, file: seq<Byte>, i: nat)
    requires UnitOk(u) && FilledTo(u, |u.parts|) && i < |u.parts| && At(file, RelPos(u, i), PartRelocs(u.parts[i]))
    ensures var p := u.parts[i];
            RelocsAt(file, RelPos(u, i), NumReloc(p)) == if Overflows(p) then None else Some(RelocsMean(p.relocs))
  {
    hide At, RelPos, RelocsAt, RelocList, RelocRecord, MarkAt;
    var p := u.parts[i];
    var pos := RelPos(u, i);
    if Overflows(p) {
      AtJoin(file, pos, RelocRecord(|p.relocs|, 0, 0), RelocList(p.relocs, |p.relocs|));
      DummyUnread(file, pos, |p.relocs|, NumReloc(p));
    } else {
      assert [] + RelocList(p.relocs, |p.relocs|) == RelocList(p.relocs, |p.relocs|);
      RelocsRead(file, pos, p.relocs, |p.relocs|);
      assert RelocsMean(p.relocs)[..|p.relocs|] == RelocsMean(p.relocs);
    }
  }

  lemma {:induction false} SectionsRead(u: Unit, file: seq<Byte>, i: nat)
    requires UnitOk(u) && Named(u) && Placed(u, file) && FilledTo(u, |u.parts|) && i <= |u.parts|
    ensures SectionsTo(file, i) ==
              if forall j :: 0 <= j < i ==> !Overflows(u.parts[j]) then Some(PartsMean(u, i)) else None
  {
    hide Placed, FilledTo, SectionAt, Overflows, PartMeans, StringPos, MarkAt;
    if i > 0 {
      SectionsRead(u, file, i - 1);
      SectionRead(u, file, i - 1);
    }
  }

  // ----- Symbols -----

  lemma SectionSymSlices(p: Part, number: nat)
    requires |p.name| <= 8
    ensures var b := SectionSym(p, number); b[0..8] == Padded(p.name) && b[17] == 1
  {
    hide Le32, Le16, Padded;
  }

  lemma SymSlices(s: Sym, mark: nat)
    ensures var b := SymBytes(s, mark);
            b[17] == 0 && if LongName(s) then b[0..4] == Le32(0) && b[4..8] == Le32(mark) else b[0..8] == Padded(s.name)
  {
    hide Le32, Le16, Padded;
  }

  lemma ByteAt(file: seq<Byte>, pos: nat, bs: seq<Byte>, i: nat)
    requires At(file, pos, bs) && i < |bs|
    ensures pos + |bs| <= |file| && file[pos + i] == bs[i]
  {
    assert file[pos..pos + |bs|][i] == bs[i];
  }

  // The symbol of section i.
  lemma SectionSymRead(u: Unit, file: seq<Byte>, i: nat)
    requires UnitOk(u) && Named(u) && Placed(u, file) && i < |u.parts|
    ensures var pos := SymPos(u) + 36 * i;
            pos + 36 <= |file| && file[pos + 17] == 1 && SymName(file, StringPos(u), pos) == Some(u.parts[i].name)
  {
    hide At, SectionSym, CString, Get32, RawPos, RelPos, HeadersTo, DataTo, RelocsTo, SectionSymsTo, SymsTo, NamesTo,
         FileHeader,
         MarkAt, Padded;
    var pos := SymPos(u) + 36 * i;
    SectionSymAt(file, SymPos(u), u, |u.parts|, i);
    var b := SectionSym(u.parts[i], i + 1);
    SectionSymSlices(u.parts[i], i + 1);
    ByteAt(file, pos, b, 17);
    HeadAt(file, pos, b, 8);
    ShortNameAt(file, pos, u.parts[i].name);
  }

  lemma {:induction false} MarkGrows(u: Unit, k: nat, n: nat)
    requires k <= n <= |u.symbols|
    ensures MarkAt(u, k) <= MarkAt(u, n)
  {
    if k < n { MarkGrows(u, k, n - 1); }
  }

  // Symbol k.
  lemma SymRead(u: Unit, file: seq<Byte>, k: nat)
    requires UnitOk(u) && Named(u) && Placed(u, file) && k < |u.symbols|
    ensures var pos := SymPos(u) + 36 * |u.parts| + 18 * k;
            pos + 18 <= |file| && file[pos + 17] == 0 && SymName(file, StringPos(u), pos) == Some(u.symbols[k].name)
  {
    hide At, SymBytes, CString, Get32, RawPos, RelPos, HeadersTo, DataTo, RelocsTo, SectionSymsTo, SymsTo, NamesTo,
         FileHeader,
         MarkAt, Padded, Le32;
    var pos, s, mark := SymPos(u) + 36 * |u.parts| + 18 * k, u.symbols[k], MarkAt(u, k);
    SymAt(file, SymPos(u) + 36 * |u.parts|, u, |u.symbols|, k);
    SymSlices(s, mark);
    ByteAt(file, pos, SymBytes(s, mark), 17);
    if LongName(s) {
      MarkGrows(u, k, |u.symbols|);
      Field32(file, pos, SymBytes(s, mark), 0, 0);
      Field32(file, pos, SymBytes(s, mark), 4, mark);
      NameAt(file, StringPos(u), u, |u.symbols|, k);
      StringAt(file, StringPos(u) + mark, s.name);
    } else {
      HeadAt(file, pos, SymBytes(s, mark), 8);
      ShortNameAt(file, pos, s.name);
    }
  }

  lemma {:induction false} SymsRead(u: Unit, file: seq<Byte>, k: nat)
    requires UnitOk(u) && Named(u) && Placed(u, file) && k <= |u.symbols|
    ensures Names(file, SymPos(u), SymCount(u), 2 * |u.parts| + k) == Some(SymNames(u, k))
    decreases |u.symbols| - k
  {
    hide Names, Placed, SymName, SymPos, UnitOk;
    NamesAt(file, SymPos(u), SymCount(u), 2 * |u.parts| + k);
    if k < |u.symbols| {
      SymRead(u, file, k);
      SymsRead(u, file, k + 1);
    }
  }

  lemma {:induction false} PartsRead(u: Unit, file: seq<Byte>, i: nat)
    requires UnitOk(u) && Named(u) && Placed(u, file) && i <= |u.parts|
    ensures Names(file, SymPos(u), SymCount(u), 2 * i) == Some(PartNames(u, i))
    decreases |u.parts| - i
  {
    hide Names, Placed, SymName, SymPos, UnitOk;
    if i == |u.parts| {
      SymsRead(u, file, 0);
    } else {
      NamesAt(file, SymPos(u), SymCount(u), 2 * i);
      SectionSymRead(u, file, i);
      PartsRead(u, file, i + 1);
    }
  }

  // ----- The file -----

  lemma FileSlices(u: Unit)
    ensures var h := FileHeader(u);
            && h[0..2] == Le16(MachineOf(u.target)) && h[2..4] == Le16(|u.parts|) && h[8..12] == Le32(SymPos(u))
            && h[12..16] == Le32(SymCount(u))
  {
    hide Le32, Le16, SymPos;
  }

  lemma FileFields(u: Unit, file: seq<Byte>)
    requires UnitOk(u) && At(file, 0, FileHeader(u))
    ensures |file| >= 20 && Get16(file, 0) == MachineOf(u.target) && Get16(file, 2) == |u.parts|
    ensures Get32(file, 8) == SymPos(u) && Get32(file, 12) == SymCount(u)
  {
    hide At, FileHeader, Le32, Le16, Get32, Get16, SymPos, MarkAt;
    FileSlices(u);
    ByteAt(file, 0, FileHeader(u), 0);
    Field16(file, 0, FileHeader(u), 0, MachineOf(u.target));
    Field16(file, 0, FileHeader(u), 2, |u.parts|);
    Field32(file, 0, FileHeader(u), 8, SymPos(u));
    Field32(file, 0, FileHeader(u), 12, SymCount(u));
  }

  // No section has too many relocations for its header.
  ghost predicate AllFit(u: Unit)
  {
    forall i :: 0 <= i < |u.parts| ==> !Overflows(u.parts[i])
  }

  // ... and no name is too long.
  ghost predicate Fits(u: Unit)
  {
    AllFit(u) && NamesFit(u, |u.symbols|)
  }

  // What is read back from a file, as far as it is written at all.
  lemma ImageRead(u: Unit)
    requires UnitOk(u) && Named(u) && FilledTo(u, |u.parts|)
    ensures ParseOf(Image(u)) == if AllFit(u) then Some(Meaning(u)) else None
  {
    hide Image, Placed, Names, SectionsTo, FilledTo, SymPos, Overflows, Get16, Get32, PartsMean, PartNames, MarkAt,
         StringPos;
    var file := Image(u);
    ImagePlaced(u);
    StartsWithHeader(u, file);
    FileFields(u, file);
    PartsRead(u, file, 0);
    SectionsRead(u, file, |u.parts|);
  }

  lemma StartsWithHeader(u: Unit, file: seq<Byte>)
    requires Named(u) && Placed(u, file)
    ensures At(file, 0, FileHeader(u))
  {
    hide At, FileHeader;
  }

  // The theorem: a module is written, and read back as what it is, if and only if no section has
  // 65535 relocations or more and no name 65535 bytes or more.
  lemma CoffRoundTrip(u: Unit)
    requires UnitOk(u)
    ensures Named(u)
    ensures Writes(u) && ParseOf(Image(u)) == Some(Meaning(u)) <==> Fits(u)
  {
    hide Image, ParseOf, Meaning;
    if FilledTo(u, |u.parts|) { ImageRead(u); }
  }

  // Each section's bytes, relocations and symbols are where the headers say.
  lemma WhereHeadersSay(u: Unit, i: nat)
    requires Named(u) && FilledTo(u, |u.parts|) && i < |u.parts|
    ensures var file, p := Image(u), u.parts[i];
            && At(file, RawPos(u, i), p.data) && At(file, RelPos(u, i), PartRelocs(p))
            && At(file, SymPos(u) + 36 * i, SectionSym(p, i + 1))
  {
    hide At, Image, RawPos, RelPos, HeadersTo, DataTo, RelocsTo, SectionSymsTo, SymsTo, NamesTo, FileHeader, MarkAt,
         FilledTo,
         SectionSym, PartRelocs;
    ImagePlaced(u);
    DataAt(Image(u), u, |u.parts|, i);
    PartRelocsAt(Image(u), u, |u.parts|, i);
    SectionSymAt(Image(u), SymPos(u), u, |u.parts|, i);
  }

  // Writing and reading, one after the other.
  method WriteAndRead(u: Unit) returns (r: Option<Object>)
    requires UnitOk(u)
    ensures r == if Fits(u) then Some(Meaning(u)) else None
  {
    hide Image, ParseOf, Meaning;
    assert Named(u);
    var file := WriteOutput(u);
    if file.None? {
      return None;
    }
    ImageRead(u);
    r := ParseCoff(file.value);
  }
}
