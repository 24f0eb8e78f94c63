// src/tb/objects/coff_parse.c: an object file read back.

module CoffParse {
  import opened Bytes
  import opened Predecessors

  datatype RelocKind = ADDR32NB | ADDR32 | ADDR64 | REL32 | SECREL | SECTION

  datatype ObjReloc = ObjReloc(kind: RelocKind, addend: nat, symbol: nat, address: nat)

  datatype ObjSection = ObjSection(name: seq<Byte>, flags: nat, virtualAddress: nat, virtualSize: nat,
                                   data: seq<Byte>, relocs: seq<ObjReloc>)

  datatype Arch = X86_64 | AArch64 | Unknown

  // Symbols go by their names here.
  datatype Object = Object(arch: Arch, symbols: seq<seq<Byte>>, sections: seq<ObjSection>)

  // ----- Fields -----

  function Get16(file: seq<Byte>, pos: nat): nat
    requires pos + 2 <= |file|
  {
    U16(file[pos..pos + 2])
  }

  function Get32(file: seq<Byte>, pos: nat): nat
    requires pos + 4 <= |file|
  {
    U32(file[pos..pos + 4])
  }

  // The string that a zero ends.
  function CString(file: seq<Byte>, pos: nat): Option<seq<Byte>>
    decreases |file| - pos
  {
    if pos >= |file| then None
    else if file[pos] == 0 then Some([])
    else
      var rest := CString(file, pos + 1);
      if rest.None? then None else Some([file[pos]] + rest.value)
  }

  function ArchOf(machine: nat): Arch
  {
    if machine == 0x8664 then X86_64 else if machine == 0xAA64 then AArch64 else Unknown
  }

  // ----- Symbols -----

  function SymName(file: seq<Byte>, strings: nat, pos: nat): Option<seq<Byte>>
    requires pos + 18 <= |file|
  {
    if Get32(file, pos) == 0 then CString(file, strings + Get32(file, pos + 4)) else CString(file, pos)
  }

  function Cons<T>(x: Option<T>, rest: Option<seq<T>>): Option<seq<T>>
  {
    if x.None? || rest.None? then None else Some([x.value] + rest.value)
  }

  // The names from record id on.
  function Names(file: seq<Byte>, table: nat, count: nat, id: nat): Option<seq<seq<Byte>>>
    decreases if id < count then count - id else 0
  {
    if id >= count then Some([])
    else
      var pos := table + 18 * id;
      if pos + 18 > |file| then None
      else Cons(SymName(file, table + 18 * count, pos), Names(file, table, count, id + file[pos + 17] + 1))
  }

  // ----- Relocations -----

  function KindOf(t: nat): Option<RelocKind>
  {
    if t == 1 then Some(ADDR64)
    else if t == 2 then Some(ADDR32)
    else if t == 3 then Some(ADDR32NB)
    else if 4 <= t <= 9 then Some(REL32)
    else if t == 10 then Some(SECTION)
    else if t == 11 then Some(SECREL)
    else None
  }

  function RelocAt(file: seq<Byte>, pos: nat): Option<ObjReloc>
    requires pos + 10 <= |file|
  {
    var t := Get16(file, pos + 8);
    if KindOf(t).None? then None
    else Some(ObjReloc(KindOf(t).value, if 4 <= t <= 9 then t - 4 else 0, Get32(file, pos + 4), Get32(file, pos)))
  }

  function Snoc<T>(front: Option<seq<T>>, x: Option<T>): Option<seq<T>>
  {
    if front.None? || x.None? then None else Some(front.value + [x.value])
  }

  // The first j relocations of a list at pos.
  function RelocsAt(file: seq<Byte>, pos: nat, j: nat): Option<seq<ObjReloc>>
  {
    if j == 0 then Some([])
    else if pos + 10 * j > |file| then None
    else Snoc(RelocsAt(file, pos, j - 1), RelocAt(file, pos + 10 * (j - 1)))
  }

  // ----- Sections -----

  // None is a tb_todo(), an assert that fails, or a read outside the file.
  function SectionAt(file: seq<Byte>, pos: nat): Option<ObjSection>
  {
    if pos + 40 > |file| || Get32(file, pos) == 0 then None
    else
      var name := CString(file, pos);
      var relocs := RelocsAt(file, Get32(file, pos + 24), Get16(file, pos + 32));
      var size, raw := Get32(file, pos + 16), Get32(file, pos + 20);
      if name.None? || relocs.None? || (size > 0 && raw + size >= |file|) then None
      else
        Some(ObjSection(name.value, Get32(file, pos + 36), Get32(file, pos + 12), Get32(file, pos + 8),
                        if size > 0 then file[raw..raw + size] else [], relocs.value))
  }

  // The first i sections.
  function SectionsTo(file: seq<Byte>, i: nat): Option<seq<ObjSection>>
  {
    if i == 0 then Some([]) else Snoc(SectionsTo(file, i - 1), SectionAt(file, 20 + 40 * (i - 1)))
  }

  function ParseOf(file: seq<Byte>): Option<Object>
  {
    if |file| < 20 then None
    else
      var symbols := Names(file, Get32(file, 8), Get32(file, 12), 0);
      var sections := SectionsTo(file, Get16(file, 2));
      if symbols.None? || sections.None? then None
      else Some(Object(ArchOf(Get16(file, 0)), symbols.value, sections.value))
  }

  // ----- The parser -----

  // A zero len bytes on, and none before.
  lemma {:induction false} CStringIs(file: seq<Byte>, pos: nat, len: nat)
    requires pos + len < |file| && file[pos + len] == 0 && forall k :: pos <= k < pos + len ==> file[k] != 0
    ensures CString(file, pos) == Some(file[pos..pos + len])
    decreases len
  {
    if len > 0 {
      CStringIs(file, pos + 1, len - 1);
      assert file[pos..pos + len] == [file[pos]] + file[pos + 1..pos + len];
    }
  }

  lemma {:induction false} CStringRuns(file: seq<Byte>, pos: nat)
    requires forall k :: pos <= k < |file| ==> file[k] != 0
    ensures CString(file, pos).None?
    decreases |file| - pos
  {
    if pos < |file| { CStringRuns(file, pos + 1); }
  }

  // strlen
  method ReadString(file: seq<Byte>, pos: nat) returns (s: Option<seq<Byte>>)
    ensures s == CString(file, pos)
  {
    hide CString;
    var len: nat := 0;
    while pos + len < |file| && file[pos + len] != 0
      invariant forall k :: pos <= k < pos + len ==> k < |file| && file[k] != 0
      decreases |file| - (pos + len)
    {
      len := len + 1;
    }
    if pos + len >= |file| {
      CStringRuns(file, pos);
      return None;
    }
    CStringIs(file, pos, len);
    return Some(file[pos..pos + len]);
  }

  method ReadSymbols(file: seq<Byte>, table: nat, count: nat) returns (r: Option<seq<seq<Byte>>>)
    ensures r == Names(file, table, count, 0)
  {
    hide CString, Get32, Names;
    var names: seq<seq<Byte>> := [];
    var id: nat := 0;
    ThenNone(Names(file, table, count, 0));
    while id < count
      invariant Names(file, table, count, 0) == Then(names, Names(file, table, count, id))
      decreases if id < count then count - id else 0
    {
      var pos := table + 18 * id;
      NamesAt(file, table, count, id);
      if pos + 18 > |file| {
        return None;
      }
      var at := if Get32(file, pos) == 0 then table + 18 * count + Get32(file, pos + 4) else pos;
      var name := ReadString(file, at);
      if name.None? {
        return None;
      }
      ThenMore(names, name.value, Names(file, table, count, id + file[pos + 17] + 1));
      names := names + [name.value];
      id := id + file[pos + 17] + 1;
    }
    NamesAt(file, table, count, id);
    ThenNone(Some(names));
    return Some(names);
  }

  // One symbol.
  lemma NamesAt(file: seq<Byte>, table: nat, count: nat, id: nat)
    ensures id >= count ==> Names(file, table, count, id) == Some([])
    ensures id < count && table + 18 * id + 18 > |file| ==> Names(file, table, count, id).None?
    ensures id < count && table + 18 * id + 18 <= |file| ==>
              Names(file, table, count, id) == Cons(SymName(file, table + 18 * count, table + 18 * id),
                                                    Names(file, table, count, id + file[table + 18 * id + 17] + 1))
  {
  }

  lemma ThenNone<T>(rest: Option<seq<T>>)
    ensures Then([], rest) == rest && (rest.Some? ==> Then(rest.value, Some([])) == rest)
  {
    if rest.Some? { assert [] + rest.value == rest.value == rest.value + []; }
  }

  function Then<T>(front: seq<T>, rest: Option<seq<T>>): Option<seq<T>>
  {
    if rest.None? then None else Some(front + rest.value)
  }

  lemma ThenMore<T>(front: seq<T>, x: T, rest: Option<seq<T>>)
    ensures Then(front, Cons(Some(x), rest)) == Then(front + [x], rest)
  {
    if rest.Some? { assert front + ([x] + rest.value) == front + [x] + rest.value; }
  }

  method ReadRelocs(file: seq<Byte>, pos: nat, n: nat) returns (r: Option<seq<ObjReloc>>)
    ensures r == RelocsAt(file, pos, n)
  {
    var relocs: seq<ObjReloc> := [];
    var j: nat := 0;
    while j < n
      invariant j <= n && RelocsAt(file, pos, j) == Some(relocs)
    {
      if pos + 10 * (j + 1) > |file| || RelocAt(file, pos + 10 * j).None? {
        RelocsStop(file, pos, j + 1, n);
        return None;
      }
      relocs := relocs + [RelocAt(file, pos + 10 * j).value];
      j := j + 1;
    }
    return Some(relocs);
  }

  lemma {:induction false} RelocsStop(file: seq<Byte>, pos: nat, j: nat, n: nat)
    requires RelocsAt(file, pos, j).None? && j <= n
    ensures RelocsAt(file, pos, n).None?
  {
    if j < n { RelocsStop(file, pos, j, n - 1); }
  }

  method ReadSection(file: seq<Byte>, pos: nat) returns (r: Option<ObjSection>)
    ensures r == SectionAt(file, pos)
  {
    if pos + 40 > |file| || Get32(file, pos) == 0 {
      return None;
    }
    var name := ReadString(file, pos);
    var relocs := ReadRelocs(file, Get32(file, pos + 24), Get16(file, pos + 32));
    var size, raw := Get32(file, pos + 16), Get32(file, pos + 20);
    if name.None? || relocs.None? || (size > 0 && raw + size >= |file|) {
      return None;
    }
    return Some(ObjSection(name.value, Get32(file, pos + 36), Get32(file, pos + 12), Get32(file, pos + 8),
                           if size > 0 then file[raw..raw + size] else [], relocs.value));
  }

  lemma {:induction false} SectionsStop(file: seq<Byte>, i: nat, n: nat)
    requires SectionsTo(file, i).None? && i <= n
    ensures SectionsTo(file, n).None?
  {
    hide SectionAt;
    if i < n { SectionsStop(file, i, n - 1); }
  }

  // tb_object_parse_coff
  method ParseCoff(file: seq<Byte>) returns (r: Option<Object>)
    ensures r == ParseOf(file)
  {
    hide Names, SectionAt;
    if |file| < 20 {
      return None;
    }
    var symbols := ReadSymbols(file, Get32(file, 8), Get32(file, 12));
    if symbols.None? {
      return None;
    }
    var n := Get16(file, 2);
    var sections: seq<ObjSection> := [];
    var i: nat := 0;
    while i < n
      invariant i <= n && SectionsTo(file, i) == Some(sections)
    {
      var s := ReadSection(file, 20 + 40 * i);
      if s.None? {
        SectionsStop(file, i + 1, n);
        return None;
      }
      sections := sections + [s.value];
      i := i + 1;
    }
    return Some(Object(ArchOf(Get16(file, 0)), symbols.value, sections));
  }
}
