// src/tb/x64/x64_fast.h:2633-2886 and src/tb/x64/x64_emitter.h:273-294: the jumps of a function,
// from terminators to bytes. What a block computes is opaque code here.

module X64Emit {
  import opened Bytes
  import opened Finite
  import opened Predecessors
  import Words

  // The key of an entry is an int32_t.
  type Key = x: int | -0x8000_0000 <= x < 0x8000_0000

  datatype Case = Case(key: Key, target: nat, compare: seq<Byte>)

  // `compare` is the code of CMP key, imm for an entry of a switch whose key is not a constant. A
  // constant key is a word that holds as many bits as its type has.
  datatype End =
    | NoEnd
    | Unreachable
    | Trap
    | Ret
    | Goto(dest: nat)
    | If(cc: nat, ifTrue: nat, ifFalse: nat)
    | Switch(constKey: Option<Words.Word>, bits: nat, cases: seq<Case>, default: nat)

  // `body` is everything up to the first jump or compare of the terminator.
  datatype Block = Block(body: seq<Byte>, end: End)

  ghost predicate WellFormed(blocks: seq<Block>)
  {
    |blocks| > 0 && forall b :: 0 <= b < |blocks| ==> EndOk(blocks[b].end, |blocks|)
  }

  ghost predicate EndOk(e: End, n: nat)
  {
    match e
    case Goto(l) => l < n
    case If(cc, t, f) => cc < 16 && t < n && f < n
    case Switch(_, w, cs, d) => 1 <= w <= 64 && d < n && forall i :: 0 <= i < |cs| ==> cs[i].target < n
    case _ => true
  }

  // ----- Where the displacements are -----

  // The four bytes at `pos` are for the distance to a label, or to the end of the code.
  datatype Spot = Spot(pos: nat, target: Option<nat>)

  // In the order of the code, without overlap.
  ghost predicate SpotsOk(spots: seq<Spot>, size: nat)
  {
    && (forall i, j :: 0 <= i < j < |spots| ==> spots[i].pos + 4 <= spots[j].pos)
    && (forall i :: 0 <= i < |spots| ==> spots[i].pos + 4 <= size)
  }

  ghost predicate Covers(spots: seq<Spot>, q: nat)
  {
    exists i :: 0 <= i < |spots| && spots[i].pos <= q < spots[i].pos + 4
  }

  // ----- What a block's terminator becomes -----

  datatype Piece =
    | Raw(bytes: seq<Byte>)
    | Jcc(cc: nat, target: nat)
    | Jmp(target: nat)
    | RetJmp
    | Ud2

  function Size(p: Piece): nat
  {
    match p
    case Raw(bs) => |bs|
    case Jcc(_, _) => 6
    case Jmp(_) => 5
    case RetJmp => 5
    case Ud2 => 2
  }

  function TotalSize(ps: seq<Piece>): nat
  {
    if ps == [] then 0 else TotalSize(ps[..|ps| - 1]) + Size(ps[|ps| - 1])
  }

  // Piece p stands at position at of the code.
  ghost predicate PieceAt(data: seq<Byte>, spots: seq<Spot>, at: nat, p: Piece)
  {
    && at + Size(p) <= |data|
    && match p
       case Raw(bs) => data[at..at + |bs|] == bs && forall q: nat :: at <= q < at + |bs| ==> !Covers(spots, q)
       case Jcc(cc, t) =>
         data[at] == 0x0F && data[at + 1] == 0x80 + cc && !Covers(spots, at) && !Covers(spots, at + 1)
         && Spot(at + 2, Some(t)) in spots
       case Jmp(t) => data[at] == 0xE9 && !Covers(spots, at) && Spot(at + 1, Some(t)) in spots
       case RetJmp => data[at] == 0xE9 && !Covers(spots, at) && Spot(at + 1, None) in spots
       case Ud2 => data[at] == 0x0F && data[at + 1] == 0x0B && !Covers(spots, at) && !Covers(spots, at + 1)
  }

  ghost predicate PiecesAt(data: seq<Byte>, spots: seq<Spot>, at: nat, ps: seq<Piece>)
  {
    ps != [] ==>
      PiecesAt(data, spots, at, ps[..|ps| - 1]) && PieceAt(data, spots, at + TotalSize(ps[..|ps| - 1]), ps[|ps| - 1])
  }

  // More code has been added.
  ghost predicate Grown(data: seq<Byte>, spots: seq<Spot>, data1: seq<Byte>, spots1: seq<Spot>)
  {
    && |data| <= |data1| && data1[..|data|] == data
    && |spots| <= |spots1| && spots1[..|spots|] == spots
    && forall i :: |spots| <= i < |spots1| ==> spots1[i].pos >= |data|
  }

  lemma CoversGrown(data: seq<Byte>, spots: seq<Spot>, data1: seq<Byte>, spots1: seq<Spot>, q: nat)
    requires Grown(data, spots, data1, spots1) && q < |data|
    ensures Covers(spots1, q) <==> Covers(spots, q)
  {
    assert forall i :: 0 <= i < |spots| ==> spots1[i] == spots[i];
    if Covers(spots, q) {
      var i :| 0 <= i < |spots| && spots[i].pos <= q < spots[i].pos + 4;
      assert spots1[i] == spots[i];
    }
  }

  lemma PieceGrown(data: seq<Byte>, spots: seq<Spot>, data1: seq<Byte>, spots1: seq<Spot>, at: nat, p: Piece)
    requires Grown(data, spots, data1, spots1) && PieceAt(data, spots, at, p)
    ensures PieceAt(data1, spots1, at, p)
  {
    forall q: nat | q < |data| ensures data1[q] == data[q] && (Covers(spots1, q) <==> Covers(spots, q)) {
      CoversGrown(data, spots, data1, spots1, q);
      assert data1[..|data|][q] == data[q];
    }
    assert forall s :: s in spots ==> s in spots1[..|spots|];
    if p.Raw? {
      assert data1[at..at + |p.bytes|] == data[at..at + |p.bytes|];
    }
  }

  lemma {:induction false} PiecesGrown(data: seq<Byte>, spots: seq<Spot>, data1: seq<Byte>, spots1: seq<Spot>, at: nat,
                                       ps: seq<Piece>)
    requires Grown(data, spots, data1, spots1) && PiecesAt(data, spots, at, ps)
    ensures PiecesAt(data1, spots1, at, ps)
  {
    if ps != [] {
      PiecesGrown(data, spots, data1, spots1, at, ps[..|ps| - 1]);
      PieceGrown(data, spots, data1, spots1, at + TotalSize(ps[..|ps| - 1]), ps[|ps| - 1]);
    }
  }

  lemma GrownTrans(data: seq<Byte>, spots: seq<Spot>, data1: seq<Byte>, spots1: seq<Spot>, data2: seq<Byte>,
                   spots2: seq<Spot>)
    requires Grown(data, spots, data1, spots1) && Grown(data1, spots1, data2, spots2)
    ensures Grown(data, spots, data2, spots2)
  {
    assert data2[..|data|] == data2[..|data1|][..|data|];
    assert spots2[..|spots|] == spots2[..|spots1|][..|spots|];
    forall i | |spots| <= i < |spots2| ensures spots2[i].pos >= |data| {
      if i < |spots1| { assert spots2[..|spots1|][i] == spots1[i]; }
    }
  }

  // The bytes of a piece with an empty displacement, and its displacement.
  function Encode(p: Piece): (bs: seq<Byte>)
    requires p.Jcc? ==> p.cc < 16
    ensures |bs| == Size(p)
  {
    match p
    case Raw(bs) => bs
    case Jcc(cc, _) => [0x0F, 0x80 + cc, 0, 0, 0, 0]
    case Jmp(_) => [0xE9, 0, 0, 0, 0]
    case RetJmp => [0xE9, 0, 0, 0, 0]
    case Ud2 => [0x0F, 0x0B]
  }

  function SpotsOf(p: Piece, at: nat): seq<Spot>
  {
    match p
    case Jcc(_, t) => [Spot(at + 2, Some(t))]
    case Jmp(t) => [Spot(at + 1, Some(t))]
    case RetJmp => [Spot(at + 1, None)]
    case _ => []
  }

  lemma PieceAdded(data: seq<Byte>, spots: seq<Spot>, p: Piece)
    requires SpotsOk(spots, |data|) && (p.Jcc? ==> p.cc < 16)
    ensures var data1, spots1 := data + Encode(p), spots + SpotsOf(p, |data|);
            Grown(data, spots, data1, spots1) && SpotsOk(spots1, |data1|) && PieceAt(data1, spots1, |data|, p)
  {
    var data1, spots1 := data + Encode(p), spots + SpotsOf(p, |data|);
    forall q: nat | |data| <= q < (if p.Raw? || p.Ud2? then |data1| else if p.Jcc? then |data| + 2 else |data| + 1)
      ensures !Covers(spots1, q)
    {
    }
    assert forall i :: 0 <= i < |Encode(p)| ==> data1[|data| + i] == Encode(p)[i];
    if p.Jcc? { assert Encode(p)[0] == 0x0F && Encode(p)[1] == 0x80 + p.cc; }
    if p.Raw? { assert data1[|data|..|data| + |p.bytes|] == p.bytes; }
    if |SpotsOf(p, |data|)| > 0 { assert spots1[|spots|] == SpotsOf(p, |data|)[0]; }
  }

  // ----- Lowering -----

  function FlipCond(cc: nat): (r: nat)
    ensures cc < 16 ==> r < 16
  {
    if cc % 2 == 0 then cc + 1 else cc - 1
  }

  // The first entry with the key.
  function CaseTarget(cs: seq<Case>, default: nat, key: int): nat
  {
    if cs == [] then default
    else if cs[0].key == key then cs[0].target
    else CaseTarget(cs[1..], default, key)
  }

  // The first entry that equals a word of `width` bits: a key is sign-extended to these bits or cut
  // off. The search for a constant compares 64 bits.
  function WordTarget(cs: seq<Case>, default: nat, word: Words.Word, width: nat): nat
    requires width <= 64
  {
    if cs == [] then default
    else if Words.Low(cs[0].key, width) == word then cs[0].target
    else WordTarget(cs[1..], default, word, width)
  }

  // legalize_int: the width of the compares for a key of so many bits.
  function Legal(bits: nat): (w: nat)
    requires 1 <= bits <= 64
    ensures w in {8, 16, 32, 64} && bits <= w && (w > 8 ==> w < 2 * bits)
  {
    if bits <= 8 then 8 else if bits <= 16 then 16 else if bits <= 32 then 32 else 64
  }

  predicate InRange(k: int, bits: nat)
    requires 1 <= bits <= 64
  {
    var half: int := Words.Two(bits - 1);
    -half <= k < half
  }

  // The key of so many bits that a word holds.
  function SignedKey(word: nat, bits: nat): int
    requires 1 <= bits <= 64
  {
    if word < Words.Two(bits - 1) then word else word - Words.Two(bits)
  }

  // The key of so many bits that the compares, `width` bits wide, take an entry for.
  function TakenFor(e: Key, bits: nat, width: nat): Option<int>
    requires 1 <= bits <= width <= 64
  {
    var word := Words.Low(e, width);
    if word < Words.Two(bits) then Some(SignedKey(word, bits)) else None
  }

  // The key is in the word in `bits` bits, with zeros above.
  lemma KeyWord(k: int, bits: nat, word: nat)
    requires 1 <= bits <= 64 && InRange(k, bits)
    ensures Words.Low(k, bits) == word <==> word < Words.Two(bits) && SignedKey(word, bits) == k
  {
    Words.TwoHalf(bits);
    Words.LowIs(k, if k >= 0 then k else k + Words.Two(bits), bits);
  }

  lemma TakenIff(e: Key, k: int, bits: nat, width: nat)
    requires 1 <= bits <= width <= 64 && InRange(k, bits)
    ensures Words.Low(e, width) == Words.Low(k, bits) <==> TakenFor(e, bits, width) == Some(k)
  {
    hide InRange, SignedKey, Words.Low;
    KeyWord(k, bits, Words.Low(e, width));
  }

  // An entry in the range of the keys is taken for itself, unless it is negative and the word has
  // zeros where the compare expects its sign.
  lemma TakenInRange(e: Key, bits: nat, width: nat)
    requires 1 <= bits <= width <= 64 && InRange(e, bits)
    ensures TakenFor(e, bits, width) == if e >= 0 || bits == width then Some(e) else None
  {
    Words.TwoHalf(bits);
    Words.TwoHalf(width);
    if bits < width { Words.TwoMono(bits, width - 1); }
    Words.TwoMono(bits, width);
    Words.LowIs(e, if e >= 0 then e else e + Words.Two(width), width);
  }

  // One that is not in range may still be taken for a key: for what it leaves when it is cut off,
  // or when it is read as a number without a sign.
  lemma TakenOutside(e: Key, bits: nat, width: nat)
    requires 1 <= bits <= width <= 64 && !InRange(e, bits)
    ensures TakenFor(e, bits, width).Some? <==> Words.Low(e, width) < Words.Two(bits)
    ensures TakenFor(e, bits, width).Some? ==> InRange(TakenFor(e, bits, width).value, bits)
    ensures TakenFor(e, bits, width) != Some(e)
  {
    Words.TwoHalf(bits);
  }

  // No entry is taken for anything but itself, if no negative entry is beside a key with zeros above
  // and none is out of range; and only then.
  lemma TakenItself(e: Key, bits: nat, width: nat)
    requires 1 <= bits <= width <= 64
    ensures (forall k :: InRange(k, bits) ==> (TakenFor(e, bits, width) == Some(k) <==> e == k)) <==>
              if InRange(e, bits) then e >= 0 || bits == width else Words.Low(e, width) >= Words.Two(bits)
  {
    hide Words.Low;
    if InRange(e, bits) {
      TakenInRange(e, bits, width);
    } else {
      TakenOutside(e, bits, width);
    }
  }

  lemma TakenFits(e: Key, bits: nat, width: nat)
    requires 1 <= bits <= width <= 64
    ensures TakenFor(e, bits, width).Some? ==> InRange(TakenFor(e, bits, width).value, bits)
  {
    Words.TwoHalf(bits);
  }

  // The first entry that is taken for the key.
  function TakenTarget(cs: seq<Case>, default: nat, key: int, bits: nat, width: nat): nat
    requires 1 <= bits <= width <= 64
  {
    if cs == [] then default
    else if TakenFor(cs[0].key, bits, width) == Some(key) then cs[0].target
    else TakenTarget(cs[1..], default, key, bits, width)
  }

  // The theorem for the whole search, of any width.
  lemma {:induction false} TakenIs(cs: seq<Case>, default: nat, key: int, bits: nat, width: nat)
    requires 1 <= bits <= width <= 64 && InRange(key, bits)
    ensures WordTarget(cs, default, Words.Low(key, bits), width) == TakenTarget(cs, default, key, bits, width)
  {
    hide InRange, Words.Low, TakenFor;
    if cs != [] {
      TakenIff(cs[0].key, key, bits, width);
      TakenIs(cs[1..], default, key, bits, width);
    }
  }

  predicate Tried(e: Key, key: int, bits: nat, width: nat)
    requires 1 <= bits <= width <= 64
  {
    e == key || TakenFor(e, bits, width) == Some(key)
  }

  lemma {:induction false} Untried(cs: seq<Case>, default: nat, key: int, bits: nat, width: nat)
    requires 1 <= bits <= width <= 64
    requires forall j :: 0 <= j < |cs| ==> !Tried(cs[j].key, key, bits, width)
    ensures TakenTarget(cs, default, key, bits, width) == default == CaseTarget(cs, default, key)
  {
    hide TakenFor;
    if cs != [] { Untried(cs[1..], default, key, bits, width); }
  }

  // With 32 bits or more nothing is cut off: the search finds the entry of the number that the word
  // holds, which for a negative key with zeros above is not the key.
  lemma {:induction false} WideTarget(cs: seq<Case>, default: nat, k: int, bits: nat, width: nat)
    requires 1 <= bits <= width <= 64 && 32 <= width && InRange(k, bits)
    ensures WordTarget(cs, default, Words.Low(k, bits), width) ==
              CaseTarget(cs, default, if k >= 0 || bits == width then k else k + Words.Two(bits))
  {
    hide InRange, Words.Low;
    if cs != [] {
      WideMeets(cs[0].key, k, bits, width);
      WideTarget(cs[1..], default, k, bits, width);
    }
  }

  lemma WideMeets(e: Key, k: int, bits: nat, width: nat)
    requires 1 <= bits <= width <= 64 && 32 <= width && InRange(k, bits)
    ensures Words.Low(e, width) == Words.Low(k, bits) <==>
              e == if k >= 0 || bits == width then k else k + Words.Two(bits)
  {
    Words.TwoWord();
    Words.TwoHalf(32);
    Words.TwoHalf(bits);
    Words.TwoMono(32, width);
    if bits < width { Words.TwoMono(bits + 1, width); }
    Words.LowIs(k, if k >= 0 then k else k + Words.Two(bits), bits);
    Words.LowIs(e, if e >= 0 then e else e + Words.Two(width), width);
  }

  // The constant -1 of 32 bits does not find `case -1`.
  lemma MinusOneLost()
    ensures var cs := [Case(-1, 1, [])];
            CaseTarget(cs, 2, -1) == 1 && Words.Low(-1, 32) == 0xFFFF_FFFF && WordTarget(cs, 2, 0xFFFF_FFFF, 64) == 2
  {
    Words.TwoWord();
    Words.TwoHalf(32);
    var cs := [Case(-1, 1, [])];
    assert cs[1..] == [];
    Words.LowIs(-1, 0xFFFF_FFFF, 32);
    WideTarget(cs, 2, -1, 32, 64);
  }

  // Nor does the key -1 of 7 bits, which is compared in 8; and the key 1 of 8 bits finds `case 257`.
  lemma NarrowKeys()
    ensures Legal(7) == 8 && CaseTarget([Case(-1, 1, [])], 2, -1) == 1
    ensures WordTarget([Case(-1, 1, [])], 2, Words.Low(-1, 7), Legal(7)) == 2
    ensures Legal(8) == 8 && CaseTarget([Case(257, 1, [])], 2, 1) == 2
    ensures WordTarget([Case(257, 1, [])], 2, Words.Low(1, 8), Legal(8)) == 1
  {
    Words.TwoByte();
    Words.TwoHalf(8);
    Words.TwoHalf(7);
    assert [Case(-1, 1, [])][1..] == [] && [Case(257, 1, [])][1..] == [];
    Words.LowIs(-1, 127, 7);
    Words.LowIs(-1, 255, 8);
    Words.LowIs(1, 1, 8);
    Words.LowSplit(257, 8);
  }

  // CMP key, imm; JE target, for every case.
  function Chain(cs: seq<Case>): seq<Piece>
  {
    if cs == [] then []
    else Chain(cs[..|cs| - 1]) + [Raw(cs[|cs| - 1].compare), Jcc(4, cs[|cs| - 1].target)]
  }

  // The pieces of block bb of n.
  function Lower(blk: Block, bb: nat, n: nat): seq<Piece>
  {
    [Raw(blk.body)] +
    match blk.end
    case NoEnd => []
    case Unreachable => []
    case Trap => [Ud2]
    case Ret => if bb + 1 != n then [RetJmp] else []
    case Goto(l) => if bb + 1 != l then [Jmp(l)] else []
    case If(cc, t, f) =>
      if bb + 1 == f then [Jcc(cc, t)]
      else if bb + 1 == t then [Jcc(FlipCond(cc), f)]
      else [Jcc(cc, t), Jmp(f)]
    case Switch(key, _, cs, d) =>
      if key.Some? then [Jmp(WordTarget(cs, d, key.value, 64))] else Chain(cs) + [Jmp(d)]
  }

  // Control that goes on to the next block anyway takes no jump: none to the next block is emitted, a
  // branch with one side there takes one jump in place of two, and the last block no return jump.
  lemma FallsThrough(blk: Block, bb: nat, n: nat)
    ensures blk.end.Goto? ==> |Lower(blk, bb, n)| == if blk.end.dest == bb + 1 then 1 else 2
    ensures blk.end.If? ==>
              |Lower(blk, bb, n)| == if blk.end.ifTrue == bb + 1 || blk.end.ifFalse == bb + 1 then 2 else 3
    ensures blk.end.Goto? || blk.end.If? ==> Jmp(bb + 1) !in Lower(blk, bb, n)
    ensures blk.end.Ret? ==> (RetJmp in Lower(blk, bb, n) <==> bb + 1 != n)
  {
  }

  lemma PiecesPush(data: seq<Byte>, spots: seq<Spot>, data1: seq<Byte>, spots1: seq<Spot>, at: nat, ps: seq<Piece>,
                   p: Piece)
    requires PiecesAt(data, spots, at, ps) && at + TotalSize(ps) == |data|
    requires Grown(data, spots, data1, spots1) && PieceAt(data1, spots1, |data|, p)
    requires |data1| == |data| + Size(p)
    ensures PiecesAt(data1, spots1, at, ps + [p]) && at + TotalSize(ps + [p]) == |data1|
  {
    hide Grown, PieceAt, Size;
    PiecesGrown(data, spots, data1, spots1, at, ps);
    assert (ps + [p])[..|ps|] == ps;
  }

  // ----- The emitter -----

  datatype LabelPatch = LabelPatch(pos: nat, target: nat)

  ghost function LabelSpots(spots: seq<Spot>): seq<LabelPatch>
  {
    if spots == [] then []
    else
      var s := spots[|spots| - 1];
      LabelSpots(spots[..|spots| - 1]) + if s.target.Some? then [LabelPatch(s.pos, s.target.value)] else []
  }

  ghost function RetSpots(spots: seq<Spot>): seq<nat>
  {
    if spots == [] then []
    else
      var s := spots[|spots| - 1];
      RetSpots(spots[..|spots| - 1]) + if s.target.None? then [s.pos] else []
  }

  lemma SpotPushed(spots: seq<Spot>, s: Spot)
    ensures LabelSpots(spots + [s]) == LabelSpots(spots) +
              if s.target.Some? then [LabelPatch(s.pos, s.target.value)] else []
    ensures RetSpots(spots + [s]) == RetSpots(spots) + if s.target.None? then [s.pos] else []
  {
    assert (spots + [s])[..|spots|] == spots;
  }

  ghost predicate TargetsOk(spots: seq<Spot>, n: nat)
  {
    forall i :: 0 <= i < |spots| && spots[i].target.Some? ==> spots[i].target.value < n
  }

  // ----- Patching -----

  // Where the displacement at a spot leads.
  ghost function Destination(s: Spot, labels: seq<nat>, size: nat): nat
  {
    if s.target.None? then size else if s.target.value < |labels| then labels[s.target.value] else 0
  }

  // The bytes at the spots in `done` hold their distances; all other bytes are as they were.
  ghost predicate PatchedFor(data0: seq<Byte>, data: seq<Byte>, spots: seq<Spot>, labels: seq<nat>, done: set<nat>)
  {
    && |data| == |data0| && SpotsOk(spots, |data|)
    && (forall i :: 0 <= i < |spots| ==> SpotBytes(data0, data, spots[i], labels, spots[i].pos in done))
    && (forall q: nat :: q < |data| && !Covers(spots, q) ==> data[q] == data0[q])
  }

  ghost predicate SpotBytes(data0: seq<Byte>, data: seq<Byte>, s: Spot, labels: seq<nat>, patched: bool)
    requires |data| == |data0|
  {
    s.pos + 4 <= |data| &&
    data[s.pos..s.pos + 4] ==
      if patched then Le32(Destination(s, labels, |data|) - (s.pos + 4)) else data0[s.pos..s.pos + 4]
  }

  // All displacements are filled in and no other byte has changed.
  ghost predicate Patched(data0: seq<Byte>, data: seq<Byte>, spots: seq<Spot>, labels: seq<nat>)
  {
    && |data| == |data0|
    && (forall i :: 0 <= i < |spots| ==> SpotBytes(data0, data, spots[i], labels, true))
    && (forall q: nat :: q < |data| && !Covers(spots, q) ==> data[q] == data0[q])
  }

  lemma NothingPatched(data: seq<Byte>, spots: seq<Spot>, labels: seq<nat>)
    requires SpotsOk(spots, |data|)
    ensures PatchedFor(data, data, spots, labels, {})
  {
  }

  lemma PatchOne(data0: seq<Byte>, data: seq<Byte>, spots: seq<Spot>, labels: seq<nat>, done: set<nat>, k: nat)
    requires PatchedFor(data0, data, spots, labels, done) && k < |spots| && spots[k].pos + 4 <= |data|
    ensures var s := spots[k];
            PatchedFor(data0, data[..s.pos] + Le32(Destination(s, labels, |data|) - (s.pos + 4)) + data[s.pos + 4..],
                       spots, labels, done + {s.pos})
  {
    hide Le32, SpotsOk, SpotBytes, Covers;
    var s := spots[k];
    var v := Le32(Destination(s, labels, |data|) - (s.pos + 4));
    var data1 := data[..s.pos] + v + data[s.pos + 4..];
    forall i | 0 <= i < |spots| ensures SpotBytes(data0, data1, spots[i], labels, spots[i].pos in done + {s.pos}) {
      SpotAfter(data0, data, spots, labels, done, k, i);
    }
    forall q: nat | q < |data1| && !Covers(spots, q) ensures data1[q] == data0[q] {
      NotInSpot(spots, q, k);
    }
  }

  lemma NotInSpot(spots: seq<Spot>, q: nat, k: nat)
    requires !Covers(spots, q) && k < |spots|
    ensures !(spots[k].pos <= q < spots[k].pos + 4)
  {
  }

  lemma SpotAfter(data0: seq<Byte>, data: seq<Byte>, spots: seq<Spot>, labels: seq<nat>, done: set<nat>, k: nat, i: nat)
    requires |data| == |data0| && SpotsOk(spots, |data|) && k < |spots| && i < |spots| && spots[k].pos + 4 <= |data|
    requires SpotBytes(data0, data, spots[i], labels, spots[i].pos in done)
    ensures var s := spots[k];
            SpotBytes(data0, data[..s.pos] + Le32(Destination(s, labels, |data|) - (s.pos + 4)) + data[s.pos + 4..],
                      spots[i], labels, spots[i].pos in done + {s.pos})
  {
    hide Le32, SpotsOk, Destination;
    var s := spots[k];
    var v := Le32(Destination(s, labels, |data|) - (s.pos + 4));
    if i == k {
      OwnBytes(data, v, s.pos);
    } else {
      SpotApart(spots, |data|, i, k);
      OtherBytes(data, v, s.pos, spots[i].pos);
    }
  }

  lemma SpotApart(spots: seq<Spot>, size: nat, i: nat, k: nat)
    requires SpotsOk(spots, size) && i < |spots| && k < |spots| && i != k
    ensures spots[i].pos + 4 <= spots[k].pos || spots[k].pos + 4 <= spots[i].pos
    ensures spots[i].pos + 4 <= size && spots[i].pos != spots[k].pos
  {
  }

  lemma OwnBytes(data: seq<Byte>, v: seq<Byte>, p: nat)
    requires |v| == 4 && p + 4 <= |data|
    ensures (data[..p] + v + data[p + 4..])[p..p + 4] == v
  {
  }

  lemma OtherBytes(data: seq<Byte>, v: seq<Byte>, p: nat, q: nat)
    requires |v| == 4 && p + 4 <= |data| && q + 4 <= |data| && (q + 4 <= p || p + 4 <= q)
    ensures (data[..p] + v + data[p + 4..])[q..q + 4] == data[q..q + 4]
  {
  }

  lemma {:induction false} InRetSpots(spots: seq<Spot>, x: nat)
    ensures x in RetSpots(spots) <==> Spot(x, None) in spots
  {
    if spots != [] {
      InRetSpots(spots[..|spots| - 1], x);
      assert spots == spots[..|spots| - 1] + [spots[|spots| - 1]];
    }
  }

  lemma {:induction false} InLabelSpots(spots: seq<Spot>, p: LabelPatch)
    ensures p in LabelSpots(spots) <==> Spot(p.pos, Some(p.target)) in spots
  {
    if spots != [] {
      InLabelSpots(spots[..|spots| - 1], p);
      assert spots == spots[..|spots| - 1] + [spots[|spots| - 1]];
    }
  }

  lemma RetIs(spots: seq<Spot>, rets: seq<nat>, i: nat, size: nat) returns (k: nat)
    requires SpotsOk(spots, size) && rets == RetSpots(spots) && i < |rets|
    ensures k < |spots| && spots[k] == Spot(rets[i], None) && rets[i] + 4 <= size
  {
    InRetSpots(spots, rets[i]);
    k :| k < |spots| && spots[k] == Spot(rets[i], None);
  }

  lemma LabelIs(spots: seq<Spot>, patches: seq<LabelPatch>, i: nat, size: nat) returns (k: nat)
    requires SpotsOk(spots, size) && patches == LabelSpots(spots) && i < |patches|
    ensures k < |spots| && spots[k] == Spot(patches[i].pos, Some(patches[i].target)) && patches[i].pos + 4 <= size
  {
    InLabelSpots(spots, patches[i]);
    k :| k < |spots| && spots[k] == Spot(patches[i].pos, Some(patches[i].target));
  }

  ghost function Places(patches: seq<LabelPatch>): (s: set<nat>)
  {
    set i | 0 <= i < |patches| :: patches[i].pos
  }

  lemma PlacesPush(patches: seq<LabelPatch>, i: nat)
    requires i < |patches|
    ensures Places(patches[..i + 1]) == Places(patches[..i]) + {patches[i].pos}
  {
    var s, t := patches[..i], patches[..i + 1];
    forall x ensures x in Places(t) <==> x in Places(s) || x == patches[i].pos {
      if x in Places(s) {
        var j :| 0 <= j < |s| && s[j].pos == x;
        assert t[j].pos == x;
      }
      if x == patches[i].pos { assert t[i].pos == x; }
    }
  }

  lemma AllPatched(data0: seq<Byte>, data: seq<Byte>, spots: seq<Spot>, labels: seq<nat>, rets: seq<nat>,
                   patches: seq<LabelPatch>)
    requires PatchedFor(data0, data, spots, labels, Elems(rets) + Places(patches))
    requires rets == RetSpots(spots) && patches == LabelSpots(spots)
    ensures Patched(data0, data, spots, labels)
  {
    hide LabelSpots, RetSpots, Le32;
    forall i | 0 <= i < |spots| ensures SpotBytes(data0, data, spots[i], labels, true) {
      var s := spots[i];
      assert SpotBytes(data0, data, s, labels, s.pos in Elems(rets) + Places(patches));
      if s.target.None? {
        InRetSpots(spots, s.pos);
      } else {
        InLabelSpots(spots, LabelPatch(s.pos, s.target.value));
        var j :| 0 <= j < |patches| && patches[j] == LabelPatch(s.pos, s.target.value);
        assert patches[j].pos in Places(patches);
      }
    }
  }

  class Emitter {
    var data: seq<Byte>
    var labelPatches: seq<LabelPatch>
    var retPatches: seq<nat>
    ghost var spots: seq<Spot>

    const count: nat                   // of blocks

    ghost predicate Valid()
      reads this
    {
      && SpotsOk(spots, |data|) && TargetsOk(spots, count)
      && labelPatches == LabelSpots(spots) && retPatches == RetSpots(spots)
    }

    constructor (start: seq<Byte>, count: nat)
      ensures Valid() && data == start && spots == [] && this.count == count
    {
      data, labelPatches, retPatches, spots := start, [], [], [];
      this.count := count;
    }

    // The code since position at of the code is ps, and what came before is untouched.
    ghost predicate Holds(data0: seq<Byte>, spots0: seq<Spot>, ps: seq<Piece>)
      reads this
    {
      && Grown(data0, spots0, data, spots) && PiecesAt(data, spots, |data0|, ps)
      && |data0| + TotalSize(ps) == |data|
    }

    // Emitting piece p after ps.
    lemma Extends(data0: seq<Byte>, spots0: seq<Spot>, ps: seq<Piece>, p: Piece, data1: seq<Byte>, spots1: seq<Spot>)
      requires Holds(data0, spots0, ps) && SpotsOk(spots, |data|) && (p.Jcc? ==> p.cc < 16)
      requires data1 == data + Encode(p) && spots1 == spots + SpotsOf(p, |data|)
      ensures SpotsOk(spots1, |data1|) && Grown(data0, spots0, data1, spots1)
      ensures PiecesAt(data1, spots1, |data0|, ps + [p]) && |data0| + TotalSize(ps + [p]) == |data1|
    {
      PieceAdded(data, spots, p);
      PiecesPush(data, spots, data1, spots1, |data0|, ps, p);
      GrownTrans(data0, spots0, data, spots, data1, spots1);
    }

    method Raw(bytes: seq<Byte>, ghost data0: seq<Byte>, ghost spots0: seq<Spot>, ghost ps: seq<Piece>)
      requires Valid() && Holds(data0, spots0, ps)
      modifies this
      ensures Valid() && Holds(data0, spots0, ps + [Piece.Raw(bytes)])
    {
      hide SpotsOk, LabelSpots, RetSpots, Grown, PiecesAt, TotalSize;
      assert spots + [] == spots;
      Extends(data0, spots0, ps, Piece.Raw(bytes), data + bytes, spots);
      data := data + bytes;
    }

    // jcc
    method JumpIf(cc: nat, target: nat, ghost data0: seq<Byte>, ghost spots0: seq<Spot>, ghost ps: seq<Piece>)
      requires Valid() && cc < 16 && target < count && Holds(data0, spots0, ps)
      modifies this
      ensures Valid() && Holds(data0, spots0, ps + [Jcc(cc, target)])
    {
      hide SpotsOk, LabelSpots, RetSpots, Grown, PiecesAt, TotalSize;
      Extends(data0, spots0, ps, Jcc(cc, target), data + Encode(Jcc(cc, target)),
              spots + [Spot(|data| + 2, Some(target))]);
      SpotPushed(spots, Spot(|data| + 2, Some(target)));
      labelPatches := labelPatches + [LabelPatch(|data| + 2, target)];
      spots := spots + [Spot(|data| + 2, Some(target))];
      assert [0x0F, 0x80 + cc] + [0, 0, 0, 0] == Encode(Jcc(cc, target));
      data := data + ([0x0F, 0x80 + cc] + [0, 0, 0, 0]);
    }

    // jmp
    method Jump(target: nat, ghost data0: seq<Byte>, ghost spots0: seq<Spot>, ghost ps: seq<Piece>)
      requires Valid() && target < count && Holds(data0, spots0, ps)
      modifies this
      ensures Valid() && Holds(data0, spots0, ps + [Jmp(target)])
    {
      hide SpotsOk, LabelSpots, RetSpots, Grown, PiecesAt, TotalSize;
      Extends(data0, spots0, ps, Jmp(target), data + Encode(Jmp(target)), spots + [Spot(|data| + 1, Some(target))]);
      SpotPushed(spots, Spot(|data| + 1, Some(target)));
      labelPatches := labelPatches + [LabelPatch(|data| + 1, target)];
      spots := spots + [Spot(|data| + 1, Some(target))];
      assert [0xE9] + [0, 0, 0, 0] == Encode(Jmp(target));
      data := data + ([0xE9] + [0, 0, 0, 0]);
    }

    // ret_jmp
    method ReturnJump(ghost data0: seq<Byte>, ghost spots0: seq<Spot>, ghost ps: seq<Piece>)
      requires Valid() && Holds(data0, spots0, ps)
      modifies this
      ensures Valid() && Holds(data0, spots0, ps + [RetJmp])
    {
      hide SpotsOk, LabelSpots, RetSpots, Grown, PiecesAt, TotalSize;
      Extends(data0, spots0, ps, RetJmp, data + Encode(RetJmp), spots + [Spot(|data| + 1, None)]);
      SpotPushed(spots, Spot(|data| + 1, None));
      retPatches := retPatches + [|data| + 1];
      spots := spots + [Spot(|data| + 1, None)];
      assert [0xE9] + [0, 0, 0, 0] == Encode(RetJmp);
      data := data + ([0xE9] + [0, 0, 0, 0]);
    }

    method Trapping(ghost data0: seq<Byte>, ghost spots0: seq<Spot>, ghost ps: seq<Piece>)
      requires Valid() && Holds(data0, spots0, ps)
      modifies this
      ensures Valid() && Holds(data0, spots0, ps + [Ud2])
    {
      hide SpotsOk, LabelSpots, RetSpots, Grown, PiecesAt, TotalSize;
      assert spots + [] == spots;
      Extends(data0, spots0, ps, Ud2, data + Encode(Ud2), spots);
      data := data + [0x0F, 0x0B];
    }

    // PATCH4
    method Patch4(pos: nat, v: int)
      requires pos + 4 <= |data|
      modifies `data
      ensures data == old(data)[..pos] + Le32(v) + old(data)[pos + 4..]
    {
      data := data[..pos] + Le32(v) + data[pos + 4..];
    }

    // Resolve internal relocations.
    method PatchAll(labels: array<nat>)
      requires Valid() && labels.Length == count
      modifies `data
      ensures Patched(old(data), data, spots, labels[..])
    {
      ghost var data0 := data;
      hide SpotsOk, LabelSpots, RetSpots, PatchedFor;
      NothingPatched(data0, spots, labels[..]);
      assert Elems(retPatches[..0]) == {};
      var i: nat := 0;
      while i < |retPatches|
        invariant i <= |retPatches| && |data| == |data0|
        invariant PatchedFor(data0, data, spots, labels[..], Elems(retPatches[..i]))
      {
        ghost var k := RetIs(spots, retPatches, i, |data|);
        var pos := retPatches[i];
        PatchOne(data0, data, spots, labels[..], Elems(retPatches[..i]), k);
        Patch4(pos, |data| - (pos + 4));
        assert Elems(retPatches[..i]) + {pos} == Elems(retPatches[..i + 1]);
        i := i + 1;
      }
      assert retPatches[..i] == retPatches;
      i := 0;
      assert Elems(retPatches) + Places(labelPatches[..0]) == Elems(retPatches);
      while i < |labelPatches|
        invariant i <= |labelPatches| && |data| == |data0|
        invariant PatchedFor(data0, data, spots, labels[..], Elems(retPatches) + Places(labelPatches[..i]))
      {
        ghost var k := LabelIs(spots, labelPatches, i, |data|);
        var pos := labelPatches[i].pos;
        PatchOne(data0, data, spots, labels[..], Elems(retPatches) + Places(labelPatches[..i]), k);
        PlacesPush(labelPatches, i);
        var target: int := labels[labelPatches[i].target];
        Patch4(pos, target - (pos + 4));
        assert Elems(retPatches) + Places(labelPatches[..i]) + {pos} ==
               Elems(retPatches) + Places(labelPatches[..i + 1]);
        i := i + 1;
      }
      assert labelPatches[..i] == labelPatches;
      AllPatched(data0, data, spots, labels[..], retPatches, labelPatches);
    }

    // One turn of the loop over the blocks, but for its label.
    method EmitBlock(blk: Block, bb: nat, n: nat)
      requires Valid() && EndOk(blk.end, n) && n == count
      modifies this
      ensures Valid() && Holds(old(data), old(spots), Lower(blk, bb, n))
    {
      hide SpotsOk, LabelSpots, RetSpots, Grown, PiecesAt, TotalSize;
      ghost var d, s := data, spots;
      NothingYet(d, s);
      Raw(blk.body, d, s, []);
      assert [] + [Piece.Raw(blk.body)] == [Piece.Raw(blk.body)];
      ghost var ps := [Piece.Raw(blk.body)];
      assert ps + [] == ps;
      match blk.end {
        case Trap => Trapping(d, s, ps);
        case NoEnd =>
        case Unreachable =>
        case Ret =>
          if bb + 1 != n { ReturnJump(d, s, ps); }
        case Goto(l) =>
          if bb + 1 != l { Jump(l, d, s, ps); }
        case If(cc0, t, f) =>
          var cc, ifTrue, ifFalse := cc0, t, f;
          var hasFallthrough := bb + 1 == ifFalse;
          if !hasFallthrough && bb + 1 == ifTrue {
            ifTrue, ifFalse := ifFalse, ifTrue;
            cc := FlipCond(cc);
            hasFallthrough := true;
          }
          JumpIf(cc, ifTrue, d, s, ps);
          if !hasFallthrough { Jump(ifFalse, d, s, ps + [Jcc(cc, ifTrue)]); }
          assert ps + [Jcc(cc, ifTrue)] + [Jmp(ifFalse)] == ps + [Jcc(cc, ifTrue), Jmp(ifFalse)];
        case Switch(key, _, cs, d0) =>
          if key.Some? {
            var target := FindCase(cs, d0, key.value);
            WordTargetFits(cs, d0, key.value, 64, n);
            Jump(target, d, s, ps);
          } else {
            EmitChain(cs, d, s, ps);
            Jump(d0, d, s, ps + Chain(cs));
            assert ps + Chain(cs) + [Jmp(d0)] == ps + (Chain(cs) + [Jmp(d0)]);
          }
      }
    }

    lemma NothingYet(d: seq<Byte>, s: seq<Spot>)
      requires data == d && spots == s
      ensures Holds(d, s, [])
    {
      assert d[..|d|] == d && s[..|s|] == s;
    }

    // The chain of compares of a switch.
    method EmitChain(cs: seq<Case>, ghost d: seq<Byte>, ghost s: seq<Spot>, ghost ps: seq<Piece>)
      requires Valid() && Holds(d, s, ps) && forall i :: 0 <= i < |cs| ==> cs[i].target < count
      modifies this
      ensures Valid() && Holds(d, s, ps + Chain(cs))
    {
      hide SpotsOk, LabelSpots, RetSpots, Grown, PiecesAt, TotalSize;
      assert ps + Chain(cs[..0]) == ps;
      var i: nat := 0;
      while i < |cs|
        invariant i <= |cs| && Valid() && Holds(d, s, ps + Chain(cs[..i]))
      {
        Raw(cs[i].compare, d, s, ps + Chain(cs[..i]));
        JumpIf(4, cs[i].target, d, s, ps + Chain(cs[..i]) + [Piece.Raw(cs[i].compare)]);
        ChainPush(cs, i, ps);
        i := i + 1;
      }
      assert cs[..i] == cs;
    }
  }

  lemma ChainPush(cs: seq<Case>, i: nat, ps: seq<Piece>)
    requires i < |cs|
    ensures ps + Chain(cs[..i]) + [Raw(cs[i].compare)] + [Jcc(4, cs[i].target)] == ps + Chain(cs[..i + 1])
  {
    assert cs[..i + 1][..i] == cs[..i];
  }

  lemma {:induction false} WordTargetFits(cs: seq<Case>, default: nat, word: Words.Word, width: nat, n: nat)
    requires width <= 64
    requires default < n && forall i :: 0 <= i < |cs| ==> cs[i].target < n
    ensures WordTarget(cs, default, word, width) < n
  {
    if cs != [] && Words.Low(cs[0].key, width) != word { WordTargetFits(cs[1..], default, word, width, n); }
  }

  lemma {:induction false} CaseTargetFits(cs: seq<Case>, default: nat, key: int, n: nat)
    requires default < n && forall i :: 0 <= i < |cs| ==> cs[i].target < n
    ensures CaseTarget(cs, default, key) < n
  {
    if cs != [] && cs[0].key != key { CaseTargetFits(cs[1..], default, key, n); }
  }

  // The search for a constant key.
  method FindCase(cs: seq<Case>, default: nat, word: Words.Word) returns (target: nat)
    ensures target == WordTarget(cs, default, word, 64)
  {
    target := default;
    var i: nat := 0;
    while i < |cs|
      invariant i <= |cs| && target == default
      invariant WordTarget(cs, default, word, 64) == WordTarget(cs[i..], default, word, 64)
    {
      if Words.Low(cs[i].key, 64) == word {
        target := cs[i].target;
        break;
      }
      assert cs[i..][1..] == cs[i + 1..];
      i := i + 1;
    }
  }
}
