// The loop of src/tb/x64/x64_fast.h:2633-2886 over the blocks: where their code ends up, and what
// the bytes of its jumps decode to.

module X64Flow {
  import opened Predecessors
  import opened Bytes
  import opened X64Emit

  // ----- Decoding -----

  datatype Insn = JccRel(cc: nat, rel: int) | JmpRel(rel: int) | Undefined | Other

  // Jcc rel32, JMP rel32 and UD2.
  function Decode(code: seq<Byte>, pc: nat): (i: Insn)
    ensures i.JccRel? ==> i.cc < 16
  {
    if pc + 6 <= |code| && code[pc] == 0x0F && 0x80 <= code[pc + 1] < 0x90 then
      JccRel(code[pc + 1] - 0x80, Signed32(code[pc + 2..pc + 6]))
    else if pc + 5 <= |code| && code[pc] == 0xE9 then JmpRel(Signed32(code[pc + 1..pc + 5]))
    else if pc + 2 <= |code| && code[pc] == 0x0F && code[pc + 1] == 0x0B then Undefined
    else Other
  }

  // ----- The layout -----

  // Where the code of block b ends.
  function Stop(labels: seq<nat>, size: nat, b: nat): nat
  {
    if b + 1 < |labels| then labels[b + 1] else size
  }

  ghost predicate BlockLaid(blocks: seq<Block>, labels: seq<nat>, data: seq<Byte>, spots: seq<Spot>, b: nat)
    requires b < |blocks| == |labels|
  {
    var ps := Lower(blocks[b], b, |blocks|);
    PiecesAt(data, spots, labels[b], ps) && labels[b] + TotalSize(ps) == Stop(labels, |data|, b)
  }

  ghost predicate Laid(blocks: seq<Block>, labels: seq<nat>, data: seq<Byte>, spots: seq<Spot>)
  {
    && |labels| == |blocks|
    && (forall b: nat :: b < |blocks| ==> labels[b] <= |data| && BlockLaid(blocks, labels, data, spots, b))
  }

  // ----- Decoding the pieces -----

  ghost predicate Done(data: seq<Byte>, code: seq<Byte>, spots: seq<Spot>, labels: seq<nat>)
  {
    && Patched(data, code, spots, labels) && |code| < 0x8000_0000
    && forall b: nat :: b < |labels| ==> labels[b] <= |code|
  }

  // The finished code of a function, which follows `start` bytes; `data` is the code before patching.
  datatype Image = Image(blocks: seq<Block>, start: nat, labels: seq<nat>, data: seq<Byte>, code: seq<Byte>,
    spots: seq<Spot>)

  ghost predicate Built(i: Image)
  {
    && WellFormed(i.blocks) && Laid(i.blocks, i.labels, i.data, i.spots) && i.labels[0] == i.start
    && Done(i.data, i.code, i.spots, i.labels)
  }

  lemma DecodeSpot(data: seq<Byte>, code: seq<Byte>, spots: seq<Spot>, labels: seq<nat>, s: Spot)
    requires Done(data, code, spots, labels) && s in spots && (s.target.Some? ==> s.target.value < |labels|)
    ensures s.pos + 4 <= |code|
    ensures Signed32(code[s.pos..s.pos + 4]) == Destination(s, labels, |code|) - (s.pos + 4)
  {
    hide Le32, Signed32;
    var i :| 0 <= i < |spots| && spots[i] == s;
    assert SpotBytes(data, code, spots[i], labels, true);
    Displacement(Destination(s, labels, |code|) - (s.pos + 4));
  }

  lemma DecodeJcc(data: seq<Byte>, code: seq<Byte>, spots: seq<Spot>, labels: seq<nat>, at: nat, cc: nat, t: nat)
    requires Done(data, code, spots, labels) && PieceAt(data, spots, at, Jcc(cc, t)) && cc < 16 && t < |labels|
    ensures at + 6 <= |code| && Decode(code, at) == JccRel(cc, labels[t] - (at + 6))
  {
    hide Signed32, Covers;
    DecodeSpot(data, code, spots, labels, Spot(at + 2, Some(t)));
    assert code[at] == data[at] && code[at + 1] == data[at + 1];
  }

  lemma DecodeJmp(data: seq<Byte>, code: seq<Byte>, spots: seq<Spot>, labels: seq<nat>, at: nat, t: nat)
    requires Done(data, code, spots, labels) && PieceAt(data, spots, at, Jmp(t)) && t < |labels|
    ensures at + 5 <= |code| && Decode(code, at) == JmpRel(labels[t] - (at + 5))
  {
    hide Signed32, Covers;
    DecodeSpot(data, code, spots, labels, Spot(at + 1, Some(t)));
    assert code[at] == data[at];
  }

  lemma DecodeRet(data: seq<Byte>, code: seq<Byte>, spots: seq<Spot>, labels: seq<nat>, at: nat)
    requires Done(data, code, spots, labels) && PieceAt(data, spots, at, RetJmp)
    ensures at + 5 <= |code| && Decode(code, at) == JmpRel(|code| - (at + 5))
  {
    hide Signed32, Covers;
    DecodeSpot(data, code, spots, labels, Spot(at + 1, None));
    assert code[at] == data[at];
  }

  lemma DecodeUd2(data: seq<Byte>, code: seq<Byte>, spots: seq<Spot>, labels: seq<nat>, at: nat)
    requires Done(data, code, spots, labels) && PieceAt(data, spots, at, Ud2)
    ensures at + 2 <= |code| && Decode(code, at) == Undefined
  {
    hide Covers;
    assert code[at] == data[at] && code[at + 1] == data[at + 1];
  }

  lemma RawStays(data: seq<Byte>, code: seq<Byte>, spots: seq<Spot>, labels: seq<nat>, at: nat, bytes: seq<Byte>)
    requires Done(data, code, spots, labels) && PieceAt(data, spots, at, Raw(bytes))
    ensures at + |bytes| <= |code| && code[at..at + |bytes|] == bytes
  {
    hide Covers;
    forall i | 0 <= i < |bytes| ensures code[at..at + |bytes|][i] == bytes[i] {
      assert data[at..at + |bytes|][i] == bytes[i];
      assert code[at + i] == data[at + i];
    }
  }

  // ----- Lists of pieces -----

  lemma {:induction false} SizeJoin(ps: seq<Piece>, qs: seq<Piece>)
    ensures TotalSize(ps + qs) == TotalSize(ps) + TotalSize(qs)
  {
    if qs == [] {
      assert ps + qs == ps;
    } else {
      SizeJoin(ps, qs[..|qs| - 1]);
      assert (ps + qs)[..|ps + qs| - 1] == ps + qs[..|qs| - 1];
    }
  }

  // The k-th of a list of pieces stands after those before it.
  lemma {:induction false} PieceIn(data: seq<Byte>, spots: seq<Spot>, at: nat, ps: seq<Piece>, k: nat)
    requires PiecesAt(data, spots, at, ps) && k < |ps|
    ensures PieceAt(data, spots, at + TotalSize(ps[..k]), ps[k])
  {
    if k < |ps| - 1 {
      PieceIn(data, spots, at, ps[..|ps| - 1], k);
      assert ps[..|ps| - 1][..k] == ps[..k];
    }
  }

  lemma OneSize(p: Piece)
    ensures TotalSize([p]) == Size(p) && TotalSize([]) == 0
  {
    assert [p][..0] == [];
  }

  // ----- The whole function -----

  // The first n blocks are laid out, one after the other.
  ghost predicate LaidTo(blocks: seq<Block>, labels: seq<nat>, data: seq<Byte>, spots: seq<Spot>, n: nat)
    requires n <= |blocks| == |labels|
  {
    forall b: nat :: b < n ==> LaidOne(blocks, labels, data, spots, n, b)
  }

  ghost predicate LaidOne(blocks: seq<Block>, labels: seq<nat>, data: seq<Byte>, spots: seq<Spot>, n: nat, b: nat)
    requires b < n <= |blocks| == |labels|
  {
    var ps := Lower(blocks[b], b, |blocks|);
    && labels[b] <= |data| && PiecesAt(data, spots, labels[b], ps)
    && labels[b] + TotalSize(ps) == if b + 1 < n then labels[b + 1] else |data|
  }

  lemma LaidMore(blocks: seq<Block>, labels: seq<nat>, data: seq<Byte>, spots: seq<Spot>, data1: seq<Byte>,
                 spots1: seq<Spot>, n: nat)
    requires n < |blocks| == |labels| && LaidTo(blocks, labels, data, spots, n) && labels[n] == |data|
    requires Grown(data, spots, data1, spots1) && PiecesAt(data1, spots1, |data|, Lower(blocks[n], n, |blocks|))
    requires |data| + TotalSize(Lower(blocks[n], n, |blocks|)) == |data1|
    ensures LaidTo(blocks, labels, data1, spots1, n + 1)
  {
    hide PiecesAt, TotalSize, Lower;
    var m := n + 1;
    forall b: nat | b < n ensures LaidOne(blocks, labels, data1, spots1, m, b) {
      assert LaidOne(blocks, labels, data, spots, n, b);
      PiecesGrown(data, spots, data1, spots1, labels[b], Lower(blocks[b], b, |blocks|));
    }
  }

  lemma LaidSame(blocks: seq<Block>, labels: seq<nat>, labels1: seq<nat>, data: seq<Byte>, spots: seq<Spot>, n: nat)
    requires n <= |blocks| == |labels| == |labels1| && LaidTo(blocks, labels, data, spots, n)
    requires forall c :: 0 <= c < n ==> labels1[c] == labels[c]
    ensures LaidTo(blocks, labels1, data, spots, n)
  {
    hide PiecesAt, Lower;
    forall b: nat | b < n ensures LaidOne(blocks, labels1, data, spots, n, b) {
      assert LaidOne(blocks, labels, data, spots, n, b);
      assert labels1[b] == labels[b] && (b + 1 < n ==> labels1[b + 1] == labels[b + 1]);
    }
  }

  // The loop over the blocks, and the patches. `start` is the code before the first block.
  method Compile(blocks: seq<Block>, start: seq<Byte>)
    returns (code: seq<Byte>, labels: array<nat>, ghost data: seq<Byte>, ghost spots: seq<Spot>)
    requires X64Emit.WellFormed(blocks)
    ensures labels.Length == |blocks| && labels[0] == |start|
    ensures Patched(data, code, spots, labels[..]) && Laid(blocks, labels[..], data, spots)
    ensures |code| < 0x8000_0000 ==> Built(Image(blocks, |start|, labels[..], data, code, spots))
  {
    hide PiecesAt, TotalSize, Lower, Grown, SpotsOk, TargetsOk, LabelSpots, RetSpots, Patched;
    var e := new Emitter(start, |blocks|);
    labels := new nat[|blocks|];
    var bb: nat := 0;
    while bb < |blocks|
      invariant bb <= |blocks| && e.Valid() && e.count == |blocks|
      invariant LaidTo(blocks, labels[..], e.data, e.spots, bb)
      invariant if bb == 0 then e.data == start else labels[0] == |start|
    {
      ghost var before := labels[..];
      ghost var d, s := e.data, e.spots;
      labels[bb] := |e.data|;
      LaidSame(blocks, before, labels[..], d, s, bb);
      e.EmitBlock(blocks[bb], bb, |blocks|);
      LaidMore(blocks, labels[..], d, s, e.data, e.spots, bb);
      bb := bb + 1;
    }
    data, spots := e.data, e.spots;
    ghost var ls := labels[..];
    e.PatchAll(labels);
    assert labels[..] == ls;
    code := e.data;
    PatchedSize(data, code, spots, labels[..]);
    LaidDone(blocks, labels[..], data, spots);
  }

  lemma LaidDone(blocks: seq<Block>, labels: seq<nat>, data: seq<Byte>, spots: seq<Spot>)
    requires |labels| == |blocks| && LaidTo(blocks, labels, data, spots, |blocks|)
    ensures Laid(blocks, labels, data, spots)
  {
    hide PiecesAt, TotalSize, Lower;
    forall b: nat | b < |blocks| ensures labels[b] <= |data| && BlockLaid(blocks, labels, data, spots, b) {
      assert LaidOne(blocks, labels, data, spots, |blocks|, b);
    }
  }

  lemma PatchedSize(data: seq<Byte>, code: seq<Byte>, spots: seq<Spot>, labels: seq<nat>)
    requires Patched(data, code, spots, labels)
    ensures |code| == |data|
  {
  }
}
