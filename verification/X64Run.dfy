// Running the code that src/tb/x64/x64_fast.h:2633-2886 lays out: from block to block it goes
// where the function it was compiled from goes.

module X64Run {
  import Cfg
  import Ir
  import Words
  import opened Bytes
  import opened X64Emit
  import opened X64Flow

  // ----- The straight code -----

  // Code without jumps: of a block, or of a compare.
  datatype Extent = Extent(pos: nat, size: nat)

  // The straight code among the pieces that stand from at on.
  function Extents(ps: seq<Piece>, at: nat): seq<Extent>
  {
    if ps == [] then []
    else
      var front, p := ps[..|ps| - 1], ps[|ps| - 1];
      Extents(front, at) + if p.Raw? && p.bytes != [] then [Extent(at + TotalSize(front), |p.bytes|)] else []
  }

  // The size of the straight code at pc.
  function SizeAt(es: seq<Extent>, pc: nat): nat
  {
    if es == [] then 0
    else
      var e := es[|es| - 1];
      if e.pos == pc && e.size > 0 then e.size else SizeAt(es[..|es| - 1], pc)
  }

  // The pieces of the first n blocks.
  function AllPieces(blocks: seq<Block>, n: nat): seq<Piece>
    requires n <= |blocks|
  {
    if n == 0 then [] else AllPieces(blocks, n - 1) + Lower(blocks[n - 1], n - 1, |blocks|)
  }

  function Straight(blocks: seq<Block>, start: nat): seq<Extent>
  {
    Extents(AllPieces(blocks, |blocks|), start)
  }

  lemma {:induction false} ExtentsJoin(ps: seq<Piece>, qs: seq<Piece>, at: nat)
    ensures Extents(ps + qs, at) == Extents(ps, at) + Extents(qs, at + TotalSize(ps))
  {
    if qs == [] {
      assert ps + qs == ps;
    } else {
      var n := |qs| - 1;
      assert (ps + qs)[..|ps + qs| - 1] == ps + qs[..n];
      ExtentsJoin(ps, qs[..n], at);
      SizeJoin(ps, qs[..n]);
    }
  }

  lemma {:induction false} SizeAtJoin(xs: seq<Extent>, ys: seq<Extent>, pc: nat)
    requires SizeAt(xs, pc) == 0 || SizeAt(ys, pc) == 0
    ensures SizeAt(xs + ys, pc) == SizeAt(xs, pc) + SizeAt(ys, pc)
  {
    if ys == [] {
      assert xs + ys == xs;
    } else {
      var n := |ys| - 1;
      assert (xs + ys)[..|xs + ys| - 1] == xs + ys[..n];
      if ys[n].pos != pc || ys[n].size == 0 { SizeAtJoin(xs, ys[..n], pc); }
    }
  }

  // All straight code lies among the pieces.
  lemma {:induction false} NoneOutside(ps: seq<Piece>, at: nat, pc: nat)
    requires pc < at || at + TotalSize(ps) <= pc
    ensures SizeAt(Extents(ps, at), pc) == 0
  {
    if ps != [] {
      var front, p := ps[..|ps| - 1], ps[|ps| - 1];
      NoneOutside(front, at, pc);
      var e := Extents(front, at);
      if p.Raw? && p.bytes != [] {
        var x := Extent(at + TotalSize(front), |p.bytes|);
        assert (e + [x])[..|e|] == e;
      } else {
        assert e + [] == e;
      }
    }
  }

  lemma OneExtent(p: Piece, at: nat)
    requires Size(p) > 0
    ensures SizeAt(Extents([p], at), at) == if p.Raw? then Size(p) else 0
  {
    assert [p][..0] == [];
  }

  // In a list of pieces.
  lemma SizeAtPiece(ps: seq<Piece>, at: nat, pre: seq<Piece>, p: Piece, post: seq<Piece>)
    requires ps == pre + ([p] + post) && Size(p) > 0
    ensures SizeAt(Extents(ps, at), at + TotalSize(pre)) == if p.Raw? then Size(p) else 0
  {
    hide Extents, SizeAt, TotalSize;
    var pc := at + TotalSize(pre);
    ExtentsJoin(pre, [p] + post, at);
    ExtentsJoin([p], post, pc);
    OneSize(p);
    NoneOutside(pre, at, pc);
    OneExtent(p, pc);
    NoneOutside(post, pc + Size(p), pc);
    SizeAtJoin(Extents([p], pc), Extents(post, pc + Size(p)), pc);
    SizeAtJoin(Extents(pre, at), Extents([p] + post, pc), pc);
  }

  // ----- Where a piece of a block stands -----

  function PiecesOf(i: Image, b: nat): seq<Piece>
    requires b < |i.blocks|
  {
    Lower(i.blocks[b], b, |i.blocks|)
  }

  function Pos(i: Image, b: nat, j: nat): nat
    requires b < |i.blocks| == |i.labels| && j <= |PiecesOf(i, b)|
  {
    i.labels[b] + TotalSize(PiecesOf(i, b)[..j])
  }

  lemma {:induction false} LabelIsSum(i: Image, b: nat)
    requires Built(i) && b < |i.blocks|
    ensures |i.labels| == |i.blocks| && i.labels[b] == i.start + TotalSize(AllPieces(i.blocks, b))
  {
    hide Lower, PiecesAt, Done;
    if b > 0 {
      LabelIsSum(i, b - 1);
      assert BlockLaid(i.blocks, i.labels, i.data, i.spots, b - 1);
      SizeJoin(AllPieces(i.blocks, b - 1), Lower(i.blocks[b - 1], b - 1, |i.blocks|));
    }
  }

  // All pieces are those before block b, its own, and those after it.
  lemma {:induction false} AllPiecesSplit(blocks: seq<Block>, b: nat, n: nat) returns (rest: seq<Piece>)
    requires b < n <= |blocks|
    ensures AllPieces(blocks, n) == AllPieces(blocks, b) + (Lower(blocks[b], b, |blocks|) + rest)
  {
    hide Lower;
    if n == b + 1 {
      rest := [];
      assert Lower(blocks[b], b, |blocks|) + rest == Lower(blocks[b], b, |blocks|);
    } else {
      var r := AllPiecesSplit(blocks, b, n - 1);
      rest := r + Lower(blocks[n - 1], n - 1, |blocks|);
      var l := Lower(blocks[b], b, |blocks|);
      assert AllPieces(blocks, b) + (l + r) + Lower(blocks[n - 1], n - 1, |blocks|) ==
             AllPieces(blocks, b) + (l + rest);
    }
  }

  // Piece j of block b: the machine finds straight code there exactly if the piece is.
  lemma PieceHere(i: Image, b: nat, j: nat)
    requires Built(i) && b < |i.blocks| && j < |PiecesOf(i, b)|
    ensures |i.labels| == |i.blocks| && PieceAt(i.data, i.spots, Pos(i, b, j), PiecesOf(i, b)[j])
    ensures Pos(i, b, j + 1) == Pos(i, b, j) + Size(PiecesOf(i, b)[j])
    ensures Size(PiecesOf(i, b)[j]) > 0 ==>
              SizeAt(Straight(i.blocks, i.start), Pos(i, b, j)) ==
                if PiecesOf(i, b)[j].Raw? then Size(PiecesOf(i, b)[j]) else 0
  {
    hide Lower, PieceAt, Extents, SizeAt, Done, AllPieces, Straight, Built, Size;
    PieceLaid(i, b, j);
    NextPos(i, b, j);
    if Size(PiecesOf(i, b)[j]) > 0 { FindsPiece(i, b, j); }
  }

  lemma PieceLaid(i: Image, b: nat, j: nat)
    requires Built(i) && b < |i.blocks| && j < |PiecesOf(i, b)|
    ensures |i.labels| == |i.blocks| && PieceAt(i.data, i.spots, Pos(i, b, j), PiecesOf(i, b)[j])
  {
    hide Lower, PieceAt, PiecesAt, Done, TotalSize, WellFormed;
    assert BlockLaid(i.blocks, i.labels, i.data, i.spots, b);
    PieceIn(i.data, i.spots, i.labels[b], PiecesOf(i, b), j);
  }

  lemma NextPos(i: Image, b: nat, j: nat)
    requires b < |i.blocks| == |i.labels| && j < |PiecesOf(i, b)|
    ensures Pos(i, b, j + 1) == Pos(i, b, j) + Size(PiecesOf(i, b)[j])
  {
    hide Lower, Size;
    var ps := PiecesOf(i, b);
    assert ps[..j + 1][..j] == ps[..j];
  }

  lemma FindsPiece(i: Image, b: nat, j: nat)
    requires Built(i) && b < |i.blocks| == |i.labels| && j < |PiecesOf(i, b)| && Size(PiecesOf(i, b)[j]) > 0
    ensures SizeAt(Straight(i.blocks, i.start), Pos(i, b, j)) ==
              if PiecesOf(i, b)[j].Raw? then Size(PiecesOf(i, b)[j]) else 0
  {
    hide Lower, PieceAt, Extents, SizeAt, Built, AllPieces, TotalSize, Size;
    var ps, p := PiecesOf(i, b), PiecesOf(i, b)[j];
    var rest := AllPiecesSplit(i.blocks, b, |i.blocks|);
    var before, all := AllPieces(i.blocks, b), AllPieces(i.blocks, |i.blocks|);
    SplitPieces(all, before, ps, rest, j);
    SizeAtPiece(all, i.start, before + ps[..j], p, ps[j + 1..] + rest);
    SizeJoin(before, ps[..j]);
    LabelIsSum(i, b);
  }

  lemma SplitPieces(all: seq<Piece>, before: seq<Piece>, ps: seq<Piece>, rest: seq<Piece>, j: nat)
    requires all == before + (ps + rest) && j < |ps|
    ensures all == (before + ps[..j]) + ([ps[j]] + (ps[j + 1..] + rest))
  {
  }

  lemma Ends(i: Image, b: nat)
    requires Built(i) && b < |i.blocks|
    ensures |i.labels| == |i.blocks| && Pos(i, b, 0) == i.labels[b]
    ensures Pos(i, b, |PiecesOf(i, b)|) == if b + 1 < |i.blocks| then i.labels[b + 1] else |i.code|
  {
    hide Lower, PiecesAt;
    var ps := PiecesOf(i, b);
    assert BlockLaid(i.blocks, i.labels, i.data, i.spots, b);
    assert ps[..|ps|] == ps && ps[..0] == [];
  }

  // ----- The machine -----

  // Pairs of conditions; an odd condition code is the negation of the one before it.
  type Flags = f: seq<bool> | |f| == 8 witness [false, false, false, false, false, false, false, false]

  predicate Met(flags: Flags, cc: nat)
    requires cc < 16
  {
    flags[cc / 2] != (cc % 2 == 1)
  }

  lemma Flipped(flags: Flags, cc: nat)
    requires cc < 16
    ensures FlipCond(cc) < 16 && (Met(flags, FlipCond(cc)) <==> !Met(flags, cc))
  {
  }

  // What straight code does, to the flags and to everything else; and the operand that the
  // compares of the switch of a block look at, in as many bits as they compare.
  datatype Cpu<!R> = Cpu(run: (seq<Byte>, R, Flags) -> (R, Flags), word: (nat, R) -> Words.Word)

  datatype Machine<R> = Running(pc: nat, regs: R, flags: Flags) | Trapped(regs: R) | Lost

  function JumpTo<R>(code: seq<Byte>, to: int, regs: R, flags: Flags): Machine<R>
  {
    if 0 <= to <= |code| then Running(to, regs, flags) else Lost
  }

  // One stretch of straight code or one jump. The machine stops at the end of the code.
  function Tick<R>(cpu: Cpu<R>, code: seq<Byte>, straight: seq<Extent>, m: Machine<R>): Machine<R>
  {
    if !m.Running? || m.pc >= |code| then m
    else
      var size := SizeAt(straight, m.pc);
      if size > 0 then
        if m.pc + size <= |code| then
          var (regs, flags) := cpu.run(code[m.pc..m.pc + size], m.regs, m.flags);
          Running(m.pc + size, regs, flags)
        else Lost
      else
        match Decode(code, m.pc)
        case JccRel(cc, rel) => JumpTo(code, if Met(m.flags, cc) then m.pc + 6 + rel else m.pc + 6, m.regs, m.flags)
        case JmpRel(rel) => JumpTo(code, m.pc + 5 + rel, m.regs, m.flags)
        case Undefined => Trapped(m.regs)
        case Other => Lost
  }

  function Ticks<R>(cpu: Cpu<R>, code: seq<Byte>, straight: seq<Extent>, m: Machine<R>, k: nat): Machine<R>
  {
    if k == 0 then m else Tick(cpu, code, straight, Ticks(cpu, code, straight, m, k - 1))
  }

  lemma {:induction false} TicksJoin<R>(cpu: Cpu<R>, code: seq<Byte>, straight: seq<Extent>, m: Machine<R>, j: nat,
                                        k: nat)
    ensures Ticks(cpu, code, straight, m, j + k) == Ticks(cpu, code, straight, Ticks(cpu, code, straight, m, j), k)
  {
    if k > 0 { TicksJoin(cpu, code, straight, m, j, k - 1); }
  }

  // ----- One piece -----

  function Go<R>(cpu: Cpu<R>, i: Image, m: Machine<R>, k: nat): Machine<R>
  {
    Ticks(cpu, i.code, Straight(i.blocks, i.start), m, k)
  }

  lemma GoOn<R>(cpu: Cpu<R>, i: Image, m: Machine<R>, j: nat, k: nat)
    ensures Go(cpu, i, m, j + k) == Go(cpu, i, Go(cpu, i, m, j), k)
  {
    TicksJoin(cpu, i.code, Straight(i.blocks, i.start), m, j, k);
  }

  // Straight code; none takes no time.
  function After<R>(cpu: Cpu<R>, bytes: seq<Byte>, regs: R, flags: Flags): (R, Flags)
  {
    if bytes == [] then (regs, flags) else cpu.run(bytes, regs, flags)
  }

  lemma RawRuns<R>(cpu: Cpu<R>, i: Image, b: nat, j: nat, bytes: seq<Byte>, regs: R, flags: Flags) returns (k: nat)
    requires Built(i) && b < |i.blocks| == |i.labels| && j < |PiecesOf(i, b)| && PiecesOf(i, b)[j] == Raw(bytes)
    ensures var (r, f) := After(cpu, bytes, regs, flags);
            Go(cpu, i, Running(Pos(i, b, j), regs, flags), k) == Running(Pos(i, b, j + 1), r, f)
  {
    hide Lower, PieceAt, Straight, Built, SizeAt, Pos, Decode;
    PieceHere(i, b, j);
    if bytes == [] {
      k := 0;
    } else {
      k := 1;
      BuiltDone(i);
      RawStays(i.data, i.code, i.spots, i.labels, Pos(i, b, j), bytes);
      var m := Running(Pos(i, b, j), regs, flags);
      assert Go(cpu, i, m, 0) == m;
    }
  }

  lemma BuiltDone(i: Image)
    requires Built(i)
    ensures Done(i.data, i.code, i.spots, i.labels) && |i.labels| == |i.blocks|
    ensures forall b: nat :: b < |i.labels| ==> i.labels[b] <= |i.code|
  {
  }

  lemma JccRuns<R>(cpu: Cpu<R>, i: Image, b: nat, j: nat, cc: nat, t: nat, regs: R, flags: Flags)
    requires Built(i) && b < |i.blocks| == |i.labels| && j < |PiecesOf(i, b)| && PiecesOf(i, b)[j] == Jcc(cc, t)
    requires cc < 16 && t < |i.blocks| && Pos(i, b, j + 1) <= |i.code|
    ensures Go(cpu, i, Running(Pos(i, b, j), regs, flags), 1) ==
              Running(if Met(flags, cc) then i.labels[t] else Pos(i, b, j + 1), regs, flags)
  {
    hide Lower, PieceAt, Straight, Built, SizeAt, Pos, Decode, Met;
    PieceHere(i, b, j);
    BuiltDone(i);
    DecodeJcc(i.data, i.code, i.spots, i.labels, Pos(i, b, j), cc, t);
    var m := Running(Pos(i, b, j), regs, flags);
    assert Go(cpu, i, m, 0) == m;
  }

  lemma JmpRuns<R>(cpu: Cpu<R>, i: Image, b: nat, j: nat, t: nat, regs: R, flags: Flags)
    requires Built(i) && b < |i.blocks| == |i.labels| && j < |PiecesOf(i, b)| && PiecesOf(i, b)[j] == Jmp(t)
    requires t < |i.blocks|
    ensures Go(cpu, i, Running(Pos(i, b, j), regs, flags), 1) == Running(i.labels[t], regs, flags)
  {
    hide Lower, PieceAt, Straight, Built, SizeAt, Pos, Decode, Met;
    PieceHere(i, b, j);
    BuiltDone(i);
    DecodeJmp(i.data, i.code, i.spots, i.labels, Pos(i, b, j), t);
    var m := Running(Pos(i, b, j), regs, flags);
    assert Go(cpu, i, m, 0) == m;
  }

  lemma RetRuns<R>(cpu: Cpu<R>, i: Image, b: nat, j: nat, regs: R, flags: Flags)
    requires Built(i) && b < |i.blocks| == |i.labels| && j < |PiecesOf(i, b)| && PiecesOf(i, b)[j] == RetJmp
    ensures Go(cpu, i, Running(Pos(i, b, j), regs, flags), 1) == Running(|i.code|, regs, flags)
  {
    hide Lower, PieceAt, Straight, Built, SizeAt, Pos, Decode, Met;
    PieceHere(i, b, j);
    BuiltDone(i);
    DecodeRet(i.data, i.code, i.spots, i.labels, Pos(i, b, j));
    var m := Running(Pos(i, b, j), regs, flags);
    assert Go(cpu, i, m, 0) == m;
  }

  lemma TrapRuns<R>(cpu: Cpu<R>, i: Image, b: nat, j: nat, regs: R, flags: Flags)
    requires Built(i) && b < |i.blocks| == |i.labels| && j < |PiecesOf(i, b)| && PiecesOf(i, b)[j] == Ud2
    ensures Go(cpu, i, Running(Pos(i, b, j), regs, flags), 1) == Trapped(regs)
  {
    hide Lower, PieceAt, Straight, Built, SizeAt, Pos, Decode, Met;
    PieceHere(i, b, j);
    BuiltDone(i);
    DecodeUd2(i.data, i.code, i.spots, i.labels, Pos(i, b, j));
    var m := Running(Pos(i, b, j), regs, flags);
    assert Go(cpu, i, m, 0) == m;
  }

  // ----- The chain of compares -----

  // A compare sets the zero flag, condition pair 2, to whether the operand is the key in as many
  // bits; it may do anything to the other flags, and nothing to the rest.
  ghost predicate CompareSets<R(!new)>(cpu: Cpu<R>, b: nat, c: Case, width: nat)
    requires width <= 64
  {
    c.compare != [] &&
    forall regs, flags ::
      var (r, f) := cpu.run(c.compare, regs, flags);
      r == regs && (f[2] <==> Words.Low(c.key, width) == cpu.word(b, regs))
  }

  ghost predicate ComparesSet<R(!new)>(cpu: Cpu<R>, b: nat, cs: seq<Case>, width: nat)
    requires width <= 64
  {
    forall c :: c in cs ==> CompareSets(cpu, b, c, width)
  }

  lemma {:induction false} ChainIndex(cs: seq<Case>, k: nat)
    requires k < |cs|
    ensures |Chain(cs)| == 2 * |cs|
    ensures Chain(cs)[2 * k] == Raw(cs[k].compare) && Chain(cs)[2 * k + 1] == Jcc(4, cs[k].target)
  {
    if |cs| > 1 { ChainIndex(cs[..|cs| - 1], if k < |cs| - 1 then k else 0); }
  }

  // From the k-th compare of the chain.
  lemma {:induction false} ChainRuns<R(!new)>(cpu: Cpu<R>, i: Image, b: nat, cs: seq<Case>, d: nat, width: nat, k: nat,
                                              regs: R, flags: Flags)
    returns (n: nat, f: Flags)
    requires Built(i) && b < |i.blocks| == |i.labels| && d < |i.blocks| && k <= |cs|
    requires width <= 64 && ComparesSet(cpu, b, cs, width)
    requires forall j :: 0 <= j < |cs| ==> cs[j].target < |i.blocks|
    requires PiecesOf(i, b)[1..] == Chain(cs) + [Jmp(d)] && |PiecesOf(i, b)| > 0 && |Chain(cs)| == 2 * |cs|
    ensures var t := WordTarget(cs[k..], d, cpu.word(b, regs), width);
            t < |i.blocks| && Go(cpu, i, Running(Pos(i, b, 1 + 2 * k), regs, flags), n) == Running(i.labels[t], regs, f)
    decreases |cs| - k
  {
    hide PiecesOf, Pos, Built, Go, Chain;
    var ps, m := PiecesOf(i, b), Running(Pos(i, b, 1 + 2 * k), regs, flags);
    if k == |cs| {
      assert ps[1 + 2 * k] == ps[1..][2 * k] == Jmp(d);
      JmpRuns(cpu, i, b, 1 + 2 * k, d, regs, flags);
      n, f := 1, flags;
    } else {
      ChainIndex(cs, k);
      assert ps[1 + 2 * k] == ps[1..][2 * k] && ps[2 + 2 * k] == ps[1..][2 * k + 1];
      n, f := CompareRuns(cpu, i, b, cs[k], width, 1 + 2 * k, regs, flags);
      assert cs[k..][0] == cs[k] && cs[k..][1..] == cs[k + 1..];
      if Words.Low(cs[k].key, width) != cpu.word(b, regs) {
        var n1, f1 := ChainRuns(cpu, i, b, cs, d, width, k + 1, regs, f);
        GoOn(cpu, i, m, n, n1);
        n, f := n + n1, f1;
      }
    }
  }

  lemma CompareRuns<R(!new)>(cpu: Cpu<R>, i: Image, b: nat, c: Case, width: nat, j: nat, regs: R, flags: Flags)
    returns (n: nat, f: Flags)
    requires Built(i) && b < |i.blocks| == |i.labels| && c.target < |i.blocks|
    requires width <= 64 && CompareSets(cpu, b, c, width)
    requires j + 1 < |PiecesOf(i, b)| && PiecesOf(i, b)[j] == Raw(c.compare)
    requires PiecesOf(i, b)[j + 1] == Jcc(4, c.target)
    ensures Go(cpu, i, Running(Pos(i, b, j), regs, flags), n) ==
              Running(if Words.Low(c.key, width) == cpu.word(b, regs) then i.labels[c.target] else Pos(i, b, j + 2),
                      regs, f)
  {
    hide PiecesOf, Pos, Built, Go;
    var k := RawRuns(cpu, i, b, j, c.compare, regs, flags);
    f := cpu.run(c.compare, regs, flags).1;
    WithinCode(i, b, j + 1);
    JccRuns(cpu, i, b, j + 1, 4, c.target, regs, f);
    GoOn(cpu, i, Running(Pos(i, b, j), regs, flags), k, 1);
    n := k + 1;
  }

  lemma WithinCode(i: Image, b: nat, j: nat)
    requires Built(i) && b < |i.blocks| == |i.labels| && j < |PiecesOf(i, b)|
    ensures Pos(i, b, j + 1) <= |i.code|
  {
    hide PiecesOf, Pos;
    PieceHere(i, b, j);
  }

  // ----- One block -----

  function LabelOf(i: Image, t: nat): nat
  {
    if t < |i.labels| then i.labels[t] else 0
  }

  // Where control is after the terminator of block b, given what the block's own code left.
  function Exit<R>(cpu: Cpu<R>, i: Image, b: nat, regs: R, flags: Flags, left: Flags): Machine<R>
    requires b < |i.blocks|
  {
    match i.blocks[b].end
    case NoEnd => Lost
    case Unreachable => Lost
    case Trap => Trapped(regs)
    case Ret => Running(|i.code|, regs, left)
    case Goto(l) => Running(LabelOf(i, l), regs, left)
    case If(cc, t, f) => Running(LabelOf(i, if cc < 16 && Met(flags, cc) then t else f), regs, left)
    case Switch(k, bits, cs, d) =>
      var to := if k.Some? then WordTarget(cs, d, k.value, 64)
                else if 1 <= bits <= 64 then WordTarget(cs, d, cpu.word(b, regs), Legal(bits)) else d;
      Running(LabelOf(i, to), regs, left)
  }

  ghost predicate SwitchReady<R(!new)>(cpu: Cpu<R>, i: Image, b: nat)
    requires b < |i.blocks|
  {
    var e := i.blocks[b].end;
    e.Switch? && e.constKey.None? ==> 1 <= e.bits <= 64 && ComparesSet(cpu, b, e.cases, Legal(e.bits))
  }

  // From the label of a block to what its terminator names.
  lemma BlockRuns<R(!new)>(cpu: Cpu<R>, i: Image, b: nat, regs: R, flags: Flags) returns (k: nat, left: Flags)
    requires Built(i) && b < |i.blocks| == |i.labels| && SwitchReady(cpu, i, b)
    requires !i.blocks[b].end.NoEnd? && !i.blocks[b].end.Unreachable?
    ensures var (r, f) := After(cpu, i.blocks[b].body, regs, flags);
            Go(cpu, i, Running(i.labels[b], regs, flags), k) == Exit(cpu, i, b, r, f, left)
  {
    hide PiecesOf, Pos, Built, Go, Exit;
    Ends(i, b);
    BodyFirst(i, b);
    var k0 := RawRuns(cpu, i, b, 0, i.blocks[b].body, regs, flags);
    var (r, f) := After(cpu, i.blocks[b].body, regs, flags);
    var k1;
    k1, left := EndRuns(cpu, i, b, r, f);
    GoOn(cpu, i, Running(i.labels[b], regs, flags), k0, k1);
    k := k0 + k1;
  }

  lemma BodyFirst(i: Image, b: nat)
    requires b < |i.blocks|
    ensures |PiecesOf(i, b)| > 0 && PiecesOf(i, b)[0] == Raw(i.blocks[b].body)
  {
  }

  lemma BlocksFit(i: Image, b: nat)
    requires Built(i) && b < |i.blocks|
    ensures |i.labels| == |i.blocks| && EndOk(i.blocks[b].end, |i.blocks|)
  {
  }

  lemma EndRuns<R(!new)>(cpu: Cpu<R>, i: Image, b: nat, regs: R, flags: Flags) returns (k: nat, left: Flags)
    requires Built(i) && b < |i.blocks| == |i.labels| && SwitchReady(cpu, i, b) && |PiecesOf(i, b)| > 0
    requires !i.blocks[b].end.NoEnd? && !i.blocks[b].end.Unreachable?
    ensures Go(cpu, i, Running(Pos(i, b, 1), regs, flags), k) == Exit(cpu, i, b, regs, flags, left)
  {
    hide Built, Go, Pos;
    BlocksFit(i, b);
    Ends(i, b);
    GoNone(cpu, i, Running(Pos(i, b, 1), regs, flags));
    left := flags;
    match i.blocks[b].end {
      case Trap =>
        k := 1;
        TrapRuns(cpu, i, b, 1, regs, flags);
      case Ret =>
        k := if b + 1 == |i.blocks| then 0 else 1;
        if k == 1 { RetRuns(cpu, i, b, 1, regs, flags); }
      case Goto(l) =>
        k := if b + 1 == l then 0 else 1;
        if k == 1 { JmpRuns(cpu, i, b, 1, l, regs, flags); }
      case If(cc, t, f) => k := IfRuns(cpu, i, b, cc, t, f, regs, flags);
      case Switch(_, _, _, _) => k, left := SwitchRuns(cpu, i, b, regs, flags);
    }
  }

  lemma GoNone<R>(cpu: Cpu<R>, i: Image, m: Machine<R>)
    ensures Go(cpu, i, m, 0) == m
  {
  }

  lemma IfRuns<R>(cpu: Cpu<R>, i: Image, b: nat, cc: nat, t: nat, f: nat, regs: R, flags: Flags) returns (k: nat)
    requires Built(i) && b < |i.blocks| == |i.labels| && i.blocks[b].end == If(cc, t, f) && |PiecesOf(i, b)| > 0
    requires cc < 16 && t < |i.blocks| && f < |i.blocks|
    ensures Go(cpu, i, Running(Pos(i, b, 1), regs, flags), k) ==
              Running(i.labels[if Met(flags, cc) then t else f], regs, flags)
  {
    hide Built, Go, Pos, Met;
    Ends(i, b);
    Flipped(flags, cc);
    WithinCode(i, b, 1);
    if b + 1 == f {
      k := 1;
      JccRuns(cpu, i, b, 1, cc, t, regs, flags);
    } else if b + 1 == t {
      k := 1;
      JccRuns(cpu, i, b, 1, FlipCond(cc), f, regs, flags);
    } else {
      JccRuns(cpu, i, b, 1, cc, t, regs, flags);
      if Met(flags, cc) {
        k := 1;
      } else {
        k := 2;
        JmpRuns(cpu, i, b, 2, f, regs, flags);
        GoOn(cpu, i, Running(Pos(i, b, 1), regs, flags), 1, 1);
      }
    }
  }

  lemma SwitchRuns<R(!new)>(cpu: Cpu<R>, i: Image, b: nat, regs: R, flags: Flags) returns (k: nat, left: Flags)
    requires Built(i) && b < |i.blocks| == |i.labels| && i.blocks[b].end.Switch? && SwitchReady(cpu, i, b)
    requires |PiecesOf(i, b)| > 0
    ensures Go(cpu, i, Running(Pos(i, b, 1), regs, flags), k) == Exit(cpu, i, b, regs, flags, left)
  {
    hide Built, Go, Pos, Chain, CaseTarget, WordTarget, ComparesSet;
    BlocksFit(i, b);
    var e := i.blocks[b].end;
    if e.constKey.Some? {
      var t := WordTarget(e.cases, e.default, e.constKey.value, 64);
      WordTargetFits(e.cases, e.default, e.constKey.value, 64, |i.blocks|);
      JmpRuns(cpu, i, b, 1, t, regs, flags);
      k, left := 1, flags;
    } else {
      assert PiecesOf(i, b)[1..] == Chain(e.cases) + [Jmp(e.default)];
      ChainLength(e.cases);
      assert e.cases[0..] == e.cases;
      k, left := ChainRuns(cpu, i, b, e.cases, e.default, Legal(e.bits), 0, regs, flags);
    }
  }

  lemma ChainLength(cs: seq<Case>)
    ensures |Chain(cs)| == 2 * |cs|
  {
    if cs != [] { ChainIndex(cs, 0); }
  }

  // From a block that ends in a switch on a constant key: the entry of the key, if it is not negative
  // or has 64 bits, and else that of the number it is without a sign.
  lemma ConstSwitchRuns<R(!new)>(cpu: Cpu<R>, i: Image, b: nat, key: int, regs: R, flags: Flags)
    returns (k: nat, left: Flags)
    requires Built(i) && b < |i.blocks| == |i.labels| && i.blocks[b].end.Switch? && i.blocks[b].end.constKey.Some?
    requires ConstHolds(i.blocks[b].end, key)
    ensures var e := i.blocks[b].end;
            var t := CaseTarget(e.cases, e.default, if key >= 0 || e.bits == 64 then key else key + Words.Two(e.bits));
            Go(cpu, i, Running(i.labels[b], regs, flags), k) ==
              Running(LabelOf(i, t), After(cpu, i.blocks[b].body, regs, flags).0, left)
  {
    hide Built, Go, After, CaseTarget, WordTarget;
    var e := i.blocks[b].end;
    WideTarget(e.cases, e.default, key, e.bits, 64);
    k, left := BlockRuns(cpu, i, b, regs, flags);
  }

  // From a block that ends in a chain of compares: the first entry taken for the key.
  lemma ChainSwitchRuns<R(!new)>(cpu: Cpu<R>, i: Image, b: nat, key: int, regs: R, flags: Flags)
    returns (k: nat, left: Flags)
    requires Built(i) && b < |i.blocks| == |i.labels| && i.blocks[b].end.Switch? && i.blocks[b].end.constKey.None?
    requires SwitchReady(cpu, i, b)
    requires InRange(key, i.blocks[b].end.bits)
    requires cpu.word(b, After(cpu, i.blocks[b].body, regs, flags).0) == Words.Low(key, i.blocks[b].end.bits)
    ensures var e := i.blocks[b].end;
            Go(cpu, i, Running(i.labels[b], regs, flags), k) ==
              Running(LabelOf(i, TakenTarget(e.cases, e.default, key, e.bits, Legal(e.bits))),
                      After(cpu, i.blocks[b].body, regs, flags).0, left)
  {
    hide Built, Go, After, CaseTarget, WordTarget, TakenTarget, ComparesSet, InRange;
    var e := i.blocks[b].end;
    TakenIs(e.cases, e.default, key, e.bits, Legal(e.bits));
    k, left := BlockRuns(cpu, i, b, regs, flags);
  }

  // ----- The function the code was compiled from -----

  ghost predicate EndMatches(t: Cfg.Terminator, e: End)
  {
    match t
    case NoEnd => e.NoEnd?
    case Unreachable => e.Unreachable?
    case Trap => e.Trap?
    case Return(_) => e.Ret?
    case Goto(l) => e == End.Goto(l)
    case If(_, a, b) => e.If? && e.cc < 16 && e.ifTrue == a && e.ifFalse == b
    case Switch(_, es, d) => e.Switch? && e.default == d && SameCases(es, e.cases)
  }

  ghost predicate SameCases(es: seq<Cfg.SwitchEntry>, cs: seq<Case>)
  {
    |cs| == |es| && forall i :: 0 <= i < |es| ==> cs[i].key == es[i].key && cs[i].target == es[i].target
  }

  // The condition or the key that the machine sees is the one in the state.
  ghost predicate Decides<V, W, R>(cpu: Cpu<R>, e: End, b: nat, sem: Ir.Sem<V, W>, t: Cfg.Terminator,
                                   st: Ir.State<V, W>,
                                   regs: R, flags: Flags)
  {
    match t
    case If(c, _, _) => e.If? && e.cc < 16 && (Met(flags, e.cc) <==> sem.truth(Ir.Val(sem, st, c)))
    case Switch(k, _, _) =>
      var key := sem.key(Ir.Val(sem, st, k));
      e.Switch? && if e.constKey.Some? then ConstHolds(e, key) else WordHolds(e, cpu.word(b, regs), key)
    case _ => true
  }

  // The constant of a switch holds the key in as many bits as its type has.
  predicate ConstHolds(e: End, key: int)
    requires e.Switch? && e.constKey.Some?
  {
    1 <= e.bits <= 64 && InRange(key, e.bits) && e.constKey.value == Words.Low(key, e.bits)
  }

  // So does the operand of the compares.
  predicate WordHolds(e: End, word: Words.Word, key: int)
    requires e.Switch? && e.constKey.None?
  {
    1 <= e.bits <= 64 && InRange(key, e.bits) && word == Words.Low(key, e.bits)
  }

  // What the source's search goes by agrees with the entries: for a constant that is a negative
  // number of less than 64 bits, with and without its sign; for any other key, at the key of every
  // entry and at the key that the compares take the entry for.
  predicate Findable(e: End)
  {
    e.Switch? && 1 <= e.bits <= 64 ==>
      if e.constKey.Some? then
        e.bits < 64 && e.constKey.value >= Words.Two(e.bits - 1) ==>
          CaseTarget(e.cases, e.default, e.constKey.value) ==
            CaseTarget(e.cases, e.default, e.constKey.value - Words.Two(e.bits))
      else
        forall j :: 0 <= j < |e.cases| ==>
          && (InRange(e.cases[j].key, e.bits) ==> AgreeAt(e, e.cases[j].key))
          && var k := TakenFor(e.cases[j].key, e.bits, Legal(e.bits)); k.Some? ==> AgreeAt(e, k.value)
  }

  predicate AgreeAt(e: End, key: int)
    requires e.Switch? && 1 <= e.bits <= 64
  {
    TakenTarget(e.cases, e.default, key, e.bits, Legal(e.bits)) == CaseTarget(e.cases, e.default, key)
  }

  // Exactly then does the search for a constant go where its key is to go.
  lemma FindableIff(e: End, key: int)
    requires e.Switch? && e.constKey.Some? && ConstHolds(e, key)
    ensures WordTarget(e.cases, e.default, e.constKey.value, 64) == CaseTarget(e.cases, e.default, key) <==> Findable(e)
  {
    WideTarget(e.cases, e.default, key, e.bits, 64);
    Words.TwoHalf(e.bits);
    Words.LowIs(key, if key >= 0 then key else key + Words.Two(e.bits), e.bits);
  }

  // And the compares, with every key.
  lemma ChainFindableIff(e: End)
    requires e.Switch? && e.constKey.None? && 1 <= e.bits <= 64
    ensures Findable(e) <==> forall key :: InRange(key, e.bits) ==>
              WordTarget(e.cases, e.default, Words.Low(key, e.bits), Legal(e.bits)) ==
                CaseTarget(e.cases, e.default, key)
  {
    hide InRange, Words.Low, TakenTarget, CaseTarget, WordTarget, TakenFor;
    forall key | InRange(key, e.bits)
      ensures WordTarget(e.cases, e.default, Words.Low(key, e.bits), Legal(e.bits)) ==
                TakenTarget(e.cases, e.default, key, e.bits, Legal(e.bits))
    {
      TakenIs(e.cases, e.default, key, e.bits, Legal(e.bits));
    }
    forall j | 0 <= j < |e.cases| && TakenFor(e.cases[j].key, e.bits, Legal(e.bits)).Some?
      ensures InRange(TakenFor(e.cases[j].key, e.bits, Legal(e.bits)).value, e.bits)
    {
      TakenFits(e.cases[j].key, e.bits, Legal(e.bits));
    }
    if Findable(e) {
      forall key | InRange(key, e.bits) ensures AgreeAt(e, key) { AgreesEverywhere(e, key); }
    }
  }

  // A key that no entry has and no entry is taken for goes to the default either way.
  lemma AgreesEverywhere(e: End, key: int)
    requires e.Switch? && e.constKey.None? && 1 <= e.bits <= 64 && Findable(e) && InRange(key, e.bits)
    ensures AgreeAt(e, key)
  {
    hide InRange, TakenFor;
    if !exists j :: 0 <= j < |e.cases| && Tried(e.cases[j].key, key, e.bits, Legal(e.bits)) {
      Untried(e.cases, e.default, key, e.bits, Legal(e.bits));
    }
  }

  // The state a block's terminator is reached in.
  function AtEnd<V, W>(sem: Ir.Sem<V, W>, f: Ir.Function, c: Ir.Config<V, W>): Ir.State<V, W>
    requires Ir.Shape(f) && c.At? && c.block < |f.blocks|
  {
    var body := f.blocks[c.block].body;
    Ir.ExecBody(sem, {}, f, body, |body|, Ir.EnterBlock(sem, f, body, c.from, c.st))
  }

  // The code of block b does what the block does; rep relates registers and memory to a state.
  ghost predicate BodyDoes<V(!new), W(!new), R(!new)>(cpu: Cpu<R>, i: Image, b: nat, sem: Ir.Sem<V, W>, f: Ir.Function,
                                                      rep: (R, Ir.Config<V, W>) -> bool)
    requires Ir.Shape(f) && b < |i.blocks| == |f.blocks|
  {
    && SwitchReady(cpu, i, b)
    && forall regs, flags, from, st :: BlockDoes(cpu, i, b, sem, f, rep, regs, flags, from, st)
  }

  ghost predicate BlockDoes<V, W, R>(cpu: Cpu<R>, i: Image, b: nat, sem: Ir.Sem<V, W>, f: Ir.Function,
                                     rep: (R, Ir.Config<V, W>) -> bool, regs: R, flags: Flags, from: nat,
                                       st: Ir.State<V, W>)
    requires Ir.Shape(f) && b < |i.blocks| == |f.blocks|
  {
    var c := Ir.At(b, from, st);
    var (r, l) := After(cpu, i.blocks[b].body, regs, flags);
    rep(regs, c) ==>
      rep(r, Ir.Step(sem, {}, f, c)) && Decides(cpu, i.blocks[b].end, b, sem, f.blocks[b].end, AtEnd(sem, f, c), r, l)
  }

  ghost predicate Compiled<V(!new), W(!new), R(!new)>(cpu: Cpu<R>, i: Image, sem: Ir.Sem<V, W>, f: Ir.Function,
                                                      rep: (R, Ir.Config<V, W>) -> bool)
  {
    && Ir.Shape(f) && Built(i) && |i.blocks| == |f.blocks|
    && forall b: nat :: b < |f.blocks| ==>
         EndMatches(f.blocks[b].end, i.blocks[b].end) && Findable(i.blocks[b].end) && BodyDoes(cpu, i, b, sem, f, rep)
  }

  // The machine is where the run is.
  ghost predicate Follows<V, W, R>(i: Image, m: Machine<R>, c: Ir.Config<V, W>, rep: (R, Ir.Config<V, W>) -> bool)
  {
    match c
    case At(b, _, _) => m.Running? && b < |i.labels| && m.pc == i.labels[b] && rep(m.regs, c)
    case Halted(o, _) =>
      match o
      case Returned(_) => m.Running? && m.pc == |i.code| && rep(m.regs, c)
      case Trapped => m.Trapped? && rep(m.regs, c)
      case _ => true
  }

  lemma {:induction false} SameTarget(es: seq<Cfg.SwitchEntry>, cs: seq<Case>, d: nat, key: int)
    requires SameCases(es, cs)
    ensures CaseTarget(cs, d, key) == Ir.SwitchTarget(es, d, key)
  {
    if es != [] && es[0].key != key { SameTarget(es[1..], cs[1..], d, key); }
  }

  // Leaving a block.
  lemma ExitFollows<V(!new), W(!new), R(!new)>(cpu: Cpu<R>, i: Image, sem: Ir.Sem<V, W>, f: Ir.Function,
                                               rep: (R, Ir.Config<V, W>) -> bool, b: nat, from: nat, st: Ir.State<V, W>,
                                                 regs: R,
                                               flags: Flags, left: Flags)
    requires Compiled(cpu, i, sem, f, rep) && b < |f.blocks| && rep(regs, Ir.Step(sem, {}, f, Ir.At(b, from, st)))
    requires Decides(cpu, i.blocks[b].end, b, sem, f.blocks[b].end, AtEnd(sem, f, Ir.At(b, from, st)), regs, flags)
    ensures Follows(i, Exit(cpu, i, b, regs, flags, left), Ir.Step(sem, {}, f, Ir.At(b, from, st)), rep)
  {
    hide Built, BodyDoes, Ir.Shape, Met;
    BlocksFit(i, b);
    var t, e := f.blocks[b].end, i.blocks[b].end;
    assert EndMatches(t, e);
    if t.Switch? {
      var key := sem.key(Ir.Val(sem, AtEnd(sem, f, Ir.At(b, from, st)), t.switchKey));
      SameTarget(t.entries, e.cases, t.default, key);
      CaseTargetFits(e.cases, e.default, key, |i.blocks|);
      assert Findable(e);
      if e.constKey.Some? { FindableIff(e, key); } else { ChainFindableIff(e); }
    }
  }

  // One block of the run.
  lemma StepFollows<V(!new), W(!new), R(!new)>(cpu: Cpu<R>, i: Image, sem: Ir.Sem<V, W>, f: Ir.Function,
                                               rep: (R, Ir.Config<V, W>) -> bool, m: Machine<R>, c: Ir.Config<V, W>)
    returns (k: nat)
    requires Compiled(cpu, i, sem, f, rep) && Follows(i, m, c, rep)
    ensures Follows(i, Go(cpu, i, m, k), Ir.Step(sem, {}, f, c), rep)
  {
    hide Built, Go, Exit, Decides, After, Ir.Shape;
    GoNone(cpu, i, m);
    k := 0;
    if c.At? {
      var b := c.block;
      BuiltDone(i);
      BlocksFit(i, b);
      assert EndMatches(f.blocks[b].end, i.blocks[b].end);
      if !i.blocks[b].end.NoEnd? && !i.blocks[b].end.Unreachable? {
        assert BodyDoes(cpu, i, b, sem, f, rep);
        assert BlockDoes(cpu, i, b, sem, f, rep, m.regs, m.flags, c.from, c.st);
        var (r, l) := After(cpu, i.blocks[b].body, m.regs, m.flags);
        var left;
        k, left := BlockRuns(cpu, i, b, m.regs, m.flags);
        ExitFollows(cpu, i, sem, f, rep, b, c.from, c.st, r, l, left);
      }
    }
  }

  // After ks[j] ticks, in order, the machine m0 is where the run is after j blocks.
  ghost predicate Tracks<V, W, R>(cpu: Cpu<R>, i: Image, sem: Ir.Sem<V, W>, f: Ir.Function,
                                  rep: (R, Ir.Config<V, W>) -> bool,
                                  m0: Machine<R>, w: W, ks: seq<nat>)
    requires Ir.Shape(f)
  {
    && (forall a, b :: 0 <= a <= b < |ks| ==> ks[a] <= ks[b])
    && (forall j: nat :: j < |ks| ==> Follows(i, Go(cpu, i, m0, ks[j]), Ir.Run(sem, {}, f, w, j), rep))
  }

  lemma TracksMore<V, W, R>(cpu: Cpu<R>, i: Image, sem: Ir.Sem<V, W>, f: Ir.Function, rep: (R, Ir.Config<V, W>) -> bool,
                            m0: Machine<R>, w: W, ks: seq<nat>, k: nat)
    requires Ir.Shape(f) && Tracks(cpu, i, sem, f, rep, m0, w, ks) && |ks| > 0 && k >= ks[|ks| - 1]
    requires Follows(i, Go(cpu, i, m0, k), Ir.Run(sem, {}, f, w, |ks|), rep)
    ensures Tracks(cpu, i, sem, f, rep, m0, w, ks + [k])
  {
    hide Follows, Go, Ir.Run, Ir.Shape;
  }

  // The theorem: the machine, started at the first block, is at the label of the block that the
  // run of the function is at after every number of blocks, or has returned or trapped with it.
  lemma {:induction false} RunFollows<V(!new), W(!new), R(!new)>(cpu: Cpu<R>, i: Image, sem: Ir.Sem<V, W>,
                                                                 f: Ir.Function,
                                                                 rep: (R, Ir.Config<V, W>) -> bool, regs: R,
                                                                   flags: Flags,
                                                                 w: W, n: nat)
    returns (ks: seq<nat>)
    requires Compiled(cpu, i, sem, f, rep) && rep(regs, Ir.Run(sem, {}, f, w, 0))
    ensures |ks| == n + 1 && Tracks(cpu, i, sem, f, rep, Running(i.start, regs, flags), w, ks)
  {
    hide Built, Go, Ir.Shape, BodyDoes, EndMatches, Ir.Step;
    var m0 := Running(i.start, regs, flags);
    if n == 0 {
      StartsFirst(i);
      GoNone(cpu, i, m0);
      ks := [0];
    } else {
      hide Follows, Compiled;
      CompiledShape(cpu, i, sem, f, rep);
      var before := RunFollows(cpu, i, sem, f, rep, regs, flags, w, n - 1);
      var k := StepFollows(cpu, i, sem, f, rep, Go(cpu, i, m0, before[n - 1]), Ir.Run(sem, {}, f, w, n - 1));
      GoOn(cpu, i, m0, before[n - 1], k);
      TracksMore(cpu, i, sem, f, rep, m0, w, before, before[n - 1] + k);
      ks := before + [before[n - 1] + k];
    }
  }

  lemma CompiledShape<V(!new), W(!new), R(!new)>(cpu: Cpu<R>, i: Image, sem: Ir.Sem<V, W>, f: Ir.Function,
                                                 rep: (R, Ir.Config<V, W>) -> bool)
    requires Compiled(cpu, i, sem, f, rep)
    ensures Ir.Shape(f)
  {
    hide Built, BodyDoes;
  }

  lemma StartsFirst(i: Image)
    requires Built(i)
    ensures |i.labels| > 0 && i.labels[0] == i.start && |i.blocks| > 0
  {
  }
}
