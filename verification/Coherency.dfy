// src/tb/opt/mem2reg.c:359-415 and 578-659: when a stack slot can become a register.

module Coherency {
  import opened Finite
  import opened Cfg
  import opened Predecessors
  import opened Ir
  import opened Ssa
  import opened Promotion

  datatype Coherency = Good | Uninitialized | Volatile | UsesAddress | BadDataType

  // The size of a node's data type; 1 stands for any but none where nothing is said.
  function Bits(t: Typing, r: Reg): nat
  {
    if r in t.bits then t.bits[r] else 1
  }

  predicate IsAddressUse(n: Node, a: Reg)
  {
    (n.Load? || n.Store?) && n.address == a
  }

  predicate IsClear(n: Node, a: Reg)
  {
    n.Clear? && n.address == a
  }

  // What counts as a use of the slot for its value.
  predicate IsSlotUse(n: Node, a: Reg)
  {
    IsAddressUse(n, a) || IsClear(n, a)
  }

  // ----- The two counts -----

  ghost function BodyUses(f: Function, a: Reg, b: Label, k: nat): nat
    requires Shape(f) && b < |f.blocks| && k <= |f.blocks[b].body|
  {
    if k == 0 then 0 else BodyUses(f, a, b, k - 1) + Count(Uses(f.nodes[f.blocks[b].body[k - 1]]), a)
  }

  ghost function AllUses(f: Function, a: Reg, b: nat): nat
    requires Shape(f) && b <= |f.blocks|
  {
    if b == 0 then 0
    else AllUses(f, a, b - 1) + BodyUses(f, a, b - 1, |f.blocks[b - 1].body|) + Count(EndUses(f.blocks[b - 1].end), a)
  }

  ghost function BodyAddresses(f: Function, a: Reg, b: Label, k: nat): nat
    requires Shape(f) && b < |f.blocks| && k <= |f.blocks[b].body|
  {
    if k == 0 then 0
    else BodyAddresses(f, a, b, k - 1) + if IsSlotUse(f.nodes[f.blocks[b].body[k - 1]], a) then 1 else 0
  }

  ghost function AllAddresses(f: Function, a: Reg, b: nat): nat
    requires Shape(f) && b <= |f.blocks|
  {
    if b == 0 then 0 else AllAddresses(f, a, b - 1) + BodyAddresses(f, a, b - 1, |f.blocks[b - 1].body|)
  }

  ghost predicate BodyCoherent(f: Function, a: Reg, b: Label, k: nat)
    requires Shape(f) && b < |f.blocks| && k <= |f.blocks[b].body|
  {
    forall j: nat :: j < k ==> NodeCoherent(f.nodes[f.blocks[b].body[j]], {a})
  }

  ghost predicate BlocksCoherent(f: Function, a: Reg, b: nat)
    requires Shape(f) && b <= |f.blocks|
  {
    forall c: Label :: c < b ==> BodyCoherent(f, a, c, |f.blocks[c].body|) && a !in EndUses(f.blocks[c].end)
  }

  lemma NodeCounts(n: Node, a: Reg)
    ensures Count(Uses(n), a) >= if IsSlotUse(n, a) then 1 else 0
    ensures NodeCoherent(n, {a}) <==> Count(Uses(n), a) == if IsSlotUse(n, a) then 1 else 0
  {
    match n {
      case Load(x) => CountPush([], x, a);
      case Store(x, v) => CountTwo(x, v, a);
      case Clear(x, v, z) =>
        CountTwo(x, v, a);
        CountPush([x, v], z, a);
        assert [x, v] + [z] == [x, v, z];
      case _ =>
    }
  }

  lemma CountTwo(x: Reg, v: Reg, a: Reg)
    ensures Count([x, v], a) == (if x == a then 1 else 0) + if v == a then 1 else 0
  {
    CountPush([], x, a);
    CountPush([x], v, a);
    assert [x] + [v] == [x, v] && [] + [x] == [x];
  }

  // A slot that is used otherwise than as an address has more uses than address uses.
  lemma {:induction false} BodyCounts(f: Function, a: Reg, b: Label, k: nat)
    requires Shape(f) && b < |f.blocks| && k <= |f.blocks[b].body|
    ensures BodyUses(f, a, b, k) >= BodyAddresses(f, a, b, k)
    ensures BodyCoherent(f, a, b, k) <==> BodyUses(f, a, b, k) == BodyAddresses(f, a, b, k)
  {
    if k > 0 {
      BodyCounts(f, a, b, k - 1);
      NodeCounts(f.nodes[f.blocks[b].body[k - 1]], a);
    }
  }

  lemma {:induction false} AllCounts(f: Function, a: Reg, b: nat)
    requires Shape(f) && b <= |f.blocks|
    ensures AllUses(f, a, b) >= AllAddresses(f, a, b)
    ensures BlocksCoherent(f, a, b) <==> AllUses(f, a, b) == AllAddresses(f, a, b)
  {
    hide BodyUses, BodyAddresses, BodyCoherent, EndUses;
    if b > 0 {
      AllCounts(f, a, b - 1);
      BodyCounts(f, a, b - 1, |f.blocks[b - 1].body|);
    }
  }

  // ----- The check -----

  method CountIn(rs: seq<Reg>, a: Reg) returns (n: nat)
    ensures n == Count(rs, a)
  {
    n := 0;
    var i: nat := 0;
    while i < |rs|
      invariant i <= |rs| && n == Count(rs[..i], a)
    {
      assert rs[..i + 1][..i] == rs[..i];
      if rs[i] == a { n := n + 1; }
      i := i + 1;
    }
    assert rs[..i] == rs;
  }

  method CountUses(f: Function, a: Reg) returns (n: nat)
    requires Shape(f)
    ensures n == AllUses(f, a, |f.blocks|)
  {
    hide Uses, EndUses, Count;
    n := 0;
    var bb: nat := 0;
    while bb < |f.blocks|
      invariant bb <= |f.blocks| && n == AllUses(f, a, bb)
    {
      ghost var n0 := n;
      var k: nat := 0;
      while k < |f.blocks[bb].body|
        invariant k <= |f.blocks[bb].body| && n == n0 + BodyUses(f, a, bb, k)
      {
        var c := CountIn(Uses(f.nodes[f.blocks[bb].body[k]]), a);
        n := n + c;
        k := k + 1;
      }
      var c := CountIn(EndUses(f.blocks[bb].end), a);
      n := n + c;
      bb := bb + 1;
    }
  }

  ghost predicate Accessed(f: Function, a: Reg)
    requires Shape(f)
  {
    exists b: Label, k: nat :: b < |f.blocks| && k < |f.blocks[b].body| && IsAddressUse(f.nodes[f.blocks[b].body[k]], a)
  }

  // ----- The scan over the accesses -----

  // What has been seen: how often the slot is used for its value, the first load or store of it,
  // and the size; or the answer that was given on the spot.
  datatype Scan = Going(values: nat, first: Option<Reg>, bits: nat) | Stop(answer: Coherency)

  function Sized(s: Scan, first: Option<Reg>, bits: nat): Scan
    requires s.Going?
  {
    if bits == 0 || (s.bits > 0 && bits != s.bits) then Stop(BadDataType) else Going(s.values + 1, first, bits)
  }

  // A memset has a size of its own; the size of a load or store is always that of the first.
  function ScanNode(t: Typing, n: Node, r: Reg, a: Reg, s: Scan): Scan
  {
    if s.Stop? then s
    else if IsClear(n, a) then Sized(s, s.first, Bits(t, r))
    else if IsAddressUse(n, a) then
      if r in t.volatile then Stop(Volatile)
      else
        var first := s.first.GetOr(r);
        Sized(s, Some(first), Bits(t, first))
    else s
  }

  // Before position k of block b.
  ghost function ScanTo(f: Function, t: Typing, a: Reg, b: nat, k: nat): Scan
    requires Shape(f) && b <= |f.blocks| && k <= if b < |f.blocks| then |f.blocks[b].body| else 0
    decreases b, k
  {
    if k > 0 then
      var r := f.blocks[b].body[k - 1];
      ScanNode(t, f.nodes[r], r, a, ScanTo(f, t, a, b, k - 1))
    else if b > 0 then ScanTo(f, t, a, b - 1, |f.blocks[b - 1].body|)
    else Going(0, None, 0)
  }

  ghost function Verdict(f: Function, t: Typing, a: Reg): Coherency
    requires Shape(f)
  {
    match ScanTo(f, t, a, |f.blocks|, 0)
    case Stop(c) => c
    case Going(values, first, _) =>
      if values != AllUses(f, a, |f.blocks|) then UsesAddress else if first.None? then Uninitialized else Good
  }

  method ScanAccesses(f: Function, a: Reg, t: Typing) returns (s: Scan)
    requires Shape(f)
    ensures s == ScanTo(f, t, a, |f.blocks|, 0)
  {
    hide ScanNode;
    s := Going(0, None, 0);
    var bb: nat := 0;
    while bb < |f.blocks|
      invariant bb <= |f.blocks| && s == ScanTo(f, t, a, bb, 0)
    {
      var k: nat := 0;
      while k < |f.blocks[bb].body|
        invariant k <= |f.blocks[bb].body| && s == ScanTo(f, t, a, bb, k)
      {
        var r := f.blocks[bb].body[k];
        s := ScanNode(t, f.nodes[r], r, a, s);
        k := k + 1;
      }
      bb := bb + 1;
    }
  }

  // tb_get_stack_slot_coherency
  method StackSlotCoherency(f: Function, a: Reg, t: Typing) returns (c: Coherency)
    requires Shape(f)
    ensures c == Verdict(f, t, a)
  {
    var useCount := CountUses(f, a);
    var s := ScanAccesses(f, a, t);
    if s.Stop? {
      return s.answer;
    }
    if s.values != useCount {
      return UsesAddress;
    }
    return if s.first.Some? then Good else Uninitialized;
  }

  // ----- What the answer means -----

  ghost function FirstAccess(f: Function, a: Reg, b: nat, k: nat): (r: Option<Reg>)
    requires Shape(f) && b <= |f.blocks| && k <= if b < |f.blocks| then |f.blocks[b].body| else 0
    decreases b, k
  {
    if k > 0 then
      var first, r := FirstAccess(f, a, b, k - 1), f.blocks[b].body[k - 1];
      if first.None? && IsAddressUse(f.nodes[r], a) then Some(r) else first
    else if b > 0 then FirstAccess(f, a, b - 1, |f.blocks[b - 1].body|)
    else None
  }

  // No volatile access before position k of block b.
  ghost predicate Quiet(f: Function, t: Typing, a: Reg, b: nat, k: nat)
    requires Shape(f)
  {
    forall c: Label, j: nat :: Before(f, c, j, b, k) && IsAddressUse(f.nodes[f.blocks[c].body[j]], a) ==>
      f.blocks[c].body[j] !in t.volatile
  }

  ghost function Addresses(f: Function, a: Reg, b: nat, k: nat): nat
    requires Shape(f) && b <= |f.blocks| && k <= if b < |f.blocks| then |f.blocks[b].body| else 0
  {
    AllAddresses(f, a, b) + if b < |f.blocks| then BodyAddresses(f, a, b, k) else 0
  }

  // Every memset of the slot before position k of block b clears z bits ...
  ghost predicate Clearing(f: Function, t: Typing, a: Reg, b: nat, k: nat, z: nat)
    requires Shape(f)
  {
    forall c: Label, j: nat :: Before(f, c, j, b, k) && IsClear(f.nodes[f.blocks[c].body[j]], a) ==>
      Bits(t, f.blocks[c].body[j]) == z
  }

  // ... and the first access has that size.
  ghost predicate OfSize(f: Function, t: Typing, a: Reg, b: nat, k: nat, z: nat)
    requires Shape(f) && b <= |f.blocks| && k <= if b < |f.blocks| then |f.blocks[b].body| else 0
  {
    Clearing(f, t, a, b, k, z) && var first := FirstAccess(f, a, b, k); first.Some? ==> Bits(t, first.value) == z
  }

  // The scan stops at volatile accesses and where two sizes differ or one is zero.
  ghost predicate ScanIs(f: Function, t: Typing, a: Reg, b: nat, k: nat)
    requires Shape(f) && b <= |f.blocks| && k <= if b < |f.blocks| then |f.blocks[b].body| else 0
  {
    match ScanTo(f, t, a, b, k)
    case Going(values, first, bits) =>
      && values == Addresses(f, a, b, k) && first == FirstAccess(f, a, b, k) && Quiet(f, t, a, b, k)
      && forall z: nat :: z > 0 ==> (OfSize(f, t, a, b, k, z) <==> bits == 0 || z == bits)
    case Stop(answer) =>
      && (answer == Volatile || answer == BadDataType)
      && (Quiet(f, t, a, b, k) ==> forall z: nat :: z > 0 ==> !OfSize(f, t, a, b, k, z))
  }

  lemma QuietStep(f: Function, t: Typing, a: Reg, b: Label, k: nat)
    requires Shape(f) && b < |f.blocks| && k < |f.blocks[b].body|
    ensures f.blocks[b].body[k] < |f.nodes|
    ensures var r := f.blocks[b].body[k];
            Quiet(f, t, a, b, k + 1) <==> Quiet(f, t, a, b, k) && (IsAddressUse(f.nodes[r], a) ==> r !in t.volatile)
  {
    hide IsAddressUse;
    forall c: Label, j: nat ensures Before(f, c, j, b, k + 1) <==> (c == b && j == k) || Before(f, c, j, b, k) {
    }
  }

  lemma QuietNext(f: Function, t: Typing, a: Reg, b: Label)
    requires Shape(f) && b < |f.blocks|
    ensures Quiet(f, t, a, b + 1, 0) <==> Quiet(f, t, a, b, |f.blocks[b].body|)
  {
    hide IsAddressUse;
    forall c: Label, j: nat ensures Before(f, c, j, b + 1, 0) <==> Before(f, c, j, b, |f.blocks[b].body|) {
    }
  }

  lemma SizeStep(f: Function, t: Typing, a: Reg, b: Label, k: nat, z: nat)
    requires Shape(f) && b < |f.blocks| && k < |f.blocks[b].body|
    ensures f.blocks[b].body[k] < |f.nodes|
    ensures var r, first := f.blocks[b].body[k], FirstAccess(f, a, b, k);
            OfSize(f, t, a, b, k + 1, z) <==>
              && OfSize(f, t, a, b, k, z) && (IsClear(f.nodes[r], a) ==> Bits(t, r) == z)
              && (IsAddressUse(f.nodes[r], a) ==> Bits(t, first.GetOr(r)) == z)
  {
    hide IsAddressUse, IsClear, Bits;
    forall c: Label, j: nat ensures Before(f, c, j, b, k + 1) <==> (c == b && j == k) || Before(f, c, j, b, k) {
    }
  }

  lemma SizeNext(f: Function, t: Typing, a: Reg, b: Label, z: nat)
    requires Shape(f) && b < |f.blocks|
    ensures OfSize(f, t, a, b + 1, 0, z) <==> OfSize(f, t, a, b, |f.blocks[b].body|, z)
  {
    hide IsAddressUse, IsClear, Bits;
    forall c: Label, j: nat ensures Before(f, c, j, b + 1, 0) <==> Before(f, c, j, b, |f.blocks[b].body|) {
    }
  }

  lemma ScanStep(f: Function, t: Typing, a: Reg, b: Label, k: nat, next: nat)
    requires Shape(f) && b < |f.blocks| && k < |f.blocks[b].body| && ScanIs(f, t, a, b, k) && next == k + 1
    ensures ScanIs(f, t, a, b, next)
  {
    hide Quiet, OfSize, Shape, Bits;
    QuietStep(f, t, a, b, k);
    var r, first := f.blocks[b].body[k], FirstAccess(f, a, b, k);
    var n := f.nodes[r];
    forall z: nat
      ensures OfSize(f, t, a, b, next, z) <==>
                && OfSize(f, t, a, b, k, z) && (IsClear(n, a) ==> Bits(t, r) == z)
                && (IsAddressUse(n, a) ==> Bits(t, first.GetOr(r)) == z)
    {
      SizeStep(f, t, a, b, k, z);
    }
    assert !(IsClear(n, a) && IsAddressUse(n, a));
  }

  lemma {:induction false} ScanMeans(f: Function, t: Typing, a: Reg, b: nat, k: nat)
    requires Shape(f) && b <= |f.blocks| && k <= if b < |f.blocks| then |f.blocks[b].body| else 0
    ensures ScanIs(f, t, a, b, k)
    decreases b, k
  {
    hide IsAddressUse, IsClear, Quiet, OfSize, Shape;
    if k > 0 {
      ScanMeans(f, t, a, b, k - 1);
      ScanStep(f, t, a, b, k - 1, k);
    } else if b > 0 {
      ScanMeans(f, t, a, b - 1, |f.blocks[b - 1].body|);
      QuietNext(f, t, a, b - 1);
      forall z: nat ensures OfSize(f, t, a, b, 0, z) <==> OfSize(f, t, a, b - 1, |f.blocks[b - 1].body|, z) {
        SizeNext(f, t, a, b - 1, z);
      }
    } else {
      NoneBefore(f, t, a);
    }
  }

  lemma NoneBefore(f: Function, t: Typing, a: Reg)
    requires Shape(f)
    ensures Quiet(f, t, a, 0, 0) && forall z: nat :: OfSize(f, t, a, 0, 0, z)
  {
  }

  lemma {:induction false} FirstMeans(f: Function, a: Reg, b: nat, k: nat)
    requires Shape(f) && b <= |f.blocks| && k <= if b < |f.blocks| then |f.blocks[b].body| else 0
    ensures FirstAccess(f, a, b, k).Some? <==>
              exists c: Label, j: nat :: Before(f, c, j, b, k) && IsAddressUse(f.nodes[f.blocks[c].body[j]], a)
    decreases b, k
  {
    hide IsAddressUse, Shape;
    if k > 0 {
      FirstMeans(f, a, b, k - 1);
      forall c: Label, j: nat
        ensures Before(f, c, j, b, k) <==> (c == b && j == k - 1) || Before(f, c, j, b, k - 1)
      {
      }
    } else if b > 0 {
      FirstMeans(f, a, b - 1, |f.blocks[b - 1].body|);
      forall c: Label, j: nat
        ensures Before(f, c, j, b, 0) <==> Before(f, c, j, b - 1, |f.blocks[b - 1].body|)
      {
      }
    }
  }

  lemma FirstAll(f: Function, a: Reg)
    requires Shape(f)
    ensures FirstAccess(f, a, |f.blocks|, 0).Some? <==> Accessed(f, a)
  {
    hide IsAddressUse;
    FirstMeans(f, a, |f.blocks|, 0);
    forall b: Label, k: nat | b < |f.blocks| && k < |f.blocks[b].body| ensures Before(f, b, k, |f.blocks|, 0) {
    }
  }

  lemma CoherentIff(f: Function, a: Reg)
    requires Shape(f)
    ensures OnlyAddresses(f, {a}) <==> AllUses(f, a, |f.blocks|) == AllAddresses(f, a, |f.blocks|)
  {
    AllCounts(f, a, |f.blocks|);
    if BlocksCoherent(f, a, |f.blocks|) {
      forall b: Label, k: nat | b < |f.blocks| && k < |f.blocks[b].body|
        ensures NodeCoherent(f.nodes[f.blocks[b].body[k]], {a})
      {
        assert BodyCoherent(f, a, b, |f.blocks[b].body|);
      }
    }
    if OnlyAddresses(f, {a}) {
      forall b: Label | b < |f.blocks|
        ensures BodyCoherent(f, a, b, |f.blocks[b].body|) && a !in EndUses(f.blocks[b].end)
      {
      }
    }
  }

  // The theorem: a slot is found good if and only if its address has no other use, it is accessed,
  // never by a volatile access, the first access has a size and every memset clears as much.
  lemma GoodIff(f: Function, t: Typing, a: Reg)
    requires Shape(f)
    ensures var first := FirstAccess(f, a, |f.blocks|, 0);
            && (Verdict(f, t, a) == Good <==>
                 && OnlyAddresses(f, {a}) && first.Some? && Quiet(f, t, a, |f.blocks|, 0)
                 && Bits(t, first.value) > 0 && Clearing(f, t, a, |f.blocks|, 0, Bits(t, first.value)))
            && (Accessed(f, a) <==> first.Some?)
  {
    hide OnlyAddresses, Accessed, Quiet, OfSize, Clearing, IsAddressUse, Bits, FirstAccess, ScanTo, Shape;
    ScanMeans(f, t, a, |f.blocks|, 0);
    FirstAll(f, a);
    CoherentIff(f, a);
    AnySize(f, t, a, |f.blocks|, 1);
    AnySize(f, t, a, |f.blocks|, 2);
    var first := FirstAccess(f, a, |f.blocks|, 0);
    assert Addresses(f, a, |f.blocks|, 0) == AllAddresses(f, a, |f.blocks|);
    if first.Some? { AnySize(f, t, a, |f.blocks|, Bits(t, first.value)); }
    var s := ScanTo(f, t, a, |f.blocks|, 0);
    if s.Going? { AnySize(f, t, a, |f.blocks|, s.bits); }
  }

  lemma AnySize(f: Function, t: Typing, a: Reg, b: nat, z: nat)
    requires Shape(f) && b == |f.blocks|
    ensures var first := FirstAccess(f, a, b, 0);
            OfSize(f, t, a, b, 0, z) <==> Clearing(f, t, a, b, 0, z) && (first.Some? ==> Bits(t, first.value) == z)
  {
  }

  // No access before position k of block b is volatile, and all sizes are the same and not zero.
  ghost predicate Sound(f: Function, t: Typing, a: Reg, b: nat, k: nat)
    requires Shape(f) && b <= |f.blocks| && k <= if b < |f.blocks| then |f.blocks[b].body| else 0
  {
    Quiet(f, t, a, b, k) && exists z: nat :: z > 0 && OfSize(f, t, a, b, k, z)
  }

  // The accesses are sound up to position k of block b, and the one there is volatile, or has another
  // size or none.
  ghost predicate FirstFault(f: Function, t: Typing, a: Reg, b: Label, k: nat, volatile: bool)
    requires Shape(f) && b < |f.blocks| && k < |f.blocks[b].body|
  {
    var r := f.blocks[b].body[k];
    && Sound(f, t, a, b, k) && r < |f.nodes| && !Sound(f, t, a, b, k + 1)
    && (volatile <==> IsAddressUse(f.nodes[r], a) && r in t.volatile)
  }

  lemma GoingSound(f: Function, t: Typing, a: Reg, b: nat, k: nat)
    requires Shape(f) && b <= |f.blocks| && k <= if b < |f.blocks| then |f.blocks[b].body| else 0
    ensures ScanTo(f, t, a, b, k).Going? <==> Sound(f, t, a, b, k)
  {
    hide Quiet, OfSize, ScanTo, Shape;
    ScanMeans(f, t, a, b, k);
    var s := ScanTo(f, t, a, b, k);
    if s.Going? {
      var z := if s.bits > 0 then s.bits else 1;
      assert OfSize(f, t, a, b, k, z);
    }
  }

  // A scan that has stopped has met the first fault.
  lemma {:induction false} StopsAtFault(f: Function, t: Typing, a: Reg, b: nat, k: nat) returns (c: Label, j: nat)
    requires Shape(f) && b <= |f.blocks| && k <= if b < |f.blocks| then |f.blocks[b].body| else 0
    requires ScanTo(f, t, a, b, k).Stop?
    ensures Before(f, c, j, b, k)
    ensures FirstFault(f, t, a, c, j, ScanTo(f, t, a, b, k).answer == Volatile)
    ensures ScanTo(f, t, a, b, k).answer in {Volatile, BadDataType}
    decreases b, k
  {
    hide Sound, Shape;
    GoingSound(f, t, a, b, k);
    if k > 0 {
      GoingSound(f, t, a, b, k - 1);
      if ScanTo(f, t, a, b, k - 1).Stop? {
        c, j := StopsAtFault(f, t, a, b, k - 1);
      } else {
        NodesThere(f, b, k - 1);
        c, j := b, k - 1;
      }
    } else if b > 0 {
      c, j := StopsAtFault(f, t, a, b - 1, |f.blocks[b - 1].body|);
    }
  }

  lemma NodesThere(f: Function, b: Label, k: nat)
    requires Shape(f) && b < |f.blocks| && k < |f.blocks[b].body|
    ensures f.blocks[b].body[k] < |f.nodes|
  {
  }

  // There is one first fault only.
  lemma OneFault(f: Function, t: Typing, a: Reg, b: Label, k: nat, c: Label, j: nat, v: bool, w: bool)
    requires Shape(f) && b < |f.blocks| && k < |f.blocks[b].body| && c < |f.blocks| && j < |f.blocks[c].body|
    requires FirstFault(f, t, a, b, k, v) && FirstFault(f, t, a, c, j, w)
    ensures v == w
  {
    if c < b || (c == b && j < k) {
      SoundStart(f, t, a, c, j + 1, b, k);
    } else if b < c || k < j {
      SoundStart(f, t, a, b, k + 1, c, j);
    }
  }

  lemma {:induction false} SoundStart(f: Function, t: Typing, a: Reg, b: nat, k: nat, b1: nat, k1: nat)
    requires Shape(f) && b <= |f.blocks| && k <= if b < |f.blocks| then |f.blocks[b].body| else 0
    requires b1 <= |f.blocks| && k1 <= if b1 < |f.blocks| then |f.blocks[b1].body| else 0
    requires (b < b1 || (b == b1 && k <= k1)) && Sound(f, t, a, b1, k1)
    ensures Sound(f, t, a, b, k)
    decreases b1, k1
  {
    hide Sound, Shape, ScanNode;
    GoingSound(f, t, a, b, k);
    GoingSound(f, t, a, b1, k1);
    if ScanTo(f, t, a, b, k).Stop? { StopsStay(f, t, a, b, k, b1, k1); }
  }

  lemma {:induction false} StopsStay(f: Function, t: Typing, a: Reg, b: nat, k: nat, b1: nat, k1: nat)
    requires Shape(f) && b <= |f.blocks| && k <= if b < |f.blocks| then |f.blocks[b].body| else 0
    requires b1 <= |f.blocks| && k1 <= if b1 < |f.blocks| then |f.blocks[b1].body| else 0
    requires (b < b1 || (b == b1 && k <= k1)) && ScanTo(f, t, a, b, k).Stop?
    ensures ScanTo(f, t, a, b1, k1) == ScanTo(f, t, a, b, k)
    decreases b1, k1
  {
    if b == b1 && k == k1 {
    } else if k1 > 0 {
      StopsStay(f, t, a, b, k, b1, k1 - 1);
    } else {
      StopsStay(f, t, a, b, k, b1 - 1, |f.blocks[b1 - 1].body|);
    }
  }

  // The theorem for all answers. If all accesses are sound, the address has another use, or the slot
  // is never loaded or stored, or it is good; otherwise the first fault decides.
  lemma VerdictIs(f: Function, t: Typing, a: Reg)
    requires Shape(f)
    ensures Sound(f, t, a, |f.blocks|, 0) ==>
              Verdict(f, t, a) == if !OnlyAddresses(f, {a}) then UsesAddress
                                  else if !Accessed(f, a) then Uninitialized else Good
    ensures !Sound(f, t, a, |f.blocks|, 0) ==>
              exists b: Label, k: nat, v: bool ::
                b < |f.blocks| && k < |f.blocks[b].body| && FirstFault(f, t, a, b, k, v)
    ensures forall b: Label, k: nat, v: bool ::
              b < |f.blocks| && k < |f.blocks[b].body| && FirstFault(f, t, a, b, k, v) ==>
                Verdict(f, t, a) == if v then Volatile else BadDataType
  {
    hide OnlyAddresses, Accessed, Quiet, OfSize, Sound, FirstFault, ScanTo, FirstAccess, Shape;
    var n := |f.blocks|;
    ScanMeans(f, t, a, n, 0);
    GoingSound(f, t, a, n, 0);
    FirstAll(f, a);
    CoherentIff(f, a);
    assert Addresses(f, a, n, 0) == AllAddresses(f, a, n);
    if !Sound(f, t, a, n, 0) {
      var c, j := StopsAtFault(f, t, a, n, 0);
      PlacesThere(f, c, j, n);
    }
    forall b: Label, k: nat, v: bool | b < |f.blocks| && k < |f.blocks[b].body| && FirstFault(f, t, a, b, k, v)
      ensures Verdict(f, t, a) == if v then Volatile else BadDataType
    {
      FaultStops(f, t, a, b, k, v);
      var c, j := StopsAtFault(f, t, a, n, 0);
      PlacesThere(f, c, j, n);
      OneFault(f, t, a, b, k, c, j, v, ScanTo(f, t, a, n, 0).answer == Volatile);
    }
  }

  lemma PlacesThere(f: Function, c: Label, j: nat, n: nat)
    requires Before(f, c, j, n, 0)
    ensures c < |f.blocks| && j < |f.blocks[c].body|
  {
  }

  lemma FaultStops(f: Function, t: Typing, a: Reg, b: Label, k: nat, v: bool)
    requires Shape(f) && b < |f.blocks| && k < |f.blocks[b].body| && FirstFault(f, t, a, b, k, v)
    ensures ScanTo(f, t, a, |f.blocks|, 0).Stop?
  {
    hide Sound, ScanTo, Shape;
    GoingSound(f, t, a, |f.blocks|, 0);
    if Sound(f, t, a, |f.blocks|, 0) { SoundStart(f, t, a, b, k + 1, |f.blocks|, 0); }
  }

  lemma PlainVerdict(f: Function, a: Reg)
    requires Shape(f) && f.types == PLAIN
    ensures Verdict(f, f.types, a) == Good <==> OnlyAddresses(f, {a}) && Accessed(f, a)
  {
    hide OnlyAddresses, Accessed, IsAddressUse, FirstAccess;
    GoodIff(f, f.types, a);
  }

  // The size of no load or store but the first makes a difference, although a slot is meant to be
  // coherent when all have the same.
  lemma {:induction false} SizesUnseen(f: Function, t: Typing, u: Typing, a: Reg, b: nat, k: nat)
    requires Shape(f) && b <= |f.blocks| && k <= if b < |f.blocks| then |f.blocks[b].body| else 0
    requires t.volatile == u.volatile
    requires forall r: Reg :: r < |f.nodes| && IsClear(f.nodes[r], a) ==> Bits(t, r) == Bits(u, r)
    requires FirstAccess(f, a, b, k).Some? ==>
               Bits(t, FirstAccess(f, a, b, k).value) == Bits(u, FirstAccess(f, a, b, k).value)
    ensures ScanTo(f, t, a, b, k) == ScanTo(f, u, a, b, k)
    ensures var s := ScanTo(f, t, a, b, k); s.Going? ==> s.first == FirstAccess(f, a, b, k)
    decreases b, k
  {
    if k > 0 {
      SizesUnseen(f, t, u, a, b, k - 1);
    } else if b > 0 {
      SizesUnseen(f, t, u, a, b - 1, |f.blocks[b - 1].body|);
    }
  }

  lemma ManySlots(f: Function, slots: seq<Reg>)
    requires Shape(f) && forall a :: a in slots ==> OnlyAddresses(f, {a})
    ensures OnlyAddresses(f, Elems(slots))
  {
    forall b: Label, k: nat | b < |f.blocks| && k < |f.blocks[b].body|
      ensures NodeCoherent(f.nodes[f.blocks[b].body[k]], Elems(slots))
    {
      forall a | a in slots ensures NodeCoherent(f.nodes[f.blocks[b].body[k]], {a}) {
        assert OnlyAddresses(f, {a});
      }
    }
    forall b: Label, u | b < |f.blocks| && u in EndUses(f.blocks[b].end) ensures u !in Elems(slots) {
      forall a | a in slots ensures u !in {a} { assert OnlyAddresses(f, {a}); }
    }
  }

  // The listed registers are slots to promote, each once, in the order of the blocks.
  ghost predicate Chosen(f: Function, slots: seq<Reg>, b: nat, k: nat)
    requires Shape(f)
  {
    && Distinct(slots)
    && forall a :: a in slots <==> exists c: Label, j: nat ::
      Before(f, c, j, b, k) && f.blocks[c].body[j] == a && Promotable(f, a)
  }

  ghost predicate Before(f: Function, c: Label, j: nat, b: nat, k: nat)
  {
    c < |f.blocks| && j < |f.blocks[c].body| && (c < b || (c == b && j < k))
  }

  ghost predicate Promotable(f: Function, a: Reg)
    requires Shape(f)
  {
    a < |f.nodes| && (f.nodes[a].Local? || f.nodes[a].ParamAddr?) && Verdict(f, f.types, a) == Good
  }

  // The slots before position k of block b.
  ghost function SlotsTo(f: Function, b: nat, k: nat): (slots: seq<Reg>)
    requires Shape(f) && b <= |f.blocks| && k <= if b < |f.blocks| then |f.blocks[b].body| else 0
    decreases b, k
  {
    if k > 0 then
      var r := f.blocks[b].body[k - 1];
      SlotsTo(f, b, k - 1) + if Promotable(f, r) then [r] else []
    else if b > 0 then SlotsTo(f, b - 1, |f.blocks[b - 1].body|)
    else []
  }

  lemma {:induction false} ChosenTo(f: Function, b: nat, k: nat)
    requires Shape(f) && b <= |f.blocks| && k <= if b < |f.blocks| then |f.blocks[b].body| else 0
    ensures Chosen(f, SlotsTo(f, b, k), b, k)
    decreases b, k
  {
    hide OnlyAddresses, Accessed, Promotable;
    if k > 0 {
      ChosenTo(f, b, k - 1);
      ChooseStep(f, SlotsTo(f, b, k - 1), b, k - 1, SlotsTo(f, b, k));
    } else if b > 0 {
      ChosenTo(f, b - 1, |f.blocks[b - 1].body|);
      NextBlock(f, SlotsTo(f, b, 0), b - 1);
    }
  }

  // The slots to promote, in the order of the blocks.
  // Slot i of the list stands before slot j in the blocks.
  ghost predicate StandsBefore(f: Function, slots: seq<Reg>, i: nat, j: nat)
  {
    i < |slots| && j < |slots| && exists b: Label, k: nat, c: Label, l: nat ::
      b < |f.blocks| && k < |f.blocks[b].body| && f.blocks[b].body[k] == slots[i] &&
      c < |f.blocks| && l < |f.blocks[c].body| && f.blocks[c].body[l] == slots[j] && (b < c || (b == c && k < l))
  }

  lemma {:induction false} SlotsStand(f: Function, b: nat, k: nat, i: nat, j: nat)
    requires Shape(f) && b <= |f.blocks| && k <= if b < |f.blocks| then |f.blocks[b].body| else 0
    requires i < j < |SlotsTo(f, b, k)|
    ensures StandsBefore(f, SlotsTo(f, b, k), i, j)
    decreases b, k
  {
    hide Promotable, Shape;
    if k > 0 {
      var front, all := SlotsTo(f, b, k - 1), SlotsTo(f, b, k);
      if j < |front| {
        SlotsStand(f, b, k - 1, i, j);
        assert all[i] == front[i] && all[j] == front[j];
      } else {
        ChosenTo(f, b, k - 1);
        assert front[i] in front;
        var c: Label, l: nat :| Before(f, c, l, b, k - 1) && f.blocks[c].body[l] == front[i];
        assert all[i] == front[i] && all[j] == f.blocks[b].body[k - 1];
      }
    } else if b > 0 {
      SlotsStand(f, b - 1, |f.blocks[b - 1].body|, i, j);
    }
  }

  ghost function SlotList(f: Function): (slots: seq<Reg>)
    requires Shape(f)
    ensures Distinct(slots) && Coherent(f, Elems(slots))
    ensures forall a :: a in slots <==> Promotable(f, a) && exists b: Label :: b < |f.blocks| && a in f.blocks[b].body
  {
    ChosenTo(f, |f.blocks|, 0);
    ChosenAll(f, SlotsTo(f, |f.blocks|, 0));
    SlotsTo(f, |f.blocks|, 0)
  }

  // The slots are in the order of the blocks and of the nodes in them.
  lemma SlotsInOrder(f: Function, i: nat, j: nat)
    requires Shape(f) && i < j < |SlotList(f)|
    ensures StandsBefore(f, SlotList(f), i, j)
  {
    hide Promotable, Shape, StandsBefore, SlotsTo;
    SlotsStand(f, |f.blocks|, 0, i, j);
  }

  // The first part of mem2reg: which slots to promote.
  method ChooseSlots(f: Function) returns (slots: seq<Reg>)
    requires Shape(f)
    ensures slots == SlotList(f)
  {
    hide Verdict;
    slots := [];
    var bb: nat := 0;
    while bb < |f.blocks|
      invariant bb <= |f.blocks| && slots == SlotsTo(f, bb, 0)
    {
      var k: nat := 0;
      while k < |f.blocks[bb].body|
        invariant k <= |f.blocks[bb].body| && slots == SlotsTo(f, bb, k)
      {
        var r := f.blocks[bb].body[k];
        if f.nodes[r].Local? || f.nodes[r].ParamAddr? {
          var c := StackSlotCoherency(f, r, f.types);
          if c == Good {
            slots := slots + [r];
          }
        }
        k := k + 1;
      }
      bb := bb + 1;
    }
  }

  lemma ChooseStep(f: Function, slots: seq<Reg>, b: Label, k: nat, slots1: seq<Reg>)
    requires Shape(f) && b < |f.blocks| && k < |f.blocks[b].body| && Chosen(f, slots, b, k)
    requires slots1 == slots + if Promotable(f, f.blocks[b].body[k]) then [f.blocks[b].body[k]] else []
    ensures Chosen(f, slots1, b, k + 1)
  {
    var r := f.blocks[b].body[k];
    hide OnlyAddresses, Accessed, Promotable;
    assert r !in slots;
    forall a
      ensures a in slots1 <==> exists c: Label, j: nat ::
                Before(f, c, j, b, k + 1) && f.blocks[c].body[j] == a && Promotable(f, a)
    {
      if a in slots {
        var c: Label, j: nat :| Before(f, c, j, b, k) && f.blocks[c].body[j] == a && Promotable(f, a);
        assert Before(f, c, j, b, k + 1);
      } else if a in slots1 {
        assert a == r && Before(f, b, k, b, k + 1);
      }
      if c: Label, j: nat :| Before(f, c, j, b, k + 1) && f.blocks[c].body[j] == a && Promotable(f, a) {
        if c == b && j == k {
        } else {
          assert Before(f, c, j, b, k);
        }
      }
    }
  }

  lemma NextBlock(f: Function, slots: seq<Reg>, b: Label)
    requires Shape(f) && b < |f.blocks| && Chosen(f, slots, b, |f.blocks[b].body|)
    ensures Chosen(f, slots, b + 1, 0)
  {
    hide OnlyAddresses, Accessed, Promotable;
    forall c: Label, j: nat ensures Before(f, c, j, b, |f.blocks[b].body|) <==> Before(f, c, j, b + 1, 0) {
    }
  }

  lemma ChosenAll(f: Function, slots: seq<Reg>)
    requires Shape(f) && Chosen(f, slots, |f.blocks|, 0)
    ensures Distinct(slots) && Coherent(f, Elems(slots))
    ensures forall a :: a in slots <==> Promotable(f, a) && exists b: Label :: b < |f.blocks| && a in f.blocks[b].body
  {
    hide OnlyAddresses, Accessed, Verdict;
    forall a ensures a in slots <==> Promotable(f, a) && exists b: Label :: b < |f.blocks| && a in f.blocks[b].body {
      if Promotable(f, a) && exists b: Label :: b < |f.blocks| && a in f.blocks[b].body {
        var b: Label :| b < |f.blocks| && a in f.blocks[b].body;
        var j: nat :| j < |f.blocks[b].body| && f.blocks[b].body[j] == a;
        assert Before(f, b, j, |f.blocks|, 0);
      }
    }
    forall a | a in slots ensures OnlyAddresses(f, {a}) { GoodIff(f, f.types, a); }
    ManySlots(f, slots);
  }
}
