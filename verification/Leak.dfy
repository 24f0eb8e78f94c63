// src/tb/opt/mem2reg.c:141-225: when the renaming, as it is written, reads what it is meant to.
// The height a stack goes back to is taken after the block's phi was pushed, and a call has room
// for a height per block, though it notes one per slot.

module Leak {
  import opened Cfg
  import opened Predecessors
  import opened Ir
  import opened Ssa
  import opened DomTree
  import opened Dominators
  import opened Frontiers
  import opened Promotion
  import opened PhiInsertion
  import opened DomWalk
  import opened StackWalk
  import opened Renaming
  import opened PlacedPhis
  import opened Coherency
  import opened PromotionRuns

  // What is meant: on entry to a block a stack shows what reaches the end of the block above, and
  // memsets push their zero.
  function Meant(pl: Plan): Plan
  {
    pl.(tops := map[], lost := false)
  }

  // ----- What is read -----

  // Whatever some definition reaches is read as it is meant.
  ghost predicate ReadsMeant(f: Function, pl: Plan, junk: Reg)
    requires PlanOk(f, pl)
  {
    && (forall a: Reg, b: Label, k: nat :: a in pl.slots && LoadAt(f, a, b, k) ==> ReadMeant(f, pl, junk, a, b, k))
    && (forall a: Reg, p: Label, b: Label :: EdgeRead(f, pl, a, p, b) ==>
         ReadMeant(f, pl, junk, a, p, |f.blocks[p].body|))
  }

  ghost predicate ReadMeant(f: Function, pl: Plan, junk: Reg, a: Reg, b: Label, k: nat)
    requires PlanOk(f, pl) && b < |f.blocks| && k <= |f.blocks[b].body|
  {
    Def(f, Meant(pl), a, b, k).Some? ==> Def(f, pl, a, b, k).GetOr(junk) == Def(f, Meant(pl), a, b, k).value
  }

  // The phi of slot a in block b has an input for p.
  ghost predicate EdgeRead(f: Function, pl: Plan, a: Reg, p: Label, b: Label)
  {
    (a, b) in pl.phi && Edge(GraphOf(f), p, b) && Reachable(GraphOf(f), p) && p < |f.blocks|
  }

  // The renaming is the one that is meant.
  ghost predicate RenamedAsMeant(f: Function, h: Function, pl: Plan, pre: seq<seq<Reg>>)
    requires PlanOk(f, pl)
  {
    MeantOk(f, pl);
    Renamed(f, h, Meant(pl), pre)
  }

  // The theorem, for any number of slots: the result is renamed as it is meant if and only if
  // everything it reads is.
  lemma ReadExact(f: Function, asWritten: bool, junk: Reg, h: Function, pl: Plan, pre: seq<seq<Reg>>)
    requires PassResult(f, asWritten, junk, h, pl, pre)
    ensures RenamedAsMeant(f, h, pl, pre) <==> ReadsMeant(f, pl, junk)
  {
    hide PhisExact, AreEntryTops, SlotsOf, PassSetup, Renamed, Rewritten, ReadsMeant, ReadsExactly, PlanOk;
    MeantOk(f, pl);
    if Renamed(f, h, Meant(pl), pre) {
      RenamedReads(f, junk, h, pl, pre);
    }
    if ReadsMeant(f, pl, junk) {
      ReadsRenamed(f, junk, h, pl, pre);
    }
  }

  lemma RenamedReads(f: Function, junk: Reg, h: Function, pl: Plan, pre: seq<seq<Reg>>)
    requires PlanOk(f, pl) && Renamed(f, h, Meant(pl), pre) && ReadsExactly(f, h, pl, junk)
    ensures ReadsMeant(f, pl, junk)
  {
    var pi := Meant(pl);
    hide Def, ExactDoms, Shape;
    forall a: Reg, b: Label, k: nat | a in pl.slots && LoadAt(f, a, b, k) ensures ReadMeant(f, pl, junk, a, b, k) {
      assert NodeRenamed(f, h.nodes, pi, b, k);
    }
    forall a: Reg, p: Label, b: Label | EdgeRead(f, pl, a, p, b)
      ensures ReadMeant(f, pl, junk, a, p, |f.blocks[p].body|)
    {
      assert PhiRenamed(f, h.nodes, pi, a, b);
      var own := OwnStore(f, a, p, b);
      assert PhiReads(h, pl.phi[(a, b)], p, ExitDef(f, pl, a, p).GetOr(junk), own);
      var r := pl.phi[(a, b)];
      if ExitDef(f, pi, a, p).Some? {
        SelectsOne(h.nodes[r].inputs, p, ExitDef(f, pl, a, p).GetOr(junk), ExitDef(f, pi, a, p).value, r, own);
      }
    }
  }

  lemma SelectsOne(ins: seq<PhiInput>, p: Label, t: Reg, u: Reg, r: Reg, own: Option<Reg>)
    requires SelectsFirst(ins, p, t, r, own) && Selects(ins, p, u, r)
    ensures t == u
  {
  }

  lemma ReadsRenamed(f: Function, junk: Reg, h: Function, pl: Plan, pre: seq<seq<Reg>>)
    requires PlanOk(f, pl) && Rewritten(f, h, pl, pre) && ReadsExactly(f, h, pl, junk) && ReadsMeant(f, pl, junk)
    ensures PlanOk(f, Meant(pl)) && Renamed(f, h, Meant(pl), pre)
  {
    var pi := Meant(pl);
    hide Def, ExactDoms, WellFormed;
    forall b: Label | b < |f.blocks| ensures BlockRenamed(f, h, pi, pre, b) {
      assert BlockRenamed(f, h, pl, pre, b);
      forall i | 0 <= i < |pre[b]| ensures PlacedIn(pi, b, pre[b][i]) {
        assert PlacedIn(pl, b, pre[b][i]);
      }
    }
    forall b: Label, k: nat | b < |f.blocks| && k < |f.blocks[b].body| ensures NodeRenamed(f, h.nodes, pi, b, k) {
      assert NodeRenamed(f, h.nodes, pl, b, k);
      if f.nodes[f.blocks[b].body[k]].Load? {
        assert LoadAt(f, f.nodes[f.blocks[b].body[k]].address, b, k);
      }
    }
    forall a: Reg, b: Label | (a, b) in pi.phi ensures PhiRenamed(f, h.nodes, pi, a, b) {
      assert pl.phi[(a, b)] < |h.nodes| && h.nodes[pl.phi[(a, b)]].Phi?;
      forall p: Label | Edge(GraphOf(f), p, b) && Reachable(GraphOf(f), p) && ExitDef(f, pi, a, p).Some?
        ensures Selects(h.nodes[pl.phi[(a, b)]].inputs, p, ExitDef(f, pi, a, p).value, pl.phi[(a, b)])
      {
        assert EdgeRead(f, pl, a, p, b);
        assert ReadMeant(f, pl, junk, a, p, |f.blocks[p].body|);
        assert PhiReads(h, pl.phi[(a, b)], p, ExitDef(f, pl, a, p).GetOr(junk), OwnStore(f, a, p, b));
        LocalReaches(f, pi, a, p, |f.blocks[p].body|);
      }
    }
  }

  // A block's own last store is what reaches its end.
  lemma {:induction false} LocalReaches(f: Function, pl: Plan, a: Reg, b: Label, k: nat)
    requires PlanOk(f, pl) && b < |f.blocks| && k <= |f.blocks[b].body|
    ensures LocalDef(f, a, b, k).None? ==> Def(f, pl, a, b, k) == Def(f, pl, a, b, 0)
    ensures LocalDef(f, a, b, k).Some? && !(pl.lost && IsZero(f, LocalDef(f, a, b, k).value)) ==>
              Def(f, pl, a, b, k) == LocalDef(f, a, b, k)
  {
    if k > 0 { LocalReaches(f, pl, a, b, k - 1); }
  }

  // The register of a memset.
  predicate IsZero(f: Function, r: Reg)
  {
    r < |f.nodes| && f.nodes[r].Clear?
  }

  // ----- With room for the heights of all slots -----

  lemma {:induction false} EntryWhole(s: Setup, b: Label)
    requires SetupOk(s) && Apart(s) && b < |s.f.blocks|
    ensures Whole(s, Entry(s, b))
    decreases Rank(GraphOf(s.f), b)
  {
    if b > 0 {
      IdomRank(GraphOf(s.f), s.doms, b);
      var d: Label := s.doms[b];
      assert d < |s.f.blocks|;
      hide Shape, ExactDoms, Children, Worked, Seen;
      EntryWhole(s, d);
      WorkedNotes(s, d, Entry(s, d));
      ChildrenApart(s, d, b, Worked(s, d, Entry(s, d)));
    }
  }

  lemma WorkedTop(f: Function, slots: seq<Reg>, pl: Plan, asWritten: bool, v: nat, d: Label)
    requires PlanOk(f, pl) && d < |f.blocks| && v < |slots| && AreEntryTops(SetupOf(f, slots, pl, asWritten), pl.tops)
    requires pl.lost == asWritten
    ensures var s := SetupOf(f, slots, pl, asWritten);
            TopOf(Worked(s, d, Entry(s, d)).stacks[v]) == ExitDef(f, pl, slots[v], d)
  {
    var s := SetupOf(f, slots, pl, asWritten);
    PhisPushed(f, slots, pl, asWritten, d);
    hide Entry, Entered, Def, PlanOk, AreEntryTops;
    BodyTop(f, pl, slots[v], d, |f.blocks[d].body|, Entered(s, d, Entry(s, d)).stacks[v]);
  }

  // On entry to a block a stack shows the phi that an earlier child of the block above left there,
  // or else what reaches the end of that.
  lemma ApartTop(f: Function, slots: seq<Reg>, pl: Plan, asWritten: bool, v: nat, b: Label)
    requires PlanOk(f, pl) && 0 < b < |f.blocks| && v < |slots| && (slots[v], b) !in pl.phi
    requires AreEntryTops(SetupOf(f, slots, pl, asWritten), pl.tops) && Apart(SetupOf(f, slots, pl, asWritten))
    requires pl.lost == asWritten
    ensures 0 <= pl.doms[b] < |f.blocks|
    ensures var s := SetupOf(f, slots, pl, asWritten);
            Def(f, pl, slots[v], b, 0) == if Leaked(s, slots[v], pl.doms[b], b).Some?
              then Leaked(s, slots[v], pl.doms[b], b) else ExitDef(f, pl, slots[v], pl.doms[b])
  {
    var s := SetupOf(f, slots, pl, asWritten);
    IdomRank(GraphOf(f), pl.doms, b);
    var d: Label := pl.doms[b];
    assert pl.tops[(slots[v], b)] == EntryTop(s, v, b);
    assert Entry(s, b) == Children(s, d, b, Worked(s, d, Entry(s, d)));
    EntryWhole(s, d);
    WorkedTop(f, slots, pl, asWritten, v, d);
    hide Entry, Children, Worked, Seen, Whole, ExactDoms, Shape;
    WorkedNotes(s, d, Entry(s, d));
    ChildrenApart(s, d, b, Worked(s, d, Entry(s, d)));
  }

  // ----- Phis left in the way -----

  // A phi that an earlier child left is on the stack of a when the walk comes to b.
  ghost predicate LeftAt(f: Function, D: Doms, a: Reg, b: Label)
    requires Shape(f) && ExactDoms(GraphOf(f), D) && b < |f.blocks|
    decreases Rank(GraphOf(f), b)
  {
    b > 0 && b !in JoinBlocks(f, a) &&
      (LeftBeside(f, D, a, b) ||
       (IdomRank(GraphOf(f), D, b); var d: Label := D[b]; !HasStore(f, a, d) && LeftAt(f, D, a, d)))
  }

  ghost predicate LeftBeside(f: Function, D: Doms, a: Reg, b: Label)
    requires Shape(f) && b < |D|
  {
    exists s: Label :: 0 < s < b && D[s] == D[b] && s in JoinBlocks(f, a)
  }

  // Some definition of a is meant to reach block b.
  ghost predicate DefinedAt(f: Function, D: Doms, a: Reg, b: Label)
    requires Shape(f) && ExactDoms(GraphOf(f), D) && b < |f.blocks|
    decreases Rank(GraphOf(f), b)
  {
    b in JoinBlocks(f, a) ||
      (b > 0 && (IdomRank(GraphOf(f), D, b); var d: Label := D[b]; HasStore(f, a, d) || DefinedAt(f, D, a, d)))
  }

  // No load and no input of a phi is reached by such a phi instead of what is meant to reach it.
  ghost predicate NothingRead(f: Function, D: Doms)
    requires Shape(f) && ExactDoms(GraphOf(f), D)
  {
    && (forall a: Reg, b: Label, k: nat :: a in SlotsOf(f) && LoadAt(f, a, b, k) ==> !LeftFor(f, D, a, b, k))
    && (forall a: Reg, p: Label, b: Label :: a in SlotsOf(f) && JoinEdge(f, a, p, b) ==>
         !LeftFor(f, D, a, p, |f.blocks[p].body|))
  }

  ghost predicate JoinEdge(f: Function, a: Reg, p: Label, b: Label)
    requires Shape(f)
  {
    b in JoinBlocks(f, a) && Edge(GraphOf(f), p, b) && Reachable(GraphOf(f), p) && p < |f.blocks|
  }

  // Without a store of its own the block shows such a phi at position k, though a definition is
  // meant to reach it.
  ghost predicate LeftFor(f: Function, D: Doms, a: Reg, b: Label, k: nat)
    requires Shape(f) && ExactDoms(GraphOf(f), D) && b < |f.blocks| && k <= |f.blocks[b].body|
  {
    LocalDef(f, a, b, k).None? && LeftAt(f, D, a, b) && DefinedAt(f, D, a, b)
  }

  lemma DefinedIs(f: Function, pl: Plan, a: Reg, b: Label)
    requires PlanOk(f, pl) && PhisExact(f, pl) && a in pl.slots && b < |f.blocks|
    ensures Def(f, Meant(pl), a, b, 0).Some? <==> DefinedAt(f, pl.doms, a, b)
    decreases Rank(GraphOf(f), b)
  {
    if b > 0 {
      IdomRank(GraphOf(f), pl.doms, b);
      var d: Label := pl.doms[b];
      DefinedIs(f, pl, a, d);
      LocalReaches(f, Meant(pl), a, d, |f.blocks[d].body|);
      LastStoreSome(f, a, d);
    }
  }

  // What reaches a point is a stored register or the phi of a block above.
  ghost predicate FromAbove(f: Function, pl: Plan, a: Reg, b: Label, r: Reg)
    requires PlanOk(f, pl) && b < |f.blocks|
  {
    r < |f.nodes| || exists c: Label :: (a, c) in pl.phi && pl.phi[(a, c)] == r && Under(GraphOf(f), pl.doms, c, b)
  }

  lemma {:induction false} MeantFromAbove(f: Function, pl: Plan, slots: seq<Reg>, a: Reg, b: Label, k: nat)
    requires PlanOk(f, pl) && PhiFree(f, slots) && pl == Meant(pl) && b < |f.blocks| && k <= |f.blocks[b].body|
    ensures Def(f, pl, a, b, k).Some? ==> FromAbove(f, pl, a, b, Def(f, pl, a, b, k).value)
    decreases Rank(GraphOf(f), b), k
  {
    if k > 0 {
      assert StoredFits(f, b, k - 1, a);
      if Stored(f, f.blocks[b].body[k - 1], a).None? {
        MeantFromAbove(f, pl, slots, a, b, k - 1);
      }
    } else if (a, b) in pl.phi {
      assert Under(GraphOf(f), pl.doms, b, b);
    } else if b > 0 {
      IdomRank(GraphOf(f), pl.doms, b);
      var d: Label := pl.doms[b];
      MeantFromAbove(f, pl, slots, a, d, |f.blocks[d].body|);
    }
  }

  lemma {:induction false} LeakedIs(s: Setup, a: Reg, d: int, n: nat)
    requires n <= |s.doms|
    ensures Leaked(s, a, d, n).Some? <==>
              s.asWritten && exists c: Label :: 0 < c < n && s.doms[c] == d && (a, c) in s.phi
    ensures Leaked(s, a, d, n).Some? ==>
              exists c: Label :: 0 < c < n && s.doms[c] == d && (a, c) in s.phi &&
                s.phi[(a, c)] == Leaked(s, a, d, n).value
  {
    if n > 1 { LeakedIs(s, a, d, n - 1); }
  }

  // The plan is the one of the pass as it is written, with room for all heights.
  ghost predicate Roomy(f: Function, pl: Plan)
  {
    && PlanOk(f, pl) && PhiFree(f, []) && pl.slots == SlotsOf(f) && PhisExact(f, pl)
    && AreEntryTops(PassSetup(f, pl, true), pl.tops) && pl.lost && |SlotList(f)| <= |f.blocks|
  }

  lemma RoomyFacts(f: Function, pl: Plan)
    requires Roomy(f, pl)
    ensures PlanOk(f, pl) && PlanOk(f, Meant(pl)) && PhiFree(f, []) && PhisExact(f, pl) && pl.slots == SlotsOf(f)
    ensures pl.lost
    ensures Shape(f) && ExactDoms(GraphOf(f), pl.doms)
  {
    hide ExactDoms, Shape, AreEntryTops, SlotList, PhisExact, PhiFree;
    MeantOk(f, pl);
  }

  lemma MeantOk(f: Function, pl: Plan)
    requires PlanOk(f, pl)
    ensures PlanOk(f, Meant(pl)) && Shape(f) && ExactDoms(GraphOf(f), pl.doms)
  {
    hide ExactDoms, Shape;
  }

  lemma PhiIff(f: Function, pl: Plan, a: Reg, b: Label)
    requires Shape(f) && PhisExact(f, pl)
    ensures (a, b) in pl.phi <==> a in pl.slots && b in JoinBlocks(f, a)
  {
  }

  lemma RoomyTop(f: Function, pl: Plan, a: Reg, b: Label)
    requires Roomy(f, pl) && a in pl.slots && 0 < b < |f.blocks| && (a, b) !in pl.phi
    ensures 0 <= pl.doms[b] < |f.blocks|
    ensures var l := Leaked(PassSetup(f, pl, true), a, pl.doms[b], b);
            Def(f, pl, a, b, 0) == if l.Some? then l else ExitDef(f, pl, a, pl.doms[b])
  {
    hide PhisExact, PhiFree, PlanOk, SlotList, AreEntryTops;
    var v := SlotId(SlotList(f), a);
    assert SetupOf(f, SlotList(f), pl, true) == PassSetup(f, pl, true);
    ApartTop(f, SlotList(f), pl, true, v, b);
  }

  lemma LeakedBeside(f: Function, pl: Plan, a: Reg, b: Label)
    requires Roomy(f, pl) && a in pl.slots && 0 < b < |f.blocks|
    ensures b < |pl.doms| && (Leaked(PassSetup(f, pl, true), a, pl.doms[b], b).Some? <==> LeftBeside(f, pl.doms, a, b))
  {
    LeakedIs(PassSetup(f, pl, true), a, pl.doms[b], b);
    hide ExactDoms, Shape, JoinBlocks, AreEntryTops, SlotList;
  }

  // ----- Zeros that are lost -----

  // What is meant to reach block b is the zero of a memset.
  ghost predicate ZeroAt(f: Function, D: Doms, a: Reg, b: Label)
    requires Shape(f) && ExactDoms(GraphOf(f), D) && b < |f.blocks|
    decreases Rank(GraphOf(f), b)
  {
    b > 0 && b !in JoinBlocks(f, a) &&
      (IdomRank(GraphOf(f), D, b); var d: Label := D[b]; var s := LastStore(f, a, d);
       if s.Some? then IsZero(f, s.value) else ZeroAt(f, D, a, d))
  }

  ghost predicate ZeroFor(f: Function, D: Doms, a: Reg, b: Label, k: nat)
    requires Shape(f) && ExactDoms(GraphOf(f), D) && b < |f.blocks| && k <= |f.blocks[b].body|
  {
    var s := LocalDef(f, a, b, k);
    if s.Some? then IsZero(f, s.value) else ZeroAt(f, D, a, b)
  }

  // No load and no input of a phi is meant to get the zero of a memset.
  ghost predicate NothingZeroed(f: Function, D: Doms)
    requires Shape(f) && ExactDoms(GraphOf(f), D)
  {
    && (forall a: Reg, b: Label, k: nat :: a in SlotsOf(f) && LoadAt(f, a, b, k) ==> !ZeroFor(f, D, a, b, k))
    && (forall a: Reg, p: Label, b: Label :: a in SlotsOf(f) && JoinEdge(f, a, p, b) ==>
         !ZeroFor(f, D, a, p, |f.blocks[p].body|))
  }

  ghost predicate NoMemsets(f: Function)
  {
    forall r: Reg :: r < |f.nodes| ==> !f.nodes[r].Clear?
  }

  lemma {:induction false} NoZeroAt(f: Function, D: Doms, a: Reg, b: Label)
    requires Shape(f) && ExactDoms(GraphOf(f), D) && b < |f.blocks| && NoMemsets(f)
    ensures !ZeroAt(f, D, a, b)
    decreases Rank(GraphOf(f), b)
  {
    if b > 0 {
      IdomRank(GraphOf(f), D, b);
      NoZeroAt(f, D, a, D[b]);
    }
  }

  lemma NoMemsetsNothing(f: Function, D: Doms)
    requires Shape(f) && ExactDoms(GraphOf(f), D) && NoMemsets(f)
    ensures NothingZeroed(f, D)
  {
    hide ExactDoms, Shape, JoinBlocks, SlotsOf, ZeroAt;
    forall a: Reg, b: Label | b < |f.blocks| ensures !ZeroAt(f, D, a, b) { NoZeroAt(f, D, a, b); }
  }

  lemma {:induction false} ZeroAtIs(f: Function, pl: Plan, a: Reg, b: Label)
    requires PlanOk(f, pl) && PhisExact(f, pl) && PhiFree(f, []) && a in pl.slots && b < |f.blocks|
    ensures PlanOk(f, Meant(pl))
    ensures var d := Def(f, Meant(pl), a, b, 0); ZeroAt(f, pl.doms, a, b) <==> d.Some? && IsZero(f, d.value)
    decreases Rank(GraphOf(f), b)
  {
    MeantOk(f, pl);
    PhiIff(f, pl, a, b);
    hide PlanOk, PhisExact, JoinBlocks, Shape;
    if b > 0 && (a, b) !in pl.phi {
      IdomRank(GraphOf(f), pl.doms, b);
      var d: Label := pl.doms[b];
      LocalReaches(f, Meant(pl), a, d, |f.blocks[d].body|);
      ZeroAtIs(f, pl, a, d);
    }
  }

  lemma ZeroForIs(f: Function, pl: Plan, a: Reg, b: Label, k: nat)
    requires PlanOk(f, pl) && PhisExact(f, pl) && PhiFree(f, []) && a in pl.slots
    requires b < |f.blocks| && k <= |f.blocks[b].body|
    ensures PlanOk(f, Meant(pl))
    ensures var d := Def(f, Meant(pl), a, b, k); ZeroFor(f, pl.doms, a, b, k) <==> d.Some? && IsZero(f, d.value)
  {
    hide PhisExact, Shape, ExactDoms, ZeroAt, PhiFree;
    ZeroAtIs(f, pl, a, b);
    LocalReaches(f, Meant(pl), a, b, k);
  }

  lemma PushesNoZero(f: Function, pl: Plan, a: Reg, b: Label, k: nat)
    requires PlanOk(f, pl) && PhiFree(f, []) && pl.lost && b < |f.blocks| && k < |f.blocks[b].body|
    ensures var s := PushedBy(f, pl.lost, f.blocks[b].body[k], a);
            Def(f, pl, a, b, k + 1) == if s.Some? then s else Def(f, pl, a, b, k)
    ensures var s := PushedBy(f, pl.lost, f.blocks[b].body[k], a); s.Some? ==> !IsZero(f, s.value)
  {
    hide ExactDoms, WellFormed;
    assert StoredFits(f, b, k, a);
  }

  lemma DomsFit(f: Function, D: Doms)
    requires ExactDoms(GraphOf(f), D)
    ensures |D| == |GraphOf(f)| == |f.blocks|
    ensures forall b: Label :: b < |f.blocks| ==> 0 <= D[b] < |f.blocks|
  {
  }

  // As written, no stack ever shows the zero of a memset.
  lemma {:induction false} NeverZero(f: Function, pl: Plan, a: Reg, b: Label, k: nat)
    requires Roomy(f, pl) && a in pl.slots && b < |f.blocks| && k <= |f.blocks[b].body|
    ensures Def(f, pl, a, b, k).Some? ==> !IsZero(f, Def(f, pl, a, b, k).value)
    decreases Rank(GraphOf(f), b), k
  {
    hide *;
    RoomyFacts(f, pl);
    if k > 0 {
      PushesNoZero(f, pl, a, b, k - 1);
      NeverZero(f, pl, a, b, k - 1);
    } else {
      if b == 0 || (a, b) in pl.phi {
        EntryNoZero(f, pl, a, b);
      } else {
        DomsFit(f, pl.doms);
        IdomRank(GraphOf(f), pl.doms, b);
        var d: Label := pl.doms[b];
        NeverZero(f, pl, a, d, |f.blocks[d].body|);
        TopNoZero(f, pl, a, b, d);
      }
    }
  }

  lemma TopNoZero(f: Function, pl: Plan, a: Reg, b: Label, d: Label)
    requires Roomy(f, pl) && a in pl.slots && 0 < b < |f.blocks| && (a, b) !in pl.phi
    requires d < |f.blocks| && b < |pl.doms| && pl.doms[b] == d
    requires var x := Def(f, pl, a, d, |f.blocks[d].body|); x.Some? ==> !IsZero(f, x.value)
    ensures Def(f, pl, a, b, 0).Some? ==> !IsZero(f, Def(f, pl, a, b, 0).value)
  {
    hide PhisExact, PhiFree, Shape, ExactDoms, Def, AreEntryTops, SlotList, SlotsOf;
    RoomyTop(f, pl, a, b);
    LeakedIs(PassSetup(f, pl, true), a, d, b);
  }

  lemma EntryNoZero(f: Function, pl: Plan, a: Reg, b: Label)
    requires PlanOk(f, pl) && b < |f.blocks| && (b == 0 || (a, b) in pl.phi)
    ensures Def(f, pl, a, b, 0).Some? ==> !IsZero(f, Def(f, pl, a, b, 0).value)
  {
    hide ExactDoms, Shape;
  }

  // ----- Both faults -----

  // Where no phi is left and no zero lost, what reaches the block is what is meant to.
  lemma {:induction false} NotLeft(f: Function, pl: Plan, a: Reg, b: Label)
    requires Roomy(f, pl) && a in pl.slots && b < |f.blocks|
    requires !LeftAt(f, pl.doms, a, b) && !ZeroAt(f, pl.doms, a, b)
    ensures Def(f, pl, a, b, 0) == Def(f, Meant(pl), a, b, 0)
    decreases Rank(GraphOf(f), b)
  {
    hide Roomy, PhisExact, JoinBlocks, Shape, HasStore;
    RoomyFacts(f, pl);
    PhiIff(f, pl, a, b);
    if b > 0 && (a, b) !in pl.phi {
      IdomRank(GraphOf(f), pl.doms, b);
      var d: Label := pl.doms[b];
      RoomyTop(f, pl, a, b);
      LeakedBeside(f, pl, a, b);
      var k := |f.blocks[d].body|;
      LocalReaches(f, pl, a, d, k);
      LocalReaches(f, Meant(pl), a, d, k);
      LastStoreSome(f, a, d);
      if !HasStore(f, a, d) { NotLeft(f, pl, a, d); }
    }
  }

  // A phi that the walk has left, of a block that b does not hang under.
  ghost predicate Strange(f: Function, pl: Plan, a: Reg, b: Label, r: Reg)
    requires PlanOk(f, pl) && b < |f.blocks|
  {
    exists t: Label :: (a, t) in pl.phi && pl.phi[(a, t)] == r && !Under(GraphOf(f), pl.doms, t, b)
  }

  lemma {:induction false} LeftShows(f: Function, pl: Plan, a: Reg, b: Label)
    requires Roomy(f, pl) && a in pl.slots && b < |f.blocks| && LeftAt(f, pl.doms, a, b)
    ensures Def(f, pl, a, b, 0).Some? && Strange(f, pl, a, b, Def(f, pl, a, b, 0).value)
    decreases Rank(GraphOf(f), b)
  {
    RoomyFacts(f, pl);
    PhiIff(f, pl, a, b);
    hide Roomy, PhisExact, JoinBlocks, Shape, HasStore;
    var g, D := GraphOf(f), pl.doms;
    IdomRank(g, D, b);
    var d: Label := D[b];
    RoomyTop(f, pl, a, b);
    LeakedBeside(f, pl, a, b);
    var l := Leaked(PassSetup(f, pl, true), a, D[b], b);
    if l.Some? {
      LeakedIs(PassSetup(f, pl, true), a, D[b], b);
      var c: Label :| 0 < c < b && D[c] == D[b] && (a, c) in pl.phi && pl.phi[(a, c)] == l.value;
      if Under(g, D, c, b) {
        assert Under(g, D, b, b);
        OneChild(g, D, c, b, b);
      }
    } else {
      LocalReaches(f, pl, a, d, |f.blocks[d].body|);
      LastStoreSome(f, a, d);
      LeftShows(f, pl, a, d);
      var t: Label :| (a, t) in pl.phi && pl.phi[(a, t)] == Def(f, pl, a, b, 0).value && !Under(g, D, t, d);
      assert t != b;
    }
  }

  lemma StrangeDiffers(f: Function, pl: Plan, a: Reg, b: Label, r: Reg, u: Reg)
    requires PlanOk(f, pl) && b < |f.blocks| && Strange(f, pl, a, b, r) && FromAbove(f, Meant(pl), a, b, u)
    ensures r != u
  {
    hide Under, ExactDoms;
  }

  lemma ReadIff(f: Function, pl: Plan, junk: Reg, a: Reg, b: Label, k: nat)
    requires Roomy(f, pl) && a in pl.slots && b < |f.blocks| && k <= |f.blocks[b].body| && !IsZero(f, junk)
    ensures ReadMeant(f, pl, junk, a, b, k) <==> !LeftFor(f, pl.doms, a, b, k) && !ZeroFor(f, pl.doms, a, b, k)
  {
    hide Roomy, LeftAt, ZeroAt, DefinedAt, ExactDoms, Shape, Strange, FromAbove;
    RoomyFacts(f, pl);
    LocalReaches(f, pl, a, b, k);
    LocalReaches(f, Meant(pl), a, b, k);
    ZeroForIs(f, pl, a, b, k);
    NeverZero(f, pl, a, b, k);
    if LocalDef(f, a, b, k).None? && !ZeroFor(f, pl.doms, a, b, k) {
      DefinedIs(f, pl, a, b);
      if LeftAt(f, pl.doms, a, b) {
        LeftShows(f, pl, a, b);
        if Def(f, Meant(pl), a, b, 0).Some? {
          MeantFromAbove(f, Meant(pl), [], a, b, 0);
          StrangeDiffers(f, pl, a, b, Def(f, pl, a, b, 0).value, Def(f, Meant(pl), a, b, 0).value);
        }
      } else {
        NotLeft(f, pl, a, b);
      }
    }
  }

  // The theorem for no more slots than blocks: everything is read as it is meant if and only if
  // no load and no input of a phi is reached by a phi that was left in the way, or meant to get the
  // zero of a memset. What is read from an empty stack is no memset.
  lemma LeakExact(f: Function, junk: Reg, h: Function, pl: Plan, pre: seq<seq<Reg>>)
    requires Ready(f) && PassResult(f, true, junk, h, pl, pre) && |SlotList(f)| <= |f.blocks| && !IsZero(f, junk)
    ensures ReadsMeant(f, pl, junk) <==> NothingRead(f, pl.doms) && NothingZeroed(f, pl.doms)
  {
    assert Roomy(f, pl);
    hide Roomy, PlanOk, Ready, ReadMeant, LeftFor, ZeroFor, PhisExact, JoinBlocks, Rewritten, ReadsExactly,
         AreEntryTops, SlotList, ExactDoms, IsZero;
    forall a: Reg, b: Label, k: nat | a in pl.slots && LoadAt(f, a, b, k)
      ensures ReadMeant(f, pl, junk, a, b, k) <==> !LeftFor(f, pl.doms, a, b, k) && !ZeroFor(f, pl.doms, a, b, k)
    {
      ReadIff(f, pl, junk, a, b, k);
    }
    forall a: Reg, p: Label, b: Label
      ensures EdgeRead(f, pl, a, p, b) <==> a in SlotsOf(f) && JoinEdge(f, a, p, b)
      ensures EdgeRead(f, pl, a, p, b) ==>
                (ReadMeant(f, pl, junk, a, p, |f.blocks[p].body|) <==>
                  !LeftFor(f, pl.doms, a, p, |f.blocks[p].body|) && !ZeroFor(f, pl.doms, a, p, |f.blocks[p].body|))
    {
      PhiIff(f, pl, a, b);
      if EdgeRead(f, pl, a, p, b) {
        ReadIff(f, pl, junk, a, p, |f.blocks[p].body|);
      }
    }
  }

  // ----- When nothing can be left in the way -----

  // d is the parent of b in the dominator tree; blocks that are never reached hang below the entry.
  ghost predicate Parent(g: Graph, d: Label, b: Label)
  {
    if b > 0 && Reachable(g, b) then IsIdom(g, d, b) else d == 0
  }

  // Among the children of a block in the dominator tree, none that needs no phi for a slot comes
  // after one that does.
  ghost predicate LeakFree(f: Function)
    requires Shape(f)
  {
    forall a: Reg, d: Label, s: Label, b: Label ::
      (a in SlotsOf(f) && 0 < s < b < |f.blocks| && Parent(GraphOf(f), d, s) && Parent(GraphOf(f), d, b) &&
        s in JoinBlocks(f, a)) ==>
        b in JoinBlocks(f, a)
  }

  lemma {:induction false} LeakFreeAt(f: Function, D: Doms, a: Reg, b: Label)
    requires Shape(f) && ExactDoms(GraphOf(f), D) && LeakFree(f) && a in SlotsOf(f) && b < |f.blocks|
    ensures !LeftAt(f, D, a, b)
    decreases Rank(GraphOf(f), b)
  {
    if b > 0 {
      IdomRank(GraphOf(f), D, b);
      var d: Label := D[b];
      LeakFreeAt(f, D, a, d);
      if LeftBeside(f, D, a, b) {
        var s: Label :| 0 < s < b && D[s] == D[b] && s in JoinBlocks(f, a);
        assert Parent(GraphOf(f), d, s) && Parent(GraphOf(f), d, b);
      }
    }
  }

  lemma LeakFreeReads(f: Function, D: Doms)
    requires Shape(f) && ExactDoms(GraphOf(f), D) && LeakFree(f)
    ensures NothingRead(f, D)
  {
    hide LeakFree, LeftAt, ExactDoms, DefinedAt, SlotsOf;
    forall a: Reg, b: Label | a in SlotsOf(f) && b < |f.blocks| ensures !LeftAt(f, D, a, b) {
      LeakFreeAt(f, D, a, b);
    }
  }

  // ----- The pass as it is meant -----

  lemma {:induction false} MeantDef(f: Function, slots: seq<Reg>, pl: Plan, v: nat, b: Label, k: nat)
    requires PlanOk(f, pl) && b < |f.blocks| && k <= |f.blocks[b].body| && v < |slots|
    requires AreEntryTops(SetupOf(f, slots, pl, false), pl.tops) && !pl.lost
    ensures Def(f, pl, slots[v], b, k) == Def(f, Meant(pl), slots[v], b, k)
    decreases Rank(GraphOf(f), b), k
  {
    MeantOk(f, pl);
    hide AreEntryTops, PlanOk, Shape;
    if k > 0 {
      MeantDef(f, slots, pl, v, b, k - 1);
    } else if (slots[v], b) !in pl.phi && b > 0 {
      IdomRank(GraphOf(f), pl.doms, b);
      var d: Label := pl.doms[b];
      ApartTop(f, slots, pl, false, v, b);
      LeakedIs(SetupOf(f, slots, pl, false), slots[v], d, b);
      MeantDef(f, slots, pl, v, d, |f.blocks[d].body|);
    }
  }

  lemma MeantReads(f: Function, junk: Reg, h: Function, pl: Plan, pre: seq<seq<Reg>>)
    requires PassResult(f, false, junk, h, pl, pre)
    ensures ReadsMeant(f, pl, junk)
  {
    assert SetupOf(f, SlotList(f), pl, false) == PassSetup(f, pl, false);
    hide Def, ExactDoms, Rewritten, ReadsExactly, PhisExact, AreEntryTops, WellFormed;
    forall a: Reg, b: Label, k: nat | a in pl.slots && b < |f.blocks| && k <= |f.blocks[b].body|
      ensures ReadMeant(f, pl, junk, a, b, k)
    {
      MeantDef(f, SlotList(f), pl, SlotId(SlotList(f), a), b, k);
    }
  }

  // ----- Runs -----

  // The theorem: what the pass makes of a function runs as the function does, if every load of
  // a promoted slot comes after a store on every path; as it is written, if moreover what it reads
  // is what is meant.
  lemma PassPreservesRuns<V, W>(sem: Sem<V, W>, f: Function, asWritten: bool, junk: Reg, h: Function, pl: Plan,
                                pre: seq<seq<Reg>>, w: W, n: nat)
    requires Ready(f) && PassResult(f, asWritten, junk, h, pl, pre) && LoadsInitialised(f, pl.slots)
    requires asWritten ==> ReadsMeant(f, pl, junk)
    ensures SameRun(sem, f, pl, Run(sem, pl.slots, f, w, n), Run(sem, {}, h, w, n))
  {
    if !asWritten { MeantReads(f, junk, h, pl, pre); }
    ReadExact(f, asWritten, junk, h, pl, pre);
    hide ReadsMeant, PhisExact, Renamed, Rewritten, ReadsExactly, PlanOk, SsaForm, LoadsInitialised, Placed, Shape,
         Coherent, Promotable, AreEntryTops;
    ExactIsPlaced(f, pl);
    SamePlaced(f, pl);
    PromotionPreservesRuns(sem, f, h, Meant(pl), pre, w, n);
  }

  // The same in terms of the two functions alone.
  lemma PromotedRunsAlike<V, W>(sem: Sem<V, W>, f: Function, asWritten: bool, junk: Reg, h: Function, w: W, n: nat)
    requires Ready(f) && Promoted(f, asWritten, junk, h) && LoadsInitialised(f, SlotsOf(f))
    requires asWritten ==>
      && |SlotList(f)| <= |f.blocks| && !IsZero(f, junk)
      && forall D: Doms :: ExactDoms(GraphOf(f), D) ==> NothingRead(f, D) && NothingZeroed(f, D)
    ensures var c, d := Run(sem, SlotsOf(f), f, w, n), Run(sem, {}, h, w, n);
            && (c.At? <==> d.At?) && (c.At? ==> c.block == d.block && c.from == d.from)
            && (c.Halted? ==> c.outcome == d.outcome) && c.st.world == d.st.world
            && forall r: Reg :: r < |f.nodes| && r !in SlotsOf(f) ==> Val(sem, c.st, r) == Val(sem, d.st, r)
  {
    var pl: Plan, pre: seq<seq<Reg>> :| PassResult(f, asWritten, junk, h, pl, pre);
    assert PlanOk(f, pl) && pl.slots == SlotsOf(f);
    hide Ready, PassResult, LoadsInitialised, NothingRead, NothingZeroed, ReadsMeant, Promoted, SlotsOf, SlotList, Run;
    if asWritten { LeakExact(f, junk, h, pl, pre); }
    PassPreservesRuns(sem, f, asWritten, junk, h, pl, pre, w, n);
  }

  lemma SamePlaced(f: Function, pl: Plan)
    requires PlanOk(f, pl) && Placed(f, pl)
    ensures PlanOk(f, Meant(pl)) && Placed(f, Meant(pl))
  {
    hide ExactDoms, Shape;
    forall a | a in pl.slots ensures PhiComplete(f, Meant(pl), a) || SingleStore(f, Meant(pl), a) {
      if PhiComplete(f, pl, a) {
        forall x: Label, y: Label
          | Reachable(GraphOf(f), x) && IsDef(f, Meant(pl), a, x) && InFrontier(GraphOf(f), x, y) && y > 0
          ensures (a, y) in pl.phi
        {
          assert IsDef(f, pl, a, x);
        }
      }
    }
  }
}
