// src/tb/opt/mem2reg.c:141-225: what the renaming walk does to its stacks. The heights that they
// go back to are in temporary storage, where each call has the area behind its caller's.

module StackWalk {
  import opened Finite
  import opened Cfg
  import opened Predecessors
  import opened Ir
  import opened DomTree
  import opened Dominators
  import opened Promotion
  import opened DomWalk

  // A dynamic array: what was ever written to it, and its length. Setting the length leaves the
  // elements as they are; beyond them there is nothing known.
  datatype Stack = Stack(data: seq<Option<Reg>>, len: nat)

  function TopOf(s: Stack): Option<Reg>
  {
    if 0 < s.len <= |s.data| then s.data[s.len - 1] else None
  }

  // dyn_array_put
  function Put(s: Stack, x: Reg): Stack
  {
    if s.len < |s.data| then Stack(s.data[s.len := Some(x)], s.len + 1)
    else Stack(s.data + seq(s.len - |s.data|, _ => None) + [Some(x)], s.len + 1)
  }

  function Pushed(s: Stack, x: Option<Reg>): Stack
  {
    if x.Some? then Put(s, x.value) else s
  }

  lemma TopOfPushed(s: Stack, x: Option<Reg>)
    ensures TopOf(Pushed(s, x)) == if x.Some? then x else TopOf(s)
  {
  }

  // The stacks of the slots, and the temporary storage: its contents and how much is in use.
  datatype Moment = Moment(stacks: seq<Stack>, heights: map<nat, nat>, used: nat)

  // What the walk goes by. As written, a call takes room for a height per block, the height is that
  // with the block's own phi, and memsets push nothing; meant is a height per slot, without the phi.
  datatype Setup = Setup(f: Function, slots: seq<Reg>, phi: map<(Reg, Label), Reg>, doms: Doms, asWritten: bool)

  ghost predicate SetupOk(s: Setup)
  {
    Shape(s.f) && ExactDoms(GraphOf(s.f), s.doms)
  }

  function Area(s: Setup): nat
  {
    if s.asWritten then |s.f.blocks| else |s.slots|
  }

  ghost function PhiAt(s: Setup, a: Reg, b: Label): Option<Reg>
  {
    if (a, b) in s.phi then Some(s.phi[(a, b)]) else None
  }

  function HeightAt(w: Moment, i: nat): nat
  {
    if i in w.heights then w.heights[i] else 0
  }

  function Start(s: Setup): Moment
  {
    Moment(seq(|s.slots|, _ => Stack([], 0)), map[], 0)
  }

  // The lengths of the first n stacks are noted from `base` on.
  function Noted(heights: map<nat, nat>, base: nat, stacks: seq<Stack>, n: nat): (h: map<nat, nat>)
    requires n <= |stacks|
    ensures forall i: nat :: base <= i < base + n ==> i in h && h[i] == stacks[i - base].len
    ensures forall i: nat :: !(base <= i < base + n) ==> (i in h <==> i in heights) && (i in h ==> h[i] == heights[i])
  {
    if n == 0 then heights else Noted(heights, base, stacks, n - 1)[base + n - 1 := stacks[n - 1].len]
  }

  // The block's phis are on the stacks, the heights noted.
  ghost function Entered(s: Setup, b: Label, w: Moment): (u: Moment)
    requires |w.stacks| == |s.slots|
    ensures |u.stacks| == |s.slots| && u.used == w.used + Area(s)
    ensures forall v: nat :: v < |s.slots| ==> u.stacks[v] == Pushed(w.stacks[v], PhiAt(s, s.slots[v], b))
  {
    var stacks := seq(|s.slots|, v requires 0 <= v < |s.slots| => Pushed(w.stacks[v], PhiAt(s, s.slots[v], b)));
    var noted := if s.asWritten then stacks else w.stacks;
    Moment(stacks, Noted(w.heights, w.used, noted, |s.slots|), w.used + Area(s))
  }

  // The first v phis are pushed and their heights noted.
  ghost predicate EnteredTo(s: Setup, b: Label, w: Moment, v: nat, stacks: seq<Stack>, heights: map<nat, nat>)
  {
    && v <= |s.slots| == |stacks| == |w.stacks|
    && (forall u: nat :: u < |stacks| ==>
         stacks[u] == if u < v then Pushed(w.stacks[u], PhiAt(s, s.slots[u], b)) else w.stacks[u])
    && heights == Noted(w.heights, w.used, if s.asWritten then Entered(s, b, w).stacks else w.stacks, v)
  }

  lemma EnteredStart(s: Setup, b: Label, w: Moment)
    requires |w.stacks| == |s.slots|
    ensures EnteredTo(s, b, w, 0, w.stacks, w.heights)
  {
  }

  lemma EnteredStep(s: Setup, b: Label, w: Moment, v: nat, stacks: seq<Stack>, heights: map<nat, nat>)
    requires EnteredTo(s, b, w, v, stacks, heights) && v < |s.slots|
    ensures |stacks| == |s.slots|
    ensures var p := Pushed(stacks[v], PhiAt(s, s.slots[v], b));
            EnteredTo(s, b, w, v + 1, stacks[v := p],
                      heights[w.used + v := if s.asWritten then p.len else stacks[v].len])
  {
    hide Pushed, PhiAt;
  }

  lemma EnteredAll(s: Setup, b: Label, w: Moment, stacks: seq<Stack>, heights: map<nat, nat>)
    requires EnteredTo(s, b, w, |s.slots|, stacks, heights)
    ensures Entered(s, b, w) == Moment(stacks, heights, w.used + Area(s))
  {
    hide Pushed, PhiAt, Noted;
    assert stacks == Entered(s, b, w).stacks;
  }

  // After the first k nodes of a body.
  ghost function BodyStack(f: Function, lost: bool, a: Reg, b: Label, k: nat, st: Stack): Stack
    requires Shape(f) && b < |f.blocks| && k <= |f.blocks[b].body|
  {
    if k == 0 then st
    else Pushed(BodyStack(f, lost, a, b, k - 1, st), PushedBy(f, lost, f.blocks[b].body[k - 1], a))
  }

  ghost function Worked(s: Setup, b: Label, w: Moment): (u: Moment)
    requires Shape(s.f) && b < |s.f.blocks| && |w.stacks| == |s.slots|
    ensures |u.stacks| == |s.slots|
  {
    var e := Entered(s, b, w);
    var k := |s.f.blocks[b].body|;
    e.(stacks := seq(|s.slots|, v requires 0 <= v < |s.slots| =>
                       BodyStack(s.f, s.asWritten, s.slots[v], b, k, e.stacks[v])))
  }

  lemma BodyWorked(s: Setup, b: Label, w: Moment, stacks: seq<Stack>)
    requires Shape(s.f) && b < |s.f.blocks| && |w.stacks| == |stacks| == |s.slots|
    requires forall v: nat :: v < |s.slots| ==>
      stacks[v] == BodyStack(s.f, s.asWritten, s.slots[v], b, |s.f.blocks[b].body|, Entered(s, b, w).stacks[v])
    ensures Worked(s, b, w) == Entered(s, b, w).(stacks := stacks)
  {
    hide Shape, BodyStack, Entered;
    assert stacks == Worked(s, b, w).stacks;
  }

  // The heights noted at `base` are gone back to, and the area given up.
  function Left(s: Setup, base: nat, w: Moment): (u: Moment)
    requires |w.stacks| == |s.slots|
    ensures |u.stacks| == |s.slots|
  {
    Moment(seq(|s.slots|, v requires 0 <= v < |s.slots| => w.stacks[v].(len := HeightAt(w, base + v))), w.heights, base)
  }

  // The children of b below n.
  ghost function Children(s: Setup, b: Label, n: nat, w: Moment): (u: Moment)
    requires SetupOk(s) && b < |s.f.blocks| && n <= |s.f.blocks| && |w.stacks| == |s.slots|
    ensures |u.stacks| == |s.slots|
    decreases |s.f.blocks| + 1 - Rank(GraphOf(s.f), b), 0, n
  {
    RankBound(GraphOf(s.f), b);
    if n <= 1 then w
    else
      var u := Children(s, b, n - 1, w);
      if s.doms[n - 1] == b then
        IdomRank(GraphOf(s.f), s.doms, n - 1);
        RankBound(GraphOf(s.f), n - 1);
        Visit(s, n - 1, u)
      else u
  }

  // A block and all below it.
  ghost function Visit(s: Setup, b: Label, w: Moment): (u: Moment)
    requires SetupOk(s) && b < |s.f.blocks| && |w.stacks| == |s.slots|
    ensures |u.stacks| == |s.slots|
    decreases |s.f.blocks| + 1 - Rank(GraphOf(s.f), b), 1
  {
    Left(s, w.used, Children(s, b, |s.f.blocks|, Worked(s, b, w)))
  }

  // When the walk comes to b.
  ghost function Entry(s: Setup, b: Label): (u: Moment)
    requires SetupOk(s) && b < |s.f.blocks|
    ensures |u.stacks| == |s.slots|
    decreases Rank(GraphOf(s.f), b)
  {
    if b == 0 then Start(s)
    else
      IdomRank(GraphOf(s.f), s.doms, b);
      var d: Label := s.doms[b];
      Children(s, d, b, Worked(s, d, Entry(s, d)))
  }

  ghost function EntryTop(s: Setup, v: nat, b: Label): Option<Reg>
    requires SetupOk(s) && v < |s.slots| && b < |s.f.blocks|
  {
    TopOf(Entry(s, b).stacks[v])
  }

  ghost predicate AreEntryTops(s: Setup, tops: map<(Reg, Label), Option<Reg>>)
    requires SetupOk(s)
  {
    && (forall v: nat, b: Label :: v < |s.slots| && 0 < b < |s.f.blocks| ==>
              (s.slots[v], b) in tops && tops[(s.slots[v], b)] == EntryTop(s, v, b))
    && forall x :: x in tops ==> x.0 in s.slots && 0 < x.1 < |s.f.blocks|
  }

  ghost function EntryTops(s: Setup): (tops: map<(Reg, Label), Option<Reg>>)
    requires SetupOk(s) && Distinct(s.slots)
    ensures AreEntryTops(s, tops)
  {
    var tops := map x | x in Cells(s) :: EntryTop(s, SlotId(s.slots, x.0), x.1);
    TopsFit(s, tops);
    tops
  }

  lemma TopsFit(s: Setup, tops: map<(Reg, Label), Option<Reg>>)
    requires SetupOk(s) && Distinct(s.slots) && tops.Keys == Cells(s)
    requires forall x :: x in tops ==> tops[x] == EntryTop(s, SlotId(s.slots, x.0), x.1)
    ensures AreEntryTops(s, tops)
  {
    hide SetupOk, EntryTop;
    forall v: nat, b: Label | v < |s.slots| && 0 < b < |s.f.blocks|
      ensures (s.slots[v], b) in tops && tops[(s.slots[v], b)] == EntryTop(s, v, b)
    {
      assert (s.slots[v], b) in Cells(s) && SlotId(s.slots, s.slots[v]) == v;
    }
  }

  ghost function Cells(s: Setup): (c: set<(Reg, Label)>)
    ensures forall x :: x in c <==> x.0 in s.slots && 0 < x.1 < |s.f.blocks|
  {
    set a, b | a in Elems(s.slots) && b in Range(|s.f.blocks|) && b > 0 :: (a, b)
  }

  // get_variable_id of a slot
  ghost function SlotId(slots: seq<Reg>, a: Reg): (v: nat)
    requires a in slots
    ensures v < |slots| && slots[v] == a
  {
    var v: nat :| v < |slots| && slots[v] == a;
    v
  }

  // ----- Areas that do not overlap -----

  // No call notes more heights than it has room for.
  predicate Apart(s: Setup)
  {
    |s.slots| <= Area(s)
  }

  // What a visit of b leaves on the stack of a, and what the last of the children of d below n
  // that leave anything does.
  ghost function Kept(s: Setup, a: Reg, b: Label): Option<Reg>
  {
    if s.asWritten then PhiAt(s, a, b) else None
  }

  ghost function Leaked(s: Setup, a: Reg, d: int, n: nat): Option<Reg>
    requires n <= |s.doms|
  {
    if n <= 1 then None
    else if s.doms[n - 1] == d && Kept(s, a, n - 1).Some? then Kept(s, a, n - 1)
    else Leaked(s, a, d, n - 1)
  }

  predicate Whole(s: Setup, w: Moment)
  {
    |w.stacks| == |s.slots| && forall v :: 0 <= v < |w.stacks| ==> w.stacks[v].len <= |w.stacks[v].data|
  }

  function Seen(st: Stack): (r: seq<Option<Reg>>)
    requires st.len <= |st.data|
    ensures TopOf(st) == if r == [] then None else r[|r| - 1]
  {
    st.data[..st.len]
  }

  // u goes on from w without a change to what its callers rely on.
  ghost predicate Over(s: Setup, w: Moment, u: Moment)
  {
    && Whole(s, w) && Whole(s, u) && u.used == w.used
    && (forall i: nat :: i < w.used ==> HeightAt(u, i) == HeightAt(w, i))
    && forall v: nat :: v < |s.slots| ==> Seen(w.stacks[v]) <= Seen(u.stacks[v])
  }

  lemma SeenPushed(st: Stack, x: Option<Reg>)
    requires st.len <= |st.data|
    ensures Pushed(st, x).len <= |Pushed(st, x).data|
    ensures Seen(Pushed(st, x)) == Seen(st) + if x.Some? then [x] else []
  {
  }

  lemma {:induction false} SeenBody(f: Function, lost: bool, a: Reg, b: Label, k: nat, st: Stack)
    requires Shape(f) && b < |f.blocks| && k <= |f.blocks[b].body| && st.len <= |st.data|
    ensures BodyStack(f, lost, a, b, k, st).len <= |BodyStack(f, lost, a, b, k, st).data|
    ensures Seen(st) <= Seen(BodyStack(f, lost, a, b, k, st))
  {
    if k > 0 {
      SeenBody(f, lost, a, b, k - 1, st);
      SeenPushed(BodyStack(f, lost, a, b, k - 1, st), PushedBy(f, lost, f.blocks[b].body[k - 1], a));
    }
  }

  // What a visit of b is to leave of the stack of slot v.
  ghost function Leaving(s: Setup, b: Label, w: Moment, v: nat): seq<Option<Reg>>
    requires Whole(s, w) && v < |s.slots|
  {
    Seen(w.stacks[v]) + if Kept(s, s.slots[v], b).Some? then [Kept(s, s.slots[v], b)] else []
  }

  // The height noted for slot v at `base` shows it.
  ghost predicate Notes(s: Setup, b: Label, w: Moment, base: nat, u: Moment, v: nat)
    requires Whole(s, w) && Whole(s, u) && v < |s.slots|
  {
    HeightAt(u, base + v) <= u.stacks[v].len && Seen(u.stacks[v])[..HeightAt(u, base + v)] == Leaving(s, b, w, v)
  }

  lemma WorkedNote(s: Setup, b: Label, w: Moment, v: nat)
    requires SetupOk(s) && b < |s.f.blocks| && Whole(s, w) && v < |s.slots|
    ensures var u := Worked(s, b, w);
            u.stacks[v].len <= |u.stacks[v].data| && HeightAt(u, w.used + v) <= u.stacks[v].len
    ensures var u := Worked(s, b, w); Seen(u.stacks[v])[..HeightAt(u, w.used + v)] == Leaving(s, b, w, v)
  {
    hide Shape, ExactDoms, Seen, Entered, BodyStack, Leaving, Noted;
    var e := Entered(s, b, w);
    EnteredNote(s, b, w, v);
    SeenBody(s.f, s.asWritten, s.slots[v], b, |s.f.blocks[b].body|, e.stacks[v]);
    SeenSize(Worked(s, b, w).stacks[v]);
  }

  lemma EnteredNote(s: Setup, b: Label, w: Moment, v: nat)
    requires Whole(s, w) && v < |s.slots|
    ensures var e := Entered(s, b, w); e.stacks[v].len <= |e.stacks[v].data|
    ensures var e := Entered(s, b, w);
            HeightAt(e, w.used + v) == |Leaving(s, b, w, v)| && Leaving(s, b, w, v) <= Seen(e.stacks[v])
  {
    hide Seen, Pushed, PhiAt;
    var e := Entered(s, b, w);
    SeenPushed(w.stacks[v], PhiAt(s, s.slots[v], b));
    SeenSize(w.stacks[v]);
    SeenSize(e.stacks[v]);
  }

  lemma SeenSize(st: Stack)
    requires st.len <= |st.data|
    ensures |Seen(st)| == st.len
  {
  }

  lemma WorkedArea(s: Setup, b: Label, w: Moment)
    requires Shape(s.f) && b < |s.f.blocks| && |w.stacks| == |s.slots|
    ensures Worked(s, b, w).used == w.used + Area(s)
    ensures forall i: nat :: i < w.used ==> HeightAt(Worked(s, b, w), i) == HeightAt(w, i)
  {
    hide Shape, BodyStack, Pushed, PhiAt;
  }

  lemma WorkedNotes(s: Setup, b: Label, w: Moment)
    requires SetupOk(s) && b < |s.f.blocks| && Whole(s, w)
    ensures Whole(s, Worked(s, b, w)) && Worked(s, b, w).used == w.used + Area(s)
    ensures forall i: nat :: i < w.used ==> HeightAt(Worked(s, b, w), i) == HeightAt(w, i)
    ensures forall v: nat :: v < |s.slots| ==> Notes(s, b, w, w.used, Worked(s, b, w), v)
  {
    hide Shape, ExactDoms, Seen, Leaving, BodyStack, Worked, Pushed, PhiAt;
    var u := Worked(s, b, w);
    WorkedArea(s, b, w);
    forall v: nat | v < |s.slots|
      ensures u.stacks[v].len <= |u.stacks[v].data| && HeightAt(u, w.used + v) <= u.stacks[v].len
      ensures HeightAt(u, w.used + v) <= |Seen(u.stacks[v])|
      ensures Seen(u.stacks[v])[..HeightAt(u, w.used + v)] == Leaving(s, b, w, v)
    {
      WorkedNote(s, b, w, v);
      SeenSize(u.stacks[v]);
    }
  }

  lemma LeftAt(s: Setup, b: Label, w: Moment, m: Moment, c: Moment, v: nat)
    requires Whole(s, w) && Over(s, m, c) && v < |s.slots| && Notes(s, b, w, w.used, m, v)
    requires HeightAt(c, w.used + v) == HeightAt(m, w.used + v)
    ensures var u := Left(s, w.used, c);
            u.stacks[v].len <= |u.stacks[v].data| && Seen(u.stacks[v]) == Leaving(s, b, w, v)
  {
    var h := HeightAt(m, w.used + v);
    assert Seen(c.stacks[v])[..h] == Seen(m.stacks[v])[..h];
    assert c.stacks[v].data[..h] == Seen(c.stacks[v])[..h];
  }

  ghost predicate ChildTops(s: Setup, b: Label, n: nat, w: Moment, u: Moment)
    requires n <= |s.doms| && |w.stacks| == |u.stacks| == |s.slots|
  {
    forall v: nat :: v < |s.slots| ==>
      TopOf(u.stacks[v]) ==
        if Leaked(s, s.slots[v], b, n).Some? then Leaked(s, s.slots[v], b, n) else TopOf(w.stacks[v])
  }

  lemma {:induction false} ChildrenApart(s: Setup, b: Label, n: nat, w: Moment)
    requires SetupOk(s) && Apart(s) && b < |s.f.blocks| && n <= |s.f.blocks| && |w.stacks| == |s.slots| && Whole(s, w)
    ensures |s.doms| == |s.f.blocks|
    ensures Over(s, w, Children(s, b, n, w)) && ChildTops(s, b, n, w, Children(s, b, n, w))
    decreases |s.f.blocks| + 1 - Rank(GraphOf(s.f), b), 0, n
  {
    assert |s.doms| == |s.f.blocks|;
    hide Shape, ExactDoms, Visit, Whole, Rank, Over, ChildTops;
    RankBound(GraphOf(s.f), b);
    if n > 1 {
      var u := Children(s, b, n - 1, w);
      ChildrenApart(s, b, n - 1, w);
      OverWhole(s, w, u);
      if s.doms[n - 1] == b {
        IdomRank(GraphOf(s.f), s.doms, n - 1);
        RankBound(GraphOf(s.f), n - 1);
        VisitApart(s, n - 1, u);
        ChildVisited(s, b, n, w, u, Visit(s, n - 1, u));
      } else {
        ChildPassed(s, b, n, w, u);
      }
    } else {
      NoChildren(s, b, n, w);
    }
  }

  lemma NoChildren(s: Setup, b: Label, n: nat, w: Moment)
    requires Whole(s, w) && n <= 1 && n <= |s.doms|
    ensures Over(s, w, w) && ChildTops(s, b, n, w, w)
  {
  }

  lemma OverWhole(s: Setup, w: Moment, u: Moment)
    requires Over(s, w, u)
    ensures Whole(s, u) && |u.stacks| == |s.slots|
  {
  }

  lemma ChildPassed(s: Setup, b: Label, n: nat, w: Moment, u: Moment)
    requires 1 < n <= |s.doms| && Over(s, w, u) && ChildTops(s, b, n - 1, w, u) && s.doms[n - 1] != b
    ensures ChildTops(s, b, n, w, u)
  {
    hide Seen, TopOf;
  }

  lemma ChildVisited(s: Setup, b: Label, n: nat, w: Moment, u: Moment, t: Moment)
    requires 1 < n <= |s.doms| && Over(s, w, u) && Over(s, u, t) && ChildTops(s, b, n - 1, w, u) && s.doms[n - 1] == b
    requires forall v: nat :: v < |s.slots| ==>
              TopOf(t.stacks[v]) ==
                if Kept(s, s.slots[v], n - 1).Some? then Kept(s, s.slots[v], n - 1) else TopOf(u.stacks[v])
    ensures Over(s, w, t) && ChildTops(s, b, n, w, t)
  {
    hide Seen, TopOf, Kept;
  }

  lemma {:induction false} VisitApart(s: Setup, b: Label, w: Moment)
    requires SetupOk(s) && Apart(s) && b < |s.f.blocks| && |w.stacks| == |s.slots| && Whole(s, w)
    ensures Over(s, w, Visit(s, b, w))
    ensures forall v: nat :: v < |s.slots| ==>
              TopOf(Visit(s, b, w).stacks[v]) ==
                if Kept(s, s.slots[v], b).Some? then Kept(s, s.slots[v], b) else TopOf(w.stacks[v])
    decreases |s.f.blocks| + 1 - Rank(GraphOf(s.f), b), 1
  {
    var n := |s.f.blocks|;
    var m := Worked(s, b, w);
    var c := Children(s, b, n, m);
    var u := Visit(s, b, w);
    assert u == Left(s, w.used, c);
    hide Shape, ExactDoms, Visit, Children, Worked, ChildTops, Seen, Rank, HeightAt;
    WorkedNotes(s, b, w);
    ChildrenApart(s, b, n, m);
    forall v: nat | v < |s.slots|
      ensures u.stacks[v].len <= |u.stacks[v].data| && Seen(u.stacks[v]) == Leaving(s, b, w, v)
    {
      LeftAt(s, b, w, m, c, v);
    }
    LeftOver(s, b, w, m, c);
  }

  lemma LeftOver(s: Setup, b: Label, w: Moment, m: Moment, c: Moment)
    requires Whole(s, w) && Over(s, m, c) && m.used == w.used + Area(s)
    requires forall i: nat :: i < w.used ==> HeightAt(m, i) == HeightAt(w, i)
    requires Whole(s, Left(s, w.used, c))
    requires forall v: nat :: v < |s.slots| ==> Seen(Left(s, w.used, c).stacks[v]) == Leaving(s, b, w, v)
    ensures Over(s, w, Left(s, w.used, c))
    ensures forall v: nat :: v < |s.slots| ==>
              TopOf(Left(s, w.used, c).stacks[v]) ==
                if Kept(s, s.slots[v], b).Some? then Kept(s, s.slots[v], b) else TopOf(w.stacks[v])
  {
    var u := Left(s, w.used, c);
    hide Seen;
    forall i: nat | i < w.used ensures HeightAt(u, i) == HeightAt(w, i) {
      assert HeightAt(u, i) == HeightAt(c, i);
    }
  }

  // What reaches the end of a block is what its stack shows after the last node.
  lemma {:induction false} BodyTop(f: Function, pl: Plan, a: Reg, b: Label, k: nat, st: Stack)
    requires PlanOk(f, pl) && b < |f.blocks| && k <= |f.blocks[b].body| && TopOf(st) == Def(f, pl, a, b, 0)
    ensures TopOf(BodyStack(f, pl.lost, a, b, k, st)) == Def(f, pl, a, b, k)
  {
    if k > 0 {
      BodyTop(f, pl, a, b, k - 1, st);
      TopOfPushed(BodyStack(f, pl.lost, a, b, k - 1, st), PushedBy(f, pl.lost, f.blocks[b].body[k - 1], a));
    }
  }
}
