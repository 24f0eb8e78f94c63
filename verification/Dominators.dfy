// src/tb/tb_analysis.c: tb_get_dominators and tb_is_dominated_by.

module Dominators {
  import opened Finite
  import opened Cfg
  import opened Predecessors
  import opened Postorder
  import opened DomTree
  import opened DomSweep

  // find_traversal_index; falling off the end of the loop is the source's tb_todo().
  method FindTraversalIndex(order: seq<Label>, l: int) returns (r: Option<nat>)
    ensures r.None? <==> Pos(order, l) == -1
    ensures r.Some? ==> r.value < |order| && order[r.value] == l
    ensures Distinct(order) && r.Some? ==> r.value == Pos(order, l)
  {
    var i := 0;
    while i < |order|
      invariant i <= |order| && forall k :: 0 <= k < i ==> order[k] != l
    {
      if order[i] == l {
        if Distinct(order) { PosAt(order, i); }
        return Some(i);
      }
      i := i + 1;
    }
    return None;
  }

  // get_idom_in_postorder_index
  method IdomIndex(order: seq<Label>, doms: array<int>, x: nat) returns (r: Option<nat>)
    requires Forest(order, doms[..]) && x < |order| && order[x] < doms.Length
    ensures doms[order[x]] == -1 ==> r.None?
    ensures Node(order, doms[..], order[x]) ==>
              r.Some? && r.value < |order| && order[r.value] == doms[order[x]]
              && r.value == Pos(order, doms[order[x]]) && (x < |order| - 1 ==> x < r.value)
  {
    PosAt(order, x);
    PosAt(order, |order| - 1);
    r := FindTraversalIndex(order, doms[order[x]]);
  }

  ghost predicate InBounds(order: seq<Label>, n: nat)
  {
    forall k :: 0 <= k < |order| ==> order[k] < n
  }

  // Moves one finger up until it is not earlier in postorder than position `stop`; gives up
  // when it meets a block whose pointer is still -1.
  method Climb(order: seq<Label>, doms: array<int>, start: nat, stop: nat) returns (r: Option<nat>)
    requires Forest(order, doms[..]) && start < |order| && stop < |order|
    requires InBounds(order, doms.Length)
    ensures r.Some? ==> start <= r.value && stop <= r.value < |order|
    ensures start >= stop ==> r.Some? && r.value == start
    ensures start < stop && doms[order[start]] == -1 ==> r.None?
    ensures Node(order, doms[..], order[start]) ==>
              r.Some? && Climbed(order, doms[..], order[start], stop, order[r.value])
  {
    ghost var D := doms[..];
    var a := start;
    while a < stop
      invariant start <= a < |order|
      invariant Node(order, D, order[start]) ==> Climbed(order, D, order[start], stop, order[a])
      invariant start >= stop || D[order[start]] == -1 ==> a == start
      decreases |order| - a
    {
      PosAt(order, a);
      if Node(order, D, order[start]) { ClimbOne(order, D, order[start], stop, order[a]); }
      var up := IdomIndex(order, doms, a);
      if up.None? { return None; }
      a := up.value;
    }
    return Some(a);
  }

  // x is on the chain of b, and so far down that nothing from `stop` on has been passed.
  ghost predicate Climbed(o: seq<Label>, D: Doms, b: Label, stop: nat, x: Label)
    requires Forest(o, D) && Node(o, D, b)
  {
    && Node(o, D, x) && Anc(o, D, x, b)
    && forall y: Label :: Anc(o, D, y, b) && Pos(o, y) >= stop ==> Anc(o, D, y, x)
  }

  lemma ClimbOne(o: seq<Label>, D: Doms, b: Label, stop: nat, x: Label)
    requires Forest(o, D) && Node(o, D, b) && stop < |o|
    requires Climbed(o, D, b, stop, x) && Pos(o, x) < stop
    ensures x != 0 && D[x] >= 0 && Climbed(o, D, b, stop, D[x])
  {
    PosAt(o, |o| - 1);
    assert PointsUp(o, D, x);
    AncTrans(o, D, D[x], x, b);
  }

  // The fingers fa and fb are on the chains of a and b, and below everything they share.
  ghost predicate Fingers(o: seq<Label>, D: Doms, a: Label, b: Label, fa: Label, fb: Label)
    requires Forest(o, D) && Node(o, D, a) && Node(o, D, b)
  {
    && Node(o, D, fa) && Node(o, D, fb)
    && Anc(o, D, fa, a) && Anc(o, D, fb, b)
    && forall y: Label :: Anc(o, D, y, a) && Anc(o, D, y, b) ==> Anc(o, D, y, fa) && Anc(o, D, y, fb)
  }

  lemma FingerClimbs(o: seq<Label>, D: Doms, a: Label, b: Label, fa: Label, fb: Label, ga: Label)
    requires Forest(o, D) && Node(o, D, a) && Node(o, D, b)
    requires Fingers(o, D, a, b, fa, fb) && Climbed(o, D, fa, Pos(o, fb), ga)
    ensures Fingers(o, D, a, b, ga, fb)
  {
    AncTrans(o, D, ga, fa, a);
    forall y: Label | Anc(o, D, y, a) && Anc(o, D, y, b) ensures Anc(o, D, y, ga) {
      AncNode(o, D, y, fb);
    }
  }

  // Closest common ancestor of two blocks.
  ghost predicate Lca(o: seq<Label>, D: Doms, a: Label, b: Label, m: Label)
    requires Forest(o, D) && Node(o, D, a) && Node(o, D, b)
  {
    Fingers(o, D, a, b, m, m)
  }

  // Fingers given by positions, when the walk started from calculated blocks.
  ghost predicate At(o: seq<Label>, D: Doms, a0: nat, b0: nat, a: nat, b: nat)
    requires Forest(o, D) && a0 < |o| && b0 < |o| && a < |o| && b < |o|
  {
    Node(o, D, o[a0]) && Node(o, D, o[b0]) ==> Fingers(o, D, o[a0], o[b0], o[a], o[b])
  }

  lemma AtClimbs(o: seq<Label>, D: Doms, a0: nat, b0: nat, a: nat, b: nat, c: nat)
    requires Forest(o, D) && a0 < |o| && b0 < |o| && a < |o| && b < |o| && c < |o|
    requires At(o, D, a0, b0, a, b)
    requires Node(o, D, o[a]) ==> Climbed(o, D, o[a], b, o[c])
    ensures At(o, D, a0, b0, c, b) && At(o, D, b0, a0, b, c)
  {
    PosAt(o, b);
    if Node(o, D, o[a0]) && Node(o, D, o[b0]) {
      FingerClimbs(o, D, o[a0], o[b0], o[a], o[b], o[c]);
    }
  }

  // intersect: the two fingers climb in turn until they meet.
  method Intersect(order: seq<Label>, doms: array<int>, a0: nat, b0: nat) returns (r: Option<nat>)
    requires Forest(order, doms[..]) && a0 < |order| && b0 < |order|
    requires InBounds(order, doms.Length)
    ensures r.Some? ==> r.value < |order| && At(order, doms[..], a0, b0, r.value, r.value)
    ensures Node(order, doms[..], order[a0]) && Node(order, doms[..], order[b0]) ==> r.Some?
    ensures b0 < a0 && doms[order[b0]] == -1 ==> r.None?
  {
    ghost var D := doms[..];
    var a: nat, b: nat := a0, b0;
    while a != b
      invariant a < |order| && b < |order|
      invariant At(order, D, a0, b0, a, b)
      invariant b0 < a0 && D[order[b0]] == -1 ==> a == a0 && b == b0
      decreases 2 * |order| - a - b
    {
      var up := Climb(order, doms, a, b);
      if up.None? { return None; }
      AtClimbs(order, D, a0, b0, a, b, up.value);
      a := up.value;
      up := Climb(order, doms, b, a);
      if up.None? { return None; }
      AtClimbs(order, D, b0, a0, b, a, up.value);
      b := up.value;
    }
    return Some(a);
  }

  lemma CommonPush(o: seq<Label>, D: Doms, ps: seq<Label>, p: Label, y: Label)
    requires Forest(o, D)
    ensures Common(o, D, ps + [p], y) <==>
              Common(o, D, ps, y) && (Node(o, D, p) ==> Anc(o, D, y, p))
  {
    assert forall q :: q in ps + [p] <==> q in ps || q == p;
  }

  // The meet of a list grows by one calculated predecessor.
  lemma MeetGrows(o: seq<Label>, D: Doms, ps: seq<Label>, m: Label, p: Label, n: Label)
    requires Forest(o, D) && Meet(o, D, ps, m) && Node(o, D, p) && Lca(o, D, p, m, n)
    ensures Meet(o, D, ps + [p], n)
  {
    forall q: Label | q in ps && Node(o, D, q) ensures Anc(o, D, n, q) {
      AncTrans(o, D, n, m, q);
    }
    CommonPush(o, D, ps, p, n);
    forall y: Label | Common(o, D, ps + [p], y) ensures Anc(o, D, y, n) {
      CommonPush(o, D, ps, p, y);
    }
  }

  // A predecessor that is not calculated yet does not count.
  lemma MeetSkips(o: seq<Label>, D: Doms, ps: seq<Label>, m: Label, p: Label)
    requires Forest(o, D) && Meet(o, D, ps, m) && !Node(o, D, p)
    ensures Meet(o, D, ps + [p], m)
  {
    CommonPush(o, D, ps, p, m);
    forall y: Label | Common(o, D, ps + [p], y) ensures Anc(o, D, y, m) {
      CommonPush(o, D, ps, p, y);
    }
  }

  lemma MeetSingle(o: seq<Label>, D: Doms, p: Label)
    requires Forest(o, D) && Node(o, D, p)
    ensures Meet(o, D, [p], p)
  {
    assert p in [p];
  }

  // Blocks from position k on are calculated; in the first sweep no other block is.
  ghost predicate Swept(order: seq<Label>, D: Doms, k: int)
  {
    forall c :: k <= c < |order| && c >= 0 ==> Node(order, D, order[c])
  }

  ghost predicate Fresh(order: seq<Label>, D: Doms, k: int)
  {
    forall l: Label :: l < |D| && D[l] != -1 ==> Pos(order, l) >= k
  }

  // One round of the predecessor loop: the common ancestor of p and the block found so far.
  method MeetWith(order: seq<Label>, doms: array<int>, p: Label, cur: Label) returns (r: Option<Label>)
    requires Forest(order, doms[..]) && InBounds(order, doms.Length)
    requires p < doms.Length && cur < doms.Length
    ensures Node(order, doms[..], p) && Node(order, doms[..], cur) ==>
              r.Some? && Lca(order, doms[..], p, cur, r.value)
    ensures doms[cur] == -1 && Pos(order, cur) < Pos(order, p) ==> r.None?
    ensures r.Some? ==> r.value < doms.Length
  {
    var x := FindTraversalIndex(order, p);
    var y := FindTraversalIndex(order, cur);
    if x.None? || y.None? { return None; }
    var z := Intersect(order, doms, x.value, y.value);
    if z.None? { return None; }
    return Some(order[z.value]);
  }

  // The calculated blocks of ps come later in postorder than its first block.
  ghost predicate AllLater(order: seq<Label>, D: Doms, ps: seq<Label>)
    requires ps != [] && InBounds(ps, |D|)
  {
    forall k :: 0 <= k < |ps| && D[ps[k]] != -1 ==> Pos(order, ps[0]) < Pos(order, ps[k])
  }

  // What the predecessor loop has after its first j blocks.
  ghost predicate Round(order: seq<Label>, D: Doms, ps: seq<Label>, j: nat, cur: Label)
    requires Forest(order, D) && ps != [] && InBounds(ps, |D|) && j <= |ps|
  {
    if D[ps[0]] != -1 then Meet(order, D, ps[..j], cur)
    else AllLater(order, D, ps) ==> cur == ps[0] && forall k :: 0 <= k < j ==> D[ps[k]] == -1
  }

  lemma FirstRound(order: seq<Label>, D: Doms, ps: seq<Label>)
    requires Forest(order, D) && ps != [] && InBounds(ps, |D|)
    requires forall k :: 0 <= k < |ps| && D[ps[k]] != -1 ==> ps[k] in order
    ensures Round(order, D, ps, 1, ps[0])
  {
    assert ps[..1] == [ps[0]];
    if D[ps[0]] != -1 { MeetSingle(order, D, ps[0]); }
  }

  lemma NextRound(order: seq<Label>, D: Doms, ps: seq<Label>, j: nat, cur: Label, n: Label)
    requires Forest(order, D) && ps != [] && InBounds(ps, |D|) && j < |ps|
    requires Round(order, D, ps, j, cur)
    requires D[ps[j]] == -1 ==> n == cur
    requires D[ps[j]] != -1 ==> ps[j] in order
    requires D[ps[j]] != -1 && Node(order, D, cur) ==> Lca(order, D, ps[j], cur, n)
    requires D[ps[j]] != -1 && cur < |D| && D[cur] == -1 ==> Pos(order, cur) >= Pos(order, ps[j])
    ensures Round(order, D, ps, j + 1, n)
  {
    hide Forest, Lca, Pos;
    assert ps[..j + 1] == ps[..j] + [ps[j]];
    if D[ps[0]] != -1 {
      if D[ps[j]] != -1 {
        MeetGrows(order, D, ps[..j], cur, ps[j], n);
      } else {
        MeetSkips(order, D, ps[..j], cur, ps[j]);
      }
    }
  }

  // The predecessor loop: the closest common ancestor of the calculated blocks of ps, started
  // from the first one whether or not that one is calculated. It gives up when the first one
  // is not calculated, some block is, and the calculated ones come later.
  method MeetOfList(order: seq<Label>, doms: array<int>, ps: seq<Label>) returns (r: Option<Label>)
    requires Forest(order, doms[..]) && InBounds(order, doms.Length)
    requires ps != [] && InBounds(ps, doms.Length)
    requires forall k :: 0 <= k < |ps| && doms[ps[k]] != -1 ==> ps[k] in order
    ensures r.Some? ==> r.value < doms.Length && Round(order, doms[..], ps, |ps|, r.value)
    ensures doms[ps[0]] != -1 ==> r.Some?
  {
    ghost var D := doms[..];
    var cur: Label := ps[0];
    FirstRound(order, D, ps);
    var j: nat := 1;
    while j < |ps|
      invariant 1 <= j <= |ps| && cur < doms.Length
      invariant Round(order, D, ps, j, cur)
    {
      var next := cur;
      if doms[ps[j]] != -1 {
        var z := MeetWith(order, doms, ps[j], cur);
        if z.None? { return None; }
        next := z.value;
      }
      NextRound(order, D, ps, j, cur, next);
      cur := next;
      j := j + 1;
    }
    return Some(cur);
  }

  // Some predecessor of order[i] comes later and is calculated: its parent in the walk.
  lemma CalculatedPred(g: Graph, preds: seq<seq<Label>>, order: seq<Label>, D: Doms, i: nat) returns (p: Label)
    requires Known(g, preds, order) && i < |order| - 1 && |D| == |g| && Swept(order, D, i + 1)
    ensures 0 < order[i] < |g| && Pos(order, order[i]) == i
    ensures p in preds[order[i]] && Node(order, D, p) && Pos(order, p) > i
  {
    PosAt(order, i);
    PosAt(order, |order| - 1);
    assert LaterPred(g, order, i) && order[i] in order;
    var m: nat :| i < m < |order| && Edge(g, order[m], order[i]);
    p := order[m];
    PosAt(order, m);
  }

  lemma FirstPredCalculated(order: seq<Label>, D: Doms, i: nat, p: Label)
    requires Forest(order, D) && Swept(order, D, i + 1) && Pos(order, p) > i
    ensures Node(order, D, p)
  {
    assert Node(order, D, order[Pos(order, p)]);
  }

  lemma RoundMeets(order: seq<Label>, D: Doms, ps: seq<Label>, m: Label)
    requires Forest(order, D) && ps != [] && InBounds(ps, |D|) && D[ps[0]] != -1
    requires Round(order, D, ps, |ps|, m)
    ensures Meet(order, D, ps, m)
  {
    assert ps[..|ps|] == ps;
  }

  // In the first sweep the calculated blocks come after position i, so a first predecessor
  // that does not come later leaves the loop without a common ancestor.
  lemma FreshFails(order: seq<Label>, D: Doms, ps: seq<Label>, i: nat, p: Label, m: Label)
    requires Forest(order, D) && ps != [] && InBounds(ps, |D|)
    requires Fresh(order, D, i + 1) && Pos(order, ps[0]) <= i
    requires p in ps && D[p] != -1
    ensures D[ps[0]] == -1 && !Round(order, D, ps, |ps|, m)
  {
    var k: nat :| k < |ps| && ps[k] == p;
    assert AllLater(order, D, ps);
  }

  // The new pointer for b = order[i].
  method NewIdom(g: Graph, preds: seq<seq<Label>>, order: seq<Label>, doms: array<int>, i: nat)
    returns (r: Option<Label>)
    requires Known(g, preds, order) && i < |order| - 1
    requires Inv(g, preds, order, doms[..], i + 1) && Swept(order, doms[..], i + 1)
    ensures 0 < order[i] < |g|
    ensures FirstPredLater(preds, order, order[i]) ==>
              r.Some? && Meet(order, doms[..], preds[order[i]], r.value)
    ensures !FirstPredLater(preds, order, order[i]) && Fresh(order, doms[..], i + 1) ==> r.None?
  {
    hide Forest, Node, Lca, Meet, Pos, Reachable, IsPostorder, PredRow;
    ghost var D := doms[..];
    ghost var lp := CalculatedPred(g, preds, order, D, i);
    var ps := preds[order[i]];
    PredsFit(g, preds, order, D, order[i]);
    r := MeetOfList(order, doms, ps);
    if FirstPredLater(preds, order, order[i]) {
      FirstPredCalculated(order, D, i, ps[0]);
      RoundMeets(order, D, ps, r.value);
    } else if Fresh(order, D, i + 1) && r.Some? {
      FreshFails(order, D, ps, i, lp, r.value);
    }
  }

  lemma PredsFit(g: Graph, preds: seq<seq<Label>>, order: seq<Label>, D: Doms, b: Label)
    requires Known(g, preds, order) && |D| == |g| && 0 < b < |g|
    requires forall c: Label :: c < |D| && D[c] != -1 ==> c in order
    ensures InBounds(order, |D|) && InBounds(preds[b], |D|)
    ensures forall k :: 0 <= k < |preds[b]| && D[preds[b][k]] != -1 ==> preds[b][k] in order
  {
    forall k | 0 <= k < |order| ensures order[k] < |D| {
      assert order[k] in order;
    }
    forall k | 0 <= k < |preds[b]| ensures preds[b][k] < |D| {
      assert preds[b][k] in preds[b];
    }
  }

  // ----- The whole fixpoint -----

  // How far the pointers are from the entry, summed over the traversal.
  ghost function Distance(o: seq<Label>, D: Doms, k: nat): nat
    requires k <= |o|
  {
    if k == 0 then 0
    else Distance(o, D, k - 1) + Gap(o, D, o[k - 1])
  }

  ghost function Gap(o: seq<Label>, D: Doms, b: Label): nat
  {
    if b < |D| && D[b] != -1 then |o| - Pos(o, D[b]) else |o| + 2
  }

  lemma {:induction false} DistanceDrops(o: seq<Label>, D: Doms, E: Doms, b: Label, m: Label, k: nat)
    requires k <= |o| && Distinct(o) && b < |D| && E == D[b := m as int]
    requires Gap(o, E, b) < Gap(o, D, b)
    ensures Distance(o, E, k) <= Distance(o, D, k)
    ensures b in o[..k] ==> Distance(o, E, k) < Distance(o, D, k)
  {
    if k > 0 {
      DistanceDrops(o, D, E, b, m, k - 1);
      assert o[..k] == o[..k - 1] + [o[k - 1]];
    }
  }

  lemma MovedCloser(o: seq<Label>, D: Doms, E: Doms, b: Label, m: Label)
    requires Moved(o, D, E, b, m) && D[b] != m
    ensures Distance(o, E, |o|) < Distance(o, D, |o|)
  {
    if Node(o, D, b) { AncNode(o, D, m, D[b]); }
    assert o[..|o|] == o;
    DistanceDrops(o, D, E, b, m, |o|);
  }

  // A pointer that changes moves towards the entry.
  lemma StepCloser(g: Graph, preds: seq<seq<Label>>, o: seq<Label>, D: Doms, i: nat, b: Label, m: Label)
    requires Known(g, preds, o) && Step(g, preds, o, D, i, b, m) && b < |D| && D[b] != m
    ensures Distance(o, D[b := m as int], |o|) < Distance(o, D, |o|)
  {
    StepMoves(g, preds, o, D, i, b, m);
    MovedCloser(o, D, D[b := m as int], b, m);
  }

  // The pointer of b is on the chains of all calculated predecessors.
  ghost predicate Agrees(preds: seq<seq<Label>>, o: seq<Label>, D: Doms, b: Label)
    requires Forest(o, D)
  {
    b < |D| && b < |preds| && D[b] >= 0 && Common(o, D, preds[b], D[b])
  }

  ghost predicate Settled(preds: seq<seq<Label>>, o: seq<Label>, D: Doms, k: int)
    requires Forest(o, D)
  {
    forall c :: k <= c < |o| - 1 && c >= 0 ==> Agrees(preds, o, D, o[c])
  }

  // On a settled forest the pointer of b is on the chain of every reachable predecessor.
  lemma SettledEdge(g: Graph, preds: seq<seq<Label>>, o: seq<Label>, D: Doms, a: Label, b: Label)
    requires Known(g, preds, o) && Forest(o, D) && Swept(o, D, 0) && Settled(preds, o, D, 0)
    requires Reachable(g, a) && Edge(g, a, b) && b != 0
    ensures Node(o, D, a) && Node(o, D, b) && PointsUp(o, D, b) && Anc(o, D, D[b], a)
  {
    StepReachable(g, a, b);
    assert Node(o, D, o[Pos(o, a)]) && Node(o, D, o[Pos(o, b)]);
    assert Agrees(preds, o, D, o[Pos(o, b)]);
    assert a in preds[b];
  }

  // On a settled forest every block on the chain of b is on every path to b.
  lemma {:induction false} SettledChain(g: Graph, preds: seq<seq<Label>>, o: seq<Label>, D: Doms, y: Label,
                                        p: seq<Label>, b: Label)
    requires Known(g, preds, o) && Forest(o, D) && Swept(o, D, 0) && Settled(preds, o, D, 0)
    requires PathTo(g, p, b) && Node(o, D, b) && Anc(o, D, y, b)
    ensures y in p
    decreases |p|
  {
    if y != b && b != 0 {
      var a := p[|p| - 2];
      PrefixPath(g, p, b, |p| - 2);
      SettledEdge(g, preds, o, D, a, b);
      AncTrans(o, D, y, D[b], a);
      SettledChain(g, preds, o, D, y, p[..|p| - 1], a);
    }
  }

  // What the table of dominators says, once it is done.
  ghost predicate ExactDoms(g: Graph, D: Doms)
  {
    && |D| == |g| > 0
    && D[0] == 0
    && forall b: Label :: 0 < b < |g| ==>
         0 <= D[b] < |g| && if Reachable(g, b) then IsIdom(g, D[b], b) else D[b] == 0
  }

  lemma SettledIsIdom(g: Graph, preds: seq<seq<Label>>, o: seq<Label>, D: Doms, b: Label)
    requires Known(g, preds, o) && Inv(g, preds, o, D, 0)
    requires Swept(o, D, 0) && Settled(preds, o, D, 0)
    requires b in o && b != 0
    ensures 0 <= D[b] < |g| && IsIdom(g, D[b], b)
  {
    assert Node(o, D, o[Pos(o, b)]);
    assert NodeInv(g, preds, o, D, 0, b);
    forall p | PathTo(g, p, b) ensures (D[b] as Label) in p {
      SettledChain(g, preds, o, D, D[b], p, b);
    }
  }

  // Every block but the entry has its first predecessor later in the postorder.
  ghost predicate FirstPredsLater(g: Graph, preds: seq<seq<Label>>)
    requires WellFormed(g)
  {
    LaterFrom(preds, PostorderOf(g), 0)
  }

  ghost predicate LaterFrom(preds: seq<seq<Label>>, o: seq<Label>, k: int)
  {
    forall c :: k <= c < |o| - 1 && c >= 0 ==> FirstPredLater(preds, o, o[c])
  }

  // The state of a sweep that has come down to position i.
  ghost predicate SweepInv(g: Graph, preds: seq<seq<Label>>, o: seq<Label>, D: Doms, i: int,
                           first: bool, changed: bool)
    requires Known(g, preds, o)
  {
    && Inv(g, preds, o, D, i)
    && Swept(o, D, if first then i else 0)
    && LaterFrom(preds, o, if first then i else 0)
    && (first ==> Fresh(o, D, i))
    && (!changed ==> Settled(preds, o, D, i))
  }

  lemma StepParts(g: Graph, preds: seq<seq<Label>>, o: seq<Label>, D: Doms, i: nat, b: Label, m: Label)
    requires Known(g, preds, o) && Step(g, preds, o, D, i, b, m)
    ensures FirstPredLater(preds, o, b) && b < |preds| && b < |D| && Pos(o, b) == i
    ensures Forest(o, D) && Common(o, D, preds[b], m)
  {
    PosAt(o, i);
  }

  // Treating position i carries the sweep's state one position down.
  lemma SweepStep(g: Graph, preds: seq<seq<Label>>, o: seq<Label>, D: Doms, i: nat, m: Label,
                  first: bool, changed: bool)
    requires Known(g, preds, o) && i < |o| - 1
    requires SweepInv(g, preds, o, D, i + 1, first, changed)
    requires o[i] < |D| && Step(g, preds, o, D, i, o[i], m)
    ensures SweepInv(g, preds, o, D[o[i] := m as int], i, first, changed || D[o[i]] != m)
  {
    hide Inv, Known, Step, Swept, LaterFrom, Fresh, Settled, FirstPredLater, Common, Forest, Pos;
    var E := D[o[i] := m as int];
    StepInv(g, preds, o, D, i, o[i], m);
    StepParts(g, preds, o, D, i, o[i], m);
    SweptStep(o, D, E, i);
    LaterStep(preds, o, i, first);
    if first { FreshStep(o, D, E, i); }
    if !changed && D[o[i]] == m {
      assert E == D;
      SettledStep(preds, o, D, i, m);
    }
  }

  lemma SweptStep(o: seq<Label>, D: Doms, E: Doms, i: nat)
    requires i < |o| && o[i] < |D| && |D| == |E| && E[o[i]] != -1
    requires forall l: Label :: l < |D| && l != o[i] ==> E[l] == D[l]
    ensures Swept(o, D, i + 1) ==> Swept(o, E, i)
    ensures Swept(o, D, 0) ==> Swept(o, E, 0)
  {
    forall c: nat | c < |o| && Node(o, D, o[c]) ensures Node(o, E, o[c]) {
    }
    assert Node(o, E, o[i]);
    if Swept(o, D, i + 1) {
      forall c | i <= c < |o| ensures Node(o, E, o[c]) {
        assert c > i ==> Node(o, D, o[c]);
      }
    }
    if Swept(o, D, 0) {
      forall c | 0 <= c < |o| ensures Node(o, E, o[c]) {
        assert Node(o, D, o[c]);
      }
    }
  }

  lemma LaterStep(preds: seq<seq<Label>>, o: seq<Label>, i: nat, first: bool)
    requires i < |o| - 1 && FirstPredLater(preds, o, o[i])
    requires LaterFrom(preds, o, if first then i + 1 else 0)
    ensures LaterFrom(preds, o, if first then i else 0)
  {
  }

  lemma FreshStep(o: seq<Label>, D: Doms, E: Doms, i: nat)
    requires i < |o| && |D| == |E| && Pos(o, o[i]) == i && Fresh(o, D, i + 1)
    requires forall l: Label :: l < |D| && l != o[i] ==> E[l] == D[l]
    ensures Fresh(o, E, i)
  {
  }

  lemma SettledStep(preds: seq<seq<Label>>, o: seq<Label>, D: Doms, i: nat, m: Label)
    requires Forest(o, D) && i < |o| - 1 && o[i] < |preds| && o[i] < |D| && D[o[i]] == m
    requires Common(o, D, preds[o[i]], m) && Settled(preds, o, D, i + 1)
    ensures Settled(preds, o, D, i)
  {
    hide Common, Forest;
    assert Agrees(preds, o, D, o[i]);
    forall c | i <= c < |o| - 1 ensures Agrees(preds, o, D, o[c]) {
    }
  }

  // The body of the sweep. None is the source's tb_todo().
  method SweepAt(g: Graph, preds: seq<seq<Label>>, order: seq<Label>, doms: array<int>, i: nat,
                 ghost first: bool, changed: bool) returns (r: Option<bool>)
    requires Known(g, preds, order) && i < |order| - 1
    requires SweepInv(g, preds, order, doms[..], i + 1, first, changed)
    modifies doms
    ensures r.Some? ==> SweepInv(g, preds, order, doms[..], i, first, r.value)
    ensures r.Some? ==> (changed ==> r.value)
    ensures r.Some? ==> Distance(order, doms[..], |order|) <= Distance(order, old(doms[..]), |order|)
    ensures r.Some? && r.value && !changed ==>
              Distance(order, doms[..], |order|) < Distance(order, old(doms[..]), |order|)
    ensures r.None? ==> !FirstPredLater(preds, order, order[i])
  {
    ghost var D := doms[..];
    var m := NewIdom(g, preds, order, doms, i);
    if m.None? { return None; }
    var b := order[i];
    assert Step(g, preds, order, D, i, b, m.value);
    SweepStep(g, preds, order, D, i, m.value, first, changed);
    r := Some(changed);
    if doms[b] != m.value {
      StepCloser(g, preds, order, D, i, b, m.value);
      doms[b] := m.value;
      r := Some(true);
    }
    assert doms[..] == D[b := m.value as int];
  }

  // One sweep over the traversal in reverse; tells whether a pointer changed.
  method Sweep(g: Graph, preds: seq<seq<Label>>, order: seq<Label>, doms: array<int>, ghost first: bool)
    returns (r: Option<bool>)
    requires Known(g, preds, order)
    requires SweepInv(g, preds, order, doms[..], |order| - 1, first, false)
    modifies doms
    ensures r.Some? ==> SweepInv(g, preds, order, doms[..], 0, false, r.value)
    ensures r.Some? ==> Distance(order, doms[..], |order|) <= Distance(order, old(doms[..]), |order|)
    ensures r.Some? && r.value ==>
              Distance(order, doms[..], |order|) < Distance(order, old(doms[..]), |order|)
    ensures r.None? ==> !LaterFrom(preds, order, 0)
  {
    hide SweepInv, Distance, LaterFrom, FirstPredLater;
    var changed := false;
    var i := |order| - 1;
    while i > 0
      invariant 0 <= i <= |order| - 1
      invariant SweepInv(g, preds, order, doms[..], i, first, changed)
      invariant Distance(order, doms[..], |order|) <= Distance(order, old(doms[..]), |order|)
      invariant changed ==> Distance(order, doms[..], |order|) < Distance(order, old(doms[..]), |order|)
    {
      i := i - 1;
      var c := SweepAt(g, preds, order, doms, i, first, changed);
      if c.None? {
        NotLater(preds, order, i);
        return None;
      }
      changed := c.value;
    }
    SweepDone(g, preds, order, doms[..], first, changed);
    return Some(changed);
  }

  lemma NotLater(preds: seq<seq<Label>>, o: seq<Label>, i: nat)
    requires i < |o| - 1 && !FirstPredLater(preds, o, o[i])
    ensures !LaterFrom(preds, o, 0)
  {
  }

  lemma SweepDone(g: Graph, preds: seq<seq<Label>>, o: seq<Label>, D: Doms, first: bool, changed: bool)
    requires Known(g, preds, o) && SweepInv(g, preds, o, D, 0, first, changed)
    ensures SweepInv(g, preds, o, D, 0, false, changed)
  {
  }

  lemma SweepStarts(g: Graph, preds: seq<seq<Label>>, o: seq<Label>, D: Doms, changed: bool)
    requires Known(g, preds, o) && SweepInv(g, preds, o, D, 0, false, changed)
    ensures SweepInv(g, preds, o, D, |o| - 1, false, false)
    ensures LaterFrom(preds, o, 0)
  {
    NextSweep(g, preds, o, D);
  }

  lemma FirstSweepStarts(g: Graph, preds: seq<seq<Label>>, o: seq<Label>, D: Doms)
    requires Known(g, preds, o) && |D| == |g| && D[0] == 0
    requires forall c :: 1 <= c < |D| ==> D[c] == -1
    ensures SweepInv(g, preds, o, D, |o| - 1, true, false)
  {
    PosAt(o, |o| - 1);
    InitInv(g, preds, o, D);
  }

  // The last loop: blocks that were never calculated are unreachable and get the entry.
  lemma Finished(g: Graph, preds: seq<seq<Label>>, o: seq<Label>, D: Doms, E: Doms)
    requires Known(g, preds, o) && SweepInv(g, preds, o, D, 0, false, false)
    requires |E| == |D| && forall b :: 0 <= b < |D| ==> E[b] == if b > 0 && D[b] == -1 then 0 else D[b]
    ensures ExactDoms(g, E)
  {
    forall b: Label | 0 < b < |g|
      ensures 0 <= E[b] < |g| && if Reachable(g, b) then IsIdom(g, E[b], b) else E[b] == 0
    {
      if Reachable(g, b) {
        SettledIsIdom(g, preds, o, D, b);
      }
    }
  }

  // "undef all dominator entries"
  method Reset(doms: array<int>)
    requires doms.Length > 0
    modifies doms
    ensures doms[0] == 0 && forall l :: 1 <= l < doms.Length ==> doms[l] == -1
  {
    doms[0] := 0;
    for i := 1 to doms.Length
      invariant doms[0] == 0 && forall l :: 1 <= l < i ==> doms[l] == -1
    {
      doms[i] := -1;
    }
  }

  method MapUndefinedToEntry(doms: array<int>)
    requires doms.Length > 0
    modifies doms
    ensures forall b :: 0 <= b < doms.Length ==>
              doms[b] == if b > 0 && old(doms[b]) == -1 then 0 else old(doms[b])
  {
    for i := 1 to doms.Length
      invariant forall b :: 0 <= b < doms.Length ==>
                  doms[b] == if 0 < b < i && old(doms[b]) == -1 then 0 else old(doms[b])
    {
      if doms[i] == -1 {
        doms[i] := 0;
      }
    }
  }

  // while (changed)
  method Fixpoint(g: Graph, preds: seq<seq<Label>>, order: seq<Label>, doms: array<int>) returns (ok: bool)
    requires Known(g, preds, order)
    requires SweepInv(g, preds, order, doms[..], |order| - 1, true, false)
    modifies doms
    ensures ok <==> LaterFrom(preds, order, 0)
    ensures ok ==> SweepInv(g, preds, order, doms[..], 0, false, false)
  {
    hide SweepInv, Distance, LaterFrom, Known;
    ghost var first := true;
    var changed := true;
    while changed
      invariant first ==> changed && SweepInv(g, preds, order, doms[..], |order| - 1, true, false)
      invariant !first ==> SweepInv(g, preds, order, doms[..], 0, false, changed)
      decreases first, Distance(order, doms[..], |order|), changed
    {
      if !first { SweepStarts(g, preds, order, doms[..], changed); }
      var r := Sweep(g, preds, order, doms, first);
      if r.None? { return false; }
      changed := r.value;
      first := false;
    }
    SweepStarts(g, preds, order, doms[..], false);
    return true;
  }

  // tb_get_dominators. It returns true, with the exact dominators of the function, when no
  // block's first predecessor is reached backwards; otherwise it runs into tb_todo().
  method GetDominators(g: Graph, preds: seq<seq<Label>>, doms: array<int>) returns (ok: bool)
    requires WellFormed(g) && IsPredTable(g, preds) && doms.Length == |g|
    modifies doms
    ensures ok <==> FirstPredsLater(g, preds)
    ensures ok ==> ExactDoms(g, doms[..])
  {
    Reset(doms);
    var walk := GetPostorder(g);
    var order := walk.traversal[..walk.count];
    PostorderOfIsPostorder(g);
    FirstSweepStarts(g, preds, order, doms[..]);
    ok := Fixpoint(g, preds, order, doms);
    if ok {
      ghost var D := doms[..];
      MapUndefinedToEntry(doms);
      Finished(g, preds, order, D, doms[..]);
    }
  }

  // Graphs on which the table of predecessors or of dominators runs into a tb_todo() or an assert.
  ghost predicate Unsupported(g: Graph)
    requires WellFormed(g)
  {
    NoTable(g) || !FirstPredsLater(g, PredTable(g))
  }

  // A reachable block whose first predecessor is itself stops the literal code.
  lemma SelfPredFails(g: Graph, preds: seq<seq<Label>>, b: Label)
    requires WellFormed(g) && IsPredTable(g, preds)
    requires 0 < b < |g| && Reachable(g, b) && preds[b] != [] && preds[b][0] == b
    ensures !FirstPredsLater(g, preds)
  {
    hide Walk, WalkAll;
    var o := PostorderOf(g);
    PostorderOfIsPostorder(g);
    assert b in o && o[Pos(o, b)] == b;
    NotLater(preds, o, Pos(o, b));
  }

  // No block is entered from two. Then neither table runs into tb_todo().
  ghost predicate OneWayIn(g: Graph)
  {
    forall a: Label, c: Label, b: Label :: 0 < b && Edge(g, a, b) && Edge(g, c, b) ==> a == c
  }

  lemma OneWaySupported(g: Graph)
    requires WellFormed(g) && NamesOnce(g) && OneWayIn(g)
    ensures !Unsupported(g)
  {
    NamesOnceTable(g);
    var o := PostorderOf(g);
    PostorderOfIsPostorder(g);
    hide PostorderOf, IsPostorder, PredTable;
    forall c | 0 <= c < |o| - 1 ensures FirstPredLater(PredTable(g), o, o[c]) {
      OneWayLater(g, o, c);
    }
  }

  lemma OneWayLater(g: Graph, o: seq<Label>, c: nat)
    requires WellFormed(g) && IsPostorder(g, o) && OneWayIn(g) && c < |o| - 1
    ensures FirstPredLater(PredTable(g), o, o[c])
  {
    hide PredTable, Edge, WellFormed;
    assert LaterPred(g, o, c);
    var m :| c < m < |o| && Edge(g, o[m], o[c]);
    assert o[c] in o && o[c] != o[|o| - 1];
    var ps := PredTable(g)[o[c]];
    assert PredRow(g, o[c], ps) && PredList(g, o[c], |g|, ps);
    assert ps[0] in ps && Edge(g, ps[0], o[c]);
    assert o[Pos(o, o[c])] == o[c] && o[Pos(o, o[m])] == o[m];
  }

  // Such a function: block 1 loops on itself and is entered from block 2, so in block order
  // its first predecessor is block 1.
  function SelfLoop(): Graph
  {
    [Goto(2), Goto(1), Goto(1)]
  }

  lemma SelfLoopEdges()
    ensures WellFormed(SelfLoop()) && PathTo(SelfLoop(), [0, 2, 1], 1)
    ensures forall a: Label :: Edge(SelfLoop(), a, 1) <==> a == 1 || a == 2
  {
    var g := SelfLoop();
    assert Targets(g[0]) == [2] && Targets(g[1]) == [1] && Targets(g[2]) == [1];
  }

  lemma SelfLoopFails()
    ensures WellFormed(SelfLoop()) && Unsupported(SelfLoop())
  {
    var g := SelfLoop();
    SelfLoopEdges();
    var preds := PredTable(g);
    hide FirstPredsLater, WellFormed, SelfLoop, PredTable, Edge;
    assert PredRow(g, 1, preds[1]) && PredList(g, 1, |g|, preds[1]);
    assert 1 in preds[1];
    var i :| 0 <= i < |preds[1]| && preds[1][i] == 1;
    assert preds[1][0] in preds[1] && preds[1][0] <= preds[1][i];
    SelfPredFails(g, preds, 1);
  }

  // ----- Reading the table -----

  // Steps from a block up to the entry along the table.
  ghost function Depth(g: Graph, b: Label): nat
  {
    |set x: Label | x in Range(|g|) && Dom(g, x, b)|
  }

  lemma IdomShallower(g: Graph, d: Label, b: Label)
    requires IsIdom(g, d, b) && Reachable(g, b)
    ensures Depth(g, d) < Depth(g, b)
  {
    var s := set x: Label | x in Range(|g|) && Dom(g, x, d);
    var t := set x: Label | x in Range(|g|) && Dom(g, x, b);
    DomReachable(g, d, b);
    forall x | x in s ensures x in t {
      DomTrans(g, x, d, b);
    }
    assert b !in s by {
      if Dom(g, b, d) { DomAntisym(g, b, d); }
    }
    assert b in t;
    SmallerSet(s, t, b);
  }

  // tb_is_dominated_by: exactly whether x dominates bb, for reachable bb.
  method IsDominatedBy(g: Graph, doms: array<int>, x: Label, bb: Label) returns (r: bool)
    requires ExactDoms(g, doms[..]) && bb < |g|
    ensures Reachable(g, bb) ==> (r <==> Dom(g, x, bb))
    ensures !Reachable(g, bb) ==> (r <==> x == bb || x == 0)
  {
    var b := bb;
    ghost var reach := Reachable(g, bb);
    while b != 0 && x != b
      invariant 0 <= b < |g|
      invariant reach ==> Reachable(g, b) && (Dom(g, x, bb) <==> Dom(g, x, b))
      invariant !reach ==> b == bb || (b == 0 && x != bb)
      decreases b != 0 && !reach, if reach then Depth(g, b) else 0
    {
      if reach {
        var d: Label := doms[b];
        assert IsIdom(g, d, b);
        DomReachable(g, d, b);
        IdomShallower(g, d, b);
        if Dom(g, x, d) { DomTrans(g, x, d, b); }
      }
      b := doms[b];
    }
    if reach && b == 0 && Dom(g, x, 0) { DomEntry(g, x); }
    return x == b;
  }

  // 0: if c then 3 else 2    1: goto 2    2: goto 1    3: goto 1
  function Crossing(): Graph
  {
    [If(0, 3, 2), Goto(2), Goto(1), Goto(1)]
  }

  lemma CrossingTargets()
    ensures |Crossing()| == 4 && NamesOnce(Crossing())
    ensures Targets(Crossing()[0]) == [2, 3] && Targets(Crossing()[1]) == [2]
    ensures Targets(Crossing()[2]) == [1] && Targets(Crossing()[3]) == [1]
  {
  }

  lemma CrossingEdges()
    ensures |Crossing()| == 4 && WellFormed(Crossing())
    ensures forall a: Label, b: Label :: Edge(Crossing(), a, b) <==> (a, b) in {(0, 2), (0, 3), (1, 2), (2, 1), (3, 1)}
  {
    hide Crossing, Targets;
    CrossingTargets();
    var g := Crossing();
    forall a: Label, b: Label ensures Edge(g, a, b) <==> (a, b) in {(0, 2), (0, 3), (1, 2), (2, 1), (3, 1)} {
      if a == 0 {
      } else if a == 1 {
      } else if a == 2 {
      } else if a == 3 {
      }
    }
    forall b, l | 0 <= b < 4 && l in Targets(g[b]) ensures l < 4 {
      assert b == 0 || b == 1 || b == 2 || b == 3;
    }
  }

  // The false side is walked first, so that block 2 comes after block 1.
  lemma CrossingOrder()
    ensures WellFormed(Crossing()) && PostorderOf(Crossing()) == [1, 2, 3, 0]
  {
    hide Crossing, WellFormed, Targets, Walk, WalkAll, PostorderOf;
    var g := Crossing();
    CrossingTargets();
    CrossingEdges();
    WalkSeen(g, {0, 2, 1}, 2);
    WalkOne(g, {0, 2}, 1, 2);
    assert {0, 2} + {1} == {0, 2, 1};
    WalkOne(g, {0}, 2, 1);
    assert {0} + {2} == {0, 2};
    WalkSeen(g, {0, 1, 2, 3}, 1);
    WalkOne(g, {0, 1, 2}, 3, 1);
    assert {0, 1, 2} + {3} == {0, 1, 2, 3};
    CrossingWalk(g);
  }

  lemma CrossingWalk(g: Graph)
    requires WellFormed(g) && |g| == 4 && Targets(g[0]) == [2, 3]
    requires Walk(g, {0}, 2) == [1, 2] && Walk(g, {0, 1, 2}, 3) == [3]
    ensures PostorderOf(g) == [1, 2, 3, 0]
  {
    hide Walk, WalkAll, WellFormed, PostorderOf;
    assert [2, 3] == [2] + [3] && [3] == [3] + [];
    WalkStart(g);
    assert {0} + Elems([1, 2]) == {0, 1, 2} && {0, 1, 2} + Elems([3]) == {0, 1, 2, 3};
    WalkFirst(g, {0}, 2, [3], [1, 2], {0, 1, 2});
    WalkFirst(g, {0, 1, 2}, 3, [], [3], {0, 1, 2, 3});
    WalkNone(g, {0, 1, 2, 3});
  }

  lemma CrossingPos()
    ensures var o := [1, 2, 3, 0]; Pos(o, 1) == 0 && Pos(o, 2) == 1 && Pos(o, 3) == 2 && Pos(o, 0) == 3
  {
    var o := [1, 2, 3, 0];
    assert o[Pos(o, 1)] == 1 && o[Pos(o, 2)] == 2 && o[Pos(o, 3)] == 3 && o[Pos(o, 0)] == 0;
  }

  lemma CrossingSupported()
    ensures WellFormed(Crossing()) && !Unsupported(Crossing())
  {
    hide Crossing, WellFormed, PostorderOf, PredTable, Edge, Pos;
    var g := Crossing();
    CrossingTargets();
    CrossingEdges();
    CrossingOrder();
    CrossingPos();
    NamesOnceTable(g);
    FirstIsLowest(g, 1, 2);
    FirstIsLowest(g, 2, 0);
    FirstIsLowest(g, 3, 0);
    var o := [1, 2, 3, 0];
    forall c | 0 <= c < 3 ensures FirstPredLater(PredTable(g), o, o[c]) {
      assert c == 0 || c == 1 || c == 2;
    }
  }

  // The analyses get through, as they would not if the true side were walked first.
  method CrossingSucceeds() returns (ok: bool)
    ensures ok
  {
    hide Crossing, Unsupported, FirstPredsLater, PredTable;
    CrossingSupported();
    WhenSupported(Crossing());
    var ps := GetPredecessors(Crossing());
    var doms := new int[|Crossing()|];
    ok := GetDominators(Crossing(), ps.value, doms);
  }

  lemma WhenSupported(g: Graph)
    requires WellFormed(g) && !Unsupported(g)
    ensures !NoTable(g) && FirstPredsLater(g, PredTable(g))
  {
  }
}
