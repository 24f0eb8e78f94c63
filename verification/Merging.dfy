// Replacing a register by its twin and then dropping its node, any number of times: what
// src/tb/opt/cse.h and the small form of src/tb/opt/canonical.c:78-321 do to a function.

module Merging {
  import opened Cfg
  import opened Ir
  import opened Ssa
  import opened Replacing
  import opened Removal

  // h is f after r gave way to s.
  ghost predicate MergeStep(f: Function, h: Function, r: Reg, s: Reg)
  {
    exists m :: MergeBy(f, m, h, r, s)
  }

  ghost predicate MergeBy(f: Function, m: Function, h: Function, r: Reg, s: Reg)
  {
    && Shape(f) && SsaForm(f) && Stands(f, r, s) && (r != s || !InReach(f, r))
    && Swapped(f, m, r, s) && Killed(m, h, r)
  }

  // The merge of a node with one before it.
  lemma MergeAt(f: Function, m: Function, h: Function, r: Reg, s: Reg, b: Label, k: nat)
    requires Shape(f) && SsaForm(f) && Twin(f, r, s, b, k) && (r != s || !Reachable(GraphOf(f), b))
    requires Swapped(f, m, r, s) && Killed(m, h, r)
    ensures MergeStep(f, h, r, s)
  {
    hide SsaForm, Swapped, Killed, Stands, Reachable;
    TwinStands(f, r, s, b, k);
    if InReach(f, r) {
      var c: Label :| c < |f.blocks| && r in f.blocks[c].body && Reachable(GraphOf(f), c);
      assert c == b;
    }
    assert MergeBy(f, m, h, r, s);
  }

  datatype Merge = Merge(gone: Reg, kept: Reg)

  ghost predicate Merged(f: Function, h: Function, steps: seq<Merge>)
    decreases |steps|
  {
    if steps == [] then h == f
    else
      var front, last := steps[..|steps| - 1], steps[|steps| - 1];
      exists m :: Merged(f, m, front) && MergeStep(m, h, last.gone, last.kept)
  }

  ghost function Gone(steps: seq<Merge>): set<Reg>
  {
    if steps == [] then {} else Gone(steps[..|steps| - 1]) + {steps[|steps| - 1].gone}
  }

  lemma MergeMore(f: Function, m: Function, h: Function, steps: seq<Merge>, last: Merge)
    requires Merged(f, m, steps) && MergeStep(m, h, last.gone, last.kept)
    ensures Merged(f, h, steps + [last]) && Gone(steps + [last]) == Gone(steps) + {last.gone}
  {
    hide MergeStep;
    assert (steps + [last])[..|steps|] == steps;
  }

  lemma MergeStepShape(f: Function, h: Function, r: Reg, s: Reg)
    requires MergeStep(f, h, r, s)
    ensures Shape(h) && SsaForm(h) && SameSkeleton(f, h)
  {
    var m :| MergeBy(f, m, h, r, s);
    MergeShape(f, m, h, r, s);
  }

  lemma OneMerge<V(!new), W(!new)>(sem: Sem<V, W>, f: Function, h: Function, r: Reg, s: Reg, w: W, n: nat)
    requires Shape(f) && MergeStep(f, h, r, s)
    ensures Shape(h) && SsaForm(h) && SameSkeleton(f, h)
    ensures SameBut(sem, {r}, Run(sem, {}, f, w, n), Run(sem, {}, h, w, n))
  {
    var m :| MergeBy(f, m, h, r, s);
    MergeShape(f, m, h, r, s);
    SwapPreservesRuns(sem, f, m, r, s, w, n);
    RemovalPreservesRuns(sem, m, h, r, w, n);
  }

  lemma MergeShape(f: Function, m: Function, h: Function, r: Reg, s: Reg)
    requires MergeBy(f, m, h, r, s)
    ensures Shape(m) && SsaForm(m) && Shape(h) && SsaForm(h) && SameSkeleton(f, h)
    ensures Unused(m, r) && r < |m.nodes| && (m.nodes[r].Pure? || m.nodes[r].Pass?)
  {
    hide Shape, SsaForm, Unused, Reachable, UsesCovered, InReach;
    SwapKeepsSsa(f, m, r, s);
    SwapSkeleton(f, m, r, s);
    ReplacedUnused(f, m, r, s);
    KillKeepsSsa(m, h, r);
    KillShape(m, h, r);
  }

  lemma SameButTrans<V, W>(sem: Sem<V, W>, A: set<Reg>, B: set<Reg>, c: Config<V, W>, d: Config<V, W>, e: Config<V, W>)
    requires SameBut(sem, A, c, d) && SameBut(sem, B, d, e)
    ensures SameBut(sem, A + B, c, e)
  {
  }

  // The theorem: however many registers have given way, every run visits the same blocks with
  // the same effects and outcome, and all other registers keep their values.
  lemma {:induction false} MergingPreservesRuns<V(!new), W(!new)>(sem: Sem<V, W>, f: Function, h: Function,
                                                                  steps: seq<Merge>, w: W, n: nat)
    requires Shape(f) && SsaForm(f) && Merged(f, h, steps)
    ensures Shape(h) && SsaForm(h) && SameSkeleton(f, h)
    ensures SameBut(sem, Gone(steps), Run(sem, {}, f, w, n), Run(sem, {}, h, w, n))
    decreases |steps|
  {
    hide Shape, SsaForm, Run, MergeStep;
    if steps != [] {
      var l := |steps| - 1;
      var m :| Merged(f, m, steps[..l]) && MergeStep(m, h, steps[l].gone, steps[l].kept);
      MergingPreservesRuns(sem, f, m, steps[..l], w, n);
      OneMerge(sem, m, h, steps[l].gone, steps[l].kept, w, n);
      hide SameBut;
      SameButTrans(sem, Gone(steps[..l]), {steps[l].gone}, Run(sem, {}, f, w, n), Run(sem, {}, m, w, n),
                   Run(sem, {}, h, w, n));
    }
  }

  lemma {:induction false} MergedShape(f: Function, h: Function, steps: seq<Merge>)
    requires Shape(f) && SsaForm(f) && Merged(f, h, steps)
    ensures Shape(h) && SsaForm(h) && SameSkeleton(f, h)
    decreases |steps|
  {
    hide Shape, SsaForm, MergeStep;
    if steps != [] {
      var l := |steps| - 1;
      var m :| Merged(f, m, steps[..l]) && MergeStep(m, h, steps[l].gone, steps[l].kept);
      MergedShape(f, m, steps[..l]);
      MergeStepShape(m, h, steps[l].gone, steps[l].kept);
    }
  }

  // ----- Merges whatever they do -----

  // Replacing r by s and dropping r, for any r and s.
  ghost function MergedAs(f: Function, r: Reg, s: Reg): Function
  {
    if r < |f.nodes| then MergedFunction(f, r, s) else f
  }

  ghost function MergeAll(f: Function, steps: seq<Merge>): Function
  {
    if steps == [] then f
    else
      var front, last := steps[..|steps| - 1], steps[|steps| - 1];
      MergedAs(MergeAll(f, front), last.gone, last.kept)
  }

  lemma MergeAllMore(f: Function, steps: seq<Merge>, last: Merge)
    ensures MergeAll(f, steps + [last]) == MergedAs(MergeAll(f, steps), last.gone, last.kept)
  {
    assert (steps + [last])[..|steps|] == steps;
  }

  // Every step merges two different nodes with the same operation and operands.
  ghost predicate EachSame(f: Function, steps: seq<Merge>)
  {
    steps == [] ||
    (var front, last := steps[..|steps| - 1], steps[|steps| - 1];
     EachSame(f, front) && SameNodes(MergeAll(f, front), last.gone, last.kept))
  }

  ghost predicate SameNodes(f: Function, r: Reg, s: Reg)
  {
    && |f.nodes| > 0 && f.nodes[0] == Null && r != s
    && r < |f.nodes| && s < |f.nodes| && f.nodes[r].Pure? && f.nodes[s] == f.nodes[r]
  }

  // In every step the kept node is defined wherever the other is read.
  ghost predicate Covered(f: Function, steps: seq<Merge>)
  {
    steps == [] ||
    (var front, last := steps[..|steps| - 1], steps[|steps| - 1];
     var m := MergeAll(f, front);
     Covered(f, front) && Shape(m) && UsesCovered(m, last.gone, last.kept))
  }

  // The graph is in SSA form after every step.
  ghost predicate AlwaysSsa(f: Function, steps: seq<Merge>)
  {
    && Shape(MergeAll(f, steps)) && SsaForm(MergeAll(f, steps))
    && (steps != [] ==> AlwaysSsa(f, steps[..|steps| - 1]))
  }

  lemma SameCovers(f: Function, r: Reg, s: Reg)
    requires Shape(f) && SsaForm(f) && SameNodes(f, r, s) && UsesCovered(f, r, s)
    ensures MergeStep(f, MergedFunction(f, r, s), r, s)
    ensures Shape(MergedFunction(f, r, s)) && SsaForm(MergedFunction(f, r, s))
  {
    hide Shape, SsaForm, UsesCovered, Swapped;
    var m, h := SwappedFunction(f, r, s), MergedFunction(f, r, s);
    assert MergeBy(f, m, h, r, s);
    MergeStepShape(f, h, r, s);
  }

  // Exactly when the kept node is defined at every use of the other is the result in SSA form.
  lemma MergeIff(f: Function, r: Reg, s: Reg)
    requires Shape(f) && SsaForm(f) && SameNodes(f, r, s)
    ensures Shape(MergedFunction(f, r, s)) && (SsaForm(MergedFunction(f, r, s)) <==> UsesCovered(f, r, s))
  {
    hide Shape, SsaForm, UsesCovered;
    MergedSkeleton(f, r, s);
    SkeletonShape(f, MergedFunction(f, r, s));
    if UsesCovered(f, r, s) { SameCovers(f, r, s); }
    if SsaForm(MergedFunction(f, r, s)) { SsaCovered(f, r, s); }
  }

  // The theorem, for any number of merges: the graph stays in SSA form throughout if and only if
  // every merge is covered.
  lemma {:induction false} CoveredIff(f: Function, steps: seq<Merge>)
    requires Shape(f) && SsaForm(f) && EachSame(f, steps)
    ensures Covered(f, steps) <==> AlwaysSsa(f, steps)
    ensures Covered(f, steps) ==> Merged(f, MergeAll(f, steps), steps)
    decreases |steps|
  {
    hide Shape, SsaForm, UsesCovered, MergeStep;
    if steps != [] {
      var front, last := steps[..|steps| - 1], steps[|steps| - 1];
      var m := MergeAll(f, front);
      CoveredIff(f, front);
      if AlwaysSsa(f, front) {
        MergeIff(m, last.gone, last.kept);
        if UsesCovered(m, last.gone, last.kept) { SameCovers(m, last.gone, last.kept); }
      }
    }
  }

  // Then every run goes as before.
  lemma CoveredPreservesRuns<V(!new), W(!new)>(sem: Sem<V, W>, f: Function, steps: seq<Merge>, w: W, n: nat)
    requires Shape(f) && SsaForm(f) && EachSame(f, steps) && Covered(f, steps)
    ensures Shape(MergeAll(f, steps))
    ensures SameBut(sem, Gone(steps), Run(sem, {}, f, w, n), Run(sem, {}, MergeAll(f, steps), w, n))
  {
    hide Shape, SsaForm, EachSame, Covered, Merged, Run, AlwaysSsa;
    CoveredIff(f, steps);
    MergingPreservesRuns(sem, f, MergeAll(f, steps), steps, w, n);
  }
}
